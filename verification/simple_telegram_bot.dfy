/**
 * `SimpleTelegramBot` of bot_simple.py: the long-polling bot. Its state is
 * the `user_photos` store and the `users` and `messages_processed`
 * counters; `Step` is `process_update`, `PollBatch` one pass of
 * `poll_updates` over a fetched batch.
 */
module SimpleTelegramBot {
  import opened Wrappers
  import opened Strings
  import opened Transport
  import AiImageProcessor

  /** `user_photos` (an absent attribute reads as an empty store) and two `bot_status` counters. */
  datatype State = State(photos: map<UserId, string>, users: nat, messages: nat)

  const Initial: State := State(map[], 0, 0)

  /** `after` differs from `before` only in the entry of `user`, which now holds `value`. */
  ghost predicate OnlyEntryChanged(before: map<UserId, string>, after: map<UserId, string>, user: UserId, value: string) {
    && user in after && after[user] == value
    && (forall v :: v != user ==> (v in after <==> v in before))
    && (forall v :: v != user && v in before ==> after[v] == before[v])
  }

  /**
   * `handle_photo`: the largest offered photo is stored under the user,
   * replacing any earlier one, and the editing menu is sent. An empty photo
   * list or a failed download raises, and the error reply goes out only
   * when the chat id is truthy.
   */
  function HandlePhoto(s: State, chat: ChatId, user: UserId, photos: seq<PhotoSize>, env: Env): (t: Transition<State>)
    ensures t.state.users == s.users && t.state.messages == s.messages
    ensures photos == [] || photos[Largest(photos)].fileId !in env.downloads ==>
              t.state == s && t.effects == (if chat != 0 then [SendText(chat, PhotoError, NoKeyboard)] else [])
    ensures photos != [] && photos[Largest(photos)].fileId in env.downloads ==>
              && OnlyEntryChanged(s.photos, t.state.photos, user, UploadPath(user, photos[Largest(photos)].fileId))
              && t.effects == [SendText(chat, PhotoReceived, MainKeyboard)]
  {
    if photos == [] || photos[Largest(photos)].fileId !in env.downloads then
      Transition(s, if chat != 0 then [SendText(chat, PhotoError, NoKeyboard)] else [])
    else
      var path := UploadPath(user, photos[Largest(photos)].fileId);
      Transition(s.(photos := s.photos[user := path]), [SendText(chat, PhotoReceived, MainKeyboard)])
  }

  /** `format_map` of `process_convert_format`: each token names its format, in any case. */
  function FormatTable(token: string): (f: Option<string>)
    ensures f.Some? <==> token == "convert_jpeg" || token == "convert_png" || token == "convert_webp"
    ensures f.Some? ==> "convert_" + Lower(f.value) == token && AiImageProcessor.SupportedTarget(f.value)
    ensures f.Some? ==> StartsWith(token, "convert_")
  {
    if token == "convert_jpeg" then
      assert Lower("JPEG") == "jpeg";
      Some("JPEG")
    else if token == "convert_png" then
      assert Lower("PNG") == "png";
      Some("PNG")
    else if token == "convert_webp" then
      assert Lower("WebP") == "webp";
      Some("WebP")
    else None
  }

  /** `resolution_map` of `process_enhance_resolution`: the token is `enhance_` and the key. */
  function ResolutionTable(token: string): (r: Option<string>)
    ensures r.Some? <==>
              token == "enhance_8k" || token == "enhance_4k" || token == "enhance_1080p"
              || token == "enhance_720p" || token == "enhance_original"
    ensures r.Some? ==> "enhance_" + r.value == token && StartsWith(token, "enhance_")
    ensures r.Some? ==> AiImageProcessor.FixedResolution(r.value) || r.value == "original"
  {
    if token == "enhance_8k" then Some("8k")
    else if token == "enhance_4k" then Some("4k")
    else if token == "enhance_1080p" then Some("1080p")
    else if token == "enhance_720p" then Some("720p")
    else if token == "enhance_original" then Some("original")
    else None
  }

  /** The four token prefixes of the dispatch cannot both match one token. */
  lemma PrefixesExclusive(action: string)
    ensures StartsWith(action, "resize_") ==> !StartsWith(action, "crop_") && !StartsWith(action, "convert_") && !StartsWith(action, "enhance_")
    ensures StartsWith(action, "convert_") ==> !StartsWith(action, "crop_") && !StartsWith(action, "enhance_")
    ensures StartsWith(action, "enhance_") ==> !StartsWith(action, "crop_")
    ensures StartsWith(action, "resize_") || StartsWith(action, "convert_") || StartsWith(action, "enhance_") ==>
              action != "remove_bg" && action != "generate_bg"
  {
    if StartsWith(action, "resize_") {
      assert action[0] == 'r' && action[2] == 's';
    }
    if StartsWith(action, "convert_") {
      assert action[0] == 'c' && action[1] == 'o';
    }
    if StartsWith(action, "enhance_") {
      assert action[0] == 'e';
    }
  }

  /** The tokens that start processing rather than show a menu. */
  predicate Runs(action: string) {
    || SizeTable(action, true).Some?
    || (StartsWith(action, "crop_") && !StartsWith(action, "resize_"))
    || action == "remove_bg" || action == "generate_bg"
    || FormatTable(action).Some? || ResolutionTable(action).Some?
  }

  /**
   * The token tests of `handle_callback_query`, in order, for a user whose
   * photo is stored at `path`: menu tokens redraw a menu, each table token
   * names one processor call on that path, a token with a known prefix but
   * no table entry is a KeyError, and any other token does nothing.
   */
  function RouteOf(path: string, action: string): (r: Route)
    ensures r.Process? <==> Runs(action)
    ensures r.Process? ==> r.op.path == path
    ensures SizeTable(action, true).Some? ==>
              r == Process(ResizeTask, Resize(path, SizeTable(action, true).value.width, SizeTable(action, true).value.height), false)
    ensures StartsWith(action, "resize_") && SizeTable(action, true).None? ==> r == Miss(ResizeTask, Failed(ResizeTask))
    ensures StartsWith(action, "crop_") ==> r == Process(CropTask, Crop(path, RemoveAll(action, "crop_")), false)
    ensures action == "remove_bg" ==> r == Process(RemoveBackgroundTask, RemoveBackgroundRemote(path), false)
    ensures action == "generate_bg" ==> r == Process(GenerateBackgroundTask, GenerateBackgroundRemote(path), false)
    ensures FormatTable(action).Some? ==> r == Process(ConvertTask, ConvertFormat(path, FormatTable(action).value), false)
    ensures StartsWith(action, "convert_") && FormatTable(action).None? ==> r == Miss(ConvertTask, Failed(ConvertTask))
    ensures ResolutionTable(action).Some? ==> r == Process(EnhanceTask, EnhanceResolution(path, ResolutionTable(action).value), false)
    ensures StartsWith(action, "enhance_") && ResolutionTable(action).None? ==> r == Miss(EnhanceTask, Failed(EnhanceTask))
    ensures action == "enhance" ==> r == ShowMenu(EnhanceMenu, EnhanceKeyboard)
    ensures action == "back" ==> r == ShowMenu(MainMenu, MainKeyboard)
  {
    PrefixesExclusive(action);
    if action == "resize" then
      assert action[0] != "crop_"[0];
      ShowMenu(ResizeMenu, ResizeKeyboard("back"))
    else if StartsWith(action, "resize_") then
      match SizeTable(action, true)
      case None => Miss(ResizeTask, Failed(ResizeTask))
      case Some(d) => Process(ResizeTask, Resize(path, d.width, d.height), false)
    else if action == "crop" then ShowMenu(CropMenu, CropKeyboard("back"))
    else if StartsWith(action, "crop_") then Process(CropTask, Crop(path, RemoveAll(action, "crop_")), false)
    else if action == "remove_bg" then Process(RemoveBackgroundTask, RemoveBackgroundRemote(path), false)
    else if action == "generate_bg" then Process(GenerateBackgroundTask, GenerateBackgroundRemote(path), false)
    else if action == "enhance" then
      assert action[0] != "crop_"[0];
      ShowMenu(EnhanceMenu, EnhanceKeyboard)
    else if action == "convert" then
      assert action[1] != "crop_"[1];
      ShowMenu(ConvertMenu, ConvertKeyboard("back"))
    else if StartsWith(action, "convert_") then
      match FormatTable(action)
      case None => Miss(ConvertTask, Failed(ConvertTask))
      case Some(f) => Process(ConvertTask, ConvertFormat(path, f), false)
    else if StartsWith(action, "enhance_") then
      match ResolutionTable(action)
      case None => Miss(EnhanceTask, Failed(EnhanceTask))
      case Some(k) => Process(EnhanceTask, EnhanceResolution(path, k), false)
    else if action == "back" then ShowMenu(MainMenu, MainKeyboard)
    else Ignore
  }

  /** The dispatch part of `handle_callback_query`, after the stored photo is looked up. */
  function Dispatch(chat: ChatId, messageId: int, path: string, action: string, env: Env): (es: seq<Effect>)
    ensures forall op :: op in Invocations(es) ==> op.path == path
    ensures |Invocations(es)| <= 1
  {
    Perform(chat, messageId, RouteOf(path, action), env)
  }

  /**
   * `handle_callback_query`: the press is answered first; a user with no
   * stored photo gets one "send a photo first" edit and nothing else. The
   * stored path is used as it is, without checking that the file exists.
   */
  function HandleCallback(s: State, q: Query, env: Env): (es: seq<Effect>)
    ensures |es| >= 1 && es[0] == AnswerCallback(q.id)
    ensures q.user !in s.photos ==> es == [AnswerCallback(q.id), EditText(q.chat, q.messageId, PhotoFirst, NoKeyboard)]
    ensures q.user in s.photos ==> es[1..] == Dispatch(q.chat, q.messageId, s.photos[q.user], q.data, env)
    ensures forall op :: op in Invocations(es) ==> q.user in s.photos && op.path == s.photos[q.user]
  {
    var answer := AnswerCallback(q.id);
    if q.user !in s.photos then [answer, EditText(q.chat, q.messageId, PhotoFirst, NoKeyboard)]
    else
      var rest := Dispatch(q.chat, q.messageId, s.photos[q.user], q.data, env);
      InvocationsAppend([answer], rest);
      assert ([answer] + rest)[1..] == rest;
      [answer] + rest
  }

  predicate IsStart(u: Update) {
    u.Message? && u.body.Text? && StartsWith(u.body.text, "/start")
  }

  predicate IsPhotoFrom(u: Update, user: UserId) {
    u.Message? && u.body.Photos? && u.user == user
  }

  /**
   * `process_update`: every update counts as processed; a text message is
   * tested for `/start`, `/help` and `/status` by prefix, a message without
   * text but with photos is an upload, and a callback query is dispatched.
   */
  function Step(s: State, u: Update, env: Env): (t: Transition<State>)
    ensures t.state.messages == s.messages + 1
    ensures t.state.users == s.users + (if IsStart(u) then 1 else 0)
    ensures !u.Message? || !u.body.Photos? ==> t.state.photos == s.photos
    ensures forall v :: v in t.state.photos && !IsPhotoFrom(u, v) ==> v in s.photos && t.state.photos[v] == s.photos[v]
  {
    var s1 := s.(messages := s.messages + 1);
    match u
    case Message(chat, user, body) =>
      (match body
       case Text(text) =>
         if StartsWith(text, "/start") then Transition(s1.(users := s1.users + 1), [SendText(chat, Welcome, NoKeyboard)])
         else if StartsWith(text, "/help") then Transition(s1, [SendText(chat, Help, NoKeyboard)])
         else if StartsWith(text, "/status") then Transition(s1, [SendText(chat, StatusReport(s1.users, s1.messages), NoKeyboard)])
         else Transition(s1, [])
       case Photos(photos) => HandlePhoto(s1, chat, user, photos, env)
       case OtherContent => Transition(s1, []))
    case Callback(q) => Transition(s1, HandleCallback(s1, q, env))
    case OtherUpdate => Transition(s1, [])
    case EmptyUpdate => Transition(s1, [])
  }

  /** Updates processed one after another, effects in order. */
  function Run(s: State, us: seq<Update>, env: Env): Transition<State> {
    Fold((x: State, u: Update) => Step(x, u, env), s, us)
  }

  /** `messages_processed` counts every update, whatever it held. */
  lemma {:induction false} RunCountsMessages(s: State, us: seq<Update>, env: Env)
    ensures Run(s, us, env).state.messages == s.messages + |us|
    decreases |us|
  {
    if us != [] {
      RunCountsMessages(Step(s, us[0], env).state, us[1..], env);
    }
  }

  /** A user who sends no photo gains no stored photo, so each of their presses gets "send a photo first". */
  lemma {:induction false} NoUploadNoPhoto(s: State, us: seq<Update>, env: Env, user: UserId)
    requires user !in s.photos
    requires forall i :: 0 <= i < |us| ==> !IsPhotoFrom(us[i], user)
    ensures user !in Run(s, us, env).state.photos
    decreases |us|
  {
    if us != [] {
      NoUploadNoPhoto(Step(s, us[0], env).state, us[1..], env, user);
    }
  }

  /** Every stored path is the upload file of its own user. */
  ghost predicate StoresUploads(s: State) {
    forall u :: u in s.photos ==> exists f :: s.photos[u] == UploadPath(u, f)
  }

  lemma {:induction false} RunStoresUploads(s: State, us: seq<Update>, env: Env)
    requires StoresUploads(s)
    ensures StoresUploads(Run(s, us, env).state)
    decreases |us|
  {
    if us != [] {
      var next := Step(s, us[0], env).state;
      assert StoresUploads(next) by {
        forall v | v in next.photos
          ensures exists f :: next.photos[v] == UploadPath(v, f)
        {
          if IsPhotoFrom(us[0], v) && (v !in s.photos || next.photos[v] != s.photos[v]) {
            var ps := us[0].body.photos;
            assert next.photos[v] == UploadPath(v, ps[Largest(ps)].fileId);
          }
        }
      }
      RunStoresUploads(next, us[1..], env);
    }
  }

  /** Under that invariant no two users share a stored photo, so no press can process another user's file. */
  lemma StoredPhotosArePrivate(s: State, u: UserId, v: UserId)
    requires StoresUploads(s) && u in s.photos && v in s.photos && u != v
    ensures s.photos[u] != s.photos[v]
  {
    var f :| s.photos[u] == UploadPath(u, f);
    var g :| s.photos[v] == UploadPath(v, g);
    if s.photos[u] == s.photos[v] {
      UploadPathInjective(u, f, v, g);
    }
  }

  /** "Back" redraws exactly the menu an upload shows. */
  lemma BackShowsUploadMenu(s: State, chat: ChatId, q: Query, photos: seq<PhotoSize>, env: Env)
    requires q.user in s.photos && q.data == "back"
    requires photos != [] && photos[Largest(photos)].fileId in env.downloads
    ensures HandleCallback(s, q, env)[1].keyboard == HandlePhoto(s, chat, q.user, photos, env).effects[0].keyboard
  {
  }

  /** An update fetched by `get_updates`, with its `update_id`. */
  datatype Polled = Polled(updateId: int, update: Update)

  function Updates(batch: seq<Polled>): (us: seq<Update>)
    ensures |us| == |batch| && forall i :: 0 <= i < |batch| ==> us[i] == batch[i].update
  {
    if batch == [] then [] else [batch[0].update] + Updates(batch[1..])
  }

  /**
   * The `for update in updates` loop of `poll_updates`: each update is
   * processed in turn and the offset then moves past it, so after a
   * non-empty batch it is one more than the last `update_id`.
   */
  method PollBatch(s: State, offset: int, batch: seq<Polled>, env: Env) returns (s': State, offset': int, effects: seq<Effect>)
    ensures batch == [] ==> offset' == offset
    ensures batch != [] ==> offset' == batch[|batch| - 1].updateId + 1
    ensures s' == Run(s, Updates(batch), env).state && effects == Run(s, Updates(batch), env).effects
  {
    s', offset', effects := s, offset, [];
    var k := 0;
    while k < |batch|
      invariant 0 <= k <= |batch|
      invariant k == 0 ==> offset' == offset
      invariant k > 0 ==> offset' == batch[k - 1].updateId + 1
      invariant s' == Run(s, Updates(batch[..k]), env).state
      invariant effects == Run(s, Updates(batch[..k]), env).effects
    {
      var t := Step(s', batch[k].update, env);
      assert Updates(batch[..k + 1]) == Updates(batch[..k]) + [batch[k].update];
      FoldAppend((x: State, u: Update) => Step(x, u, env), s, Updates(batch[..k]), [batch[k].update]);
      s', effects := t.state, effects + t.effects;
      offset' := batch[k].updateId + 1;
      k := k + 1;
    }
    assert batch[..k] == batch;
  }
}
