/**
 * `TelegramBot` of deepseek_python_20251015_f33cc7.py: the
 * python-telegram-bot front end. Its state is `user_states`, one dict per
 * user holding the `photo_path` of the last upload, and the `users` and
 * `messages_processed` counters of `bot_status`. Unlike the polling bot it
 * checks that the stored file still exists and forgets a session whose
 * file is gone.
 */
module TelegramBot {
  import opened Wrappers
  import opened Strings
  import opened Transport

  /** One entry of `user_states`; `.get("photo_path")` may find nothing. */
  datatype Session = Session(photoPath: Option<string>)

  datatype State = State(sessions: map<UserId, Session>, users: nat, messages: nat)

  const Initial: State := State(map[], 0, 0)

  /** The updates python-telegram-bot hands to each registered handler. */
  datatype Event =
    | StartCommand(chat: ChatId)
    | HelpCommand(chat: ChatId)
    | StatusCommand(chat: ChatId)
    | PhotoMessage(chat: ChatId, user: UserId, photos: seq<PhotoSize>)
    | Pressed(query: Query)

  /**
   * `handle_photo`: counted as a processed message before anything can
   * fail; the last offered size (`photo[-1]`) is downloaded and the user's
   * whole state becomes a dict holding only its path. An empty size list or
   * a failed download is answered with the error reply.
   */
  function HandlePhoto(s: State, chat: ChatId, user: UserId, photos: seq<PhotoSize>, env: Env): (t: Transition<State>)
    ensures t.state.messages == s.messages + 1 && t.state.users == s.users
    ensures photos == [] || photos[|photos| - 1].fileId !in env.downloads ==>
              t.state.sessions == s.sessions && t.effects == [SendText(chat, PhotoError, NoKeyboard)]
    ensures photos != [] && photos[|photos| - 1].fileId in env.downloads ==>
              && t.state.sessions.Keys == s.sessions.Keys + {user}
              && t.state.sessions[user] == Session(Some(UploadPath(user, photos[|photos| - 1].fileId)))
              && (forall v :: v in s.sessions && v != user ==> t.state.sessions[v] == s.sessions[v])
              && t.effects == [SendText(chat, PhotoReceived, MainKeyboard)]
  {
    var s1 := s.(messages := s.messages + 1);
    if photos == [] || photos[|photos| - 1].fileId !in env.downloads then
      Transition(s1, [SendText(chat, PhotoError, NoKeyboard)])
    else
      var path := UploadPath(user, photos[|photos| - 1].fileId);
      Transition(s1.(sessions := s1.sessions[user := Session(Some(path))]), [SendText(chat, PhotoReceived, MainKeyboard)])
  }

  /** The session names a photo file that still exists. */
  predicate Usable(session: Session, env: Env) {
    session.photoPath.Some? && session.photoPath.value != "" && session.photoPath.value in env.files
  }

  /** The prefix of the format buttons. */
  const ConvertPrefix: string := "convert_"

  /** The format `process_convert_format` reads off a token: the rest of the token, upper-cased. */
  function FormatName(action: string): string {
    Upper(RemoveAll(action, ConvertPrefix))
  }

  /** The four token prefixes of the dispatch cannot both match one token. */
  lemma PrefixesExclusive(action: string)
    ensures StartsWith(action, "resize_") ==> !StartsWith(action, "crop_") && !StartsWith(action, ConvertPrefix)
    ensures StartsWith(action, ConvertPrefix) ==>
              !StartsWith(action, "crop_") && action != "remove_bg" && action != "generate_bg" && action != "enhance"
  {
    if StartsWith(action, "resize_") {
      assert action[0] == 'r';
    }
    if StartsWith(action, ConvertPrefix) {
      assert action[0] == 'c' && action[1] == 'o';
    }
  }

  /** The tokens that start processing rather than show a menu or refuse. */
  predicate Runs(action: string) {
    || SizeTable(action, true).Some?
    || StartsWith(action, "crop_")
    || action == "remove_bg" || action == "generate_bg" || action == "enhance"
    || StartsWith(action, ConvertPrefix)
  }

  /** The tokens `handle_callback` tests for; a press of any other does nothing. */
  predicate Handled(action: string) {
    || action == "resize" || StartsWith(action, "resize_")
    || action == "crop" || StartsWith(action, "crop_")
    || action == "remove_bg" || action == "generate_bg" || action == "enhance"
    || action == "convert" || StartsWith(action, ConvertPrefix)
    || action == "back_main"
  }

  /**
   * The token tests of `handle_callback`, in order, for a user whose photo
   * is at `path`: the submenus lead back with `back_main`; a `resize_`
   * token outside the five-entry table is refused with "Invalid resize
   * option." and no call; `enhance` runs the enhancement at once; the
   * converted file goes out as a document exactly when it is a PNG.
   */
  function RouteOf(path: string, action: string): (r: Route)
    ensures r.Process? <==> Runs(action)
    ensures r.Ignore? <==> !Handled(action)
    ensures r.Process? ==> r.op.path == path
    ensures SizeTable(action, true).Some? ==>
              r == Process(ResizeTask, Resize(path, SizeTable(action, true).value.width, SizeTable(action, true).value.height), false)
    ensures StartsWith(action, "resize_") && SizeTable(action, true).None? ==> r == Miss(ResizeTask, InvalidResize)
    ensures StartsWith(action, "crop_") ==> r == Process(CropTask, Crop(path, RemoveAll(action, "crop_")), false)
    ensures action == "remove_bg" ==> r == Process(RemoveBackgroundTask, RemoveBackground(path), false)
    ensures action == "generate_bg" ==> r == Process(GenerateBackgroundTask, GenerateBackground(path), false)
    ensures action == "enhance" ==> r == Process(EnhanceTask, EnhanceQuality(path), false)
    ensures StartsWith(action, ConvertPrefix) ==>
              && r.Process? && r.task == ConvertTask && r.op == ConvertFormat(path, Lower(RemoveAll(action, ConvertPrefix)))
              && (r.asDocument <==> Lower(RemoveAll(action, ConvertPrefix)) == "png")
    ensures r.Process? && r.asDocument ==> StartsWith(action, ConvertPrefix)
    ensures action == "resize" ==> r == ShowMenu(ResizeMenu, ResizeKeyboard("back_main"))
    ensures action == "crop" ==> r == ShowMenu(CropMenu, CropKeyboard("back_main"))
    ensures action == "convert" ==> r == ShowMenu(ConvertMenu, ConvertKeyboard("back_main"))
    ensures action == "back_main" ==> r == ShowMenu(MainMenu, MainKeyboard)
  {
    PrefixesExclusive(action);
    if action == "resize" then
      assert action[0] != "crop_"[0];
      ShowMenu(ResizeMenu, ResizeKeyboard("back_main"))
    else if StartsWith(action, "resize_") then
      match SizeTable(action, true)
      case None =>
        assert action[0] == 'r' && action[2] == 's';
        Miss(ResizeTask, InvalidResize)
      case Some(d) => Process(ResizeTask, Resize(path, d.width, d.height), false)
    else if action == "crop" then ShowMenu(CropMenu, CropKeyboard("back_main"))
    else if StartsWith(action, "crop_") then
      assert action[1] != "convert"[1];
      Process(CropTask, Crop(path, RemoveAll(action, "crop_")), false)
    else if action == "remove_bg" then Process(RemoveBackgroundTask, RemoveBackground(path), false)
    else if action == "generate_bg" then Process(GenerateBackgroundTask, GenerateBackground(path), false)
    else if action == "enhance" then Process(EnhanceTask, EnhanceQuality(path), false)
    else if action == "convert" then ShowMenu(ConvertMenu, ConvertKeyboard("back_main"))
    else if StartsWith(action, ConvertPrefix) then
      var name := FormatName(action);
      LowerOfUpper(RemoveAll(action, ConvertPrefix));
      Process(ConvertTask, ConvertFormat(path, Lower(name)), Lower(name) == "png")
    else if action == "back_main" then ShowMenu(MainMenu, MainKeyboard)
    else Ignore
  }

  /** `after` is `before` without the entry of `user`. */
  ghost predicate OnlyEntryRemoved(before: map<UserId, Session>, after: map<UserId, Session>, user: UserId) {
    && user !in after
    && (forall v :: v != user ==> (v in after <==> v in before))
    && (forall v :: v in after ==> after[v] == before[v])
  }

  /**
   * `handle_callback`: the press is answered first; a user without a
   * session gets "send a photo first"; a session whose photo path is
   * missing, empty or no longer on disk gets "photo expired" and is
   * deleted. Only a press on an existing file reaches the processors.
   */
  function HandleCallback(s: State, q: Query, env: Env): (t: Transition<State>)
    ensures t.state.users == s.users && t.state.messages == s.messages
    ensures |t.effects| >= 1 && t.effects[0] == AnswerCallback(q.id)
    ensures q.user !in s.sessions ==>
              t.state == s && t.effects == [AnswerCallback(q.id), EditText(q.chat, q.messageId, PhotoFirst, NoKeyboard)]
    ensures q.user in s.sessions && !Usable(s.sessions[q.user], env) ==>
              && OnlyEntryRemoved(s.sessions, t.state.sessions, q.user)
              && t.effects == [AnswerCallback(q.id), EditText(q.chat, q.messageId, PhotoExpired, NoKeyboard)]
    ensures q.user in s.sessions && Usable(s.sessions[q.user], env) ==>
              && t.state == s
              && t.effects[1..] == Perform(q.chat, q.messageId, RouteOf(s.sessions[q.user].photoPath.value, q.data), env)
    ensures forall op :: op in Invocations(t.effects) ==>
              q.user in s.sessions && Usable(s.sessions[q.user], env) && op.path == s.sessions[q.user].photoPath.value
  {
    var answer := AnswerCallback(q.id);
    if q.user !in s.sessions then
      Transition(s, [answer, EditText(q.chat, q.messageId, PhotoFirst, NoKeyboard)])
    else if !Usable(s.sessions[q.user], env) then
      Transition(s.(sessions := s.sessions - {q.user}), [answer, EditText(q.chat, q.messageId, PhotoExpired, NoKeyboard)])
    else
      var rest := Perform(q.chat, q.messageId, RouteOf(s.sessions[q.user].photoPath.value, q.data), env);
      InvocationsAppend([answer], rest);
      assert ([answer] + rest)[1..] == rest;
      Transition(s, [answer] + rest)
  }

  /**
   * The registered handlers: `/start` counts a user on every call, `/status`
   * reports both counters, uploads and presses go to their handlers.
   */
  function Step(s: State, e: Event, env: Env): (t: Transition<State>)
    ensures t.state.users == s.users + (if e.StartCommand? then 1 else 0)
    ensures t.state.messages == s.messages + (if e.PhotoMessage? then 1 else 0)
    ensures e.Pressed? ==> t.state.sessions.Keys <= s.sessions.Keys
  {
    match e
    case StartCommand(chat) => Transition(s.(users := s.users + 1), [SendText(chat, Welcome, NoKeyboard)])
    case HelpCommand(chat) => Transition(s, [SendText(chat, Help, NoKeyboard)])
    case StatusCommand(chat) => Transition(s, [SendText(chat, StatusReport(s.users, s.messages), NoKeyboard)])
    case PhotoMessage(chat, user, photos) => HandlePhoto(s, chat, user, photos, env)
    case Pressed(q) => HandleCallback(s, q, env)
  }

  function Run(s: State, events: seq<Event>, env: Env): Transition<State> {
    Fold((x: State, e: Event) => Step(x, e, env), s, events)
  }

  /** Every session holds the upload file of its own user. */
  ghost predicate SessionsHoldUploads(s: State) {
    forall u :: u in s.sessions ==>
      s.sessions[u].photoPath.Some? && exists f :: s.sessions[u].photoPath.value == UploadPath(u, f)
  }

  lemma {:induction false} RunKeepsUploads(s: State, events: seq<Event>, env: Env)
    requires SessionsHoldUploads(s)
    ensures SessionsHoldUploads(Run(s, events, env).state)
    decreases |events|
  {
    if events != [] {
      var next := Step(s, events[0], env).state;
      assert SessionsHoldUploads(next) by {
        forall v | v in next.sessions
          ensures next.sessions[v].photoPath.Some? && exists f :: next.sessions[v].photoPath.value == UploadPath(v, f)
        {
          if events[0].PhotoMessage? && events[0].user == v && (v !in s.sessions || next.sessions[v] != s.sessions[v]) {
            var ps := events[0].photos;
            assert next.sessions[v].photoPath.value == UploadPath(v, ps[|ps| - 1].fileId);
          }
        }
      }
      RunKeepsUploads(next, events[1..], env);
    }
  }

  /** After "photo expired" the session is gone, so the user's next press gets "send a photo first". */
  lemma ExpiredThenPhotoFirst(s: State, q: Query, q2: Query, env: Env)
    requires q.user in s.sessions && !Usable(s.sessions[q.user], env) && q2.user == q.user
    ensures HandleCallback(HandleCallback(s, q, env).state, q2, env).effects ==
              [AnswerCallback(q2.id), EditText(q2.chat, q2.messageId, PhotoFirst, NoKeyboard)]
  {
  }

  /** A fresh upload whose file is on disk lets the user's next press through to the dispatch. */
  lemma UploadThenPress(s: State, chat: ChatId, user: UserId, photos: seq<PhotoSize>, q: Query, env: Env)
    requires photos != [] && photos[|photos| - 1].fileId in env.downloads
    requires UploadPath(user, photos[|photos| - 1].fileId) in env.files
    requires q.user == user
    ensures HandleCallback(HandlePhoto(s, chat, user, photos, env).state, q, env).effects[1..] ==
              Perform(q.chat, q.messageId, RouteOf(UploadPath(user, photos[|photos| - 1].fileId), q.data), env)
  {
  }

  /** A format name shorter than the prefix cannot hold it, so `replace` strips exactly the prefix. */
  lemma FormatTokenStrips(f: string)
    requires |f| < |ConvertPrefix|
    ensures RemoveAll(ConvertPrefix + f, ConvertPrefix) == f
  {
    assert Absent(f, ConvertPrefix);
    RemoveLeadingToken(ConvertPrefix, f);
  }

  /** A format button `convert_<f>` with a short lower-case `f` converts to `f`, as a document exactly for `png`. */
  lemma ConvertTokenRoute(path: string, action: string, f: string)
    requires action == ConvertPrefix + f
    requires Lower(f) == f && |f| < |ConvertPrefix|
    ensures RouteOf(path, action) == Process(ConvertTask, ConvertFormat(path, f), f == "png")
  {
    assert Lower(RemoveAll(action, ConvertPrefix)) == f by {
      FormatTokenStrips(f);
    }
    assert StartsWith(action, ConvertPrefix) by {
      assert action[..|ConvertPrefix|] == ConvertPrefix;
    }
    ConvertRoute(path, action, f);
  }

  /** A `convert_` button whose stripped, lowered name is `name` converts to `name`. */
  lemma ConvertRoute(path: string, action: string, name: string)
    requires StartsWith(action, ConvertPrefix) && Lower(RemoveAll(action, ConvertPrefix)) == name
    ensures RouteOf(path, action) == Process(ConvertTask, ConvertFormat(path, name), name == "png")
  {
  }
}
