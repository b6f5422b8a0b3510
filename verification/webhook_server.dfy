/**
 * `WebhookServer` of webhook_server.py: the Flask endpoint Telegram posts
 * updates to. Its state is `user_photos` (by user), the chats recorded in
 * `user_states`, and three `bot_stats` counters. Only `remove_bg` and the
 * four landscape `resize_` tokens reach a processor; every other button
 * of its menus is answered and otherwise ignored.
 */
module WebhookServer {
  import opened Wrappers
  import opened Strings
  import opened Transport

  datatype State = State(
    photos: map<UserId, string>,
    visited: set<ChatId>,
    users: nat,
    messages: nat,
    photosProcessed: nat)

  const Initial: State := State(map[], {}, 0, 0, 0)

  /** `users` counts the chats of `user_states`, and every processed message is a stored photo. */
  predicate Counted(s: State) {
    s.users == |s.visited| && s.messages == s.photosProcessed
  }

  /**
   * `handle_start_command`, which also answers `/help`: the welcome text
   * goes out on every call, but a chat is counted as a user only the first
   * time it is seen.
   */
  function HandleStart(s: State, chat: ChatId): (t: Transition<State>)
    ensures t.state.visited == s.visited + {chat}
    ensures t.state.users == s.users + (if chat in s.visited then 0 else 1)
    ensures t.state.photos == s.photos && t.state.messages == s.messages && t.state.photosProcessed == s.photosProcessed
    ensures t.effects == [SendText(chat, Welcome, NoKeyboard)]
    ensures Counted(s) ==> Counted(t.state)
  {
    var welcome := [SendText(chat, Welcome, NoKeyboard)];
    if chat in s.visited then Transition(s, welcome)
    else Transition(s.(users := s.users + 1, visited := s.visited + {chat}), welcome)
  }

  /** What `download_photo` hands back for a `file_id`: a path, or nothing (None or an empty path). */
  function Download(fileId: string, env: Env): (p: Option<string>)
    ensures p.Some? <==> fileId in env.downloads && env.downloads[fileId] != ""
    ensures p.Some? ==> p.value == env.downloads[fileId] && p.value != ""
  {
    if fileId in env.downloads && env.downloads[fileId] != "" then Some(env.downloads[fileId]) else None
  }

  /**
   * `handle_photo_message`: the largest photo is downloaded and stored
   * under the sender, and both `photos_processed` and
   * `messages_processed` go up. A failed download is reported and changes
   * nothing; an empty size list makes `max` raise, which is answered with
   * the generic error reply.
   */
  function HandlePhoto(s: State, chat: ChatId, user: UserId, photos: seq<PhotoSize>, env: Env): (t: Transition<State>)
    ensures t.state.visited == s.visited && t.state.users == s.users
    ensures photos == [] ==> t.state == s && t.effects == [SendText(chat, PhotoError, NoKeyboard)]
    ensures photos != [] && Download(photos[Largest(photos)].fileId, env).None? ==>
              t.state == s && t.effects == [SendText(chat, DownloadFailed, NoKeyboard)]
    ensures photos != [] && Download(photos[Largest(photos)].fileId, env).Some? ==>
              && t.state.photos == s.photos[user := Download(photos[Largest(photos)].fileId, env).value]
              && t.state.messages == s.messages + 1 && t.state.photosProcessed == s.photosProcessed + 1
              && t.effects == [SendText(chat, PhotoReceived, MainKeyboard)]
    ensures Counted(s) ==> Counted(t.state)
  {
    if photos == [] then Transition(s, [SendText(chat, PhotoError, NoKeyboard)])
    else
      match Download(photos[Largest(photos)].fileId, env)
      case None => Transition(s, [SendText(chat, DownloadFailed, NoKeyboard)])
      case Some(path) =>
        var s1 := s.(photos := s.photos[user := path], photosProcessed := s.photosProcessed + 1);
        Transition(s1.(messages := s1.messages + 1), [SendText(chat, PhotoReceived, MainKeyboard)])
  }

  /**
   * The action tests of `handle_callback_query`: `remove_bg` goes to
   * remove.bg, a `resize_` token of the four-entry `size_map` (which has no
   * `resize_mobile`) is resized, and anything else, every menu button
   * included, does nothing.
   */
  function RouteOf(path: string, action: string): (r: Route)
    ensures r.Process? <==> action == "remove_bg" || SizeTable(action, false).Some?
    ensures !r.Process? ==> r == Ignore
    ensures action == "remove_bg" ==> r == Process(RemoveBackgroundTask, RemoveBackgroundRemote(path), false)
    ensures SizeTable(action, false).Some? ==>
              r == Process(ResizeTask, Resize(path, SizeTable(action, false).value.width, SizeTable(action, false).value.height), false)
  {
    if action == "remove_bg" then Process(RemoveBackgroundTask, RemoveBackgroundRemote(path), false)
    else if StartsWith(action, "resize_") then
      match SizeTable(action, false)
      case Some(d) => Process(ResizeTask, Resize(path, d.width, d.height), false)
      case None => Ignore
    else Ignore
  }

  /** `user_photos.get(user_id)` is a non-empty path that `os.path.exists`. */
  predicate HasPhoto(s: State, user: UserId, env: Env) {
    user in s.photos && s.photos[user] != "" && s.photos[user] in env.files
  }

  /**
   * `handle_callback_query`: the press is answered first; a missing,
   * empty or vanished photo gets "photo expired" (the stale entry is kept);
   * otherwise the route of the action is performed. No press changes the
   * server's state.
   */
  function HandleCallback(s: State, q: Query, env: Env): (es: seq<Effect>)
    ensures |es| >= 1 && es[0] == AnswerCallback(q.id)
    ensures !HasPhoto(s, q.user, env) ==>
              es == [AnswerCallback(q.id), EditText(q.chat, q.messageId, PhotoExpired, NoKeyboard)]
    ensures HasPhoto(s, q.user, env) ==> es[1..] == Perform(q.chat, q.messageId, RouteOf(s.photos[q.user], q.data), env)
    ensures forall op :: op in Invocations(es) ==> HasPhoto(s, q.user, env) && op.path == s.photos[q.user]
  {
    var answer := AnswerCallback(q.id);
    if !HasPhoto(s, q.user, env) then [answer, EditText(q.chat, q.messageId, PhotoExpired, NoKeyboard)]
    else
      var rest := Perform(q.chat, q.messageId, RouteOf(s.photos[q.user], q.data), env);
      InvocationsAppend([answer], rest);
      assert ([answer] + rest)[1..] == rest;
      [answer] + rest
  }

  /** A text message the webhook hands to `handle_start_command`. */
  predicate IsGreeting(u: Update) {
    u.Message? && u.body.Text? && (StartsWith(u.body.text, "/start") || StartsWith(u.body.text, "/help"))
  }

  /**
   * The dispatch of `webhook`: a message with `text` is looked at only for
   * `/start` and `/help` (so `/status` gets no reply), a message with a
   * `photo` and no `text` goes to the photo handler, and a callback query
   * to the press handler.
   */
  function Step(s: State, u: Update, env: Env): (t: Transition<State>)
    ensures IsGreeting(u) ==> t == HandleStart(s, u.chat)
    ensures !IsGreeting(u) ==> t.state.visited == s.visited && t.state.users == s.users
    ensures !(u.Message? && u.body.Photos?) ==> t.state.photos == s.photos && t.state.messages == s.messages
    ensures u.Callback? ==> t.state == s
    ensures u.Message? && u.body.Text? && !IsGreeting(u) ==> t == Transition(s, [])
    ensures Counted(s) ==> Counted(t.state)
  {
    match u
    case Message(chat, user, body) =>
      (match body
       case Text(text) =>
         if StartsWith(text, "/start") then HandleStart(s, chat)
         else if StartsWith(text, "/help") then HandleStart(s, chat)
         else Transition(s, [])
       case Photos(photos) => HandlePhoto(s, chat, user, photos, env)
       case OtherContent => Transition(s, []))
    case Callback(q) => Transition(s, HandleCallback(s, q, env))
    case OtherUpdate => Transition(s, [])
    case EmptyUpdate => Transition(s, [])
  }

  /** The endpoint's JSON reply together with the handled update: `ok` is false only for an empty body. */
  datatype Reply = Reply(state: State, effects: seq<Effect>, ok: bool)

  function Webhook(s: State, u: Update, env: Env): (r: Reply)
    ensures r.ok <==> !u.EmptyUpdate?
    ensures u.EmptyUpdate? ==> r.state == s && r.effects == []
    ensures !u.EmptyUpdate? ==> Transition(r.state, r.effects) == Step(s, u, env)
  {
    if u.EmptyUpdate? then Reply(s, [], false)
    else
      var t := Step(s, u, env);
      Reply(t.state, t.effects, true)
  }

  function Run(s: State, us: seq<Update>, env: Env): Transition<State> {
    Fold((x: State, u: Update) => Step(x, u, env), s, us)
  }

  /** The chats that send `/start` or `/help` somewhere in `us`: the reference for what `users` counts. */
  function Greeted(us: seq<Update>): (cs: set<ChatId>)
    ensures forall c :: c in cs <==> exists i :: 0 <= i < |us| && IsGreeting(us[i]) && us[i].chat == c
  {
    if us == [] then {}
    else
      var rest := Greeted(us[1..]);
      assert forall i :: 0 < i < |us| ==> us[i] == us[1..][i - 1];
      (if IsGreeting(us[0]) then {us[0].chat} else {}) + rest
  }

  /** The photo downloads that succeed in `us`: the reference for what `photos_processed` counts. */
  function Uploads(us: seq<Update>, env: Env): (n: nat)
    ensures n <= |us|
  {
    if us == [] then 0
    else
      var u := us[0];
      (if u.Message? && u.body.Photos? && u.body.photos != [] && Download(u.body.photos[Largest(u.body.photos)].fileId, env).Some?
       then 1 else 0) + Uploads(us[1..], env)
  }

  /** After any run the recorded chats are exactly those seen before plus those that greeted the bot. */
  lemma {:induction false} RunVisits(s: State, us: seq<Update>, env: Env)
    ensures Run(s, us, env).state.visited == s.visited + Greeted(us)
    decreases |us|
  {
    if us != [] {
      RunVisits(Step(s, us[0], env).state, us[1..], env);
    }
  }

  /** Both counters of `bot_stats` stay consistent over any run. */
  lemma {:induction false} RunKeepsCounted(s: State, us: seq<Update>, env: Env)
    requires Counted(s)
    ensures Counted(Run(s, us, env).state)
    decreases |us|
  {
    if us != [] {
      RunKeepsCounted(Step(s, us[0], env).state, us[1..], env);
    }
  }

  /** `photos_processed` goes up once for each successful photo download. */
  lemma {:induction false} RunCountsUploads(s: State, us: seq<Update>, env: Env)
    ensures Run(s, us, env).state.photosProcessed == s.photosProcessed + Uploads(us, env)
    decreases |us|
  {
    if us != [] {
      RunCountsUploads(Step(s, us[0], env).state, us[1..], env);
    }
  }

  /** From a fresh server, `users` is the number of distinct chats that ever sent `/start` or `/help`. */
  lemma UsersAreDistinctGreeters(us: seq<Update>, env: Env)
    ensures Run(Initial, us, env).state.users == |Greeted(us)|
  {
    RunVisits(Initial, us, env);
    RunKeepsCounted(Initial, us, env);
    assert Initial.visited + Greeted(us) == Greeted(us);
  }

  /** Every stored photo is a path some successful download returned. */
  ghost predicate StoresDownloads(s: State, env: Env) {
    forall u :: u in s.photos ==> s.photos[u] != "" && exists f :: f in env.downloads && env.downloads[f] == s.photos[u]
  }

  lemma {:induction false} RunStoresDownloads(s: State, us: seq<Update>, env: Env)
    requires StoresDownloads(s, env)
    ensures StoresDownloads(Run(s, us, env).state, env)
    decreases |us|
  {
    if us != [] {
      var u := us[0];
      var next := Step(s, u, env).state;
      assert StoresDownloads(next, env) by {
        if u.Message? && u.body.Photos? && u.body.photos != [] {
          var f := u.body.photos[Largest(u.body.photos)].fileId;
          if Download(f, env).Some? {
            assert f in env.downloads && env.downloads[f] == Download(f, env).value;
          }
        }
      }
      RunStoresDownloads(next, us[1..], env);
    }
  }

  /** Of the editing menu sent after an upload, only "Remove BG" leads anywhere. */
  lemma MenuButtonsBesideRemoveBgIgnored(path: string, row: seq<string>, token: string)
    requires row in MainKeyboard && token in row && token != "remove_bg"
    ensures RouteOf(path, token) == Ignore
  {
    assert row == MainKeyboard[0] || row == MainKeyboard[1] || row == MainKeyboard[2];
  }

  /** The portrait size offered by the other front ends is not in this server's table. */
  lemma MobileResizeIgnored(path: string)
    ensures RouteOf(path, "resize_mobile") == Ignore
  {
  }

  /** A user whose photo file is gone stays in "photo expired": the press keeps the stale entry. */
  lemma {:induction false} ExpiredStaysExpired(s: State, qs: seq<Query>, env: Env, user: UserId)
    requires !HasPhoto(s, user, env)
    requires forall i :: 0 <= i < |qs| ==> qs[i].user == user
    ensures forall i :: 0 <= i < |qs| ==>
              HandleCallback(s, qs[i], env) == [AnswerCallback(qs[i].id), EditText(qs[i].chat, qs[i].messageId, PhotoExpired, NoKeyboard)]
    ensures Run(s, seq(|qs|, i requires 0 <= i < |qs| => Callback(qs[i])), env).state == s
    decreases |qs|
  {
    var us := seq(|qs|, i requires 0 <= i < |qs| => Callback(qs[i]));
    if qs != [] {
      assert us[1..] == seq(|qs[1..]|, i requires 0 <= i < |qs[1..]| => Callback(qs[1..][i]));
      ExpiredStaysExpired(s, qs[1..], env, user);
    }
  }
}
