/**
 * What the three bot front ends share: Telegram updates as the handlers
 * read them, the effects a handler has on the outside world (Bot API
 * calls and image-processor calls), the inline keyboards, the naming of
 * uploaded files, and the oracle standing in for the file system, the
 * processors and the downloads.
 */
module Transport {
  import opened Wrappers
  import opened Strings
  import opened Geometry
  import Paths
  import AiImageProcessor

  type UserId = int
  type ChatId = int

  /** One entry of a message's `photo` array: the same picture at one resolution. */
  datatype PhotoSize = PhotoSize(fileId: string, width: nat, height: nat)

  function Area(p: PhotoSize): int {
    p.width * p.height
  }

  /** What a message carries, in the order the handlers test for it: `text` first, then `photo`. */
  datatype Body = Text(text: string) | Photos(photos: seq<PhotoSize>) | OtherContent

  /** The fields of a `callback_query` the handlers read. */
  datatype Query = Query(id: string, user: UserId, chat: ChatId, messageId: int, data: string)

  /**
   * An update: a message, a button press, an update of another kind, or
   * an empty body (no JSON at all, or `{}`).
   */
  datatype Update =
    | Message(chat: ChatId, user: UserId, body: Body)
    | Callback(query: Query)
    | OtherUpdate
    | EmptyUpdate

  /** The processing a notice reports on. */
  datatype Task = ResizeTask | CropTask | RemoveBackgroundTask | GenerateBackgroundTask | EnhanceTask | ConvertTask

  /** Which message the bot shows; the wording itself is not modelled. */
  datatype Notice =
    | Welcome
    | Help
    | StatusReport(users: nat, messages: nat)
    | PhotoReceived
    | PhotoError
    | DownloadFailed
    | PhotoFirst
    | PhotoExpired
    | MainMenu
    | ResizeMenu
    | CropMenu
    | EnhanceMenu
    | ConvertMenu
    | Working(task: Task)
    | Done(task: Task)
    | Failed(task: Task)
    | InvalidResize

  /** An inline keyboard, as the `callback_data` tokens of its rows of buttons. */
  type Keyboard = seq<seq<string>>

  const NoKeyboard: Keyboard := []

  /** The six editing choices offered after an upload. */
  const MainKeyboard: Keyboard := [["resize", "crop"], ["remove_bg", "generate_bg"], ["enhance", "convert"]]

  function ResizeKeyboard(back: string): Keyboard {
    [["resize_8k", "resize_4k"], ["resize_1080p", "resize_720p"], ["resize_mobile", back]]
  }

  function CropKeyboard(back: string): Keyboard {
    [["crop_smart", "crop_square"], ["crop_portrait", "crop_landscape"], [back]]
  }

  function ConvertKeyboard(back: string): Keyboard {
    [["convert_jpeg", "convert_png"], ["convert_webp", back]]
  }

  const EnhanceKeyboard: Keyboard :=
    [["enhance_8k", "enhance_4k"], ["enhance_1080p", "enhance_720p"], ["enhance_original", "back"]]

  /** A call into an image processor, on the stored photo `path`. */
  datatype Operation =
    | Resize(path: string, width: nat, height: nat)
    | Crop(path: string, mode: string)
    | RemoveBackground(path: string)        // the processor's own `remove_background`
    | RemoveBackgroundRemote(path: string)  // the remove.bg service
    | GenerateBackground(path: string)
    | GenerateBackgroundRemote(path: string)
    | EnhanceQuality(path: string)
    | EnhanceResolution(path: string, resolution: string)
    | ConvertFormat(path: string, format: string)

  /** What a handler does outside its own state, in order. */
  datatype Effect =
    | AnswerCallback(queryId: string)
    | SendText(chat: ChatId, notice: Notice, keyboard: Keyboard)
    | EditText(chat: ChatId, messageId: int, notice: Notice, keyboard: Keyboard)
    | Invoke(op: Operation)
    | SendResult(chat: ChatId, op: Operation, asDocument: bool)

  /**
   * The world a handler runs in: the files that exist, the processor calls
   * that raise (or whose result fails to upload), and the downloads that
   * succeed, by `file_id`, with the local path a download returns.
   */
  datatype Env = Env(files: set<string>, failing: set<Operation>, downloads: map<string, string>)

  /** A handler's new state and its effects. */
  datatype Transition<S> = Transition(state: S, effects: seq<Effect>)

  /** Events handled one after another by `step`, the effects in order. */
  function Fold<S, E>(step: (S, E) -> Transition<S>, s: S, events: seq<E>): Transition<S>
    decreases |events|
  {
    if events == [] then Transition(s, [])
    else
      var first := step(s, events[0]);
      var rest := Fold(step, first.state, events[1..]);
      Transition(rest.state, first.effects + rest.effects)
  }

  /** Handling two batches in turn is handling their concatenation. */
  lemma {:induction false} FoldAppend<S, E>(step: (S, E) -> Transition<S>, s: S, a: seq<E>, b: seq<E>)
    ensures Fold(step, s, a + b).state == Fold(step, Fold(step, s, a).state, b).state
    ensures Fold(step, s, a + b).effects == Fold(step, s, a).effects + Fold(step, Fold(step, s, a).state, b).effects
    decreases |a|
  {
    if a == [] {
      assert a + b == b;
    } else {
      assert (a + b)[0] == a[0];
      assert (a + b)[1..] == a[1..] + b;
      FoldAppend(step, step(s, a[0]).state, a[1..], b);
    }
  }

  /** The processor calls among some effects, in order. */
  function Invocations(es: seq<Effect>): (ops: seq<Operation>)
    ensures |ops| <= |es|
    ensures forall op :: op in ops <==> Invoke(op) in es
    ensures (forall i :: 0 <= i < |es| ==> !es[i].Invoke?) ==> ops == []
  {
    if es == [] then []
    else (if es[0].Invoke? then [es[0].op] else []) + Invocations(es[1..])
  }

  lemma {:induction false} InvocationsAppend(a: seq<Effect>, b: seq<Effect>)
    ensures Invocations(a + b) == Invocations(a) + Invocations(b)
  {
    if a == [] {
      assert a + b == b;
    } else {
      assert (a + b)[0] == a[0];
      assert (a + b)[1..] == a[1..] + b;
      InvocationsAppend(a[1..], b);
    }
  }

  /**
   * The shape every processing handler shares: a "please wait" edit, the
   * call, then the result and a success edit, or, when the call or the
   * upload of its result raises, a failure edit instead.
   */
  function RunOperation(chat: ChatId, messageId: int, task: Task, op: Operation, asDocument: bool, env: Env): (es: seq<Effect>)
    ensures |es| >= 3 && es[0] == EditText(chat, messageId, Working(task), NoKeyboard)
    ensures Invocations(es) == [op]
    ensures op in env.failing <==> es[|es| - 1] == EditText(chat, messageId, Failed(task), NoKeyboard)
    ensures op !in env.failing <==> SendResult(chat, op, asDocument) in es
  {
    var wait := EditText(chat, messageId, Working(task), NoKeyboard);
    var tail := if op in env.failing then [EditText(chat, messageId, Failed(task), NoKeyboard)]
                else [SendResult(chat, op, asDocument), EditText(chat, messageId, Done(task), NoKeyboard)];
    assert Invocations(tail) == [] by {
      assert tail[1..] == [] || tail[1..][1..] == [];
    }
    assert Invocations([Invoke(op)] + tail) == [op] by {
      assert ([Invoke(op)] + tail)[1..] == tail;
    }
    assert Invocations([wait] + ([Invoke(op)] + tail)) == [op] by {
      assert ([wait] + ([Invoke(op)] + tail))[1..] == [Invoke(op)] + tail;
    }
    [wait] + ([Invoke(op)] + tail)
  }

  /** What a pressed token leads to once the user's photo is known. */
  datatype Route =
    | ShowMenu(notice: Notice, keyboard: Keyboard)
    | Process(task: Task, op: Operation, asDocument: bool)
    | Miss(task: Task, notice: Notice)
    | Ignore

  /**
   * The effects of a route: a menu is an in-place edit, a call runs with
   * its "please wait" and outcome edits, and a token missing from its
   * table gets the "please wait" edit followed by the given notice.
   */
  function Perform(chat: ChatId, messageId: int, r: Route, env: Env): (es: seq<Effect>)
    ensures Invocations(es) == (if r.Process? then [r.op] else [])
    ensures r.ShowMenu? ==> es == [EditText(chat, messageId, r.notice, r.keyboard)]
    ensures r.Miss? ==> es == [EditText(chat, messageId, Working(r.task), NoKeyboard), EditText(chat, messageId, r.notice, NoKeyboard)]
    ensures r.Process? ==> es == RunOperation(chat, messageId, r.task, r.op, r.asDocument, env)
    ensures r.Ignore? ==> es == []
  {
    match r
    case ShowMenu(notice, keyboard) => [EditText(chat, messageId, notice, keyboard)]
    case Process(task, op, asDocument) => RunOperation(chat, messageId, task, op, asDocument, env)
    case Miss(task, notice) => [EditText(chat, messageId, Working(task), NoKeyboard), EditText(chat, messageId, notice, NoKeyboard)]
    case Ignore => []
  }

  /**
   * Python's `max(photos, key=lambda p: p["width"] * p["height"])`: the
   * first photo of greatest area. The empty list, where `max` raises, is
   * excluded here and handled by the callers.
   */
  function Largest(photos: seq<PhotoSize>): (i: nat)
    requires photos != []
    ensures i < |photos|
    ensures forall j :: 0 <= j < |photos| ==> Area(photos[j]) <= Area(photos[i])
    ensures forall j :: 0 <= j < i ==> Area(photos[j]) < Area(photos[i])
  {
    LargestFrom(photos, 0, 1)
  }

  /** The scan behind `Largest`: `best` is the first maximum among the first `k` photos. */
  function LargestFrom(photos: seq<PhotoSize>, best: nat, k: nat): (i: nat)
    requires best < k <= |photos|
    requires forall j :: 0 <= j < k ==> Area(photos[j]) <= Area(photos[best])
    requires forall j :: 0 <= j < best ==> Area(photos[j]) < Area(photos[best])
    ensures i < |photos|
    ensures forall j :: 0 <= j < |photos| ==> Area(photos[j]) <= Area(photos[i])
    ensures forall j :: 0 <= j < i ==> Area(photos[j]) < Area(photos[i])
    decreases |photos| - k
  {
    if k == |photos| then best
    else if Area(photos[k]) > Area(photos[best]) then LargestFrom(photos, k, k + 1)
    else LargestFrom(photos, best, k + 1)
  }

  /** The first-maximum index is the only index with both properties. */
  lemma LargestUnique(photos: seq<PhotoSize>, i: nat)
    requires i < |photos|
    requires forall j :: 0 <= j < |photos| ==> Area(photos[j]) <= Area(photos[i])
    requires forall j :: 0 <= j < i ==> Area(photos[j]) < Area(photos[i])
    ensures i == Largest(photos)
  {
    var l := Largest(photos);
    assert Area(photos[l]) <= Area(photos[i]) && Area(photos[i]) <= Area(photos[l]);
  }

  /** `os.path.join("uploads", f"temp_{user_id}_{file_id}.jpg")`. */
  function UploadPath(user: UserId, fileId: string): string {
    "uploads/temp_" + (IntToString(user) + "_" + fileId) + ".jpg"
  }

  /** A natural number followed by a non-digit separator can be read back. */
  lemma NatPrefixUnique(m: nat, x: string, n: nat, y: string, sep: char)
    requires !IsDigit(sep)
    requires NatToString(m) + ([sep] + x) == NatToString(n) + ([sep] + y)
    ensures m == n && x == y
  {
    Regroup(NatToString(m), [sep], x);
    Regroup(NatToString(n), [sep], y);
    Paths.SplitAtSeparator(NatToString(m), x, NatToString(n), y, sep);
    NatToStringInjective(m, n);
  }

  /** The text after the minus sign of a negative number and what follows it. */
  lemma AfterMinus(a: int, rest: string)
    requires a < 0
    ensures (IntToString(a) + rest)[0] == '-'
    ensures (IntToString(a) + rest)[1..] == NatToString(-a) + rest
  {
    assert IntToString(a) + rest == "-" + (NatToString(-a) + rest);
  }

  /** A number followed by a separator that is neither digit nor minus sign can be read back. */
  lemma {:induction false} IntPrefixUnique(a: int, x: string, b: int, y: string, sep: char)
    requires !IsDigit(sep) && sep != '-'
    requires IntToString(a) + [sep] + x == IntToString(b) + [sep] + y
    ensures a == b && x == y
  {
    var x', y' := [sep] + x, [sep] + y;
    Regroup(IntToString(a), [sep], x);
    Regroup(IntToString(b), [sep], y);
    assert (IntToString(a) + x')[0] == IntToString(a)[0];
    assert (IntToString(b) + y')[0] == IntToString(b)[0];
    if a < 0 {
      AfterMinus(a, x');
      AfterMinus(b, y');
      assert NatToString(-a) + x' == NatToString(-b) + y';
      NatPrefixUnique(-a, x, -b, y, sep);
    } else {
      NatPrefixUnique(a, x, b, y, sep);
    }
  }

  /** Two uploads share a file name only when user and `file_id` are the same: users never see each other's photo. */
  lemma UploadPathInjective(u1: UserId, f1: string, u2: UserId, f2: string)
    requires UploadPath(u1, f1) == UploadPath(u2, f2)
    ensures u1 == u2 && f1 == f2
  {
    MiddleUnique("uploads/temp_", IntToString(u1) + "_" + f1, IntToString(u2) + "_" + f2, ".jpg");
    IntPrefixUnique(u1, f1, u2, f2, '_');
  }

  /** The `size_map` of the resize handlers; only some carry the portrait `resize_mobile` entry. */
  function SizeTable(token: string, withMobile: bool): (d: Option<Dims>)
    ensures d.Some? <==>
              token == "resize_8k" || token == "resize_4k" || token == "resize_1080p" || token == "resize_720p"
              || (withMobile && token == "resize_mobile")
    ensures d.Some? ==> StartsWith(token, "resize_")
    ensures d.Some? && token != "resize_mobile" ==> d.value.width * 9 == d.value.height * 16
    ensures d.Some? && token == "resize_mobile" ==> d.value.width * 16 == d.value.height * 9
  {
    if token == "resize_8k" then Some(Dims(7680, 4320))
    else if token == "resize_4k" then Some(Dims(3840, 2160))
    else if token == "resize_1080p" then Some(Dims(1920, 1080))
    else if token == "resize_720p" then Some(Dims(1280, 720))
    else if withMobile && token == "resize_mobile" then Some(Dims(720, 1280))
    else None
  }

  /** Each landscape entry of the resize table is the box `enhance_quality_ai` uses for the same name. */
  lemma SizeTableMatchesResolutions(key: string, withMobile: bool, o: ImageSize)
    requires AiImageProcessor.FixedResolution(key)
    ensures SizeTable("resize_" + key, withMobile) == Some(AiImageProcessor.ResolutionTarget(key, o))
  {
    var t := "resize_" + key;
    assert key == "720p" ==> t == "resize_720p";
    assert key == "1080p" ==> t == "resize_1080p";
    assert key == "4k" ==> t == "resize_4k";
    assert key == "8k" ==> t == "resize_8k";
  }
}
