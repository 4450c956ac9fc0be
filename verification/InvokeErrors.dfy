/**
 How a function's failure travels through nested calls: what a worker answers
 for a handler's throw, what the dispatcher makes of that answer, and what the
 calling worker throws in its own handler.
 */
module InvokeErrors {
  import opened Wrappers
  import opened Text

  type Issue = string

  /** A thrown value's `issues`: absent, an array, or some other truthy value. */
  datatype Issues = NoIssues | List(issues: seq<Issue>) | NotAList

  /** A thrown value's `status`: absent or no number, an integer, or another number. */
  datatype Status = NoStatus | Integer(value: int) | OtherNumber

  /** A thrown value: the properties read from it, and its String(...) form. */
  datatype Thrown = Thrown(name: string, message: Option<string>, text: string, status: Status, issues: Issues)

  /** A response body: its parsed top-level `error` and `issues`, or text that is not JSON. */
  datatype Body = Json(error: Option<string>, issues: Issues) | Plain(text: string)

  datatype Response = Response(status: int, body: Body, failed: bool)

  /** The envelope a failed nested call posts back to the worker. */
  datatype RunXFailure = RunXFailure(error: string, errorName: string, status: Status, issues: Issues)

  const CRASH_BODY := Json(Some("internal error"), NoIssues)

  const SCHEDULE_FAILED_BODY :=
    Json(Some("the mutation succeeded but its scheduled functions were not recorded"), NoIssues)

  function ErrorString(name: string, message: string): string {
    if message == "" then name else if name == "" then message else name + ": " + message
  }

  /** An Error object with a message and, when given, the other properties. */
  function MakeError(name: string, message: string, status: Status, issues: Issues): Thrown {
    Thrown(name, Some(message), ErrorString(name, message), status, issues)
  }

  // ---------------------------------------------------------------- the four stages of a hop

  function StringOf(message: Option<string>): string {
    if message.Some? then message.value else "undefined"
  }

  /** The text a crash leaves: its message when that is not empty, else its String form. */
  function CrashText(err: Thrown): string {
    if err.message.Some? && err.message.value != "" then err.message.value else err.text
  }

  /** A refusal: a FunctionError with a 4xx status. */
  predicate Refuses(err: Thrown) {
    err.name == "FunctionError" && err.status.Integer? && 400 <= err.status.value <= 499
  }

  /** What the worker answers for a handler that neither validated nor refused: a crash. */
  function PostThrown(err: Thrown): Response {
    if Refuses(err) then Response(err.status.value, Json(Some(StringOf(err.message)), NoIssues), false)
    else Response(500, Json(Some(CrashText(err)), NoIssues), true)
  }

  /** What the worker answers for a handler's throw. */
  function Respond(err: Thrown): Response {
    if err.issues.List? then
      Response(400, Json(Some(if err.name == "ValidationError" then "validation" else "args validation failed"), err.issues), false)
    else PostThrown(err)
  }

  /** What a nested call throws on the main thread when its target did not succeed. */
  function TargetError(res: Response): Thrown
    requires 0 <= res.status
  {
    var (error, issues) := match res.body
      case Json(error, issues) => (if error.Some? then error.value else "", issues)
      case Plain(text) => (text, NoIssues);
    var message := if error != "" then error else "runX target returned " + Decimal(res.status);
    if !issues.NoIssues? then MakeError("ValidationError", message, NoStatus, issues)
    else if 400 <= res.status <= 499 then MakeError("FunctionError", message, Integer(res.status), NoIssues)
    else MakeError("Error", message, NoStatus, NoIssues)
  }

  /** The failure posted to the calling worker. */
  function FailureEnvelope(err: Thrown): RunXFailure {
    RunXFailure(if err.message.Some? then err.message.value else err.text, err.name, err.status, err.issues)
  }

  /** What the calling worker's promise rejects with. */
  function Receive(failure: RunXFailure): Thrown {
    MakeError(
      if failure.errorName != "" then failure.errorName else if failure.issues.NoIssues? then "Error" else "ValidationError",
      if failure.error == "" then "runX error" else failure.error,
      failure.status,
      failure.issues)
  }

  /** One uncaught hop: what the caller's handler sees of what the callee's handler threw. */
  function Hop(err: Thrown): Thrown {
    Receive(FailureEnvelope(TargetError(Respond(err))))
  }

  function Hops(err: Thrown, n: nat): Thrown {
    if n == 0 then err else Hop(Hops(err, n - 1))
  }

  /** What the caller of /invoke receives. */
  function WithoutCrashDetail(res: Response): Response {
    if res.failed then Response(res.status, CRASH_BODY, false) else res
  }

  // ---------------------------------------------------------------- what survives

  /** The text a nested caller is given in place of an empty one. */
  function Shown(text: string, status: nat): string {
    if text == "" then "runX target returned " + Decimal(status) else text
  }

  /** The answer of the n-th function up the chain, told from the first throw alone. */
  function Transported(err: Thrown, n: nat): Response {
    if err.issues.List? then
      Response(400, Json(Some(if n > 0 || err.name == "ValidationError" then "validation" else "args validation failed"), err.issues), false)
    else if Refuses(err) then
      var text := StringOf(err.message);
      Response(err.status.value, Json(Some(if n == 0 then text else Shown(text, err.status.value)), NoIssues), false)
    else
      Response(500, Json(Some(if n == 0 then CrashText(err) else Shown(CrashText(err), 500)), NoIssues), true)
  }

  /** What the handler n + 1 calls up the chain catches. */
  function Caught(err: Thrown): Thrown {
    if err.issues.List? then
      MakeError("ValidationError", if err.name == "ValidationError" then "validation" else "args validation failed", NoStatus, err.issues)
    else if Refuses(err) then
      MakeError("FunctionError", Shown(StringOf(err.message), err.status.value), err.status, NoIssues)
    else MakeError("Error", Shown(CrashText(err), 500), NoStatus, NoIssues)
  }

  /** One hop turns any throw into the validation error, refusal or crash it stands for. */
  lemma HopIsCaught(err: Thrown)
    ensures Hop(err) == Caught(err)
  {
    assert "validation" != "" && "args validation failed" != "";
  }

  /**
   Over any number of uncaught hops a validation error keeps status 400 and its issues, a 4xx refusal
   keeps its status and its message, and a crash stays a crash and keeps its text; only an empty text
   is replaced, once, by the default one.
   */
  lemma {:induction false} TransportIsStable(err: Thrown, n: nat)
    ensures Respond(Hops(err, n)) == Transported(err, n)
    ensures n > 0 ==> Hops(err, n) == Caught(err) || (err.issues.List? && Hops(err, n) == Caught(Caught(err)))
  {
    hide Hop, Decimal, ErrorString;
    if n > 0 {
      TransportIsStable(err, n - 1);
      HopIsCaught(Hops(err, n - 1));
    }
  }

  /** The kind of failure: the three are told apart by the first throw and no hop changes it. */
  datatype FailureKind = Invalid | Refusal | Crash

  function KindOf(err: Thrown): FailureKind {
    if err.issues.List? then Invalid else if Refuses(err) then Refusal else Crash
  }

  lemma {:induction false} KindSurvives(err: Thrown, n: nat)
    ensures KindOf(Hops(err, n)) == KindOf(err)
    ensures Respond(Hops(err, n)).failed <==> KindOf(err).Crash?
    ensures 400 <= Respond(Hops(err, n)).status <= 500
  {
    hide Hop, Decimal, ErrorString;
    if n > 0 {
      KindSurvives(err, n - 1);
      HopIsCaught(Hops(err, n - 1));
    }
  }

  /**
   What a calling handler catches of any answer that is not a success, whoever gave it: an error that carries the
   answer's issues, the answer's 4xx status, or neither, and says the answer's error text, or its body where that is
   no JSON, or, where there is no such text, its status.
   */
  lemma CallerCatches(res: Response)
    requires 0 <= res.status
    ensures
      var caught := Receive(FailureEnvelope(TargetError(res)));
      var text := match res.body case Json(Some(error), _) => error case Json(None, _) => "" case Plain(body) => body;
      var issues := match res.body case Json(_, issues) => issues case Plain(_) => NoIssues;
      && caught.issues == issues
      && caught.message == Some(if text != "" then text else "runX target returned " + Decimal(res.status))
      && caught.name == (if !issues.NoIssues? then "ValidationError" else if 400 <= res.status < 500 then "FunctionError" else "Error")
      && caught.status == (if issues.NoIssues? && 400 <= res.status < 500 then Integer(res.status) else NoStatus)
  {
    hide Decimal, ErrorString;
  }

  /**
   What a handler catches of a throw one uncaught hop below it, from the throw alone: the issues of an invalid call; the
   status and message of a refusal; the message of anything else, or its String form. A refusal without a message says
   "undefined", and an empty text becomes the default one.
   */
  lemma CallerReads(err: Thrown)
    ensures
      var caught := Hop(err);
      match err
      case Thrown(name, _, _, _, List(issues)) =>
        && caught.name == "ValidationError" && caught.issues == List(issues) && caught.status == NoStatus
        && caught.message == Some(if name == "ValidationError" then "validation" else "args validation failed")
      case Thrown("FunctionError", message, text, Integer(status), _) =>
        if 400 <= status <= 499 then
          && caught.name == "FunctionError" && caught.issues == NoIssues && caught.status == Integer(status)
          && caught.message == (match message
                                case None => Some("undefined")
                                case Some(said) => if said != "" then message else Some("runX target returned " + Decimal(status)))
        else ReadsAsCrash(caught, message, text)
      case Thrown(_, message, text, _, _) => ReadsAsCrash(caught, message, text)
  {
    hide Decimal, ErrorString;
    assert "validation" != "" && "args validation failed" != "" && "undefined" != "";
  }

  /** A plain Error with the first of these that is not empty: the message, the String form, the default text. */
  predicate ReadsAsCrash(caught: Thrown, message: Option<string>, text: string) {
    && caught.name == "Error" && caught.issues == NoIssues && caught.status == NoStatus
    && caught.message == Some(
      if message.Some? && message.value != "" then message.value
      else if text != "" then text
      else "runX target returned " + Decimal(500))
  }

  /** An Error with a message reads as its name and message, one without as its name; so that is the text such a crash
      leaves. */
  lemma CrashTextOfError(name: string, message: string)
    ensures CrashText(MakeError(name, message, NoStatus, NoIssues)) == if message != "" then message else name
    ensures name != "" && message != "" ==> MakeError(name, message, NoStatus, NoIssues).text == name + ": " + message
  {
  }

  /** A refusal's message is kept exactly when it is not empty. */
  lemma RefusalKeptIffMessage(err: Thrown, n: nat)
    requires KindOf(err).Refusal? && n > 0
    ensures Hops(err, n).status == err.status && Hops(err, n).name == "FunctionError"
    ensures Hops(err, n).message == Some(StringOf(err.message)) <==> StringOf(err.message) != ""
  {
    TransportIsStable(err, n);
  }

  /** The caller of /invoke learns a crash's status and nothing else, however deep the crash was, while
      every nested caller above it reads the text. */
  lemma CrashIsHiddenFromInvoke(err: Thrown, other: Thrown, n: nat, m: nat)
    requires KindOf(err).Crash? && KindOf(other).Crash?
    ensures WithoutCrashDetail(Respond(Hops(err, n))) == WithoutCrashDetail(Respond(Hops(other, m))) == Response(500, CRASH_BODY, false)
    ensures n > 0 && CrashText(err) != "" ==> Hops(err, n).message == Some(CrashText(err))
  {
    TransportIsStable(err, n);
    TransportIsStable(other, m);
  }

  /**
   What the caller of /invoke receives for a throw any number of uncaught hops away: for a list of issues status 400
   and the issues; for a FunctionError whose status is an integer from 400 to 499 that status and its message; for
   anything else one fixed body. Every answer that is not marked failed reaches it as it is.
   */
  lemma InvokeReceives(err: Thrown, n: nat, res: Response)
    ensures
      var seen := WithoutCrashDetail(Respond(Hops(err, n)));
      match err
      case Thrown(_, _, _, _, List(issues)) =>
        && seen.status == 400 && !seen.failed
        && (seen.body == Json(Some("validation"), List(issues)) || (n == 0 && seen.body == Json(Some("args validation failed"), List(issues))))
      case Thrown(name, message, _, status, _) =>
        if name == "FunctionError" && status.Integer? && 400 <= status.value < 500 then
          && seen.status == status.value && !seen.failed
          && (message.Some? && message.value != "" ==> seen.body == Json(Some(message.value), NoIssues))
        else seen == Response(500, Json(Some("internal error"), NoIssues), false)
    ensures !res.failed ==> WithoutCrashDetail(res) == res
  {
    hide Decimal;
    TransportIsStable(err, n);
  }

  /** An invocation that never answered - missing target, timeout, dead worker - rejects on the main
      thread and reaches every caller above as a crash with that text. */
  lemma RejectionIsCrash(reason: string, n: nat)
    requires reason != ""
    ensures
      var seen := Receive(FailureEnvelope(MakeError("Error", reason, NoStatus, NoIssues)));
      Respond(Hops(seen, n)) == Response(500, Json(Some(reason), NoIssues), true)
  {
    var seen := Receive(FailureEnvelope(MakeError("Error", reason, NoStatus, NoIssues)));
    TransportIsStable(seen, n);
  }
}
