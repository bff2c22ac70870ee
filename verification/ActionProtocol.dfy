/** The custom action handler as a protocol between three parties: the worker thread that executes
    an action, the reporter thread that sends its progress, and the callbacks that cancel an action
    or bring a new one. Every read and every write of data that another party writes is a step of its
    own; what only one party touches may share a step. Operations on a vector are atomic, and reading
    the last element of an empty one, which is undefined in the original, leads to a fault. */
module ActionProtocol {

  datatype Result = Unknown | Success | Error | Timeout | Unsupported | InProgress

  datatype CompleteCondition = OnResultSuccess | OnTimeout | OtherCondition

  /** `stages` is the number of stages; the commands themselves are external. */
  datatype Metadata = Metadata(id: int, stages: nat, hasGlobalScript: bool, completeCondition: CompleteCondition)

  /** One executed stage and what it returned; the global script counts as stage 0. */
  datatype Execution = Execution(stage: nat, result: Result)

  /** Where the worker is; `i` is the stage index of the loop. */
  datatype Worker =
    | Waiting | Fetch | PushMetadata(id: int) | PushResult | PushProgress | Spawn
    | StageCheck(i: nat) | StageExecute(i: nat) | StageWait(i: nat)
    | UpdateCheck(i: nat) | UpdateProgress(i: nat) | UpdateResult(i: nat)
    | FailResult | FailStop
    | ScriptCheck | ScriptExecute | ScriptResult(result: Result) | ScriptProgress
    | Raise | Lower | Clear | FinalCheck | FinalUnknown | Join | Finish
    | WorkerFault

  /** `seen` is history: how many stages were acknowledged when the progress was read. */
  datatype Reporter =
    | Absent | CheckStop | CheckResult | ReadProgress | ReadResult(progress: real, seen: nat)
    | Send(progress: real, seen: nat, result: Result) | Sleep | Done

  /** The callback that brings a new action; `spaced` is the verdict of its 1.5 s guard. */
  datatype Arrival = NoArrival | Compare(id: int, spaced: bool) | Append(id: int) | Announce | ArrivalFault

  /** One message to the autopilot. History: the entry of the action the reporter was started for, and
      how many stages were acknowledged when the progress was read. */
  datatype Response = Response(entry: nat, progress: real, seen: nat, result: Result, actionId: int)

  datatype State = State(
    stopped: bool,
    newAction: bool,
    actions: seq<int>,
    metadata: seq<Metadata>,
    results: seq<Result>,
    progress: seq<real>,
    worker: Worker,
    arrival: Arrival,
    reporter: Reporter,
    reporterEntry: nat,
    reporterId: int,
    // History: the id each entry was fetched for, what its stages or script returned, how many
    // stages of the current action were acknowledged, the stop flag as the worker read it before its
    // script, and everything that was sent.
    fetched: seq<int>,
    returned: seq<seq<Execution>>,
    acknowledged: nat,
    sawStop: bool,
    sent: seq<Response>)

  /** The scheduler's choice; the worker's step carries what external calls answer. */
  datatype Event =
    | WorkerStep(metadata: Metadata, result: Result)
    | ReporterStep
    | Cancel
    | Arrive(id: int, spaced: bool)
    | ArrivalStep

  function Initial(): State {
    State(false, false, [], [], [], [], Waiting, NoArrival, Absent, 0, 0, [], [], 0, false, [])
  }

  function Last<T>(s: seq<T>): T
    requires s != []
  {
    s[|s| - 1]
  }

  function SetLast<T>(s: seq<T>, x: T): (r: seq<T>)
    requires s != []
    ensures |r| == |s|
  {
    s[|s| - 1 := x]
  }

  function Percent(completed: nat, stages: nat): real
    requires stages > 0
  {
    completed as real / stages as real * 100.0
  }

  /** Pieces of work an action consists of: its stages, or its global script as one. */
  function Units(m: Metadata): (n: nat)
    ensures n > 0
  {
    if m.stages > 0 then m.stages else 1
  }

  /** The vectors have an entry for the action being processed. */
  predicate HasEntry(s: State) {
    s.metadata != [] && s.results != [] && s.progress != [] && s.returned != [] && s.fetched != []
  }

  function FirstStep(m: Metadata): Worker {
    if m.stages > 0 then StageCheck(0) else if m.hasGlobalScript then ScriptCheck else Raise
  }

  /** The part of the state that belongs to the worker and the current action: the last entry of
      each vector, and the stop flag. */
  datatype Local = Local(
    worker: Worker,
    stopped: bool,
    result: Result,
    progress: real,
    returned: seq<Execution>,
    acknowledged: nat,
    sawStop: bool)

  function View(s: State): Local
    requires HasEntry(s)
  {
    Local(s.worker, s.stopped, Last(s.results), Last(s.progress), Last(s.returned), s.acknowledged, s.sawStop)
  }

  function Store(s: State, l: Local): State
    requires HasEntry(s)
  {
    s.(worker := l.worker, stopped := l.stopped, results := SetLast(s.results, l.result),
       progress := SetLast(s.progress, l.progress), returned := SetLast(s.returned, l.returned),
       acknowledged := l.acknowledged, sawStop := l.sawStop)
  }

  /** One step of the worker on the current action; `answer` is what an external call returned. */
  function LocalNext(m: Metadata, l: Local, answer: Result): Local {
    match l.worker
    case StageCheck(i) =>
      l.(worker := if i >= m.stages then Raise else if l.stopped then StageCheck(i + 1) else StageExecute(i))
    case StageExecute(i) =>
      l.(worker := if answer == Success then StageWait(i) else FailResult,
         returned := l.returned + [Execution(i, answer)])
    case StageWait(i) => l.(worker := UpdateCheck(i))
    case UpdateCheck(i) => l.(worker := if l.stopped then StageCheck(i + 1) else UpdateProgress(i))
    case UpdateProgress(i) =>
      if m.stages > 0 then
        l.(worker := UpdateResult(i), progress := Percent(i + 1, m.stages), acknowledged := l.acknowledged + 1)
      else l
    case UpdateResult(i) =>
      l.(worker := StageCheck(i + 1), result := if l.progress != 100.0 then InProgress else Success)
    case FailResult => l.(worker := FailStop, result := Error)
    case FailStop => l.(worker := Raise, stopped := true)
    case ScriptCheck =>
      l.(worker := if l.stopped || m.completeCondition.OtherCondition? then ScriptResult(Unknown) else ScriptExecute,
         sawStop := l.stopped)
    case ScriptExecute => l.(worker := ScriptResult(answer), returned := l.returned + [Execution(0, answer)])
    case ScriptResult(r) => l.(worker := ScriptProgress, result := r)
    case ScriptProgress =>
      if l.result == Success then l.(worker := Raise, progress := 100.0, acknowledged := 1) else l.(worker := Raise)
    case Raise => l.(worker := Lower, stopped := true)
    case Lower => l.(worker := Clear, stopped := false)
    case FinalCheck => l.(worker := if l.progress == 100.0 && l.result == Success then FinalUnknown else Join)
    case FinalUnknown => l.(worker := Join, result := Unknown)
    case _ => l
  }

  /** No action is being processed. */
  predicate Idle(w: Worker) {
    w.Waiting? || w.Fetch? || w.PushMetadata? || w.WorkerFault?
  }

  /** The points at which the worker's step concerns the current action alone. */
  predicate LocalPoint(w: Worker) {
    !(Idle(w) || Pushing(w) || w.Spawn? || w.Clear? || w.Join? || w.Finish?)
  }

  /** The vectors of the new action are still being extended. */
  predicate Pushing(w: Worker) {
    w.PushResult? || w.PushProgress?
  }

  /** A step of the worker that concerns the queue, the vectors as a whole or the reporter. */
  function GlobalNext(s: State, metadata: Metadata): State {
    match s.worker
    case Waiting => if s.newAction then s.(worker := Fetch) else s
    case Fetch => s.(worker := if s.actions != [] then PushMetadata(Last(s.actions)) else WorkerFault)
    case PushMetadata(id) =>
      s.(worker := PushResult, metadata := s.metadata + [metadata], returned := s.returned + [[]],
         fetched := s.fetched + [id], acknowledged := 0, sawStop := false)
    case PushResult => s.(worker := PushProgress, results := s.results + [InProgress])
    case PushProgress => s.(worker := Spawn, progress := s.progress + [0.0])
    case Spawn =>
      if s.metadata != [] && s.actions != [] then
        s.(worker := FirstStep(Last(s.metadata)), reporter := CheckStop, reporterEntry := |s.metadata| - 1,
           reporterId := Last(s.actions))
      else s.(worker := WorkerFault)
    case Clear => s.(worker := FinalCheck, actions := [])
    case Join => if s.reporter == Done then s.(worker := Finish, reporter := Absent) else s
    case Finish => s.(worker := Waiting, newAction := false)
    case _ => s
  }

  function WorkerNext(s: State, metadata: Metadata, answer: Result): State {
    if !LocalPoint(s.worker) then GlobalNext(s, metadata)
    else if HasEntry(s) then Store(s, LocalNext(Last(s.metadata), View(s), answer))
    else s
  }

  function ReporterNext(s: State): State {
    if !HasEntry(s) then s else
    match s.reporter
    case Absent => s
    case CheckStop => s.(reporter := if s.stopped then Done else CheckResult)
    case CheckResult => s.(reporter := if Last(s.results) == Unknown then Done else ReadProgress)
    case ReadProgress => s.(reporter := ReadResult(Last(s.progress), s.acknowledged))
    case ReadResult(p, n) => s.(reporter := Send(p, n, Last(s.results)))
    case Send(p, n, r) =>
      s.(reporter := Sleep, sent := s.sent + [Response(s.reporterEntry, p, n, r, s.reporterId)])
    case Sleep => s.(reporter := CheckStop)
    case Done => s
  }

  /** A new action comes in: its callback starts with asking whether the queue is empty. The callbacks
      of arrivals follow one another. */
  function ArriveNext(s: State, id: int, spaced: bool): State {
    if s.arrival != NoArrival then s
    else if s.actions != [] then s.(arrival := Compare(id, spaced))
    else if spaced then s.(arrival := Append(id))
    else s
  }

  /** The rest of the callback: a new action is queued and announced unless it repeats the last one or
      follows too closely. */
  function ArrivalNext(s: State): State {
    match s.arrival
    case NoArrival => s
    case Compare(id, spaced) =>
      if s.actions == [] then s.(arrival := ArrivalFault)
      else s.(arrival := if Last(s.actions) != id && spaced then Append(id) else NoArrival)
    case Append(id) => s.(actions := s.actions + [id], arrival := Announce)
    case Announce => s.(newAction := true, arrival := NoArrival)
    case ArrivalFault => s
  }

  function Next(s: State, e: Event): State {
    match e
    case WorkerStep(m, r) => WorkerNext(s, m, r)
    case ReporterStep => ReporterNext(s)
    case Cancel => s.(stopped := true)
    case Arrive(id, spaced) => ArriveNext(s, id, spaced)
    case ArrivalStep => ArrivalNext(s)
  }

  function Run(s: State, events: seq<Event>): State
    decreases events
  {
    if events == [] then s else Run(Next(s, events[0]), events[1..])
  }

  lemma Ratio(c: real, d: real, n: real)
    requires n > 0.0
    ensures c <= d ==> c / n <= d / n
    ensures c / n == 1.0 <==> c == n
  {
    var x, y := c / n, d / n;
    assert x * n == c && y * n == d;
    assert (y - x) * n == d - c;
    assert n / n == 1.0;
  }

  lemma PercentOrder(c: nat, d: nat, n: nat)
    requires n > 0
    ensures c <= d ==> Percent(c, n) <= Percent(d, n)
    ensures Percent(c, n) == 100.0 <==> c == n
    ensures Percent(0, n) == 0.0
  {
    Ratio(c as real, d as real, n as real);
  }
}
