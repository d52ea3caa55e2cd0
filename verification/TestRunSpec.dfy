/** The parallel run of test files: workers that take the next index from a
    shared counter until it passes the end, under every interleaving. One step
    is one worker taking an index, or one worker finishing its file. */
module TestRunSpec {
  import Words

  type path = seq<Words.byte>

  datatype Report = Report(file: path, code: int)

  /** What the daemon makes of one file. */
  datatype Outcome = Refused | Exited(code: int)

  datatype Worker =
    | Ready(results: seq<Report>)
    | Running(results: seq<Report>, idx: nat)
    | Finished(results: seq<Report>)

  /** history lists the reports in the order in which they were made. */
  datatype State = State(next: nat, workers: seq<Worker>, history: seq<Report>)

  function WorkerCount(parallelism: nat, files: nat): (n: nat)
    ensures n >= 1 && (n == 1 || (n <= parallelism && n <= files))
    ensures n >= parallelism || n >= files
  {
    var n := if parallelism < files then parallelism else files;
    if n < 1 then 1 else n
  }

  function Start(files: seq<path>, parallelism: nat): State {
    State(0, seq(WorkerCount(parallelism, |files|), _ => Ready([])), [])
  }

  function Code(o: Outcome): int {
    if o.Refused? then 2 else o.code
  }

  function Step(files: seq<path>, s: State, w: nat, o: Outcome): State
    requires w < |s.workers|
  {
    match s.workers[w]
    case Ready(results) =>
      var worker := if s.next >= |files| then Finished(results) else Running(results, s.next);
      s.(next := s.next + 1, workers := s.workers[w := worker])
    case Running(results, idx) =>
      if idx < |files| then
        var report := Report(files[idx], Code(o));
        s.(workers := s.workers[w := Ready(results + [report])], history := s.history + [report])
      else s
    case Finished(_) => s
  }

  predicate AllFinished(s: State) {
    forall w :: 0 <= w < |s.workers| ==> s.workers[w].Finished?
  }

  /** The state after a schedule, a list of worker numbers with the outcome
      used when that worker finishes a file. */
  function Run(files: seq<path>, s: State, schedule: seq<(nat, Outcome)>): State
    decreases |schedule|
  {
    if schedule == [] then s
    else
      var before := Run(files, s, schedule[..|schedule| - 1]);
      var (w, o) := schedule[|schedule| - 1];
      if w < |before.workers| then Step(files, before, w, o) else before
  }

  /** Every step of the schedule is one of a worker that has not finished. */
  predicate Effective(files: seq<path>, s: State, schedule: seq<(nat, Outcome)>)
    decreases |schedule|
  {
    schedule == [] ||
    var before := Run(files, s, schedule[..|schedule| - 1]);
    var w := schedule[|schedule| - 1].0;
    Effective(files, s, schedule[..|schedule| - 1]) && w < |before.workers| && !before.workers[w].Finished?
  }

  /** The results of all workers, joined in worker order. */
  function Joined(workers: seq<Worker>): seq<Report> {
    if workers == [] then [] else workers[0].results + Joined(workers[1..])
  }

  function Files(results: seq<Report>): (files: seq<path>)
    ensures |files| == |results|
  {
    seq(|results|, i requires 0 <= i < |results| => results[i].file)
  }

  // ---- The summary ----

  /** Byte order on paths. */
  predicate AtMost(a: path, b: path) {
    a == [] || (b != [] && (a[0] < b[0] || (a[0] == b[0] && AtMost(a[1..], b[1..]))))
  }

  function Insert(r: Report, sorted: seq<Report>): seq<Report> {
    if sorted == [] || AtMost(r.file, sorted[0].file) then [r] + sorted
    else [sorted[0]] + Insert(r, sorted[1..])
  }

  /** A stable sort by path. */
  function Sort(results: seq<Report>): seq<Report> {
    if results == [] then [] else Insert(results[0], Sort(results[1..]))
  }

  predicate Ordered(results: seq<Report>) {
    forall i, j :: 0 <= i < j < |results| ==> AtMost(results[i].file, results[j].file)
  }

  function Failures(results: seq<Report>): nat {
    if results == [] then 0
    else Failures(results[..|results| - 1]) + if results[|results| - 1].code == 0 then 0 else 1
  }
}
