/** The test dispatcher as it updates its state, and its laws over every schedule. */
module TestRun {
  import opened TestRunSpec

  class Dispatcher {
    const files: seq<path>
    var next: nat
    var workers: seq<Worker>
    ghost var history: seq<Report>

    ghost function Abstract(): State
      reads this
    {
      State(next, workers, history)
    }

    constructor (files: seq<path>, parallelism: nat)
      ensures this.files == files && Abstract() == Start(files, parallelism)
    {
      this.files := files;
      next := 0;
      workers := seq(WorkerCount(parallelism, |files|), _ => Ready([]));
      history := [];
      new;
      assert workers == Start(files, parallelism).workers;
    }

    /** fetch_add: one atomic step, so no two workers get one index. */
    method FetchAdd() returns (idx: nat)
      modifies this`next
      ensures idx == old(next) && next == old(next) + 1
    {
      idx := next;
      next := next + 1;
    }

    method Turn(w: nat, o: Outcome)
      requires w < |workers|
      requires workers[w].Running? ==> workers[w].idx < |files|
      modifies this
      ensures Abstract() == Step(files, old(Abstract()), w, o)
    {
      match workers[w]
      case Ready(results) =>
        var idx := FetchAdd();
        if idx >= |files| {
          workers := workers[w := Finished(results)];
        } else {
          workers := workers[w := Running(results, idx)];
        }
      case Running(results, idx) =>
        var code;
        match o {
          case Refused => code := 2;
          case Exited(c) => code := c;
        }
        workers := workers[w := Ready(results + [Report(files[idx], code)])];
        history := history + [Report(files[idx], code)];
      case Finished(_) =>
    }
  }

  /** The summary over the sorted results. */
  method Summarize(results: seq<Report>) returns (failures: nat, code: int)
    ensures failures == Failures(results)
    ensures code == if exists r :: r in results && r.code != 0 then 1 else 0
  {
    failures := 0;
    for i := 0 to |results|
      invariant failures == Failures(results[..i])
      invariant failures == 0 <==> forall r :: r in results[..i] ==> r.code == 0
    {
      assert results[..i + 1][..i] == results[..i];
      assert results[..i + 1] == results[..i] + [results[i]];
      if results[i].code != 0 {
        failures := failures + 1;
        assert results[i] in results[..i + 1];
      }
    }
    assert results[..|results|] == results;
    code := if failures > 0 then 1 else 0;
  }

  // ---- Every step ----

  function Claims(files: seq<path>, worker: Worker): multiset<path> {
    multiset(Files(worker.results)) +
    if worker.Running? && worker.idx < |files| then multiset{files[worker.idx]} else multiset{}
  }

  /** The files that some worker has run or is running. */
  function Claimed(files: seq<path>, workers: seq<Worker>): multiset<path> {
    if workers == [] then multiset{} else Claims(files, workers[0]) + Claimed(files, workers[1..])
  }

  function Taken(files: seq<path>, s: State): seq<path> {
    files[..if s.next < |files| then s.next else |files|]
  }

  /** A running worker has a valid index; a worker finishes only at the end. */
  predicate Placed(files: seq<path>, s: State, worker: Worker) {
    && (worker.Running? ==> worker.idx < |files|)
    && (worker.Finished? ==> s.next >= |files|)
  }

  predicate Inv(files: seq<path>, s: State) {
    && Claimed(files, s.workers) == multiset(Taken(files, s))
    && multiset(Joined(s.workers)) == multiset(s.history)
    && forall w :: 0 <= w < |s.workers| ==> Placed(files, s, s.workers[w])
  }

  lemma Regroup<T>(a: multiset<T>, b: multiset<T>, c: multiset<T>, d: multiset<T>, e: multiset<T>)
    requires b + d == c + e
    ensures (a + b) + d == (a + c) + e
  {
    assert (a + b) + d == a + (b + d);
    assert (a + c) + e == a + (c + e);
  }

  lemma Cancel<T>(a: multiset<T>, b: multiset<T>, c: multiset<T>, d: multiset<T>)
    requires a + b == c + (b + d)
    ensures a == c + d
  {
    assert a == (a + b) - b;
    assert c + d == (c + (b + d)) - b;
  }

  lemma Swap<T>(a: multiset<T>, b: multiset<T>, c: multiset<T>)
    ensures (a + b) + c == (c + b) + a
  {
  }

  lemma {:induction false} ClaimedUpdate(files: seq<path>, workers: seq<Worker>, w: nat, x: Worker)
    requires w < |workers|
    ensures Claimed(files, workers[w := x]) + Claims(files, workers[w]) == Claimed(files, workers) + Claims(files, x)
  {
    hide Claims;
    var updated, rest := workers[w := x], workers[1..];
    assert Claimed(files, updated) == Claims(files, updated[0]) + Claimed(files, updated[1..]);
    assert Claimed(files, workers) == Claims(files, workers[0]) + Claimed(files, rest);
    if w == 0 {
      assert updated[1..] == rest;
      Swap(Claims(files, x), Claimed(files, rest), Claims(files, workers[0]));
    } else {
      assert updated[1..] == rest[w - 1 := x] && updated[0] == workers[0];
      ClaimedUpdate(files, rest, w - 1, x);
      Regroup(Claims(files, workers[0]), Claimed(files, updated[1..]), Claimed(files, rest),
              Claims(files, workers[w]), Claims(files, x));
    }
  }

  lemma {:induction false} JoinedUpdate(workers: seq<Worker>, w: nat, x: Worker)
    requires w < |workers|
    ensures multiset(Joined(workers[w := x])) + multiset(workers[w].results)
         == multiset(Joined(workers)) + multiset(x.results)
  {
    var updated, rest := workers[w := x], workers[1..];
    JoinedFront(updated);
    JoinedFront(workers);
    hide Joined;
    if w == 0 {
      assert updated[1..] == rest;
      Swap(multiset(x.results), multiset(Joined(rest)), multiset(workers[0].results));
    } else {
      assert updated[1..] == rest[w - 1 := x] && updated[0] == workers[0];
      JoinedUpdate(rest, w - 1, x);
      Regroup(multiset(workers[0].results), multiset(Joined(updated[1..])), multiset(Joined(rest)),
              multiset(workers[w].results), multiset(x.results));
    }
  }

  lemma JoinedFront(workers: seq<Worker>)
    requires workers != []
    ensures multiset(Joined(workers)) == multiset(workers[0].results) + multiset(Joined(workers[1..]))
  {
  }

  lemma FilesPush(results: seq<Report>, r: Report)
    ensures multiset(Files(results + [r])) == multiset(Files(results)) + multiset{r.file}
  {
    assert Files(results + [r]) == Files(results) + [r.file];
  }

  lemma StepClaims(files: seq<path>, s: State, w: nat, o: Outcome)
    requires w < |s.workers| && Placed(files, s, s.workers[w])
    requires Claimed(files, s.workers) == multiset(Taken(files, s))
    ensures var t := Step(files, s, w, o); Claimed(files, t.workers) == multiset(Taken(files, t))
  {
    var t := Step(files, s, w, o);
    hide Claimed, Joined, Files, Taken;
    ClaimedUpdate(files, s.workers, w, t.workers[w]);
    var claims := Claims(files, s.workers[w]);
    match s.workers[w]
    case Ready(results) =>
      TakenNext(files, s, t);
      var took := if s.next < |files| then multiset{files[s.next]} else multiset{};
      assert Claims(files, t.workers[w]) == claims + took;
      Cancel(Claimed(files, t.workers), claims, Claimed(files, s.workers), took);
    case Running(results, idx) =>
      FilesPush(results, Report(files[idx], Code(o)));
      TakenSame(files, s, t);
      assert Claims(files, t.workers[w]) == claims + multiset{};
      Cancel(Claimed(files, t.workers), claims, Claimed(files, s.workers), multiset{});
    case Finished(_) =>
  }

  lemma StepReports(files: seq<path>, s: State, w: nat, o: Outcome)
    requires w < |s.workers|
    requires multiset(Joined(s.workers)) == multiset(s.history)
    ensures var t := Step(files, s, w, o); multiset(Joined(t.workers)) == multiset(t.history)
  {
    var t := Step(files, s, w, o);
    hide Joined;
    JoinedUpdate(s.workers, w, t.workers[w]);
    var results := multiset(s.workers[w].results);
    var made := t.history[|s.history|..];
    assert t.history == s.history + made;
    assert t.workers[w].results == s.workers[w].results + made;
    Cancel(multiset(Joined(t.workers)), results, multiset(Joined(s.workers)), multiset(made));
  }

  lemma StepKeeps(files: seq<path>, s: State, w: nat, o: Outcome)
    requires w < |s.workers| && Inv(files, s)
    ensures Inv(files, Step(files, s, w, o))
  {
    hide Claimed, Joined, Taken;
    StepClaims(files, s, w, o);
    StepReports(files, s, w, o);
  }

  lemma TakenNext(files: seq<path>, s: State, t: State)
    requires t.next == s.next + 1
    ensures multiset(Taken(files, t)) ==
      multiset(Taken(files, s)) + if s.next < |files| then multiset{files[s.next]} else multiset{}
  {
    if s.next < |files| {
      assert Taken(files, t) == Taken(files, s) + [files[s.next]];
    }
  }

  lemma TakenSame(files: seq<path>, s: State, t: State)
    requires t.next == s.next
    ensures Taken(files, t) == Taken(files, s)
  {
  }

  lemma {:induction false} StartHolds(files: seq<path>, parallelism: nat)
    ensures Inv(files, Start(files, parallelism))
  {
    NothingClaimed(files, Start(files, parallelism).workers);
  }

  lemma {:induction false} NothingClaimed(files: seq<path>, workers: seq<Worker>)
    requires forall w :: 0 <= w < |workers| ==> workers[w] == Ready([])
    ensures Claimed(files, workers) == multiset{} && Joined(workers) == []
  {
    if workers != [] {
      NothingClaimed(files, workers[1..]);
    }
  }

  lemma {:induction false} RunKeeps(files: seq<path>, s: State, schedule: seq<(nat, Outcome)>)
    requires Inv(files, s)
    ensures Inv(files, Run(files, s, schedule)) && |Run(files, s, schedule).workers| == |s.workers|
    decreases |schedule|
  {
    hide Inv;
    if schedule != [] {
      RunKeeps(files, s, schedule[..|schedule| - 1]);
      var before := Run(files, s, schedule[..|schedule| - 1]);
      var (w, o) := schedule[|schedule| - 1];
      if w < |before.workers| {
        StepKeeps(files, before, w, o);
      }
    }
  }

  // ---- Termination ----

  function Weight(worker: Worker): nat {
    if worker.Running? then 2 else if worker.Ready? then 1 else 0
  }

  function Weights(workers: seq<Worker>): nat {
    if workers == [] then 0 else Weight(workers[0]) + Weights(workers[1..])
  }

  /** The number of steps that are left, whoever takes them. */
  function Left(files: seq<path>, s: State): nat {
    2 * (|files| - |Taken(files, s)|) + Weights(s.workers)
  }

  lemma {:induction false} WeightsUpdate(workers: seq<Worker>, w: nat, x: Worker)
    requires w < |workers|
    ensures Weights(workers[w := x]) + Weight(workers[w]) == Weights(workers) + Weight(x)
  {
    hide Weight;
    if w == 0 {
      assert workers[0 := x][1..] == workers[1..];
    } else {
      assert workers[w := x][1..] == workers[1..][w - 1 := x];
      WeightsUpdate(workers[1..], w - 1, x);
    }
  }

  lemma {:induction false} WeightsOfStart(workers: seq<Worker>)
    requires forall w :: 0 <= w < |workers| ==> workers[w] == Ready([])
    ensures Weights(workers) == |workers|
  {
    if workers != [] {
      WeightsOfStart(workers[1..]);
    }
  }

  lemma {:induction false} NoWeightLeft(workers: seq<Worker>)
    ensures Weights(workers) == 0 <==> forall w :: 0 <= w < |workers| ==> workers[w].Finished?
  {
    if workers != [] {
      NoWeightLeft(workers[1..]);
      assert forall w :: 0 < w < |workers| ==> workers[w] == workers[1..][w - 1];
      assert forall w :: 0 <= w < |workers| - 1 ==> workers[1..][w] == workers[w + 1];
    }
  }

  /** Each step of an unfinished worker leaves one fewer. */
  lemma StepCounts(files: seq<path>, s: State, w: nat, o: Outcome)
    requires w < |s.workers| && Inv(files, s) && !s.workers[w].Finished?
    ensures Left(files, Step(files, s, w, o)) == Left(files, s) - 1
  {
    hide Weights, Claimed, Joined;
    WeightsUpdate(s.workers, w, Step(files, s, w, o).workers[w]);
  }

  lemma {:induction false} RunCounts(files: seq<path>, s: State, schedule: seq<(nat, Outcome)>)
    requires Inv(files, s) && Effective(files, s, schedule)
    ensures Left(files, Run(files, s, schedule)) + |schedule| == Left(files, s)
    decreases |schedule|
  {
    hide Inv, Left, Step;
    if schedule != [] {
      var most := schedule[..|schedule| - 1];
      RunCounts(files, s, most);
      RunKeeps(files, s, most);
      var (w, o) := schedule[|schedule| - 1];
      StepCounts(files, Run(files, s, most), w, o);
    }
  }

  lemma FinishedTookAll(files: seq<path>, s: State)
    requires Inv(files, s) && AllFinished(s) && s.workers != []
    ensures Taken(files, s) == files
  {
    assert s.workers[0].Finished?;
  }

  /** Under every interleaving the workers take exactly two steps a file and one
      more each: no schedule is longer, and all have finished exactly when that
      many steps are taken. Until then some worker can move. */
  lemma AllWorkersFinish(files: seq<path>, parallelism: nat, schedule: seq<(nat, Outcome)>)
    requires Effective(files, Start(files, parallelism), schedule)
    ensures var total := 2 * |files| + WorkerCount(parallelism, |files|);
      |schedule| <= total &&
      (AllFinished(Run(files, Start(files, parallelism), schedule)) <==> |schedule| == total)
  {
    var s := Start(files, parallelism);
    var t := Run(files, s, schedule);
    hide Run, Effective, Weights, Inv;
    StartHolds(files, parallelism);
    RunKeeps(files, s, schedule);
    RunCounts(files, s, schedule);
    WeightsOfStart(s.workers);
    NoWeightLeft(t.workers);
    assert Taken(files, s) == [];
    assert Left(files, s) == 2 * |files| + WorkerCount(parallelism, |files|);
    if AllFinished(t) {
      FinishedTookAll(files, t);
    }
  }

  // ---- The results ----

  lemma {:induction false} ClaimedOfFinished(files: seq<path>, workers: seq<Worker>)
    requires forall w :: 0 <= w < |workers| ==> workers[w].Finished?
    ensures Claimed(files, workers) == multiset(Files(Joined(workers)))
  {
    if workers != [] {
      ClaimedOfFinished(files, workers[1..]);
      var a, b := workers[0].results, Joined(workers[1..]);
      assert Files(a + b) == Files(a) + Files(b);
    }
  }

  /** Whatever the interleaving, once all workers have finished each file has
      been run as often as it is listed, and the joined results are a
      permutation of the reports made. */
  lemma EveryFileRunsOnce(files: seq<path>, parallelism: nat, schedule: seq<(nat, Outcome)>)
    requires AllFinished(Run(files, Start(files, parallelism), schedule))
    ensures var t := Run(files, Start(files, parallelism), schedule);
      && multiset(Files(Joined(t.workers))) == multiset(files)
      && multiset(Joined(t.workers)) == multiset(t.history)
  {
    var t := Run(files, Start(files, parallelism), schedule);
    StartHolds(files, parallelism);
    RunKeeps(files, Start(files, parallelism), schedule);
    ClaimedOfFinished(files, t.workers);
    FinishedTookAll(files, t);
  }

  // ---- The summary ----

  lemma {:induction false} InsertPermutes(r: Report, sorted: seq<Report>)
    ensures multiset(Insert(r, sorted)) == multiset{r} + multiset(sorted)
  {
    if sorted != [] {
      InsertPermutes(r, sorted[1..]);
      assert sorted == [sorted[0]] + sorted[1..];
    }
  }

  lemma {:induction false} SortPermutes(results: seq<Report>)
    ensures multiset(Sort(results)) == multiset(results)
  {
    if results != [] {
      SortPermutes(results[1..]);
      InsertPermutes(results[0], Sort(results[1..]));
      assert results == [results[0]] + results[1..];
    }
  }

  /** The order by bytes: a path comes first if it is a prefix of the other, or
      has the smaller byte where they first differ. */
  lemma {:induction false} AtMostExactly(a: path, b: path)
    ensures AtMost(a, b) <==>
      a <= b || exists k :: 0 <= k < |a| && k < |b| && a[..k] == b[..k] && a[k] < b[k]
    decreases |a|
  {
    if a != [] && b != [] && a[0] == b[0] {
      var x, y := a[1..], b[1..];
      AtMostExactly(x, y);
      assert a == [a[0]] + x && b == [a[0]] + y;
      if k :| 0 <= k < |x| && k < |y| && x[..k] == y[..k] && x[k] < y[k] {
        assert a[..k + 1] == [a[0]] + x[..k] && b[..k + 1] == [a[0]] + y[..k] && a[k + 1] < b[k + 1];
      }
      if k :| 0 <= k < |a| && k < |b| && a[..k] == b[..k] && a[k] < b[k] {
        assert x[..k - 1] == a[..k][1..] && y[..k - 1] == b[..k][1..] && x[k - 1] < y[k - 1];
      }
    } else if a != [] && b != [] {
      if a[0] < b[0] { assert a[..0] == b[..0]; }
      assert forall k :: 0 < k < |a| && k < |b| ==> a[..k][0] != b[..k][0];
    }
  }

  lemma {:induction false} AtMostTotal(a: path, b: path)
    ensures AtMost(a, b) || AtMost(b, a)
    ensures AtMost(a, b) && AtMost(b, a) ==> a == b
    decreases |a|
  {
    if a != [] && b != [] {
      AtMostTotal(a[1..], b[1..]);
      assert a == [a[0]] + a[1..] && b == [b[0]] + b[1..];
    }
  }

  lemma {:induction false} AtMostChains(a: path, b: path, c: path)
    requires AtMost(a, b) && AtMost(b, c)
    ensures AtMost(a, c)
    decreases |a|
  {
    if a != [] && a[0] == b[0] == c[0] {
      AtMostChains(a[1..], b[1..], c[1..]);
    }
  }

  lemma {:induction false} InsertOrders(r: Report, sorted: seq<Report>)
    requires Ordered(sorted)
    ensures Ordered(Insert(r, sorted))
  {
    if sorted == [] {
    } else if AtMost(r.file, sorted[0].file) {
      forall j | 0 <= j < |sorted|
        ensures AtMost(r.file, sorted[j].file)
      {
        if j > 0 {
          AtMostChains(r.file, sorted[0].file, sorted[j].file);
        }
      }
    } else {
      AtMostTotal(r.file, sorted[0].file);
      var rest := Insert(r, sorted[1..]);
      InsertOrders(r, sorted[1..]);
      InsertPermutes(r, sorted[1..]);
      forall j | 0 <= j < |rest|
        ensures AtMost(sorted[0].file, rest[j].file)
      {
        assert rest[j] in multiset(rest);
        assert rest[j] == r || rest[j] in sorted[1..];
      }
    }
  }

  lemma {:induction false} SortOrders(results: seq<Report>)
    ensures Ordered(Sort(results))
  {
    if results != [] {
      SortOrders(results[1..]);
      InsertOrders(results[0], Sort(results[1..]));
    }
  }

  /** At step k of the schedule some worker finishes this file. */
  predicate Ends(files: seq<path>, s: State, schedule: seq<(nat, Outcome)>, k: nat, file: path)
    requires k < |schedule|
  {
    var before := Run(files, s, schedule[..k]);
    var w := schedule[k].0;
    w < |before.workers| && before.workers[w].Running? &&
    before.workers[w].idx < |files| && files[before.workers[w].idx] == file
  }

  /** What becomes of a file, as it is reported. */
  predicate Gives(o: Outcome, code: int) {
    o == Exited(code) || (o.Refused? && code == 2)
  }

  lemma LastReport(files: seq<path>, s: State, schedule: seq<(nat, Outcome)>, file: path, code: int)
    requires schedule != []
    ensures var n := |schedule| - 1;
      Report(file, code) in Run(files, s, schedule).history <==>
      Report(file, code) in Run(files, s, schedule[..n]).history ||
      (Ends(files, s, schedule, n, file) && Gives(schedule[n].1, code))
  {
    var before := Run(files, s, schedule[..|schedule| - 1]);
    var (w, o) := schedule[|schedule| - 1];
    if w < |before.workers| {
      var made := Step(files, before, w, o).history[|before.history|..];
      assert Step(files, before, w, o).history == before.history + made;
    }
  }

  lemma EndsBefore(files: seq<path>, s: State, schedule: seq<(nat, Outcome)>, file: path)
    requires schedule != []
    ensures var most := schedule[..|schedule| - 1];
      forall k :: 0 <= k < |most| ==>
        Ends(files, s, most, k, file) == Ends(files, s, schedule, k, file) && most[k] == schedule[k]
  {
    var most := schedule[..|schedule| - 1];
    forall k | 0 <= k < |most|
      ensures Ends(files, s, most, k, file) == Ends(files, s, schedule, k, file) && most[k] == schedule[k]
    {
      assert most[..k] == schedule[..k];
    }
  }

  /** The reports made are those of the files that ended, each with what became
      of it: the code it exited with, or 2 when the daemon could not be reached. */
  lemma {:induction false} ReportsExactly(files: seq<path>, s: State, schedule: seq<(nat, Outcome)>, file: path, code: int)
    requires s.history == []
    ensures Report(file, code) in Run(files, s, schedule).history <==>
      exists k :: 0 <= k < |schedule| && Ends(files, s, schedule, k, file)
        && Gives(schedule[k].1, code)
    decreases |schedule|
  {
    if schedule != [] {
      var most := schedule[..|schedule| - 1];
      ReportsExactly(files, s, most, file, code);
      LastReport(files, s, schedule, file, code);
      EndsBefore(files, s, schedule, file);
      hide *;
      assert |most| == |schedule| - 1;
    }
  }

  /** Over every schedule the summary counts a failure, so that the exit code is
      1, exactly when some file the workers finished did not exit with 0; a file
      for which the daemon could not be reached is one. */
  lemma ExitCodeExactly(files: seq<path>, parallelism: nat, schedule: seq<(nat, Outcome)>)
    requires AllFinished(Run(files, Start(files, parallelism), schedule))
    ensures var s := Start(files, parallelism);
      Failures(Sort(Joined(Run(files, s, schedule).workers))) > 0 <==>
      exists k, file :: 0 <= k < |schedule| && Ends(files, s, schedule, k, file) && schedule[k].1 != Exited(0)
  {
    hide Ends;
    var s := Start(files, parallelism);
    FailuresAreReports(files, parallelism, schedule);
    var history := Run(files, s, schedule).history;
    if r :| r in history && r.code != 0 {
      ReportsExactly(files, s, schedule, r.file, r.code);
    }
    if k, file :| 0 <= k < |schedule| && Ends(files, s, schedule, k, file) && schedule[k].1 != Exited(0) {
      var code := if schedule[k].1.Refused? then 2 else schedule[k].1.code;
      ReportsExactly(files, s, schedule, file, code);
      assert Report(file, code) in history;
    }
  }

  lemma FailuresAreReports(files: seq<path>, parallelism: nat, schedule: seq<(nat, Outcome)>)
    requires AllFinished(Run(files, Start(files, parallelism), schedule))
    ensures var t := Run(files, Start(files, parallelism), schedule);
      Failures(Sort(Joined(t.workers))) > 0 <==> exists r :: r in t.history && r.code != 0
  {
    var t := Run(files, Start(files, parallelism), schedule);
    var sorted := Sort(Joined(t.workers));
    EveryFileRunsOnce(files, parallelism, schedule);
    SortPermutes(Joined(t.workers));
    assert forall r :: r in sorted <==> r in multiset(sorted);
    assert forall r :: r in t.history <==> r in multiset(t.history);
    FailuresExactly(sorted);
  }

  lemma {:induction false} FailuresExactly(results: seq<Report>)
    ensures Failures(results) > 0 <==> exists r :: r in results && r.code != 0
  {
    if results != [] {
      var most := results[..|results| - 1];
      FailuresExactly(most);
      assert results == most + [results[|results| - 1]];
    }
  }

  /** Every file gets the code that exit gives it. */
  function Ideal(files: seq<path>, exit: path -> int): (results: seq<Report>)
    ensures |results| == |files|
  {
    seq(|files|, i requires 0 <= i < |files| => Report(files[i], exit(files[i])))
  }

  lemma IdealAppend(a: seq<path>, b: seq<path>, exit: path -> int)
    ensures Ideal(a + b, exit) == Ideal(a, exit) + Ideal(b, exit)
  {
  }

  lemma Without<T>(a: seq<T>, b: seq<T>) returns (i: nat)
    requires a != [] && multiset(a) == multiset(b)
    ensures i < |b| && b[i] == a[0] && b == b[..i] + [b[i]] + b[i + 1..]
    ensures multiset(a[1..]) == multiset(b[..i] + b[i + 1..])
  {
    assert a[0] in multiset(b);
    i :| 0 <= i < |b| && b[i] == a[0];
    assert a == [a[0]] + a[1..] && b == b[..i] + [b[i]] + b[i + 1..];
    assert multiset(a[1..]) == multiset(a) - multiset{a[0]};
  }

  lemma {:induction false} IdealOfPermutation(a: seq<path>, b: seq<path>, exit: path -> int)
    requires multiset(a) == multiset(b)
    ensures multiset(Ideal(a, exit)) == multiset(Ideal(b, exit))
  {
    if a == [] {
      assert |multiset(b)| == 0;
    } else {
      var i := Without(a, b);
      IdealOfPermutation(a[1..], b[..i] + b[i + 1..], exit);
      IdealAppend([a[0]], a[1..], exit);
      IdealAppend(b[..i], b[i + 1..], exit);
      IdealAppend(b[..i] + [b[i]], b[i + 1..], exit);
      IdealAppend(b[..i], [b[i]], exit);
      assert a == [a[0]] + a[1..];
    }
  }

  lemma FirstIsLeast(a: seq<Report>, b: seq<Report>)
    requires a != [] && Ordered(a) && multiset(a) == multiset(b)
    ensures b != [] && b[0] in a && AtMost(a[0].file, b[0].file)
  {
    assert a[0] in multiset(b);
    assert b[0] in multiset(a);
    var j :| 0 <= j < |a| && a[j] == b[0];
    AtMostTotal(a[0].file, a[0].file);
  }

  lemma SameRest<T>(a: seq<T>, b: seq<T>)
    requires a != [] && b != [] && a[0] == b[0] && multiset(a) == multiset(b)
    ensures multiset(a[1..]) == multiset(b[1..])
  {
    assert a == [a[0]] + a[1..] && b == [b[0]] + b[1..];
    assert multiset(a[1..]) == multiset(a) - multiset{a[0]};
    assert multiset(b[1..]) == multiset(b) - multiset{b[0]};
  }

  /** Two ordered lists of the same reports are one list when a path decides its
      report. */
  lemma {:induction false} OrderDecides(a: seq<Report>, b: seq<Report>, exit: path -> int)
    requires Ordered(a) && Ordered(b) && multiset(a) == multiset(b)
    requires forall r :: r in a ==> r.code == exit(r.file)
    ensures a == b
  {
    if a == [] {
      assert |multiset(b)| == 0;
    } else {
      FirstIsLeast(a, b);
      FirstIsLeast(b, a);
      AtMostTotal(a[0].file, b[0].file);
      assert a[0] == b[0];
      SameRest(a, b);
      OrderDecides(a[1..], b[1..], exit);
      assert a == [a[0]] + a[1..] && b == [b[0]] + b[1..];
    }
  }

  /** When the code of a file does not depend on the interleaving, neither does
      the summary: it is the sorted list of the files with their codes. */
  lemma SummaryIsDetermined(files: seq<path>, parallelism: nat, schedule: seq<(nat, Outcome)>, exit: path -> int)
    requires AllFinished(Run(files, Start(files, parallelism), schedule))
    requires forall r :: r in Run(files, Start(files, parallelism), schedule).history ==> r.code == exit(r.file)
    ensures Sort(Joined(Run(files, Start(files, parallelism), schedule).workers)) == Sort(Ideal(files, exit))
  {
    var t := Run(files, Start(files, parallelism), schedule);
    var results := Joined(t.workers);
    EveryFileRunsOnce(files, parallelism, schedule);
    forall r | r in results
      ensures r.code == exit(r.file)
    {
      assert r in multiset(t.history);
    }
    assert results == Ideal(Files(results), exit);
    IdealOfPermutation(Files(results), files, exit);
    var a, b := Sort(results), Sort(Ideal(files, exit));
    SortPermutes(results);
    SortPermutes(Ideal(files, exit));
    SortOrders(results);
    SortOrders(Ideal(files, exit));
    forall r | r in a
      ensures r.code == exit(r.file)
    {
      assert r in multiset(results);
    }
    OrderDecides(a, b, exit);
  }
}
