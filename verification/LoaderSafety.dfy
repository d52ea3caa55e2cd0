/** What every run of the loader keeps, on any graph of requires and autoloads. */
module LoaderSafety {
  import opened LoaderSpec

  // ----- reading the log -----

  function AfterRunning(running: set<Path>, e: Event): set<Path> {
    match e
    case Enter(p) => running + {p}
    case Complete(p) => running - {p}
    case Abort(p, _) => running - {p}
    case Rescued => running
  }

  /** The files whose body has been entered and not left. */
  function Running(log: seq<Event>): set<Path> {
    if log == [] then {} else AfterRunning(Running(log[..|log| - 1]), log[|log| - 1])
  }

  function AfterCompleted(completed: set<Path>, e: Event): set<Path> {
    if e.Complete? then completed + {e.path} else completed
  }

  /** The files whose body has run to its end. */
  function Completed(log: seq<Event>): set<Path> {
    if log == [] then {} else AfterCompleted(Completed(log[..|log| - 1]), log[|log| - 1])
  }

  function AfterFailing(failing: bool, e: Event): bool {
    match e
    case Abort(_, cause) => failing || cause == LoadError
    case Rescued => false
    case _ => failing
  }

  /** A LoadError has left a body and has not been rescued. */
  predicate Failing(log: seq<Event>) {
    log != [] && AfterFailing(Failing(log[..|log| - 1]), log[|log| - 1])
  }

  predicate Admissible(running: set<Path>, completed: set<Path>, failing: bool, e: Event) {
    match e
    case Enter(p) => !failing && p !in running && p !in completed
    case Complete(p) => p in running
    case Abort(p, cause) => p in running && cause != Done
    case Rescued => true
  }

  /** No body is entered while it is running or after it has completed, nor
      while a LoadError is under way. */
  predicate WellRun(log: seq<Event>) {
    log == [] ||
    var before := log[..|log| - 1];
    WellRun(before) && Admissible(Running(before), Completed(before), Failing(before), log[|log| - 1])
  }

  lemma LogGrows(log: seq<Event>, e: Event)
    ensures Running(log + [e]) == AfterRunning(Running(log), e)
    ensures Completed(log + [e]) == AfterCompleted(Completed(log), e)
    ensures Failing(log + [e]) == AfterFailing(Failing(log), e)
    ensures WellRun(log + [e]) == (WellRun(log) && Admissible(Running(log), Completed(log), Failing(log), e))
  {
    assert (log + [e])[..|log|] == log;
  }

  // ----- the invariant -----

  ghost predicate Inv(s: State) {
    && WellRun(s.log)
    && Completed(s.log) == s.loaded
    && Running(s.log) <= s.loading
    && s.loading !! s.loaded
  }

  /** The same files are running, nothing loaded, being loaded or defined is
      lost, and a LoadError is under way only if one is raised. */
  ghost predicate Advances(s: State, s': State, outcome: Outcome) {
    && Inv(s') && Running(s'.log) == Running(s.log)
    && s.loading <= s'.loading && s.loaded <= s'.loaded && s.defined <= s'.defined && s.log <= s'.log
    && (outcome != LoadError ==> !Failing(s'.log))
  }

  lemma NativeKeeps(s: State, abs: Path)
    requires Inv(s) && !Failing(s.log) && abs !in s.loaded && abs !in s.loading
    ensures
      var s1 := s.Note(Enter(abs));
      && Advances(s, s1.Note(Complete(abs)).(loaded := s1.loaded + {abs}), Done)
      && Advances(s, s1.Note(Abort(abs, LoadError)), LoadError)
  {
    LogGrows(s.log, Enter(abs));
    LogGrows(s.log + [Enter(abs)], Complete(abs));
    LogGrows(s.log + [Enter(abs)], Abort(abs, LoadError));
  }

  /** Whatever the outcome, the tables and the log stay consistent; on success
      the file is loaded, or in LOADING already, and otherwise it is not loaded. */
  lemma {:induction false} LoadFileSafe(b: Bundle, s: State, abs: Path)
    requires Inv(s) && !Failing(s.log)
    ensures
      var r := LoadFile(b, s, abs);
      && Advances(s, r.state, r.outcome)
      && (r.outcome == Done ==> abs in r.state.loaded || abs in s.loading)
      && (r.outcome != Done ==> abs !in r.state.loaded)
    decreases Universe(b) - s.loading, 0, 0
  {
    hide Running, Completed, WellRun, Failing, Preload, Exec;
    if abs in s.loaded || abs in s.loading {
    } else if abs in b.native {
      NativeKeeps(s, abs);
    } else if abs in b.code {
      var s1 := s.(loading := s.loading + {abs});
      assert abs in Universe(b) - s.loading;
      PreloadSafe(b, s1, Targets(b, abs));
      var pre := Preload(b, s1, Targets(b, abs));
      if pre.outcome != LoadError {
        var s2 := pre.state.Note(Enter(abs));
        LogGrows(pre.state.log, Enter(abs));
        NotRunning(pre.state, s, abs);
        ExecSafe(b, s2, b.code[abs]);
        var body := Exec(b, s2, b.code[abs]);
        LogGrows(body.state.log, Complete(abs));
        LogGrows(body.state.log, Abort(abs, body.outcome));
      }
    }
  }

  lemma NotRunning(s': State, s: State, abs: Path)
    requires Inv(s) && abs !in s.loading && Running(s'.log) == Running(s.log)
    ensures abs !in Running(s'.log)
  {
  }

  lemma {:induction false} ExecSafe(b: Bundle, s: State, stmts: seq<Stmt>)
    requires Inv(s) && !Failing(s.log)
    ensures var r := Exec(b, s, stmts); Advances(s, r.state, r.outcome)
    decreases Universe(b) - s.loading, 1, |stmts|
  {
    hide Running, Completed, WellRun, Failing, LoadFile;
    if stmts != [] {
      match stmts[0]
      case Fail =>
      case Define(name) => ExecSafe(b, s.(defined := s.defined + {name}), stmts[1..]);
      case Use(name) => if name in s.defined { ExecSafe(b, s, stmts[1..]); }
      case Load(target, rescued) =>
        LoadFileSafe(b, s, target);
        var r := LoadFile(b, s, target);
        if r.outcome == Done || r.outcome in rescued {
          LogGrows(r.state.log, Rescued);
          Shrinks(b, s.loading, r.state.loading);
          ExecSafe(b, Caught(r), stmts[1..]);
        }
    }
  }

  lemma {:induction false} RoundSafe(b: Bundle, s: State, targets: seq<Path>)
    requires Inv(s) && !Failing(s.log)
    ensures var r := Round(b, s, targets); Advances(s, r.state, r.outcome)
    decreases Universe(b) - s.loading, 1, |targets|
  {
    hide Running, Completed, WellRun, Failing, LoadFile;
    if targets != [] {
      LoadFileSafe(b, s, targets[0]);
      var r := LoadFile(b, s, targets[0]);
      if r.outcome != LoadError {
        Shrinks(b, s.loading, r.state.loading);
        RoundSafe(b, r.state, targets[1..]);
      }
    }
  }

  lemma {:induction false} PreloadSafe(b: Bundle, s: State, pending: seq<Path>)
    requires Inv(s) && !Failing(s.log)
    ensures var r := Preload(b, s, pending); Advances(s, r.state, r.outcome)
    decreases Universe(b) - s.loading, 2, |pending|
  {
    hide Running, Completed, WellRun, Failing, Round;
    if pending != [] {
      RoundSafe(b, s, pending);
      var r := Round(b, s, pending);
      if r.outcome != LoadError && |r.left| < |pending| {
        Shrinks(b, s.loading, r.state.loading);
        PreloadSafe(b, r.state, r.left);
      }
    }
  }

  // ----- the promises, for every run -----

  /** LOADING and LOADED empty, some constants defined. */
  function Fresh(defined: set<string>): State {
    State({}, {}, defined, [])
  }

  /** Loaded, or being loaded. */
  predicate Reached(s: State, t: Path) {
    t in s.loaded || t in s.loading
  }

  /** From an empty loader, whatever the graph of requires and autoloads,
      whatever fails and is rescued, and whatever the outcome: no body is entered
      while it runs or after it completed, none is left running, LOADED holds
      exactly the bodies that ran to their end, and exactly a successful load has
      loaded its file. */
  lemma EveryLoadIsOrderly(b: Bundle, defined: set<string>, abs: Path)
    ensures
      var r := LoadFile(b, Fresh(defined), abs);
      && WellRun(r.state.log) && Running(r.state.log) == {}
      && r.state.loaded == Completed(r.state.log)
      && (r.outcome == Done <==> abs in r.state.loaded)
  {
    LoadFileSafe(b, Fresh(defined), abs);
  }

  /** A body was left by NameError, or by a LoadError that was rescued later. */
  ghost predicate MayRunAgain(log: seq<Event>, k: nat, p: Path)
    requires k < |log|
  {
    || log[k] == Abort(p, NameError)
    || (log[k] == Abort(p, LoadError) && exists m :: k < m < |log| && log[m] == Rescued)
  }

  /** Between two runs of the same body the first has been aborted, by NameError
      or by a LoadError that was rescued in between. */
  lemma {:induction false} RerunOnlyAfterAbort(log: seq<Event>, i: nat, j: nat)
    requires WellRun(log) && i < j < |log| && log[i].Enter? && log[j] == log[i]
    ensures exists k :: i < k < j && MayRunAgain(log[..j], k, log[i].path)
    decreases |log|
  {
    if j < |log| - 1 {
      RerunOnlyAfterAbort(log[..|log| - 1], i, j);
      assert log[..|log| - 1][..j] == log[..j];
    } else {
      var before := log[..j];
      LastSeen(before, i, log[i].path);
      var k :| i < k < j && before[k].Abort? && before[k].path == log[i].path && before[k].cause != Done;
      if before[k].cause == LoadError {
        FailingUntilRescued(before, k);
      }
      assert MayRunAgain(before, k, log[i].path);
    }
  }

  /** After an Enter the body is running or completed, unless it was aborted. */
  lemma {:induction false} LastSeen(log: seq<Event>, i: nat, p: Path)
    requires WellRun(log) && i < |log| && log[i] == Enter(p)
    ensures
      || (exists k :: i < k < |log| && log[k].Abort? && log[k].path == p && log[k].cause != Done)
      || p in Running(log) || p in Completed(log)
    decreases |log|
  {
    if i < |log| - 1 {
      var before, last := log[..|log| - 1], log[|log| - 1];
      LastSeen(before, i, p);
      if k :| i < k < |before| && before[k].Abort? && before[k].path == p && before[k].cause != Done {
        assert log[k] == before[k];
      } else if last.Abort? && last.path == p {
        assert log[|log| - 1] == last;
      }
    }
  }

  /** A LoadError that has left a body is under way until it is rescued. */
  lemma {:induction false} FailingUntilRescued(log: seq<Event>, k: nat)
    requires k < |log| && log[k].Abort? && log[k].cause == LoadError && !Failing(log)
    ensures exists m :: k < m < |log| && log[m] == Rescued
    decreases |log|
  {
    var before := log[..|log| - 1];
    if log[|log| - 1] != Rescued {
      assert k < |before|;
      FailingUntilRescued(before, k);
      var m :| k < m < |before| && before[m] == Rescued;
      assert log[m] == Rescued;
    }
  }

  /** All the loader is asked for is in the bundle, and nothing else fails. */
  predicate ClosedBundle(b: Bundle) {
    && b.native !! b.broken
    && (forall f :: f in b.code ==> BodyClosed(b, b.code[f]))
    && (forall f :: f in b.autoloads ==> forall t :: t in b.autoloads[f] ==> t in Universe(b))
  }

  predicate BodyClosed(b: Bundle, stmts: seq<Stmt>) {
    forall st :: st in stmts ==> !st.Fail? && (st.Load? ==> st.target in Universe(b))
  }

  /** In a closed bundle LoadError is never raised. */
  lemma {:induction false} LoadFileFinds(b: Bundle, s: State, abs: Path)
    requires ClosedBundle(b) && abs in Universe(b)
    ensures LoadFile(b, s, abs).outcome != LoadError
    decreases Universe(b) - s.loading, 0, 0
  {
    hide Preload, Exec;
    if abs !in s.loaded && abs !in s.loading && abs !in b.native {
      var s1 := s.(loading := s.loading + {abs});
      assert abs in Universe(b) - s.loading;
      PreloadFinds(b, s1, Targets(b, abs));
      ExecFinds(b, Preload(b, s1, Targets(b, abs)).state.Note(Enter(abs)), b.code[abs]);
    }
  }

  lemma {:induction false} ExecFinds(b: Bundle, s: State, stmts: seq<Stmt>)
    requires ClosedBundle(b) && BodyClosed(b, stmts)
    ensures Exec(b, s, stmts).outcome != LoadError
    decreases Universe(b) - s.loading, 1, |stmts|
  {
    hide LoadFile, ClosedBundle;
    if stmts != [] {
      assert stmts[0] in stmts;
      match stmts[0]
      case Define(name) => ExecFinds(b, s.(defined := s.defined + {name}), stmts[1..]);
      case Use(name) => ExecFinds(b, s, stmts[1..]);
      case Load(target, rescued) =>
        var r := LoadFile(b, s, target);
        LoadFileFinds(b, s, target);
        Shrinks(b, s.loading, r.state.loading);
        ExecFinds(b, Caught(r), stmts[1..]);
    }
  }

  lemma {:induction false} RoundFinds(b: Bundle, s: State, targets: seq<Path>)
    requires ClosedBundle(b) && forall t :: t in targets ==> t in Universe(b)
    ensures Round(b, s, targets).outcome != LoadError
    ensures forall t :: t in Round(b, s, targets).left ==> t in targets
    decreases Universe(b) - s.loading, 1, |targets|
  {
    hide LoadFile, ClosedBundle;
    if targets != [] {
      var r := LoadFile(b, s, targets[0]);
      LoadFileFinds(b, s, targets[0]);
      Shrinks(b, s.loading, r.state.loading);
      RoundFinds(b, r.state, targets[1..]);
    }
  }

  lemma {:induction false} PreloadFinds(b: Bundle, s: State, pending: seq<Path>)
    requires ClosedBundle(b) && forall t :: t in pending ==> t in Universe(b)
    ensures Preload(b, s, pending).outcome != LoadError
    decreases Universe(b) - s.loading, 2, |pending|
  {
    hide Round, ClosedBundle;
    if pending != [] {
      RoundFinds(b, s, pending);
      var r := Round(b, s, pending);
      if |r.left| < |pending| {
        Shrinks(b, s.loading, r.state.loading);
        PreloadFinds(b, r.state, r.left);
      }
    }
  }
}
