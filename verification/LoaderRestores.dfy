/** When LOADING is restored: load_file enters its table before the autoload
    targets are preloaded, but only guards the body against errors. */
module LoaderRestores {
  import opened LoaderSpec
  import opened LoaderSafety

  /** The body requires g and does not rescue a LoadError from it. */
  ghost predicate Unrescued(stmts: seq<Stmt>, g: Path) {
    exists st :: st in stmts && st.Load? && st.target == g && LoadError !in st.rescued
  }

  /** A LoadError of g would leave f: g is an autoload target of f, or its body
      requires g without rescue. */
  ghost predicate Passes(b: Bundle, f: Path, g: Path) {
    f in b.code && f !in b.native && (g in Targets(b, f) || Unrescued(b.code[f], g))
  }

  /** Loading p fails by itself: it is not in the bundle, is a compiled file that
      fails to load, or has a body that fails. */
  predicate Bad(b: Bundle, p: Path) {
    || p !in Universe(b)
    || (p in b.native && p in b.broken)
    || (p in b.code && p !in b.native && Fail in b.code[p])
  }

  ghost predicate Chain(b: Bundle, avoid: set<Path>, chain: seq<Path>) {
    && chain != []
    && (forall k :: 0 <= k < |chain| ==> chain[k] !in avoid)
    && (forall k :: 0 <= k < |chain| - 1 ==> Passes(b, chain[k], chain[k + 1]))
  }

  /** From p the loader can be led, past no file to avoid, to one that fails. */
  ghost predicate Misses(b: Bundle, avoid: set<Path>, p: Path) {
    exists chain :: Chain(b, avoid, chain) && chain[0] == p && Bad(b, chain[|chain| - 1])
  }

  /** File f has an autoload target that leads to a failure without passing f. */
  ghost predicate LeaksAt(b: Bundle, f: Path) {
    f in b.code && f !in b.native && exists t :: t in Targets(b, f) && Misses(b, {f}, t)
  }

  ghost predicate Leaks(b: Bundle) {
    exists f :: LeaksAt(b, f)
  }

  lemma BadMisses(b: Bundle, avoid: set<Path>, p: Path)
    requires Bad(b, p) && p !in avoid
    ensures Misses(b, avoid, p)
  {
    assert Chain(b, avoid, [p]);
  }

  lemma MissesLonger(b: Bundle, avoid: set<Path>, p: Path, q: Path)
    requires Passes(b, p, q) && p !in avoid && Misses(b, avoid + {p}, q)
    ensures Misses(b, avoid, p)
  {
    hide Passes, Bad;
    var chain :| Chain(b, avoid + {p}, chain) && chain[0] == q && Bad(b, chain[|chain| - 1]);
    assert Chain(b, avoid, [p] + chain);
    assert ([p] + chain)[|chain|] == chain[|chain| - 1];
  }

  lemma MissesFewer(b: Bundle, avoid: set<Path>, fewer: set<Path>, p: Path)
    requires fewer <= avoid && Misses(b, avoid, p)
    ensures Misses(b, fewer, p)
  {
    hide Passes, Bad;
    var chain :| Chain(b, avoid, chain) && chain[0] == p && Bad(b, chain[|chain| - 1]);
    assert Chain(b, fewer, chain);
  }

  // ----- a LoadError comes along a chain from a file that fails -----

  lemma {:induction false} LoadFileMisses(b: Bundle, s: State, abs: Path)
    requires LoadFile(b, s, abs).outcome == LoadError
    ensures Misses(b, s.loading, abs)
    decreases Universe(b) - s.loading, 0, 0
  {
    hide Preload, Exec, Misses, Unrescued;
    if Bad(b, abs) {
      BadMisses(b, s.loading, abs);
    } else {
      var s1 := s.(loading := s.loading + {abs});
      assert abs in Universe(b) - s.loading;
      var pre := Preload(b, s1, Targets(b, abs));
      if pre.outcome == LoadError {
        var t := PreloadMisses(b, s1, Targets(b, abs));
        MissesLonger(b, s.loading, abs, t);
      } else {
        Shrinks(b, s1.loading, pre.state.loading);
        var t := ExecMisses(b, pre.state.Note(Enter(abs)), b.code[abs]);
        MissesFewer(b, pre.state.loading, s1.loading, t);
        MissesLonger(b, s.loading, abs, t);
      }
    }
  }

  /** Unless the body itself fails, the error comes from a require that does not
      rescue it. */
  lemma {:induction false} ExecMisses(b: Bundle, s: State, stmts: seq<Stmt>) returns (t: Path)
    requires Exec(b, s, stmts).outcome == LoadError
    ensures Fail in stmts || (Unrescued(stmts, t) && Misses(b, s.loading, t))
    decreases Universe(b) - s.loading, 1, |stmts|
  {
    hide LoadFile, Misses;
    match stmts[0]
    case Fail => t := "";
    case Define(name) => t := ExecMisses(b, s.(defined := s.defined + {name}), stmts[1..]);
    case Use(_) => t := ExecMisses(b, s, stmts[1..]);
    case Load(target, rescued) =>
      var r := LoadFile(b, s, target);
      if r.outcome == Done || r.outcome in rescued {
        Shrinks(b, s.loading, r.state.loading);
        t := ExecMisses(b, Caught(r), stmts[1..]);
        if Fail !in stmts {
          MissesFewer(b, r.state.loading, s.loading, t);
        }
      } else {
        LoadFileMisses(b, s, target);
        t := target;
        assert stmts[0] in stmts;
      }
  }

  lemma {:induction false} RoundMisses(b: Bundle, s: State, targets: seq<Path>) returns (t: Path)
    requires Round(b, s, targets).outcome == LoadError
    ensures t in targets && Misses(b, s.loading, t)
    decreases Universe(b) - s.loading, 1, |targets|
  {
    hide LoadFile, Misses;
    var r := LoadFile(b, s, targets[0]);
    if r.outcome == LoadError {
      LoadFileMisses(b, s, targets[0]);
      t := targets[0];
    } else {
      Shrinks(b, s.loading, r.state.loading);
      t := RoundMisses(b, r.state, targets[1..]);
      MissesFewer(b, r.state.loading, s.loading, t);
    }
  }

  lemma {:induction false} LeftAreTargets(b: Bundle, s: State, targets: seq<Path>)
    ensures forall t :: t in Round(b, s, targets).left ==> t in targets
    decreases |targets|
  {
    hide LoadFile;
    if targets != [] {
      LeftAreTargets(b, LoadFile(b, s, targets[0]).state, targets[1..]);
    }
  }

  lemma {:induction false} PreloadMisses(b: Bundle, s: State, pending: seq<Path>) returns (t: Path)
    requires Preload(b, s, pending).outcome == LoadError
    ensures t in pending && Misses(b, s.loading, t)
    decreases Universe(b) - s.loading, 2, |pending|
  {
    hide Round, Misses;
    var r := Round(b, s, pending);
    if r.outcome == LoadError {
      t := RoundMisses(b, s, pending);
    } else {
      LeftAreTargets(b, s, pending);
      Shrinks(b, s.loading, r.state.loading);
      t := PreloadMisses(b, r.state, r.left);
      MissesFewer(b, r.state.loading, s.loading, t);
    }
  }

  // ----- without such a target LOADING is always restored -----

  /** No file but those outside asks the loader for one outside. */
  ghost predicate ClosedScope(b: Bundle, outside: set<Path>) {
    && (forall f, t :: f !in outside && t in Targets(b, f) ==> t !in outside)
    && (forall f :: f !in outside && f in b.code ==> BodyIn(b.code[f], outside))
  }

  ghost predicate BodyIn(stmts: seq<Stmt>, outside: set<Path>) {
    forall st :: st in stmts && st.Load? ==> st.target !in outside
  }

  /** No file a load can come to leaks, unless it is outside. */
  ghost predicate SafeScope(b: Bundle, outside: set<Path>) {
    ClosedScope(b, outside) && forall f :: f !in outside ==> !LeaksAt(b, f)
  }

  lemma {:induction false} LoadFileRestores(b: Bundle, outside: set<Path>, s: State, abs: Path)
    requires SafeScope(b, outside) && abs !in outside
    ensures LoadFile(b, s, abs).state.loading == s.loading
    decreases Universe(b) - s.loading, 0, 0
  {
    hide Preload, Exec, Misses;
    if abs !in s.loaded && abs !in s.loading && abs !in b.native && abs in b.code {
      var s1 := s.(loading := s.loading + {abs});
      assert abs in Universe(b) - s.loading;
      var pre := Preload(b, s1, Targets(b, abs));
      PreloadRestores(b, outside, s1, Targets(b, abs));
      if pre.outcome == LoadError {
        var t := PreloadMisses(b, s1, Targets(b, abs));
        MissesFewer(b, s1.loading, {abs}, t);
        assert false;
      } else {
        ExecRestores(b, outside, pre.state.Note(Enter(abs)), b.code[abs]);
      }
    }
  }

  lemma {:induction false} ExecRestores(b: Bundle, outside: set<Path>, s: State, stmts: seq<Stmt>)
    requires SafeScope(b, outside) && BodyIn(stmts, outside)
    ensures Exec(b, s, stmts).state.loading == s.loading
    decreases Universe(b) - s.loading, 1, |stmts|
  {
    hide LoadFile, SafeScope;
    if stmts != [] {
      assert stmts[0] in stmts;
      match stmts[0]
      case Fail =>
      case Define(name) => ExecRestores(b, outside, s.(defined := s.defined + {name}), stmts[1..]);
      case Use(name) => ExecRestores(b, outside, s, stmts[1..]);
      case Load(target, rescued) =>
        LoadFileRestores(b, outside, s, target);
        ExecRestores(b, outside, Caught(LoadFile(b, s, target)), stmts[1..]);
    }
  }

  lemma {:induction false} RoundRestores(b: Bundle, outside: set<Path>, s: State, targets: seq<Path>)
    requires SafeScope(b, outside) && forall t :: t in targets ==> t !in outside
    ensures Round(b, s, targets).state.loading == s.loading
    decreases Universe(b) - s.loading, 1, |targets|
  {
    hide LoadFile, SafeScope;
    if targets != [] {
      LoadFileRestores(b, outside, s, targets[0]);
      RoundRestores(b, outside, LoadFile(b, s, targets[0]).state, targets[1..]);
    }
  }

  lemma {:induction false} PreloadRestores(b: Bundle, outside: set<Path>, s: State, pending: seq<Path>)
    requires SafeScope(b, outside) && forall t :: t in pending ==> t !in outside
    ensures Preload(b, s, pending).state.loading == s.loading
    decreases Universe(b) - s.loading, 2, |pending|
  {
    hide Round, SafeScope;
    if pending != [] {
      RoundRestores(b, outside, s, pending);
      LeftAreTargets(b, s, pending);
      var r := Round(b, s, pending);
      if r.outcome != LoadError && |r.left| < |pending| {
        PreloadRestores(b, outside, r.state, r.left);
      }
    }
  }

  // ----- with such a target it is not, once every constant is defined -----

  /** No body rescues a LoadError from a require the bundle answers. */
  predicate NoRescue(b: Bundle) {
    forall f :: f in b.code ==> BodyRescuesNone(b.code[f])
  }

  predicate BodyRescuesNone(stmts: seq<Stmt>) {
    forall st :: st in stmts && st.Load? ==> LoadError !in st.rescued
  }

  /** All constants the bodies need. */
  function Names(b: Bundle): set<string> {
    set f, st | f in b.code && st in b.code[f] && st.Use? :: st.name
  }

  predicate Knows(stmts: seq<Stmt>, defined: set<string>) {
    forall st :: st in stmts && st.Use? ==> st.name in defined
  }

  predicate AllReached(s: State, stmts: seq<Stmt>) {
    forall st :: st in stmts ==> !st.Fail? && (st.Load? ==> Reached(s, st.target))
  }

  /** No loaded file fails, and all that would fail it is loaded or being loaded. */
  ghost predicate Settled(b: Bundle, s: State) {
    && Names(b) <= s.defined
    && (forall p :: p in s.loaded ==> !Bad(b, p))
    && (forall p, q :: p in s.loaded && Passes(b, p, q) ==> Reached(s, q))
  }

  /** A successful step settles what it was asked for, and loses nothing. */
  ghost predicate Settles(b: Bundle, s: State, s': State) {
    Settled(b, s') && s.loaded <= s'.loaded && s.defined <= s'.defined && s'.loading == s.loading
  }

  lemma {:induction false} LoadFileSettles(b: Bundle, s: State, abs: Path)
    requires NoRescue(b) && Settled(b, s)
    ensures
      var r := LoadFile(b, s, abs);
      r.outcome != NameError &&
      (r.outcome == Done ==> Settles(b, s, r.state) && Reached(r.state, abs))
    decreases Universe(b) - s.loading, 0, 0
  {
    hide Preload, Exec, Names;
    if abs !in s.loaded && abs !in s.loading && abs !in b.native && abs in b.code {
      var s1 := s.(loading := s.loading + {abs});
      assert abs in Universe(b) - s.loading;
      PreloadSettles(b, s1, Targets(b, abs));
      var pre := Preload(b, s1, Targets(b, abs));
      if pre.outcome == Done {
        NamesKnown(b, abs, pre.state.defined);
        ExecSettles(b, pre.state.Note(Enter(abs)), b.code[abs]);
      }
    }
  }

  lemma NamesKnown(b: Bundle, f: Path, defined: set<string>)
    requires f in b.code && Names(b) <= defined
    ensures Knows(b.code[f], defined)
  {
    forall st | st in b.code[f] && st.Use?
      ensures st.name in defined
    {
      assert st.name in Names(b);
    }
  }

  lemma {:induction false} ExecSettles(b: Bundle, s: State, stmts: seq<Stmt>)
    requires NoRescue(b) && BodyRescuesNone(stmts) && Settled(b, s) && Knows(stmts, s.defined)
    ensures
      var r := Exec(b, s, stmts);
      r.outcome != NameError &&
      (r.outcome == Done ==> Settles(b, s, r.state) && AllReached(r.state, stmts))
    decreases Universe(b) - s.loading, 1, |stmts|, 0
  {
    hide LoadFile, Names, NoRescue, Settled;
    if stmts != [] {
      assert stmts == [stmts[0]] + stmts[1..];
      assert stmts[0] in stmts;
      match stmts[0]
      case Fail =>
      case Define(name) =>
        MoreDefined(b, s, name);
        ExecSettles(b, s.(defined := s.defined + {name}), stmts[1..]);
      case Use(_) => ExecSettles(b, s, stmts[1..]);
      case Load(target, rescued) => LoadThenExec(b, s, target, stmts[1..]);
    }
  }

  lemma MoreDefined(b: Bundle, s: State, name: string)
    requires Settled(b, s)
    ensures Settled(b, s.(defined := s.defined + {name}))
  {
    hide Bad, Passes, Names;
  }

  lemma {:induction false} LoadThenExec(b: Bundle, s: State, target: Path, stmts: seq<Stmt>)
    requires NoRescue(b) && BodyRescuesNone(stmts) && Settled(b, s) && Knows(stmts, s.defined)
    ensures
      var r := LoadFile(b, s, target);
      var e := Exec(b, r.state, stmts);
      r.outcome != NameError && (r.outcome == Done ==> e.outcome != NameError) &&
      (r.outcome == Done && e.outcome == Done ==>
        Settles(b, s, e.state) && Reached(e.state, target) && AllReached(e.state, stmts))
    decreases Universe(b) - s.loading, 1, |stmts|, 1
  {
    hide LoadFile, Exec, Names, Settled, NoRescue;
    LoadFileSettles(b, s, target);
    var r := LoadFile(b, s, target);
    if r.outcome == Done {
      ExecSettles(b, r.state, stmts);
    }
  }

  lemma {:induction false} RoundSettles(b: Bundle, s: State, targets: seq<Path>)
    requires NoRescue(b) && Settled(b, s)
    ensures
      var r := Round(b, s, targets);
      r.outcome == Done ==>
        r.left == [] && Settles(b, s, r.state) && forall t :: t in targets ==> Reached(r.state, t)
    decreases Universe(b) - s.loading, 1, |targets|
  {
    hide LoadFile, Settled, NoRescue;
    if targets != [] {
      LoadFileSettles(b, s, targets[0]);
      var r := LoadFile(b, s, targets[0]);
      if r.outcome == Done {
        RoundSettles(b, r.state, targets[1..]);
      }
    }
  }

  lemma {:induction false} PreloadSettles(b: Bundle, s: State, pending: seq<Path>)
    requires NoRescue(b) && Settled(b, s)
    ensures
      var r := Preload(b, s, pending);
      r.outcome == Done ==> Settles(b, s, r.state) && forall t :: t in pending ==> Reached(r.state, t)
    decreases Universe(b) - s.loading, 2, |pending|
  {
    hide Round, Settled, NoRescue;
    if pending != [] {
      RoundSettles(b, s, pending);
    }
  }

  /** In a settled state the loader is led to a failure only past a file that is
      being loaded. */
  lemma {:induction false} SettledChain(b: Bundle, s: State, chain: seq<Path>, k: nat)
    requires Settled(b, s) && Chain(b, s.loading, chain) && k < |chain| && chain[0] in s.loaded
    ensures chain[k] in s.loaded
  {
    hide Passes, Bad, Names;
    if k > 0 {
      SettledChain(b, s, chain, k - 1);
      assert Passes(b, chain[k - 1], chain[k - 1 + 1]);
    }
  }

  lemma LeakStays(b: Bundle, f: Path, t: Path)
    requires NoRescue(b) && f in b.code && f !in b.native && t in Targets(b, f) && Misses(b, {f}, t)
    ensures f in LoadFile(b, Fresh(Names(b)), f).state.loading
  {
    hide Names, Preload, Exec, Running, Completed, Failing, Passes, Bad, NoRescue;
    var s := Fresh(Names(b)).(loading := {f});
    assert {} + {f} == {f};
    var pre := Preload(b, s, Targets(b, f));
    PreloadSettles(b, s, Targets(b, f));
    if pre.outcome == Done {
      var chain :| Chain(b, {f}, chain) && chain[0] == t && Bad(b, chain[|chain| - 1]);
      SettledChain(b, pre.state, chain, |chain| - 1);
    }
    NothingRun();
    PreloadSafe(b, s, Targets(b, f));
  }

  lemma NothingRun()
    ensures WellRun([]) && !Failing([])
    ensures Running([]) == {}
    ensures Completed([]) == {}
  {
  }

  /** LOADING is empty again after every load from an empty loader, whatever
      constants are defined and whatever the outcome, if no file has an autoload
      target that leads to a failure without passing the file; and, as long as no
      body rescues a LoadError, only then. */
  lemma RestoredExactly(b: Bundle)
    ensures !Leaks(b) ==> forall defined, abs :: LoadFile(b, Fresh(defined), abs).state.loading == {}
    ensures NoRescue(b) ==>
      ((forall defined, abs :: LoadFile(b, Fresh(defined), abs).state.loading == {}) <==> !Leaks(b))
  {
    hide LoadFile, NoRescue;
    if Leaks(b) {
      if NoRescue(b) {
        var f :| LeaksAt(b, f);
        var t :| t in Targets(b, f) && Misses(b, {f}, t);
        LeakStays(b, f, t);
        assert LoadFile(b, Fresh(Names(b)), f).state.loading != {};
      }
    } else {
      forall defined, abs
        ensures LoadFile(b, Fresh(defined), abs).state.loading == {}
      {
        LoadFileRestores(b, {}, Fresh(defined), abs);
      }
    }
  }

  /** In a closed bundle nothing leads to a failure. */
  lemma ClosedNeverLeaks(b: Bundle)
    requires ClosedBundle(b)
    ensures !Leaks(b)
  {
    hide ClosedBundle;
    if Leaks(b) {
      var f :| LeaksAt(b, f);
      var t :| t in Targets(b, f) && Misses(b, {f}, t);
      var chain :| Chain(b, {f}, chain) && chain[0] == t && Bad(b, chain[|chain| - 1]);
      ClosedStep(b, f);
      ClosedChain(b, {f}, chain, |chain| - 1);
      ClosedIsGood(b, chain[|chain| - 1]);
    }
  }

  lemma ClosedStep(b: Bundle, f: Path)
    requires ClosedBundle(b)
    ensures forall g :: Passes(b, f, g) ==> g in Universe(b)
  {
  }

  lemma ClosedIsGood(b: Bundle, p: Path)
    requires ClosedBundle(b) && p in Universe(b)
    ensures !Bad(b, p)
  {
  }

  lemma {:induction false} ClosedChain(b: Bundle, avoid: set<Path>, chain: seq<Path>, k: nat)
    requires ClosedBundle(b) && Chain(b, avoid, chain) && k < |chain| && chain[0] in Universe(b)
    ensures chain[k] in Universe(b)
  {
    hide ClosedBundle, Passes;
    if k > 0 {
      ClosedChain(b, avoid, chain, k - 1);
      ClosedStep(b, chain[k - 1]);
      assert Passes(b, chain[k - 1], chain[k - 1 + 1]);
    }
  }

  // ----- instances -----

  /** main rescues a LoadError from a and requires it again; a has an autoload
      target whose body fails, as by a delegated require that is not found. */
  const FAILING: Bundle := Bundle(
    map["main" := [Load("a", {LoadError}), Load("a", {})], "a" := [], "t" := [Fail]], {}, {}, map["a" := ["t"]])

  /** The second require of a returns without a ever having run, and a stays in
      LOADING for good. */
  lemma LoadingLeaks()
    ensures
      var r := LoadFile(FAILING, Fresh({}), "main");
      && r.outcome == Done && r.state.loading == {"a"} && r.state.loaded == {"main"}
      && Enter("a") !in r.state.log
  {
    var b := FAILING;
    var s0 := State({"main"}, {}, {}, [Enter("main")]);
    var s1 := State({"main", "a"}, {}, {}, [Enter("main")]);
    var log2 := [Enter("main"), Enter("t"), Abort("t", LoadError)];
    var s2 := State({"main", "a"}, {}, {}, log2);
    LeakingTarget(b, s1, s2);
    assert s0.loading + {"a"} == s1.loading;
    assert LoadFile(b, s0, "a") == Result(LoadError, s2);
    var s3 := s2.Note(Rescued);
    var body := b.code["main"];
    assert body[1..] == [Load("a", {})] && body[1..][1..] == [];
    assert LoadFile(b, s3, "a") == Result(Done, s3);
    assert Exec(b, s3, body[1..]) == Result(Done, s3);
    assert Exec(b, s0, body) == Result(Done, s3);
    assert Fresh({}).loading + {"main"} == s0.loading && s3.loading - {"main"} == {"a"};
    assert [] + [Enter("main")] == [Enter("main")];
  }

  lemma LeakingTarget(b: Bundle, s1: State, s2: State)
    requires b == FAILING && s1 == State({"main", "a"}, {}, {}, [Enter("main")])
    requires s2 == s1.(log := [Enter("main"), Enter("t"), Abort("t", LoadError)])
    ensures Preload(b, s1, Targets(b, "a")) == Result(LoadError, s2)
  {
    var st := s1.(loading := {"main", "a", "t"}).Note(Enter("t"));
    assert Targets(b, "a") == ["t"] && Targets(b, "t") == [];
    assert s1.loading + {"t"} == {"main", "a", "t"} && {"main", "a", "t"} - {"t"} == {"main", "a"};
    assert b.code["t"][0] == Fail;
    assert Exec(b, st, b.code["t"]) == Result(LoadError, st);
    assert LoadFile(b, s1, "t") == Result(LoadError, s2);
    assert Round(b, s1, ["t"]) == RoundResult(LoadError, s2, []);
  }


  /** A bundle with a rescue: f preloads u, which rescues a failing file v that
      gets p loaded first, and then p, which requires v. */
  const RESCUING: Bundle := Bundle(
    map["f" := [], "u" := [Load("v", {LoadError})], "p" := [Load("v", {})], "v" := [Load("p", {}), Fail]],
    {}, {}, map["f" := ["u", "p"]])

  /** Where bodies rescue LoadErrors the condition is not necessary: f leaks by
      it, and yet LOADING is always restored, since p is loaded by then. */
  lemma RescueHidesLeak()
    ensures LeaksAt(RESCUING, "f") && !NoRescue(RESCUING)
    ensures forall defined, abs :: LoadFile(RESCUING, Fresh(defined), abs).state.loading == {}
  {
    var b := RESCUING;
    RescuingLeaks();
    forall defined, abs
      ensures LoadFile(RESCUING, Fresh(defined), abs).state.loading == {}
    {
      if abs == "f" {
        RescuingRestores(defined);
      } else {
        OthersAreSafe();
        LoadFileRestores(b, {"f"}, Fresh(defined), abs);
      }
    }
  }

  lemma RescuingLeaks()
    ensures LeaksAt(RESCUING, "f") && !NoRescue(RESCUING)
  {
    var b := RESCUING;
    assert Load("v", {LoadError}) in b.code["u"];
    assert !BodyRescuesNone(b.code["u"]);
    var chain := ["p", "v"];
    assert Load("v", {}) in b.code["p"] && Unrescued(b.code["p"], "v");
    assert b.code["v"][1] == Fail && Bad(b, "v");
    assert Chain(b, {"f"}, chain) && chain[0] == "p" && chain[|chain| - 1] == "v";
    assert Misses(b, {"f"}, "p");
    assert Targets(b, "f")[1] == "p";
  }

  lemma OthersAreSafe()
    ensures SafeScope(RESCUING, {"f"})
  {
    hide Misses;
    assert forall f :: f != "f" ==> Targets(RESCUING, f) == [];
  }

  lemma RescuingRestores(defined: set<string>)
    ensures LoadFile(RESCUING, Fresh(defined), "f").state.loading == {}
  {
    var b := RESCUING;
    var s := Fresh(defined).(loading := {"f"});
    var r := RescuingTarget(s);
    assert Targets(b, "f") == ["u", "p"] && ["u", "p"][1..] == ["p"] && ["p"][1..] == [];
    assert LoadFile(b, r, "p") == Result(Done, r);
    assert Round(b, r, ["p"]) == RoundResult(Done, r, []);
    assert Round(b, s, ["u", "p"]) == RoundResult(Done, r, []);
    assert Preload(b, s, ["u", "p"]) == Result(Done, r);
    assert b.code["f"] == [];
    assert {} + {"f"} == {"f"} && {"f"} - {"f"} == {};
  }

  /** The run of u: p is loaded before v fails and the failure is rescued. */
  lemma RescuingTarget(s: State) returns (r: State)
    requires s.loading == {"f"} && s.loaded == {}
    ensures LoadFile(RESCUING, s, "u") == Result(Done, r) && r.loading == {"f"} && "p" in r.loaded
  {
    var b := RESCUING;
    var u0 := s.(loading := {"f", "u"}).Note(Enter("u"));
    assert {"f"} + {"u"} == {"f", "u"} && {"f", "u"} - {"u"} == {"f"};
    var v1 := RescuingFailure(u0);
    assert b.code["u"][1..] == [];
    assert Exec(b, u0, b.code["u"]) == Result(Done, v1.Note(Rescued));
    var u1 := v1.Note(Rescued).(loading := {"f"});
    r := u1.Note(Complete("u")).(loaded := u1.loaded + {"u"});
  }

  lemma RescuingFailure(u0: State) returns (v1: State)
    requires u0.loading == {"f", "u"} && u0.loaded == {}
    ensures LoadFile(RESCUING, u0, "v") == Result(LoadError, v1) && v1.loading == {"f", "u"} && v1.loaded == {"p"}
  {
    var b := RESCUING;
    var v0 := u0.(loading := {"f", "u", "v"}).Note(Enter("v"));
    var p0 := v0.(loading := {"f", "u", "v", "p"}).Note(Enter("p"));
    assert {"f", "u"} + {"v"} == {"f", "u", "v"} && {"f", "u", "v"} - {"v"} == {"f", "u"};
    assert {"f", "u", "v"} + {"p"} == {"f", "u", "v", "p"} && {"f", "u", "v", "p"} - {"p"} == {"f", "u", "v"};
    assert b.code["p"][1..] == [];
    assert Exec(b, p0, b.code["p"]) == Result(Done, p0);
    var p1 := p0.(loading := {"f", "u", "v"}).Note(Complete("p")).(loaded := {"p"});
    assert {} + {"p"} == {"p"};
    assert LoadFile(b, v0, "p") == Result(Done, p1);
    assert b.code["v"][1..] == [Fail];
    assert Exec(b, p1, [Fail]) == Result(LoadError, p1);
    assert Exec(b, v0, b.code["v"]) == Result(LoadError, p1);
    v1 := p1.(loading := {"f", "u"}).Note(Abort("v", LoadError));
  }
}
