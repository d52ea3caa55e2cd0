/** What the rounds over the autoload targets achieve. */
module LoaderRetry {
  import opened LoaderSpec
  import opened LoaderSafety

  // ----- on any graph -----

  /** The files q, loaded in order from s, all raise NameError and end in s'. */
  ghost predicate Stuck(b: Bundle, s: State, q: seq<Path>, s': State)
    decreases |q|
  {
    if q == [] then s' == s
    else
      var r := LoadFile(b, s, q[0]);
      r.outcome == NameError && Stuck(b, r.state, q[1..], s')
  }

  lemma {:induction false} RoundLeaves(b: Bundle, s: State, q: seq<Path>)
    requires Inv(s) && !Failing(s.log) && Round(b, s, q).outcome == Done
    ensures
      var r := Round(b, s, q);
      && Advances(s, r.state, Done)
      && (forall t :: t in q ==> t in r.left || Reached(r.state, t)) && (forall t :: t in r.left ==> t in q)
      && (|r.left| == |q| ==> r.left == q && Stuck(b, s, q, r.state))
    decreases |q|
  {
    hide LoadFile, Running, Completed, WellRun, Failing;
    if q != [] {
      LoadFileSafe(b, s, q[0]);
      RoundLeaves(b, LoadFile(b, s, q[0]).state, q[1..]);
    }
  }

  /** A preload that raises nothing ends only when every target is loaded or
      being loaded, or when a last round has tried all the others and each of
      them raised NameError. */
  lemma {:induction false} PreloadEnds(b: Bundle, s: State, pending: seq<Path>) returns (s0: State, q: seq<Path>)
    requires Inv(s) && !Failing(s.log) && Preload(b, s, pending).outcome == Done
    ensures Advances(s, Preload(b, s, pending).state, Done)
    ensures Stuck(b, s0, q, Preload(b, s, pending).state) && forall t :: t in q ==> t in pending
    ensures forall t :: t in pending ==> t in q || Reached(Preload(b, s, pending).state, t)
    decreases |pending|
  {
    hide Round, Running, Completed, WellRun, Failing;
    if pending == [] {
      s0, q := s, [];
    } else {
      RoundLeaves(b, s, pending);
      var r := Round(b, s, pending);
      if |r.left| == |pending| {
        s0, q := s, pending;
      } else {
        s0, q := PreloadEnds(b, r.state, r.left);
      }
    }
  }

  // ----- targets that only need and define constants -----

  /** Needs before definitions, and nothing else. */
  predicate NeedsFirst(stmts: seq<Stmt>) {
    && (forall st :: st in stmts ==> st.Use? || st.Define?)
    && forall i, j :: 0 <= i < j < |stmts| && stmts[j].Use? ==> stmts[i].Use?
  }

  function Needs(stmts: seq<Stmt>): set<string> {
    set st | st in stmts && st.Use? :: st.name
  }

  function Gives(stmts: seq<Stmt>): set<string> {
    set st | st in stmts && st.Define? :: st.name
  }

  predicate Plain(b: Bundle, t: Path) {
    t in b.code && t !in b.native && Targets(b, t) == [] && NeedsFirst(b.code[t])
  }

  /** Plain files that are not being loaded; of those loaded, all constants are
      there. */
  predicate AllPlain(b: Bundle, s: State, q: seq<Path>) {
    forall t :: t in q ==>
      Plain(b, t) && t !in s.loading && (t in s.loaded ==> Needs(b.code[t]) + Gives(b.code[t]) <= s.defined)
  }

  lemma {:induction false} ExecPlain(b: Bundle, s: State, stmts: seq<Stmt>)
    requires NeedsFirst(stmts)
    ensures Exec(b, s, stmts) ==
      if Needs(stmts) <= s.defined then Result(Done, s.(defined := s.defined + Gives(stmts))) else Result(NameError, s)
    decreases |stmts|
  {
    if stmts == [] {
      assert s.defined + {} == s.defined;
    } else {
      var rest := stmts[1..];
      assert stmts == [stmts[0]] + rest && stmts[0] in stmts;
      match stmts[0]
      case Use(name) =>
        ExecPlain(b, s, rest);
        assert Needs(stmts) == {name} + Needs(rest) && Gives(stmts) == Gives(rest);
      case Define(name) =>
        ExecPlain(b, s.(defined := s.defined + {name}), rest);
        assert Needs(stmts) == Needs(rest) == {};
        assert Gives(stmts) == {name} + Gives(rest);
        assert s.defined + {name} + Gives(rest) == s.defined + Gives(stmts);
    }
  }

  /** A plain file loads exactly when what it needs is defined; if not, it
      changes nothing. */
  lemma LoadPlain(b: Bundle, s: State, t: Path)
    requires Plain(b, t) && t !in s.loading && t !in s.loaded
    ensures
      var r := LoadFile(b, s, t);
      && r.state.loading == s.loading
      && if Needs(b.code[t]) <= s.defined
         then r.outcome == Done && r.state.loaded == s.loaded + {t} && r.state.defined == s.defined + Gives(b.code[t])
         else r.outcome == NameError && r.state.loaded == s.loaded && r.state.defined == s.defined
  {
    hide NeedsFirst, Needs, Gives;
    var s1 := s.(loading := s.loading + {t});
    ExecPlain(b, s1.Note(Enter(t)), b.code[t]);
    assert s.loading + {t} - {t} == s.loading;
    assert Preload(b, s1, []) == Result(Done, s1);
  }

  /** A set of constants that no target can add to. */
  predicate Saturated(b: Bundle, q: seq<Path>, defined: set<string>)
    requires forall t :: t in q ==> t in b.code
  {
    forall t :: t in q && Needs(b.code[t]) <= defined ==> Gives(b.code[t]) <= defined
  }

  predicate NoneLoads(b: Bundle, s: State, q: seq<Path>)
    requires forall t :: t in q ==> t in b.code
  {
    forall t :: t in q ==> t !in s.loaded && !(Needs(b.code[t]) <= s.defined)
  }

  lemma {:induction false} RoundPlain(b: Bundle, s: State, q: seq<Path>, limit: set<string>)
    requires AllPlain(b, s, q) && s.defined <= limit && Saturated(b, q, limit)
    ensures
      var r := Round(b, s, q);
      && r.outcome == Done && AllPlain(b, r.state, q) && s.defined <= r.state.defined <= limit
      && s.loaded <= r.state.loaded && (forall t :: t in r.state.loaded ==> t in q || t in s.loaded)
      && (forall t :: t in r.left ==> t in q) && (forall t :: t in q ==> t in r.left || t in r.state.loaded)
      && r.state.loading == s.loading
      && (|r.left| == |q| ==> r.state.defined == s.defined && r.state.loaded == s.loaded && NoneLoads(b, s, q))
    decreases |q|
  {
    hide LoadFile, NeedsFirst, Needs, Gives;
    if q != [] {
      var t, rest := q[0], q[1..];
      assert t in q;
      if t !in s.loaded {
        LoadPlain(b, s, t);
      } else {
        LoadedAlready(b, s, t);
      }
      PlainStays(b, s, LoadFile(b, s, t).state, q, t);
      RoundPlain(b, LoadFile(b, s, t).state, rest, limit);
      PlainStays(b, LoadFile(b, s, t).state, Round(b, LoadFile(b, s, t).state, rest).state, q, t);
    }
  }

  lemma LoadedAlready(b: Bundle, s: State, t: Path)
    requires t in s.loaded
    ensures LoadFile(b, s, t) == Result(Done, s)
  {
  }

  /** Preloading plain targets loads exactly those whose needs are defined in the
      end, and defines the least set of constants that no target can add to. */
  lemma {:induction false} PreloadPlain(b: Bundle, s: State, q: seq<Path>, limit: set<string>)
    requires AllPlain(b, s, q) && s.defined <= limit && Saturated(b, q, limit)
    ensures
      var r := Preload(b, s, q);
      && r.outcome == Done && AllPlain(b, r.state, q) && s.defined <= r.state.defined <= limit
      && s.loaded <= r.state.loaded && (forall t :: t in r.state.loaded ==> t in q || t in s.loaded)
      && r.state.loading == s.loading
      && (forall t :: t in q ==> (t in r.state.loaded <==> Needs(b.code[t]) <= r.state.defined))
    decreases |q|
  {
    hide Round, NeedsFirst, Needs, Gives;
    if q != [] {
      RoundPlain(b, s, q, limit);
      var r := Round(b, s, q);
      if |r.left| != |q| {
        PreloadPlain(b, r.state, r.left, limit);
        PlainStays(b, r.state, Preload(b, s, q).state, q, q[0]);
      }
    }
  }

  lemma PlainStays(b: Bundle, s: State, s': State, q: seq<Path>, t: Path)
    requires AllPlain(b, s, q) && s'.loading == s.loading && s.defined <= s'.defined
    requires forall u :: u in q && u in s'.loaded ==> u in s.loaded || Needs(b.code[u]) + Gives(b.code[u]) <= s'.defined
    ensures AllPlain(b, s', q)
  {
    hide Plain, Needs, Gives;
  }

  function AllGives(b: Bundle, q: seq<Path>): set<string>
    requires forall t :: t in q ==> t in b.code
  {
    set t, st | t in q && st in b.code[t] && st.Define? :: st.name
  }

  lemma EverythingSaturates(b: Bundle, q: seq<Path>, defined: set<string>)
    requires forall t :: t in q ==> t in b.code
    ensures Saturated(b, q, defined + AllGives(b, q))
  {
    forall t | t in q
      ensures Gives(b.code[t]) <= AllGives(b, q)
    {
    }
  }

  /** Rounds over plain targets go on as long as one can load: in the end a
      target is loaded exactly when all it needs is defined, and what is defined
      is the least set with the constants there were that no target can add to. */
  lemma PreloadSaturates(b: Bundle, s: State, q: seq<Path>)
    requires AllPlain(b, s, q)
    ensures
      var r := Preload(b, s, q);
      && r.outcome == Done
      && (forall t :: t in q ==> (t in r.state.loaded <==> Needs(b.code[t]) <= r.state.defined))
      && s.defined <= r.state.defined && Saturated(b, q, r.state.defined)
      && forall limit :: s.defined <= limit && Saturated(b, q, limit) ==> r.state.defined <= limit
  {
    hide Preload, Needs, Gives, NeedsFirst, AllGives;
    EverythingSaturates(b, q, s.defined);
    PreloadPlain(b, s, q, s.defined + AllGives(b, q));
    forall limit | s.defined <= limit && Saturated(b, q, limit)
      ensures Preload(b, s, q).state.defined <= limit
    {
      PreloadPlain(b, s, q, limit);
    }
  }

  /** The order in which plain targets are registered makes no difference. */
  lemma OrderIsIrrelevant(b: Bundle, s: State, q: seq<Path>, q': seq<Path>)
    requires AllPlain(b, s, q) && forall t :: t in q <==> t in q'
    ensures
      var r, r' := Preload(b, s, q).state, Preload(b, s, q').state;
      r.defined == r'.defined && r.loaded == r'.loaded
  {
    hide Preload, Needs, Gives, NeedsFirst, AllGives;
    PreloadSaturates(b, s, q);
    PreloadSaturates(b, s, q');
    EverythingSaturates(b, q, s.defined);
    EverythingSaturates(b, q', s.defined);
    PreloadPlain(b, s, q, s.defined + AllGives(b, q));
    PreloadPlain(b, s, q', s.defined + AllGives(b, q'));
  }

  // ----- instances -----

  /** a registers autoloads of a subclass and of its base, in that order. */
  const SUBCLASS: Bundle := Bundle(
    map["a" := [Use("Child")], "child" := [Use("Base"), Define("Child")], "base" := [Define("Base")]],
    {}, {}, map["a" := ["child", "base"]])

  lemma SubclassShape()
    ensures
      var b := SUBCLASS;
      && Targets(b, "a") == ["child", "base"] && b.code.Keys == {"a", "child", "base"}
      && Plain(b, "child") && Plain(b, "base") && b.code["a"] == [Use("Child")] && "a" !in b.native
      && Needs(b.code["child"]) == {"Base"} && Gives(b.code["child"]) == {"Child"}
      && Needs(b.code["base"]) == {} && Gives(b.code["base"]) == {"Base"}
  {
    var child, base := SUBCLASS.code["child"], SUBCLASS.code["base"];
    assert child == [Use("Base"), Define("Child")] && base == [Define("Base")];
    assert child[0] in child && child[1] in child && base[0] in base;
    assert forall st :: st in child ==> st == child[0] || st == child[1];
    assert Targets(SUBCLASS, "child") == [] && Targets(SUBCLASS, "base") == [];
  }

  /** The subclass raises NameError in the first round and is loaded in the
      second, so a finds its constant. */
  lemma SubclassLoads()
    ensures
      var r := LoadFile(SUBCLASS, Fresh({}), "a");
      r.outcome == Done && r.state.loaded == {"a", "child", "base"}
  {
    var b := SUBCLASS;
    SubclassShape();
    hide SUBCLASS, Needs, Gives, NeedsFirst, Preload, Saturated, Plain;
    var s1, q := State({"a"}, {}, {}, []), ["child", "base"];
    assert {} + {"a"} == {"a"};
    assert q[0] in q && q[1] in q && forall t :: t in q ==> t == "child" || t == "base";
    SubclassPreloads(b, s1, q);
    var r := Preload(b, s1, q).state;
    assert b.code["a"][1..] == [];
    assert Exec(b, r.Note(Enter("a")), b.code["a"]) == Result(Done, r.Note(Enter("a")));
  }

  lemma SubclassPreloads(b: Bundle, s: State, q: seq<Path>)
    requires "child" in b.code && "base" in b.code
    requires AllPlain(b, s, q) && q == ["child", "base"] && s.loaded == {}
    requires Needs(b.code["child"]) == {"Base"} && Gives(b.code["child"]) == {"Child"}
    requires Needs(b.code["base"]) == {} && Gives(b.code["base"]) == {"Base"}
    ensures
      var r := Preload(b, s, q);
      r.outcome == Done && r.state.loaded == {"child", "base"} && "Child" in r.state.defined
  {
    hide Needs, Gives, NeedsFirst, Preload, AllGives;
    assert q[0] in q && q[1] in q;
    PreloadSaturates(b, s, q);
    EverythingSaturates(b, q, s.defined);
    PreloadPlain(b, s, q, s.defined + AllGives(b, q));
    assert "Base" in Gives(b.code["base"]);
    assert "Child" in Gives(b.code["child"]);
  }

  /** a registers autoloads of t, which needs X, and of u, which requires a file
      that defines X and then raises NameError itself. */
  const MISSED: Bundle := Bundle(
    map["a" := [Use("T")], "t" := [Use("X"), Define("T")], "u" := [Load("d", {}), Use("Y")], "d" := [Define("X")]],
    {}, {}, map["a" := ["t", "u"]])

  lemma MissedShape()
    ensures
      var b := MISSED;
      && Targets(b, "a") == ["t", "u"] && Targets(b, "u") == [] && b.code.Keys == {"a", "t", "u", "d"} && b.native == {}
      && Plain(b, "t") && Plain(b, "d") && b.code["a"] == [Use("T")] && b.code["u"] == [Load("d", {}), Use("Y")]
      && Needs(b.code["t"]) == {"X"} && Gives(b.code["t"]) == {"T"}
      && Needs(b.code["d"]) == {} && Gives(b.code["d"]) == {"X"}
  {
    var t, d := MISSED.code["t"], MISSED.code["d"];
    assert t == [Use("X"), Define("T")] && d == [Define("X")];
    assert t[0] in t && t[1] in t && d[0] in d;
    assert forall st :: st in t ==> st == t[0] || st == t[1];
    assert Targets(MISSED, "t") == [] && Targets(MISSED, "d") == [];
  }

  /** u fails each time, but d is loaded. */
  lemma UFails(s: State)
    requires s.loading == {"a"} && "u" !in s.loaded && "Y" !in s.defined && ("d" in s.loaded ==> "X" in s.defined)
    ensures
      var r := LoadFile(MISSED, s, "u");
      && r.outcome == NameError && r.state.loading == s.loading
      && r.state.loaded == s.loaded + {"d"} && r.state.defined == s.defined + {"X"}
  {
    var b := MISSED;
    MissedShape();
    hide MISSED, Needs, Gives, NeedsFirst;
    var s1 := s.(loading := s.loading + {"u"}).Note(Enter("u"));
    assert s.loading + {"u"} == {"a", "u"} && {"a", "u"} - {"u"} == s.loading;
    assert Preload(b, s.(loading := s.loading + {"u"}), []) == Result(Done, s.(loading := s.loading + {"u"}));
    if "d" in s.loaded { LoadedAlready(b, s1, "d"); } else { LoadPlain(b, s1, "d"); }
    var s2 := LoadFile(b, s1, "d").state;
    assert b.code["u"][1..] == [Use("Y")];
    assert Exec(b, s2, [Use("Y")]) == Result(NameError, s2);
    assert Exec(b, s1, b.code["u"]) == Result(NameError, s2);
    assert s.loaded + {"d"} == if "d" in s.loaded then s.loaded else s.loaded + {"d"};
    assert s.defined + {"X"} == if "d" in s.loaded then s.defined else s.defined + {"X"};
  }

  /** Only a target that succeeds counts as progress: t is not tried again after
      X has been defined, so requiring a fails, and would succeed if done again. */
  lemma ProgressMissed()
    ensures
      var r := LoadFile(MISSED, Fresh({}), "a");
      && r.outcome == NameError && "t" !in r.state.loaded && "X" in r.state.defined
      && LoadFile(MISSED, r.state, "a").outcome == Done
  {
    var b := MISSED;
    MissedShape();
    hide MISSED, Needs, Gives, NeedsFirst, Plain;
    var s1 := Fresh({}).(loading := {"a"});
    assert {} + {"a"} == {"a"} && {"a"} - {"a"} == {};
    var s2 := FirstTry(s1);
    assert b.code["a"][1..] == [];
    assert Exec(b, s2.Note(Enter("a")), b.code["a"]) == Result(NameError, s2.Note(Enter("a")));
    var s3 := s2.Note(Enter("a")).(loading := {}).Note(Abort("a", NameError));
    assert LoadFile(b, Fresh({}), "a") == Result(NameError, s3);
    var s4 := s3.(loading := {"a"});
    var s5 := SecondTry(s4);
    assert Exec(b, s5.Note(Enter("a")), b.code["a"]) == Result(Done, s5.Note(Enter("a")));
  }

  lemma FirstTry(s: State) returns (s': State)
    requires s.loading == {"a"} && s.loaded == {} && s.defined == {}
    ensures Preload(MISSED, s, ["t", "u"]) == Result(Done, s')
    ensures s'.loading == {"a"} && s'.loaded == {"d"} && s'.defined == {"X"}
  {
    var b := MISSED;
    MissedShape();
    hide MISSED, Needs, Gives, NeedsFirst, LoadFile;
    LoadPlain(b, s, "t");
    var s1 := LoadFile(b, s, "t").state;
    UFails(s1);
    s' := LoadFile(b, s1, "u").state;
    assert ["t", "u"][1..] == ["u"] && ["u"][1..] == [] && ["u"] + [] == ["u"];
    assert Round(b, s', []) == RoundResult(Done, s', []);
    assert Round(b, s1, ["u"]) == RoundResult(Done, s', ["u"]);
    assert Round(b, s, ["t", "u"]) == RoundResult(Done, s', ["t", "u"]);
  }

  lemma SecondTry(s: State) returns (s': State)
    requires s.loading == {"a"} && s.loaded == {"d"} && s.defined == {"X"}
    ensures Preload(MISSED, s, ["t", "u"]) == Result(Done, s')
    ensures s'.loading == {"a"} && "T" in s'.defined && "a" !in s'.loaded
  {
    var b := MISSED;
    MissedShape();
    hide MISSED, Needs, Gives, NeedsFirst, LoadFile;
    LoadPlain(b, s, "t");
    var s1 := LoadFile(b, s, "t").state;
    UFails(s1);
    var s2 := LoadFile(b, s1, "u").state;
    assert ["t", "u"][1..] == ["u"] && ["u"][1..] == [];
    assert Round(b, s2, []) == RoundResult(Done, s2, []);
    assert Round(b, s1, ["u"]) == RoundResult(Done, s2, ["u"]);
    assert Round(b, s, ["t", "u"]) == RoundResult(Done, s2, ["u"]);
    UFails(s2);
    s' := LoadFile(b, s2, "u").state;
    assert Round(b, s', []) == RoundResult(Done, s', []);
    assert Round(b, s2, ["u"]) == RoundResult(Done, s', ["u"]);
    assert Preload(b, s2, ["u"]) == Result(Done, s');
  }
}
