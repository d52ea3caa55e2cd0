/** The loader of the generated bundle over its LOADING and LOADED tables. */
module Loader {
  import opened LoaderSpec

  class CalistoBundle {
    const bundle: Bundle
    var loading: set<Path>
    var loaded: set<Path>
    var defined: set<string>
    ghost var log: seq<Event>

    constructor (b: Bundle)
      ensures bundle == b && Now() == State({}, {}, {}, [])
    {
      bundle, loading, loaded, defined, log := b, {}, {}, {}, [];
    }

    ghost function Now(): State
      reads this
    {
      State(loading, loaded, defined, log)
    }

    method LoadFile(abs: Path) returns (outcome: Outcome)
      modifies this
      ensures Result(outcome, Now()) == LoaderSpec.LoadFile(bundle, old(Now()), abs)
      decreases Universe(bundle) - loading, 0, 0
    {
      if abs in loaded || abs in loading {
        return Done;
      }
      if abs in bundle.native {
        log := log + [Enter(abs)];
        if abs in bundle.broken {
          log := log + [Abort(abs, LoadError)];
          return LoadError;
        }
        log := log + [Complete(abs)];
        loaded := loaded + {abs};
        return Done;
      }
      if abs !in bundle.code {
        return LoadError;
      }
      assert abs in Universe(bundle) - loading;
      loading := loading + {abs};
      outcome := Preload(Targets(bundle, abs));
      if outcome == LoadError {
        return;
      }
      log := log + [Enter(abs)];
      outcome := Exec(bundle.code[abs]);
      loading := loading - {abs};
      if outcome != Done {
        log := log + [Abort(abs, outcome)];
        return;
      }
      log := log + [Complete(abs)];
      loaded := loaded + {abs};
    }

    method Exec(stmts: seq<Stmt>) returns (outcome: Outcome)
      modifies this
      ensures Result(outcome, Now()) == LoaderSpec.Exec(bundle, old(Now()), stmts)
      decreases Universe(bundle) - loading, 1, |stmts|
    {
      var i := 0;
      assert stmts[0..] == stmts;
      while i < |stmts|
        invariant 0 <= i <= |stmts| && old(loading) <= loading
        invariant LoaderSpec.Exec(bundle, old(Now()), stmts) == LoaderSpec.Exec(bundle, Now(), stmts[i..])
      {
        assert stmts[i..][1..] == stmts[i + 1..];
        match stmts[i] {
          case Define(name) => defined := defined + {name};
          case Use(name) =>
            if name !in defined {
              return NameError;
            }
          case Fail =>
            return LoadError;
          case Load(target, rescued) =>
            Shrinks(bundle, old(loading), loading);
            outcome := LoadFile(target);
            if outcome != Done && outcome !in rescued {
              return;
            }
            if outcome == LoadError {
              log := log + [Rescued];
            }
        }
        i := i + 1;
      }
      outcome := Done;
    }

    /** The reject pass over the pending targets. */
    method PreloadRound(targets: seq<Path>) returns (outcome: Outcome, left: seq<Path>)
      modifies this
      ensures RoundResult(outcome, Now(), left) == Round(bundle, old(Now()), targets)
      decreases Universe(bundle) - loading, 1, |targets|
    {
      left := [];
      assert targets[0..] == targets;
      ghost var goal := Round(bundle, Now(), targets);
      assert goal == After([], goal) by { AfterNothing(goal); }
      for i := 0 to |targets|
        invariant old(loading) <= loading && |left| <= i
        invariant goal == After(left, Round(bundle, Now(), targets[i..]))
      {
        RoundUnfolds(bundle, Now(), targets, i, left);
        Shrinks(bundle, old(loading), loading);
        var o := LoadFile(targets[i]);
        if o == LoadError {
          return LoadError, [];
        }
        if o != Done { left := left + [targets[i]]; }
      }
      outcome := Done;
      assert left + [] == left;
    }

    method Preload(autoloads: seq<Path>) returns (outcome: Outcome)
      modifies this
      ensures Result(outcome, Now()) == LoaderSpec.Preload(bundle, old(Now()), autoloads)
      decreases Universe(bundle) - loading, 2, |autoloads|
    {
      hide Round;
      var pending := autoloads;
      while pending != []
        invariant old(loading) <= loading && |pending| <= |autoloads|
        invariant LoaderSpec.Preload(bundle, old(Now()), autoloads) == LoaderSpec.Preload(bundle, Now(), pending)
        decreases |pending|
      {
        Shrinks(bundle, old(loading), loading);
        var o, left := PreloadRound(pending);
        if o == LoadError {
          return LoadError;
        }
        var progressed := |left| < |pending|;
        pending := left;
        if !progressed {
          break;
        }
      }
      outcome := Done;
    }
  }

  function After(front: seq<Path>, r: RoundResult): RoundResult {
    if r.outcome == LoadError then r else r.(left := front + r.left)
  }

  lemma AfterNothing(r: RoundResult)
    ensures After([], r) == r
  {
    assert [] + r.left == r.left;
  }

  lemma RoundUnfolds(b: Bundle, s: State, targets: seq<Path>, i: nat, left: seq<Path>)
    requires i < |targets|
    ensures
      var r := LoaderSpec.LoadFile(b, s, targets[i]);
      After(left, Round(b, s, targets[i..])) ==
      if r.outcome == LoadError then RoundResult(LoadError, r.state, [])
      else After(if r.outcome == Done then left else left + [targets[i]], Round(b, r.state, targets[i + 1..]))
  {
    hide LoaderSpec.LoadFile;
    assert targets[i..][1..] == targets[i + 1..];
    var r := LoaderSpec.LoadFile(b, s, targets[i]);
    if r.outcome != LoadError {
      var rest := Round(b, r.state, targets[i + 1..]);
      assert left + ([targets[i]] + rest.left) == left + [targets[i]] + rest.left;
    }
  }
}
