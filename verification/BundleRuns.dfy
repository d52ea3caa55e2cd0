/** The loader on the bundle that the analysis builds. */
module BundleRuns {
  import opened Wrappers
  import opened BundleSpec
  import opened Bundler
  import opened BundleIndex
  import LoaderSpec
  import LoaderSafety
  import LoaderRestores

  /** What f asks the loader for came out of the replacement require or
      require_relative; anything else is delegated to the original. */
  ghost predicate Answered(p: Project, b: Build, index: map<string, Path>, f: Path, target: Path) {
    exists ident ::
      || RuntimeRequire(index, ident) == Some(target)
      || RuntimeRelative(p, b.files, ident, f) == Some(target)
  }

  /** The tables of the running bundle are those the analysis wrote out. */
  ghost predicate Runs(p: Project, b: Build, native: seq<Path>, index: map<string, Path>, bundle: LoaderSpec.Bundle) {
    && bundle.code.Keys == b.files
    && (forall f :: f in native <==> f in bundle.native)
    && bundle.autoloads == b.autoloads
    && forall f :: f in bundle.code ==> BodyAnswered(p, b, index, f, bundle.code[f])
  }

  ghost predicate BodyAnswered(p: Project, b: Build, index: map<string, Path>, f: Path, stmts: seq<LoaderSpec.Stmt>) {
    forall st :: st in stmts && st.Load? ==> Answered(p, b, index, f, st.target)
  }

  lemma AnsweredIsCarried(p: Project, entry: Path, b: Build, native: seq<Path>, index: map<string, Path>,
                          f: Path, target: Path)
    requires IsBundle(p, entry, b, native, index) && Answered(p, b, index, f, target)
    ensures target in b.files || target in native
  {
    hide IsBundle;
    BundleIsClosed(p, entry, b, native, index);
  }

  /** No compiled file of the bundle fails to load, and no body fails by itself,
      as in a require that is delegated and not found. */
  ghost predicate NothingFails(bundle: LoaderSpec.Bundle) {
    bundle.native !! bundle.broken && forall f :: f in bundle.code ==> LoaderSpec.Fail !in bundle.code[f]
  }

  /** Running a built bundle from its entry: as long as nothing fails by itself,
      no LoadError is raised and LOADING is empty again, whatever the bodies
      require at run time through the bundle and whatever they define; and in any
      case no body is entered while it runs or after it has completed. */
  lemma BuiltBundleRuns(p: Project, entry: Path, b: Build, native: seq<Path>, index: map<string, Path>,
                        bundle: LoaderSpec.Bundle, defined: set<string>)
    requires IsBundle(p, entry, b, native, index) && Runs(p, b, native, index, bundle)
    ensures
      var r := LoaderSpec.LoadFile(bundle, LoaderSafety.Fresh(defined), entry);
      && LoaderSafety.WellRun(r.state.log) && LoaderSafety.Running(r.state.log) == {}
      && (NothingFails(bundle) ==> r.outcome != LoaderSpec.LoadError && r.state.loading == {})
  {
    LoaderSafety.EveryLoadIsOrderly(bundle, defined, entry);
    if NothingFails(bundle) {
      RunsClosed(p, entry, b, native, index, bundle);
      LoaderSafety.LoadFileFinds(bundle, LoaderSafety.Fresh(defined), entry);
      LoaderRestores.ClosedNeverLeaks(bundle);
      LoaderRestores.RestoredExactly(bundle);
    }
  }

  lemma RunsClosed(p: Project, entry: Path, b: Build, native: seq<Path>, index: map<string, Path>,
                   bundle: LoaderSpec.Bundle)
    requires IsBundle(p, entry, b, native, index) && Runs(p, b, native, index, bundle) && NothingFails(bundle)
    ensures LoaderSafety.ClosedBundle(bundle) && entry in LoaderSpec.Universe(bundle)
  {
    hide RuntimeRelative, RuntimeRequire, Answered;
    assert entry in b.files by {
      assert Known(b, entry);
    }
    BundleIsClosed(p, entry, b, native, index);
    hide IsBundle;
    forall f | f in bundle.code
      ensures LoaderSafety.BodyClosed(bundle, bundle.code[f])
    {
      forall st | st in bundle.code[f] && st.Load?
        ensures st.target in LoaderSpec.Universe(bundle)
      {
        AnsweredIsCarried(p, entry, b, native, index, f, st.target);
      }
    }
  }
}
