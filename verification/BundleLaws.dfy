/** What a bundle holds, said without the loop that collects it. */
module BundleLaws {
  import opened Wrappers
  import opened BundleSpec
  import opened Bundler
  import opened BundleIndex

  // ----- which file a name stands for -----

  /** The extensions a require tries in each directory, in order. */
  const EXTENSIONS: seq<string> := ["", ".rb", ".so", ".bundle"]

  /** The file a name stands for in directory i with extension j. */
  function Tried(p: Project, ident: string, i: nat, j: nat): Path
    requires i < |p.loadPath| && j < 4
  {
    p.expand(ident + EXTENSIONS[j], p.loadPath[i])
  }

  /** Candidate k is the first that exists. */
  predicate FirstIn(p: Project, candidates: seq<Path>, k: nat) {
    && k < |candidates| && candidates[k] in p.files
    && forall m :: 0 <= m < k ==> candidates[m] !in p.files
  }

  lemma {:induction false} FirstFileExactly(p: Project, candidates: seq<Path>, t: Path)
    ensures FirstFile(p, candidates) == Some(t) <==> exists k: nat :: FirstIn(p, candidates, k) && candidates[k] == t
  {
    if candidates != [] {
      var rest := candidates[1..];
      FirstFileExactly(p, rest, t);
      if candidates[0] in p.files {
        assert FirstIn(p, candidates, 0);
      } else {
        assert forall k: nat :: FirstIn(p, rest, k) ==> FirstIn(p, candidates, k + 1) && candidates[k + 1] == rest[k];
        assert forall k: nat :: FirstIn(p, candidates, k) ==> FirstIn(p, rest, k - 1) && candidates[k] == rest[k - 1];
      }
    }
  }

  lemma {:induction false} CandidateAt(p: Project, ident: string, dirs: seq<Path>, i: nat, j: nat)
    requires i < |dirs| && j < 4
    ensures |Candidates(p, ident, dirs)| == 4 * |dirs|
    ensures Candidates(p, ident, dirs)[4 * i + j] == p.expand(ident + EXTENSIONS[j], dirs[i])
  {
    assert ident + "" == ident;
    CandidatesCount(p, ident, dirs);
    if i > 0 {
      CandidateAt(p, ident, dirs[1..], i - 1, j);
    }
  }

  lemma {:induction false} CandidatesCount(p: Project, ident: string, dirs: seq<Path>)
    ensures |Candidates(p, ident, dirs)| == 4 * |dirs|
  {
    if dirs != [] { CandidatesCount(p, ident, dirs[1..]); }
  }

  /** In directory i and with extension j the name stands for a file, and for
      none in an earlier directory, nor in the same one with an earlier extension. */
  predicate Stands(p: Project, ident: string, i: nat, j: nat) {
    && i < |p.loadPath| && j < 4 && Tried(p, ident, i, j) in p.files
    && forall m: nat, n: nat :: m < |p.loadPath| && n < 4 && (m < i || (m == i && n < j)) ==>
         Tried(p, ident, m, n) !in p.files
  }

  lemma TriedIsCandidate(p: Project, ident: string, i: nat, j: nat)
    requires i < |p.loadPath| && j < 4
    ensures 4 * i + j < |Candidates(p, ident, p.loadPath)|
    ensures Candidates(p, ident, p.loadPath)[4 * i + j] == Tried(p, ident, i, j)
  {
    CandidateAt(p, ident, p.loadPath, i, j);
  }

  lemma FirstStands(p: Project, ident: string, k: nat)
    requires FirstIn(p, Candidates(p, ident, p.loadPath), k)
    ensures Stands(p, ident, k / 4, k % 4) && Tried(p, ident, k / 4, k % 4) == Candidates(p, ident, p.loadPath)[k]
  {
    hide Candidates, Tried;
    CandidatesCount(p, ident, p.loadPath);
    TriedIsCandidate(p, ident, k / 4, k % 4);
    assert 4 * (k / 4) + k % 4 == k;
    forall m: nat, n: nat | m < |p.loadPath| && n < 4 && (m < k / 4 || (m == k / 4 && n < k % 4))
      ensures Tried(p, ident, m, n) !in p.files
    {
      TriedIsCandidate(p, ident, m, n);
      assert 4 * m + n < k;
    }
  }

  lemma StandsFirst(p: Project, ident: string, i: nat, j: nat)
    requires Stands(p, ident, i, j)
    ensures FirstIn(p, Candidates(p, ident, p.loadPath), 4 * i + j)
    ensures Candidates(p, ident, p.loadPath)[4 * i + j] == Tried(p, ident, i, j)
  {
    hide Candidates, Tried;
    TriedIsCandidate(p, ident, i, j);
    forall k | 0 <= k < 4 * i + j
      ensures Candidates(p, ident, p.loadPath)[k] !in p.files
    {
      TriedIsCandidate(p, ident, k / 4, k % 4);
      assert 4 * (k / 4) + k % 4 == k;
    }
  }

  /** A require resolves to the file the name stands for first, in the order of
      the load path and, in each directory, of the extensions. */
  lemma ResolvesFirst(p: Project, ident: string, t: Path)
    ensures ResolveRequire(p, ident) == Some(t) <==>
      exists i: nat, j: nat :: Stands(p, ident, i, j) && Tried(p, ident, i, j) == t
  {
    hide FirstFile, Candidates, Tried;
    var c := Candidates(p, ident, p.loadPath);
    FirstFileExactly(p, c, t);
    forall k: nat | FirstIn(p, c, k)
      ensures k < |c| && Stands(p, ident, k / 4, k % 4) && Tried(p, ident, k / 4, k % 4) == c[k]
    {
      FirstStands(p, ident, k);
    }
    forall i: nat, j: nat | Stands(p, ident, i, j)
      ensures FirstIn(p, c, 4 * i + j) && 4 * i + j < |c| && Tried(p, ident, i, j) == c[4 * i + j]
    {
      StandsFirst(p, ident, i, j);
    }
  }

  // ----- what is carried -----

  predicate InGem(p: Project, f: Path) {
    exists i :: 0 <= i < |p.gemPaths| && Under(f, p.gemPaths[i].0)
  }

  lemma {:induction false} GemOfExactly(path: Path, gemPaths: seq<(Path, string)>)
    ensures GemOf(path, gemPaths).Some? <==> exists i :: 0 <= i < |gemPaths| && Under(path, gemPaths[i].0)
  {
    hide Under;
    if gemPaths != [] {
      var rest := gemPaths[1..];
      GemOfExactly(path, rest);
      assert forall i :: 0 < i < |gemPaths| ==> gemPaths[i] == rest[i - 1];
      assert forall i :: 0 <= i < |rest| ==> rest[i] == gemPaths[i + 1];
    }
  }

  /** What becomes of a file a require resolves to. Gems come first: their
      directories may lie below the root. */
  lemma TreatedExactly(p: Project, f: Path)
    ensures Treat(p, f) == Embed <==> if InGem(p, f) then p.extname(f) == ".rb" else Under(f, p.root)
    ensures Treat(p, f) == Extract <==> InGem(p, f) && (p.extname(f) == ".so" || p.extname(f) == ".bundle")
  {
    GemOfExactly(f, p.gemPaths);
  }

  /** Besides the entry a bundle embeds nothing but the project's own files and
      the Ruby files of gems. */
  lemma OnlyOwnFiles(p: Project, entry: Path, b: Build, native: seq<Path>, index: map<string, Path>, f: Path)
    requires IsBundle(p, entry, b, native, index) && f in b.files && f != entry
    ensures if InGem(p, f) then p.extname(f) == ".rb" else Under(f, p.root)
  {
    hide Reachable, Treat, InGem, Under;
    assert Known(b, f);
    EmbeddedOrEntry(p, entry, f);
    TreatedExactly(p, f);
  }

  lemma {:induction false} AllNativesExactly(p: Project, gems: seq<string>, f: Path)
    ensures f in AllNatives(p, gems) <==> exists n :: n in gems && n in p.gemSpecs && f in p.gemNatives(n)
  {
    if gems != [] { AllNativesExactly(p, gems[1..], f); }
  }

  /** The bundle carries a compiled file exactly when a static require of one of
      its files leads to it, or to any file, embedded or compiled, of the gem
      it belongs to. */
  lemma NativesExactly(p: Project, entry: Path, b: Build, native: seq<Path>, index: map<string, Path>, f: Path)
    requires IsBundle(p, entry, b, native, index)
    ensures f in native <==>
      (Draws(p, b.files, f) && Treat(p, f) == Extract) ||
      exists n :: n in p.gemSpecs && DrawsGem(p, b.files, n) && f in p.gemNatives(n)
  {
    hide Reachable, Treat, Resolve, OriginOf, Draws, DrawsGem, EdgesDone, IndexSound, Resolved;
    AllNativesExactly(p, b.nativeGems, f);
    if Draws(p, b.files, f) { DrawnIsDone(p, b, f); }
    if n :| n in p.gemSpecs && DrawsGem(p, b.files, n) && f in p.gemNatives(n) {
      DrawnGemIsDone(p, b, n);
    }
  }

  lemma DrawnIsDone(p: Project, b: Build, t: Path)
    requires Draws(p, b.files, t) && forall f :: f in b.files ==> EdgesDone(p, b, f, |p.edges(f)|)
    ensures GemKnown(p, b, t) && (Treat(p, t) == Extract ==> t in b.native)
  {
    hide Treat, Resolve, OriginOf;
    var f, e :| f in b.files && e in p.edges(f) && Resolve(p, e, f) == Some(t) && Treat(p, t) != Leave;
    var k :| 0 <= k < |p.edges(f)| && p.edges(f)[k] == e;
    assert EdgeDone(p, b, f, p.edges(f)[k]);
  }

  lemma DrawnGemIsDone(p: Project, b: Build, name: string)
    requires DrawsGem(p, b.files, name) && forall f :: f in b.files ==> EdgesDone(p, b, f, |p.edges(f)|)
    ensures name in b.nativeGems
  {
    hide Treat, Draws, EdgesDone, OriginOf;
    var t :| Draws(p, b.files, t) && OriginOf(p, t) == Gem(name);
    DrawnIsDone(p, b, t);
  }

  /** With any file of a gem besides the entry, all its compiled files come
      along, required in a way the analysis sees or not. */
  lemma GemComesWhole(p: Project, entry: Path, b: Build, native: seq<Path>, index: map<string, Path>,
                      f: Path, name: string)
    requires IsBundle(p, entry, b, native, index) && f in b.files && f != entry
    requires OriginOf(p, f) == Gem(name) && name in p.gemSpecs
    ensures forall x :: x in p.gemNatives(name) ==> x in native
  {
    hide Treat, Resolve, OriginOf, EdgesDone, IndexSound, Resolved, NativesSound, Reachable;
    assert Known(b, f);
    FileIsDrawn(p, entry, b, f);
    assert DrawsGem(p, b.files, name);
    forall x | x in p.gemNatives(name)
      ensures x in native
    {
      NativesExactly(p, entry, b, native, index, x);
    }
  }

  lemma FileIsDrawn(p: Project, entry: Path, b: Build, f: Path)
    requires b.queue == [] && Known(b, entry) && Reachable(p, entry, f) && f != entry
    requires forall g :: g in b.files ==> EdgesDone(p, b, g, |p.edges(g)|)
    ensures Draws(p, b.files, f)
  {
    hide Resolve, EdgesDone;
    var chain :| IsChain(p, chain) && chain[0] == entry && chain[|chain| - 1] == f;
    Closed(p, b);
    var k := |chain| - 2;
    ClosedContainsChain(p, b.files, chain, k);
    assert Leads(p, chain[k], chain[k + 1]);
  }

  /** A name is indexed exactly when a file of the bundle requires it and it is
      carried, or a compiled file has it as its canonical name. */
  lemma IndexExactly(p: Project, entry: Path, b: Build, native: seq<Path>, index: map<string, Path>, ident: string)
    requires IsBundle(p, entry, b, native, index)
    ensures ident in index <==>
      (Asked(p, b.files, ident) && ResolveRequire(p, ident).Some? && Treat(p, ResolveRequire(p, ident).value) != Leave)
      || exists f :: f in native && CanonicalName(p, f) == Some(ident)
  {
    hide Reachable, Treat, ResolveRequire, CanonicalName, NativesSound, Resolved;
    if Asked(p, b.files, ident) && ResolveRequire(p, ident).Some? && Treat(p, ResolveRequire(p, ident).value) != Leave {
      var f, e :| f in b.files && e in p.edges(f) && !e.kind.RequireRelative? && e.ident == ident;
      var k :| 0 <= k < |p.edges(f)| && p.edges(f)[k] == e;
      assert EdgeDone(p, b, f, p.edges(f)[k]);
    }
  }

  /** Below the first gem directory that holds it, a compiled file's canonical
      name is its path there without the extension. */
  lemma CanonicalNameOfFile(p: Project, dir: Path, gem: string, name: string, ext: string)
    requires ext == ".so" || ext == ".bundle"
    requires GemOf(dir + "/" + name + ext, p.gemPaths) == Some((dir, gem))
    ensures CanonicalName(p, dir + "/" + name + ext) == Some(name)
  {
    hide GemOf;
    var abs := dir + "/" + name + ext;
    assert abs[|dir| + 1..] == name + ext;
    if ext == ".so" {
      assert (name + ext)[|name|..] == ".so";
    } else {
      assert (name + ext)[|name|..] == ".bundle";
      assert (name + ext)[|name| + 6] == 'e';
    }
  }
}
