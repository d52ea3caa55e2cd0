/** What build.rb's analysis resolves and reaches. The file system, the parser
    and the gem lookup are given: a project says which files exist, what each
    requires, and how names become paths. */
module BundleSpec {
  import opened Wrappers

  type Path = string

  datatype Kind = Require | RequireRelative | Autoload

  datatype Edge = Edge(kind: Kind, ident: string)

  datatype Project = Project(
    files: set<Path>,                  // File.file?
    expand: (string, Path) -> Path,    // File.expand_path(name, base)
    dirname: Path -> Path,
    extname: Path -> string,
    edges: Path -> seq<Edge>,          // the static requires of a file
    loadPath: seq<Path>,
    gemPaths: seq<(Path, string)>,     // require path, gem name
    gemSpecs: set<string>,             // gems with a specification
    gemNatives: string -> seq<Path>,   // a gem's compiled files
    root: Path)

  // ----- resolution -----

  function FirstFile(p: Project, candidates: seq<Path>): (r: Option<Path>)
    ensures r.Some? ==> r.value in p.files && r.value in candidates
    ensures r.None? ==> forall c :: c in candidates ==> c !in p.files
  {
    if candidates == [] then None
    else if candidates[0] in p.files then Some(candidates[0])
    else FirstFile(p, candidates[1..])
  }

  function ResolveRelative(p: Project, ident: string, file: Path): Option<Path> {
    var base := p.dirname(file);
    FirstFile(p, [p.expand(ident, base), p.expand(ident + ".rb", base)])
  }

  function Candidates(p: Project, ident: string, loadPath: seq<Path>): seq<Path> {
    if loadPath == [] then []
    else
      var lp := loadPath[0];
      [p.expand(ident, lp), p.expand(ident + ".rb", lp), p.expand(ident + ".so", lp), p.expand(ident + ".bundle", lp)]
      + Candidates(p, ident, loadPath[1..])
  }

  function ResolveRequire(p: Project, ident: string): Option<Path> {
    FirstFile(p, Candidates(p, ident, p.loadPath))
  }

  function Resolve(p: Project, e: Edge, file: Path): (r: Option<Path>)
    ensures r.Some? ==> r.value in p.files
  {
    if e.kind.RequireRelative? then ResolveRelative(p, e.ident, file) else ResolveRequire(p, e.ident)
  }

  // ----- what is done with a resolved file -----

  predicate Under(path: Path, dir: Path) {
    dir + "/" <= path
  }

  datatype Origin = Gem(name: string) | InProject | Stdlib

  function GemOf(path: Path, gemPaths: seq<(Path, string)>): Option<(Path, string)> {
    if gemPaths == [] then None
    else if Under(path, gemPaths[0].0) then Some(gemPaths[0])
    else GemOf(path, gemPaths[1..])
  }

  function OriginOf(p: Project, path: Path): Origin {
    var g := GemOf(path, p.gemPaths);
    if g.Some? then Gem(g.value.1) else if Under(path, p.root) then InProject else Stdlib
  }

  datatype Treatment = Embed | Extract | Leave

  /** Ruby files of gems and every file of the project are embedded, compiled
      files of gems are carried as bytes, the rest is left to the interpreter. */
  function Treat(p: Project, path: Path): Treatment {
    match OriginOf(p, path)
    case Stdlib => Leave
    case InProject => Embed
    case Gem(_) =>
      var ext := p.extname(path);
      if ext == ".so" || ext == ".bundle" then Extract else if ext == ".rb" then Embed else Leave
  }

  // ----- reachability -----

  /** to is embedded because of an edge of from. */
  ghost predicate Leads(p: Project, from: Path, to: Path) {
    exists e :: e in p.edges(from) && Resolve(p, e, from) == Some(to) && Treat(p, to) == Embed
  }

  ghost predicate IsChain(p: Project, chain: seq<Path>) {
    chain != [] && forall i :: 0 <= i < |chain| - 1 ==> Leads(p, chain[i], chain[i + 1])
  }

  ghost predicate Reachable(p: Project, entry: Path, f: Path) {
    exists chain :: IsChain(p, chain) && chain[0] == entry && chain[|chain| - 1] == f
  }

  lemma ReachableEntry(p: Project, entry: Path)
    ensures Reachable(p, entry, entry)
  {
    assert IsChain(p, [entry]);
  }

  lemma ReachableStep(p: Project, entry: Path, f: Path, g: Path)
    requires Reachable(p, entry, f) && Leads(p, f, g)
    ensures Reachable(p, entry, g)
  {
    var chain :| IsChain(p, chain) && chain[0] == entry && chain[|chain| - 1] == f;
    assert IsChain(p, chain + [g]);
  }

  ghost predicate ClosedUnderEdges(p: Project, s: set<Path>) {
    forall f, g :: f in s && Leads(p, f, g) ==> g in s
  }

  lemma {:induction false} ClosedContainsChain(p: Project, s: set<Path>, chain: seq<Path>, k: nat)
    requires ClosedUnderEdges(p, s) && IsChain(p, chain) && chain[0] in s && k < |chain|
    ensures chain[k] in s
  {
    if k > 0 {
      ClosedContainsChain(p, s, chain, k - 1);
      assert Leads(p, chain[k - 1], chain[k - 1 + 1]);
    }
  }

  /** A closed set with the entry holds everything reachable from it. */
  lemma ClosedContainsReachable(p: Project, s: set<Path>, entry: Path)
    requires ClosedUnderEdges(p, s) && entry in s
    ensures forall f :: Reachable(p, entry, f) ==> f in s
  {
    forall f | Reachable(p, entry, f) ensures f in s {
      var chain :| IsChain(p, chain) && chain[0] == entry && chain[|chain| - 1] == f;
      ClosedContainsChain(p, s, chain, |chain| - 1);
    }
  }
}
