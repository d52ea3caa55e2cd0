/** The load path and the gem directories as build.rb lays them out, and which
    static requires the bundle then answers although the analysis left them. */
module BundleLayout {
  import opened Wrappers
  import opened BundleSpec
  import opened Bundler
  import opened BundleIndex

  function Dirs(gemPaths: seq<(Path, string)>): (dirs: seq<Path>)
    ensures |dirs| == |gemPaths| && forall i :: 0 <= i < |dirs| ==> dirs[i] == gemPaths[i].0
  {
    seq(|gemPaths|, i requires 0 <= i < |gemPaths| => gemPaths[i].0)
  }

  /** The directories the script itself puts on the load path. */
  function OwnDirs(p: Project): seq<Path> {
    [p.root] + Dirs(p.gemPaths)
  }

  predicate Compiled(path: Path) {
    (|path| >= 3 && path[|path| - 3..] == ".so") || (|path| >= 7 && path[|path| - 7..] == ".bundle")
  }

  /** Below a gem directory f is what its name there expands to. */
  ghost predicate Normal(p: Project, f: Path) {
    forall i :: 0 <= i < |p.gemPaths| && Under(f, p.gemPaths[i].0) ==>
      p.expand(f[|p.gemPaths[i].0| + 1..], p.gemPaths[i].0) == f
  }

  /** The load path starts with the root and the gem directories; a gem's
      compiled files are listed from those directories; an extension is what a
      path ends in; and listed and expanded paths are in normal form. */
  ghost predicate LaidOut(p: Project) {
    && OwnDirs(p) <= p.loadPath
    && (forall name, f :: name in p.gemSpecs && f in p.gemNatives(name) ==>
          f in p.files && Compiled(f) && GemOf(f, p.gemPaths).Some? && Normal(p, f))
    && (forall f :: p.extname(f) == ".so" || p.extname(f) == ".bundle" ==> Compiled(f))
    && (forall name, dir :: Normal(p, p.expand(name, dir)))
  }

  /** A name that stays below the directories it is looked up in and takes the
      extension it is given. */
  ghost predicate PlainName(p: Project, ident: string) {
    forall dir :: dir in OwnDirs(p) ==>
      && Under(p.expand(ident, dir), dir)
      && forall e :: e in {".rb", ".so", ".bundle"} ==>
           Under(p.expand(ident + e, dir), dir) && p.extname(p.expand(ident + e, dir)) == e
  }

  // ----- candidates -----

  lemma {:induction false} CandidatesAppend(p: Project, ident: string, a: seq<Path>, b: seq<Path>)
    ensures Candidates(p, ident, a + b) == Candidates(p, ident, a) + Candidates(p, ident, b)
  {
    if a == [] {
      assert a + b == b;
    } else {
      assert (a + b)[1..] == a[1..] + b;
      CandidatesAppend(p, ident, a[1..], b);
    }
  }

  lemma {:induction false} FirstFileAppend(p: Project, a: seq<Path>, b: seq<Path>)
    ensures FirstFile(p, a + b) == if FirstFile(p, a).Some? then FirstFile(p, a) else FirstFile(p, b)
  {
    if a == [] {
      assert a + b == b;
    } else {
      assert (a + b)[1..] == a[1..] + b;
      FirstFileAppend(p, a[1..], b);
    }
  }

  /** A candidate is a directory's expansion of the name with one extension or none. */
  lemma {:induction false} CandidateShape(p: Project, ident: string, dirs: seq<Path>, c: Path)
    requires c in Candidates(p, ident, dirs)
    ensures exists dir, e :: dir in dirs && e in {"", ".rb", ".so", ".bundle"} && c == p.expand(ident + e, dir)
  {
    var dir := dirs[0];
    assert ident + "" == ident;
    if c !in Candidates(p, ident, dirs[1..]) {
      assert c in [p.expand(ident + "", dir), p.expand(ident + ".rb", dir), p.expand(ident + ".so", dir),
                   p.expand(ident + ".bundle", dir)];
      assert dir in dirs;
    } else {
      CandidateShape(p, ident, dirs[1..], c);
      var d, e :| d in dirs[1..] && e in {"", ".rb", ".so", ".bundle"} && c == p.expand(ident + e, d);
      assert d in dirs;
    }
  }

  lemma {:induction false} DirCandidates(p: Project, ident: string, dirs: seq<Path>, dir: Path)
    requires dir in dirs
    ensures p.expand(ident + ".so", dir) in Candidates(p, ident, dirs)
    ensures p.expand(ident + ".bundle", dir) in Candidates(p, ident, dirs)
  {
    if dir != dirs[0] {
      DirCandidates(p, ident, dirs[1..], dir);
    }
  }

  lemma {:induction false} GemOfIsGemPath(path: Path, gemPaths: seq<(Path, string)>)
    ensures GemOf(path, gemPaths).Some? ==>
      exists i :: 0 <= i < |gemPaths| && GemOf(path, gemPaths).value == gemPaths[i] && Under(path, gemPaths[i].0)
    ensures forall i :: 0 <= i < |gemPaths| && Under(path, gemPaths[i].0) ==> GemOf(path, gemPaths).Some?
  {
    if gemPaths != [] {
      GemOfIsGemPath(path, gemPaths[1..]);
      if !Under(path, gemPaths[0].0) && GemOf(path, gemPaths).Some? {
        var i :| 0 <= i < |gemPaths| - 1 && GemOf(path, gemPaths).value == gemPaths[1..][i] && Under(path, gemPaths[1..][i].0);
        assert gemPaths[i + 1] == gemPaths[1..][i];
      }
      forall i | 0 <= i < |gemPaths| && Under(path, gemPaths[i].0)
        ensures GemOf(path, gemPaths).Some?
      {
        if i > 0 { assert gemPaths[1..][i - 1] == gemPaths[i]; }
      }
    }
  }

  /** A compiled file with a canonical name is a candidate for that name, in a
      directory of the script's own. */
  lemma CanonicalIsCandidate(p: Project, f: Path, ident: string)
    requires Compiled(f) && Normal(p, f) && CanonicalName(p, f) == Some(ident)
    ensures f in Candidates(p, ident, OwnDirs(p))
  {
    hide GemOf, Compiled, StripExtension, Candidates;
    GemOfIsGemPath(f, p.gemPaths);
    var g := GemOf(f, p.gemPaths).value;
    var i :| 0 <= i < |p.gemPaths| && g == p.gemPaths[i] && Under(f, g.0);
    var rel := f[|g.0| + 1..];
    assert p.expand(rel, g.0) == f;
    assert OwnDirs(p)[i + 1] == g.0;
    DirCandidates(p, ident, OwnDirs(p), g.0);
    CompiledBelow(f, g.0);
    ExtensionBack(rel);
  }

  lemma ExtensionBack(rel: string)
    requires Compiled(rel)
    ensures rel == StripExtension(rel) + ".so" || rel == StripExtension(rel) + ".bundle"
  {
    if |rel| >= 3 && rel[|rel| - 3..] == ".so" {
      assert rel == rel[..|rel| - 3] + ".so";
    } else {
      assert rel == rel[..|rel| - 7] + ".bundle";
    }
  }

  /** The extension is part of the name below the directory. */
  lemma CompiledBelow(f: Path, dir: Path)
    requires Compiled(f) && Under(f, dir)
    ensures Compiled(f[|dir| + 1..])
  {
    var rel := f[|dir| + 1..];
    assert f == dir + "/" + rel;
    if |f| >= 3 && f[|f| - 3..] == ".so" {
      assert f[|f| - 3] == '.' && f[|f| - 2] == 's' && f[|f| - 1] == 'o';
      assert f[|dir|] == '/';
      assert |rel| >= 3;
      assert rel[|rel| - 3..] == ".so";
    } else {
      assert forall k :: 0 <= k < 7 ==> f[|f| - 7 + k] == ".bundle"[k];
      assert f[|dir|] == '/';
      assert forall k :: 0 <= k < 7 ==> ".bundle"[k] != '/';
      assert |rel| >= 7;
      assert rel[|rel| - 7..] == ".bundle";
    }
  }

  // ----- requires the analysis left -----

  lemma ResolvedIsNormal(p: Project, f: Path)
    requires LaidOut(p) && Resolved(p, f)
    ensures Normal(p, f)
  {
    hide Candidates, Normal, GemOf;
    var e, file :| Resolve(p, e, file) == Some(f);
    if e.kind.RequireRelative? {
      assert f in [p.expand(e.ident, p.dirname(file)), p.expand(e.ident + ".rb", p.dirname(file))];
    } else {
      CandidateShape(p, e.ident, p.loadPath, f);
    }
  }

  /** Every compiled file the bundle carries is one, by a normal path. */
  lemma NativesAreCompiled(p: Project, entry: Path, b: Build, native: seq<Path>, index: map<string, Path>, f: Path)
    requires LaidOut(p) && IsBundle(p, entry, b, native, index) && f in native
    ensures f in p.files && Compiled(f) && Normal(p, f)
  {
    hide Reachable, Candidates, GemOf, Normal, Resolved, Compiled;
    if f in b.native {
      assert Treat(p, f) == Extract;
      ResolvedIsNormal(p, f);
    } else {
      var name := GemListing(p, b.nativeGems, f);
    }
  }

  lemma {:induction false} GemListing(p: Project, gems: seq<string>, f: Path) returns (name: string)
    requires f in AllNatives(p, gems)
    ensures name in p.gemSpecs && f in p.gemNatives(name)
  {
    if gems[0] in p.gemSpecs && f in p.gemNatives(gems[0]) {
      name := gems[0];
    } else {
      name := GemListing(p, gems[1..], f);
    }
  }

  /** A require that resolves to nothing is always delegated. */
  lemma UnresolvedIsDelegated(p: Project, entry: Path, b: Build, native: seq<Path>, index: map<string, Path>, ident: string)
    requires IsBundle(p, entry, b, native, index)
    ensures LaidOut(p) && ResolveRequire(p, ident).None? ==> RuntimeRequire(index, ident).None?
  {
    hide Reachable, CanonicalName, Compiled, Candidates, OwnDirs, Normal, FirstFile, LaidOut;
    if LaidOut(p) && ResolveRequire(p, ident).None? {
      LeftRequireExactly(p, entry, b, native, index, ident);
      forall f | f in native
        ensures CanonicalName(p, f) != Some(ident)
      {
        NativesAreCompiled(p, entry, b, native, index, f);
        if CanonicalName(p, f) == Some(ident) {
          CanonicalIsCandidate(p, f, ident);
          FoundInOwnDirs(p, ident, f);
        }
      }
    }
  }

  /** A plain name the analysis resolved and left is answered by the bundle
      only where a gem has a file of exactly that name that is no Ruby code. */
  lemma TakenIsGemAsset(p: Project, entry: Path, b: Build, native: seq<Path>, index: map<string, Path>, ident: string)
    requires IsBundle(p, entry, b, native, index)
    ensures
      var r := ResolveRequire(p, ident);
      LaidOut(p) && PlainName(p, ident) && r.Some? && Treat(p, r.value) == Leave && RuntimeRequire(index, ident).Some? ==>
        && OriginOf(p, r.value).Gem? && p.extname(r.value) !in {".rb", ".so", ".bundle"}
        && exists dir :: dir in OwnDirs(p) && r.value == p.expand(ident, dir)
  {
    hide Reachable, CanonicalName, Compiled, StripExtension, Normal, LaidOut, PlainName, FirstFile, Treat;
    var r := ResolveRequire(p, ident);
    if LaidOut(p) && PlainName(p, ident) && r.Some? && Treat(p, r.value) == Leave && RuntimeRequire(index, ident).Some? {
      LeftRequireExactly(p, entry, b, native, index, ident);
      var f :| f in native && CanonicalName(p, f) == Some(ident);
      NativesAreCompiled(p, entry, b, native, index, f);
      CanonicalIsCandidate(p, f, ident);
      hide IsBundle;
      FoundInOwnDirs(p, ident, f);
      LeftIsAsset(p, ident, ResolveRequire(p, ident).value);
    }
  }

  lemma FoundInOwnDirs(p: Project, ident: string, f: Path)
    requires LaidOut(p) && f in p.files && f in Candidates(p, ident, OwnDirs(p))
    ensures ResolveRequire(p, ident).Some? && ResolveRequire(p, ident).value in Candidates(p, ident, OwnDirs(p))
  {
    hide Candidates;
    var rest := p.loadPath[|OwnDirs(p)|..];
    assert p.loadPath == OwnDirs(p) + rest;
    CandidatesAppend(p, ident, OwnDirs(p), rest);
    FirstFileAppend(p, Candidates(p, ident, OwnDirs(p)), Candidates(p, ident, rest));
  }

  lemma OwnDirIsRootOrGem(p: Project, v: Path, dir: Path)
    requires dir in OwnDirs(p) && Under(v, dir)
    ensures GemOf(v, p.gemPaths).Some? || Under(v, p.root)
  {
    GemOfIsGemPath(v, p.gemPaths);
    var i :| 0 <= i < |OwnDirs(p)| && OwnDirs(p)[i] == dir;
    if i > 0 {
      assert p.gemPaths[i - 1].0 == dir;
    }
  }

  lemma LeftIsAsset(p: Project, ident: string, v: Path)
    requires PlainName(p, ident) && v in Candidates(p, ident, OwnDirs(p)) && Treat(p, v) == Leave
    ensures OriginOf(p, v).Gem? && p.extname(v) !in {".rb", ".so", ".bundle"}
    ensures exists dir :: dir in OwnDirs(p) && v == p.expand(ident, dir)
  {
    hide Candidates, Under, GemOf;
    CandidateShape(p, ident, OwnDirs(p), v);
    var dir, e :| dir in OwnDirs(p) && e in {"", ".rb", ".so", ".bundle"} && v == p.expand(ident + e, dir);
    assert ident + "" == ident;
    assert Under(v, dir);
    OwnDirIsRootOrGem(p, v, dir);
    hide OwnDirs;
  }

  // ----- the requires that differ -----

  /** A project whose gem has a data file foo beside the compiled foo.so, which
      the entry requires by its full name. */
  const ASSET: Project := Project(
    {"/a/main.rb", "/g/foo", "/g/foo.so"},
    (name, base) => base + "/" + name,
    file => "/a",
    file => if file == "/a/main.rb" then ".rb" else if file == "/g/foo.so" then ".so" else "",
    file => if file == "/a/main.rb" then [Edge(Require, "foo.so"), Edge(Require, "foo")] else [],
    ["/a", "/g"],
    [("/g", "foo")],
    {},
    gem => [],
    "/a")

  /** There the analysis resolves "foo" to the data file and leaves it, and every
      bundle answers it with a compiled file. */
  lemma AssetIsTaken(b: Build, native: seq<Path>, index: map<string, Path>)
    ensures LaidOut(ASSET) && ResolveRequire(ASSET, "foo") == Some("/g/foo") && Treat(ASSET, "/g/foo") == Leave
    ensures IsBundle(ASSET, "/a/main.rb", b, native, index) ==>
      RuntimeRequire(index, "foo").Some? && RuntimeRequire(index, "foo").value in native
  {
    AssetLaidOut();
    AssetResolves("foo");
    AssetResolves("foo.so");
    AssetTreated();
    AssetEdge();
    hide *;
    AssetTaken(ASSET, "/a/main.rb", b, native, index, "foo.so", "foo");
  }

  /** A bundle whose entry requires a compiled file by its full name answers a
      require of its canonical name, even one the analysis left. */
  lemma AssetTaken(p: Project, entry: Path, b: Build, native: seq<Path>, index: map<string, Path>,
                   full: string, ident: string)
    requires Edge(Require, full) in p.edges(entry)
    ensures
      var r, left := ResolveRequire(p, full), ResolveRequire(p, ident);
      && IsBundle(p, entry, b, native, index)
      && r.Some? && Treat(p, r.value) == Extract && CanonicalName(p, r.value) == Some(ident)
      && left.Some? && Treat(p, left.value) == Leave ==>
      RuntimeRequire(index, ident).Some? && RuntimeRequire(index, ident).value in native
  {
    hide ResolveRequire, Treat, CanonicalName, Reachable;
    var r, left := ResolveRequire(p, full), ResolveRequire(p, ident);
    if IsBundle(p, entry, b, native, index) && r.Some? && Treat(p, r.value) == Extract
      && CanonicalName(p, r.value) == Some(ident) && left.Some? && Treat(p, left.value) == Leave
    {
      var e := Edge(Require, full);
      assert Known(b, entry) && entry in b.files;
      var k :| 0 <= k < |p.edges(entry)| && p.edges(entry)[k] == e;
      assert EdgeDone(p, b, entry, p.edges(entry)[k]);
      assert Resolve(p, e, entry) == r;
      assert r.value in native;
      assert ident !in b.index;
    }
  }

  lemma AssetEdge()
    ensures Edge(Require, "foo.so") in ASSET.edges("/a/main.rb")
    ensures "/g/" + "foo" == "/g/foo" && "/g/" + "foo.so" == "/g/foo.so"
  {
    assert ASSET.edges("/a/main.rb")[0] == Edge(Require, "foo.so");
  }

  lemma AssetShape()
    ensures ASSET.files == {"/a/main.rb", "/g/foo", "/g/foo.so"} && ASSET.loadPath == ["/a"] + ["/g"]
    ensures forall name, base :: ASSET.expand(name, base) == base + "/" + name
  {
  }

  lemma AssetOwnDirs()
    ensures OwnDirs(ASSET) <= ASSET.loadPath && ASSET.gemSpecs == {} && ASSET.gemPaths == [("/g", "foo")]
  {
    assert OwnDirs(ASSET) == ["/a", "/g"];
  }

  lemma AssetExtensions()
    ensures forall f :: ASSET.extname(f) == ".so" || ASSET.extname(f) == ".bundle" ==> Compiled(f)
  {
    assert "/g/foo.so"[|"/g/foo.so"| - 3..] == ".so";
    assert Compiled("/g/foo.so");
    assert ".rb"[1] != ".so"[1] && |".so"| != |".bundle"| && |".rb"| != |".bundle"|;
    hide Compiled;
  }

  lemma BelowGem(f: Path)
    requires Under(f, "/g")
    ensures f == "/g" + "/" + f[3..]
  {
  }

  lemma AssetLaidOut()
    ensures LaidOut(ASSET)
  {
    AssetShape();
    AssetOwnDirs();
    AssetExtensions();
    hide ASSET, Under, Compiled, OwnDirs, GemOf;
    forall f
      ensures Normal(ASSET, f)
    {
      if Under(f, "/g") { BelowGem(f); }
    }
  }

  lemma AssetTreated()
    ensures Treat(ASSET, "/g/foo") == Leave && Treat(ASSET, "/g/foo.so") == Extract
    ensures CanonicalName(ASSET, "/g/foo.so") == Some("foo")
  {
    assert "/g" + "/" == "/g/" && "/g/" <= "/g/foo" && "/g/" <= "/g/foo.so";
    assert "/g/foo.so"[3..] == "foo.so" && "foo.so"[3..] == ".so" && "foo.so"[..3] == "foo";
  }

  /** In the root the only file is the entry. */
  lemma NotInRoot(name: string)
    requires name != "main.rb"
    ensures "/a" + "/" + name !in ASSET.files
  {
    AssetShape();
    hide ASSET;
    var path := "/a" + "/" + name;
    assert path[1] == 'a' && path[3..] == name;
    assert "/a/main.rb"[3..] == "main.rb";
  }

  lemma AssetResolves(ident: string)
    requires ident == "foo" || ident == "foo.so"
    ensures ResolveRequire(ASSET, ident) == Some("/g/" + ident)
  {
    AssetShape();
    AssetEdge();
    var p := ASSET;
    hide ASSET;
    var root, gem := Candidates(p, ident, ["/a"]), Candidates(p, ident, ["/g"]);
    CandidatesAppend(p, ident, ["/a"], ["/g"]);
    FirstFileAppend(p, root, gem);
    forall c | c in root
      ensures c !in p.files
    {
      RootCandidates(ident, c);
    }
    assert "/g" + "/" + ident == "/g/" + ident;
    assert gem[0] == "/g/" + ident && gem[0] in p.files;
    hide Candidates;
  }

  lemma RootCandidates(ident: string, c: Path)
    requires (ident == "foo" || ident == "foo.so") && c in Candidates(ASSET, ident, ["/a"])
    ensures c !in ASSET.files
  {
    AssetShape();
    hide ASSET;
    assert ["/a"][1..] == [];
    NotInRoot(ident);
    NotInRoot(ident + ".rb");
    NotInRoot(ident + ".so");
    NotInRoot(ident + ".bundle");
  }

  /** A project with a file called .rb in lib, which the entry requires by the
      name of the directory and a slash: expansion drops the slash. */
  const DOT_FILE: Project := Project(
    {"/a/main.rb", "/a/lib/.rb"},
    (name, base) => if name == "lib/" then "/a/lib" else base + "/" + name,
    file => "/a",
    file => "",
    file => if file == "/a/main.rb" then [Edge(RequireRelative, "lib/")] else [],
    ["/a"], [], {}, gem => [], "/a")

  lemma DotFileShape()
    ensures DOT_FILE.expand("lib/", "/a") == "/a/lib" && DOT_FILE.expand("lib/.rb", "/a") == "/a/lib/.rb"
    ensures DOT_FILE.files == {"/a/main.rb", "/a/lib/.rb"} && DOT_FILE.dirname("/a/main.rb") == "/a"
    ensures Edge(RequireRelative, "lib/") in DOT_FILE.edges("/a/main.rb")
    ensures Treat(DOT_FILE, "/a/lib/.rb") == Embed
  {
    assert "/a" + "/" + "lib/.rb" == "/a/lib/.rb";
    assert "lib/.rb" != "lib/" by { assert |"lib/.rb"| != |"lib/"|; }
    assert DOT_FILE.edges("/a/main.rb")[0] == Edge(RequireRelative, "lib/");
    assert "/a" + "/" == "/a/" <= "/a/lib/.rb";
  }

  /** The analysis finds and embeds it, the replacement require_relative does not. */
  lemma DotFileMissed(b: Build, native: seq<Path>, index: map<string, Path>)
    requires IsBundle(DOT_FILE, "/a/main.rb", b, native, index)
    ensures ResolveRelative(DOT_FILE, "lib/", "/a/main.rb") == Some("/a/lib/.rb") && "/a/lib/.rb" in b.files
    ensures RuntimeRelative(DOT_FILE, b.files, "lib/", "/a/main.rb").None?
  {
    var p, e := DOT_FILE, Edge(RequireRelative, "lib/");
    DotFileShape();
    hide DOT_FILE, Treat, Reachable;
    assert "lib/" + ".rb" == "lib/.rb" && "/a/lib" + ".rb" == "/a/lib.rb";
    assert |"/a/lib"| == 6 && |"/a/lib.rb"| == 9 && |"/a/main.rb"| == 10 && |"/a/lib/.rb"| == 10;
    assert ["/a/lib", "/a/lib/.rb"][1..] == ["/a/lib/.rb"];
    assert FirstFile(p, ["/a/lib", "/a/lib/.rb"]) == Some("/a/lib/.rb");
    assert Known(b, "/a/main.rb");
    var k :| 0 <= k < |p.edges("/a/main.rb")| && p.edges("/a/main.rb")[k] == e;
    assert EdgeDone(p, b, "/a/main.rb", p.edges("/a/main.rb")[k]);
    assert Known(b, "/a/lib/.rb");
    assert forall f :: f in b.files ==> Known(b, f);
  }
}
