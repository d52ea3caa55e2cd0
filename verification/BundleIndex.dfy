/** The pre-index of compiled files, and what the bundle's replacement require
    and require_relative look up at run time. */
module BundleIndex {
  import opened Wrappers
  import opened BundleSpec
  import opened Bundler

  function StripExtension(s: string): string {
    if |s| >= 3 && s[|s| - 3..] == ".so" then s[..|s| - 3]
    else if |s| >= 7 && s[|s| - 7..] == ".bundle" then s[..|s| - 7]
    else s
  }

  /** The name a compiled file is required by: its path below the first require
      path that holds it, without extension. */
  function CanonicalName(p: Project, abs: Path): Option<string> {
    var g := GemOf(abs, p.gemPaths);
    if g.Some? && |g.value.0| + 1 <= |abs| then Some(StripExtension(abs[|g.value.0| + 1..])) else None
  }

  function AllNatives(p: Project, gems: seq<string>): seq<Path> {
    if gems == [] then []
    else (if gems[0] in p.gemSpecs then p.gemNatives(gems[0]) else []) + AllNatives(p, gems[1..])
  }

  /** The compiled files of every reached gem join those the graph reached. */
  method CollectNatives(p: Project, b: Build) returns (native: seq<Path>)
    ensures forall f :: f in native <==> f in b.native || f in AllNatives(p, b.nativeGems)
  {
    native := b.native;
    for i := 0 to |b.nativeGems|
      invariant forall f :: f in native || f in AllNatives(p, b.nativeGems[i..]) <==>
                            f in b.native || f in AllNatives(p, b.nativeGems)
    {
      var name := b.nativeGems[i];
      assert b.nativeGems[i..][1..] == b.nativeGems[i + 1..];
      if name !in p.gemSpecs {
        continue;
      }
      var files := p.gemNatives(name);
      ghost var before := native;
      for j := 0 to |files|
        invariant forall f :: f in native <==> f in before || f in files[..j]
      {
        if files[j] !in native { native := native + [files[j]]; }
        assert files[..j + 1] == files[..j] + [files[j]];
      }
      assert files[..|files|] == files;
    }
  }

  /** Each compiled file is indexed by its canonical name unless the name is
      taken; no other entry changes. */
  method PreIndex(p: Project, b: Build, native: seq<Path>) returns (index: map<string, Path>)
    ensures forall id :: id in b.index ==> id in index && index[id] == b.index[id]
    ensures forall id :: id in index && id !in b.index ==> index[id] in native && CanonicalName(p, index[id]) == Some(id)
    ensures forall f :: f in native && CanonicalName(p, f).Some? ==> CanonicalName(p, f).value in index
  {
    hide CanonicalName;
    index := b.index;
    for i := 0 to |native|
      invariant forall id :: id in b.index ==> id in index && index[id] == b.index[id]
      invariant forall id :: id in index && id !in b.index ==> index[id] in native && CanonicalName(p, index[id]) == Some(id)
      invariant forall f :: f in native[..i] && CanonicalName(p, f).Some? ==> CanonicalName(p, f).value in index
    {
      var name := CanonicalName(p, native[i]);
      if name.Some? && name.value !in index {
        index := index[name.value := native[i]];
      }
    }
    assert native[..|native|] == native;
  }

  // ----- what the generated bundle holds -----

  /** The tables of the bundle built from entry: the loop has run, the natives
      are collected and the index completed. */
  ghost predicate IsBundle(p: Project, entry: Path, b: Build, native: seq<Path>, index: map<string, Path>) {
    && b.queue == [] && Sound(p, b, entry)
    && (forall f :: f in b.files ==> EdgesDone(p, b, f, |p.edges(f)|)) && AutoloadsExact(p, b)
    && (forall f :: f in native <==> f in b.native || f in AllNatives(p, b.nativeGems))
    && (forall id :: id in b.index ==> id in index && index[id] == b.index[id])
    && (forall id :: id in index && id !in b.index ==> index[id] in native && CanonicalName(p, index[id]) == Some(id))
    && (forall f :: f in native && CanonicalName(p, f).Some? ==> CanonicalName(p, f).value in index)
  }

  method BuildBundle(p: Project, entry: Path) returns (b: Build, native: seq<Path>, index: map<string, Path>)
    requires entry in p.files
    ensures IsBundle(p, entry, b, native, index)
    ensures forall f :: f in b.files <==> Reachable(p, entry, f)
  {
    b := Collect(p, entry);
    native := CollectNatives(p, b);
    index := PreIndex(p, b, native);
  }

  /** Every index value and every autoload target is in the bundle, so the
      loader finds code for it. */
  lemma BundleIsClosed(p: Project, entry: Path, b: Build, native: seq<Path>, index: map<string, Path>)
    requires IsBundle(p, entry, b, native, index)
    ensures forall id :: id in index ==> index[id] in b.files || index[id] in native
    ensures forall f :: f in b.autoloads ==> forall t :: t in b.autoloads[f] ==> t in b.files
  {
    hide Reachable, ResolveRequire, Treat;
    forall id | id in index ensures index[id] in b.files || index[id] in native {
      if id in b.index && index[id] !in b.files { assert !Known(b, index[id]); }
    }
    forall f, t | f in b.autoloads && t in b.autoloads[f] ensures t in b.files {
      assert Known(b, t);
    }
  }

  // ----- lookup at run time -----

  /** The replacement require: None where it delegates to the original. */
  function RuntimeRequire(index: map<string, Path>, ident: string): Option<Path> {
    if ident in index then Some(index[ident]) else None
  }

  /** The replacement require_relative in caller. */
  function RuntimeRelative(p: Project, code: set<Path>, ident: string, caller: Path): Option<Path> {
    var abs := p.expand(ident, p.dirname(caller));
    if abs in code then Some(abs) else if abs + ".rb" in code then Some(abs + ".rb") else None
  }

  /** A static require or autoload of a file the bundle carries finds, at run
      time, the file the analysis resolved it to. */
  lemma StaticRequireAgrees(p: Project, entry: Path, b: Build, native: seq<Path>, index: map<string, Path>, f: Path, e: Edge)
    requires IsBundle(p, entry, b, native, index)
    requires f in b.files && e in p.edges(f) && !e.kind.RequireRelative?
    ensures Resolve(p, e, f).Some? && Treat(p, Resolve(p, e, f).value) != Leave ==>
      RuntimeRequire(index, e.ident) == Resolve(p, e, f)
  {
    hide Reachable, Resolve, Treat, Sound;
    var k :| 0 <= k < |p.edges(f)| && p.edges(f)[k] == e;
    assert EdgeDone(p, b, f, p.edges(f)[k]);
  }

  /** A static require the bundle leaves to the interpreter is delegated exactly
      when no compiled file of the bundle has it as its canonical name. */
  lemma LeftRequireExactly(p: Project, entry: Path, b: Build, native: seq<Path>, index: map<string, Path>, ident: string)
    requires IsBundle(p, entry, b, native, index)
    requires ResolveRequire(p, ident).None? || Treat(p, ResolveRequire(p, ident).value) == Leave
    ensures RuntimeRequire(index, ident).None? <==> forall f :: f in native ==> CanonicalName(p, f) != Some(ident)
  {
    hide Reachable, ResolveRequire, Treat, CanonicalName;
    assert ident !in b.index;
  }

  /** A static require_relative of an embedded file finds it exactly when the
      name itself is a file, or expanding the name with its extension is the
      same as extending the expanded name. */
  lemma StaticRelativeAgreesExactly(p: Project, entry: Path, b: Build, native: seq<Path>, index: map<string, Path>,
                                    f: Path, ident: string)
    requires IsBundle(p, entry, b, native, index)
    requires f in b.files && Edge(RequireRelative, ident) in p.edges(f)
    requires ResolveRelative(p, ident, f).Some? && Treat(p, ResolveRelative(p, ident, f).value) == Embed
    ensures
      var base := p.dirname(f);
      RuntimeRelative(p, b.files, ident, f) == ResolveRelative(p, ident, f) <==>
      (p.expand(ident, base) in p.files || p.expand(ident + ".rb", base) == p.expand(ident, base) + ".rb")
  {
    hide Reachable, Treat;
    var e := Edge(RequireRelative, ident);
    var k :| 0 <= k < |p.edges(f)| && p.edges(f)[k] == e;
    assert EdgeDone(p, b, f, p.edges(f)[k]);
    var t := ResolveRelative(p, ident, f).value;
    assert Known(b, t) && t in b.files;
    assert forall g :: g in b.files ==> Known(b, g) && g in p.files;
    var c1, c2 := p.expand(ident, p.dirname(f)), p.expand(ident + ".rb", p.dirname(f));
    assert FirstFile(p, [c1, c2]) == if c1 in p.files then Some(c1) else if c2 in p.files then Some(c2) else None by {
      assert [c1, c2][1..] == [c2] && [c2][1..] == [];
    }
  }

  /** Every file the bundle embeds is its entry or is treated as embeddable. */
  lemma EmbeddedOrEntry(p: Project, entry: Path, f: Path)
    requires Reachable(p, entry, f)
    ensures f == entry || Treat(p, f) == Embed
  {
    hide Resolve, Treat;
    var chain :| IsChain(p, chain) && chain[0] == entry && chain[|chain| - 1] == f;
    if |chain| > 1 {
      assert Leads(p, chain[|chain| - 2], chain[|chain| - 2 + 1]);
    }
  }

  /** A compiled gem file reached by a static require_relative is carried, and
      unless it is the entry the replacement require_relative never finds it. */
  lemma StaticRelativeMissesCompiled(p: Project, entry: Path, b: Build, native: seq<Path>, index: map<string, Path>,
                                     f: Path, ident: string)
    requires IsBundle(p, entry, b, native, index)
    requires f in b.files && Edge(RequireRelative, ident) in p.edges(f)
    requires ResolveRelative(p, ident, f).Some? && Treat(p, ResolveRelative(p, ident, f).value) == Extract
    ensures
      var t := ResolveRelative(p, ident, f).value;
      t in native && (t != entry ==> RuntimeRelative(p, b.files, ident, f) != Some(t))
  {
    hide Reachable, Treat, ResolveRelative, NativesSound, IndexSound, AutoloadTargets, OriginOf;
    var e := Edge(RequireRelative, ident);
    var k :| 0 <= k < |p.edges(f)| && p.edges(f)[k] == e;
    assert EdgeDone(p, b, f, p.edges(f)[k]);
    var t := ResolveRelative(p, ident, f).value;
    assert Resolve(p, e, f) == Some(t);
    if t in b.files {
      assert Known(b, t);
      EmbeddedOrEntry(p, entry, t);
    }
  }
}
