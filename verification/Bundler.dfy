/** The breadth-first collection of build.rb and the index it leaves. */
module Bundler {
  import opened Wrappers
  import opened BundleSpec

  /** The script's variables. */
  datatype Build = Build(
    files: set<Path>,
    queue: seq<Path>,
    index: map<string, Path>,
    native: seq<Path>,
    nativeGems: seq<string>,
    autoloads: map<Path, seq<Path>>)

  ghost predicate Known(b: Build, f: Path) {
    f in b.files || f in b.queue
  }

  /** An edge of a file already dealt with. */
  ghost predicate EdgeDone(p: Project, b: Build, f: Path, e: Edge) {
    var r := Resolve(p, e, f);
    r.Some? ==>
      var t := Treat(p, r.value);
      && (t == Embed ==> Known(b, r.value))
      && (t == Extract ==> r.value in b.native)
      && (t != Leave && !e.kind.RequireRelative? ==> e.ident in b.index && b.index[e.ident] == r.value)
      && (t == Embed && e.kind.Autoload? ==> f in b.autoloads && r.value in b.autoloads[f])
      && (t != Leave ==> GemKnown(p, b, r.value))
  }

  /** The gem of a path, if it has one, is among the reached gems. */
  predicate GemKnown(p: Project, b: Build, t: Path) {
    var origin := OriginOf(p, t);
    origin.Gem? ==> origin.name in b.nativeGems
  }

  ghost predicate EdgesDone(p: Project, b: Build, f: Path, n: nat)
    requires n <= |p.edges(f)|
  {
    forall k :: 0 <= k < n ==> EdgeDone(p, b, f, p.edges(f)[k])
  }

  ghost predicate Resolved(p: Project, f: Path) {
    exists e, file :: Resolve(p, e, file) == Some(f)
  }

  /** One of the files requires or autoloads the name. */
  ghost predicate Asked(p: Project, files: set<Path>, ident: string) {
    exists f, e :: f in files && e in p.edges(f) && !e.kind.RequireRelative? && e.ident == ident
  }

  ghost predicate IndexSound(p: Project, b: Build) {
    forall id :: id in b.index ==>
      && Asked(p, b.files, id) && ResolveRequire(p, id) == Some(b.index[id])
      && Treat(p, b.index[id]) != Leave
      && (if Treat(p, b.index[id]) == Embed then Known(b, b.index[id]) else b.index[id] in b.native)
  }

  /** A static require of one of the files draws t into the bundle. */
  ghost predicate Draws(p: Project, files: set<Path>, t: Path) {
    exists f, e :: f in files && e in p.edges(f) && Resolve(p, e, f) == Some(t) && Treat(p, t) != Leave
  }

  ghost predicate DrawsGem(p: Project, files: set<Path>, name: string) {
    exists t :: Draws(p, files, t) && OriginOf(p, t) == Gem(name)
  }

  /** Nothing is carried as bytes, and no gem counted as reached, without a
      static require for it. */
  ghost predicate NativesSound(p: Project, b: Build) {
    && (forall t :: t in b.native ==> Draws(p, b.files, t))
    && (forall n :: n in b.nativeGems ==> DrawsGem(p, b.files, n))
  }

  ghost predicate Sound(p: Project, b: Build, entry: Path) {
    && Known(b, entry)
    && (forall f :: Known(b, f) ==> f in p.files && Reachable(p, entry, f))
    && IndexSound(p, b)
    && (forall f :: f in b.native ==> f in p.files && Treat(p, f) == Extract && Resolved(p, f))
    && NativesSound(p, b)
    && (forall f :: f in b.autoloads ==> f in b.files && forall t :: t in b.autoloads[f] ==> Known(b, t))
  }

  /** b' knows at least what b knows. */
  ghost predicate Extends(b: Build, b': Build) {
    && (forall f :: Known(b, f) ==> Known(b', f))
    && (forall t :: t in b.native ==> t in b'.native)
    && (forall n :: n in b.nativeGems ==> n in b'.nativeGems)
    && (forall id :: id in b.index ==> id in b'.index && b'.index[id] == b.index[id])
    && (forall f :: f in b.autoloads ==> f in b'.autoloads && forall t :: t in b.autoloads[f] ==> t in b'.autoloads[f])
  }

  lemma DoneStays(p: Project, b: Build, b': Build, f: Path, n: nat)
    requires n <= |p.edges(f)| && EdgesDone(p, b, f, n) && Extends(b, b')
    ensures EdgesDone(p, b', f, n)
  {
    hide Resolve, Treat, OriginOf;
  }

  lemma QueueSound(p: Project, b: Build, entry: Path, t: Path)
    requires Sound(p, b, entry) && t in p.files && Reachable(p, entry, t)
    ensures
      var r := if t in b.files then b else b.(queue := b.queue + [t]);
      Sound(p, r, entry) && Extends(b, r) && Known(r, t)
  {
    hide Reachable, ResolveRequire, Treat, Resolved, Draws, DrawsGem, Asked;
  }

  lemma NativeSound(p: Project, b: Build, entry: Path, t: Path)
    requires Sound(p, b, entry) && t in p.files && Treat(p, t) == Extract && Resolved(p, t) && Draws(p, b.files, t)
    ensures
      var r := if t in b.native then b else b.(native := b.native + [t]);
      Sound(p, r, entry) && Extends(b, r) && t in r.native
  {
    hide Reachable, ResolveRequire, Treat, Resolved, Draws, DrawsGem, Asked;
  }

  lemma IndexSet(p: Project, b: Build, entry: Path, ident: string, t: Path)
    requires Sound(p, b, entry) && Asked(p, b.files, ident)
    requires ResolveRequire(p, ident) == Some(t) && Treat(p, t) != Leave
    requires if Treat(p, t) == Embed then Known(b, t) else t in b.native
    ensures var r := b.(index := b.index[ident := t]); Sound(p, r, entry) && Extends(b, r)
  {
    hide Reachable, ResolveRequire, Treat, Resolved, Asked, Draws, DrawsGem;
    var r := b.(index := b.index[ident := t]);
    assert forall f :: Known(r, f) == Known(b, f);
  }

  lemma GemNoted(p: Project, b: Build, entry: Path, t: Path)
    requires Sound(p, b, entry) && Draws(p, b.files, t)
    ensures
      var r := b.(nativeGems := Reached(p, b.nativeGems, t));
      Sound(p, r, entry) && Extends(b, r) && GemKnown(p, r, t)
  {
    hide Reachable, ResolveRequire, Treat, Resolved, Draws, OriginOf;
    var r := b.(nativeGems := Reached(p, b.nativeGems, t));
    assert forall f :: Known(r, f) == Known(b, f);
    assert forall n :: n in r.nativeGems ==> n in b.nativeGems || OriginOf(p, t) == Gem(n);
  }

  function TargetsIn(b: Build, f: Path): seq<Path> {
    if f in b.autoloads then b.autoloads[f] else []
  }

  /** The files an edge has preloaded before its file. */
  function Preloaded(p: Project, f: Path, e: Edge): seq<Path> {
    var r := Resolve(p, e, f);
    if e.kind.Autoload? && r.Some? && Treat(p, r.value) == Embed then [r.value] else []
  }

  /** Those of the first n edges of a file, in order. */
  function AutoloadTargets(p: Project, f: Path, n: nat): seq<Path>
    requires n <= |p.edges(f)|
  {
    if n == 0 then [] else AutoloadTargets(p, f, n - 1) + Preloaded(p, f, p.edges(f)[n - 1])
  }

  /** The autoloads of all other files are unchanged. */
  ghost predicate OnlyAutoloadsOf(b: Build, b': Build, file: Path) {
    forall f :: f != file ==> TargetsIn(b', f) == TargetsIn(b, f)
  }

  function AutoloadAdded(b: Build, file: Path, t: Path): Build {
    b.(autoloads := b.autoloads[file := (if file in b.autoloads then b.autoloads[file] else []) + [t]])
  }

  lemma AutoloadSound(p: Project, b: Build, entry: Path, file: Path, t: Path)
    requires Sound(p, b, entry) && file in b.files && Known(b, t)
    ensures
      var r := AutoloadAdded(b, file, t);
      Sound(p, r, entry) && Extends(b, r) && file in r.autoloads && t in r.autoloads[file]
  {
    hide Reachable, ResolveRequire, Treat, Resolved, Asked, Draws, DrawsGem;
    var r := AutoloadAdded(b, file, t);
    assert forall f :: Known(r, f) == Known(b, f);
    assert r.autoloads[file][|r.autoloads[file]| - 1] == t;
  }

  /** The reached gems with that of t, in order of first reach. */
  function Reached(p: Project, gems: seq<string>, t: Path): seq<string> {
    match OriginOf(p, t)
    case Gem(name) => if name in gems then gems else gems + [name]
    case _ => gems
  }

  /** One iteration of the inner loop. */
  method AddEdge(p: Project, b: Build, file: Path, e: Edge, ghost entry: Path) returns (r: Build)
    requires Sound(p, b, entry) && file in b.files && e in p.edges(file)
    ensures Sound(p, r, entry) && Extends(b, r) && EdgeDone(p, r, file, e) && r.files == b.files
    ensures TargetsIn(r, file) == TargetsIn(b, file) + Preloaded(p, file, e) && OnlyAutoloadsOf(b, r, file)
  {
    hide Reachable, Sound, Resolve, Treat, Known, OriginOf, Extends;
    r := b;
    var resolved := Resolve(p, e, file);
    ExtendsItself(b);
    if resolved.None? {
      return;
    }
    var t := resolved.value;
    RequireResolved(p, e, file);
    match Treat(p, t) {
      case Leave =>
      case Extract =>
        assert Draws(p, b.files, t);
        NativeSound(p, b, entry, t);
        if t !in r.native { r := r.(native := r.native + [t]); }
        ghost var r1 := r;
        GemNoted(p, r1, entry, t);
        r := r.(nativeGems := Reached(p, r.nativeGems, t));
        ExtendsTransitive(b, r1, r);
        if !e.kind.RequireRelative? {
          assert Asked(p, r.files, e.ident);
          IndexSet(p, r, entry, e.ident, t);
          ghost var r2 := r;
          r := r.(index := r.index[e.ident := t]);
          ExtendsTransitive(b, r2, r);
        }
      case Embed =>
        assert Leads(p, file, t);
        r := EmbedTarget(p, b, file, e, t, entry);
    }
  }

  lemma RequireResolved(p: Project, e: Edge, file: Path)
    ensures !e.kind.RequireRelative? ==> ResolveRequire(p, e.ident) == Resolve(p, e, file)
  {
  }

  lemma ExtendsItself(b: Build)
    ensures Extends(b, b)
  {
  }

  /** The branch that embeds a Ruby file. */
  method EmbedTarget(p: Project, b: Build, file: Path, e: Edge, t: Path, ghost entry: Path) returns (r: Build)
    requires Sound(p, b, entry) && file in b.files
    requires e in p.edges(file) && Resolve(p, e, file) == Some(t) && Treat(p, t) == Embed && Leads(p, file, t)
    ensures Sound(p, r, entry) && Extends(b, r) && EdgeDone(p, r, file, e) && r.files == b.files
    ensures TargetsIn(r, file) == TargetsIn(b, file) + Preloaded(p, file, e) && OnlyAutoloadsOf(b, r, file)
  {
    hide Reachable, Sound, Resolve, Treat, OriginOf, Extends, Known, EdgeDone;
    SoundKnows(p, b, entry, file);
    ReachableStep(p, entry, file, t);
    RequireResolved(p, e, file);
    r := b.(nativeGems := Reached(p, b.nativeGems, t));
    ghost var q0 := r;
    assert Draws(p, b.files, t);
    GemNoted(p, b, entry, t);
    QueueSound(p, q0, entry, t);
    ghost var q1 := if t in b.files then q0 else q0.(queue := q0.queue + [t]);
    ExtendsTransitive(b, q0, q1);
    ghost var q2 := if e.kind.RequireRelative? then q1 else q1.(index := q1.index[e.ident := t]);
    if !e.kind.RequireRelative? { assert Asked(p, q1.files, e.ident); IndexSet(p, q1, entry, e.ident, t); } else { ExtendsItself(q1); }
    ExtendsTransitive(b, q1, q2);
    ghost var q3 := if e.kind.Autoload? then AutoloadAdded(q2, file, t) else q2;
    KnownStays(q1, q2, t);
    if e.kind.Autoload? { AutoloadSound(p, q2, entry, file, t); } else { ExtendsItself(q2); }
    ExtendsTransitive(b, q2, q3);
    KnownStays(q2, q3, t);

    if !e.kind.RequireRelative? { r := r.(index := r.index[e.ident := t]); }
    if e.kind.Autoload? {
      var targets := if file in r.autoloads then r.autoloads[file] else [];
      r := r.(autoloads := r.autoloads[file := targets + [t]]);
    }
    if t !in r.files { r := r.(queue := r.queue + [t]); }
    assert r == q3;
    EmbedDone(p, r, file, e, t);
  }

  lemma EmbedDone(p: Project, b: Build, file: Path, e: Edge, t: Path)
    requires Resolve(p, e, file) == Some(t) && Treat(p, t) == Embed && Known(b, t) && GemKnown(p, b, t)
    requires !e.kind.RequireRelative? ==> e.ident in b.index && b.index[e.ident] == t
    requires e.kind.Autoload? ==> t in TargetsIn(b, file)
    ensures EdgeDone(p, b, file, e)
  {
    hide Resolve, Treat, Known, GemKnown;
  }

  lemma KnownStays(b: Build, b': Build, t: Path)
    requires Extends(b, b') && Known(b, t)
    ensures Known(b', t)
  {
  }

  lemma SoundKnows(p: Project, b: Build, entry: Path, file: Path)
    requires Sound(p, b, entry) && file in b.files
    ensures Reachable(p, entry, file)
  {
    hide Reachable;
    assert Known(b, file);
  }

  /** The inner loop over the requires of one file. */
  method AddEdges(p: Project, b: Build, file: Path, ghost entry: Path) returns (r: Build)
    requires Sound(p, b, entry) && file in b.files
    ensures Sound(p, r, entry) && Extends(b, r) && r.files == b.files && EdgesDone(p, r, file, |p.edges(file)|)
    ensures TargetsIn(r, file) == TargetsIn(b, file) + AutoloadTargets(p, file, |p.edges(file)|)
    ensures OnlyAutoloadsOf(b, r, file)
  {
    hide Sound, Extends, EdgeDone, Preloaded, TargetsIn;
    r := b;
    ExtendsItself(b);
    var edges := p.edges(file);
    assert TargetsIn(b, file) + [] == TargetsIn(b, file);
    for k := 0 to |edges|
      invariant Sound(p, r, entry) && r.files == b.files && Extends(b, r) && EdgesDone(p, r, file, k)
      invariant TargetsIn(r, file) == TargetsIn(b, file) + AutoloadTargets(p, file, k) && OnlyAutoloadsOf(b, r, file)
    {
      ghost var before := r;
      r := AddEdge(p, r, file, edges[k], entry);
      DoneStays(p, before, r, file, k);
      ExtendsTransitive(b, before, r);
      NextTargets(p, file, k);
    }
  }

  /** The collection loop. Its files are exactly those reachable from the entry
      over embeddable edges. */
  method Collect(p: Project, entry: Path) returns (b: Build)
    requires entry in p.files
    ensures b.queue == [] && Sound(p, b, entry)
    ensures forall f :: f in b.files <==> Reachable(p, entry, f)
    ensures forall f :: f in b.files ==> EdgesDone(p, b, f, |p.edges(f)|)
    ensures AutoloadsExact(p, b)
  {
    hide Reachable, EdgesDone, IndexSound, NativesSound, Extends, AutoloadTargets, OnlyAutoloadsOf, Resolved;
    SoundStart(p, entry);
    b := Build({}, [entry], map[], [], [], map[]);
    while b.queue != []
      invariant Sound(p, b, entry)
      invariant forall f :: f in b.files ==> EdgesDone(p, b, f, |p.edges(f)|)
      invariant AutoloadsExact(p, b)
      decreases p.files - b.files, |b.queue|
    {
      var file := b.queue[0];
      ghost var b0 := b;
      assert Known(b, file);
      if file in b.files {
        b := b.(queue := b.queue[1..]);
        Moved(p, b0, b, entry);
        continue;
      }
      b := b.(queue := b.queue[1..], files := b.files + {file});
      Moved(p, b0, b, entry);
      ghost var b1 := b;
      b := AddEdges(p, b, file, entry);
      forall f | f in b0.files ensures EdgesDone(p, b, f, |p.edges(f)|) {
        DoneStays(p, b1, b, f, |p.edges(f)|);
      }
      OneMoreExact(p, b0, b1, b, file);
    }
    Closed(p, b);
    ClosedContainsReachable(p, b.files, entry);
  }

  /** The loader's autoload table holds, for each of these files, the targets
      of its autoloads in order, and nothing for any other. */
  ghost predicate AutoloadsExact(p: Project, b: Build) {
    && (forall f :: f in b.files ==> TargetsIn(b, f) == AutoloadTargets(p, f, |p.edges(f)|))
    && (forall f :: f !in b.files ==> TargetsIn(b, f) == [])
  }

  lemma OneMoreExact(p: Project, b0: Build, b1: Build, b2: Build, file: Path)
    requires AutoloadsExact(p, b0) && b1.autoloads == b0.autoloads
    requires file !in b0.files && b1.files == b0.files + {file} && b2.files == b1.files
    requires OnlyAutoloadsOf(b1, b2, file)
    requires TargetsIn(b2, file) == TargetsIn(b1, file) + AutoloadTargets(p, file, |p.edges(file)|)
    ensures AutoloadsExact(p, b2)
  {
    hide AutoloadTargets;
  }

  lemma NextTargets(p: Project, f: Path, k: nat)
    requires k < |p.edges(f)|
    ensures AutoloadTargets(p, f, k + 1) == AutoloadTargets(p, f, k) + Preloaded(p, f, p.edges(f)[k])
  {
  }

  lemma SoundStart(p: Project, entry: Path)
    requires entry in p.files
    ensures Sound(p, Build({}, [entry], map[], [], [], map[]), entry)
  {
    hide Reachable;
    ReachableEntry(p, entry);
  }

  /** Taking a file off the queue into the files loses nothing. */
  lemma Moved(p: Project, b: Build, b': Build, entry: Path)
    requires Sound(p, b, entry)
    requires b.queue != [] && b' == b.(queue := b.queue[1..], files := b.files + {b.queue[0]})
    ensures Extends(b, b') && Sound(p, b', entry)
    ensures forall f, n: nat :: n <= |p.edges(f)| && EdgesDone(p, b, f, n) ==> EdgesDone(p, b', f, n)
  {
    hide Reachable, ResolveRequire, Treat, Resolved;
    assert b.queue == [b.queue[0]] + b.queue[1..];
    assert forall f :: Known(b', f) == Known(b, f);
    forall f, n: nat | n <= |p.edges(f)| && EdgesDone(p, b, f, n) ensures EdgesDone(p, b', f, n) {
      DoneStays(p, b, b', f, n);
    }
  }

  lemma ExtendsTransitive(a: Build, b: Build, c: Build)
    requires Extends(a, b) && Extends(b, c)
    ensures Extends(a, c)
  {
  }

  lemma Closed(p: Project, b: Build)
    requires b.queue == [] && forall f :: f in b.files ==> EdgesDone(p, b, f, |p.edges(f)|)
    ensures ClosedUnderEdges(p, b.files)
  {
    forall f, g | f in b.files && Leads(p, f, g) ensures g in b.files {
      var e :| e in p.edges(f) && Resolve(p, e, f) == Some(g) && Treat(p, g) == Embed;
      var k :| 0 <= k < |p.edges(f)| && p.edges(f)[k] == e;
      assert EdgeDone(p, b, f, p.edges(f)[k]);
    }
  }
}
