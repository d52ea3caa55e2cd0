/** The flags of a run and their one-line form (commands/run.rs). */
module RunFlags {
  import opened Words
  import opened Wrappers
  import opened Text
  import Decimal

  const US: byte := 0x1f

  datatype Flags = Flags(loadPaths: seq<text>, required: seq<text>, verbose: Option<int>,
                         syntaxCheck: bool, encoding: Option<text>)

  const DEFAULT: Flags := Flags([], [], None, false, None)

  predicate Any(f: Flags): (any: bool)
    ensures any <==> f != DEFAULT
  {
    f.loadPaths != [] || f.required != [] || f.verbose.Some? || f.syntaxCheck || f.encoding.Some?
  }

  // ----- writing -----

  function Tag(c: byte): text { [c, 58] }

  function Tagged(c: byte, values: seq<text>): (parts: seq<text>)
    ensures |parts| == |values| && forall i :: 0 <= i < |values| ==> parts[i] == Tag(c) + values[i]
  {
    seq(|values|, i requires 0 <= i < |values| => Tag(c) + values[i])
  }

  function FormatSigned(n: int): text {
    if n < 0 then [45] + Decimal.Digits(-n) else Decimal.Digits(n)
  }

  function VerbosePart(v: Option<int>): seq<text> {
    match v
    case None => []
    case Some(n) => if n == -1 then [[119]] else [Tag(87) + FormatSigned(n)]
  }

  function Tail(f: Flags): seq<text> {
    VerbosePart(f.verbose) + (if f.syntaxCheck then [[99]] else [])
    + match f.encoding case None => [] case Some(e) => [Tag(69) + e]
  }

  /** The segments of the one-line form, in order. */
  function Parts(f: Flags): seq<text> {
    Tagged(73, f.loadPaths) + Tagged(114, f.required) + Tail(f)
  }

  function BlobOf(f: Flags): text {
    Join(Parts(f), US)
  }

  method Blob(f: Flags) returns (blob: text)
    ensures blob == BlobOf(f)
  {
    hide Join, FormatSigned;
    var parts: seq<text> := [];
    for i := 0 to |f.loadPaths|
      invariant parts == Tagged(73, f.loadPaths)[..i]
    {
      parts := parts + [Tag(73) + f.loadPaths[i]];
    }
    assert parts == Tagged(73, f.loadPaths);
    ghost var front := parts;
    for i := 0 to |f.required|
      invariant parts == front + Tagged(114, f.required)[..i]
    {
      parts := parts + [Tag(114) + f.required[i]];
    }
    assert parts == front + Tagged(114, f.required);
    front := parts;
    match f.verbose {
      case None =>
      case Some(n) =>
        if n == -1 { parts := parts + [[119]]; } else { parts := parts + [Tag(87) + FormatSigned(n)]; }
    }
    if f.syntaxCheck { parts := parts + [[99]]; }
    if f.encoding.Some? { parts := parts + [Tag(69) + f.encoding.value]; }
    assert parts == front + Tail(f);
    assert parts == Parts(f);
    blob := Join(parts, US);
  }

  // ----- reading -----

  /** str::parse for i8. */
  function ParseI8(s: text): Option<int> {
    var negative := s != [] && s[0] == 45;
    var d := if negative || (s != [] && s[0] == 43) then s[1..] else s;
    if d == [] || !Decimal.AllDigits(d) then None
    else
      var n: int := if negative then -(Decimal.Value(d) as int) else Decimal.Value(d);
      if -128 <= n <= 127 then Some(n) else None
  }

  predicate HasTag(seg: text, c: byte) {
    |seg| >= 2 && seg[0] == c && seg[1] == 58
  }

  /** One segment; what is not recognised changes nothing. */
  function Apply(f: Flags, seg: text): Flags {
    if HasTag(seg, 73) then f.(loadPaths := f.loadPaths + [seg[2..]])
    else if HasTag(seg, 114) then f.(required := f.required + [seg[2..]])
    else if seg == [119] then f.(verbose := Some(-1))
    else if HasTag(seg, 87) then
      var n := ParseI8(seg[2..]);
      if n.Some? && 0 <= n.value <= 2 then f.(verbose := n) else f
    else if seg == [99] then f.(syntaxCheck := true)
    else if HasTag(seg, 69) then f.(encoding := Some(seg[2..]))
    else f
  }

  function ApplyAll(f: Flags, segs: seq<text>): Flags {
    if segs == [] then f else Apply(ApplyAll(f, segs[..|segs| - 1]), segs[|segs| - 1])
  }

  function Parsed(blob: text): Flags {
    ApplyAll(DEFAULT, Split(blob, US))
  }

  method Parse(blob: text) returns (f: Flags)
    ensures f == Parsed(blob)
  {
    f := DEFAULT;
    var segs := Split(blob, US);
    for i := 0 to |segs|
      invariant f == ApplyAll(DEFAULT, segs[..i])
    {
      var seg := segs[i];
      assert segs[..i + 1][..i] == segs[..i];
      if HasTag(seg, 73) {
        f := f.(loadPaths := f.loadPaths + [seg[2..]]);
      } else if HasTag(seg, 114) {
        f := f.(required := f.required + [seg[2..]]);
      } else if seg == [119] {
        f := f.(verbose := Some(-1));
      } else if HasTag(seg, 87) {
        var n := ParseI8(seg[2..]);
        if n.Some? && 0 <= n.value <= 2 {
          f := f.(verbose := n);
        }
      } else if seg == [99] {
        f := f.(syntaxCheck := true);
      } else if HasTag(seg, 69) {
        f := f.(encoding := Some(seg[2..]));
      }
    }
    assert segs[..|segs|] == segs;
  }

  /** A segment that means something. */
  predicate Recognised(seg: text) {
    || HasTag(seg, 73) || HasTag(seg, 114) || HasTag(seg, 69) || seg == [119] || seg == [99]
    || (HasTag(seg, 87) && var n := ParseI8(seg[2..]); n.Some? && 0 <= n.value <= 2)
  }

  lemma ApplyRecognised(f: Flags, seg: text)
    ensures if Recognised(seg) then Apply(f, seg) != DEFAULT else Apply(f, seg) == f
    ensures f != DEFAULT ==> Apply(f, seg) != DEFAULT
  {
    hide ParseI8;
    assert f.loadPaths + [seg] != [] && f.required + [seg] != [];
  }

  lemma {:induction false} AppliedDefaultExactly(segs: seq<text>)
    ensures ApplyAll(DEFAULT, segs) == DEFAULT <==> forall s :: s in segs ==> !Recognised(s)
    decreases |segs|
  {
    hide Apply, Recognised;
    if segs != [] {
      var most, last := segs[..|segs| - 1], segs[|segs| - 1];
      AppliedDefaultExactly(most);
      ApplyRecognised(ApplyAll(DEFAULT, most), last);
      assert segs == most + [last];
    }
  }

  /** A line stands for the default flags exactly when none of its segments
      means anything. */
  lemma ParsedDefaultExactly(blob: text)
    ensures Parsed(blob) == DEFAULT <==> forall s :: s in Split(blob, US) ==> !Recognised(s)
  {
    AppliedDefaultExactly(Split(blob, US));
  }

  // ----- the round trip -----

  predicate Without(values: seq<text>, b: byte) {
    forall v :: v in values ==> b !in v
  }

  /** Flags the one-line form can carry: no unit separator in any text, and a
      verbosity the command line can set. */
  predicate Carried(f: Flags) {
    && Without(f.loadPaths, US) && Without(f.required, US)
    && (f.encoding.Some? ==> US !in f.encoding.value)
    && (f.verbose.Some? ==> -1 <= f.verbose.value <= 2)
  }

  lemma {:induction false} ApplyAllSplit(f: Flags, a: seq<text>, b: seq<text>)
    ensures ApplyAll(f, a + b) == ApplyAll(ApplyAll(f, a), b)
    decreases |b|
  {
    hide Apply;
    if b == [] {
      assert a + b == a;
    } else {
      assert (a + b)[..|a + b| - 1] == a + b[..|b| - 1];
      ApplyAllSplit(f, a, b[..|b| - 1]);
    }
  }

  lemma ApplyTagged(f: Flags, v: text)
    ensures Apply(f, Tag(73) + v) == f.(loadPaths := f.loadPaths + [v])
    ensures Apply(f, Tag(114) + v) == f.(required := f.required + [v])
  {
    assert (Tag(73) + v)[2..] == v && (Tag(114) + v)[2..] == v;
  }

  lemma {:induction false} ApplyPaths(f: Flags, values: seq<text>)
    ensures ApplyAll(f, Tagged(73, values)) == f.(loadPaths := f.loadPaths + values)
    ensures ApplyAll(f, Tagged(114, values)) == f.(required := f.required + values)
    decreases |values|
  {
    hide Apply;
    if values == [] {
      assert f.loadPaths + [] == f.loadPaths && f.required + [] == f.required;
    } else {
      var k := |values| - 1;
      ApplyPaths(f, values[..k]);
      ApplyTagged(f.(loadPaths := f.loadPaths + values[..k]), values[k]);
      ApplyTagged(f.(required := f.required + values[..k]), values[k]);
      assert Tagged(73, values)[..k] == Tagged(73, values[..k]);
      assert Tagged(114, values)[..k] == Tagged(114, values[..k]);
      assert f.loadPaths + values[..k] + [values[k]] == f.loadPaths + values;
      assert f.required + values[..k] + [values[k]] == f.required + values;
    }
  }

  lemma SmallVerbosity(n: int)
    requires 0 <= n <= 2
    ensures (Tag(87) + FormatSigned(n))[2..] == FormatSigned(n) && ParseI8(FormatSigned(n)) == Some(n)
  {
    Decimal.ValueOfDigits(n);
    assert FormatSigned(n) == [48 + n];
  }

  lemma ApplyTail(f: Flags, g: Flags)
    requires g.verbose.None? && !g.syntaxCheck && g.encoding.None?
    requires f.verbose.Some? ==> -1 <= f.verbose.value <= 2
    ensures ApplyAll(g, Tail(f)) == g.(verbose := f.verbose, syntaxCheck := f.syntaxCheck, encoding := f.encoding)
  {
    hide FormatSigned, ParseI8;
    var v := VerbosePart(f.verbose);
    var c: seq<text> := if f.syntaxCheck then [[99]] else [];
    var e: seq<text> := match f.encoding case None => [] case Some(e) => [Tag(69) + e];
    ApplyAllSplit(g, v + c, e);
    ApplyAllSplit(g, v, c);
    if f.verbose.Some? {
      if f.verbose.value >= 0 { SmallVerbosity(f.verbose.value); }
      ApplyOne(g, v[0]);
    }
    var g1 := g.(verbose := f.verbose);
    ApplyOne(g1, [99]);
    var g2 := g1.(syntaxCheck := f.syntaxCheck);
    if f.encoding.Some? {
      ApplyOne(g2, e[0]);
      assert e[0][2..] == f.encoding.value;
    }
  }

  lemma ApplyOne(f: Flags, seg: text)
    ensures ApplyAll(f, [seg]) == Apply(f, seg)
  {
    assert [seg][..0] == [];
  }

  lemma ApplyParts(f: Flags)
    requires f.verbose.Some? ==> -1 <= f.verbose.value <= 2
    ensures ApplyAll(DEFAULT, Parts(f)) == f
  {
    hide Apply, Tagged, Tail, ApplyAll;
    var i, r := Tagged(73, f.loadPaths), Tagged(114, f.required);
    ApplyAllSplit(DEFAULT, i + r, Tail(f));
    ApplyAllSplit(DEFAULT, i, r);
    ApplyPaths(DEFAULT, f.loadPaths);
    assert [] + f.loadPaths == f.loadPaths && [] + f.required == f.required;
    var g := DEFAULT.(loadPaths := f.loadPaths);
    ApplyPaths(g, f.required);
    ApplyTail(f, g.(required := f.required));
  }

  /** Parsing undoes writing exactly for the flags the form can carry. */
  lemma BlobRoundTripExactly(f: Flags)
    ensures Parsed(BlobOf(f)) == f <==> Carried(f)
  {
    hide Apply, Parts, ApplyAll, Carried;
    ParsedIsCarried(BlobOf(f));
    if Carried(f) {
      CarriedVerbosity(f);
      ApplyParts(f);
      if Parts(f) == [] {
        NothingParsed();
        assert ApplyAll(DEFAULT, []) == DEFAULT by { NothingApplied(); }
      } else {
        PartsAvoid(f);
        SplitJoin(Parts(f), US);
      }
    }
  }

  /** A verbosity of 5, which the field can hold, is lost on the way. */
  lemma VerbosityLost()
    ensures
      var f := DEFAULT.(verbose := Some(5));
      !Carried(f) && BlobOf(f) == [87, 58, 53] && Parsed(BlobOf(f)) == DEFAULT
  {
    var f := Flags([], [], Some(5), false, None);
    var seg: text := [87, 58, 53];
    assert FormatSigned(5) == [53] && Tag(87) + [53] == seg;
    assert VerbosePart(f.verbose) == [seg];
    assert Tail(f) == [seg] + [] + [];
    assert |Tagged(73, [])| == 0 == |Tagged(114, [])|;
    assert Parts(f) == [seg];
    assert Until(seg[3..], US) == 0 && Until(seg[2..], US) == 1;
    assert Until(seg, US) == 3 && seg[..3] == seg;
    assert Split(seg, US) == [seg];
    assert seg[2..] == [53] && Decimal.Value([]) == 0 && [53][..0] == [];
    assert Decimal.Value([53]) == 5;
    assert !Recognised(seg);
    ParsedDefaultExactly(seg);
  }

  lemma CarriedVerbosity(f: Flags)
    requires Carried(f)
    ensures f.verbose.Some? ==> -1 <= f.verbose.value <= 2
  {
  }

  lemma NothingApplied()
    ensures ApplyAll(DEFAULT, []) == DEFAULT
  {
  }

  lemma NothingParsed()
    ensures Parsed([]) == DEFAULT && Join([], US) == []
  {
    ApplyOne(DEFAULT, []);
  }

  lemma PartsAvoid(f: Flags)
    requires Carried(f)
    ensures Without(Parts(f), US)
  {
    var i, r, t := Tagged(73, f.loadPaths), Tagged(114, f.required), Tail(f);
    forall p | p in i ensures US !in p { var k :| 0 <= k < |i| && i[k] == p; }
    forall p | p in r ensures US !in p { var k :| 0 <= k < |r| && r[k] == p; }
    if f.verbose.Some? && f.verbose.value >= 0 { assert Decimal.AllDigits(Decimal.Digits(f.verbose.value)); }
  }

  lemma {:induction false} AppliedIsCarried(f: Flags, segs: seq<text>)
    requires Carried(f) && Without(segs, US)
    ensures Carried(ApplyAll(f, segs))
    decreases |segs|
  {
    if segs != [] {
      hide Apply;
      AppliedIsCarried(f, segs[..|segs| - 1]);
      AppliedOne(ApplyAll(f, segs[..|segs| - 1]), segs[|segs| - 1]);
    }
  }

  lemma AppliedOne(f: Flags, seg: text)
    requires Carried(f) && US !in seg
    ensures Carried(Apply(f, seg))
  {
  }

  /** Whatever is parsed is something the form can carry. */
  lemma ParsedIsCarried(blob: text)
    ensures Carried(Parsed(blob))
  {
    AppliedIsCarried(DEFAULT, Split(blob, US));
  }
}
