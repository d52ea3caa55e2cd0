/** The codec of src/base64.rs: the same encoder, and a decoder that takes the
    text block by block and indexes it directly. Text is the UTF-8 bytes the
    decoder works on after its lossy conversion. */
module WireBase64 {
  import opened Words
  import opened Wrappers
  import opened Base64Spec
  import Base64

  method B64Encode(data: seq<byte>) returns (out: seq<byte>)
    ensures out == Encoded(data, false)
  {
    out := Base64.EncodeRaw(data, false);
  }

  /** The loop takes a group when its first two characters are in the alphabet. */
  predicate Enters(s: seq<byte>) {
    |s| >= 2 && Value(s[0]).Some? && Value(s[1]).Some?
  }

  /** The bytes of the group at the front; None where it indexes past the end. */
  function Block(s: seq<byte>): Option<seq<byte>>
    requires Enters(s)
  {
    var first := First(Value(s[0]).value, Value(s[1]).value);
    if |s| == 2 then None
    else if Value(s[2]).None? then Some([first])
    else if |s| == 3 then None
    else
      var second := Second(Value(s[1]).value, Value(s[2]).value);
      if Value(s[3]).None? then Some([first, second])
      else Some([first, second, Third(Value(s[2]).value, Value(s[3]).value)])
  }

  /** What the decoder returns; None where it indexes past the end. */
  function Blocks(s: seq<byte>): Option<seq<byte>>
    decreases |s|
  {
    if !Enters(s) then Some([])
    else match Block(s)
      case None => None
      case Some(block) => After(block, Blocks(if |s| >= 4 then s[4..] else []))
  }

  function After(front: seq<byte>, r: Option<seq<byte>>): Option<seq<byte>> {
    match r case None => None case Some(rest) => Some(front + rest)
  }

  lemma AfterAfter(a: seq<byte>, b: seq<byte>, r: Option<seq<byte>>)
    ensures After([], r) == r && After(a, After(b, r)) == After(a + b, r)
  {
    if r.Some? { assert [] + r.value == r.value && a + (b + r.value) == a + b + r.value; }
  }

  method B64Decode(bytes: seq<byte>) returns (r: Option<seq<byte>>)
    ensures r == Blocks(bytes)
  {
    hide Value, First, Second, Third;
    ValueIsSymbol(PAD);
    var table := Base64.DecodeTable();
    var out: seq<byte> := [];
    var i := 0;
    ghost var goal := Blocks(bytes);
    assert bytes[0..] == bytes;
    AfterAfter([], [], goal);
    while i + 1 < |bytes|
      modifies {}
      invariant 0 <= i && goal == After(out, Blocks(if i <= |bytes| then bytes[i..] else []))
    {
      ghost var rest := bytes[i..];
      assert |rest| >= 4 ==> rest[4..] == bytes[i + 4..];
      ghost var done := out;
      var c0 := table[bytes[i]];
      var c1 := table[bytes[i + 1]];
      if c0 < 0 || c1 < 0 {
        break;
      }
      out := out + [First(c0, c1)];
      if i + 2 >= |bytes| {
        return None;
      }
      var c2 := if bytes[i + 2] == PAD then -1 else table[bytes[i + 2]];
      if c2 >= 0 {
        out := out + [Second(c1, c2)];
        if i + 3 >= |bytes| {
          return None;
        }
        var c3 := if bytes[i + 3] == PAD then -1 else table[bytes[i + 3]];
        if c3 >= 0 {
          out := out + [Third(c2, c3)];
        }
      }
      assert Enters(rest) && out == done + Block(rest).value;
      AfterAfter(done, Block(rest).value, Blocks(if |rest| >= 4 then rest[4..] else []));
      i := i + 4;
    }
    r := Some(out);
    NoBlocks(out);
  }

  lemma EmptyText(s: seq<byte>)
    requires s == []
    ensures Blocks(s) == Some([])
  {
  }

  lemma NoBlocks(out: seq<byte>)
    ensures After(out, Some([])) == Some(out)
  {
    assert out + [] == out;
  }

  /** Every whole group starts with two alphabet characters, and so does an
      incomplete one after them that then needs a character the text lacks. */
  predicate RunsPastEnd(s: seq<byte>) {
    var tail := s[|s| / 4 * 4..];
    && (forall g :: 0 <= g < |s| / 4 ==> Enters(s[4 * g..]))
    && Enters(tail) && (|tail| == 2 || Value(tail[2]).Some?)
  }

  lemma RunsPastEndStep(s: seq<byte>)
    requires |s| >= 4
    ensures RunsPastEnd(s) <==> Enters(s) && RunsPastEnd(s[4..])
  {
    hide Enters;
    var rest := s[4..];
    assert rest[|rest| / 4 * 4..] == s[|s| / 4 * 4..];
    assert s[4 * 0..] == s;
    forall g | 0 < g < |s| / 4
      ensures Enters(s[4 * g..]) == Enters(rest[4 * (g - 1)..])
    {
      assert s[4 * g..] == rest[4 * (g - 1)..];
    }
    forall g | 0 <= g < |rest| / 4
      ensures Enters(rest[4 * g..]) == Enters(s[4 * (g + 1)..])
    {
      assert rest[4 * g..] == s[4 * (g + 1)..];
    }
  }

  /** Exactly when the decoder would index out of range. */
  lemma {:induction false} OutOfRangeExactly(s: seq<byte>)
    ensures Blocks(s).None? <==> RunsPastEnd(s)
    decreases |s|
  {
    hide Value, First, Second, Third;
    if |s| >= 4 {
      RunsPastEndStep(s);
      hide RunsPastEnd;
      OutOfRangeExactly(s[4..]);
    } else {
      assert s[0..] == s;
    }
  }

  /** A field of two characters is indexed past its end. */
  lemma ShortFieldRunsPastEnd()
    ensures Blocks([65, 65]).None?
  {
  }

  lemma FirstBlock(s: seq<byte>, d: seq<sextet>)
    requires |s| >= 4 && 2 <= |d| <= 4
    requires forall k :: 0 <= k < |d| ==> Value(s[k]) == Some(d[k])
    requires |d| < 4 ==> Value(s[|d|]).None?
    ensures Enters(s) && Block(s).Some? && Block(s).value == Bytes(d)
  {
    hide Value, First, Second, Third;
    Base64.BytesOfGroup(d);
  }

  /** Strict text of two groups or more is a full group and strict text. */
  lemma StrictRest(s: seq<byte>, v: seq<sextet>)
    requires IsStrict(s) && |s| >= 8 && v == Base64.DigitsOf(s, Leading(s))
    ensures IsStrict(s[4..]) && |v| >= 4 && Strict(s) == After(Bytes(v[..4]), Strict(s[4..]))
  {
    hide Value, First, Second, Third, Values, Bytes, Leading, Strict;
    var n, rest := Leading(s), s[4..];
    StrictFront(s);
    Base64.StrictIsAccepted(s, n);
    Base64.StrictIsAccepted(rest, n - 4);
    assert v[4..] == Base64.DigitsOf(rest, n - 4);
    Base64.BytesOfTail(v[..4], v[4..]);
    assert v == v[..4] + v[4..];
  }

  lemma StrictFront(s: seq<byte>)
    requires IsStrict(s) && |s| >= 8
    ensures Leading(s) >= 4 && Leading(s[4..]) == Leading(s) - 4 && IsStrict(s[4..])
  {
    hide Value, Leading;
    ValueIsSymbol(PAD);
    LeadingIs(s[4..], Leading(s) - 4);
  }

  /** On strict text the block decoder reads what the strict decoder reads. */
  lemma {:induction false} BlocksOfStrict(s: seq<byte>)
    requires IsStrict(s)
    ensures Blocks(s) == Strict(s)
    decreases |s|
  {
    hide Value, First, Second, Third, Values, Bytes, Block, Enters, Leading, Strict;
    ValueIsSymbol(PAD);
    var n := Leading(s);
    Base64.StrictIsAccepted(s, n);
    var v := Base64.DigitsOf(s, n);
    if |s| >= 8 {
      var rest := s[4..];
      StrictRest(s, v);
      BlocksOfStrict(rest);
      FirstBlock(s, v[..4]);
    } else if |s| == 4 {
      FirstBlock(s, v);
      EmptyText(s[4..]);
      assert Bytes(v) == Bytes(v) + [];
    } else {
      EmptyText(s);
      assert v == [];
      Base64.NoBytes();
    }
  }

  /** The daemon's decoder undoes the client's encoder, in range throughout. */
  lemma WireRoundTrip(data: seq<byte>)
    ensures Blocks(Encoded(data, false)) == Some(data)
  {
    hide Blocks, Encoded, IsStrict;
    StrictDecodesEncoded(data);
    BlocksOfStrict(Encoded(data, false));
  }
}
