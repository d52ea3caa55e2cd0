/** The bundle's own decoder in build.rb: a bit buffer masked to 30 bits. */
module BundleBase64 {
  import opened Words
  import opened Wrappers
  import opened Base64Spec

  predicate Skipped(b: byte) { b == PAD || b == NEWLINE }

  /** Every character is in the alphabet, padding or a newline. */
  predicate Clean(s: seq<byte>) {
    forall i :: 0 <= i < |s| ==> Skipped(s[i]) || Value(s[i]).Some?
  }

  /** The number of bits waiting after n sextets. */
  function Pending(n: nat): nat {
    match n % 4 case 0 => 0 case 1 => 6 case 2 => 4 case _ => 2
  }

  function PowerOf2(n: nat): nat {
    match n case 0 => 1 case 2 => 4 case 4 => 16 case 6 => 64 case _ => 256
  }

  /** The waiting bits are the low bits of the last sextet. */
  ghost predicate Holds(buf: nat, bits: nat, v: seq<sextet>) {
    && bits == Pending(|v|)
    && (v != [] ==> buf % PowerOf2(bits) == v[|v| - 1] % PowerOf2(bits))
  }

  /** The mask drops only bits above the low 24 of the old buffer. */
  lemma MaskKeeps(buf: nat, x: sextet)
    ensures (buf * 64 + x) % 0x4000_0000 == buf % 0x100_0000 * 64 + x
  {
    var q := buf / 0x100_0000;
    var r := buf % 0x100_0000;
    assert buf * 64 + x == 0x4000_0000 * q + (r * 64 + x);
  }

  lemma DropMultiple64(a: nat, r: nat)
    ensures (64 * a + r) % 64 == r % 64
  {
  }

  lemma DropMultiple16(a: nat, r: nat)
    ensures (16 * a + r) % 16 == r % 16
  {
  }

  lemma DropMultiple4(a: nat, r: nat)
    ensures (4 * a + r) % 4 == r % 4
  {
  }

  lemma LowBitsKept(buf: nat)
    ensures var r := buf % 0x100_0000; r % 64 == buf % 64 && r % 16 == buf % 16 && r % 4 == buf % 4
  {
    var q := buf / 0x100_0000;
    var r := buf % 0x100_0000;
    DropMultiple64(0x4_0000 * q, r);
    DropMultiple16(0x10_0000 * q, r);
    DropMultiple4(0x40_0000 * q, r);
  }

  lemma DropMultiple256(a: nat, r: byte)
    ensures (256 * a + r) % 256 == r
  {
  }

  lemma TopByte6(r: nat, last: sextet, x: sextet)
    requires r % 64 == last
    ensures (r * 64 + x) / 16 % 0x100 == First(last, x)
  {
    assert (r * 64 + x) / 16 == 0x100 * (r / 64) + (last * 4 + x / 16);
    DropMultiple256(r / 64, last * 4 + x / 16);
  }

  lemma TopByte4(r: nat, last: sextet, x: sextet)
    requires r % 16 == last % 16
    ensures (r * 64 + x) / 4 % 0x100 == Second(last, x)
  {
    assert (r * 64 + x) / 4 == 0x100 * (r / 16) + (last % 16 * 16 + x / 4);
    DropMultiple256(r / 16, last % 16 * 16 + x / 4);
  }

  lemma TopByte2(r: nat, last: sextet, x: sextet)
    requires r % 4 == last % 4
    ensures (r * 64 + x) / 1 % 0x100 == Third(last, x)
  {
    assert r * 64 + x == 0x100 * (r / 4) + (last % 4 * 64 + x);
    DropMultiple256(r / 4, last % 4 * 64 + x);
  }

  lemma LowBitsOfSum(r: nat, x: sextet)
    ensures (r * 64 + x) % 64 == x && (r * 64 + x) % 16 == x % 16 && (r * 64 + x) % 4 == x % 4 && (r * 64 + x) % 1 == 0
  {
    DropMultiple64(r, x);
    DropMultiple16(4 * r, x);
    DropMultiple4(16 * r, x);
  }

  lemma HoldsNext(buf: nat, v: seq<sextet>, x: sextet)
    ensures Holds((buf * 64 + x) % 0x4000_0000, Pending(|v| + 1), v + [x])
  {
    MaskKeeps(buf, x);
    LowBitsOfSum(buf % 0x100_0000, x);
    assert (v + [x])[|v|] == x;
  }

  lemma CompletedByte(buf: nat, bits: nat, v: seq<sextet>, x: sextet)
    requires Holds(buf, bits, v) && bits >= 2
    ensures Completed(v, x) == [(buf * 64 + x) % 0x4000_0000 / PowerOf2(bits - 2) % 0x100]
  {
    hide First, Second, Third;
    var r := buf % 0x100_0000;
    MaskKeeps(buf, x);
    LowBitsKept(buf);
    match |v| % 4
    case 0 =>
    case 1 => TopByte6(r, v[|v| - 1], x);
    case 2 => TopByte4(r, v[|v| - 1], x);
    case _ => TopByte2(r, v[|v| - 1], x);
  }

  /** One more sextet: the shift, the mask and the byte taken off the top. The
      mask keeps every waiting bit. */
  lemma PushSextet(buf: nat, bits: nat, v: seq<sextet>, x: sextet)
    requires Holds(buf, bits, v)
    ensures
      var buf' := (buf * 64 + x) % 0x4000_0000;
      if bits + 6 >= 8 then
        && Holds(buf', bits - 2, v + [x])
        && Completed(v, x) == [buf' / PowerOf2(bits - 2) % 0x100]
      else Holds(buf', bits + 6, v + [x]) && Completed(v, x) == []
  {
    hide First, Second, Third, PowerOf2;
    HoldsNext(buf, v, x);
    if bits >= 2 {
      CompletedByte(buf, bits, v, x);
    }
  }

  /** None where the loader raises. */
  method B64Decode(s: seq<byte>) returns (r: Option<seq<byte>>)
    ensures r == if Clean(s) then Some(Bytes(Values(s))) else None
  {
    hide Value, Holds, Bytes, Values, Completed;
    ValueIsSymbol(PAD);
    var out: seq<byte> := [];
    var buf: nat, bits: nat := 0, 0;
    ghost var v: seq<sextet> := [];
    Start();
    for i := 0 to |s|
      invariant Clean(s[..i]) && v == Values(s[..i]) && out == Bytes(v) && Holds(buf, bits, v)
    {
      var c := s[i];
      assert s[..i + 1] == s[..i] + [c];
      ValuesAppend(s[..i], [c]);
      OneValue(c);
      if c == PAD || c == NEWLINE {
        continue;
      }
      var x := Value(c);
      if x.None? {
        return None;
      }
      PushSextet(buf, bits, v, x.value);
      BytesGrow(v, x.value);
      v := v + [x.value];
      buf := (buf * 64 + x.value) % 0x4000_0000;
      bits := bits + 6;
      if bits < 8 {
        continue;
      }
      bits := bits - 8;
      out := out + [buf / PowerOf2(bits) % 0x100];
    }
    assert s[..|s|] == s;
    r := Some(out);
  }

  lemma Start()
    ensures Values([]) == [] && Bytes([]) == [] && Holds(0, 0, [])
  {
  }

  lemma OneValue(c: byte)
    ensures Values([c]) == if Value(c).Some? then [Value(c).value] else []
  {
    hide Value;
    assert Values([c][1..]) == [];
  }

  /** On alphabet text with padding only at its end, the bit buffer, the
      filtered groups and (when it accepts) the strict groups agree. */
  lemma DecodersAgree(s: seq<byte>, n: nat)
    requires n <= |s|
    requires forall i :: 0 <= i < n ==> Value(s[i]).Some?
    requires forall i :: n <= i < |s| ==> s[i] == PAD
    ensures Clean(s) && Bytes(Values(s)) == Lenient(s)
    ensures Strict(s).Some? ==> Strict(s) == Some(Lenient(s))
  {
    hide Value, Bytes, Strict, Values;
    BeforePadOfStrict(s, n);
    assert s == s[..n] + s[n..];
    ValuesAppend(s[..n], s[n..]);
    NoValuesInPadding(s[n..]);
    assert Values(s) == Values(s[..n]);
    if Strict(s).Some? { StrictIsLenient(s); }
  }

  lemma {:induction false} NoValuesInPadding(s: seq<byte>)
    requires forall i :: 0 <= i < |s| ==> s[i] == PAD
    ensures Values(s) == []
  {
    if s != [] { NoValuesInPadding(s[1..]); }
  }

  /** The loader recovers the bytes of an embedded native file. */
  lemma BundleRoundTrip(data: seq<byte>)
    ensures
      var s := Encoded(data, false);
      Clean(s) && Bytes(Values(s)) == data
  {
    hide Value, Symbol, Bytes, Strict, Clean;
    StrictDecodesEncoded(data);
    var s := Encoded(data, false);
    StrictShape(s);
    DecodersAgree(s, Leading(s));
  }

  lemma StrictShape(s: seq<byte>)
    requires Strict(s).Some?
    ensures forall i :: Leading(s) <= i < |s| ==> s[i] == PAD
  {
  }
}
