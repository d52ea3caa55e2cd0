/** The Base64 encoders and decoders of calisto-native/src/base64.rs. */
module Base64 {
  import opened Words
  import opened Wrappers
  import opened Base64Spec

  // ----- encoding -----

  lemma NextField(n: nat, above: nat, field: sextet)
    requires n == 0x40 * above + field
    ensures n / 0x40 == above && n % 64 == field
  {
  }

  /** The four six-bit fields of three bytes packed into one number. */
  lemma Fields(a: byte, b: byte, c: byte)
    ensures
      var n := a * 0x1_0000 + b * 0x100 + c;
      && n / 0x4_0000 % 64 == Digit0(a)
      && n / 0x1000 % 64 == Digit1(a, b)
      && n / 0x40 % 64 == Digit2(b, c)
      && n % 64 == Digit3(c)
  {
    var n := a * 0x1_0000 + b * 0x100 + c;
    var n2 := a * 0x400 + b * 4 + c / 64;
    var n1 := a * 16 + b / 16;
    NextField(n, n2, c % 64);
    NextField(n2, n1, b % 16 * 4 + c / 64);
    NextField(n1, a / 4, a % 4 * 16 + b / 16);
    assert n / 0x1000 == n / 0x40 / 0x40;
    assert n / 0x4_0000 == n / 0x1000 / 0x40;
  }

  /** The four characters of the first group of at most three bytes. */
  function Group(data: seq<byte>, url: bool): seq<byte>
    requires data != []
  {
    var b1: byte := if |data| > 1 then data[1] else 0;
    var b2: byte := if |data| > 2 then data[2] else 0;
    var n := data[0] * 0x1_0000 + b1 * 0x100 + b2;
    [Symbol(n / 0x4_0000 % 64, url), Symbol(n / 0x1000 % 64, url),
     if |data| > 1 then Symbol(n / 0x40 % 64, url) else PAD, if |data| > 2 then Symbol(n % 64, url) else PAD]
  }

  /** The group of at most three bytes is their encoding. */
  lemma GroupIsEncoded(front: seq<byte>, url: bool)
    requires 1 <= |front| <= 3
    ensures Group(front, url) == Encoded(front, url)
  {
    Fields(front[0], if |front| > 1 then front[1] else 0, if |front| > 2 then front[2] else 0);
    hide Symbol, Digit0, Digit1, Digit2, Digit3;
    if |front| == 3 {
      assert Sextets(front[3..]) == [];
    }
  }

  lemma EncodedGroup(data: seq<byte>, url: bool)
    requires data != []
    ensures Encoded(data, url) == Group(data, url) + Encoded(data[if |data| > 3 then 3 else |data|..], url)
  {
    hide Symbol, Digit0, Digit1, Digit2, Digit3, Symbols, Pads;
    if |data| > 3 {
      var front, rest := data[..3], data[3..];
      GroupIsEncoded(front, url);
      assert PadCount(|data|) == PadCount(|rest|) by { assert |data| % 3 == (|data| - 3) % 3; }
      assert Group(data, url) == Group(front, url);
      hide Group;
      assert Sextets(front[3..]) == [];
      assert Sextets(data) == Sextets(front) + Sextets(rest);
      SymbolsAppend(Sextets(front), Sextets(rest), url);
      assert Encoded(front, url) == Symbols(Sextets(front), url);
    } else {
      hide Group;
      GroupIsEncoded(data, url);
      EncodedNothing(data[|data|..], url);
      assert Group(data, url) + [] == Group(data, url);
    }
  }

  lemma SymbolsAppend(v: seq<sextet>, w: seq<sextet>, url: bool)
    ensures Symbols(v + w, url) == Symbols(v, url) + Symbols(w, url)
  {
  }

  method EncodeRaw(data: seq<byte>, url: bool) returns (out: seq<byte>)
    ensures out == Encoded(data, url)
  {
    hide Symbol, Encoded;
    out := [];
    var i := 0;
    assert data[0..] == data;
    while i < |data|
      invariant 0 <= i <= |data|
      invariant Encoded(data, url) == out + Encoded(data[i..], url)
    {
      ghost var rest := data[i..];
      EncodedGroup(rest, url);
      var chunk := data[i..if i + 3 < |data| then i + 3 else |data|];
      assert data[i..][|chunk|..] == data[i + |chunk|..];
      var b1: byte := if |chunk| > 1 then chunk[1] else 0;
      var b2: byte := if |chunk| > 2 then chunk[2] else 0;
      var n := chunk[0] * 0x1_0000 + b1 * 0x100 + b2;
      ghost var done := out;
      out := out + [Symbol(n / 0x4_0000 % 64, url)];
      out := out + [Symbol(n / 0x1000 % 64, url)];
      out := out + [if |chunk| > 1 then Symbol(n / 0x40 % 64, url) else PAD];
      out := out + [if |chunk| > 2 then Symbol(n % 64, url) else PAD];
      assert out == done + Group(data[i..], url);
      i := i + |chunk|;
    }
    EncodedNothing(data[i..], url);
  }

  lemma EncodedNothing(data: seq<byte>, url: bool)
    requires data == []
    ensures Encoded(data, url) == []
  {
  }

  /** What encode64 makes of text: lines of 60 characters, each ended by a newline. */
  ghost predicate Wrapped(raw: seq<byte>, out: seq<byte>) {
    && (raw == [] ==> out == [])
    && (raw != [] ==> out != [] && out[|out| - 1] == NEWLINE)
    && (forall k {:trigger out[k]} :: 0 <= k < |out| - 1 ==> (out[k] == NEWLINE <==> k % 61 == 60))
    && WithoutNewlines(out) == raw
  }

  function WithoutNewlines(s: seq<byte>): seq<byte> {
    if s == [] then [] else (if s[0] == NEWLINE then [] else [s[0]]) + WithoutNewlines(s[1..])
  }

  lemma {:induction false} WithoutNewlinesGrows(s: seq<byte>, b: byte)
    ensures WithoutNewlines(s + [b]) == WithoutNewlines(s) + if b == NEWLINE then [] else [b]
  {
    if s != [] {
      assert (s + [b])[1..] == s[1..] + [b];
      WithoutNewlinesGrows(s[1..], b);
    } else {
      assert (s + [b])[1..] == [];
    }
  }

  method Wrap(raw: seq<byte>) returns (out: seq<byte>)
    requires forall i :: 0 <= i < |raw| ==> raw[i] != NEWLINE
    ensures Wrapped(raw, out)
  {
    hide WithoutNewlines;
    out := [];
    assert WithoutNewlines([]) == [] by { WithoutNewlinesEmpty(); }
    if raw == [] {
      return;
    }
    for i := 0 to |raw|
      invariant |out| == if i == 0 then 0 else i + (i - 1) / 60
      invariant forall k :: 0 <= k < |out| ==> (out[k] == NEWLINE <==> k % 61 == 60)
      invariant WithoutNewlines(out) == raw[..i]
    {
      if i > 0 && i % 60 == 0 {
        WithoutNewlinesGrows(out, NEWLINE);
        out := out + [NEWLINE];
      }
      WithoutNewlinesGrows(out, raw[i]);
      out := out + [raw[i]];
    }
    WithoutNewlinesGrows(out, NEWLINE);
    out := out + [NEWLINE];
  }

  lemma WithoutNewlinesEmpty()
    ensures WithoutNewlines([]) == []
  {
  }

  lemma EncodedHasNoNewline(data: seq<byte>, url: bool)
    ensures forall i :: 0 <= i < |Encoded(data, url)| ==> Encoded(data, url)[i] != NEWLINE
  {
    hide Symbol;
  }

  method Encode64(data: seq<byte>) returns (out: seq<byte>)
    ensures Wrapped(Encoded(data, false), out)
  {
    var raw := EncodeRaw(data, false);
    EncodedHasNoNewline(data, false);
    out := Wrap(raw);
  }

  method UrlsafeEncode64(data: seq<byte>, padding: bool) returns (out: seq<byte>)
    ensures out == if padding then Encoded(data, true) else Symbols(Sextets(data), true)
  {
    out := EncodeRaw(data, true);
    if !padding {
      ghost var n := |Sextets(data)|;
      while out != [] && out[|out| - 1] == PAD
        invariant n <= |out| <= |Encoded(data, true)| && out == Encoded(data, true)[..|out|]
        decreases |out|
      {
        out := out[..|out| - 1];
      }
    }
  }

  // ----- decoding -----

  /** The table: the value of each alphabet character, -1 elsewhere. */
  method DecodeTable() returns (t: array<int>)
    ensures fresh(t) && t.Length == 256
    ensures forall b: byte :: t[b] == if Value(b).Some? then Value(b).value else -1
  {
    t := new int[256](_ => -1);
    for i := 0 to 64
      invariant forall b: byte :: t[b] == if Value(b).Some? && Value(b).value < i then Value(b).value else -1
    {
      ValueOfSymbol(i);
      forall b: byte { ValueIsSymbol(b); }
      t[Symbol(i, false)] := i;
    }
  }

  method Decode64(s: seq<byte>) returns (out: seq<byte>)
    ensures out == Lenient(s)
  {
    hide Value, First, Second, Third, Bytes, Values, BeforePad;
    var t := DecodeTable();
    out := [];
    var quad: seq<sextet> := [];
    ghost var v: seq<sextet> := [];   // the complete groups of four
    ghost var text := BeforePad(s);
    ghost var all := Values(text);
    assert s[0..] == s;
    var i := 0;
    NoBytes();
    while i < |s|
      modifies {}
      invariant 0 <= i <= |s| && |quad| < 4
      invariant all == v + quad + Values(BeforePad(s[i..]))
      invariant |v| % 4 == 0 && out == Bytes(v)
    {
      var b := s[i];
      if b == PAD {
        break;
      }
      NextCharacter(s, i);
      i := i + 1;
      if t[b] < 0 {
        continue;
      }
      var x: sextet := t[b];
      quad := quad + [x];
      if |quad| == 4 {
        BytesOfQuad(v, quad);
        v := v + quad;
        out := out + [First(quad[0], quad[1]), Second(quad[1], quad[2]), Third(quad[2], quad[3])];
        quad := [];
      }
    }
    EndOfText(s[i..]);
    BytesOfTail(v, quad);
    BytesOfPart(quad);
    assert all == v + quad;
    if |quad| == 3 {
      out := out + [First(quad[0], quad[1]), Second(quad[1], quad[2])];
    } else if |quad| == 2 {
      out := out + [First(quad[0], quad[1])];
    }
  }

  lemma NextCharacter(s: seq<byte>, i: nat)
    requires i < |s| && s[i] != PAD
    ensures Values(BeforePad(s[i..])) ==
      (if Value(s[i]).Some? then [Value(s[i]).value] else []) + Values(BeforePad(s[i + 1..]))
  {
    hide Value;
    assert s[i..][1..] == s[i + 1..];
    assert BeforePad(s[i..])[1..] == BeforePad(s[i + 1..]);
  }

  lemma EndOfText(s: seq<byte>)
    requires s == [] || s[0] == PAD
    ensures Values(BeforePad(s)) == []
  {
  }

  lemma NoBytes()
    ensures Bytes([]) == []
  {
  }

  lemma BytesOfPart(quad: seq<sextet>)
    requires |quad| < 4
    ensures Bytes(quad) ==
      if |quad| == 3 then [First(quad[0], quad[1]), Second(quad[1], quad[2])]
      else if |quad| == 2 then [First(quad[0], quad[1])]
      else []
  {
  }

  /** Whole groups decode independently of what follows. */
  lemma {:induction false} BytesOfTail(v: seq<sextet>, tail: seq<sextet>)
    requires |v| % 4 == 0
    ensures Bytes(v + tail) == Bytes(v) + Bytes(tail)
  {
    hide First, Second, Third;
    if v == [] {
      assert v + tail == tail;
    } else {
      assert (v + tail)[4..] == v[4..] + tail;
      BytesOfTail(v[4..], tail);
    }
  }

  lemma BytesOfQuad(v: seq<sextet>, q: seq<sextet>)
    requires |v| % 4 == 0 && |q| == 4
    ensures Bytes(v + q) == Bytes(v) + [First(q[0], q[1]), Second(q[1], q[2]), Third(q[2], q[3])]
  {
    hide First, Second, Third;
    BytesOfTail(v, q);
    assert Bytes(q[4..]) == [];
  }

  lemma {:induction false} ValuesOfAlphabet(s: seq<byte>)
    requires forall i :: 0 <= i < |s| ==> Value(s[i]).Some?
    ensures |Values(s)| == |s| && forall i :: 0 <= i < |s| ==> Values(s)[i] == Value(s[i]).value
  {
    hide Value;
    if s != [] { ValuesOfAlphabet(s[1..]); }
  }

  /** What makes the strict decoder give up. */
  ghost predicate Offends(s: seq<byte>, k: nat) {
    k < |s| && Value(s[k]).None? && (k + 2 < |s| || s[k] != PAD || exists j :: k < j < |s| && s[j] != PAD)
  }

  lemma OffenceIsNotStrict(s: seq<byte>, k: nat)
    requires Offends(s, k)
    ensures !IsStrict(s)
  {
    hide Value;
    ValueIsSymbol(PAD);
  }

  method StrictDecode64(s: seq<byte>) returns (r: Option<seq<byte>>)
    ensures r == Strict(s)
  {
    hide Value, First, Second, Third, Bytes, Values, IsStrict, Leading;
    ValueIsSymbol(PAD);
    var t := DecodeTable();
    if |s| % 4 != 0 {
      NotWholeGroups(s);
      return None;
    }
    var out: seq<byte> := [];
    var i := 0;
    ghost var v: seq<sextet> := [];
    NoBytes();
    var padded := false;
    while i < |s|
      modifies {}
      invariant 0 <= i <= |s| && i % 4 == 0 && |v| == if padded then |v| else i
      invariant padded ==> i == |s|
      invariant AcceptedTo(s, |v|, i) && v == DigitsOf(s, |v|) && out == Bytes(v)
    {
      var isLast := i + 4 == |s|;
      var chunk := s[i..i + 4];
      assert forall k :: 0 <= k < 4 ==> chunk[k] == s[i + k];
      var data: seq<sextet> := [];
      var seenPad := false;
      for j := 0 to 4
        modifies {}
        invariant |data| <= j && (!seenPad ==> |data| == j) && (seenPad ==> |data| < j && isLast)
        invariant forall k :: 0 <= k < |data| ==> Value(chunk[k]) == Some(data[k])
        invariant forall k :: |data| <= k < j ==> chunk[k] == PAD
      {
        var b := chunk[j];
        assert s[i + j] == b && (|data| < j ==> s[i + |data|] == PAD);
        if b == PAD {
          if !isLast {
            OffenceIsNotStrict(s, i + j);
            return None;
          }
          seenPad := true;
        } else {
          if seenPad {
            OffenceIsNotStrict(s, i + |data|);
            return None;
          }
          if t[b] < 0 {
            OffenceIsNotStrict(s, i + j);
            return None;
          }
          var x: sextet := t[b];
          data := data + [x];
        }
      }
      if isLast && |data| < 2 {
        OffenceIsNotStrict(s, i + |data|);
        return None;
      }
      BytesOfTail(v, data);
      BytesOfGroup(data);
      AcceptGroup(s, i, chunk, data);
      out := out + [First(data[0], data[1])];
      if |data| > 2 { out := out + [Second(data[1], data[2])]; }
      if |data| > 3 { out := out + [Third(data[2], data[3])]; }
      v := v + data;
      padded := seenPad;
      i := i + 4;
    }
    StrictIsAccepted(s, |v|);
    r := Some(out);
  }

  /** Up to i the text is n alphabet characters and then padding, at the end. */
  ghost predicate AcceptedTo(s: seq<byte>, n: nat, i: nat) {
    && n <= i <= |s| && (n < i ==> i == |s| <= n + 2)
    && (forall k :: 0 <= k < n ==> Value(s[k]).Some?)
    && (forall k :: n <= k < i ==> s[k] == PAD)
  }

  lemma AcceptGroup(s: seq<byte>, i: nat, chunk: seq<byte>, data: seq<sextet>)
    requires i + 4 <= |s| && chunk == s[i..i + 4] && |data| <= 4 && AcceptedTo(s, i, i)
    requires |data| < 4 ==> i + 4 == |s| && |data| >= 2
    requires forall k :: 0 <= k < |data| ==> Value(chunk[k]) == Some(data[k])
    requires forall k :: |data| <= k < 4 ==> chunk[k] == PAD
    ensures AcceptedTo(s, i + |data|, i + 4) && DigitsOf(s, i + |data|) == DigitsOf(s, i) + data
  {
    hide Value;
    forall k | i <= k < i + 4 ensures s[k] == chunk[k - i] {
    }
  }

  function DigitsOf(s: seq<byte>, n: nat): seq<sextet>
    requires n <= |s| && forall k :: 0 <= k < n ==> Value(s[k]).Some?
  {
    seq(n, k requires 0 <= k < n => Value(s[k]).value)
  }

  lemma NotWholeGroups(s: seq<byte>)
    requires |s| % 4 != 0
    ensures !IsStrict(s)
  {
  }

  lemma BytesOfGroup(data: seq<sextet>)
    requires 2 <= |data| <= 4
    ensures Bytes(data) ==
      [First(data[0], data[1])] + (if |data| > 2 then [Second(data[1], data[2])] else [])
      + if |data| > 3 then [Third(data[2], data[3])] else []
  {
    hide First, Second, Third;
    if |data| == 4 { assert Bytes(data[4..]) == []; }
  }

  lemma StrictIsAccepted(s: seq<byte>, n: nat)
    requires |s| % 4 == 0 && AcceptedTo(s, n, |s|)
    ensures Strict(s) == Some(Bytes(DigitsOf(s, n)))
  {
    hide Value;
    LeadingIs(s, n);
    ValuesOfAlphabet(s[..n]);
    assert Values(s[..n]) == DigitsOf(s, n);
  }

  // ----- url-safe decoding -----

  function Translate(b: byte): byte {
    if b == 45 then 43 else if b == 95 then 47 else b
  }

  function Translated(s: seq<byte>): (t: seq<byte>)
    ensures |t| == |s| && forall i :: 0 <= i < |s| ==> t[i] == Translate(s[i])
  {
    seq(|s|, i requires 0 <= i < |s| => Translate(s[i]))
  }

  /** Text without final padding is completed to a whole group. */
  function Completion(t: seq<byte>): seq<byte> {
    if |t| % 4 != 0 && t[|t| - 1] != PAD then t + Pads(4 - |t| % 4) else t
  }

  method UrlsafeDecode64(s: seq<byte>) returns (r: Option<seq<byte>>)
    ensures r == Strict(Completion(Translated(s)))
  {
    hide Strict;
    var t: seq<byte> := [];
    for i := 0 to |s|
      invariant t == Translated(s)[..i]
    {
      t := t + [if s[i] == 45 then 43 else if s[i] == 95 then 47 else s[i]];
    }
    assert t == Translated(s);
    if (t == [] || t[|t| - 1] != PAD) && |t| % 4 != 0 {
      t := t + Pads(4 - |t| % 4);
    }
    r := StrictDecode64(t);
  }

  // ----- round trips -----

  lemma TranslatedSymbol(v: sextet)
    ensures Translate(Symbol(v, true)) == Symbol(v, false) && Translate(PAD) == PAD
  {
  }

  lemma TranslatedEncoded(data: seq<byte>)
    ensures Translated(Encoded(data, true)) == Encoded(data, false)
    ensures Translated(Symbols(Sextets(data), true)) == Symbols(Sextets(data), false)
  {
    hide Symbol, Translate, Sextets;
    var s, v := Encoded(data, true), Sextets(data);
    forall i | 0 <= i < |s| ensures Translate(s[i]) == Encoded(data, false)[i] {
      if i < |v| { TranslatedSymbol(v[i]); } else { TranslatedSymbol(0); }
    }
    var bare := Symbols(v, true);
    forall i | 0 <= i < |bare| ensures Translate(bare[i]) == Symbols(v, false)[i] {
      TranslatedSymbol(v[i]);
    }
    assert Translated(bare) == Symbols(v, false);
    assert Translated(s) == Encoded(data, false);
  }

  lemma CompletionOfEncoded(data: seq<byte>)
    ensures Completion(Encoded(data, false)) == Encoded(data, false)
    ensures Completion(Symbols(Sextets(data), false)) == Encoded(data, false)
  {
    hide Symbol, Sextets, PadCount;
    SextetCount(data);
    assert (|data| + 2) / 3 * 4 % 4 == 0;
    assert |Encoded(data, false)| == |Sextets(data)| + PadCount(|data|);
  }

  /** Url-safe decoding undoes url-safe encoding, padded or not. */
  lemma UrlsafeRoundTrip(data: seq<byte>, padding: bool)
    ensures
      var text := if padding then Encoded(data, true) else Symbols(Sextets(data), true);
      Strict(Completion(Translated(text))) == Some(data)
  {
    hide Symbol, Strict, Encoded, Translated, Completion, Symbols;
    TranslatedEncoded(data);
    CompletionOfEncoded(data);
    StrictDecodesEncoded(data);
  }

  lemma {:induction false} BeforePadWithoutNewlines(s: seq<byte>)
    ensures Values(BeforePad(WithoutNewlines(s))) == Values(BeforePad(s))
  {
    hide Value;
    ValueIsSymbol(PAD);
    if s != [] {
      BeforePadWithoutNewlines(s[1..]);
      var f := WithoutNewlines(s);
      if s[0] == NEWLINE {
        assert f == WithoutNewlines(s[1..]);
        assert BeforePad(s)[1..] == BeforePad(s[1..]);
      } else if s[0] != PAD {
        assert f[1..] == WithoutNewlines(s[1..]);
        assert BeforePad(s)[1..] == BeforePad(s[1..]) && BeforePad(f)[1..] == BeforePad(f[1..]);
      }
    }
  }

  /** Lenient decoding undoes line-wrapped encoding, whatever the wrapping. */
  lemma WrappedRoundTrip(data: seq<byte>, out: seq<byte>)
    requires Wrapped(Encoded(data, false), out)
    ensures Lenient(out) == data
  {
    hide Encoded, BeforePad, Values;
    BeforePadWithoutNewlines(out);
    StrictDecodesEncoded(data);
    StrictIsLenient(Encoded(data, false));
  }
}
