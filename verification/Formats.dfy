/** The texts on the wire, written out: what the readers of the formats undo is
    what the protocol says. */
module Formats {
  import opened Words
  import opened Wrappers
  import opened Text
  import Decimal
  import RunFlags
  import RunRequest
  import WireSpec

  /** A numeral ends in the last decimal digit and starts with the others, and
      only zero itself starts with a zero. */
  lemma {:induction false} DigitsAreDecimal(n: nat)
    ensures
      var d := Decimal.Digits(n);
      && d[|d| - 1] == ('0' as int) + n % 10
      && (n >= 10 ==> d[..|d| - 1] == Decimal.Digits(n / 10))
      && (n < 10 ==> |d| == 1) && (n > 0 ==> d[0] != '0' as int)
    decreases n
  {
    if n >= 10 { DigitsAreDecimal(n / 10); }
  }

  /** A request with one field of two bytes. */
  lemma CommandText()
    ensures WireSpec.Command(Ascii("RUN"), [Ascii("ab")]) == Ascii("RUN 1\r\n$2\r\nab")
  {
    var f := Ascii("ab");
    assert |f| == 2 && f == [97, 98];
    assert Decimal.Digits(1) == [49] && Decimal.Digits(2) == [50];
    assert WireSpec.Fields([f]) == WireSpec.Field(f) + [];
    assert WireSpec.Field(f) == [36, 50, 13, 10, 97, 98];
    assert WireSpec.HeadLine(Ascii("RUN"), 1) == [82, 85, 78, 32, 49];
    assert Ascii("RUN 1\r\n$2\r\nab") == [82, 85, 78, 32, 49, 13, 10, 36, 50, 13, 10, 97, 98];
  }

  /** Two variables in the environment's form, separated by a record separator. */
  lemma EnvText()
    ensures RunRequest.EnvBlob([(Ascii("A"), Ascii("1")), (Ascii("B"), Ascii("="))]) == Ascii("A=1\U{1E}B==")
  {
    var pairs := [(Ascii("A"), Ascii("1")), (Ascii("B"), Ascii("="))];
    var parts := RunRequest.Assignments(pairs);
    assert parts[0] == [65, 61, 49] && parts[1] == [66, 61, 61];
    assert parts[1..] == [parts[1]];
    assert Join(parts[1..], RunRequest.RS) == [66, 61, 61];
    assert Ascii("A=1\U{1E}B==") == [65, 61, 49, 30, 66, 61, 61];
  }

  lemma FlagsBytes()
    ensures Ascii("I:l\U{1F}r:s\U{1F}W:2\U{1F}c\U{1F}E:e") ==
      [73, 58, 108, 31, 114, 58, 115, 31, 87, 58, 50, 31, 99, 31, 69, 58, 101]
  {
  }

  const ONE_OF_EACH: RunFlags.Flags := RunFlags.Flags([[108]], [[115]], Some(2), true, Some([101]))

  lemma OneOfEachParts()
    ensures RunFlags.Parts(ONE_OF_EACH) == [[73, 58, 108], [114, 58, 115], [87, 58, 50], [99], [69, 58, 101]]
  {
    var parts := RunFlags.Parts(ONE_OF_EACH);
    assert RunFlags.FormatSigned(2) == [50];
    assert |parts| == 5 && parts[0] == [73, 58, 108] && parts[1] == [114, 58, 115] && parts[2] == [87, 58, 50];
    assert parts[3] == [99] && parts[4] == [69, 58, 101];
  }

  /** One flag of each kind, with the arguments l, s, 2 and e, separated by unit
      separators. */
  lemma FlagsText()
    ensures RunFlags.BlobOf(ONE_OF_EACH) == Ascii("I:l\U{1F}r:s\U{1F}W:2\U{1F}c\U{1F}E:e")
  {
    OneOfEachParts();
    hide RunFlags.Parts, Join;
    FiveParts(RunFlags.Parts(ONE_OF_EACH), [73, 58, 108], [114, 58, 115], [87, 58, 50], [99], [69, 58, 101]);
    FlagsBytes();
  }

  /** A verbosity of -1 is written as a letter of its own. */
  lemma QuietText()
    ensures RunFlags.BlobOf(RunFlags.DEFAULT.(verbose := Some(-1))) == Ascii("w")
  {
    var f := RunFlags.Flags([], [], Some(-1), false, None);
    assert RunFlags.Tail(f) == [[119]] + [] + [] && |RunFlags.Tagged(73, [])| == 0 == |RunFlags.Tagged(114, [])|;
    assert RunFlags.Parts(f) == [[119]] && Ascii("w") == [119];
  }

  lemma FiveParts(parts: seq<text>, i: text, r: text, w: text, c: text, e: text)
    requires parts == [i, r, w, c, e]
    ensures Join(parts, RunFlags.US) ==
      i + [RunFlags.US] + (r + [RunFlags.US] + (w + [RunFlags.US] + (c + [RunFlags.US] + e)))
  {
    assert [c, e][1..] == [e] && [w, c, e][1..] == [c, e] && [r, w, c, e][1..] == [w, c, e] && parts[1..] == [r, w, c, e];
    var us := [RunFlags.US];
    assert Join([c, e], RunFlags.US) == c + us + e;
    assert Join([w, c, e], RunFlags.US) == w + us + (c + us + e);
    assert Join([r, w, c, e], RunFlags.US) == r + us + (w + us + (c + us + e));
  }
}
