/** Splitting and joining byte strings at a separator byte. */
module Text {
  import opened Words
  import opened Wrappers

  type text = seq<byte>

  /** The bytes of an ASCII literal. */
  function Ascii(s: string): text {
    seq(|s|, i requires 0 <= i < |s| => s[i] as int % 0x100)
  }

  function Join(parts: seq<text>, sep: byte): text {
    if parts == [] then []
    else if |parts| == 1 then parts[0]
    else parts[0] + [sep] + Join(parts[1..], sep)
  }

  /** The position of the first b in s, or the length. */
  function Until(s: text, b: byte): (n: nat)
    ensures n <= |s| && b !in s[..n] && (n < |s| ==> s[n] == b)
  {
    if s == [] || s[0] == b then 0 else 1 + Until(s[1..], b)
  }

  /** str::split: the pieces between separators, one more than there are separators. */
  function Split(s: text, sep: byte): (parts: seq<text>)
    ensures parts != [] && forall p :: p in parts ==> sep !in p
    decreases |s|
  {
    var n := Until(s, sep);
    if n == |s| then assert s[..n] == s; [s] else [s[..n]] + Split(s[n + 1..], sep)
  }

  lemma {:induction false} UntilSeparator(a: text, b: byte, more: text)
    requires b !in a
    ensures Until(a + [b] + more, b) == |a| && Until(a, b) == |a|
  {
    if a != [] {
      assert (a + [b] + more)[1..] == a[1..] + [b] + more;
      UntilSeparator(a[1..], b, more);
    }
  }

  lemma {:induction false} SplitJoin(parts: seq<text>, sep: byte)
    requires parts != [] && forall p :: p in parts ==> sep !in p
    ensures Split(Join(parts, sep), sep) == parts
  {
    hide Until;
    var a := parts[0];
    if |parts| == 1 {
      UntilSeparator(a, sep, []);
    } else {
      var more := Join(parts[1..], sep);
      var s := a + [sep] + more;
      UntilSeparator(a, sep, more);
      assert s[..|a|] == a && s[|a| + 1..] == more;
      SplitJoin(parts[1..], sep);
    }
  }

  /** str::split_once. */
  function SplitOnce(s: text, sep: byte): Option<(text, text)> {
    var n := Until(s, sep);
    if n == |s| then None else Some((s[..n], s[n + 1..]))
  }
}
