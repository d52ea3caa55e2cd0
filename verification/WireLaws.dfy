/** Which deliveries of a request the daemon's reader reads faithfully. */
module WireLaws {
  import opened Words
  import opened Wrappers
  import opened Decimal
  import opened Text
  import opened WireSpec

  /** An operation name the format can carry. */
  predicate ValidOp(op: seq<byte>) {
    SPACE !in op && FindCrlf(op).None?
  }

  /** Field counts and lengths that a vector on the machine can have. */
  predicate Sized(fields: seq<seq<byte>>) {
    |fields| <= MAX_FIELDS && forall i :: 0 <= i < |fields| ==> |fields[i]| <= MAX_USIZE
  }

  // ----- a command that is all in the buffer -----

  lemma CrlfAfter(a: seq<byte>, b: seq<byte>)
    requires FindCrlf(a).None?
    ensures FindCrlf(a + CRLF + b) == Some(|a|)
  {
    var s := a + CRLF + b;
    hide FindCrlf;
    assert CrlfAt(s, |a|);
    forall i: nat | i < |a| ensures !CrlfAt(s, i) {
      assert !CrlfAt(a, i);
    }
  }

  lemma NoCrlf(s: seq<byte>)
    requires 13 !in s
    ensures FindCrlf(s).None?
  {
    hide FindCrlf;
    assert forall i: nat :: !CrlfAt(s, i);
  }

  lemma LengthLineParses(len: nat)
    requires len <= MAX_USIZE
    ensures FindCrlf(LengthLine(len)).None? && ParseLength(LengthLine(len)) == Some(len)
  {
    hide FindCrlf;
    ParseDigits(len, MAX_USIZE);
    assert LengthLine(len)[1..] == Digits(len);
    NoCrlf(LengthLine(len));
  }

  lemma HeadLineParses(op: seq<byte>, n: nat)
    requires ValidOp(op) && n <= MAX_USIZE
    ensures FindCrlf(HeadLine(op, n)).None? && ParseHead(HeadLine(op, n)) == Some((op, n))
  {
    hide FindCrlf, Until;
    var h := HeadLine(op, n);
    ParseDigits(n, MAX_USIZE);
    forall i: nat ensures !CrlfAt(h, i) {
      assert !CrlfAt(op, i);
    }
    UntilSeparator(op, SPACE, Digits(n));
    assert h[|op| + 1..] == Digits(n) && h[..|op|] == op;
  }

  lemma FieldRead(c: Conn, data: seq<byte>, rest: seq<byte>)
    requires |data| <= MAX_USIZE && c.buf == Field(data) + rest
    ensures ReadField(c) == (Got(data), c.(buf := rest))
  {
    hide FindCrlf, ParseLength, LengthLine;
    var line := LengthLine(|data|);
    LengthLineParses(|data|);
    assert c.buf == line + CRLF + (data + rest);
    CrlfAfter(line, data + rest);
    assert c.buf[..|line|] == line && c.buf[|line| + 2..] == data + rest;
    assert (data + rest)[..|data|] == data && (data + rest)[|data|..] == rest;
  }

  lemma {:induction false} FieldsRead(c: Conn, fields: seq<seq<byte>>, rest: seq<byte>, acc: seq<seq<byte>>)
    requires Sized(fields) && c.buf == Fields(fields) + rest
    ensures ReadFields(c, |fields|, acc) == (Got(acc + fields), c.(buf := rest))
    decreases |fields|
  {
    hide ReadField, Field;
    if fields == [] {
      assert acc + fields == acc && c.buf == rest;
    } else {
      var more := Fields(fields[1..]) + rest;
      assert c.buf == Field(fields[0]) + more;
      FieldRead(c, fields[0], more);
      FieldsRead(c.(buf := more), fields[1..], rest, acc + [fields[0]]);
      assert acc + [fields[0]] + fields[1..] == acc + fields;
    }
  }

  /** A numeral the reader accepts: an optional plus sign, then digits. */
  predicate Numeral(s: seq<byte>) {
    var d := if s != [] && s[0] == '+' as int then s[1..] else s;
    d != [] && forall i :: 0 <= i < |d| ==> '0' as int <= d[i] <= '9' as int
  }

  /** What the daemon takes a head line for, without its reader: an operation, a
      space and a numeral. */
  predicate IsHead(head: seq<byte>, op: seq<byte>, count: seq<byte>) {
    head == op + [' ' as int] + count && ' ' as int !in op && Numeral(count)
  }

  /** A head line that is no operation and numeral with a space between them is
      refused, and taken off the buffer. */
  lemma MalformedHeadIsBad(c: Conn, head: seq<byte>, more: seq<byte>)
    requires FindCrlf(head).None? && c.buf == head + CRLF + more
    requires forall op, count :: !IsHead(head, op, count)
    ensures ReadCommand(c) == (Bad, c.(buf := more))
  {
    hide FindCrlf, ParseHead;
    CrlfAfter(head, more);
    assert c.buf[..|head|] == head && c.buf[|head| + 2..] == more;
    if ParseHead(head).Some? { ParsedIsHead(head); }
  }

  lemma ParsedIsHead(head: seq<byte>)
    requires ParseHead(head).Some?
    ensures exists op, count :: IsHead(head, op, count)
  {
    hide Until, Decimal.Value;
    var (op, count) := SplitOnce(head, SPACE).value;
    assert head == op + [SPACE] + count;
    assert IsHead(head, op, count);
  }

  /** A length line that is no dollar sign and numeral is refused likewise. */
  lemma MalformedLengthIsBad(c: Conn, line: seq<byte>, more: seq<byte>)
    requires FindCrlf(line).None? && c.buf == line + CRLF + more
    requires line == [] || line[0] != '$' as int || !Numeral(line[1..])
    ensures ReadField(c) == (Bad, c.(buf := more))
  {
    hide FindCrlf, Decimal.Value;
    CrlfAfter(line, more);
    assert c.buf[..|line|] == line && c.buf[|line| + 2..] == more;
  }

  /** A receive of zero bytes is the end of the connection exactly when it is
      not the first; the first one counts as a success that brings nothing. */
  lemma ZeroBytesExactly(c: Conn)
    requires c.socket != [] && (c.socket[0] == End || c.socket[0] == Data([]))
    ensures Fill(c).0 == Eof <==> !c.first
    ensures Fill(c).0 != Eof ==> Fill(c).0 == Got(()) && Fill(c).1.buf == c.buf
  {
    assert c.buf + [] == c.buf;
  }

  /** A head line in the buffer panics the daemon exactly when the fields it
      announces are more than a vector can hold, whatever follows. */
  lemma HugeCountPanics(c: Conn, op: seq<byte>, n: nat, more: seq<byte>)
    requires ValidOp(op) && n <= MAX_USIZE && c.buf == HeadLine(op, n) + CRLF + more
    ensures ReadCommand(c).0 == Panic <==> n > MAX_FIELDS
  {
    hide FindCrlf, ParseHead, HeadLine;
    HeadLineParses(op, n);
    CrlfAfter(HeadLine(op, n), more);
    assert c.buf[..|HeadLine(op, n)|] == HeadLine(op, n);
  }

  /** A connection that ends before a head line is complete is reported as ended
      all the same, by the call that finds the end: the loop receives again. */
  lemma EndIsReported(c: Conn)
    requires FindCrlf(c.buf).None? && c.socket != [] && c.socket[0] == End
    ensures ReadCommand(c) == (Eof, c.(first := false))
  {
    hide FindCrlf;
    var c' := c.(first := false);
    ZeroBytesExactly(c);
    assert Fill(c') == (Eof, c');
    assert ReadCommand(c') == (Eof, c');
  }

  /** A command in the buffer, followed by anything, is read back exactly and
      only it is taken, without touching the socket. Fields may hold CR LF. */
  lemma BufferedCommandRead(c: Conn, op: seq<byte>, fields: seq<seq<byte>>, rest: seq<byte>)
    requires ValidOp(op) && Sized(fields) && c.buf == Command(op, fields) + rest
    ensures ReadCommand(c) == (Got((op, fields)), c.(buf := rest))
  {
    hide FindCrlf, ParseHead, HeadLine, Fields;
    var head := HeadLine(op, |fields|);
    HeadLineParses(op, |fields|);
    assert c.buf == head + CRLF + (Fields(fields) + rest);
    CrlfAfter(head, Fields(fields) + rest);
    assert c.buf[..|head|] == head && c.buf[|head| + 2..] == Fields(fields) + rest;
    FieldsRead(Drain(c, |head| + 2), fields, rest, []);
    assert [] + fields == fields;
  }

  // ----- deliveries before the head line is complete -----

  /** The daemon calls the reader again on later ticks while a command is
      incomplete and the socket has something in store. */
  function Drive(c: Conn): (Read<(seq<byte>, seq<seq<byte>>)>, Conn)
    decreases Budget(c)
  {
    var (r, c') := ReadCommand(c);
    if r.Partial? && c'.socket != [] then Drive(c') else (r, c')
  }

  /** The bytes of a run of deliveries. */
  function Bytes(socket: seq<Delivery>): seq<byte> {
    if socket == [] then []
    else (if socket[0].Data? then socket[0].bytes else []) + Bytes(socket[1..])
  }

  /** Non-empty data, with pauses in between. */
  predicate Fragments(pieces: seq<Delivery>) {
    forall i :: 0 <= i < |pieces| ==> pieces[i].Again? || (pieces[i].Data? && pieces[i].bytes != [])
  }

  /** However the bytes up to the head line's end are cut and spread over calls,
      if the rest of the command comes with its last piece the command is read
      back exactly. */
  lemma {:induction false} FragmentedHeadRead(c: Conn, pieces: seq<Delivery>, last: seq<byte>, later: seq<Delivery>,
                                              op: seq<byte>, fields: seq<seq<byte>>, rest: seq<byte>)
    requires ValidOp(op) && Sized(fields) && Fragments(pieces) && last != []
    requires c.socket == pieces + [Data(last)] + later
    requires c.buf + Bytes(pieces) + last == Command(op, fields) + rest
    requires |c.buf| + |Bytes(pieces)| < |HeadLine(op, |fields|)| + 2
    ensures Drive(c) == (Got((op, fields)), Conn(rest, false, later))
    decreases |pieces|
  {
    hide FindCrlf, Command, Fields;
    HeadNotYet(c.buf, Bytes(pieces) + last, op, fields, rest);
    if pieces == [] {
      assert c.socket[0] == Data(last) && c.socket[1..] == later;
      assert c.buf + Bytes(pieces) + last == c.buf + last;
      BufferedCommandRead(Conn(c.buf + last, false, later), op, fields, rest);
    } else {
      var p := pieces[0];
      assert c.socket[0] == p && c.socket[1..] == pieces[1..] + [Data(last)] + later;
      var c' := Pop(c, if p.Data? then p.bytes else []);
      assert c'.buf + Bytes(pieces[1..]) + last == c.buf + Bytes(pieces) + last;
      FragmentedHeadRead(c', pieces[1..], last, later, op, fields, rest);
      if p.Again? { assert c'.buf == c.buf; }
    }
  }

  /** A proper prefix of the head line and its CR LF holds no CR LF. */
  lemma HeadNotYet(buf: seq<byte>, more: seq<byte>, op: seq<byte>, fields: seq<seq<byte>>, rest: seq<byte>)
    requires ValidOp(op) && Sized(fields)
    requires buf + more == Command(op, fields) + rest && |buf| < |HeadLine(op, |fields|)| + 2
    ensures FindCrlf(buf).None?
  {
    hide FindCrlf, Fields, HeadLine, Command, ValidOp;
    var head, body := HeadLine(op, |fields|), Fields(fields) + rest;
    HeadLineParses(op, |fields|);
    CommandShape(op, fields, rest);
    CrlfAfter(head, body);
    assert (buf + more)[..|buf|] == buf;
    PrefixHasNoCrlf(buf, buf + more, |head|);
  }

  lemma CommandShape(op: seq<byte>, fields: seq<seq<byte>>, rest: seq<byte>)
    ensures Command(op, fields) + rest == HeadLine(op, |fields|) + CRLF + (Fields(fields) + rest)
    ensures |Command(op, fields)| == |HeadLine(op, |fields|)| + 2 + |Fields(fields)|
  {
    hide HeadLine, Fields;
  }

  lemma PrefixHasNoCrlf(buf: seq<byte>, whole: seq<byte>, p: nat)
    requires |buf| <= |whole| && whole[..|buf|] == buf && |buf| < p + 2 && FindCrlf(whole) == Some(p)
    ensures FindCrlf(buf).None?
  {
    hide FindCrlf;
    forall i: nat ensures !CrlfAt(buf, i) {
      if i < p { assert !CrlfAt(whole, i); }
    }
  }
}
