/** Exactly which deliveries of a request the reader survives. */
module WireCuts {
  import opened Words
  import opened Wrappers
  import opened Decimal
  import opened Text
  import opened WireSpec
  import opened WireLaws

  /** The bytes a connection still holds, read or not. */
  function Held(c: Conn): seq<byte> { c.buf + Bytes(c.socket) }

  // ----- no result takes fewer bytes than its encoding has -----

  lemma FillHolds(c: Conn)
    ensures |Held(Fill(c).1)| == |Held(c)|
  {
  }

  lemma LineIsNoShorter(line: seq<byte>)
    requires ParseLength(line).Some?
    ensures |line| >= |LengthLine(ParseLength(line).value)|
  {
    ParsedIsNoShorter(line[1..], MAX_USIZE);
  }

  lemma {:induction false} FieldTakes(c: Conn)
    ensures
      var (r, c') := ReadField(c);
      |Held(c')| + (if r.Got? then |Field(r.value)| else 0) <= |Held(c)|
    decreases Budget(c)
  {
    hide FindCrlf, Fill, ParseLength, Digits;
    match FindCrlf(c.buf)
    case None =>
      FillHolds(c);
      if Fill(c).0.Got? { FieldTakes(Fill(c).1); }
    case Some(pos) =>
      var c1 := Drain(c, pos + 2);
      if ParseLength(c.buf[..pos]).Some? {
        LineIsNoShorter(c.buf[..pos]);
        FillHolds(c1);
        if ParseLength(c.buf[..pos]).value > |c1.buf| && Fill(c1).0.Got? { FieldTakes(Fill(c1).1); }
      }
  }

  lemma {:induction false} FieldsTake(c: Conn, n: nat, acc: seq<seq<byte>>)
    ensures
      var (r, c') := ReadFields(c, n, acc);
      if r.Got? then
        |r.value| == |acc| + n && acc <= r.value && |Held(c')| + |Fields(r.value[|acc|..])| <= |Held(c)|
      else |Held(c')| <= |Held(c)|
    decreases n
  {
    hide ReadField, Field, Held;
    if n > 0 {
      FieldTakes(c);
      var (f, c1) := ReadField(c);
      if f.Got? {
        FieldsTake(c1, n - 1, acc + [f.value]);
        var (r, c') := ReadFields(c1, n - 1, acc + [f.value]);
        if r.Got? {
          var tail := r.value[|acc|..];
          assert tail[0] == (acc + [f.value])[|acc|] == f.value && tail[1..] == r.value[|acc| + 1..];
        }
      }
    }
  }

  lemma HeadIsNoShorter(head: seq<byte>)
    requires ParseHead(head).Some?
    ensures |head| >= |HeadLine(ParseHead(head).value.0, ParseHead(head).value.1)|
  {
    ParsedIsNoShorter(SplitOnce(head, SPACE).value.1, MAX_USIZE);
  }

  lemma {:induction false} CommandTakes(c: Conn)
    ensures
      var (r, c') := ReadCommand(c);
      |Held(c')| + (if r.Got? then |Command(r.value.0, r.value.1)| else 0) <= |Held(c)|
    decreases Budget(c)
  {
    hide FindCrlf, Fill, ParseHead, HeadLine, ReadFields, Fields;
    match FindCrlf(c.buf)
    case None =>
      FillHolds(c);
      if Fill(c).0.Got? { CommandTakes(Fill(c).1); }
    case Some(pos) =>
      if ParseHead(c.buf[..pos]).Some? {
        HeadIsNoShorter(c.buf[..pos]);
        var c1 := Drain(c, pos + 2);
        var (op, n) := ParseHead(c.buf[..pos]).value;
        FieldsTake(c1, n, []);
        var (r, c') := ReadFields(c1, n, []);
        if r.Got? { assert r.value[0..] == r.value; }
      }
  }

  lemma {:induction false} DriveTakes(c: Conn)
    ensures
      var (r, c') := Drive(c);
      |Held(c')| + (if r.Got? then |Command(r.value.0, r.value.1)| else 0) <= |Held(c)|
    decreases Budget(c)
  {
    hide ReadCommand, Command, Held;
    CommandTakes(c);
    var (r, c') := ReadCommand(c);
    if r.Partial? && c'.socket != [] { DriveTakes(c'); }
  }

  // ----- deliveries that harm a request -----

  /** The cut, counted from the end of the head line, falls after a field's
      length line and before the end of its data. */
  predicate SplitsField(fields: seq<seq<byte>>, cut: int) {
    if fields == [] then false
    else
      var line := |LengthLine(|fields[0]|)| + 2;
      line <= cut < line + |fields[0]| || SplitsField(fields[1..], cut - line - |fields[0]|)
  }

  /** A delivery at this cut, counted from the end of the head line, loses the
      request: data that begins inside a field's data, or a pause anywhere
      before the end of the fields. */
  predicate Harms(fields: seq<seq<byte>>, d: Delivery, cut: int) {
    if d.Again? then 0 <= cut < |Fields(fields)| else SplitsField(fields, cut)
  }

  /** Where the bytes held are cut before delivery k. */
  function CutOf(c: Conn, k: nat): nat
    requires k <= |c.socket|
  {
    |c.buf| + |Bytes(c.socket[..k])|
  }

  /** No delivery harms, the head line being gone for offset bytes. */
  predicate NoneHarms(fields: seq<seq<byte>>, c: Conn, offset: nat) {
    forall k :: 0 <= k < |c.socket| ==> !Harms(fields, c.socket[k], CutOf(c, k) - offset)
  }

  /** Non-empty data and pauses are all there is to receive. */
  predicate Trickling(c: Conn) {
    Fragments(c.socket)
  }

  lemma FieldLength(f: seq<byte>)
    ensures |Field(f)| == |LengthLine(|f|)| + 2 + |f|
  {
  }

  lemma {:induction false} SplitsInside(fields: seq<seq<byte>>, cut: int)
    requires SplitsField(fields, cut)
    ensures 0 <= cut < |Fields(fields)|
  {
    hide LengthLine, Field;
    var line := |LengthLine(|fields[0]|)| + 2;
    FieldLength(fields[0]);
    if !(line <= cut < line + |fields[0]|) {
      SplitsInside(fields[1..], cut - line - |fields[0]|);
    }
  }

  /** Nothing harms before the head line's end or after the command. */
  lemma NoHarmOutside(fields: seq<seq<byte>>, d: Delivery, cut: int)
    ensures Harms(fields, d, cut) ==> 0 <= cut < |Fields(fields)|
  {
    if SplitsField(fields, cut) { SplitsInside(fields, cut); }
  }

  /** The next delivery received. */
  function Receive(c: Conn): Conn
    requires c.socket != []
  {
    Pop(c, if c.socket[0].Data? then c.socket[0].bytes else [])
  }

  lemma NextDelivery(c: Conn)
    requires Trickling(c) && |Held(c)| > |c.buf|
    ensures c.socket != []
    ensures var c1 := Receive(c);
      && Fill(c) == (if c.socket[0].Again? then Partial else Got(()), c1)
      && (c.socket[0].Again? ==> c1.socket != [])
      && Trickling(c1) && Held(c1) == Held(c) && CutOf(c, 0) == |c.buf|
      && forall k :: 0 < k <= |c.socket| ==> CutOf(c, k) == CutOf(c1, k - 1)
  {
    var d := c.socket[0];
    var more := if d.Data? then d.bytes else [];
    assert c.buf + (more + Bytes(c.socket[1..])) == c.buf + more + Bytes(c.socket[1..]);
    assert Bytes([]) == [];
    forall k | 0 < k <= |c.socket|
      ensures CutOf(c, k) == CutOf(Receive(c), k - 1)
    {
      assert c.socket[..k][1..] == c.socket[1..][..k - 1];
    }
  }

  lemma HarmsStart(fields: seq<seq<byte>>, c: Conn, c1: Conn, offset: nat)
    requires c.socket != [] && c1.socket == c.socket[1..]
    requires forall k :: 0 < k <= |c.socket| ==> CutOf(c, k) == CutOf(c1, k - 1)
    ensures NoneHarms(fields, c, offset) <==>
      !Harms(fields, c.socket[0], CutOf(c, 0) - offset) && NoneHarms(fields, c1, offset)
  {
    hide Harms, CutOf;
    if NoneHarms(fields, c, offset) {
      forall k | 0 <= k < |c1.socket|
        ensures !Harms(fields, c1.socket[k], CutOf(c1, k) - offset)
      {
        assert CutOf(c, k + 1) == CutOf(c1, k) && c.socket[k + 1] == c1.socket[k];
      }
    }
  }

  /** Taking bytes off the buffer moves every cut. */
  lemma CutsMove(c: Conn, n: nat)
    requires n <= |c.buf|
    ensures forall k :: 0 <= k <= |c.socket| ==> CutOf(Drain(c, n), k) == CutOf(c, k) - n && CutOf(c, k) >= |c.buf|
    ensures Held(Drain(c, n)) == Held(c)[n..]
  {
  }

  lemma HeldStarts(c: Conn)
    ensures |c.buf| <= |Held(c)| && Held(c)[..|c.buf|] == c.buf
  {
  }

  // ----- the fields -----

  /** The fields come back as sent, with exactly the bytes after them left. */
  predicate FieldsExact(c: Conn, fields: seq<seq<byte>>, rest: seq<byte>, acc: seq<seq<byte>>) {
    var (r, c') := ReadFields(c, |fields|, acc);
    r == Got(acc + fields) && Held(c') == rest
  }

  /** Inside a length line the reader asks for more. */
  lemma FieldWaits(c: Conn, f: seq<byte>, more: seq<byte>)
    requires |f| <= MAX_USIZE && Held(c) == Field(f) + more && |c.buf| < |LengthLine(|f|)| + 2
    ensures var (r, c1) := Fill(c);
      ReadField(c) == if r.Got? then ReadField(c1) else (Failed(r), c1)
  {
    hide FindCrlf, ParseLength, LengthLine, Fill;
    var line := LengthLine(|f|);
    LengthLineParses(|f|);
    assert Held(c) == line + CRLF + (f + more);
    CrlfAfter(line, f + more);
    PrefixHasNoCrlf(c.buf, Held(c), |line|);
  }

  /** Inside the data it does too, and the length line is gone. */
  lemma FieldLosesLine(c: Conn, f: seq<byte>, more: seq<byte>)
    requires |f| <= MAX_USIZE && Held(c) == Field(f) + more
    requires |LengthLine(|f|)| + 2 <= |c.buf| < |Field(f)|
    ensures var (r, c1) := Fill(Drain(c, |LengthLine(|f|)| + 2));
      ReadField(c) == if r.Got? then ReadField(c1) else (Failed(r), c1)
  {
    hide FindCrlf, ParseLength, LengthLine;
    var line := LengthLine(|f|);
    LengthLineParses(|f|);
    assert Field(f) == line + CRLF + f;
    assert Held(c)[..|c.buf|] == c.buf;
    var data := c.buf[|line| + 2..];
    assert c.buf == line + CRLF + data;
    CrlfAfter(line, data);
    assert c.buf[..|line|] == line;
  }

  /** After the data the field is taken. */
  lemma FieldGone(c: Conn, f: seq<byte>, more: seq<byte>)
    requires |f| <= MAX_USIZE && Held(c) == Field(f) + more && |c.buf| >= |Field(f)|
    ensures
      var c1 := Drain(c, |Field(f)|);
      ReadField(c) == (Got(f), c1) && Held(c1) == more
  {
    hide Field, ReadField, Held, LengthLine;
    HeldStarts(c);
    var after := c.buf[|Field(f)|..];
    assert c.buf == Field(f) + after;
    FieldRead(c, f, after);
    CutsMove(c, |Field(f)|);
    assert (Field(f) + more)[|Field(f)|..] == more;
  }

  /** Once the length line is gone the bytes left are too few for the fields. */
  lemma FieldSplit(c: Conn, fields: seq<seq<byte>>, rest: seq<byte>, acc: seq<seq<byte>>)
    requires Sized(fields) && Held(c) == Fields(fields) + rest && fields != []
    requires |LengthLine(|fields[0]|)| + 2 <= |c.buf| < |Field(fields[0])|
    ensures !FieldsExact(c, fields, rest, acc)
  {
    hide ReadField, Field, LengthLine, Fill, Held;
    var f, more := fields[0], Fields(fields[1..]) + rest;
    assert Held(c) == Field(f) + more;
    FieldLength(f);
    FieldLosesLine(c, f, more);
    CutsMove(c, |LengthLine(|f|)| + 2);
    FillHolds(Drain(c, |LengthLine(|f|)| + 2));
    var (r, c1) := Fill(Drain(c, |LengthLine(|f|)| + 2));
    if r.Got? {
      assert ReadFields(c, |fields|, acc) == ReadFields(c1, |fields|, acc);
      FieldsTake(c1, |fields|, acc);
      var got := ReadFields(c, |fields|, acc).0;
      assert got == Got(acc + fields) ==> got.value[|acc|..] == fields;
    }
  }

  /** Moving past the first field, harms only move. */
  lemma HarmsMove(c: Conn, fields: seq<seq<byte>>)
    requires fields != [] && |c.buf| >= |Field(fields[0])|
    ensures NoneHarms(fields, c, 0) <==> NoneHarms(fields[1..], Drain(c, |Field(fields[0])|), 0)
  {
    hide LengthLine, CutOf, Field;
    FieldLength(fields[0]);
    var c1 := Drain(c, |Field(fields[0])|);
    CutsMove(c, |Field(fields[0])|);
    forall k | 0 <= k < |c.socket|
      ensures Harms(fields, c.socket[k], CutOf(c, k)) == Harms(fields[1..], c.socket[k], CutOf(c1, k))
    {
    }
  }

  lemma {:induction false} FieldsTrickle(c: Conn, fields: seq<seq<byte>>, rest: seq<byte>, acc: seq<seq<byte>>)
    requires Sized(fields) && Trickling(c) && Held(c) == Fields(fields) + rest
    ensures FieldsExact(c, fields, rest, acc) <==> NoneHarms(fields, c, 0)
    decreases |fields|, |c.socket|
  {
    hide ReadField, Field, Held, LengthLine, Fill, CutOf;
    if fields == [] {
      assert acc + fields == acc;
    } else {
      var f := fields[0];
      var line := |LengthLine(|f|)| + 2;
      var more := Fields(fields[1..]) + rest;
      assert Held(c) == Field(f) + more;
      FieldLength(f);
      if |c.buf| < |Field(f)| {
        NextDelivery(c);
        var c1 := Receive(c);
        HarmsStart(fields, c, c1, 0);
        if |c.buf| >= line {
          FieldSplit(c, fields, rest, acc);
        } else {
          FieldWaits(c, f, more);
          if c.socket[0].Data? {
            if SplitsField(fields[1..], |c.buf| - |Field(f)|) { SplitsInside(fields[1..], |c.buf| - |Field(f)|); }
            hide SplitsField, NoneHarms;
            FieldsTrickle(c1, fields, rest, acc);
          }
        }
      } else {
        FieldGone(c, f, more);
        HarmsMove(c, fields);
        hide SplitsField, NoneHarms;
        FieldsTrickle(Drain(c, |Field(f)|), fields[1..], rest, acc + [f]);
        assert acc + [f] + fields[1..] == acc + fields;
      }
    }
  }

  // ----- the request -----

  /** What was sent comes back, and exactly the bytes after it are left. */
  predicate Exact(result: (Read<(seq<byte>, seq<seq<byte>>)>, Conn), op: seq<byte>, fields: seq<seq<byte>>,
                  rest: seq<byte>) {
    result.0 == Got((op, fields)) && Held(result.1) == rest
  }

  lemma ReceivesMore(c: Conn, c1: Conn, again: bool)
    requires FindCrlf(c.buf).None? && Fill(c) == (if again then Partial else Got(()), c1) && (again ==> c1.socket != [])
    ensures Drive(c) == Drive(c1) && (!again ==> ReadCommand(c) == ReadCommand(c1))
  {
    hide FindCrlf, Fill, ParseHead, ReadFields;
    assert ReadCommand(c) == if again then (Partial, c1) else ReadCommand(c1);
    hide ReadCommand;
  }

  /** Before the end of the head line a delivery changes nothing. */
  lemma HeadWaits(c: Conn, op: seq<byte>, fields: seq<seq<byte>>, rest: seq<byte>)
    requires ValidOp(op) && Sized(fields) && Trickling(c) && Held(c) == Command(op, fields) + rest
    requires |c.buf| < |HeadLine(op, |fields|)| + 2
    ensures c.socket != []
    ensures
      var c1, offset := Receive(c), |HeadLine(op, |fields|)| + 2;
      && Trickling(c1) && Held(c1) == Held(c) && Drive(c) == Drive(c1)
      && (c.socket[0].Data? ==> ReadCommand(c) == ReadCommand(c1))
      && (NoneHarms(fields, c, offset) <==> NoneHarms(fields, c1, offset))
  {
    hide Fields, HeadLine, FindCrlf, Fill, Held, CutOf, Harms, NoneHarms, ValidOp, Sized, Command, Drive, ReadCommand;
    CommandShape(op, fields, rest);
    NextDelivery(c);
    HeldStarts(c);
    assert c.buf + Held(c)[|c.buf|..] == Held(c);
    HeadNotYet(c.buf, Held(c)[|c.buf|..], op, fields, rest);
    ReceivesMore(c, Receive(c), c.socket[0].Again?);
    HarmsStart(fields, c, Receive(c), |HeadLine(op, |fields|)| + 2);
    NoHarmOutside(fields, c.socket[0], |c.buf| - (|HeadLine(op, |fields|)| + 2));
  }

  /** From the end of the head line on one call decides, since it takes the head
      line off for good. */
  lemma HeadRead(c: Conn, op: seq<byte>, fields: seq<seq<byte>>, rest: seq<byte>)
    requires ValidOp(op) && Sized(fields) && Trickling(c) && Held(c) == Command(op, fields) + rest
    requires |c.buf| >= |HeadLine(op, |fields|)| + 2
    ensures Exact(ReadCommand(c), op, fields, rest) <==> NoneHarms(fields, c, |HeadLine(op, |fields|)| + 2)
    ensures |Held(ReadCommand(c).1)| < |Held(c)|
  {
    hide Fields, HeadLine, FindCrlf, ParseHead, Fill, Held, ReadFields, Harms, CutOf, NoneHarms;
    var head := HeadLine(op, |fields|);
    var body := Fields(fields) + rest;
    HeadLineParses(op, |fields|);
    assert Held(c) == head + CRLF + body;
    HeldStarts(c);
    var start := c.buf[|head| + 2..];
    assert c.buf == head + CRLF + start;
    CrlfAfter(head, start);
    assert c.buf[..|head|] == head;
    var c1 := Drain(c, |head| + 2);
    CutsMove(c, |head| + 2);
    assert Held(c)[|head| + 2..] == body;
    FieldsTrickle(c1, fields, rest, []);
    FieldsTake(c1, |fields|, []);
    assert [] + fields == fields;
    OffsetMoves(c, fields, |head| + 2);
    assert |Held(ReadFields(c1, |fields|, []).1)| <= |Held(c1)|;
  }

  lemma OffsetMoves(c: Conn, fields: seq<seq<byte>>, offset: nat)
    requires offset <= |c.buf|
    ensures NoneHarms(fields, c, offset) <==> NoneHarms(fields, Drain(c, offset), 0)
  {
    hide Harms, CutOf;
    CutsMove(c, offset);
    forall k | 0 <= k < |c.socket|
      ensures CutOf(c, k) - offset == CutOf(Drain(c, offset), k) - 0
    {
    }
  }

  /** Over any number of calls, whatever data and pauses the socket delivers: the
      request comes back exactly, with exactly the bytes after it left, if and
      only if no delivery begins inside the data of a field or right after its
      length line, and no pause lies between the end of the head line and the
      end of the command. */
  lemma {:induction false} DeliveredExactly(c: Conn, op: seq<byte>, fields: seq<seq<byte>>, rest: seq<byte>)
    requires ValidOp(op) && Sized(fields) && Trickling(c) && Held(c) == Command(op, fields) + rest
    ensures Exact(Drive(c), op, fields, rest) <==> NoneHarms(fields, c, |HeadLine(op, |fields|)| + 2)
    decreases |c.socket|
  {
    hide HeadLine, ReadCommand, Held, NoneHarms, ValidOp, Sized, Trickling, Command;
    if |c.buf| < |HeadLine(op, |fields|)| + 2 {
      HeadWaits(c, op, fields, rest);
      DeliveredExactly(Receive(c), op, fields, rest);
    } else {
      HeadRead(c, op, fields, rest);
      var (r, c') := ReadCommand(c);
      if r.Partial? && c'.socket != [] { DriveTakes(c'); }
    }
  }

  /** Read in one call, with nothing to wait for. */
  lemma {:induction false} PiecesReadExactly(c: Conn, op: seq<byte>, fields: seq<seq<byte>>, rest: seq<byte>)
    requires ValidOp(op) && Sized(fields) && Held(c) == Command(op, fields) + rest
    requires Trickling(c) && forall k :: 0 <= k < |c.socket| ==> c.socket[k].Data?
    ensures Exact(ReadCommand(c), op, fields, rest) <==>
      forall k :: 0 <= k < |c.socket| ==> !SplitsField(fields, CutOf(c, k) - (|HeadLine(op, |fields|)| + 2))
    decreases |c.socket|
  {
    hide HeadLine, ReadCommand, Held, ValidOp, Sized, Trickling, Command, CutOf, SplitsField, NoneHarms;
    if |c.buf| < |HeadLine(op, |fields|)| + 2 {
      HeadWaits(c, op, fields, rest);
      PiecesReadExactly(Receive(c), op, fields, rest);
      DataHarms(Receive(c), fields, |HeadLine(op, |fields|)| + 2);
    } else {
      HeadRead(c, op, fields, rest);
    }
    DataHarms(c, fields, |HeadLine(op, |fields|)| + 2);
  }

  lemma DataHarms(c: Conn, fields: seq<seq<byte>>, offset: nat)
    requires forall k :: 0 <= k < |c.socket| ==> c.socket[k].Data?
    ensures NoneHarms(fields, c, offset) <==>
      forall k :: 0 <= k < |c.socket| ==> !SplitsField(fields, CutOf(c, k) - offset)
  {
    hide SplitsField, CutOf;
    forall k | 0 <= k < |c.socket|
      ensures !Harms(fields, c.socket[k], CutOf(c, k) - offset) <==> !SplitsField(fields, CutOf(c, k) - offset)
    {
    }
  }

  /** The stream with its first cut bytes in the buffer and the rest delivered next. */
  function CutAt(stream: seq<byte>, cut: nat): Conn
    requires cut < |stream|
  {
    Conn(stream[..cut], false, [Data(stream[cut..])])
  }

  /** In two pieces. */
  lemma CutReadExactly(op: seq<byte>, fields: seq<seq<byte>>, rest: seq<byte>, cut: nat)
    requires ValidOp(op) && Sized(fields) && cut < |Command(op, fields) + rest|
    ensures Exact(ReadCommand(CutAt(Command(op, fields) + rest, cut)), op, fields, rest) <==>
      !SplitsField(fields, cut - (|HeadLine(op, |fields|)| + 2))
  {
    hide ReadCommand, Command, SplitsField, ValidOp, Sized;
    var stream := Command(op, fields) + rest;
    var c := CutAt(stream, cut);
    TwoPieces(stream, cut);
    PiecesReadExactly(c, op, fields, rest);
  }

  /** The same cut with a pause in it. */
  function PauseAt(stream: seq<byte>, cut: nat): Conn
    requires cut < |stream|
  {
    Conn(stream[..cut], false, [Again, Data(stream[cut..])])
  }

  lemma TwoPieces(stream: seq<byte>, cut: nat)
    requires cut < |stream|
    ensures var c := CutAt(stream, cut);
      Held(c) == stream && CutOf(c, 0) == cut
    ensures var c := PauseAt(stream, cut);
      Held(c) == stream && CutOf(c, 0) == cut && CutOf(c, 1) == cut
  {
    assert stream[..cut] + stream[cut..] == stream;
    var last := [Data(stream[cut..])];
    assert last[1..] == [] && ([Again] + last)[1..] == last && ([Again] + last)[..1] == [Again];
    assert Bytes(last) == stream[cut..] && Bytes([Again]) == [];
    assert last[..0] == [] && ([Again] + last)[..0] == [];
    assert [Again] + last == [Again, Data(stream[cut..])];
  }

  /** Over calls separated by a pause, a request cut in two comes back exactly if
      and only if the cut is before the end of the head line or after the whole
      command. */
  lemma PauseReadExactly(op: seq<byte>, fields: seq<seq<byte>>, rest: seq<byte>, cut: nat)
    requires ValidOp(op) && Sized(fields) && cut < |Command(op, fields) + rest|
    ensures Exact(Drive(PauseAt(Command(op, fields) + rest, cut)), op, fields, rest) <==>
      cut < |HeadLine(op, |fields|)| + 2 || cut >= |Command(op, fields)|
  {
    hide Drive, Command, SplitsField, ValidOp, Sized, HeadLine, Fields, CutOf;
    var stream := Command(op, fields) + rest;
    var c := PauseAt(stream, cut);
    TwoPieces(stream, cut);
    DeliveredExactly(c, op, fields, rest);
    CommandShape(op, fields, rest);
    var offset := |HeadLine(op, |fields|)| + 2;
    NoHarmOutside(fields, c.socket[1], cut - offset);
    assert Harms(fields, c.socket[0], cut - offset) <==> offset <= cut < |Command(op, fields)|;
  }

  // ----- the size of a receive -----

  /** The bytes one receive takes at most. */
  const MAX_RECEIVE: nat := 65_536

  predicate Capped(c: Conn) {
    forall k :: 0 <= k < |c.socket| && c.socket[k].Data? ==> |c.socket[k].bytes| <= MAX_RECEIVE
  }

  /** Where a field's data starts, counted from the end of the head line. */
  function DataStart(fields: seq<seq<byte>>, j: nat): nat
    requires j < |fields|
  {
    if j == 0 then |LengthLine(|fields[0]|)| + 2 else |Field(fields[0])| + DataStart(fields[1..], j - 1)
  }

  lemma {:induction false} SplitsAt(fields: seq<seq<byte>>, j: nat, cut: int)
    requires j < |fields| && DataStart(fields, j) <= cut < DataStart(fields, j) + |fields[j]|
    ensures SplitsField(fields, cut)
    decreases j
  {
    hide LengthLine, Field;
    FieldLength(fields[0]);
    if j > 0 { SplitsAt(fields[1..], j - 1, cut - |Field(fields[0])|); }
  }

  lemma {:induction false} DataInside(fields: seq<seq<byte>>, j: nat)
    requires j < |fields|
    ensures DataStart(fields, j) + |fields[j]| <= |Fields(fields)|
    decreases j
  {
    hide LengthLine, Field;
    FieldLength(fields[0]);
    if j > 0 { DataInside(fields[1..], j - 1); }
  }

  lemma {:induction false} BytesAppend(socket: seq<Delivery>, d: Delivery)
    ensures |Bytes(socket + [d])| == |Bytes(socket)| + if d.Data? then |d.bytes| else 0
    decreases |socket|
  {
    if socket == [] {
      assert [d][1..] == [];
    } else {
      assert (socket + [d])[1..] == socket[1..] + [d];
      BytesAppend(socket[1..], d);
    }
  }

  lemma CutStep(c: Conn, k: nat)
    requires k < |c.socket|
    ensures CutOf(c, k + 1) == CutOf(c, k) + if c.socket[k].Data? then |c.socket[k].bytes| else 0
  {
    assert c.socket[..k + 1] == c.socket[..k] + [c.socket[k]];
    BytesAppend(c.socket[..k], c.socket[k]);
  }

  /** Some delivery starts in any stretch of that length the buffer ends before. */
  lemma CutWithin(c: Conn, end: nat) returns (k: nat)
    requires Capped(c) && |c.buf| < end <= |Held(c)|
    ensures k < |c.socket| && end - MAX_RECEIVE <= CutOf(c, k) < end
  {
    hide Bytes;
    assert c.socket[..|c.socket|] == c.socket;
    k := |c.socket|;
    while CutOf(c, k) >= end
      decreases k
      invariant k <= |c.socket| && (k < |c.socket| ==> end - MAX_RECEIVE <= CutOf(c, k))
      invariant CutOf(c, k) >= end || k < |c.socket|
    {
      if k == 0 { CutsStartAtBuffer(c); }
      CutStep(c, k - 1);
      k := k - 1;
    }
  }

  lemma CutsStartAtBuffer(c: Conn)
    ensures CutOf(c, 0) == |c.buf|
  {
    assert c.socket[..0] == [];
  }

  /** A request with a field of 65,536 bytes or more never comes back exactly,
      however it is sent: some receive begins in that field, or a pause does. */
  lemma LongFieldIsLost(c: Conn, op: seq<byte>, fields: seq<seq<byte>>, rest: seq<byte>, j: nat)
    requires ValidOp(op) && Sized(fields) && Trickling(c) && Held(c) == Command(op, fields) + rest
    requires c.buf == [] && Capped(c) && j < |fields| && |fields[j]| >= MAX_RECEIVE
    ensures !Exact(Drive(c), op, fields, rest)
  {
    hide Drive, Command, HeadLine, Fields, SplitsField, CutOf, ValidOp, Sized, Trickling, Capped, Held;
    var offset := |HeadLine(op, |fields|)| + 2;
    CommandShape(op, fields, rest);
    DataInside(fields, j);
    var k := CutWithin(c, offset + DataStart(fields, j) + |fields[j]|);
    SplitsAt(fields, j, CutOf(c, k) - offset);
    SplitsInside(fields, CutOf(c, k) - offset);
    assert Harms(fields, c.socket[k], CutOf(c, k) - offset);
    DeliveredExactly(c, op, fields, rest);
  }

  /** What the receives find when the whole stream is waiting. */
  function InFull(stream: seq<byte>): seq<Delivery> {
    if |stream| <= MAX_RECEIVE then (if stream == [] then [] else [Data(stream)])
    else [Data(stream[..MAX_RECEIVE])] + InFull(stream[MAX_RECEIVE..])
  }

  lemma {:induction false} FullIsAll(stream: seq<byte>)
    ensures
      var socket := InFull(stream);
      && Bytes(socket) == stream && Fragments(socket)
      && forall k :: 0 <= k < |socket| ==> socket[k].Data? && |socket[k].bytes| <= MAX_RECEIVE
    decreases |stream|
  {
    if |stream| > MAX_RECEIVE {
      FullIsAll(stream[MAX_RECEIVE..]);
      assert stream[..MAX_RECEIVE] + stream[MAX_RECEIVE..] == stream;
    } else {
      assert [Data(stream)][1..] == [];
    }
  }

  lemma {:induction false} FullCuts(stream: seq<byte>, k: nat)
    ensures k < |InFull(stream)| <==> k * MAX_RECEIVE < |stream|
    ensures k < |InFull(stream)| ==> |Bytes(InFull(stream)[..k])| == k * MAX_RECEIVE
    decreases k
  {
    if k == 0 {
      assert InFull(stream)[..k] == [];
    } else {
      assert k * MAX_RECEIVE == (k - 1) * MAX_RECEIVE + MAX_RECEIVE;
      if |stream| > MAX_RECEIVE {
        var later := InFull(stream[MAX_RECEIVE..]);
        FullCuts(stream[MAX_RECEIVE..], k - 1);
        if k < |InFull(stream)| { assert InFull(stream)[..k][1..] == later[..k - 1]; }
      }
    }
  }

  /** When the whole request is waiting it comes back exactly if and only if no
      multiple of 65,536 falls into the data of a field; byte 65,536 in a field
      is enough to lose it. */
  lemma WaitingReadExactly(first: bool, op: seq<byte>, fields: seq<seq<byte>>, rest: seq<byte>)
    requires ValidOp(op) && Sized(fields)
    ensures
      var stream, offset := Command(op, fields) + rest, |HeadLine(op, |fields|)| + 2;
      var exact := Exact(ReadCommand(Conn([], first, InFull(stream))), op, fields, rest);
      && (exact <==> forall m: nat :: m * MAX_RECEIVE < |stream| ==> !SplitsField(fields, m * MAX_RECEIVE - offset))
      && (SplitsField(fields, MAX_RECEIVE - offset) ==> !exact)
  {
    hide ReadCommand, Command, HeadLine, SplitsField, ValidOp, Sized, InFull, Fields, Bytes, Exact;
    var stream := Command(op, fields) + rest;
    var c := Conn([], first, InFull(stream));
    FullIsAll(stream);
    assert Held(c) == stream && Trickling(c);
    PiecesReadExactly(c, op, fields, rest);
    var offset := |HeadLine(op, |fields|)| + 2;
    forall m: nat
      ensures (m < |c.socket| <==> m * MAX_RECEIVE < |stream|) && (m < |c.socket| ==> CutOf(c, m) == m * MAX_RECEIVE)
    {
      FullCuts(stream, m);
    }
    CommandShape(op, fields, rest);
    if SplitsField(fields, MAX_RECEIVE - offset) {
      SplitsInside(fields, MAX_RECEIVE - offset);
      assert 1 * MAX_RECEIVE < |stream|;
    }
  }
}
