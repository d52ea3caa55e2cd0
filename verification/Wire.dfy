/** build_cmd and the daemon's client of protocol.rs, its buffer edited in place. */
module Wire {
  import opened Words
  import opened Wrappers
  import opened Decimal
  import opened WireSpec

  lemma FieldsAppend(fields: seq<seq<byte>>, f: seq<byte>)
    ensures Fields(fields + [f]) == Fields(fields) + Field(f)
    decreases |fields|
  {
    hide Field;
    if fields == [] {
      assert (fields + [f])[1..] == [] && Fields([f][1..]) == [];
    } else {
      assert (fields + [f])[1..] == fields[1..] + [f];
      FieldsAppend(fields[1..], f);
    }
  }

  method BuildCmd(op: seq<byte>, fields: seq<seq<byte>>) returns (buf: seq<byte>)
    ensures buf == Command(op, fields)
  {
    hide Fields, LengthLine, HeadLine;
    buf := HeadLine(op, |fields|) + CRLF;
    assert Fields([]) == [] by { NoFields(); }
    for i := 0 to |fields|
      invariant buf == HeadLine(op, |fields|) + CRLF + Fields(fields[..i])
    {
      var f := fields[i];
      assert fields[..i + 1] == fields[..i] + [f];
      FieldsAppend(fields[..i], f);
      buf := buf + LengthLine(|f|) + CRLF;
      buf := buf + f;
    }
    assert fields[..|fields|] == fields;
  }

  lemma NoFields()
    ensures Fields([]) == []
  {
  }

  class DaemonClient {
    var buf: seq<byte>
    var first: bool
    var socket: seq<Delivery>

    constructor (socket: seq<Delivery>)
      ensures State() == Conn([], true, socket)
    {
      this.buf, this.first, this.socket := [], true, socket;
    }

    function State(): Conn
      reads this
    {
      Conn(buf, first, socket)
    }

    method ClientFill() returns (r: Read<()>)
      modifies this
      ensures (r, State()) == Fill(old(State()))
    {
      var wasFirst := first;
      assert buf + [] == buf;
      first := false;
      if socket == [] {
        return Partial;
      }
      match socket[0] {
        case End => r := if wasFirst then Got(()) else Eof;
        case Again => socket := socket[1..]; r := Partial;
        case Broken => socket := socket[1..]; r := Eof;
        case Data(d) =>
          socket := socket[1..];
          buf := buf + d;
          r := if wasFirst || d != [] then Got(()) else Eof;
      }
    }

    /** The inner loop: one field. */
    method ReadOneField() returns (r: Read<seq<byte>>)
      modifies this
      ensures (r, State()) == ReadField(old(State()))
    {
      hide Fill, FindCrlf, ParseLength;
      while true
        invariant ReadField(old(State())) == ReadField(State())
        decreases Budget(State())
      {
        var crlf := FindCrlf(buf);
        if crlf.Some? {
          var line := buf[..crlf.value];
          buf := buf[crlf.value + 2..];
          var len := ParseLength(line);
          if len.None? {
            return Bad;
          }
          if |buf| < len.value {
            var f := ClientFill();
            if f.Got? {
              continue;
            }
            return Failed(f);
          }
          var data := buf[..len.value];
          buf := buf[len.value..];
          return Got(data);
        } else {
          var f := ClientFill();
          if f.Got? {
            continue;
          }
          return Failed(f);
        }
      }
    }

    method ReadCommandLine() returns (r: Read<(seq<byte>, seq<seq<byte>>)>)
      modifies this
      ensures (r, State()) == ReadCommand(old(State()))
    {
      hide Fill, FindCrlf, ParseHead, ReadField;
      while true
        invariant ReadCommand(old(State())) == ReadCommand(State())
        decreases Budget(State())
      {
        var crlf := FindCrlf(buf);
        if crlf.Some? {
          var head := buf[..crlf.value];
          buf := buf[crlf.value + 2..];
          var parsed := ParseHead(head);
          if parsed.None? {
            return Bad;
          }
          var (op, count) := parsed.value;
          if count > MAX_FIELDS {
            return Panic;
          }
          ghost var c1 := State();
          var fields: seq<seq<byte>> := [];
          for i := 0 to count
            invariant ReadFields(c1, count, []) == ReadFields(State(), count - i, fields)
          {
            var f := ReadOneField();
            if !f.Got? {
              return Failed(f);
            }
            fields := fields + [f.value];
          }
          return Got((op, fields));
        } else {
          var f := ClientFill();
          if f.Got? {
            continue;
          }
          return Failed(f);
        }
      }
    }
  }
}
