/** The request format of protocol.rs and what the daemon's reader makes of a
    connection's bytes as the socket delivers them. */
module WireSpec {
  import opened Words
  import opened Wrappers
  import opened Decimal
  import opened Text

  const MAX_USIZE: nat := 0xffff_ffff_ffff_ffff
  /** A vector of fields takes 24 bytes a field, and at most isize::MAX bytes. */
  const MAX_FIELDS: nat := 0x7fff_ffff_ffff_ffff / 24

  const CRLF: seq<byte> := [13, 10]
  const SPACE: byte := 32
  const DOLLAR: byte := 36

  // ----- the writer -----

  function HeadLine(op: seq<byte>, count: nat): seq<byte> {
    op + [SPACE] + Digits(count)
  }

  function LengthLine(len: nat): seq<byte> {
    [DOLLAR] + Digits(len)
  }

  function Field(data: seq<byte>): seq<byte> {
    LengthLine(|data|) + CRLF + data
  }

  function Fields(fields: seq<seq<byte>>): seq<byte> {
    if fields == [] then [] else Field(fields[0]) + Fields(fields[1..])
  }

  function Command(op: seq<byte>, fields: seq<seq<byte>>): seq<byte> {
    HeadLine(op, |fields|) + CRLF + Fields(fields)
  }

  // ----- the connection -----

  /** What one receive finds: bytes, nothing yet, the end of the stream, or an error. */
  datatype Delivery = Data(bytes: seq<byte>) | Again | End | Broken

  /** The daemon's side of a connection: its buffer, whether nothing has been
      received yet, and the deliveries the socket still has in store. */
  datatype Conn = Conn(buf: seq<byte>, first: bool, socket: seq<Delivery>)

  /** What a read gives. Panic is a panic of the daemon. */
  datatype Read<+T> = Got(value: T) | Partial | Eof | Bad | Panic

  /** The same failure of another read. */
  function Failed<T, U>(r: Read<T>): Read<U>
    requires !r.Got?
  {
    match r case Partial => Partial case Eof => Eof case Bad => Bad case Panic => Panic
  }

  function Pop(c: Conn, more: seq<byte>): Conn
    requires c.socket != []
  {
    Conn(c.buf + more, false, c.socket[1..])
  }

  /** client_fill: the first receive takes zero bytes as success. The end of the
      stream stays in the socket. */
  function Fill(c: Conn): (r: (Read<()>, Conn))
    ensures r.0.Got? ==> Budget(r.1) < Budget(c)
    ensures Budget(r.1) <= Budget(c) && !r.0.Panic? && Waits(c, r.0, r.1)
  {
    if c.socket == [] then (Partial, c.(first := false))
    else match c.socket[0]
      case Again => (Partial, Pop(c, []))
      case Broken => (Eof, Pop(c, []))
      case End => (if c.first then Got(()) else Eof, c.(first := false))
      case Data(d) => (if c.first || d != [] then Got(()) else Eof, Pop(c, d))
  }

  /** A wait for more uses up what the socket has, or part of it. */
  predicate Waits<T>(c: Conn, r: Read<T>, c': Conn) {
    r.Partial? && c'.socket != [] ==> Budget(c') < Budget(c)
  }

  function Budget(c: Conn): nat {
    2 * |c.socket| + if c.first then 1 else 0
  }

  // ----- the reader -----

  predicate CrlfAt(buf: seq<byte>, i: nat) {
    i + 2 <= |buf| && buf[i] == 13 && buf[i + 1] == 10
  }

  /** The first position where CR LF starts. */
  function FindCrlf(buf: seq<byte>): (r: Option<nat>)
    ensures r.Some? ==> CrlfAt(buf, r.value) && forall i: nat :: i < r.value ==> !CrlfAt(buf, i)
    ensures r.None? ==> forall i: nat :: !CrlfAt(buf, i)
  {
    if |buf| < 2 then None
    else if CrlfAt(buf, 0) then Some(0)
    else
      assert forall i: nat :: i > 0 ==> CrlfAt(buf, i) == CrlfAt(buf[1..], i - 1);
      match FindCrlf(buf[1..]) case None => None case Some(p) => Some(p + 1)
  }

  /** The operation and the field count of a head line. */
  function ParseHead(head: seq<byte>): Option<(seq<byte>, nat)> {
    match SplitOnce(head, SPACE)
    case None => None
    case Some((op, count)) =>
      match ParseUnsigned(count, MAX_USIZE)
      case None => None
      case Some(n) => Some((op, n))
  }

  function ParseLength(line: seq<byte>): Option<nat> {
    if line != [] && line[0] == DOLLAR then ParseUnsigned(line[1..], MAX_USIZE) else None
  }

  function Drain(c: Conn, n: nat): Conn
    requires n <= |c.buf|
  {
    c.(buf := c.buf[n..])
  }

  /** One field. A length line is taken off the buffer before it is known
      whether the data is there; if it is not, the search starts over. */
  function ReadField(c: Conn): (r: (Read<seq<byte>>, Conn))
    ensures Budget(r.1) <= Budget(c) && !r.0.Panic? && Waits(c, r.0, r.1)
    decreases Budget(c)
  {
    match FindCrlf(c.buf)
    case None =>
      var (f, c') := Fill(c);
      if f.Got? then ReadField(c') else (Failed(f), c')
    case Some(pos) =>
      var c1 := Drain(c, pos + 2);
      match ParseLength(c.buf[..pos])
      case None => (Bad, c1)
      case Some(len) =>
        if len <= |c1.buf| then (Got(c1.buf[..len]), Drain(c1, len))
        else
          var (f, c') := Fill(c1);
          if f.Got? then ReadField(c') else (Failed(f), c')
  }

  function ReadFields(c: Conn, n: nat, acc: seq<seq<byte>>): (r: (Read<seq<seq<byte>>>, Conn))
    ensures Budget(r.1) <= Budget(c) && !r.0.Panic? && Waits(c, r.0, r.1)
    decreases n
  {
    if n == 0 then (Got(acc), c)
    else
      var (f, c') := ReadField(c);
      if f.Got? then ReadFields(c', n - 1, acc + [f.value]) else (Failed(f), c')
  }

  /** client_read_command. Room for all the announced fields is reserved before
      the first is read. */
  function ReadCommand(c: Conn): (r: (Read<(seq<byte>, seq<seq<byte>>)>, Conn))
    ensures Budget(r.1) <= Budget(c) && Waits(c, r.0, r.1)
    decreases Budget(c)
  {
    match FindCrlf(c.buf)
    case None =>
      var (f, c') := Fill(c);
      if f.Got? then ReadCommand(c') else (Failed(f), c')
    case Some(pos) =>
      var c1 := Drain(c, pos + 2);
      match ParseHead(c.buf[..pos])
      case None => (Bad, c1)
      case Some((op, count)) =>
        if count > MAX_FIELDS then (Panic, c1)
        else
          var (f, c') := ReadFields(c1, count, []);
          if f.Got? then (Got((op, f.value)), c') else (Failed(f), c')
  }
}
