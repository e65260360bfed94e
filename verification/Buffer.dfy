/** The sliding byte buffer under every connection. Bytes are modelled as characters. */
module ByteBuffer {
  import opened Text

  const BUFFER_DEFAULT_SIZE: nat := 1024

  function Max(a: nat, b: nat): nat { if a < b then b else a }

  /** One line of a byte queue including its '\n', or "" while no line is complete. */
  function FirstLine(contents: string): (line: string)
    ensures line <= contents
    ensures line == "" <==> '\n' !in contents
    ensures line != "" ==> line[|line| - 1] == '\n' && '\n' !in line[..|line| - 1]
  {
    FindFirstChar(contents, '\n');
    match Find(contents, ['\n'], 0)
    case None => ""
    case Some(i) => contents[..i + 1]
  }

  /** The line ends at the first '\n'. */
  lemma LineEndsAt(c: string, i: nat)
    requires i < |c| && c[i] == '\n' && forall k :: 0 <= k < i ==> c[k] != '\n'
    ensures FirstLine(c) == c[..i + 1]
  {
    assert c == c[..i] + ['\n'] + c[i + 1..];
    FindChar(c[..i], '\n', c[i + 1..]);
  }

  /** Bytes behind a complete line do not change it. */
  lemma LineInPrefix(a: string, b: string)
    requires FirstLine(a) != ""
    ensures FirstLine(a + b) == FirstLine(a)
  {
    var i := |FirstLine(a)| - 1;
    forall k | 0 <= k < i ensures (a + b)[k] != '\n' {
      assert a[k] == FirstLine(a)[..i][k];
    }
    assert (a + b)[i] == FirstLine(a)[i];
    LineEndsAt(a + b, i);
    assert (a + b)[..i + 1] == a[..i + 1];
  }

  class Buffer {
    var data: array<char>    // the vector
    var reader: nat
    var writer: nat
    ghost var peak: nat      // the largest (readable + 2 * len) over all writes so far

    ghost predicate Valid()
      reads this, data
    {
      && reader <= writer <= data.Length
      && BUFFER_DEFAULT_SIZE <= data.Length <= Max(BUFFER_DEFAULT_SIZE, peak)
    }

    /** The abstract value: the queue of bytes written and not yet read. */
    ghost function Contents(): string
      requires Valid()
      reads this, data
    {
      data[reader..writer]
    }

    constructor ()
      ensures Valid() && fresh(data)
      ensures Contents() == "" && data.Length == 1024 && peak == 0
    {
      data := new char[BUFFER_DEFAULT_SIZE](_ => '\0');
      reader, writer, peak := 0, 0, 0;
    }

    function TailIdleSize(): nat
      requires writer <= data.Length
      reads this
    {
      data.Length - writer
    }

    function HeadIdleSize(): nat
      reads this
    {
      reader
    }

    function ReadAbleSize(): (n: nat)
      requires Valid()
      reads this, data
      ensures n == |Contents()|
    {
      writer - reader
    }

    method MoveReadOffset(len: nat)
      requires Valid() && len <= |Contents()|
      modifies this`reader
      ensures Valid() && Contents() == old(Contents())[len..]
    {
      if len == 0 { return; }
      reader := reader + len;
    }

    method MoveWriteOffset(len: nat)
      requires Valid() && len <= TailIdleSize()
      modifies this`writer
      ensures Valid()
      ensures Contents() == old(Contents()) + old(data[writer..writer + len])
    {
      writer := writer + len;
    }

    /** Room for `len` more bytes behind the write offset; the queue itself does not change. */
    method EnsureWriteSpace(len: nat)
      requires Valid()
      modifies this`data, this`reader, this`writer, this`peak, data
      ensures Valid() && len <= TailIdleSize()
      ensures Contents() == old(Contents())
      ensures data == old(data) || fresh(data)
      ensures peak == Max(old(peak), |old(Contents())| + 2 * len)
    {
      peak := Max(peak, |Contents()| + 2 * len);
      if TailIdleSize() >= len { return; }
      if len <= TailIdleSize() + HeadIdleSize() {
        var rsz := ReadAbleSize();
        CopyDown(reader, rsz);
        reader := 0;
        writer := rsz;
      } else {
        var grown := new char[writer + len](_ => '\0');
        forall i | 0 <= i < data.Length { grown[i] := data[i]; }
        data := grown;
      }
    }

    /** std::copy of data[from..from + n] to the front; the two ranges may overlap. */
    method CopyDown(from: nat, n: nat)
      requires from + n <= data.Length
      modifies data
      ensures data[..n] == old(data[from..from + n])
    {
      var i := 0;
      while i < n
        invariant 0 <= i <= n
        invariant forall k :: 0 <= k < i ==> data[k] == old(data[from + k])
        invariant forall k :: from + i <= k < data.Length ==> data[k] == old(data[k])
      {
        data[i] := data[from + i];
        i := i + 1;
      }
    }

    /** std::copy of foreign bytes to data[at..]. */
    method CopyIn(at: nat, bytes: string)
      requires at + |bytes| <= data.Length
      modifies data
      ensures data[..at] == old(data[..at]) && data[at..at + |bytes|] == bytes
    {
      for i := 0 to |bytes|
        invariant data[..at] == old(data[..at])
        invariant forall k :: 0 <= k < i ==> data[at + k] == bytes[k]
      {
        data[at + i] := bytes[i];
      }
    }

    /** Copies the bytes behind the write offset without moving it. */
    method Write(bytes: string)
      requires Valid()
      modifies this, data
      ensures Valid() && |bytes| <= TailIdleSize()
      ensures Contents() == old(Contents())
      ensures data[writer..writer + |bytes|] == bytes
      ensures data == old(data) || fresh(data)
      ensures peak == if bytes == "" then old(peak) else Max(old(peak), |old(Contents())| + 2 * |bytes|)
    {
      if |bytes| == 0 { return; }
      EnsureWriteSpace(|bytes|);
      ghost var before := data[..];
      CopyIn(writer, bytes);
      assert data[reader..writer] == before[reader..writer];
    }

    method WriteAndPush(bytes: string)
      requires Valid()
      modifies this, data
      ensures Valid() && Contents() == old(Contents()) + bytes
      ensures data == old(data) || fresh(data)
      ensures peak == if bytes == "" then old(peak) else Max(old(peak), |old(Contents())| + 2 * |bytes|)
    {
      Write(bytes);
      MoveWriteOffset(|bytes|);
    }

    /** Appends what another buffer holds; the other one is only read. */
    method WriteBufferAndPush(other: Buffer)
      requires Valid() && other.Valid() && other != this && other.data != data
      modifies this, data
      ensures Valid() && Contents() == old(Contents()) + other.Contents()
      ensures other.Valid() && other.Contents() == old(other.Contents())
      ensures data == old(data) || fresh(data)
    {
      WriteAndPush(other.data[other.reader..other.writer]);
    }

    method ReadAsStringAndPop(len: nat) returns (str: string)
      requires Valid() && len <= |Contents()|
      modifies this`reader
      ensures Valid() && str + Contents() == old(Contents()) && |str| == len
    {
      str := data[reader..reader + len];
      MoveReadOffset(len);
    }

    method GetLine() returns (line: string)
      requires Valid()
      ensures line == FirstLine(Contents())
    {
      // memchr for '\n' over the readable bytes
      var i := reader;
      while i < writer && data[i] != '\n'
        invariant reader <= i <= writer
        invariant forall k :: reader <= k < i ==> data[k] != '\n'
      {
        i := i + 1;
      }
      ghost var c := Contents();
      if i == writer {
        assert '\n' !in c;
        return "";
      }
      line := data[reader..i + 1];
      LineEndsAt(c, i - reader);
    }

    method GetLineAndPop() returns (line: string)
      requires Valid()
      modifies this`reader
      ensures Valid()
      ensures line == FirstLine(old(Contents())) && line + Contents() == old(Contents())
    {
      line := GetLine();
      MoveReadOffset(|line|);
    }

    method Clear()
      requires Valid()
      modifies this`reader, this`writer
      ensures Valid() && Contents() == ""
    {
      reader, writer := 0, 0;
    }
  }

  /** The operations that change a buffer. */
  datatype Op =
    | Append(bytes: string) | Write(bytes: string) | MoveWriteOffset(n: nat) | EnsureWriteSpace(len: nat)
    | Take(n: nat) | TakeLine | Wipe

  /** The abstract value: the queue, and what the last write put behind it and is not pushed yet. */
  datatype Bytes = Bytes(queue: string, pending: string)

  /** No more is taken than is there, and nothing is pushed that was not written. */
  predicate Meets(b: Bytes, op: Op) {
    match op
    case Take(n) => n <= |b.queue|
    case MoveWriteOffset(n) => n <= |b.pending|
    case _ => true
  }

  function Step(b: Bytes, op: Op): Bytes
    requires Meets(b, op)
  {
    match op
    case Append(bytes) => Bytes(b.queue + bytes, "")
    case Write(bytes) => b.(pending := bytes)
    case MoveWriteOffset(n) => Bytes(b.queue + b.pending[..n], b.pending[n..])
    case EnsureWriteSpace(_) => b.(pending := "")
    case Take(n) => b.(queue := b.queue[n..])
    case TakeLine => b.(queue := b.queue[|FirstLine(b.queue)|..])
    case Wipe => Bytes("", "")
  }

  /** What an operation asks room for: readable + 2 * len. */
  function Demand(b: Bytes, op: Op): nat {
    match op
    case Append(bytes) => if bytes == "" then 0 else |b.queue| + 2 * |bytes|
    case Write(bytes) => if bytes == "" then 0 else |b.queue| + 2 * |bytes|
    case EnsureWriteSpace(len) => |b.queue| + 2 * len
    case _ => 0
  }

  ghost predicate Allowed(ops: seq<Op>, b: Bytes) {
    ops == [] || (Meets(b, ops[0]) && Allowed(ops[1..], Step(b, ops[0])))
  }

  ghost function Final(ops: seq<Op>, b: Bytes): Bytes
    requires Allowed(ops, b)
  {
    if ops == [] then b else Final(ops[1..], Step(b, ops[0]))
  }

  /** The largest demand of an operation sequence. */
  ghost function Peak(ops: seq<Op>, b: Bytes): nat
    requires Allowed(ops, b)
  {
    if ops == [] then 0 else Max(Demand(b, ops[0]), Peak(ops[1..], Step(b, ops[0])))
  }

  /** The buffer holds the queue, and behind its write offset the pending bytes. */
  ghost predicate Holds(buf: Buffer, b: Bytes)
    reads buf, buf.data
  {
    && buf.Valid() && buf.Contents() == b.queue
    && buf.writer + |b.pending| <= buf.data.Length
    && buf.data[buf.writer..buf.writer + |b.pending|] == b.pending
  }

  lemma SplitPending(data: string, at: nat, pending: string, n: nat)
    requires n <= |pending| && at + |pending| <= |data| && data[at..at + |pending|] == pending
    ensures data[at..at + n] == pending[..n] && data[at + n..at + |pending|] == pending[n..]
  {
  }

  method PerformPush(buf: Buffer, n: nat, ghost b: Bytes)
    requires Holds(buf, b) && n <= |b.pending|
    modifies buf`writer
    ensures Holds(buf, Bytes(b.queue + b.pending[..n], b.pending[n..]))
  {
    SplitPending(buf.data[..], buf.writer, b.pending, n);
    buf.MoveWriteOffset(n);
  }

  method PerformTake(buf: Buffer, n: nat, ghost b: Bytes)
    requires Holds(buf, b) && n <= |b.queue|
    modifies buf`reader
    ensures Holds(buf, b.(queue := b.queue[n..]))
  {
    var _ := buf.ReadAsStringAndPop(n);
  }

  method PerformTakeLine(buf: Buffer, ghost b: Bytes)
    requires Holds(buf, b)
    modifies buf`reader
    ensures Holds(buf, b.(queue := b.queue[|FirstLine(b.queue)|..]))
  {
    hide FirstLine;
    var line := buf.GetLineAndPop();
    assert b.queue[|line|..] == buf.Contents();
  }

  method Perform(buf: Buffer, op: Op, ghost b: Bytes)
    requires Holds(buf, b) && Meets(b, op)
    modifies buf, buf.data
    ensures Holds(buf, Step(b, op))
    ensures buf.data == old(buf.data) || fresh(buf.data)
    ensures buf.peak == Max(old(buf.peak), Demand(b, op))
  {
    hide FirstLine;
    match op {
      case Append(bytes) => buf.WriteAndPush(bytes);
      case Write(bytes) => buf.Write(bytes);
      case MoveWriteOffset(n) => PerformPush(buf, n, b);
      case EnsureWriteSpace(len) => buf.EnsureWriteSpace(len);
      case Take(n) => PerformTake(buf, n, b);
      case TakeLine => PerformTakeLine(buf, b);
      case Wipe => buf.Clear();
    }
  }

  /** Every operation sequence behaves as on a plain byte queue, within the capacity bound. */
  method Replay(ops: seq<Op>) returns (buf: Buffer)
    requires Allowed(ops, Bytes("", ""))
    ensures Holds(buf, Final(ops, Bytes("", "")))
    ensures buf.data.Length <= Max(1024, Peak(ops, Bytes("", "")))
  {
    hide Holds, Step, Demand, Meets;
    buf := new Buffer();
    ghost var b := Bytes("", "");
    assert Holds(buf, b) by { HoldsEmpty(buf); }
    var i := 0;
    while i < |ops|
      invariant 0 <= i <= |ops|
      invariant fresh(buf) && fresh(buf.data) && Holds(buf, b)
      invariant Allowed(ops[i..], b)
      invariant Final(ops, Bytes("", "")) == Final(ops[i..], b)
      invariant Peak(ops, Bytes("", "")) == Max(buf.peak, Peak(ops[i..], b))
    {
      assert ops[i..][1..] == ops[i + 1..];
      Perform(buf, ops[i], b);
      b := Step(b, ops[i]);
      i := i + 1;
    }
    HoldsValid(buf, b);
  }

  lemma HoldsEmpty(buf: Buffer)
    requires buf.Valid() && buf.Contents() == ""
    ensures Holds(buf, Bytes("", ""))
  {
  }

  lemma HoldsValid(buf: Buffer, b: Bytes)
    requires Holds(buf, b)
    ensures buf.Valid()
  {
  }
}
