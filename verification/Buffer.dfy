/** The FIFO byte buffer of buffer.c: a byte array with the data between `offset` and `end`, compacted and grown on
    demand. It refines a plain byte queue. */
module Buffer {
  import opened Wire

  /** Copies `n` bytes down from `from` to the front. The regions must not overlap. */
  method MoveToFront(a: array<byte>, from: nat, n: nat)
    requires n <= from && from + n <= a.Length
    modifies a
    ensures a[..n] == old(a[from..from+n])
    ensures forall i :: n <= i < a.Length ==> a[i] == old(a[i])
  {
    for i := 0 to n
      invariant forall j :: 0 <= j < i ==> a[j] == old(a[from + j])
      invariant forall j :: i <= j < a.Length ==> a[j] == old(a[j])
    {
      a[i] := a[from + i];
    }
  }

  class Buffer {
    var buf: array<byte>
    var alloc: nat
    var offset: nat
    var end: nat

    ghost predicate Valid()
      reads this
    {
      buf.Length == alloc && offset <= end <= alloc
    }

    /** The queue the buffer stands for. */
    ghost function Contents(): seq<byte>
      reads this, buf
      requires Valid()
    {
      buf[offset..end]
    }

    constructor ()
      ensures Valid() && fresh(buf) && Contents() == []
    {
      alloc := 4096;
      buf := new byte[4096];
      offset, end := 0, 0;
    }

    method Clear()
      requires Valid()
      modifies this
      ensures Valid() && buf == old(buf) && Contents() == []
    {
      offset, end := 0, 0;
    }

    /** Moves the data to the front of the array. More than half the array lies before it, so it does not overlap the
        place it moves to. */
    method Compact()
      requires Valid() && offset > alloc / 2
      modifies this`offset, this`end, buf
      ensures Valid() && offset == 0 && Contents() == old(Contents())
    {
      MoveToFront(buf, offset, end - offset);
      end := end - offset;
      offset := 0;
      assert buf[0..end] == buf[..end];
    }

    method Grow(len: nat)
      requires Valid()
      modifies this`alloc, this`buf
      ensures Valid() && alloc == old(alloc) + len + 32768 && fresh(buf) && Contents() == old(Contents())
    {
      var more := new byte[alloc + len + 32768];
      forall i | 0 <= i < alloc {
        more[i] := buf[i];
      }
      alloc := alloc + len + 32768;
      assert more[offset..end] == buf[offset..end];
      buf := more;
    }

    /** Makes room for `len` more bytes and returns where they go; what they hold is up to the caller. */
    method AppendSpace(len: nat) returns (at: nat)
      requires Valid()
      modifies this, buf
      ensures Valid() && (buf == old(buf) || fresh(buf))
      ensures offset <= at && at + len == end && buf[offset..at] == old(Contents())
    {
      if offset == end {
        offset, end := 0, 0;
      }
      while end + len >= alloc
        invariant Valid() && (buf == old(buf) || fresh(buf))
        invariant Contents() == old(Contents())
        decreases end + len >= alloc, offset
      {
        if offset > alloc / 2 {
          Compact();
        } else {
          Grow(len);
        }
      }
      at := end;
      end := end + len;
    }

    method Append(data: seq<byte>)
      requires Valid()
      modifies this, buf
      ensures Valid() && (buf == old(buf) || fresh(buf))
      ensures Contents() == old(Contents()) + data
    {
      var at := AppendSpace(|data|);
      ghost var kept := buf[offset..at];
      forall i | 0 <= i < |data| {
        buf[at + i] := data[i];
      }
      assert buf[at..end] == data;
      assert buf[offset..at] == kept;
      assert buf[offset..end] == buf[offset..at] + buf[at..end];
    }

    method Len() returns (n: nat)
      requires Valid()
      ensures n == |Contents()|
    {
      n := end - offset;
    }

    /** The bytes `from` to `to` of the data, as read through a pointer into it. */
    method Peek(from: nat, to: nat) returns (data: seq<byte>)
      requires Valid() && from <= to <= |Contents()|
      ensures data == Contents()[from..to]
    {
      data := buf[offset + from..offset + to];
      assert forall i :: 0 <= i < to - from ==> data[i] == buf[offset + from + i] == Contents()[from + i];
    }

    /** Takes `len` bytes from the front; asking for more than there are is fatal. */
    method Get(len: nat) returns (ok: bool, data: seq<byte>)
      requires Valid()
      modifies this
      ensures Valid() && buf == old(buf)
      ensures ok == (len <= |old(Contents())|)
      ensures ok ==> data == old(Contents())[..len] && Contents() == old(Contents())[len..]
      ensures !ok ==> Contents() == old(Contents())
    {
      if len > end - offset {
        return false, [];
      }
      data := buf[offset..offset + len];
      assert data == Contents()[..len];
      offset := offset + len;
      ok := true;
      assert buf[offset..end] == old(Contents())[len..];
    }

    method Consume(bytes: nat) returns (ok: bool)
      requires Valid()
      modifies this
      ensures Valid() && buf == old(buf)
      ensures ok == (bytes <= |old(Contents())|)
      ensures Contents() == if ok then old(Contents())[bytes..] else old(Contents())
    {
      if bytes > end - offset {
        return false;
      }
      offset := offset + bytes;
      ok := true;
      assert buf[offset..end] == old(Contents())[bytes..];
    }

    method ConsumeEnd(bytes: nat) returns (ok: bool)
      requires Valid()
      modifies this
      ensures Valid() && buf == old(buf)
      ensures ok == (bytes <= |old(Contents())|)
      ensures Contents() == if ok then old(Contents())[..|old(Contents())| - bytes] else old(Contents())
    {
      if bytes > end - offset {
        return false;
      }
      end := end - bytes;
      ok := true;
      assert buf[offset..end] == old(Contents())[..|old(Contents())| - bytes];
    }
  }

  // ---------------------------------------------------------------- runs

  datatype Op = OpClear | OpAppend(data: seq<byte>) | OpGet(len: nat) | OpConsume(n: nat) | OpConsumeEnd(n: nat)

  /** One operation on a plain queue: the queue afterwards and what it hands out. A request for too much hands out
      nothing and leaves the queue alone (the program ends there). */
  function QueueStep(q: seq<byte>, op: Op): (seq<byte>, seq<byte>) {
    match op
    case OpClear => ([], [])
    case OpAppend(data) => (q + data, [])
    case OpGet(len) => if len <= |q| then (q[len..], q[..len]) else (q, [])
    case OpConsume(n) => if n <= |q| then (q[n..], []) else (q, [])
    case OpConsumeEnd(n) => if n <= |q| then (q[..|q|-n], []) else (q, [])
  }

  function QueueAfter(q: seq<byte>, ops: seq<Op>): seq<byte> {
    if ops == [] then q else QueueStep(QueueAfter(q, ops[..|ops|-1]), ops[|ops|-1]).0
  }

  function QueueOutput(q: seq<byte>, ops: seq<Op>): seq<byte> {
    if ops == [] then []
    else
      var before := ops[..|ops|-1];
      QueueOutput(q, before) + QueueStep(QueueAfter(q, before), ops[|ops|-1]).1
  }

  /** A buffer taken through any operations hands out, and is left with, what a plain queue would. */
  method Perform(b: Buffer, ops: seq<Op>) returns (output: seq<byte>)
    requires b.Valid()
    modifies b, b.buf
    ensures b.Valid()
    ensures b.Contents() == QueueAfter(old(b.Contents()), ops)
    ensures output == QueueOutput(old(b.Contents()), ops)
  {
    output := [];
    ghost var q := b.Contents();
    var i := 0;
    while i < |ops|
      invariant i <= |ops|
      invariant b.Valid() && (b.buf == old(b.buf) || fresh(b.buf))
      invariant b.Contents() == QueueAfter(q, ops[..i])
      invariant output == QueueOutput(q, ops[..i])
    {
      assert ops[..i+1][..i] == ops[..i];
      match ops[i] {
        case OpClear => b.Clear();
        case OpAppend(data) => b.Append(data);
        case OpGet(len) =>
          var ok, data := b.Get(len);
          output := output + if ok then data else [];
        case OpConsume(n) => var ok := b.Consume(n);
        case OpConsumeEnd(n) => var ok := b.ConsumeEnd(n);
      }
      i := i + 1;
    }
    assert ops[..i] == ops;
  }
}
