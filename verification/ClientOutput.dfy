/** A client's output buffer: replies are appended to it and a flush hands the
    bytes to a kernel that may take any positive part of them at a time. */
module ClientOutput {
  import opened Bytes
  import opened Resp
  import opened SharedOutput

  class Output {
    const data: array<byte>
    var len: nat
    var offset: nat

    ghost predicate Valid()
      reads this
    {
      len <= data.Length
    }

    ghost function Contents(): Bytes
      reads this, data
      requires Valid()
    {
      data[..len]
    }

    constructor (capacity: nat)
      ensures Valid() && fresh(data) && data.Length == capacity && Contents() == [] && offset == 0
    {
      data := new byte[capacity];
      len, offset := 0, 0;
    }

    /** The copy does not check the room; its callers have to leave it. */
    method Write(bytes: Bytes)
      requires Valid() && len + |bytes| <= data.Length
      modifies `len, data
      ensures Valid() && Contents() == old(Contents()) + bytes
    {
      for k := 0 to |bytes|
        invariant len == old(len) && data[..len] == old(data[..len])
        invariant data[len..len + k] == bytes[..k]
      {
        data[len + k] := bytes[k];
      }
      len := len + |bytes|;
      assert data[..len] == data[..old(len)] + data[old(len)..len];
    }

    method WriteByte(b: byte)
      requires Valid() && len < data.Length
      modifies `len, data
      ensures Valid() && Contents() == old(Contents()) + [b]
    {
      data[len] := b;
      len := len + 1;
      assert data[..len] == data[..old(len)] + [b];
    }

    /** A bulk reply is one printed bulk string. */
    method WriteBulk(payload: Bytes)
      requires Valid() && len + |BulkBytes(payload)| <= data.Length
      modifies `len, data
      ensures Valid() && Contents() == old(Contents()) + BulkBytes(payload)
    {
      ghost var before := Contents();
      var header := [DOLLAR] + Decimal(|payload|) + CRLF;
      Write(header);
      Write(payload);
      WriteByte(CR);
      WriteByte(LF);
      assert before + header + payload + [CR] + [LF] == before + (header + payload + CRLF);
    }

    method WriteMultibulk(n: nat)
      requires Valid() && len + |Header(STAR, n)| <= data.Length
      modifies `len, data
      ensures Valid() && Contents() == old(Contents()) + Header(STAR, n)
    {
      Write([STAR] + Decimal(n) + CRLF);
    }

    method WriteError(msg: Bytes)
      requires Valid() && len + |ErrorReply(msg)| <= data.Length
      modifies `len, data
      ensures Valid() && Contents() == old(Contents()) + ErrorReply(msg)
    {
      ghost var before := Contents();
      Write(Ascii("-ERR "));
      Write(msg);
      WriteByte(CR);
      WriteByte(LF);
      assert before + Ascii("-ERR ") + msg + [CR] + [LF] == before + (Ascii("-ERR ") + msg + CRLF);
    }

    method Clear()
      requires Valid()
      modifies `len, `offset
      ensures Valid() && Contents() == [] && offset == 0
    {
      len, offset := 0, 0;
    }

    /** The kernel accepts some positive part of what it is offered. */
    method KernelWrite(from: nat, count: nat) returns (taken: nat, bytes: Bytes)
      requires Valid() && 0 < count && from + count == len
      ensures 1 <= taken <= count && bytes == data[from..from + taken]
    {
      taken :| 1 <= taken <= count;
      bytes := data[from..from + taken];
    }

    /** Whatever the kernel's schedule, the peer gets exactly the bytes from the
        offset on, each once and in order. */
    method FlushOffset(from: nat) returns (wire: Bytes)
      requires Valid()
      modifies `len
      ensures Valid() && data[..] == old(data[..])
      ensures wire == if from < old(len) then old(Contents())[from..] else []
      ensures len == if from < old(len) then 0 else old(len)
    {
      wire := [];
      if len <= from {
        return;
      }
      var sent, size, at := 0, len - from, from;
      while sent < size
        invariant 0 <= sent <= size && at == from + sent && len == old(len)
        invariant wire == data[from..at]
      {
        var taken, bytes := KernelWrite(at, len - at);
        wire := wire + bytes;
        sent, at := sent + taken, at + taken;
      }
      len := 0;
    }
  }
}
