/** net/Buffer.h and net/Buffer.cc: a sliding window over a growing array that holds a sequence of bytes. */
module NetBuffer {
  import opened Text
  import opened NetworkOrder

  const CHEAP_PREPEND := 8
  const INITIAL_SIZE := 1024
  const EXTRA_SIZE := 65536

  // The bytes of a with others written over them.
  function Overwritten(a: string, start: nat, bytes: string): (r: string)
    requires start + |bytes| <= |a|
    ensures |r| == |a|
  {
    a[..start] + bytes + a[start + |bytes|..]
  }

  lemma OverwrittenAt(a: string, start: nat, bytes: string)
    requires start + |bytes| <= |a|
    ensures forall i :: 0 <= i < |a| ==>
              Overwritten(a, start, bytes)[i] == if start <= i < start + |bytes| then bytes[i - start] else a[i]
  {
  }

  lemma OverwrittenBehind(a: string, from: nat, to: nat, bytes: string)
    requires from <= to && to + |bytes| <= |a|
    ensures Overwritten(a, to, bytes)[from..to + |bytes|] == a[from..to] + bytes
  {
    OverwrittenAt(a, to, bytes);
    hide Overwritten;
    SameString(Overwritten(a, to, bytes)[from..to + |bytes|], a[from..to] + bytes);
  }

  lemma OverwrittenBefore(a: string, from: nat, to: nat, bytes: string)
    requires |bytes| <= from <= to <= |a|
    ensures Overwritten(a, from - |bytes|, bytes)[from - |bytes|..to] == bytes + a[from..to]
  {
    OverwrittenAt(a, from - |bytes|, bytes);
    hide Overwritten;
    SameString(Overwritten(a, from - |bytes|, bytes)[from - |bytes|..to], bytes + a[from..to]);
  }

  lemma Parts(a: string, b: string, c: string)
    ensures (a + b + c)[..|a|] == a && (a + b + c)[|a|..] == b + c
    ensures (b + c)[..|b|] == b && (b + c)[|b|..] == c
  {
  }

  class Buffer {
    var buffer: array<char>
    var readerIndex: nat
    var writerIndex: nat

    ghost predicate Valid()
      reads this
    {
      readerIndex <= writerIndex <= buffer.Length && CHEAP_PREPEND <= buffer.Length
    }

    // The readable bytes.
    function Contents(): (s: string)
      requires Valid()
      reads this, buffer
      ensures |s| == ReadableBytes()
    {
      buffer[readerIndex..writerIndex]
    }

    function ReadableBytes(): nat
      requires Valid()
      reads this
    {
      writerIndex - readerIndex
    }

    function WritableBytes(): nat
      requires Valid()
      reads this
    {
      buffer.Length - writerIndex
    }

    function PrependableBytes(): nat
      reads this
    {
      readerIndex
    }

    constructor (initialSize: nat := INITIAL_SIZE)
      ensures Valid() && fresh(buffer) && Contents() == []
      ensures WritableBytes() == initialSize && PrependableBytes() == CHEAP_PREPEND
    {
      buffer := new char[CHEAP_PREPEND + initialSize];
      readerIndex := CHEAP_PREPEND;
      writerIndex := CHEAP_PREPEND;
    }

    method FindFirstCRLF() returns (crlf: int)
      requires Valid()
      ensures crlf == FindCRLF(Contents())
    {
      var i := readerIndex;
      while i + 1 < writerIndex
        invariant readerIndex <= i
        invariant forall j :: 0 <= j < i - readerIndex ==> !IsCRLF(Contents(), j)
      {
        if buffer[i] == '\r' && buffer[i + 1] == '\n' {
          FindCRLFIs(Contents(), i - readerIndex);
          return i - readerIndex;
        }
        i := i + 1;
      }
      FindCRLFNone(Contents());
      crlf := -1;
    }

    method FindEOL() returns (eol: nat)
      requires Valid()
      ensures eol == Find(Contents(), '\n')
    {
      eol := 0;
      while eol < writerIndex - readerIndex && buffer[readerIndex + eol] != '\n'
        invariant eol <= writerIndex - readerIndex
        invariant forall j :: 0 <= j < eol ==> Contents()[j] != '\n'
      {
        eol := eol + 1;
      }
      FindIs(Contents(), '\n', eol);
    }

    method Peek(len: nat) returns (s: string)
      requires Valid() && len <= ReadableBytes()
      ensures s == Contents()[..len]
    {
      s := buffer[readerIndex..readerIndex + len];
    }

    method Retrieve(len: nat)
      requires Valid() && len <= ReadableBytes()
      modifies this`readerIndex, this`writerIndex
      ensures Valid() && Contents() == old(Contents())[len..]
    {
      if len < ReadableBytes() {
        readerIndex := readerIndex + len;
      } else {
        RetrieveAll();
      }
    }

    method RetrieveAll()
      requires Valid()
      modifies this`readerIndex, this`writerIndex
      ensures Valid() && Contents() == []
    {
      readerIndex := CHEAP_PREPEND;
      writerIndex := CHEAP_PREPEND;
    }

    method RetrieveAsString(len: nat) returns (result: string)
      requires Valid() && len <= ReadableBytes()
      modifies this`readerIndex, this`writerIndex
      ensures Valid() && result == old(Contents())[..len] && Contents() == old(Contents())[len..]
    {
      result := Peek(len);
      Retrieve(len);
    }

    // The assertion on readerIndex is the source's own: it holds whenever makeSpace is called.
    method MakeSpace(len: nat)
      requires Valid() && WritableBytes() < len
      modifies this, buffer
      ensures Valid() && (buffer == old(buffer) || fresh(buffer))
      ensures Contents() == old(Contents()) && WritableBytes() >= len
    {
      ghost var before := Contents();
      if WritableBytes() + PrependableBytes() < len + CHEAP_PREPEND {
        var resized := new char[writerIndex + len];
        forall i | 0 <= i < writerIndex {
          resized[i] := buffer[i];
        }
        buffer := resized;
        assert forall i :: 0 <= i < |before| ==> Contents()[i] == before[i];
      } else {
        assert CHEAP_PREPEND < readerIndex;
        var readable := ReadableBytes();
        forall i | 0 <= i < readable {
          buffer[CHEAP_PREPEND + i] := buffer[readerIndex + i];
        }
        readerIndex := CHEAP_PREPEND;
        writerIndex := readerIndex + readable;
        assert forall i :: 0 <= i < |before| ==> Contents()[i] == buffer[CHEAP_PREPEND + i] == before[i];
      }
      SameString(Contents(), before);
    }

    method EnsureWritableBytes(len: nat)
      requires Valid()
      modifies this, buffer
      ensures Valid() && (buffer == old(buffer) || fresh(buffer))
      ensures Contents() == old(Contents()) && WritableBytes() >= len
      ensures len <= old(WritableBytes()) ==> unchanged(this) && unchanged(buffer)
    {
      if WritableBytes() < len {
        MakeSpace(len);
      }
    }

    // std::copy into the array.
    method WriteAt(start: nat, bytes: string)
      requires start + |bytes| <= buffer.Length
      modifies buffer
      ensures buffer[..] == Overwritten(old(buffer[..]), start, bytes)
    {
      hide Overwritten;
      ghost var before := buffer[..];
      forall i | 0 <= i < |bytes| {
        buffer[start + i] := bytes[i];
      }
      OverwrittenAt(before, start, bytes);
      SameString(buffer[..], Overwritten(before, start, bytes));
    }

    // Copies bytes to the writable end and claims them: beginWrite and hasWritten.
    method Fill(bytes: string)
      requires Valid() && |bytes| <= WritableBytes()
      modifies this`writerIndex, buffer
      ensures Valid() && Contents() == old(Contents()) + bytes
    {
      hide Overwritten;
      ghost var before := buffer[..];
      assert Contents() == before[readerIndex..writerIndex];
      OverwrittenBehind(before, readerIndex, writerIndex, bytes);
      WriteAt(writerIndex, bytes);
      writerIndex := writerIndex + |bytes|;
      assert Contents() == buffer[..][readerIndex..writerIndex];
    }

    method Append(bytes: string)
      requires Valid()
      modifies this, buffer
      ensures Valid() && (buffer == old(buffer) || fresh(buffer))
      ensures Contents() == old(Contents()) + bytes
      ensures |bytes| <= old(WritableBytes()) ==> WritableBytes() == old(WritableBytes()) - |bytes|
    {
      EnsureWritableBytes(|bytes|);
      Fill(bytes);
    }

    method Unwrite(len: nat)
      requires Valid() && len <= ReadableBytes()
      modifies this`writerIndex
      ensures Valid() && Contents() == old(Contents())[..|old(Contents())| - len]
    {
      writerIndex := writerIndex - len;
      SameString(Contents(), old(Contents())[..|old(Contents())| - len]);
    }

    method Prepend(bytes: string)
      requires Valid() && |bytes| <= PrependableBytes()
      modifies this`readerIndex, buffer
      ensures Valid() && Contents() == bytes + old(Contents())
    {
      hide Overwritten;
      ghost var before := buffer[..];
      assert Contents() == before[readerIndex..writerIndex];
      OverwrittenBefore(before, readerIndex, writerIndex, bytes);
      readerIndex := readerIndex - |bytes|;
      WriteAt(readerIndex, bytes);
      assert Contents() == buffer[..][readerIndex..writerIndex];
    }

    method Shrink(reserve: nat)
      requires Valid()
      modifies this
      ensures Valid() && fresh(buffer)
      ensures Contents() == old(Contents()) && WritableBytes() >= reserve
    {
      var other := new Buffer();
      other.EnsureWritableBytes(ReadableBytes() + reserve);
      var readable := Peek(ReadableBytes());
      other.Append(readable);
      buffer, readerIndex, writerIndex := other.buffer, other.readerIndex, other.writerIndex;
    }

    // readv gives n < 0 on error, or has filled the free space and then the extra segment with n bytes.
    method ReadFd(n: int, received: string) returns (result: int)
      requires Valid()
      requires n < 0
        || (|received| == n && n <= WritableBytes() + (if WritableBytes() < EXTRA_SIZE then EXTRA_SIZE else 0))
      modifies this, buffer
      ensures Valid() && (buffer == old(buffer) || fresh(buffer))
      ensures result == n
      ensures Contents() == old(Contents()) + (if n < 0 then "" else received)
    {
      var writable := WritableBytes();
      result := n;
      if n < 0 {
      } else if n <= writable {
        Fill(received);
      } else {
        Fill(received[..writable]);
        Append(received[writable..]);
        assert received == received[..writable] + received[writable..];
      }
    }

    // appendInt64, appendInt32, appendInt16 and appendInt8, for sizes 8, 4, 2 and 1.
    method AppendInt(x: int, size: nat)
      requires Valid()
      modifies this, buffer
      ensures Valid() && (buffer == old(buffer) || fresh(buffer))
      ensures Contents() == old(Contents()) + Encode(x, size)
    {
      Append(Encode(x, size));
    }

    method PrependInt(x: int, size: nat)
      requires Valid() && size <= PrependableBytes()
      modifies this`readerIndex, buffer
      ensures Valid() && Contents() == Encode(x, size) + old(Contents())
    {
      Prepend(Encode(x, size));
    }

    method PeekInt(size: nat) returns (x: int)
      requires Valid() && size <= ReadableBytes()
      ensures x == Decode(Contents()[..size])
    {
      var bytes := Peek(size);
      x := Decode(bytes);
    }

    // readInt64, readInt32, readInt16 and readInt8.
    method ReadInt(size: nat) returns (x: int)
      requires Valid() && size <= ReadableBytes()
      modifies this`readerIndex, this`writerIndex
      ensures Valid() && x == Decode(old(Contents())[..size]) && Contents() == old(Contents())[size..]
    {
      x := PeekInt(size);
      Retrieve(size);
    }
  }

  /** A signed integer put in front of any content, or between any content and what is appended later, reads back as
      written once what stands before it has been retrieved. */
  method IntegerRoundTrip(buf: Buffer, x: int, size: nat, inFront: bool, later: string) returns (y: int)
    requires buf.Valid() && FitsSigned(x, size) && (inFront ==> size <= buf.PrependableBytes())
    modifies buf, buf.buffer
    ensures buf.Valid() && y == x
    ensures buf.Contents() == (if inFront then old(buf.Contents()) else "") + later
  {
    ghost var before, bytes := buf.Contents(), Encode(x, size);
    hide Encode, Decode, FitsSigned;
    EncodeRoundTrip(x, size);
    if inFront {
      buf.PrependInt(x, size);
      buf.Append(later);
      Parts(bytes, before, later);
    } else {
      var skip := buf.ReadableBytes();
      buf.AppendInt(x, size);
      buf.Append(later);
      Parts(before, bytes, later);
      buf.Retrieve(skip);
      assert "" + later == later;
    }
    y := buf.ReadInt(size);
  }
}
