/** src/net/buffer.cpp: a growable byte queue over one array with a reader and a writer index. */
module NetBuffer {
  import opened Bytes

  const CHEAP_PREPEND: nat := 8
  const INITIAL_SIZE: nat := 1024
  const EXTRA_SIZE: nat := 65536

  /** std::copy from a range outside the array. */
  method CopyBytes(a: array<byte>, at: nat, data: Bytes)
    requires at + |data| <= a.Length
    modifies a
    ensures a[..at] == old(a[..at]) && a[at..at + |data|] == data
  {
    for i := 0 to |data|
      invariant a[..at] == old(a[..at])
      invariant a[at..at + i] == data[..i]
    {
      a[at + i] := data[i];
    }
  }

  /** std::copy towards the front of the same array; the ranges may overlap. */
  method MoveDown(a: array<byte>, at: nat, from: nat, n: nat)
    requires at <= from && from + n <= a.Length
    modifies a
    ensures a[at..at + n] == old(a[from..from + n])
  {
    for i := 0 to n
      invariant a[at..at + i] == old(a[from..from + n])[..i]
      invariant a[from + i..from + n] == old(a[from..from + n])[i..]
    {
      assert a[from + i] == a[from + i..from + n][0];
      a[at + i] := a[from + i];
    }
  }

  class Buffer {
    var storage: array<byte>
    var readerIndex: nat
    var writerIndex: nat

    ghost predicate Valid()
      reads this
    {
      CHEAP_PREPEND <= readerIndex <= writerIndex <= storage.Length
    }

    /** The queued bytes, oldest first. */
    function Contents(): Bytes
      requires Valid()
      reads this, storage
    {
      storage[readerIndex..writerIndex]
    }

    function ReadableBytes(): nat
      requires Valid()
      reads this
    {
      writerIndex - readerIndex
    }

    function WritableBytes(): nat
      requires Valid()
      reads this
    {
      storage.Length - writerIndex
    }

    constructor (initialSize: nat)
      ensures Valid() && fresh(storage) && Contents() == []
    {
      storage := new byte[CHEAP_PREPEND + initialSize](_ => 0);
      readerIndex, writerIndex := CHEAP_PREPEND, CHEAP_PREPEND;
    }

    function FindCrlf(): Option<nat>
      requires Valid()
      reads this, storage
    {
      Find(Contents(), CRLF)
    }

    method Retrieve(len: nat)
      requires Valid()
      modifies this`readerIndex, this`writerIndex
      ensures Valid()
      ensures Contents() == if len <= |old(Contents())| then old(Contents())[len..] else []
    {
      if len < ReadableBytes() {
        readerIndex := readerIndex + len;
      } else {
        RetrieveAll();
      }
    }

    method RetrieveAll()
      requires Valid()
      modifies this`readerIndex, this`writerIndex
      ensures Valid() && Contents() == []
    {
      readerIndex, writerIndex := CHEAP_PREPEND, CHEAP_PREPEND;
    }

    method RetrieveAsString(len: nat) returns (result: Bytes)
      requires Valid()
      modifies this`readerIndex, this`writerIndex
      ensures Valid()
      ensures len <= |old(Contents())| ==> result == old(Contents())[..len] && Contents() == old(Contents())[len..]
      ensures len > |old(Contents())| ==> result == old(Contents()) && Contents() == []
    {
      var n := if len <= ReadableBytes() then len else ReadableBytes();
      result := Contents()[..n];
      Retrieve(n);
    }

    method Append(data: Bytes)
      requires Valid()
      modifies this, storage
      ensures Valid() && (storage == old(storage) || fresh(storage))
      ensures Contents() == old(Contents()) + data
    {
      EnsureWritableBytes(|data|);
      CopyBytes(storage, writerIndex, data);
      assert storage[readerIndex..writerIndex] == storage[..writerIndex][readerIndex..];
      assert storage[readerIndex..writerIndex + |data|]
        == storage[readerIndex..writerIndex] + storage[writerIndex..writerIndex + |data|];
      writerIndex := writerIndex + |data|;
    }

    method EnsureWritableBytes(len: nat)
      requires Valid()
      modifies this, storage
      ensures Valid() && (storage == old(storage) || fresh(storage))
      ensures Contents() == old(Contents()) && WritableBytes() >= len
    {
      if WritableBytes() < len {
        MakeSpace(len);
      }
    }

    /** Grows the array, or moves the unread bytes to the front when that is enough. */
    method MakeSpace(len: nat)
      requires Valid()
      modifies this, storage
      ensures Valid() && (storage == old(storage) || fresh(storage))
      ensures Contents() == old(Contents()) && WritableBytes() >= len
    {
      if WritableBytes() + readerIndex < len + CHEAP_PREPEND {
        var grown := new byte[writerIndex + len](_ => 0);
        CopyBytes(grown, 0, storage[..writerIndex]);
        assert grown[readerIndex..writerIndex] == grown[0..0 + writerIndex][readerIndex..writerIndex];
        storage := grown;
      } else {
        var readable := ReadableBytes();
        MoveDown(storage, CHEAP_PREPEND, readerIndex, readable);
        readerIndex := CHEAP_PREPEND;
        writerIndex := readerIndex + readable;
      }
    }

    /** readv into the free tail and a stack array; the kernel delivered `data`. */
    method ReadFd(data: Bytes)
      requires Valid()
      requires |data| <= WritableBytes() + if WritableBytes() < EXTRA_SIZE then EXTRA_SIZE else 0
      modifies this, storage
      ensures Valid() && (storage == old(storage) || fresh(storage))
      ensures Contents() == old(Contents()) + data
    {
      var writable := WritableBytes();
      var direct := if |data| <= writable then |data| else writable;
      CopyBytes(storage, writerIndex, data[..direct]);
      assert storage[readerIndex..writerIndex] == storage[..writerIndex][readerIndex..];
      assert storage[readerIndex..writerIndex + direct]
        == storage[readerIndex..writerIndex] + storage[writerIndex..writerIndex + direct];
      writerIndex := writerIndex + direct;
      if |data| > writable {
        Append(data[writable..]);
      }
    }
  }
}
