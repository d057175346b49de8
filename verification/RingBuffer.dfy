/**
  The ring buffer under the SPI link: two indices into a fixed array, one slot of which stays
  free so that equal indices mean empty. Callers check the space or the available bytes first.
 */
module RingBuffer {
  import opened Bytes

  class Ring {
    const data: array<Byte>
    var read: nat
    var write: nat

    ghost predicate Valid()
      reads this
    {
      read < data.Length && write < data.Length
    }

    /** The bytes written and not yet read, oldest first. */
    ghost function Contents(): seq<Byte>
      requires Valid()
      reads this, data
    {
      Window(data[..], read, write)
    }

    constructor (size: nat)
      requires size > 0
      ensures Valid() && fresh(data) && data.Length == size && Contents() == []
    {
      data := new Byte[size];
      read, write := 0, 0;
    }

    method Available() returns (n: nat)
      requires Valid()
      ensures n == |Contents()|
    {
      Modulo(data.Length + write - read, data.Length);
      WindowSize(data[..], read, write);
      hide Window;
      n := (data.Length + write - read) % data.Length;
    }

    method Space() returns (n: nat)
      requires Valid()
      ensures n == data.Length - 1 - |Contents()|
    {
      Modulo(data.Length - 1 + read - write, data.Length);
      WindowSize(data[..], read, write);
      hide Window;
      n := (data.Length - 1 + read - write) % data.Length;
    }

    method Copy(src: seq<Byte>, at: nat)
      requires at + |src| <= data.Length
      modifies data
      ensures data[..] == old(data[..at]) + src + old(data[at + |src|..])
    {
      var i := 0;
      while i < |src|
        invariant i <= |src|
        invariant data[..] == old(data[..at]) + src[..i] + old(data[at + i..])
      {
        ghost var before := data[..];
        data[at + i] := src[i];
        assert data[..] == before[at + i := src[i]];
        i := i + 1;
      }
      assert src[..i] == src;
    }

    /** One copy to the write index, which wraps at the end of the array. */
    method Append(src: seq<Byte>)
      requires Valid() && |src| <= data.Length - 1 - |Contents()| && write + |src| <= data.Length
      modifies this`write, data
      ensures Valid() && Contents() == old(Contents()) + src
      ensures write == Wrapped(old(write) + |src|, data.Length)
    {
      hide Window;
      ghost var before, r, w := data[..], read, write;
      Copy(src, write);
      write := Wrapped(write + |src|, data.Length);
      WindowGrows(before, data[..], r, w, src);
    }

    /** Appends; nothing to append is refused without effect. */
    method Write(src: seq<Byte>) returns (result: int)
      requires Valid() && |src| <= data.Length - 1 - |Contents()|
      modifies this`write, data
      ensures Valid() && Contents() == old(Contents()) + src
      ensures result == if src == [] then -1 else 0
    {
      if src == [] {
        return -1;
      }
      if write < read {
        Append(src);
      } else {
        var n := data.Length - write;
        if n >= |src| {
          n := |src|;
        }
        assert src[..n] + src[n..] == src;
        Append(src[..n]);
        if n != |src| {
          Append(src[n..]);
        }
      }
      return 0;
    }

    /** One copy from the read index, which wraps at the end of the array. */
    method Take(count: nat) returns (bytes: seq<Byte>)
      requires Valid() && count <= |Contents()| && read + count <= data.Length
      modifies this`read
      ensures Valid() && |bytes| == count && bytes + Contents() == old(Contents())
      ensures read == Wrapped(old(read) + count, data.Length)
    {
      hide Window;
      ghost var r := read;
      bytes := data[read..read + count];
      read := Wrapped(read + count, data.Length);
      WindowShrinks(data[..], r, write, count);
    }

    /** Removes and returns the oldest `count` bytes; asking for none is refused. */
    method Read(count: nat) returns (result: int, bytes: seq<Byte>)
      requires Valid() && count <= |Contents()|
      modifies this`read
      ensures Valid() && |bytes| == count && bytes + Contents() == old(Contents())
      ensures result == if count == 0 then -1 else 0
    {
      if count == 0 {
        return -1, [];
      }
      if read < write {
        bytes := Take(count);
      } else {
        var n := data.Length - read;
        if n >= count {
          n := count;
        }
        bytes := Take(n);
        if n != count {
          var more := Take(count - n);
          bytes := bytes + more;
        }
      }
      return 0, bytes;
    }
  }

  /** The part of a circular sequence from `read` up to `write`. */
  function Window(d: seq<Byte>, read: nat, write: nat): seq<Byte>
    requires read < |d| && write < |d|
  {
    if read <= write then d[read..write] else d[read..] + d[..write]
  }

  /** An index that has reached the end starts again. */
  function Wrapped(i: nat, size: nat): nat {
    if i == size then 0 else i
  }

  lemma Modulo(x: nat, n: nat)
    requires x < 2 * n
    ensures x % n == if x < n then x else x - n
  {
    if x >= n {
      assert x == 1 * n + (x - n);
    }
  }

  lemma WindowSize(d: seq<Byte>, read: nat, write: nat)
    requires read < |d| && write < |d|
    ensures |Window(d, read, write)| == if read <= write then write - read else |d| + write - read
  {
  }

  lemma WindowShrinks(d: seq<Byte>, read: nat, write: nat, count: nat)
    requires read < |d| && write < |d| && read + count <= |d| && count <= |Window(d, read, write)|
    ensures d[read..read + count] + Window(d, Wrapped(read + count, |d|), write) == Window(d, read, write)
  {
    if read > write {
      assert d[read..read + count] + d[read + count..] == d[read..];
      assert read + count == |d| ==> d[read..] + d[0..write] == d[read..] + d[..write];
    }
  }

  lemma WindowGrows(d: seq<Byte>, d': seq<Byte>, read: nat, write: nat, src: seq<Byte>)
    requires read < |d| && write < |d| && write + |src| <= |d|
    requires |src| <= |d| - 1 - |Window(d, read, write)|
    requires d' == d[..write] + src + d[write + |src|..]
    ensures Window(d', read, Wrapped(write + |src|, |d|)) == Window(d, read, write) + src
  {
    if read <= write {
      assert d'[read..write + |src|] == d[read..write] + src;
    } else {
      assert d'[..write + |src|] == d[..write] + src && d'[read..] == d[read..];
      assert d[read..] + (d[..write] + src) == d[read..] + d[..write] + src;
    }
  }
}
