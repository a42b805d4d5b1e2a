/** A fixed-capacity byte buffer with a read position and a write position (src/buffer.h).
    `unread` is the abstract value: the bytes written and not yet drained. */
module Buffers {

  class Buffer<T(0)> {
    const buf: array<T>
    var pos: nat
    var last: nat

    ghost var unread: seq<T>

    ghost predicate Valid()
      reads this, buf
    {
      pos <= last <= buf.Length && unread == buf[pos..last]
    }

    constructor (capacity: nat)
      ensures Valid() && fresh(buf) && buf.Length == capacity
      ensures pos == last == 0 && unread == []
    {
      buf := new T[capacity];
      pos, last, unread := 0, 0, [];
    }

    method Reset()
      requires Valid()
      modifies this
      ensures Valid() && pos == last == 0 && unread == []
    {
      pos, last, unread := 0, 0, [];
    }

    function RLeft(): (n: nat)
      requires Valid()
      reads this, buf
      ensures n == |unread|
    {
      last - pos
    }

    function WLeft(): nat
      requires Valid()
      reads this, buf
    {
      buf.Length - last
    }

    /** Writes as much of `src` as fits. */
    method Write(src: seq<T>) returns (n: nat)
      requires Valid()
      modifies this`last, this`unread, buf
      ensures Valid()
      ensures n == if |src| <= old(WLeft()) then |src| else old(WLeft())
      ensures last == old(last) + n
      ensures unread == old(unread) + src[..n]
      ensures buf[..pos] == old(buf[..pos])
    {
      n := if |src| < WLeft() then |src| else WLeft();
      CopyIn(src[..n]);
    }

    /** The caller must have checked the space: the C++ asserts it. */
    method WriteFull(src: seq<T>)
      requires Valid() && |src| <= WLeft()
      modifies this`last, this`unread, buf
      ensures Valid()
      ensures last == old(last) + |src|
      ensures unread == old(unread) + src
      ensures buf[..pos] == old(buf[..pos])
    {
      CopyIn(src);
    }

    /** `std::copy_n` to the write position. */
    method CopyIn(src: seq<T>)
      requires Valid() && |src| <= WLeft()
      modifies this`last, this`unread, buf
      ensures Valid()
      ensures last == old(last) + |src|
      ensures unread == old(unread) + src
      ensures buf[..pos] == old(buf[..pos])
    {
      for i := 0 to |src|
        modifies buf
        invariant buf[..last] == old(buf[..last])
        invariant buf[last..last + i] == src[..i]
      {
        buf[last + i] := src[i];
      }
      last, unread := last + |src|, unread + src;
      assert buf[..last] == old(buf[..last]) + src;
      assert old(buf[..last])[pos..] == old(unread);
    }

    method WriteByte(x: T)
      requires Valid() && WLeft() >= 1
      modifies this`last, this`unread, buf
      ensures Valid()
      ensures last == old(last) + 1
      ensures unread == old(unread) + [x]
      ensures buf[..pos] == old(buf[..pos])
    {
      CopyIn([x]);
    }

    method Fill(x: T, count: nat)
      requires Valid() && count <= WLeft()
      modifies this`last, this`unread, buf
      ensures Valid()
      ensures last == old(last) + count
      ensures unread == old(unread) + seq(count, _ => x)
      ensures buf[..pos] == old(buf[..pos])
    {
      CopyIn(seq(count, _ => x));
    }

    /** Claims bytes that were placed behind the write position by other means. */
    method Claim(count: nat) returns (n: nat)
      requires Valid()
      modifies this`last, this`unread
      ensures Valid()
      ensures n == if count <= old(WLeft()) then count else old(WLeft())
      ensures last == old(last) + n
      ensures unread == old(unread) + buf[old(last)..last]
    {
      n := if count < WLeft() then count else WLeft();
      unread := unread + buf[last..last + n];
      last := last + n;
    }

    method Drain(count: nat) returns (n: nat)
      requires Valid()
      modifies this`pos, this`unread
      ensures Valid()
      ensures n == if count <= old(RLeft()) then count else old(RLeft())
      ensures pos == old(pos) + n
      ensures unread == old(unread)[n..]
    {
      n := if count < RLeft() then count else RLeft();
      pos, unread := pos + n, unread[n..];
    }

    /** Drains and moves the rest to the front of the array, in place. */
    method DrainReset(count: nat) returns (n: nat)
      requires Valid()
      modifies this, buf
      ensures Valid()
      ensures n == if count <= old(RLeft()) then count else old(RLeft())
      ensures pos == 0 && unread == old(unread)[n..]
      ensures WLeft() == old(WLeft()) + old(pos) + n
    {
      n := if count < RLeft() then count else RLeft();
      ghost var rest := buf[pos + n..last];
      var len := last - (pos + n);
      for i := 0 to len
        modifies buf
        invariant buf[..i] == rest[..i]
        invariant forall k :: i <= k < len ==> buf[pos + n + k] == rest[k]
      {
        buf[i] := buf[pos + n + i];
      }
      pos, last, unread := 0, len, unread[n..];
      assert rest == unread;
    }
  }
}
