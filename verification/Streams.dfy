/** The growable byte stream that messages are written to and read from. */
module Streams {
  import opened Bytes

  const DEFAULT_PACKET_SIZE := 1024

  // ---- what a read takes from the unread bytes ----

  /** A read returns 0 and takes nothing when too few bytes are left. */
  function TakeByte(s: seq<Byte>): (r: (Byte, seq<Byte>)) {
    if |s| < 1 then (0, s) else (s[0], s[1..])
  }

  function TakeShort(s: seq<Byte>): (r: (U16, seq<Byte>)) {
    if |s| < 2 then (0, s) else (Get2(s[..2]), s[2..])
  }

  function TakeWord(s: seq<Byte>): (r: (U32, seq<Byte>)) {
    if |s| < 4 then (0, s) else (Get4(s[..4]), s[4..])
  }

  datatype Block = Block(bytes: seq<Byte>) | BadBlock

  /** A length-prefixed block of at most `limit` bytes; a bad one costs its prefix only. */
  function TakeBlock(s: seq<Byte>, limit: nat): (r: (Block, seq<Byte>)) {
    var (len, rest) := TakeShort(s);
    if len > limit || len > |rest| then (BadBlock, rest) else (Block(rest[..len]), rest[len..])
  }

  lemma Split<T>(a: seq<T>, b: seq<T>)
    ensures (a + b)[..|a|] == a && (a + b)[|a|..] == b
  {
  }

  lemma ByteBack(v: Byte, rest: seq<Byte>)
    ensures TakeByte([v] + rest) == (v, rest)
  {
    Split([v], rest);
  }

  lemma ShortBack(v: U16, rest: seq<Byte>)
    ensures TakeShort(Put2(v) + rest) == (v, rest)
  {
    Split(Put2(v), rest);
    Get2Put2(v);
  }

  lemma WordBack(v: U32, rest: seq<Byte>)
    ensures TakeWord(Put4(v) + rest) == (v, rest)
  {
    Split(Put4(v), rest);
    Get4Put4(v);
  }

  /** From too few bytes a read yields 0, and leaves them. */
  lemma TooShort(s: seq<Byte>)
    ensures |s| < 1 ==> TakeByte(s) == (0, s)
    ensures |s| < 2 ==> TakeShort(s) == (0, s)
    ensures |s| < 4 ==> TakeWord(s) == (0, s)
  {
  }

  lemma BlockBack(bytes: seq<Byte>, limit: nat, rest: seq<Byte>)
    requires |bytes| <= limit && |bytes| < 0x1_0000
    ensures TakeBlock(Put2(|bytes|) + (bytes + rest), limit) == (Block(bytes), rest)
  {
    ShortBack(|bytes|, bytes + rest);
    Split(bytes, rest);
  }

  /** A size doubled k times. */
  ghost function Doubled(size: nat, k: nat): nat {
    if k == 0 then size else 2 * Doubled(size, k - 1)
  }

  class BinStream {
    var data: array<Byte>
    var rptr: nat
    var rsize: nat
    var wptr: nat
    var used: nat

    ghost predicate Valid()
      reads this
    {
      && rptr == rsize && wptr == used
      && rsize <= used <= data.Length
      && DEFAULT_PACKET_SIZE <= data.Length
    }

    /** Everything written since the last reset. */
    ghost function Written(): (s: seq<Byte>)
      requires Valid()
      reads this, data
    {
      data[..used]
    }

    ghost function Unread(): (s: seq<Byte>)
      requires Valid()
      reads this, data
    {
      data[rsize..used]
    }

    constructor ()
      ensures Valid() && fresh(data) && Written() == [] && data.Length == DEFAULT_PACKET_SIZE
    {
      data := new Byte[DEFAULT_PACKET_SIZE];
      rptr, wptr, rsize, used := 0, 0, 0, 0;
    }

    /** Starts reading over; with `reset`, also forgets what was written. */
    method Rewind(reset: bool)
      requires Valid()
      modifies this
      ensures Valid() && data == old(data)
      ensures Written() == if reset then [] else old(Written())
      ensures Unread() == Written()
    {
      if reset {
        wptr, used := 0, 0;
      }
      rptr, rsize := 0, 0;
    }

    method AvailableRead() returns (n: nat)
      requires Valid()
      ensures n == |Unread()|
    {
      n := used - rsize;
    }

    /** Grows by doubling until `newSize` bytes fit; nothing written or read is lost. */
    method Resize(newSize: nat)
      requires Valid()
      modifies this
      ensures Valid() && (data == old(data) || fresh(data))
      ensures newSize <= data.Length && old(data.Length) <= data.Length
      ensures exists k :: data.Length == Doubled(old(data.Length), k)
      ensures data.Length == old(data.Length) || data.Length < 2 * newSize
      ensures Written() == old(Written()) && Unread() == old(Unread()) && used == old(used)
    {
      ghost var k := 0;
      assert data.Length == Doubled(data.Length, k);
      if newSize <= data.Length {
        return;
      }
      var allocSize := data.Length;
      while newSize > allocSize
        invariant data.Length <= allocSize && (allocSize == data.Length || allocSize < 2 * newSize)
        invariant allocSize == Doubled(data.Length, k)
        decreases newSize - allocSize
      {
        allocSize := allocSize * 2;
        k := k + 1;
      }
      var grown := new Byte[allocSize];
      forall i | 0 <= i < data.Length {
        grown[i] := data[i];
      }
      data := grown;
      wptr, rptr := used, rsize;
    }

    /** Returns an oversized buffer; what it held is gone. */
    method Reduce()
      requires Valid()
      modifies this
      ensures Valid() && (data == old(data) || fresh(data))
      ensures if old(data.Length) > 2 * DEFAULT_PACKET_SIZE then data.Length == DEFAULT_PACKET_SIZE
              else data == old(data)
      ensures Written() == if old(data.Length) > 2 * DEFAULT_PACKET_SIZE then [] else old(Written())
      ensures Unread() == if old(data.Length) > 2 * DEFAULT_PACKET_SIZE then [] else old(Unread())
    {
      if data.Length > DEFAULT_PACKET_SIZE * 2 {
        data := new Byte[DEFAULT_PACKET_SIZE];
        rptr, wptr, rsize, used := 0, 0, 0, 0;
      }
    }

    /** Slides the unread bytes to the front when space runs out; the unread bytes stay the same. */
    method Move()
      requires Valid()
      modifies this, data
      ensures Valid() && data == old(data)
      ensures Unread() == old(Unread())
      ensures rsize == if old(Unread()) == [] || (old(rsize) > data.Length / 2 && old(used) + 256 >= data.Length) then 0
                       else old(rsize)
    {
      if used == rsize && rsize > 0 {
        rptr, wptr, used, rsize := 0, 0, 0, 0;
      }
      if used > rsize && rsize > data.Length / 2 && used + 256 >= data.Length {
        var size := used - rsize;
        forall i | 0 <= i < size {
          data[i] := data[rptr + i];
        }
        wptr, rptr, rsize, used := size, 0, 0, size;
      }
    }

    /** RESIZE(s) */
    method Ensure(s: nat)
      requires Valid()
      modifies this
      ensures Valid() && (data == old(data) || fresh(data))
      ensures used + s <= data.Length
      ensures Written() == old(Written()) && Unread() == old(Unread()) && used == old(used)
    {
      if data.Length < used + s {
        Resize(used + s);
      }
    }

    /** Copies `bytes` to the write position, which has room for them. */
    method Append(bytes: seq<Byte>)
      requires Valid() && used + |bytes| <= data.Length
      modifies this, data
      ensures Valid() && data == old(data)
      ensures Written() == old(Written()) + bytes && Unread() == old(Unread()) + bytes
    {
      forall i | 0 <= i < |bytes| {
        data[wptr + i] := bytes[i];
      }
      wptr, used := wptr + |bytes|, used + |bytes|;
    }

    method Write1(v: Byte)
      requires Valid()
      modifies this, data
      ensures Valid() && (data == old(data) || fresh(data))
      ensures Written() == old(Written()) + [v] && Unread() == old(Unread()) + [v]
    {
      Ensure(1);
      Append([v]);
    }

    method Write2(v: U16)
      requires Valid()
      modifies this, data
      ensures Valid() && (data == old(data) || fresh(data))
      ensures Written() == old(Written()) + Put2(v) && Unread() == old(Unread()) + Put2(v)
    {
      Ensure(2);
      Append(Put2(v));
    }

    method Write4(v: U32)
      requires Valid()
      modifies this, data
      ensures Valid() && (data == old(data) || fresh(data))
      ensures Written() == old(Written()) + Put4(v) && Unread() == old(Unread()) + Put4(v)
    {
      Ensure(4);
      Append(Put4(v));
    }

    /** A block behind its 16-bit length; a longer block keeps only the low bits of its length. */
    method WriteData(bytes: seq<Byte>)
      requires Valid()
      modifies this, data
      ensures Valid() && (data == old(data) || fresh(data))
      ensures Written() == old(Written()) + Put2(|bytes| % 0x1_0000) + bytes
      ensures Unread() == old(Unread()) + Put2(|bytes| % 0x1_0000) + bytes
    {
      Ensure(|bytes| + 2);
      Append(Put2(|bytes| % 0x1_0000));
      Append(bytes);
    }

    method Read1() returns (v: Byte)
      requires Valid()
      modifies this
      ensures Valid() && data == old(data) && Written() == old(Written())
      ensures (v, Unread()) == TakeByte(old(Unread()))
    {
      if used < rsize + 1 {
        v := 0;
      } else {
        v := data[rptr];
        rptr, rsize := rptr + 1, rsize + 1;
      }
    }

    method Read2() returns (v: U16)
      requires Valid()
      modifies this
      ensures Valid() && data == old(data) && Written() == old(Written())
      ensures (v, Unread()) == TakeShort(old(Unread()))
    {
      if used < rsize + 2 {
        v := 0;
      } else {
        v := Get2(data[rptr..rptr + 2]);
        assert old(Unread())[..2] == data[rptr..rptr + 2];
        rptr, rsize := rptr + 2, rsize + 2;
      }
    }

    method Read4() returns (v: U32)
      requires Valid()
      modifies this
      ensures Valid() && data == old(data) && Written() == old(Written())
      ensures (v, Unread()) == TakeWord(old(Unread()))
    {
      if used < rsize + 4 {
        v := 0;
      } else {
        v := Get4(data[rptr..rptr + 4]);
        assert old(Unread())[..4] == data[rptr..rptr + 4];
        rptr, rsize := rptr + 4, rsize + 4;
      }
    }

    method ReadData(limit: nat) returns (b: Block)
      requires Valid()
      modifies this
      ensures Valid() && data == old(data) && Written() == old(Written())
      ensures (b, Unread()) == TakeBlock(old(Unread()), limit)
    {
      var len := Read2();
      if len > limit || rsize + len > used {
        b := BadBlock;
      } else {
        b := Block(data[rptr..rptr + len]);
        assert Unread()[..len] == data[rptr..rptr + len];
        rptr, rsize := rptr + len, rsize + len;
      }
    }
  }
}
