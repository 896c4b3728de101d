/** Bytes and words as the bits a machine holds. */
module Octets {
  import opened Bytes

  function Octet(b: int): bv8
    requires 0 <= b < 256
  {
    b as bv8
  }

  lemma LowQuarter(n: int)
    requires 0 <= n < 64
    ensures (n as bv8) as int == n
  {
  }

  lemma SecondQuarter(n: int)
    requires 64 <= n < 128
    ensures (n as bv8) as int == n
  {
  }

  lemma FifthEighth(n: int)
    requires 128 <= n < 160
    ensures (n as bv8) as int == n
  {
  }

  lemma SixthEighth(n: int)
    requires 160 <= n < 192
    ensures (n as bv8) as int == n
  {
  }

  lemma TopQuarter(n: int)
    requires 192 <= n < 256
    ensures (n as bv8) as int == n
  {
  }

  lemma OctetBack(n: int)
    requires 0 <= n < 256
    ensures Octet(n) as int == n
  {
    if n < 64 {
      LowQuarter(n);
    } else if n < 128 {
      SecondQuarter(n);
    } else if n < 160 {
      FifthEighth(n);
    } else if n < 192 {
      SixthEighth(n);
    } else {
      TopQuarter(n);
    }
  }

  lemma OctetLosesNothing(b: Byte, c: Byte)
    requires Octet(b) == Octet(c)
    ensures b == c
  {
    OctetBack(b);
    OctetBack(c);
  }

  // ---- words ----

  function ByteOf(o: bv8): Byte {
    o as int
  }

  lemma OctetOf(o: bv8)
    ensures Octet(ByteOf(o)) == o
  {
  }

  function BytesOf(s: seq<bv8>): (t: seq<Byte>)
    ensures |t| == |s|
  {
    seq(|s|, i requires 0 <= i < |s| => ByteOf(s[i]))
  }

  lemma BytesOfLoseNothing(s: seq<bv8>, t: seq<bv8>)
    requires BytesOf(s) == BytesOf(t)
    ensures s == t
  {
    assert |s| == |BytesOf(s)| == |t|;
    forall i | 0 <= i < |s| ensures s[i] == t[i] {
      assert BytesOf(s)[i] == BytesOf(t)[i];
      OctetOf(s[i]);
      OctetOf(t[i]);
    }
  }

  function Part(w: bv32, shift: bv32): bv8
    requires shift <= 24
  {
    ((w >> shift) & 0xFF) as bv8
  }

  /** The octets of a word, highest first. */
  function Parts(w: bv32): (s: seq<bv8>)
    ensures |s| == 4
  {
    [Part(w, 24), Part(w, 16), Part(w, 8), Part(w, 0)]
  }

  /** mach_put_4 of a word: its bytes, highest first. */
  function WordBytes(w: bv32): (s: seq<Byte>)
    ensures |s| == 4
  {
    BytesOf(Parts(w))
  }

  lemma WordBytesLoseNothing(v: bv32, w: bv32)
    requires WordBytes(v) == WordBytes(w)
    ensures v == w
  {
    BytesOfLoseNothing(Parts(v), Parts(w));
  }

  /** The number that a word holds. */
  function Number(w: bv32): U32 {
    Get4(WordBytes(w))
  }

  lemma PutNumber(w: bv32)
    ensures Put4(Number(w)) == WordBytes(w)
  {
    Put4Get4(WordBytes(w));
  }
}
