/** Bytes and machine words as bounded integers, and their big-endian layout. */
module Bytes {
  type Byte = x: int | 0 <= x < 0x100
  type U16 = x: int | 0 <= x < 0x1_0000
  type U32 = x: int | 0 <= x < 0x1_0000_0000

  /** mach_put_2 */
  function Put2(v: U16): (s: seq<Byte>)
    ensures |s| == 2
  {
    [v / 0x100, v % 0x100]
  }

  /** mach_get_2 */
  function Get2(s: seq<Byte>): (v: U16)
    requires |s| == 2
  {
    s[0] as int * 0x100 + s[1] as int
  }

  /** mach_put_4 */
  function Put4(v: U32): (s: seq<Byte>)
    ensures |s| == 4
  {
    [v / 0x100_0000, v / 0x1_0000 % 0x100, v / 0x100 % 0x100, v % 0x100]
  }

  /** mach_get_4 */
  function Get4(s: seq<Byte>): (v: U32)
    requires |s| == 4
  {
    s[0] as int * 0x100_0000 + s[1] as int * 0x1_0000 + s[2] as int * 0x100 + s[3] as int
  }

  lemma Get2Put2(v: U16)
    ensures Get2(Put2(v)) == v
  {
  }

  lemma Get4Put4(v: U32)
    ensures Get4(Put4(v)) == v
  {
    assert v / 0x1_0000 == v / 0x100_0000 * 0x100 + v / 0x1_0000 % 0x100;
    assert v / 0x100 == v / 0x1_0000 * 0x100 + v / 0x100 % 0x100;
  }

  lemma Get4LosesNothing(s: seq<Byte>, t: seq<Byte>)
    requires |s| == |t| == 4 && Get4(s) == Get4(t)
    ensures s == t
  {
    var i, j := s[0] as int, t[0] as int;
    assert i == j && s[1] == t[1] && s[2] == t[2] && s[3] == t[3];
  }

  /** Bytes and number determine each other. */
  lemma Put4Get4(s: seq<Byte>)
    requires |s| == 4
    ensures Put4(Get4(s)) == s
  {
    Get4Put4(Get4(s));
    Get4LosesNothing(Put4(Get4(s)), s);
  }
}
