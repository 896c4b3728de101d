/** Which damage to neighbouring bytes of a message goes unnoticed, also where it straddles body and checksum. */
module Damage {
  import opened Bytes
  import opened Crc
  import opened Folds
  import opened Messages
  import opened Octets
  import opened Streams

  // ---- the difference that damage makes to a checksum ----

  lemma XorAssociates()
    ensures Associates(Xor)
  {
    forall x, y, z ensures Xor(Xor(x, y), z) == Xor(x, Xor(y, z)) {
      XorRearrange(x, y, z);
    }
  }

  lemma StepsDistributeXor()
    ensures Distributes(Step8, Xor)
  {
    forall x, y ensures Step8(Xor(x, y)) == Xor(Step8(x), Step8(y)) {
      StepsDistribute(x, y);
    }
  }

  lemma BytesFeed()
    ensures Feeds(ShiftIn, ByteBits, Step8, Xor, Word)
  {
    forall r, b ensures Fold(ShiftIn, r, ByteBits(b)) == Step8(Xor(r, Word(b))) {
      FeedByte(r, b, Word(b));
    }
  }

  /** The bits in which two bytes differ. */
  function Gap(b: Byte, c: Byte): bv32 {
    Xor(Word(b), Word(c))
  }

  /** What one byte each makes of a difference between two remainders. */
  function NextDifference(d: bv32, b: Byte, c: Byte): bv32 {
    Step8(Xor(d, Gap(b, c)))
  }

  lemma DifferencesStep()
    ensures StepsOn(NextDifference, Step8, Xor, Word)
  {
  }

  /** How far the checksums of two byte strings are apart, whatever was summed before. */
  function Difference(a: seq<Byte>, b: seq<Byte>): bv32
    requires |a| == |b|
  {
    Apart(NextDifference, 0, a, b)
  }

  lemma DivideDifference(r: bv32, a: seq<Byte>, b: seq<Byte>)
    requires |a| == |b|
    ensures Xor(Divide(r, Bits(a)), Divide(r, Bits(b))) == Difference(a, b)
  {
    XorAssociates();
    StepsDistributeXor();
    BytesFeed();
    DifferencesStep();
    FeedApart(ShiftIn, ByteBits, Step8, Xor, Word, NextDifference, r, r, a, b);
  }

  lemma ChecksumDifference(crc: bv32, before: seq<Byte>, a: seq<Byte>, b: seq<Byte>)
    requires |a| == |b|
    ensures Xor(Checksum(crc, before + a), Checksum(crc, before + b)) == Difference(a, b)
  {
    var r := Divide(crc ^ ONES, Bits(before));
    DivideAppend(crc ^ ONES, before, a);
    DivideAppend(crc ^ ONES, before, b);
    DivideDifference(r, a, b);
  }

  function Up(x: bv32): bv32 {
    x << 8
  }

  lemma UpLater(e: bv32, u: bv32)
    requires e < 0x100_0000 && u == Up(e)
    ensures Step8(u) == e
  {
    assert u & 0xFF == 0 && u >> 8 == e;
    StepHigh(u);
  }

  lemma OneDiffers(a: seq<Byte>, b: seq<Byte>)
    requires |a| == |b| == 1
    ensures Difference(a, b) == Step8(Gap(a[0], b[0]))
  {
    DifferencesStep();
    ApartOne(NextDifference, Step8, Xor, Word, 0, a, b);
  }

  lemma TwoDiffer(a: seq<Byte>, b: seq<Byte>, d: bv32, e: bv32)
    requires |a| == |b| == 2 && d == Gap(a[0], b[0]) && e == Gap(a[1], b[1]) && e < 256
    ensures Difference(a, b) == Step8(Step8(Xor(d, Up(e))))
  {
    DifferencesStep();
    StepsDistributeXor();
    UpLater(e, Up(e));
    ApartTwo(NextDifference, Step8, Xor, Word, 0, Up, a, b, d, e);
  }

  lemma ThreeDiffer(a: seq<Byte>, b: seq<Byte>, c: bv32, d: bv32, e: bv32)
    requires |a| == |b| == 3 && c == Gap(a[0], b[0]) && d == Gap(a[1], b[1]) && e == Gap(a[2], b[2])
    requires d < 256 && e < 256 && Up(e) < 0x100_0000
    ensures Difference(a, b) == Step8(Step8(Step8(Xor(Xor(c, Up(d)), Up(Up(e))))))
  {
    DifferencesStep();
    StepsDistributeXor();
    UpLater(d, Up(d));
    UpLater(e, Up(e));
    UpLater(Up(e), Up(Up(e)));
    ApartThree(NextDifference, Step8, Xor, Word, 0, Up, a, b, c, d, e);
  }

  // ---- where that difference leaves low bytes alone ----

  /** Two bytes have one pattern that leaves the lower half of the remainder alone. */
  lemma KernelTwo(x: bv32)
    requires x < 0x1_0000 && Step8(Step8(x)) & 0xFFFF == 0
    ensures x == 0 || x == 0xd861
  {
  }

  /** The step undone. */
  function Back(y: bv32): bv32 {
    if y >> 31 == 1 then ((y ^ POLY) << 1) | 1 else y << 1
  }

  function Back8(y: bv32): bv32 {
    Back(Back(Back(Back(Back(Back(Back(Back(y))))))))
  }

  lemma BackStep(x: bv32)
    ensures Back(Step(x)) == x
  {
  }

  lemma BackSteps(x: bv32)
    ensures Back8(Step8(x)) == x
  {
    var x1 := Step(x);
    var x2 := Step(x1);
    var x3 := Step(x2);
    var x4 := Step(x3);
    var x5 := Step(x4);
    var x6 := Step(x5);
    var x7 := Step(x6);
    BackStep(x7);
    BackStep(x6);
    BackStep(x5);
    BackStep(x4);
    BackStep(x3);
    BackStep(x2);
    BackStep(x1);
    BackStep(x);
  }

  lemma BackFromTop(e: bv32)
    requires e < 256 && Back8(Back8(Back8(e << 24))) < 0x100_0000
    ensures e == 0
  {
  }

  lemma KernelThree(x: bv32)
    requires x < 0x100_0000 && Step8(Step8(Step8(x))) & 0xFF_FFFF == 0
    ensures x == 0
  {
    var y := Step8(Step8(Step8(x)));
    BackSteps(Step8(Step8(x)));
    BackSteps(Step8(x));
    BackSteps(x);
    BackFromTop(y >> 24);
  }

  // ---- bytes apart, words apart ----

  lemma GapSmall(b: Byte, c: Byte)
    ensures Gap(b, c) < 256
  {
  }

  lemma NoGapIff(b: Byte, c: Byte)
    ensures Gap(b, c) == 0 <==> b == c
  {
    if Word(b) == Word(c) {
      WordLosesNothing(b, c);
    }
  }

  lemma GapDetermines(b: Byte, c: Byte, e: Byte)
    requires Gap(b, c) == Gap(b, e)
    ensures c == e
  {
    WordLosesNothing(c, e);
  }

  /** The bits in which two bytes have to differ for the lower half of the checksum to stay. */
  ghost predicate QuietPair(b: Byte, c: Byte, b': Byte, c': Byte) {
    Gap(b, b') == 0x61 && Gap(c, c') == 0xd8
  }

  lemma QuietOne(a: seq<Byte>, b: seq<Byte>)
    requires |a| == |b| == 1 && Difference(a, b) & 0xFF == 0
    ensures a == b
  {
    OneDiffers(a, b);
    GapSmall(a[0], b[0]);
    NoGapIff(a[0], b[0]);
  }

  lemma QuietTwo(a: seq<Byte>, b: seq<Byte>)
    requires |a| == |b| == 2 && Difference(a, b) & 0xFFFF == 0
    ensures a == b || QuietPair(a[0], a[1], b[0], b[1])
  {
    var d, e := Gap(a[0], b[0]), Gap(a[1], b[1]);
    GapSmall(a[0], b[0]);
    GapSmall(a[1], b[1]);
    TwoDiffer(a, b, d, e);
    KernelTwo(Xor(d, Up(e)));
    NoGapIff(a[0], b[0]);
    NoGapIff(a[1], b[1]);
  }

  lemma QuietPairMoves(a: seq<Byte>, b: seq<Byte>)
    requires |a| == |b| == 2 && QuietPair(a[0], a[1], b[0], b[1])
    ensures Difference(a, b) == 0xF4EE_0000
  {
    var d, e := Gap(a[0], b[0]), Gap(a[1], b[1]);
    TwoDiffer(a, b, d, e);
  }

  lemma KernelThreeIf(y: bv32, z: bv32)
    requires z == Step8(Step8(Step8(y))) && z & 0xFF_FFFF == 0
    ensures y < 0x100_0000 ==> y == 0
  {
    if y < 0x100_0000 {
      KernelThree(y);
    }
  }

  lemma QuietThree(a: seq<Byte>, b: seq<Byte>)
    requires |a| == |b| == 3 && Difference(a, b) & 0xFF_FFFF == 0
    ensures a == b
  {
    var c, d, e := Gap(a[0], b[0]), Gap(a[1], b[1]), Gap(a[2], b[2]);
    assert c == 0 && d == 0 && e == 0 by {
      GapSmall(a[0], b[0]);
      GapSmall(a[1], b[1]);
      GapSmall(a[2], b[2]);
      ThreeDiffer(a, b, c, d, e);
      var x := Xor(c, Up(d));
      KernelThreeIf(Xor(x, Up(Up(e))), Difference(a, b));
    }
    NoGapIff(a[0], b[0]);
    NoGapIff(a[1], b[1]);
    NoGapIff(a[2], b[2]);
  }

  // ---- the written checksum ----

  lemma SamePart(v: bv32, w: bv32, i: nat)
    requires i < 4 && WordBytes(v)[i] == WordBytes(w)[i]
    ensures Parts(v)[i] == Parts(w)[i]
  {
    OctetOf(Parts(v)[i]);
    OctetOf(Parts(w)[i]);
  }

  /** Checksums that agree from the i-th written byte on differ above it only. */
  lemma TailsAgree(v: bv32, w: bv32, d: bv32, i: nat)
    requires d == Xor(v, w) && 1 <= i <= 3
    requires forall j :: i <= j < 4 ==> WordBytes(v)[j] == WordBytes(w)[j]
    ensures d & 0xFF == 0
    ensures i <= 2 ==> d & 0xFFFF == 0
    ensures i == 1 ==> d & 0xFF_FFFF == 0
  {
    SamePart(v, w, 3);
    if i <= 2 {
      SamePart(v, w, 2);
    }
    if i == 1 {
      SamePart(v, w, 1);
    }
  }

  lemma WordOf(o: bv8)
    ensures Word(ByteOf(o)) == o as bv32
  {
    OctetOf(o);
  }

  lemma PartsMoved(v: bv32, w: bv32)
    requires Xor(v, w) == 0xF4EE_0000
    ensures Xor(Part(v, 24) as bv32, Part(w, 24) as bv32) == 0xf4
    ensures Xor(Part(v, 16) as bv32, Part(w, 16) as bv32) == 0xee
    ensures Part(v, 8) == Part(w, 8) && Part(v, 0) == Part(w, 0)
  {
  }

  lemma WordMoved(v: bv32, w: bv32)
    requires Xor(v, w) == 0xF4EE_0000
    ensures Gap(WordBytes(v)[0], WordBytes(w)[0]) == 0xf4
    ensures Gap(WordBytes(v)[1], WordBytes(w)[1]) == 0xee
    ensures WordBytes(v)[2..] == WordBytes(w)[2..]
  {
    PartsMoved(v, w);
    WordOf(Part(v, 24));
    WordOf(Part(w, 24));
    WordOf(Part(v, 16));
    WordOf(Part(w, 16));
    assert WordBytes(v)[2] == WordBytes(w)[2] && WordBytes(v)[3] == WordBytes(w)[3];
  }

  // ---- damage to neighbouring bytes of a message ----

  /** Four bytes, two on either side of the end of the body, that differ in just the wrong bits. */
  ghost predicate Blind(x: seq<Byte>, y: seq<Byte>)
    requires |x| == |y|
  {
    |x| == 4 && QuietPair(x[0], x[1], y[0], y[1]) && Gap(x[2], y[2]) == 0xf4 && Gap(x[3], y[3]) == 0xee
  }

  /** The end of a body, and the front of the checksum behind it, before and after damage. */
  ghost predicate Straddles(before: seq<Byte>, a: seq<Byte>, b: seq<Byte>, c: seq<Byte>, d: seq<Byte>, post: seq<Byte>)
  {
    && 1 <= |a| == |b| && 1 <= |c| == |d| && |a| + |c| <= 4
    && c + post == Trailer(before + a)
  }

  lemma TailsKept(v: bv32, w: bv32, c: seq<Byte>, d: seq<Byte>, post: seq<Byte>, j: nat)
    requires |c| == |d| <= j < 4 && c + post == WordBytes(v) && d + post == WordBytes(w)
    ensures WordBytes(v)[j] == WordBytes(w)[j]
  {
    assert (c + post)[j] == post[j - |c|] == (d + post)[j];
  }

  lemma UnnoticedIsQuiet(before: seq<Byte>, a: seq<Byte>, b: seq<Byte>, c: seq<Byte>, d: seq<Byte>, post: seq<Byte>)
    requires Straddles(before, a, b, c, d, post) && d + post == Trailer(before + b)
    ensures a == b || (|a| == 2 && QuietPair(a[0], a[1], b[0], b[1]))
    ensures |c| == 1 ==> Difference(a, b) & 0xFF_FFFF == 0
  {
    var v, w := Checksum(CRC_VAL, before + a), Checksum(CRC_VAL, before + b);
    forall j | |c| <= j < 4 ensures WordBytes(v)[j] == WordBytes(w)[j] {
      TailsKept(v, w, c, d, post, j);
    }
    ChecksumDifference(CRC_VAL, before, a, b);
    TailsAgree(v, w, Difference(a, b), |c|);
    if |a| == 1 {
      QuietOne(a, b);
    } else if |a| == 3 {
      QuietThree(a, b);
    } else {
      QuietTwo(a, b);
    }
  }

  /** Damage across the end of the body that the checksum does not tell. */
  lemma UnnoticedIsBlind(before: seq<Byte>, a: seq<Byte>, b: seq<Byte>, c: seq<Byte>, d: seq<Byte>, post: seq<Byte>)
    requires Straddles(before, a, b, c, d, post) && d + post == Trailer(before + b)
    ensures (a == b && c == d) || (|a| == 2 && Blind(a + c, b + d))
  {
    UnnoticedIsQuiet(before, a, b, c, d, post);
    if a == b {
      SameFront(c, d, post);
    } else {
      QuietPairMoves(a, b);
      HalfMoved(Difference(a, b), |c|);
      ChecksumDifference(CRC_VAL, before, a, b);
      FrontsMoved(Checksum(CRC_VAL, before + a), Checksum(CRC_VAL, before + b), c, d, post);
    }
  }

  lemma SameFront(c: seq<Byte>, d: seq<Byte>, post: seq<Byte>)
    requires c + post == d + post
    ensures c == d
  {
    assert |c| == |d|;
    assert (c + post)[..|c|] == (d + post)[..|d|];
  }

  lemma HalfMoved(d: bv32, i: nat)
    requires d == 0xF4EE_0000 && (i == 1 ==> d & 0xFF_FFFF == 0)
    ensures i != 1
  {
  }

  lemma FrontsMoved(v: bv32, w: bv32, c: seq<Byte>, d: seq<Byte>, post: seq<Byte>)
    requires |c| == |d| == 2 && c + post == WordBytes(v) && d + post == WordBytes(w) && Xor(v, w) == 0xF4EE_0000
    ensures Gap(c[0], d[0]) == 0xf4 && Gap(c[1], d[1]) == 0xee
  {
    WordMoved(v, w);
    assert (c + post)[0] == c[0] && (c + post)[1] == c[1] && (d + post)[0] == d[0] && (d + post)[1] == d[1];
  }

  lemma BlindIsUnnoticed(before: seq<Byte>, a: seq<Byte>, b: seq<Byte>, c: seq<Byte>, d: seq<Byte>, post: seq<Byte>)
    requires Straddles(before, a, b, c, d, post) && |a| == 2 && Blind(a + c, b + d)
    ensures d + post == Trailer(before + b)
  {
    var v, w := Checksum(CRC_VAL, before + a), Checksum(CRC_VAL, before + b);
    ChecksumDifference(CRC_VAL, before, a, b);
    QuietPairMoves(a, b);
    WordMoved(v, w);
    assert (c + post)[0] == c[0] && (c + post)[1] == c[1] && (c + post)[2..] == post;
    GapDetermines(c[0], d[0], WordBytes(w)[0]);
    GapDetermines(c[1], d[1], WordBytes(w)[1]);
    FrontAndRest(WordBytes(w), d, post);
  }

  lemma FrontAndRest(w: seq<Byte>, d: seq<Byte>, post: seq<Byte>)
    requires |w| == 4 && |d| == 2 && d[0] == w[0] && d[1] == w[1] && post == w[2..]
    ensures d + post == w
  {
  }

  lemma IntactIff(payload: seq<Byte>, t: seq<Byte>)
    requires |t| == CRC_SIZE
    ensures Intact(payload + t) <==> t == Trailer(payload)
  {
    Split(payload, t);
  }

  /** Damage to at most four neighbouring bytes of a message is noticed, wherever it is, unless it is the one
      blind pattern right across the end of the body. */
  lemma NeighbourDamageIff(h: Header, b: Body, pre: seq<Byte>, x: seq<Byte>, y: seq<Byte>, post: seq<Byte>)
    requires Sendable(b) && EncodeMessage(h, b) == pre + x + post
    requires |x| == |y| <= 4 && x != y
    ensures |pre + y + post| >= CRC_SIZE
    ensures Receive(pre + y + post) == Damaged <==> !(|post| == 2 && Blind(x, y))
  {
    var payload := EncodeHeader(h, Kind(b)) + EncodeBody(b);
    var t := Trailer(payload);
    assert |payload| + 4 == |pre| + |x| + |post|;
    if |post| >= 4 {
      InsideNoticed(payload, t, pre, x, y, post);
    } else if |x| + |post| <= 4 {
      BehindNoticed(payload, t, pre, x, y, post);
    } else {
      var k := |x| + |post| - 4;
      AcrossIff(payload, pre, x, y, post, k);
    }
  }

  lemma SplitInside<T>(p: seq<T>, t: seq<T>, pre: seq<T>, x: seq<T>, post: seq<T>)
    requires p + t == pre + x + post && |t| <= |post|
    ensures p == pre + x + post[..|post| - |t|] && t == post[|post| - |t|..]
  {
    assert p == (p + t)[..|p|] == (pre + x + post)[..|p|] == pre + x + post[..|post| - |t|];
    assert t == (p + t)[|p|..] == (pre + x + post)[|p|..] == post[|post| - |t|..];
  }

  lemma SplitBehind<T>(p: seq<T>, t: seq<T>, pre: seq<T>, x: seq<T>, post: seq<T>)
    requires p + t == pre + x + post && |p| <= |pre|
    ensures p == pre[..|p|] && t == pre[|p|..] + x + post
  {
    assert p == (p + t)[..|p|] == (pre + x + post)[..|p|] == pre[..|p|];
    assert t == (p + t)[|p|..] == (pre + x + post)[|p|..] == pre[|p|..] + x + post;
  }

  lemma InsideNoticed(payload: seq<Byte>, t: seq<Byte>, pre: seq<Byte>, x: seq<Byte>, y: seq<Byte>, post: seq<Byte>)
    requires t == Trailer(payload) && payload + t == pre + x + post
    requires |x| == |y| <= 4 && x != y && |post| >= 4
    ensures Receive(pre + y + post) == Damaged
  {
    var after := post[..|post| - 4];
    SplitInside(payload, t, pre, x, post);
    TrailersDiffer(pre, x, y, after);
    JoinInside(pre + y, post, |post| - 4);
    IntactIff(pre + y + after, t);
  }

  lemma JoinInside<T>(front: seq<T>, post: seq<T>, n: nat)
    requires n <= |post|
    ensures front + post[..n] + post[n..] == front + post
  {
  }

  lemma MiddleDiffers<T>(front: seq<T>, x: seq<T>, y: seq<T>, post: seq<T>)
    requires |x| == |y| && x != y
    ensures front + x + post != front + y + post
  {
    assert (front + x + post)[|front|..|front| + |x|] == x && (front + y + post)[|front|..|front| + |y|] == y;
  }

  lemma BehindNoticed(payload: seq<Byte>, t: seq<Byte>, pre: seq<Byte>, x: seq<Byte>, y: seq<Byte>, post: seq<Byte>)
    requires t == Trailer(payload) && payload + t == pre + x + post
    requires |x| == |y| && x != y && |x| + |post| <= 4
    ensures |pre + y + post| >= CRC_SIZE && Receive(pre + y + post) == Damaged
  {
    SplitBehind(payload, t, pre, x, post);
    var got := pre[|payload|..] + y + post;
    MiddleDiffers(pre[|payload|..], x, y, post);
    IntactIff(payload, got);
    assert payload + got == pre + y + post;
  }

  lemma SameSplit<T>(p: seq<T>, t: seq<T>, q: seq<T>, u: seq<T>)
    requires p + t == q + u && |p| == |q|
    ensures p == q && t == u
  {
    assert p == (p + t)[..|p|] == (q + u)[..|q|] == q;
    assert t == (p + t)[|p|..] == (q + u)[|q|..] == u;
  }

  lemma CutAt<T>(pre: seq<T>, x: seq<T>, post: seq<T>, k: nat)
    requires k <= |x|
    ensures pre + x + post == (pre + x[..k]) + (x[k..] + post) && x == x[..k] + x[k..]
  {
  }

  lemma AcrossIff(payload: seq<Byte>, pre: seq<Byte>, x: seq<Byte>, y: seq<Byte>, post: seq<Byte>, k: nat)
    requires payload + Trailer(payload) == pre + x + post && |x| == |y| <= 4 && x != y
    requires |post| < 4 && 1 <= k < |x| && k + 4 == |x| + |post|
    ensures Receive(pre + y + post) == Damaged <==> !(|post| == 2 && Blind(x, y))
  {
    CutAt(pre, x, post, k);
    CutAt(pre, y, post, k);
    SameSplit(payload, Trailer(payload), pre + x[..k], x[k..] + post);
    IntactIff(pre + y[..k], y[k..] + post);
    TellsIff(pre, x[..k], y[..k], x[k..], y[k..], post);
  }

  lemma TellsIff(before: seq<Byte>, a: seq<Byte>, b: seq<Byte>, c: seq<Byte>, d: seq<Byte>, post: seq<Byte>)
    requires Straddles(before, a, b, c, d, post) && (a != b || c != d)
    ensures d + post == Trailer(before + b) <==> |post| == 2 && Blind(a + c, b + d)
  {
    if d + post == Trailer(before + b) {
      UnnoticedIsBlind(before, a, b, c, d, post);
    }
    if |post| == 2 && Blind(a + c, b + d) {
      BlindIsUnnoticed(before, a, b, c, d, post);
    }
  }

  /** A byte that differs from another in given bits. */
  lemma GapExists(b: Byte, x: bv8, m: bv8) returns (c: Byte)
    requires x == Octet(b)
    ensures Gap(b, c) == m as bv32
  {
    var o := x ^ m;
    c := ByteOf(o);
    WordOf(o);
  }

  lemma BlindTo(x: seq<Byte>) returns (y: seq<Byte>)
    requires |x| == 4
    ensures |y| == 4 && y != x && Blind(x, y)
  {
    var y0 := GapExists(x[0], Octet(x[0]), 0x61);
    var y1 := GapExists(x[1], Octet(x[1]), 0xd8);
    var y2 := GapExists(x[2], Octet(x[2]), 0xf4);
    var y3 := GapExists(x[3], Octet(x[3]), 0xee);
    y := [y0, y1, y2, y3];
  }

  lemma EndOf<T>(wire: seq<T>, n: nat)
    requires n == |wire| >= 6
    ensures wire == wire[..n - 6] + wire[n - 6..n - 2] + wire[n - 2..]
  {
  }

  /** Every message has such a blind neighbour. */
  lemma BlindExists(h: Header, b: Body) returns (pre: seq<Byte>, x: seq<Byte>, y: seq<Byte>, post: seq<Byte>)
    requires Sendable(b)
    ensures EncodeMessage(h, b) == pre + x + post && |x| == |y| == 4 && x != y
    ensures |pre + y + post| >= CRC_SIZE && Receive(pre + y + post) != Damaged
  {
    var wire := EncodeMessage(h, b);
    var n := |wire|;
    pre, x, post := wire[..n - 6], wire[n - 6..n - 2], wire[n - 2..];
    EndOf(wire, n);
    y := BlindTo(x);
    NeighbourDamageIff(h, b, pre, x, y, post);
  }
}
