/** Cutting a video frame into segments, and putting it together again. */
module Splitting {
  import opened Bytes
  import opened SegmentCodec

  const MAX_SPLIT_NUMBER := 1024

  /** The lengths of the pieces: full ones, then what is left. */
  function SplitSizes(size: nat): (sizes: seq<nat>)
    ensures sizes != []
    ensures forall i :: 0 <= i < |sizes| ==> sizes[i] <= SIM_VIDEO_SIZE
  {
    if size <= SIM_VIDEO_SIZE then [size] else [SIM_VIDEO_SIZE] + SplitSizes(size - SIM_VIDEO_SIZE)
  }

  function Cut(data: seq<Byte>): (pieces: seq<seq<Byte>>)
    ensures pieces != []
    ensures forall i :: 0 <= i < |pieces| ==> |pieces[i]| <= SIM_VIDEO_SIZE
  {
    if |data| <= SIM_VIDEO_SIZE then [data]
    else [data[..SIM_VIDEO_SIZE]] + Cut(data[SIM_VIDEO_SIZE..])
  }

  function Join(pieces: seq<seq<Byte>>): seq<Byte> {
    if pieces == [] then [] else pieces[0] + Join(pieces[1..])
  }

  lemma {:induction false} JoinPrefix(pieces: seq<seq<Byte>>, k: nat)
    requires k < |pieces|
    ensures Join(pieces[..k + 1]) == Join(pieces[..k]) + pieces[k]
    decreases k
  {
    if k == 0 {
      assert pieces[..1][1..] == [] && Join(pieces[..1]) == pieces[0] + Join([]);
    } else {
      JoinPrefix(pieces[1..], k - 1);
      assert pieces[..k + 1][1..] == pieces[1..][..k] && pieces[..k][1..] == pieces[1..][..k - 1];
    }
  }

  /** The pieces of a frame, joined in order, are the frame. */
  lemma {:induction false} JoinCut(data: seq<Byte>)
    ensures Join(Cut(data)) == data
    decreases |data|
  {
    if |data| <= SIM_VIDEO_SIZE {
      assert Join(Cut(data)) == data + Join([]);
    } else {
      JoinCut(data[SIM_VIDEO_SIZE..]);
      assert Cut(data)[1..] == Cut(data[SIM_VIDEO_SIZE..]);
    }
  }

  /** How many full pieces come before what is left. */
  lemma {:induction false} SplitCount(size: nat)
    ensures |SplitSizes(size)| == if size <= SIM_VIDEO_SIZE then 1 else (size + SIM_VIDEO_SIZE - 1) / SIM_VIDEO_SIZE
    ensures size / SIM_VIDEO_SIZE < MAX_SPLIT_NUMBER ==> |SplitSizes(size)| <= MAX_SPLIT_NUMBER
  {
    if size > SIM_VIDEO_SIZE {
      SplitCount(size - SIM_VIDEO_SIZE);
    }
  }

  lemma {:induction false} SplitEntry(size: nat, i: nat)
    requires i < |SplitSizes(size)|
    ensures SplitSizes(size)[i]
            == if (i + 1) * SIM_VIDEO_SIZE <= size then SIM_VIDEO_SIZE else size - i * SIM_VIDEO_SIZE
    decreases i
  {
    if size > SIM_VIDEO_SIZE && i > 0 {
      SplitEntry(size - SIM_VIDEO_SIZE, i - 1);
    }
  }

  lemma {:induction false} CutEntry(data: seq<Byte>, i: nat)
    requires i < |SplitSizes(|data|)|
    ensures |Cut(data)| == |SplitSizes(|data|)|
    ensures i * SIM_VIDEO_SIZE + SplitSizes(|data|)[i] <= |data|
    ensures Cut(data)[i] == data[i * SIM_VIDEO_SIZE..][..SplitSizes(|data|)[i]]
    decreases |data|
  {
    if |data| > SIM_VIDEO_SIZE {
      var rest := data[SIM_VIDEO_SIZE..];
      if i > 0 {
        CutEntry(rest, i - 1);
        assert rest[(i - 1) * SIM_VIDEO_SIZE..] == data[i * SIM_VIDEO_SIZE..];
      } else {
        CutEntry(rest, 0);
      }
    }
  }

  /** Piece i starts after i full pieces; only the last is shorter. */
  lemma PieceOffsets(data: seq<Byte>, i: nat)
    requires i < |Cut(data)|
    ensures |Cut(data)| == |SplitSizes(|data|)|
    ensures i * SIM_VIDEO_SIZE + SplitSizes(|data|)[i] <= |data|
    ensures data[i * SIM_VIDEO_SIZE..i * SIM_VIDEO_SIZE + SplitSizes(|data|)[i]] == Cut(data)[i]
    ensures i + 1 < |Cut(data)| ==> SplitSizes(|data|)[i] == SIM_VIDEO_SIZE
  {
    CutEntry(data, 0);
    CutEntry(data, i);
    SplitEntry(|data|, i);
    if i + 1 < |Cut(data)| {
      CutEntry(data, i + 1);
      SplitEntry(|data|, i + 1);
    }
  }

  /** Writes the piece lengths to the front of `splits`. */
  method FrameSplit(splits: array<U16>, size: nat) returns (ret: nat)
    requires splits.Length == MAX_SPLIT_NUMBER && size / SIM_VIDEO_SIZE < MAX_SPLIT_NUMBER
    modifies splits
    ensures ret == |SplitSizes(size)| <= splits.Length
    ensures splits[..ret] == SplitSizes(size)
  {
    SplitCount(size);
    if size <= SIM_VIDEO_SIZE {
      ret := 1;
      splits[0] := size;
    } else {
      ret := size / SIM_VIDEO_SIZE;
      var i := 0;
      while i < ret
        invariant i <= ret
        invariant forall k :: 0 <= k < i ==> splits[k] == SIM_VIDEO_SIZE
      {
        splits[i] := SIM_VIDEO_SIZE;
        i := i + 1;
      }
      var remainSize := size % SIM_VIDEO_SIZE;
      if remainSize > 0 {
        splits[ret] := remainSize;
        ret := ret + 1;
      }
      forall k | 0 <= k < ret ensures splits[k] == SplitSizes(size)[k] {
        SplitEntry(size, k);
      }
    }
  }
}
