/**
 The sample blocks the UE main thread reads and writes once it is in sync.

 The radio delivers one contiguous stream: a read returns the position of its first sample.  The main
 thread runs one symbol ahead of the subframe boundaries, and in subframe 9 it reads one sample more or
 less to follow the measured timing offset.
 */
module UeBlocks {
  import LteTime

  /** `samples_per_tti` and the length of the first symbol with its prefix. */
  datatype Cell = Cell(spt: int, symbol: int)
  {
    predicate Valid() {
      0 < symbol < spt
    }
  }

  datatype Block = Block(start: int, size: int)

  /** The correction for a frame, from the offset measured by the receiver. */
  function Diff(c: Cell, noCorrection: bool, rxOffset: int): int {
    if noCorrection then 0
    else if 0 < rxOffset < 5 * c.spt then -1
    else if 5 * c.spt < rxOffset < 10 * c.spt then 1
    else 0
  }

  /** The correction that subframe `k` of the run applies; `offsets[k]` is `rx_offset` as it finds it. */
  function Corr(c: Cell, noCorrection: bool, offsets: seq<int>, k: nat): int
    requires k < |offsets|
  {
    if k % 10 == 9 then Diff(c, noCorrection, offsets[k]) else 0
  }

  /** Where received subframe `k` starts in the stream, the first one at `base`. */
  function SubframeStart(c: Cell, noCorrection: bool, base: int, offsets: seq<int>, k: nat): int
    requires k <= |offsets|
  {
    if k == 0 then base
    else SubframeStart(c, noCorrection, base, offsets, k - 1) + c.spt - Corr(c, noCorrection, offsets, k - 1)
  }

  /** The blocks follow each other from `from` to `to` without gap or overlap. */
  predicate Tiles(blocks: seq<Block>, from: int, to: int)
    decreases |blocks|
  {
    if blocks == [] then from == to
    else blocks[0].start == from && Tiles(blocks[1..], from + blocks[0].size, to)
  }

  lemma {:induction false} TilesSnoc(blocks: seq<Block>, from: int, to: int, size: int)
    requires Tiles(blocks, from, to)
    ensures Tiles(blocks + [Block(to, size)], from, to + size)
    decreases |blocks|
  {
    var all := blocks + [Block(to, size)];
    if blocks == [] {
      assert all[1..] == [];
    } else {
      assert all[0] == blocks[0] && all[1..] == blocks[1..] + [Block(to, size)];
      TilesSnoc(blocks[1..], from + blocks[0].size, to, size);
    }
  }

  // ----- what the run does to the clock -----

  lemma {:induction false} PlainSubframes(
      c: Cell, noCorrection: bool, base: int, offsets: seq<int>, k: nat, m: nat)
    requires k + m <= |offsets| && forall j :: k <= j < k + m ==> j % 10 != 9
    ensures SubframeStart(c, noCorrection, base, offsets, k + m) ==
            SubframeStart(c, noCorrection, base, offsets, k) + m * c.spt
  {
    if m == 0 {
    } else {
      PlainSubframes(c, noCorrection, base, offsets, k, m - 1);
      assert m * c.spt == (m - 1) * c.spt + c.spt;
    }
  }

  /** Any ten consecutive subframes last ten nominal subframes less the one correction among them. */
  lemma FrameLength(c: Cell, noCorrection: bool, base: int, offsets: seq<int>, k: nat, j: nat)
    requires k <= j < k + 10 <= |offsets| && j % 10 == 9
    ensures SubframeStart(c, noCorrection, base, offsets, k + 10) ==
            SubframeStart(c, noCorrection, base, offsets, k) + 10 * c.spt - Diff(c, noCorrection, offsets[j])
  {
    PlainSubframes(c, noCorrection, base, offsets, k, j - k);
    PlainSubframes(c, noCorrection, base, offsets, j + 1, k + 9 - j);
    assert (j - k) * c.spt + c.spt + (k + 9 - j) * c.spt == 10 * c.spt;
  }

  /** However the offset is measured, the clock never drifts by more than one sample a frame. */
  lemma {:induction false} DriftBound(c: Cell, noCorrection: bool, base: int, offsets: seq<int>, k: nat)
    requires k <= |offsets|
    ensures base + k * c.spt - k / 10 <= SubframeStart(c, noCorrection, base, offsets, k) <= base + k * c.spt + k / 10
    ensures noCorrection ==> SubframeStart(c, noCorrection, base, offsets, k) == base + k * c.spt
  {
    if k == 0 {
    } else {
      DriftBound(c, noCorrection, base, offsets, k - 1);
      assert k * c.spt == (k - 1) * c.spt + c.spt;
      assert k / 10 == (k - 1) / 10 + if (k - 1) % 10 == 9 then 1 else 0;
    }
  }

  // ----- the correction follows the measurement -----

  function Abs(x: int): nat {
    if x < 0 then -x else x
  }

  /** By how much the cell's frame begins after the UE's, for a measured offset: early frames count negative. */
  function SignedError(c: Cell, rxOffset: int): int {
    if rxOffset <= 5 * c.spt then rxOffset else rxOffset - 10 * c.spt
  }

  /**
   A corrected frame brings the UE's next frame boundary exactly one sample nearer to the cell's; it is left where
   it is only when it is right, or exactly half a frame off.
   */
  lemma CorrectionFollows(c: Cell, rxOffset: int)
    requires c.Valid() && 0 <= rxOffset < 10 * c.spt
    ensures var e, d := SignedError(c, rxOffset), Diff(c, false, rxOffset);
            Abs(e + d) == if e == 0 || rxOffset == 5 * c.spt then Abs(e) else Abs(e) - 1
  {
  }

  /** How far the cell's frame `j`, the first one at `first`, begins after the UE's. */
  function ErrorAt(c: Cell, noCorrection: bool, base: int, offsets: seq<int>, first: int, j: nat): int
    requires 10 * j <= |offsets|
  {
    first + j * (10 * c.spt) - SubframeStart(c, noCorrection, base, offsets, 10 * j)
  }

  /** The receiver measures, in each frame, that distance within a frame. */
  ghost predicate Measures(c: Cell, noCorrection: bool, base: int, offsets: seq<int>, first: int)
    requires c.Valid()
  {
    forall j: nat :: 10 * j + 9 < |offsets| ==>
                       offsets[10 * j + 9] == ErrorAt(c, noCorrection, base, offsets, first, j) % (10 * c.spt)
  }

  lemma ErrorStep(c: Cell, noCorrection: bool, base: int, offsets: seq<int>, first: int, j: nat)
    requires 10 * j + 10 <= |offsets|
    ensures ErrorAt(c, noCorrection, base, offsets, first, j + 1)
            == ErrorAt(c, noCorrection, base, offsets, first, j) + Diff(c, noCorrection, offsets[10 * j + 9])
  {
    FrameLength(c, noCorrection, base, offsets, 10 * j, 10 * j + 9);
    assert (j + 1) * (10 * c.spt) == j * (10 * c.spt) + 10 * c.spt;
    assert 10 * (j + 1) == 10 * j + 10;
  }

  /** The measured offset of an error of less than half a frame. */
  lemma Measured(c: Cell, e: int)
    requires c.Valid() && Abs(e) <= 5 * c.spt
    ensures e % (10 * c.spt) == if e >= 0 then e else e + 10 * c.spt
  {
    var frame := 10 * c.spt;
    if e >= 0 {
      LteTime.DivUnique(e, frame, 0, e);
    } else {
      LteTime.DivUnique(e, frame, -1, e + frame);
    }
  }

  /** The error after `j` corrected frames. */
  function Remaining(e: int, j: nat): int {
    if Abs(e) <= j then 0 else if e > 0 then e - j else e + j
  }

  lemma OneNearer(c: Cell, e: int, j: nat)
    requires c.Valid() && Abs(e) < 5 * c.spt
    ensures var r := Remaining(e, j); r + Diff(c, false, r % (10 * c.spt)) == Remaining(e, j + 1)
  {
    Measured(c, Remaining(e, j));
  }

  /**
   Against a cell whose frames keep their place, an error of less than half a frame goes down by one sample a
   frame, reaches zero after as many frames as it has samples, and stays there.
   */
  lemma {:induction false} Converges(c: Cell, base: int, offsets: seq<int>, first: int, j: nat)
    requires c.Valid() && 10 * j <= |offsets| && Measures(c, false, base, offsets, first)
    requires Abs(first - base) < 5 * c.spt
    ensures ErrorAt(c, false, base, offsets, first, j) == Remaining(first - base, j)
    decreases j
  {
    if j == 0 {
    } else {
      Converges(c, base, offsets, first, j - 1);
      ErrorStep(c, false, base, offsets, first, j - 1);
      assert offsets[10 * (j - 1) + 9] == ErrorAt(c, false, base, offsets, first, j - 1) % (10 * c.spt);
      OneNearer(c, first - base, j - 1);
    }
  }

  /** Half a frame off, or without correction, it never changes. */
  lemma {:induction false} NeverConverges(
      c: Cell, noCorrection: bool, base: int, offsets: seq<int>, first: int, j: nat)
    requires c.Valid() && 10 * j <= |offsets| && Measures(c, noCorrection, base, offsets, first)
    requires noCorrection || Abs(first - base) == 5 * c.spt
    ensures ErrorAt(c, noCorrection, base, offsets, first, j) == first - base
    decreases j
  {
    if j == 0 {
    } else {
      NeverConverges(c, noCorrection, base, offsets, first, j - 1);
      ErrorStep(c, noCorrection, base, offsets, first, j - 1);
      assert offsets[10 * (j - 1) + 9] == ErrorAt(c, noCorrection, base, offsets, first, j - 1) % (10 * c.spt);
      if !noCorrection {
        Measured(c, first - base);
      }
    }
  }

  // ----- timestamps -----

  /** Where the block written while subframe `k` is received starts; it carries transmit subframe `k + 2`. */
  function WriteStart(c: Cell, noCorrection: bool, base: int, offsets: seq<int>, k: nat): int
    requires k <= |offsets|
  {
    SubframeStart(c, noCorrection, base, offsets, k) + 2 * c.spt
  }

  /** `timestamp_tx` of the job posted for subframe `k`; the job prepares transmit subframe `k + 4`. */
  function StampTx(c: Cell, noCorrection: bool, base: int, offsets: seq<int>, k: nat): int
    requires k <= |offsets|
  {
    SubframeStart(c, noCorrection, base, offsets, k) + 4 * c.spt
  }

  /** The blocks written for the first `k` subframes. */
  function Writes(c: Cell, noCorrection: bool, base: int, offsets: seq<int>, k: nat): (w: seq<Block>)
    requires k <= |offsets|
    ensures |w| == k
  {
    if k == 0 then []
    else
      Writes(c, noCorrection, base, offsets, k - 1)
      + [Block(WriteStart(c, noCorrection, base, offsets, k - 1), c.spt - Corr(c, noCorrection, offsets, k - 1))]
  }

  /** The stamps posted for the first `k` subframes. */
  function Stamps(c: Cell, noCorrection: bool, base: int, offsets: seq<int>, k: nat): (s: seq<int>)
    requires k <= |offsets|
    ensures |s| == k
  {
    if k == 0 then []
    else Stamps(c, noCorrection, base, offsets, k - 1) + [StampTx(c, noCorrection, base, offsets, k - 1)]
  }

  /** What is transmitted is one gapless stream. */
  lemma {:induction false} WritesTile(c: Cell, noCorrection: bool, base: int, offsets: seq<int>, k: nat)
    requires k <= |offsets|
    ensures Tiles(Writes(c, noCorrection, base, offsets, k), base + 2 * c.spt,
                  WriteStart(c, noCorrection, base, offsets, k))
  {
    if k == 0 {
    } else {
      WritesTile(c, noCorrection, base, offsets, k - 1);
      TilesSnoc(Writes(c, noCorrection, base, offsets, k - 1), base + 2 * c.spt,
                WriteStart(c, noCorrection, base, offsets, k - 1), c.spt - Corr(c, noCorrection, offsets, k - 1));
    }
  }

  /** The blocks in which `left` samples are skipped before the stream starts. */
  function Skipped(c: Cell, pos: int, left: nat): (b: seq<Block>)
    requires c.Valid()
    decreases left
  {
    if left == 0 then []
    else
      var s := if left < c.spt then left else c.spt;
      [Block(pos, s)] + Skipped(c, pos + s, left - s)
  }

  /** Exactly `left` samples are skipped. */
  lemma {:induction false} SkippedTiles(c: Cell, pos: int, left: nat)
    requires c.Valid()
    ensures Tiles(Skipped(c, pos, left), pos, pos + left)
    decreases left
  {
    if left == 0 {
    } else {
      var s := if left < c.spt then left else c.spt;
      SkippedTiles(c, pos + s, left - s);
      var rest := Skipped(c, pos + s, left - s);
      assert ([Block(pos, s)] + rest)[1..] == rest;
    }
  }

  /** No skipped block is empty or longer than a subframe, and only the last one is shorter. */
  lemma {:induction false} SkippedSizes(c: Cell, pos: int, left: nat, i: nat)
    requires c.Valid() && i < |Skipped(c, pos, left)|
    ensures 0 < Skipped(c, pos, left)[i].size <= c.spt
    ensures i < |Skipped(c, pos, left)| - 1 ==> Skipped(c, pos, left)[i].size == c.spt
    decreases left
  {
    var s := if left < c.spt then left else c.spt;
    if i == 0 {
    } else {
      SkippedSizes(c, pos + s, left - s, i - 1);
    }
  }

  lemma OneCorrection(c: Cell, noCorrection: bool, base: int, offsets: seq<int>, k: nat)
    requires k + 2 <= |offsets|
    ensures SubframeStart(c, noCorrection, base, offsets, k + 2)
            == SubframeStart(c, noCorrection, base, offsets, k) + 2 * c.spt
            <==> Corr(c, noCorrection, offsets, k) == 0 && Corr(c, noCorrection, offsets, k + 1) == 0
  {
    var next := SubframeStart(c, noCorrection, base, offsets, k + 1);
    assert SubframeStart(c, noCorrection, base, offsets, k + 2) == next + c.spt - Corr(c, noCorrection, offsets, k + 1);
  }

  /** The block is sent on the boundary of the subframe it carries exactly when no correction falls in between. */
  lemma WrittenOnBoundaryIff(c: Cell, noCorrection: bool, base: int, offsets: seq<int>, k: nat)
    requires k + 2 <= |offsets|
    ensures WriteStart(c, noCorrection, base, offsets, k) == SubframeStart(c, noCorrection, base, offsets, k + 2)
            <==> Corr(c, noCorrection, offsets, k) == 0 && Corr(c, noCorrection, offsets, k + 1) == 0
  {
    OneCorrection(c, noCorrection, base, offsets, k);
  }

  /** A job is told the sample at which its subframe is then written exactly when no correction falls in between. */
  lemma StampExactIff(c: Cell, noCorrection: bool, base: int, offsets: seq<int>, k: nat)
    requires k + 2 <= |offsets|
    ensures StampTx(c, noCorrection, base, offsets, k) == WriteStart(c, noCorrection, base, offsets, k + 2)
            <==> Corr(c, noCorrection, offsets, k) == 0 && Corr(c, noCorrection, offsets, k + 1) == 0
  {
    OneCorrection(c, noCorrection, base, offsets, k);
  }

  // ----- the loop -----

  /** The stream position, the current subframe, and what was written and stamped so far. */
  datatype Snapshot = Snapshot(pos: int, subframe: int, writes: seq<Block>, stamps: seq<int>)

  /** The specified state after `k` subframes. */
  function After(c: Cell, noCorrection: bool, base: int, offsets: seq<int>, k: nat): Snapshot
    requires k <= |offsets|
  {
    Snapshot(SubframeStart(c, noCorrection, base, offsets, k) + c.symbol, if k == 0 then -1 else (k - 1) % 10,
             Writes(c, noCorrection, base, offsets, k), Stamps(c, noCorrection, base, offsets, k))
  }

  lemma AfterStep(c: Cell, noCorrection: bool, base: int, offsets: seq<int>, k: nat, v: Snapshot, w: Snapshot)
    requires k < |offsets| && v == After(c, noCorrection, base, offsets, k)
    requires w.subframe == (v.subframe + 1) % 10 && w.stamps == v.stamps + [v.pos + 4 * c.spt - c.symbol]
    requires var d := if w.subframe == 9 then Diff(c, noCorrection, offsets[k]) else 0;
             && w.pos == v.pos + c.spt - d
             && w.writes == v.writes + [Block(v.pos + 2 * c.spt - c.symbol, c.spt - d)]
    ensures w == After(c, noCorrection, base, offsets, k + 1)
  {
    assert w.subframe == k % 10;
  }

  /** The stream position and the blocks exchanged so far. */
  class UeStream {
    const c: Cell
    const noCorrection: bool
    var pos: int
    var subframe: int
    var writes: seq<Block>
    var stamps: seq<int>

    constructor (c: Cell, noCorrection: bool, pos: int)
      ensures this.c == c && this.noCorrection == noCorrection && this.pos == pos
      ensures subframe == -1 && writes == [] && stamps == []
    {
      this.c, this.noCorrection, this.pos := c, noCorrection, pos;
      subframe, writes, stamps := -1, [], [];
    }

    method Read(size: int) returns (timestamp: int)
      modifies `pos
      ensures timestamp == old(pos) && pos == old(pos) + size
    {
      timestamp := pos;
      pos := pos + size;
    }

    /** Skips `rxOffset` samples in blocks of at most one subframe, then reads the first symbol of the frame. */
    method Start(rxOffset: nat) returns (skipped: seq<Block>)
      requires c.Valid()
      modifies `pos
      ensures pos == old(pos) + (if noCorrection then 0 else rxOffset) + c.symbol
      ensures skipped == if noCorrection then [] else Skipped(c, old(pos), rxOffset)
    {
      skipped := [];
      if !noCorrection {
        var left := rxOffset;
        while left > 0
          invariant 0 <= left <= rxOffset && pos == old(pos) + rxOffset - left
          invariant skipped + Skipped(c, pos, left) == Skipped(c, old(pos), rxOffset)
        {
          var s := if left < c.spt then left else c.spt;
          var timestamp := Read(s);
          ghost var rest := Skipped(c, pos, left - s);
          assert skipped + ([Block(timestamp, s)] + rest) == (skipped + [Block(timestamp, s)]) + rest;
          skipped := skipped + [Block(timestamp, s)];
          left := left - s;
        }
      }
      var _ := Read(c.symbol);
    }

    /**
     One received subframe: read, write two subframes ahead, stamp the job four subframes ahead.  `compensated`
     is false where the source reports that it cannot compensate, which never happens.
     */
    method Subframe(rxOffset: int) returns (compensated: bool)
      requires c.Valid() && -1 <= subframe < 10
      modifies this
      ensures compensated
      ensures subframe == (old(subframe) + 1) % 10
      ensures
        var d := if subframe == 9 then Diff(c, noCorrection, rxOffset) else 0;
        && pos == old(pos) + c.spt - d
        && writes == old(writes) + [Block(old(pos) + 2 * c.spt - c.symbol, c.spt - d)]
      ensures stamps == old(stamps) + [old(pos) + 4 * c.spt - c.symbol]
    {
      compensated := true;
      subframe := (subframe + 1) % 10;
      var readSize, writeSize := c.spt, c.spt;
      if subframe == 9 {
        var diff := 0;
        if !noCorrection {
          if rxOffset < 5 * c.spt && rxOffset > 0 {
            diff := -1;
          }
          if rxOffset > 5 * c.spt && rxOffset < 10 * c.spt {
            diff := 1;
          }
        }
        readSize, writeSize := c.spt - c.symbol - diff, c.spt - diff;
      }
      var timestamp := Read(readSize);
      writes := writes + [Block(timestamp + 2 * c.spt - c.symbol, writeSize)];
      if subframe == 9 {
        var firstSymbols := writeSize - readSize;
        assert firstSymbols == c.symbol;
        if firstSymbols > 0 {
          var _ := Read(firstSymbols);
        }
        if firstSymbols < 0 {
          compensated := false;
        }
      }
      stamps := stamps + [timestamp + 4 * c.spt - c.symbol];
    }

    function View(): Snapshot
      reads this
    {
      Snapshot(pos, subframe, writes, stamps)
    }

    /** A run from the first subframe of a frame. */
    method Receive(offsets: seq<int>)
      requires c.Valid() && subframe == -1 && writes == [] && stamps == []
      modifies this
      ensures View() == After(c, noCorrection, old(pos) - c.symbol, offsets, |offsets|)
    {
      ghost var base := pos - c.symbol;
      for k := 0 to |offsets|
        invariant View() == After(c, noCorrection, base, offsets, k)
      {
        ghost var v := View();
        assert c.Valid() && v.subframe == if k == 0 then -1 else (k - 1) % 10;
        var _ := Subframe(offsets[k]);
        AfterStep(c, noCorrection, base, offsets, k, v, View());
      }
    }
  }
}
