/**
 Transmit time keeping of a remote radio unit: `fh_if4p5_north_asynch_in` turns the received frame and
 subframe numbers, which wrap every 10240 subframes, into a timestamp that should not.
 */
module SfnUnwrap {
  import opened LteTime

  const CYCLE: nat := 10240

  /** The unwrap counter after a subframe was received; it advances on frame 0, subframe 0 and nowhere else. */
  function Unwrap(unwrap: int, frame: int, tti: int): int {
    if frame == 0 && tti == 0 then unwrap + 1024 else unwrap
  }

  function Timestamp(unwrap: int, frame: int, tti: int, spt: nat): int {
    ((frame + unwrap) * 10 + tti) * spt
  }

  /** The frame and subframe numbers that subframe `x`, counted from the start of the stream's time, carries. */
  function FrameNo(x: nat): nat {
    x / 10 % 1024
  }

  function TtiNo(x: nat): nat {
    x % 10
  }

  /** The unwrap counter and the timestamp after receiving the subframes `xs`. */
  function UnwrapAfter(xs: seq<nat>): nat {
    if xs == [] then 0
    else
      var x := xs[|xs| - 1];
      Unwrap(UnwrapAfter(xs[..|xs| - 1]), FrameNo(x), TtiNo(x))
  }

  function TimestampAfter(xs: seq<nat>, spt: nat): int
    requires xs != []
  {
    var x := xs[|xs| - 1];
    Timestamp(UnwrapAfter(xs), FrameNo(x), TtiNo(x), spt)
  }

  lemma Numbers(x: nat)
    ensures FrameNo(x) * 10 + TtiNo(x) == x % CYCLE
    ensures FrameNo(x) == 0 && TtiNo(x) == 0 <==> x % CYCLE == 0
  {
    assert x / 10 / 1024 == x / CYCLE;
  }

  lemma {:induction false} WholeCycles(xs: seq<nat>)
    ensures UnwrapAfter(xs) % 1024 == 0
  {
    if xs == [] {
    } else {
      WholeCycles(xs[..|xs| - 1]);
    }
  }

  /** The subframe index that a timestamp stands for. */
  function Index(xs: seq<nat>): int
    requires xs != []
  {
    xs[|xs| - 1] % CYCLE + 10 * UnwrapAfter(xs)
  }

  lemma TimestampIsIndex(xs: seq<nat>, spt: nat)
    requires xs != []
    ensures TimestampAfter(xs, spt) == Index(xs) * spt
  {
    Numbers(xs[|xs| - 1]);
  }

  lemma IndexDecodes(xs: seq<nat>)
    requires xs != []
    ensures var x := xs[|xs| - 1]; Index(xs) / 10 % 1024 == FrameNo(x) && Index(xs) % 10 == TtiNo(x)
  {
    WholeCycles(xs);
    Numbers(xs[|xs| - 1]);
    CycleShift(FrameNo(xs[|xs| - 1]), TtiNo(xs[|xs| - 1]), UnwrapAfter(xs) / 1024);
  }

  lemma CycleShift(f: nat, t: nat, cycles: nat)
    requires f < 1024 && t < 10
    ensures var x := f * 10 + t + CYCLE * cycles; x / 10 % 1024 == f && x % 10 == t
  {
    var x := f * 10 + t + CYCLE * cycles;
    assert x / 10 == f + 1024 * cycles;
  }

  /** Whatever was received or lost before, the timestamp decodes back to the received frame and subframe. */
  lemma TimestampDecodes(xs: seq<nat>, spt: nat)
    requires xs != [] && ValidSpt(spt)
    ensures var x := xs[|xs| - 1];
            Consistent(Job(FrameNo(x), TtiNo(x), TimestampAfter(xs, spt)), spt)
  {
    TimestampIsIndex(xs, spt);
    IndexDecodes(xs);
    DecodeAt(Index(xs), 0, spt);
  }

  /** Between subframes `a` and `b` of a stream no start of a frame cycle is passed over. */
  ghost predicate NoSkip(a: nat, b: nat) {
    forall z :: a < z < b ==> z % CYCLE != 0
  }

  lemma NoSkipMeans(a: nat, b: nat)
    requires a < b
    ensures NoSkip(a, b) <==> b / CYCLE - a / CYCLE == if b % CYCLE == 0 then 1 else 0
  {
    var next := (a / CYCLE + 1) * CYCLE;
    assert a < next && next % CYCLE == 0;
    if next < b {
      assert !NoSkip(a, b);
      assert b / CYCLE > a / CYCLE;
      if b % CYCLE == 0 {
        assert b / CYCLE >= a / CYCLE + 2;
      }
    } else {
      forall z | a < z < b ensures z % CYCLE != 0 {
        assert a / CYCLE * CYCLE < z < (a / CYCLE + 1) * CYCLE;
      }
    }
  }

  lemma IndexAdvancesIff(xs: seq<nat>, b: nat)
    requires xs != [] && xs[|xs| - 1] < b
    ensures Index(xs + [b]) - Index(xs) == b - xs[|xs| - 1] <==> NoSkip(xs[|xs| - 1], b)
  {
    var ys := xs + [b];
    assert ys[..|ys| - 1] == xs;
    NoSkipMeans(xs[|xs| - 1], b);
    Numbers(b);
  }

  lemma SameFactor(x: int, y: int, spt: nat)
    requires spt > 0
    ensures x * spt == y * spt <==> x == y
  {
    Distribute(x, -y, spt);
    Distribute(y, -y, spt);
    if x > y {
      assert (x - y) * spt > 0;
    } else if x < y {
      Distribute(y, -x, spt);
      assert (y - x) * spt > 0;
    }
  }

  /**
   One more subframe of an in-order stream advances the timestamp by the subframes elapsed if and only if the
   stream did not skip a start of a frame cycle; otherwise time is lost.
   */
  lemma AdvancesIff(xs: seq<nat>, b: nat, spt: nat)
    requires xs != [] && xs[|xs| - 1] < b && spt > 0
    ensures var a := xs[|xs| - 1];
            TimestampAfter(xs + [b], spt) - TimestampAfter(xs, spt) == (b - a) * spt <==> NoSkip(a, b)
  {
    var i, j, elapsed: int := Index(xs), Index(xs + [b]), b - xs[|xs| - 1];
    TimestampIsIndex(xs, spt);
    TimestampIsIndex(xs + [b], spt);
    IndexAdvancesIff(xs, b);
    Distribute(i, j - i, spt);
    SameFactor(j - i, elapsed, spt);
  }

  /** An in-order stream that never skips a start of a frame cycle. */
  ghost predicate InOrder(xs: seq<nat>) {
    forall i :: 0 < i < |xs| ==> xs[i - 1] < xs[i] && NoSkip(xs[i - 1], xs[i])
  }

  lemma {:induction false} IndexMeasures(xs: seq<nat>)
    requires xs != [] && InOrder(xs)
    ensures Index(xs) + xs[0] == Index(xs[..1]) + xs[|xs| - 1]
  {
    if |xs| == 1 {
      assert xs[..1] == xs;
    } else {
      var before := xs[..|xs| - 1];
      IndexMeasures(before);
      assert before[..1] == xs[..1];
      assert before + [xs[|xs| - 1]] == xs;
      IndexAdvancesIff(before, xs[|xs| - 1]);
    }
  }

  /** Over any such stream, however long, the timestamp measures exactly the subframes elapsed. */
  lemma TimestampMeasures(xs: seq<nat>, spt: nat)
    requires xs != [] && InOrder(xs) && spt > 0
    ensures TimestampAfter(xs, spt) - TimestampAfter(xs[..1], spt) == (xs[|xs| - 1] as int - xs[0]) * spt
  {
    IndexMeasures(xs);
    TimestampIsIndex(xs, spt);
    TimestampIsIndex(xs[..1], spt);
    var i, elapsed: int := Index(xs[..1]), xs[|xs| - 1] as int - xs[0];
    assert Index(xs) == i + elapsed;
    Distribute(i, elapsed, spt);
  }

  /** In particular it strictly increases. */
  lemma TimestampIncreases(xs: seq<nat>, i: nat, spt: nat)
    requires InOrder(xs) && 0 < i < |xs| && spt > 0
    ensures TimestampAfter(xs[..i], spt) < TimestampAfter(xs[..i + 1], spt)
  {
    assert xs[..i] + [xs[i]] == xs[..i + 1];
    assert xs[..i][i - 1] == xs[i - 1];
    AdvancesIff(xs[..i], xs[i], spt);
    PositiveTimes(xs[i] - xs[i - 1], spt);
  }

  lemma PositiveTimes(x: int, spt: nat)
    requires x > 0 && spt > 0
    ensures x * spt > 0
  {
  }

  // ----- machine integers -----

  /** How many starts of a frame cycle were received. */
  function CycleStarts(xs: seq<nat>): nat {
    if xs == [] then 0
    else CycleStarts(xs[..|xs| - 1]) + if xs[|xs| - 1] % CYCLE == 0 then 1 else 0
  }

  lemma {:induction false} UnwrapCounts(xs: seq<nat>)
    ensures UnwrapAfter(xs) == 1024 * CycleStarts(xs)
  {
    if xs == [] {
    } else {
      UnwrapCounts(xs[..|xs| - 1]);
      Numbers(xs[|xs| - 1]);
    }
  }

  /** The 32-bit `frame_tx_unwrap` holds the counter up to 2097151 frame cycles, some 248 days, and no longer. */
  lemma UnwrapFitsIff(xs: seq<nat>)
    ensures UnwrapAfter(xs) < 0x8000_0000 <==> CycleStarts(xs) < 0x20_0000
  {
    UnwrapCounts(xs);
  }

  lemma ProductBelow(x: nat, bound: nat, spt: nat)
    requires x <= bound
    ensures 0 <= x * spt <= bound * spt
  {
    assert bound * spt == x * spt + (bound - x) * spt;
  }

  /** As long as it does, the 64-bit timestamp does not overflow either. */
  lemma TimestampFits(xs: seq<nat>, spt: nat)
    requires xs != [] && ValidSpt(spt) && CycleStarts(xs) < 0x20_0000
    ensures 0 <= TimestampAfter(xs, spt) < 0x8000_0000_0000_0000
  {
    UnwrapFitsIff(xs);
    TimestampIsIndex(xs, spt);
    ProductBelow(Index(xs), 0x6_0000_0000, spt);
    ProductBelow(spt, 0x10_0000, 0x6_0000_0000);
  }

  /** The 32-bit `int` counter; on overflow it wraps, as compilers make it do. */
  function Add32(x: int): int {
    if x + 1024 < 0x8000_0000 then x + 1024 else x + 1024 - U32
  }

  const U64: int := 0x1_0000_0000_0000_0000

  function MachineUnwrap(unwrap: int, frame: int, tti: int): int {
    if frame == 0 && tti == 0 then Add32(unwrap) else unwrap
  }

  /** The 64-bit unsigned expression. */
  function MachineTimestamp(unwrap: int, frame: int, tti: int, spt: nat): int {
    ((frame + unwrap) * 10 + tti) * spt % U64
  }

  function MachineUnwrapAfter(xs: seq<nat>): int {
    if xs == [] then 0
    else
      var x := xs[|xs| - 1];
      MachineUnwrap(MachineUnwrapAfter(xs[..|xs| - 1]), FrameNo(x), TtiNo(x))
  }

  function MachineTimestampAfter(xs: seq<nat>, spt: nat): int
    requires xs != []
  {
    var x := xs[|xs| - 1];
    MachineTimestamp(MachineUnwrapAfter(xs), FrameNo(x), TtiNo(x), spt)
  }

  lemma {:induction false} MachineUnwrapAgrees(xs: seq<nat>)
    requires CycleStarts(xs) < 0x20_0000
    ensures MachineUnwrapAfter(xs) == UnwrapAfter(xs)
  {
    if xs == [] {
    } else {
      MachineUnwrapAgrees(xs[..|xs| - 1]);
      UnwrapFitsIff(xs);
    }
  }

  /** Up to the life of the counter the machine computes the timestamps of unbounded integers. */
  lemma MachineAgrees(xs: seq<nat>, spt: nat)
    requires xs != [] && ValidSpt(spt) && CycleStarts(xs) < 0x20_0000
    ensures MachineTimestampAfter(xs, spt) == TimestampAfter(xs, spt)
  {
    MachineUnwrapAgrees(xs);
    TimestampFits(xs, spt);
    SmallMod(TimestampAfter(xs, spt));
    assert MachineTimestampAfter(xs, spt) == TimestampAfter(xs, spt) % U64;
  }

  lemma SmallMod(x: int)
    requires 0 <= x < U64
    ensures x % U64 == x
  {
  }

  lemma {:induction false} StartsGrow(xs: seq<nat>, i: nat)
    requires i <= |xs|
    ensures CycleStarts(xs[..i]) <= CycleStarts(xs)
    decreases |xs|
  {
    if i == |xs| {
      assert xs[..i] == xs;
    } else {
      StartsGrow(xs[..|xs| - 1], i);
      assert xs[..|xs| - 1][..i] == xs[..i];
    }
  }

  /**
   On the machine: over any in-order stream with fewer than 2097152 starts of a frame cycle that skips none, the
   timestamp measures exactly the subframes elapsed, across every wrap of the frame number.
   */
  lemma MachineMeasures(xs: seq<nat>, spt: nat)
    requires xs != [] && InOrder(xs) && ValidSpt(spt) && CycleStarts(xs) < 0x20_0000
    ensures MachineTimestampAfter(xs, spt) - MachineTimestampAfter(xs[..1], spt)
            == (xs[|xs| - 1] as int - xs[0]) * spt
  {
    StartsGrow(xs, 1);
    MachineAgrees(xs, spt);
    MachineAgrees(xs[..1], spt);
    TimestampMeasures(xs, spt);
  }

  /** And then it goes wrong: the start of cycle 2097152 sets the counter to its most negative value. */
  lemma CounterOverflows(xs: seq<nat>)
    requires xs != [] && CycleStarts(xs[..|xs| - 1]) == 0x1f_ffff && xs[|xs| - 1] % CYCLE == 0
    ensures MachineUnwrapAfter(xs) == -0x8000_0000
  {
    var before := xs[..|xs| - 1];
    MachineUnwrapAgrees(before);
    UnwrapCounts(before);
    Numbers(xs[|xs| - 1]);
  }

  /** The transmit fields of `RU_proc_t`. */
  class NorthFronthaul {
    const spt: nat
    var frameTxUnwrap: int
    var frameTx: nat
    var ttiTx: nat
    var timestampTx: int

    constructor (spt: nat)
      ensures this.spt == spt && frameTxUnwrap == 0
    {
      this.spt := spt;
      frameTxUnwrap, frameTx, ttiTx, timestampTx := 0, 0, 0, 0;
    }

    /** The end of `fh_if4p5_north_asynch_in`, once all symbols of a subframe are in. */
    method SubframeReceived(frame: nat, tti: nat)
      modifies this
      ensures frameTx == frame && ttiTx == tti
      ensures frameTxUnwrap == MachineUnwrap(old(frameTxUnwrap), frame, tti)
      ensures timestampTx == MachineTimestamp(frameTxUnwrap, frame, tti, spt)
    {
      ttiTx, frameTx := tti, frame;
      if frame == 0 && tti == 0 {
        frameTxUnwrap := Add32(frameTxUnwrap);
      }
      timestampTx := ((frame + frameTxUnwrap) * 10 + tti) * spt % U64;
    }

    /** A whole stream received from the start: the timestamps handed to the radio are those measured above. */
    method ReceiveStream(xs: seq<nat>) returns (timestamps: seq<int>)
      requires frameTxUnwrap == 0
      modifies this
      ensures |timestamps| == |xs| && frameTxUnwrap == MachineUnwrapAfter(xs)
      ensures forall i :: 0 <= i < |xs| ==> timestamps[i] == MachineTimestampAfter(xs[..i + 1], spt)
    {
      timestamps := [];
      for i := 0 to |xs|
        invariant |timestamps| == i && frameTxUnwrap == MachineUnwrapAfter(xs[..i])
        invariant forall j :: 0 <= j < i ==> timestamps[j] == MachineTimestampAfter(xs[..j + 1], spt)
      {
        assert xs[..i + 1][..i] == xs[..i];
        SubframeReceived(FrameNo(xs[i]), TtiNo(xs[i]));
        timestamps := timestamps + [timestampTx];
      }
      assert xs[..|xs|] == xs;
    }
  }
}
