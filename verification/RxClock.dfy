/**
 Receive time keeping of a radio unit with a local radio: `rx_rf`, which turns device timestamps into
 frame and subframe numbers, and the loop of `ru_thread`, which keeps its own counters and lets `rx_rf`
 exit the program when the two disagree.
 */
module RxClock {
  import opened LteTime

  datatype Command = EMPTY | RU_FRAME_RESYNCH(value: nat)

  /** The fields of `RU_t` and `RU_proc_t` that `rx_rf` reads and writes. */
  datatype Clock = Clock(tsOffset: int, timestampRx: int, frameRx: int, ttiRx: int, firstRx: bool, cmd: Command)

  /** The local `frame` and `subframe` of `ru_thread`. */
  datatype Counters = Counters(frame: int, subframe: int)

  /** The outcome of `rx_rf`; `exited` stands for the "doesn't correspond to the time" exits. */
  datatype Reading = Reading(clock: Clock, counters: Counters, exited: bool)

  /** What `ru_thread` does to its counters before each call. */
  function Advance(k: Counters): Counters {
    if k.subframe == 9 then Counters((k.frame + 1) % 1024, 0) else k.(subframe := k.subframe + 1)
  }

  /** A frame resynch moves the offset by whole frames, in 32-bit unsigned products. */
  function Rebased(c: Clock, spt: nat): int {
    match c.cmd
    case EMPTY => c.tsOffset
    case RU_FRAME_RESYNCH(v) =>
      if c.frameRx > v then c.tsOffset + (c.frameRx - v) * spt * 10 % U32
      else c.tsOffset - (v - c.frameRx) * spt * 10 % U32
  }

  /** `rx_rf` for a read that returned device time `ts`. */
  function RxRf(c: Clock, k: Counters, ts: int, spt: nat): Reading
    requires ValidSpt(spt)
  {
    var offset := Rebased(c, spt);
    var frame := if c.cmd.EMPTY? then k.frame else c.cmd.value;
    var raw := ts - offset;
    var drifted := c.cmd.EMPTY? && raw - c.timestampRx != spt;
    var tsOffset := if c.firstRx then raw else if drifted then offset + (raw - c.timestampRx - spt) else offset;
    var timestamp := if c.firstRx then 0 else if drifted then ts - tsOffset else raw;
    var clock := Clock(tsOffset, timestamp, FrameOf(timestamp, spt), SubframeOf(timestamp, spt), false, EMPTY);
    if c.firstRx then Reading(clock, Counters(clock.frameRx, clock.ttiRx), false)
    else Reading(clock, k.(frame := frame), clock.ttiRx != k.subframe || clock.frameRx != frame)
  }

  /** Receive time is `phase` samples into the m-th subframe, and both sets of counters say so. */
  ghost predicate InSync(c: Clock, k: Counters, m: nat, phase: nat, spt: nat) {
    && !c.firstRx && phase < spt
    && c.timestampRx == m * spt + phase
    && k == Counters(m / 10 % 1024, m % 10)
    && c.frameRx == k.frame && c.ttiRx == k.subframe
  }

  lemma AdvanceCounts(m: nat)
    ensures Advance(Counters(m / 10 % 1024, m % 10)) == Counters((m + 1) / 10 % 1024, (m + 1) % 10)
  {
    if m % 10 == 9 {
      assert (m + 1) / 10 == m / 10 + 1;
      assert (m / 10 % 1024 + 1) % 1024 == (m / 10 + 1) % 1024;
    } else {
      assert (m + 1) / 10 == m / 10;
    }
  }

  /** The first read sets the time to frame 0, subframe 0, whatever the device says. */
  lemma FirstCall(c: Clock, k: Counters, ts: int, spt: nat)
    requires ValidSpt(spt) && c.firstRx
    ensures var r := RxRf(c, k, ts, spt); !r.exited && InSync(r.clock, r.counters, 0, 0, spt) && r.clock.cmd == EMPTY
  {
    DecodeAt(0, 0, spt);
  }

  /** Without a resynch command every device timestamp, however far it drifted, is the next subframe. */
  lemma NormalCall(c: Clock, k: Counters, m: nat, phase: nat, ts: int, spt: nat)
    requires ValidSpt(spt) && InSync(c, k, m, phase, spt) && c.cmd == EMPTY
    ensures var r := RxRf(c, Advance(k), ts, spt);
            !r.exited && InSync(r.clock, r.counters, m + 1, phase, spt) && r.clock.cmd == EMPTY
  {
    AdvanceCounts(m);
    Distribute(m, 1, spt);
    DecodeAt(m + 1, phase, spt);
  }

  /**
   Receive time and offset add up to the device time of the read, whatever the drift and whatever the command; on
   the first read the offset is measured from the one before, which is zero.
   */
  lemma OffsetIsDeviceTime(c: Clock, k: Counters, ts: int, spt: nat)
    requires ValidSpt(spt)
    ensures var r := RxRf(c, k, ts, spt).clock;
            r.timestampRx + r.tsOffset == if c.firstRx then ts - Rebased(c, spt) else ts
  {
  }

  /** So a write for `ahead` subframes later is requested exactly that much after the read, in device time. */
  lemma WriteLandsAhead(c: Clock, k: Counters, ts: int, ahead: nat, spt: nat)
    requires ValidSpt(spt) && ahead <= 10 && !c.firstRx
    ensures var r := RxRf(c, k, ts, spt).clock;
            TimestampTx(r.timestampRx, ahead, spt) + r.tsOffset == ts + ahead * spt
  {
    OffsetIsDeviceTime(c, k, ts, spt);
    AheadFits(ahead, spt);
  }

  /** A run of `ru_thread` over any device timestamps: `Exited` when some call exits the program. */
  datatype Run = Exited | Running(clock: Clock, counters: Counters)

  function RunRu(c: Clock, k: Counters, tss: seq<int>, spt: nat): Run
    requires ValidSpt(spt)
  {
    if tss == [] then Running(c, k)
    else
      match RunRu(c, k, tss[..|tss| - 1], spt)
      case Exited => Exited
      case Running(c1, k1) =>
        var r := RxRf(c1, Advance(k1), tss[|tss| - 1], spt);
        if r.exited then Exited else Running(r.clock, r.counters)
  }

  /** Once in sync, always in sync: for every sequence of device timestamps the exits are unreachable. */
  lemma {:induction false} RunStaysInSync(c: Clock, k: Counters, m: nat, phase: nat, tss: seq<int>, spt: nat)
    requires ValidSpt(spt) && InSync(c, k, m, phase, spt) && c.cmd == EMPTY
    ensures var run := RunRu(c, k, tss, spt);
            && run.Running? && InSync(run.clock, run.counters, m + |tss|, phase, spt) && run.clock.cmd == EMPTY
            && (tss != [] ==> run.clock.timestampRx + run.clock.tsOffset == tss[|tss| - 1])
  {
    if tss == [] {
    } else {
      var before := tss[..|tss| - 1];
      RunStaysInSync(c, k, m, phase, before, spt);
      var run := RunRu(c, k, before, spt);
      NormalCall(run.clock, run.counters, m + |before|, phase, tss[|tss| - 1], spt);
      OffsetIsDeviceTime(run.clock, Advance(run.counters), tss[|tss| - 1], spt);
    }
  }

  /** Samples by which a device timestamp misses the next subframe. */
  function Drift(c: Clock, ts: int, spt: nat): int {
    ts - c.tsOffset - c.timestampRx - spt
  }

  /** Whole subframes of drift, counted from the phase. */
  function DriftSubframes(c: Clock, phase: nat, ts: int, spt: nat): int
    requires spt > 0
  {
    (phase + Drift(c, ts, spt)) / spt
  }

  /** The subframe a resynch to frame `v` lands on, and the drift that goes uncorrected in that call. */
  function ResynchTarget(c: Clock, m: nat, phase: nat, ts: int, spt: nat): int
    requires spt > 0 && c.cmd.RU_FRAME_RESYNCH?
  {
    m + 1 + 10 * (c.cmd.value - c.frameRx) + DriftSubframes(c, phase, ts, spt)
  }

  lemma RebasedIs(c: Clock, spt: nat)
    requires ValidSpt(spt) && c.cmd.RU_FRAME_RESYNCH? && c.cmd.value < 1024 && 0 <= c.frameRx < 1024
    ensures Rebased(c, spt) == c.tsOffset + (c.frameRx - c.cmd.value) * (spt * 10)
  {
    FramesFit(c.frameRx, c.cmd.value, spt);
  }

  lemma ResynchTimestamp(c: Clock, k: Counters, m: nat, phase: nat, ts: int, spt: nat)
    requires ValidSpt(spt) && InSync(c, k, m, phase, spt) && c.cmd.RU_FRAME_RESYNCH? && c.cmd.value < 1024
    ensures RxRf(c, Advance(k), ts, spt).clock.timestampRx
            == ResynchTarget(c, m, phase, ts, spt) * spt + (phase + Drift(c, ts, spt)) % spt
  {
    var d := phase + Drift(c, ts, spt);
    RebasedIs(c, spt);
    assert RxRf(c, Advance(k), ts, spt).clock.timestampRx == ts - Rebased(c, spt);
    Fundamental(d, spt);
    TargetSplit(m, c.frameRx, c.cmd.value, d / spt, spt);
  }

  /** The 32-bit product of at most 1023 frames does not wrap. */
  lemma ProductFits(n: nat, spt: nat)
    requires ValidSpt(spt) && n < 1024
    ensures n * spt * 10 % U32 == n * (spt * 10)
  {
    var x := n * spt;
    assert x <= 1023 * spt;
    assert x * 10 == n * (spt * 10);
  }

  lemma FramesFit(f: int, v: nat, spt: nat)
    requires ValidSpt(spt) && 0 <= f < 1024 && v < 1024
    ensures f > v ==> (f - v) * spt * 10 % U32 == (f - v) * (spt * 10)
    ensures f <= v ==> (v - f) * spt * 10 % U32 == -((f - v) * (spt * 10))
  {
    if f > v {
      ProductFits(f - v, spt);
    } else {
      ProductFits(v - f, spt);
      Distribute(f - v, v - f, spt * 10);
    }
  }

  lemma TargetSplit(m: nat, f: int, v: int, q: int, spt: nat)
    ensures (m + 1 + 10 * (v - f) + q) * spt == m * spt + spt - (f - v) * (spt * 10) + q * spt
  {
    Distribute(m + 1 + 10 * (v - f), q, spt);
    Distribute(m + 1, 10 * (v - f), spt);
    Distribute(m, 1, spt);
  }

  // ----- negative timestamps -----

  /** `TruncDiv` of a negative number rounds up, so the remainder is taken from the other side. */
  lemma NegativeQuotient(x: int, r: nat, b: nat)
    requires r < b && x <= 0
    ensures TruncDiv(x * b - r, b) == x
  {
    DivUnique(-(x * b - r), b, -x, r);
  }

  /** The subframe index to which the division in `rx_rf` rounds a timestamp. */
  function Rounded(target: int, rest: nat): int {
    if target < 0 && rest > 0 then target + 1 else target
  }

  lemma NegativeShape(target: int, rest: nat, spt: nat)
    requires target < 0 && rest < spt
    ensures target * spt + rest < 0
    ensures target * spt + rest == Rounded(target, rest) * spt - (if rest == 0 then 0 else spt - rest)
  {
    Distribute(target, 1, spt);
    TimesNonNegative(-(target + 1), spt);
    Distribute(target + 1, -(target + 1), spt);
  }

  lemma NegativeFrame(s: int, r: nat, spt: nat)
    requires ValidSpt(spt) && s <= 0 && s % 10 == 0 && r < spt
    ensures FrameOf(s * spt - r, spt) == s / 10 % 1024
  {
    TensSplit(s / 10, 0, spt);
    NegativeQuotient(s / 10, r, spt * 10);
    assert spt * 10 % U32 == spt * 10;
  }

  /**
   A negative timestamp decodes to a subframe number that is not positive; where it is zero, the frame
   number is that of the rounded index.
   */
  lemma NegativeDecodes(target: int, rest: nat, spt: nat)
    requires ValidSpt(spt) && target < 0 && rest < spt
    ensures target * spt + rest < 0
    ensures var ts, s := target * spt + rest, Rounded(target, rest);
            && SubframeOf(ts, spt) <= 0
            && (SubframeOf(ts, spt) == 0 <==> s % 10 == 0)
            && (s % 10 == 0 ==> FrameOf(ts, spt) == s / 10 % 1024)
  {
    var s, r := Rounded(target, rest), if rest == 0 then 0 else spt - rest;
    NegativeShape(target, rest, spt);
    NegativeQuotient(s, r, spt);
    if s % 10 == 0 {
      NegativeFrame(s, r, spt);
    }
  }

  /** One subframe after a negative timestamp the decoded subframe number is never positive. */
  lemma AfterNegative(ts: int, spt: nat)
    requires ValidSpt(spt) && ts < 0
    ensures SubframeOf(ts + spt, spt) <= 0
  {
    var next := ts + spt;
    Fundamental(next, spt);
    if next < 0 {
      var target := next / spt;
      assert target < 0;
      NegativeDecodes(target, next % spt, spt);
    } else {
      DivUnique(next, spt, 0, next);
    }
  }

  // ----- the resynch -----

  /** The drift that a resynch survives, in subframes: whole frame cycles, one frame less on a rollover. */
  predicate WholeCycles(drift: int, m: nat) {
    drift % 10240 == if m % 10 == 9 then 10230 else 0
  }

  /** The samples that the timestamp after a resynch is past a subframe boundary. */
  function ResynchRest(c: Clock, phase: nat, ts: int, spt: nat): nat
    requires spt > 0
  {
    (phase + Drift(c, ts, spt)) % spt
  }

  /**
   When the resynch call itself does not exit.  A negative timestamp can pass by accident, on a rollover to
   subframe 0, because C rounds towards zero.
   */
  predicate CallSurvives(c: Clock, m: nat, phase: nat, ts: int, spt: nat)
    requires spt > 0 && c.cmd.RU_FRAME_RESYNCH?
  {
    var target, drift := ResynchTarget(c, m, phase, ts, spt), DriftSubframes(c, phase, ts, spt);
    c.cmd.value < 1024 &&
    if target >= 0 then WholeCycles(drift, m)
    else m % 10 == 9 && WholeCycles(drift + (if ResynchRest(c, phase, ts, spt) > 0 then 1 else 0), m)
  }

  lemma ForwardResynch(c: Clock, k: Counters, m: nat, phase: nat, ts: int, spt: nat)
    requires ValidSpt(spt) && InSync(c, k, m, phase, spt) && c.cmd.RU_FRAME_RESYNCH? && c.cmd.value < 1024
    requires ResynchTarget(c, m, phase, ts, spt) >= 0
    ensures var r := RxRf(c, Advance(k), ts, spt);
            var target := ResynchTarget(c, m, phase, ts, spt);
            && (!r.exited <==> WholeCycles(DriftSubframes(c, phase, ts, spt), m))
            && (!r.exited ==>
                  && r.counters.frame == r.clock.frameRx == c.cmd.value
                  && InSync(r.clock, r.counters, target, ResynchRest(c, phase, ts, spt), spt)
                  && r.clock.cmd == EMPTY)
  {
    var target := ResynchTarget(c, m, phase, ts, spt);
    ResynchTimestamp(c, k, m, phase, ts, spt);
    DecodeAt(target, ResynchRest(c, phase, ts, spt), spt);
    AdvanceCounts(m);
    TargetDecodes(m, c.cmd.value, DriftSubframes(c, phase, ts, spt));
  }

  lemma BackwardResynch(c: Clock, k: Counters, m: nat, phase: nat, ts: int, spt: nat)
    requires ValidSpt(spt) && InSync(c, k, m, phase, spt) && c.cmd.RU_FRAME_RESYNCH? && c.cmd.value < 1024
    requires ResynchTarget(c, m, phase, ts, spt) < 0
    ensures var r := RxRf(c, Advance(k), ts, spt);
            && (!r.exited <==> CallSurvives(c, m, phase, ts, spt))
            && (!r.exited ==> r.counters.subframe == 0 && r.clock.timestampRx < 0)
  {
    var target, rest := ResynchTarget(c, m, phase, ts, spt), ResynchRest(c, phase, ts, spt);
    var e := if rest > 0 then 1 else 0;
    ResynchTimestamp(c, k, m, phase, ts, spt);
    NegativeDecodes(target, rest, spt);
    AdvanceCounts(m);
    TargetDecodes(m, c.cmd.value, DriftSubframes(c, phase, ts, spt) + e);
    assert Rounded(target, rest) == target + e;
  }

  /** A resynch call, exactly: for every command value, drift and device time. */
  lemma ResynchCall(c: Clock, k: Counters, m: nat, phase: nat, ts: int, spt: nat)
    requires ValidSpt(spt) && InSync(c, k, m, phase, spt) && c.cmd.RU_FRAME_RESYNCH?
    ensures !RxRf(c, Advance(k), ts, spt).exited <==> CallSurvives(c, m, phase, ts, spt)
  {
    if c.cmd.value < 1024 {
      if ResynchTarget(c, m, phase, ts, spt) >= 0 {
        ForwardResynch(c, k, m, phase, ts, spt);
      } else {
        BackwardResynch(c, k, m, phase, ts, spt);
      }
    } else {
      FrameBelow(RxRf(c, Advance(k), ts, spt).clock.timestampRx, spt);
    }
  }

  /** Whole frame cycles of drift are not enough: a concrete call that lands before time zero and exits. */
  lemma BeforeZeroExits()
    ensures var c := Clock(1000000, 0, 0, 0, false, RU_FRAME_RESYNCH(0));
            && InSync(c, Counters(0, 0), 0, 0, 10) && WholeCycles(DriftSubframes(c, 0, 897610, 10), 0)
            && RxRf(c, Advance(Counters(0, 0)), 897610, 10).exited
  {
    var c := Clock(1000000, 0, 0, 0, false, RU_FRAME_RESYNCH(0));
    assert DriftSubframes(c, 0, 897610, 10) == -10240;
    ResynchCall(c, Counters(0, 0), 0, 0, 897610, 10);
  }

  lemma FrameBelow(ts: int, spt: nat)
    requires ValidSpt(spt)
    ensures FrameOf(ts, spt) < 1024
  {
  }

  lemma {:induction false} FirstExitExits(c: Clock, k: Counters, tss: seq<int>, spt: nat)
    requires ValidSpt(spt) && tss != [] && RxRf(c, Advance(k), tss[0], spt).exited
    ensures RunRu(c, k, tss, spt) == Exited
    decreases |tss|
  {
    if |tss| == 1 {
      assert tss[..0] == [];
    } else {
      FirstExitExits(c, k, tss[..|tss| - 1], spt);
    }
  }

  /** A call that passed with a negative timestamp makes the next one exit. */
  lemma NegativeExits(c: Clock, k: Counters, tss: seq<int>, spt: nat)
    requires ValidSpt(spt) && tss != [] && !c.firstRx && c.cmd == EMPTY && c.timestampRx < 0 && k.subframe == 0
    ensures RunRu(c, k, tss, spt) == Exited
  {
    AfterNegative(c.timestampRx, spt);
    FirstExitExits(c, k, tss, spt);
  }

  /**
   A resynch followed by any run, exactly: the program goes on if and only if the command is a frame number,
   the uncorrected drift is whole frame cycles (one frame less when the call rolls over to subframe 0) and
   the new time is not before zero; and then it is in sync again, on the commanded frame.
   */
  lemma ResynchRunIff(c: Clock, k: Counters, m: nat, phase: nat, ts: int, tss: seq<int>, spt: nat)
    requires ValidSpt(spt) && InSync(c, k, m, phase, spt) && c.cmd.RU_FRAME_RESYNCH? && tss != []
    ensures var r := RxRf(c, Advance(k), ts, spt);
            var target := ResynchTarget(c, m, phase, ts, spt);
            && (!r.exited && RunRu(r.clock, r.counters, tss, spt).Running? <==>
                  && c.cmd.value < 1024 && target >= 0
                  && WholeCycles(DriftSubframes(c, phase, ts, spt), m))
            && (!r.exited && target >= 0 ==>
                  && r.counters.frame == r.clock.frameRx == c.cmd.value
                  && InSync(r.clock, r.counters, target, ResynchRest(c, phase, ts, spt), spt))
  {
    var r := RxRf(c, Advance(k), ts, spt);
    ResynchCall(c, k, m, phase, ts, spt);
    if !r.exited {
      if ResynchTarget(c, m, phase, ts, spt) >= 0 {
        ForwardResynch(c, k, m, phase, ts, spt);
        RunStaysInSync(r.clock, r.counters, ResynchTarget(c, m, phase, ts, spt),
                       ResynchRest(c, phase, ts, spt), tss, spt);
      } else {
        BackwardResynch(c, k, m, phase, ts, spt);
        NegativeExits(r.clock, r.counters, tss, spt);
      }
    }
  }

  /** Whole frame cycles do not change what a subframe index decodes to. */
  lemma CycleDecodes(x: int, cycles: int)
    ensures (x + 10240 * cycles) / 10 % 1024 == x / 10 % 1024
    ensures (x + 10240 * cycles) % 10 == x % 10
  {
    assert (x + 10240 * cycles) / 10 == x / 10 + 1024 * cycles;
  }

  /** The case of a drift below one frame cycle, for a previous subframe number `e`. */
  lemma ShortDriftDecodes(v: nat, e: nat, b: nat)
    requires v < 1024 && e < 10 && b < 10240
    ensures var x := 10 * v + e + 1 + b;
            x / 10 % 1024 == v && x % 10 == (e + 1) % 10 <==> b == if e == 9 then 10230 else 0
  {
    var x, frames, carry := 10 * v + e + 1 + b, b / 10, if e == 9 then 1 else 0;
    if b % 10 == 0 {
      assert x == 10 * (v + frames + carry) + (e + 1) % 10;
      assert x / 10 == v + frames + carry;
      assert frames + carry <= 1024;
    } else {
      assert x % 10 != (e + 1) % 10;
    }
  }

  /** When the decoded target agrees with the commanded frame and the counted subframe. */
  lemma TargetDecodes(m: nat, v: nat, q: int)
    requires v < 1024
    ensures var target := m + 1 + 10 * (v - m / 10 % 1024) + q;
            target / 10 % 1024 == v && target % 10 == (m + 1) % 10
            <==> q % 10240 == if m % 10 == 9 then 10230 else 0
  {
    var e, b := m % 10, q % 10240;
    var x := 10 * v + e + 1 + b;
    var target := m + 1 + 10 * (v - m / 10 % 1024) + q;
    assert target == x + 10240 * (m / 10 / 1024 + q / 10240);
    CycleDecodes(x, m / 10 / 1024 + q / 10240);
    ShortDriftDecodes(v, e, b);
    assert (m + 1) % 10 == (e + 1) % 10;
  }

  /**
   A resynch without drift survives exactly when the previous subframe was not 9 and the command is a frame
   number; the timestamp stays non-negative, the subframe is kept and the rest of the run stays in sync.
   */
  lemma ResynchWithoutDrift(c: Clock, k: Counters, m: nat, phase: nat, ts: int, tss: seq<int>, spt: nat)
    requires ValidSpt(spt) && InSync(c, k, m, phase, spt) && c.cmd.RU_FRAME_RESYNCH?
    requires Drift(c, ts, spt) == 0
    ensures var r := RxRf(c, Advance(k), ts, spt);
            && (!r.exited <==> m % 10 != 9 && c.cmd.value < 1024)
            && r.clock.timestampRx >= 0
            && (!r.exited ==>
                  && r.counters == Counters(c.cmd.value, (m + 1) % 10)
                  && RunRu(r.clock, r.counters, tss, spt).Running?)
  {
    DivUnique(phase, spt, 0, phase);
    ResynchCall(c, k, m, phase, ts, spt);
    NonNegative(m, c.cmd.value, spt);
    AdvanceCounts(m);
    var r := RxRf(c, Advance(k), ts, spt);
    if c.cmd.value < 1024 {
      ResynchTimestamp(c, k, m, phase, ts, spt);
    } else {
      TimesNonNegative(m, spt);
    }
    if !r.exited {
      ForwardResynch(c, k, m, phase, ts, spt);
      RunStaysInSync(r.clock, r.counters, ResynchTarget(c, m, phase, ts, spt), phase, tss, spt);
    }
  }

  lemma NonNegative(m: nat, v: nat, spt: nat)
    ensures m + 1 + 10 * (v - m / 10 % 1024) >= 0
    ensures (m + 1 + 10 * (v - m / 10 % 1024)) * spt >= 0
  {
    var f := m / 10 % 1024;
    assert 10 * f <= m;
    TimesNonNegative(m + 1 + 10 * (v - f), spt);
  }

  /** `RU_t` and its `RU_proc_t`, updated in place. */
  class RadioUnit {
    const spt: nat
    var tsOffset: int
    var timestampRx: int
    var frameRx: int
    var ttiRx: int
    var firstRx: bool
    var cmd: Command

    /** `init_RU_proc` on a zeroed structure. */
    constructor (spt: nat)
      requires ValidSpt(spt)
      ensures this.spt == spt && View() == Clock(0, 0, 0, 0, true, EMPTY)
    {
      this.spt := spt;
      tsOffset, timestampRx, frameRx, ttiRx, firstRx, cmd := 0, 0, 0, 0, true, EMPTY;
    }

    function View(): Clock
      reads this
    {
      Clock(tsOffset, timestampRx, frameRx, ttiRx, firstRx, cmd)
    }

    /** `rx_rf`, statement by statement. */
    method Receive(frame: int, subframe: int, ts: int) returns (frame': int, subframe': int, exited: bool)
      requires ValidSpt(spt)
      modifies this
      ensures Reading(View(), Counters(frame', subframe'), exited)
              == RxRf(old(View()), Counters(frame, subframe), ts, spt)
    {
      var oldTs, resynch := timestampRx, false;
      frame', subframe', exited := frame, subframe, false;
      if cmd.RU_FRAME_RESYNCH? {
        if frameRx > cmd.value {
          tsOffset := tsOffset + (frameRx - cmd.value) * spt * 10 % U32;
        } else {
          tsOffset := tsOffset - (-frameRx + cmd.value) * spt * 10 % U32;
        }
        frame', cmd, resynch := cmd.value, EMPTY, true;
      }
      timestampRx := ts - tsOffset;
      if firstRx {
        tsOffset, timestampRx := timestampRx, 0;
      } else if !resynch && timestampRx - oldTs != spt {
        tsOffset := tsOffset + (timestampRx - oldTs - spt);
        timestampRx := ts - tsOffset;
      }
      frameRx := FrameOf(timestampRx, spt);
      ttiRx := SubframeOf(timestampRx, spt);
      if !firstRx {
        exited := ttiRx != subframe' || frameRx != frame';
      } else {
        firstRx, frame', subframe' := false, frameRx, ttiRx;
      }
    }

    /**
     The subframe loop of `ru_thread` from its start, for any device timestamps and no resynch command: the
     n-th call, counted from 0, yields timestamp `n * samples_per_tti`, the frame and subframe that the
     thread counts itself and the offset to the device time, and the exits are never taken.
     */
    method SteadyState(tss: seq<int>) returns (times: seq<(int, int, int, int)>, exited: bool)
      requires ValidSpt(spt) && firstRx && cmd == EMPTY
      modifies this
      ensures !exited && |times| == |tss|
      ensures forall n :: 0 <= n < |times| ==>
                            times[n] == (n * spt, n / 10 % 1024, n % 10,
                                         tss[n] - n * spt - if n == 0 then old(tsOffset) else 0)
    {
      var frame, subframe := 1023, 9;
      times, exited := [], false;
      for n := 0 to |tss|
        invariant !exited && |times| == n && cmd == EMPTY
        invariant forall i :: 0 <= i < n ==>
                                times[i] == (i * spt, i / 10 % 1024, i % 10,
                                             tss[i] - i * spt - if i == 0 then old(tsOffset) else 0)
        invariant n == 0 ==> firstRx && tsOffset == old(tsOffset)
        invariant n > 0 ==> InSync(View(), Counters(frame, subframe), n - 1, 0, spt)
      {
        ghost var clock, counters := View(), Counters(frame, subframe);
        if subframe == 9 {
          frame, subframe := (frame + 1) % 1024, 0;
        } else {
          subframe := subframe + 1;
        }
        assert Counters(frame, subframe) == Advance(counters);
        if n == 0 {
          FirstCall(clock, Advance(counters), tss[n], spt);
        } else {
          NormalCall(clock, counters, n - 1, 0, tss[n], spt);
        }
        OffsetIsDeviceTime(clock, Counters(frame, subframe), tss[n], spt);
        frame, subframe, exited := Receive(frame, subframe, tss[n]);
        times := times + [(timestampRx, frameRx, ttiRx, tsOffset)];
      }
    }
  }
}
