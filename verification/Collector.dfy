/**
 The IF4p5 uplink collector `fh_if4p5_south_in`: ten symbol masks, one per subframe, filled by a packet
 stream in any order, while the caller waits for one subframe.
 */
module Collector {
  import opened Bitmask
  import opened LteTime

  datatype Kind = PULFFT | PULTICK | PRACH

  /** A packet as `recv_IF4p5` delivers it; `stop` says that STOP_RU or the exit flag was seen with it. */
  datatype Packet = Packet(kind: Kind, frame: nat, subframe: nat, symbol: nat, stop: bool)

  /** `symbolsPerTti` is 12 or 14; `types` is what `subframe_select` answers. */
  datatype Config = Config(tdd: bool, types: seq<SubframeType>, symbolsPerTti: nat, ulSymbolsInS: nat,
                           samplesPerTti: nat, singleThread: bool, sfAhead: nat)

  /** What the packet header can carry: four bits of subframe and four of symbol number. */
  predicate ValidPacket(p: Packet) {
    p.subframe < 16 && p.symbol < 16
  }

  /** The packet concerns one of the ten masks, or none. */
  predicate InBounds(p: Packet) {
    p.subframe < 10 || p.kind == PRACH
  }

  predicate ValidConfig(c: Config) {
    |c.types| == 10 && c.symbolsPerTti <= 14 && c.ulSymbolsInS <= 14
  }

  datatype Command = EMPTY | WAIT_RESYNCH | OTHER

  /**
   How a call ends: the packets ran out while it waits, it was stopped, or the subframe is complete; or a
   packet made it index a mask that does not exist, after which nothing is promised.
   */
  datatype Outcome = Blocked | Stopped | Collected | AlreadyCollected | OutOfBounds

  const TICK: nat := 0xffff

  /** How many symbols the awaited subframe must have. */
  function Expected(c: Config, subframe: nat): nat
    requires ValidConfig(c) && subframe < 10
  {
    if c.tdd && c.types[subframe] == S then c.ulSymbolsInS else c.symbolsPerTti
  }

  /** One packet's effect on the masks. */
  function Absorb(masks: seq<nat>, p: Packet): seq<nat>
    requires |masks| == 10 && ValidPacket(p)
  {
    if p.subframe >= 10 then masks
    else
      match p.kind
      case PULFFT => masks[p.subframe := Or(masks[p.subframe], Bit(p.symbol))]
      case PULTICK => masks[p.subframe := TICK]
      case PRACH => masks
  }

  ghost predicate ValidPackets(ps: seq<Packet>) {
    forall i :: 0 <= i < |ps| ==> ValidPacket(ps[i])
  }

  function AbsorbAll(masks: seq<nat>, ps: seq<Packet>): (r: seq<nat>)
    requires |masks| == 10 && ValidPackets(ps)
    ensures |r| == 10
  {
    if ps == [] then masks else Absorb(AbsorbAll(masks, ps[..|ps| - 1]), ps[|ps| - 1])
  }

  lemma {:induction false} AbsorbOneMore(masks: seq<nat>, ps: seq<Packet>, k: nat)
    requires |masks| == 10 && ValidPackets(ps) && k < |ps|
    ensures AbsorbAll(masks, ps[..k + 1]) == Absorb(AbsorbAll(masks, ps[..k]), ps[k])
  {
    assert ps[..k + 1][..k] == ps[..k];
  }

  lemma OneMoreEach(was: seq<seq<Packet>>, ps: seq<Packet>, k: nat)
    requires k < |ps|
    ensures forall sf :: 0 <= sf < |was| ==> was[sf] + ps[..k + 1] == was[sf] + ps[..k] + [ps[k]]
  {
    assert ps[..k + 1] == ps[..k] + [ps[k]];
  }

  /** The symbols received for a subframe. */
  function Symbols(ps: seq<Packet>, subframe: nat): set<nat> {
    set i | 0 <= i < |ps| && ps[i].kind == PULFFT && ps[i].subframe == subframe :: ps[i].symbol
  }

  /** A tick was received for a subframe. */
  predicate Ticked(ps: seq<Packet>, subframe: nat) {
    exists i :: 0 <= i < |ps| && ps[i].kind == PULTICK && ps[i].subframe == subframe
  }

  lemma {:induction false} HasTick(i: nat)
    ensures Has(TICK, i) == (i < 16)
  {
    assert TICK == Full(16) by {
      assert Full(4) == 15;
      assert Full(8) == 255;
      assert Full(12) == 4095;
      assert Full(16) == 0xffff;
    }
    HasFull(16, i);
  }

  /** The mask holds the bits of the symbols received so far, and all sixteen once a tick came. */
  ghost predicate Describes(mask: nat, ps: seq<Packet>, subframe: nat) {
    forall i: nat :: Has(mask, i) <==> i in Symbols(ps, subframe) || (Ticked(ps, subframe) && i < 16)
  }

  /** A packet for a subframe adds exactly its own bit, or makes the mask a tick's. */
  lemma AbsorbDescribes(masks: seq<nat>, ps: seq<Packet>, p: Packet, sf: nat)
    requires |masks| == 10 && ValidPackets(ps) && ValidPacket(p) && sf < 10
    requires Describes(masks[sf], ps, sf)
    ensures Describes(Absorb(masks, p)[sf], ps + [p], sf)
  {
    var mask := Absorb(masks, p)[sf];
    SymbolsSnoc(ps, p, sf);
    forall i: nat
      ensures Has(mask, i) <==> i in Symbols(ps + [p], sf) || (Ticked(ps + [p], sf) && i < 16)
    {
      if p.subframe == sf {
        HasOr(masks[sf], Bit(p.symbol), i);
        HasBit(p.symbol, i);
        HasTick(i);
      }
    }
  }

  lemma SymbolsSnoc(ps: seq<Packet>, p: Packet, sf: nat)
    ensures Symbols(ps + [p], sf)
            == Symbols(ps, sf) + (if p.kind == PULFFT && p.subframe == sf then {p.symbol} else {})
    ensures Ticked(ps + [p], sf) == (Ticked(ps, sf) || (p.kind == PULTICK && p.subframe == sf))
    ensures ValidPackets(ps) ==> forall x :: x in Symbols(ps, sf) ==> x < 16
  {
    var qs := ps + [p];
    forall x | x in Symbols(ps, sf) ensures x in Symbols(qs, sf) {
      var i :| 0 <= i < |ps| && ps[i].kind == PULFFT && ps[i].subframe == sf && ps[i].symbol == x;
      assert qs[i] == ps[i];
    }
    if p.kind == PULFFT && p.subframe == sf {
      assert qs[|ps|] == p;
    }
    if Ticked(ps, sf) {
      var i :| 0 <= i < |ps| && ps[i].kind == PULTICK && ps[i].subframe == sf;
      assert qs[i] == ps[i];
    }
    if p.kind == PULTICK && p.subframe == sf {
      assert qs[|ps|] == p;
    }
  }

  /**
   What the numeric test on a mask means for the packets: a tick came, or every expected symbol came, or a
   symbol beyond the expected ones came.
   */
  lemma CompleteMeans(mask: nat, ps: seq<Packet>, sf: nat, n: nat)
    requires Describes(mask, ps, sf) && n <= 15
    ensures mask >= Full(n) <==>
            Ticked(ps, sf) || (forall i: nat :: i < n ==> i in Symbols(ps, sf))
            || (exists i: nat :: n <= i && i in Symbols(ps, sf))
  {
    AtLeastFull(mask, n);
    if Ticked(ps, sf) {
      assert Has(mask, 15);
    }
  }

  /** The packets of one subframe's symbols below `n`, as a sender that numbers its symbols `0 .. n` sends them. */
  ghost predicate InRange(ps: seq<Packet>, sf: nat, n: nat) {
    forall i :: i in Symbols(ps, sf) ==> i < n
  }

  /** With symbols in range the numeric test is completeness: every symbol or a tick has arrived. */
  lemma CompleteInRange(mask: nat, ps: seq<Packet>, sf: nat, n: nat)
    requires Describes(mask, ps, sf) && n <= 15 && InRange(ps, sf, n)
    ensures mask >= Full(n) <==> Ticked(ps, sf) || (forall i: nat :: i < n ==> i in Symbols(ps, sf))
  {
    CompleteMeans(mask, ps, sf, n);
  }

  /** Without that, one symbol beyond the expected ones passes the test although none of them has arrived. */
  lemma OutOfRangeSymbolCompletes(masks: seq<nat>, p: Packet, n: nat)
    requires |masks| == 10 && ValidPacket(p) && p.subframe < 10
    requires p.kind == PULFFT && masks[p.subframe] == 0 && n <= p.symbol
    ensures Absorb(masks, p)[p.subframe] >= Full(n) && forall i :: 0 <= i < n ==> i !in Symbols([p], p.subframe)
  {
    HasBit(p.symbol, p.symbol);
    HigherBit(Bit(p.symbol), n, p.symbol);
  }

  /** The 32-bit product of a time within one frame cycle does not wrap. */
  lemma TimeFits(f: nat, sf: nat, spt: nat)
    requires ValidSpt(spt) && f < 1024 && sf < 10
    ensures (f * 10 + sf) * spt % U32 == (f * 10 + sf) * spt
  {
    assert 0 <= (f * 10 + sf) * spt <= 10239 * spt;
  }

  /** The timestamp set for a received frame and subframe number decodes to them. */
  lemma TimeDecodes(f: nat, sf: nat, spt: nat)
    requires ValidSpt(spt) && f < 1024 && sf < 10
    ensures var ts := (f * 10 + sf) * spt % U32; FrameOf(ts, spt) == f && SubframeOf(ts, spt) == sf
  {
    var m := f * 10 + sf;
    assert m / 10 % 1024 == f && m % 10 == sf;
    TimeFits(f, sf, spt);
    DecodeAt(m, 0, spt);
  }

  /** The transmit frame and subframe of single-thread mode are those of the timestamp `ahead` subframes later. */
  lemma SingleThreadTime(f: nat, sf: nat, ts: nat, ahead: nat, spt: nat)
    requires ValidSpt(spt) && f < 1024 && sf < 10 && ahead <= 10 && ts == (f * 10 + sf) * spt % U32
    ensures Consistent(Job(FrameTx(f, sf, ahead), SubframeTx(sf, ahead), TimestampTx(ts, ahead, spt)), spt)
  {
    TimeDecodes(f, sf, spt);
    AheadConsistent(ts, ahead, spt);
  }

  /** Every symbol below `n` of `sf` arrived, or a tick, or a symbol beyond them. */
  ghost predicate Delivered(got: seq<Packet>, sf: nat, n: nat) {
    || Ticked(got, sf)
    || (forall i: nat :: i < n ==> i in Symbols(got, sf))
    || (exists i: nat :: n <= i && i in Symbols(got, sf))
  }

  ghost predicate AllArrived(got: seq<Packet>, sf: nat, n: nat) {
    Ticked(got, sf) || forall i: nat :: i < n ==> i in Symbols(got, sf)
  }

  /** A tick, or the uplink symbols of a special subframe in TDD, and all symbols of any other subframe. */
  ghost predicate SubframeArrived(c: Config, got: seq<Packet>, sf: nat)
    requires ValidConfig(c) && sf < 10
  {
    if c.tdd && c.types[sf] == S then AllArrived(got, sf, c.ulSymbolsInS) else AllArrived(got, sf, c.symbolsPerTti)
  }

  /** No symbol number beyond those. */
  ghost predicate NumbersInRange(c: Config, got: seq<Packet>, sf: nat)
    requires ValidConfig(c) && sf < 10
  {
    if c.tdd && c.types[sf] == S then InRange(got, sf, c.ulSymbolsInS) else InRange(got, sf, c.symbolsPerTti)
  }

  lemma ExpectedArrived(c: Config, got: seq<Packet>, sf: nat)
    requires ValidConfig(c) && sf < 10
    ensures SubframeArrived(c, got, sf) ==> Delivered(got, sf, Expected(c, sf))
    ensures NumbersInRange(c, got, sf) && Delivered(got, sf, Expected(c, sf)) ==> SubframeArrived(c, got, sf)
  {
  }

  /** The part of `RU_proc_t` and `RU_t` that the collector updates. */
  class RuProc {
    const symbolMask: array<nat>
    var firstRx: bool
    var frameRx: int
    var ttiRx: int
    var timestampRx: int
    var frameTx: int
    var ttiTx: int
    var cmd: Command

    /** For each subframe, the packets received since its mask was last cleared. */
    ghost var since: seq<seq<Packet>>

    /** Over every run of calls, each mask describes the packets received since it was last cleared. */
    ghost predicate Valid()
      reads this, symbolMask
    {
      && symbolMask.Length == 10 && |since| == 10
      && forall sf :: 0 <= sf < 10 ==> ValidPackets(since[sf]) && Describes(symbolMask[sf], since[sf], sf)
    }

    /** `init_RU_proc` and `reset_proc`: all masks are zero. */
    constructor ()
      ensures Valid() && fresh(symbolMask) && firstRx
      ensures forall sf :: 0 <= sf < 10 ==> since[sf] == [] && symbolMask[sf] == 0
    {
      symbolMask := new nat[10](_ => 0);
      firstRx, frameRx, ttiRx, timestampRx, frameTx, ttiTx, cmd := true, 0, 0, 0, 0, 0, EMPTY;
      since := seq(10, _ => []);
      new;
      forall i: nat ensures !Has(0, i) { HasZero(i); }
    }

    /** Stores one packet's effect; the other masks keep their values. */
    method Receive(p: Packet)
      requires Valid() && ValidPacket(p) && InBounds(p)
      modifies symbolMask, `since
      ensures Valid()
      ensures symbolMask[..] == Absorb(old(symbolMask[..]), p)
      ensures forall sf :: 0 <= sf < 10 ==> since[sf] == old(since[sf]) + [p]
    {
      ghost var masks := symbolMask[..];
      forall sf | 0 <= sf < 10 ensures Describes(Absorb(masks, p)[sf], since[sf] + [p], sf) {
        AbsorbDescribes(masks, since[sf], p, sf);
      }
      match p.kind {
        case PULFFT => symbolMask[p.subframe] := Or(symbolMask[p.subframe], Bit(p.symbol));
        case PULTICK => symbolMask[p.subframe] := TICK;
        case PRACH =>
      }
      assert symbolMask[..] == Absorb(masks, p);
      ghost var was := since;
      since := seq(10, sf requires 0 <= sf < |was| => was[sf] + [p]);
    }

    /** Clears the mask of a subframe that has been delivered. */
    method Clear(sf: nat)
      requires Valid() && sf < 10
      modifies symbolMask, `since
      ensures Valid()
      ensures symbolMask[..] == old(symbolMask[..])[sf := 0] && since == old(since)[sf := []]
    {
      symbolMask[sf] := 0;
      since := since[sf := []];
      forall i: nat ensures !Has(0, i) { HasZero(i); }
    }

    /** The receive loop: takes packets until the awaited mask passes the numeric test, or a stop. */
    method Await(full: nat, subframe: nat, packets: seq<Packet>) returns (outcome: Outcome, used: nat)
      requires Valid() && ValidPackets(packets) && subframe < 10 && symbolMask[subframe] < full
      modifies symbolMask, `since
      ensures Valid() && used <= |packets| && outcome != AlreadyCollected
      ensures outcome == Blocked ==> used == |packets|
      ensures outcome == Stopped ==> used > 0 && packets[used - 1].stop
      ensures outcome == OutOfBounds ==> used > 0 && !packets[used - 1].stop && !InBounds(packets[used - 1])
      ensures var taken := if outcome == Stopped || outcome == OutOfBounds then used - 1 else used;
              && symbolMask[..] == AbsorbAll(old(symbolMask[..]), packets[..taken])
              && (forall sf :: 0 <= sf < 10 ==> since[sf] == old(since[sf]) + packets[..taken])
              && (forall i :: 0 <= i < taken ==> !packets[i].stop && InBounds(packets[i]))
      ensures outcome == Collected <==> symbolMask[subframe] >= full
      ensures outcome == Collected ==> used > 0 && packets[used - 1].subframe == subframe
    {
      used, outcome := 0, Blocked;
      ghost var masks := symbolMask[..];
      while used < |packets|
        invariant Valid() && used <= |packets|
        invariant symbolMask[..] == AbsorbAll(masks, packets[..used])
        invariant forall sf :: 0 <= sf < 10 ==> since[sf] == old(since[sf]) + packets[..used]
        invariant forall i :: 0 <= i < used ==> !packets[i].stop && InBounds(packets[i])
        invariant symbolMask[subframe] < full
      {
        used := used + 1;
        if packets[used - 1].stop {
          return Stopped, used;
        }
        if !InBounds(packets[used - 1]) {
          return OutOfBounds, used;
        }
        ghost var before := symbolMask[..];
        assert before[subframe] == symbolMask[subframe];
        Receive(packets[used - 1]);
        AbsorbOneMore(masks, packets, used - 1);
        OneMoreEach(old(since), packets, used - 1);
        assert symbolMask[subframe] == symbolMask[..][subframe];
        if symbolMask[subframe] >= full {
          return Collected, used;
        }
      }
    }

    /**
     Takes over the time of the delivered subframe; the caller's frame follows it only when told to.  In
     single-thread mode the transmit frame and subframe are set as well.
     */
    method SetTime(c: Config, frame: int, f: int, sf: nat) returns (frame': int, subframe': nat)
      modifies `ttiRx, `frameRx, `timestampRx, `frameTx, `ttiTx, `firstRx, `cmd
      ensures ttiRx == sf == subframe' && frameRx == f && !firstRx
      ensures timestampRx == (f * 10 + sf) * c.samplesPerTti % U32
      ensures (frameTx, ttiTx) == if c.singleThread
                                  then (FrameTx(f, sf, c.sfAhead), SubframeTx(sf, c.sfAhead))
                                  else (old(frameTx), old(ttiTx))
      ensures frame' == (if old(firstRx) || old(cmd) == WAIT_RESYNCH then f else frame)
      ensures cmd == (if !old(firstRx) && old(cmd) == WAIT_RESYNCH && f != frame then EMPTY else old(cmd))
    {
      ttiRx, frameRx := sf, f;
      timestampRx := (frameRx * 10 + ttiRx) * c.samplesPerTti % U32;
      if c.singleThread {
        ttiTx := (sf + c.sfAhead) % 10;
        frameTx := if sf > 9 - c.sfAhead then (f + 1) % 1024 else f;
      }
      frame', subframe' := frame, sf;
      if !firstRx {
        if cmd == WAIT_RESYNCH && frameRx != frame {
          cmd := EMPTY;
          frame' := frameRx;
        }
      } else {
        firstRx := false;
        frame' := frameRx;
      }
    }

    /**
     One call of `fh_if4p5_south_in` for the awaited `frame` and `subframe`.  A normal return delivers the
     awaited subframe and clears only its mask; the other nine masks gain exactly the packets received for
     them, so nothing that arrived early is lost.
     */
    method SouthIn(c: Config, frame: int, subframe: nat, packets: seq<Packet>)
      returns (outcome: Outcome, used: nat, frame': int, subframe': nat)
      requires Valid() && ValidConfig(c) && subframe < 10 && ValidPackets(packets)
      modifies this, symbolMask
      ensures Valid() && used <= |packets|
      ensures outcome == Blocked ==>
                && used == |packets| && frame' == frame && subframe' == subframe
                && symbolMask[..] == AbsorbAll(old(symbolMask[..]), packets)
                && !SubframeArrived(c, old(since[subframe]) + packets, subframe)
      ensures outcome == Stopped ==>
                && used > 0 && packets[used - 1].stop && subframe' == ttiRx == packets[used - 1].subframe
                && packets[used - 1].subframe < 10
                && symbolMask[..]
                   == AbsorbAll(old(symbolMask[..]), packets[..used - 1])[packets[used - 1].subframe := 0]
      ensures outcome == OutOfBounds ==>
                && used > 0 && packets[used - 1].subframe >= 10
                && symbolMask[..] == AbsorbAll(old(symbolMask[..]), packets[..used - 1])
      ensures outcome == AlreadyCollected <==> old(symbolMask[subframe]) >= Full(Expected(c, subframe))
      ensures outcome == AlreadyCollected ==> used == 0 && frameRx == frame
      ensures outcome == Collected ==>
                used > 0 && packets[used - 1].subframe == subframe && frameRx == packets[used - 1].frame
      ensures outcome == Collected || outcome == AlreadyCollected ==>
                var got := old(since[subframe]) + packets[..used];
                NumbersInRange(c, got, subframe) ==> SubframeArrived(c, got, subframe)
      ensures outcome == Collected || outcome == AlreadyCollected ==>
                && Delivered(old(since[subframe]) + packets[..used], subframe, Expected(c, subframe))
                && symbolMask[..] == AbsorbAll(old(symbolMask[..]), packets[..used])[subframe := 0]
                && since[subframe] == []
                && (forall sf :: 0 <= sf < 10 && sf != subframe ==> since[sf] == old(since[sf]) + packets[..used])
                && ttiRx == subframe == subframe'
                && timestampRx == (frameRx * 10 + ttiRx) * c.samplesPerTti % U32
                && !firstRx
                && frame' == (if old(firstRx) || old(cmd) == WAIT_RESYNCH then frameRx else frame)
                && cmd == (if !old(firstRx) && old(cmd) == WAIT_RESYNCH && frameRx != frame then EMPTY else old(cmd))
    {
      var full := Full(Expected(c, subframe));
      ghost var masks, was := symbolMask[..], since;
      var f, sf := frame, subframe;
      frame', subframe', used, outcome := frame, subframe, 0, AlreadyCollected;
      if symbolMask[subframe] < full {
        outcome, used := Await(full, subframe, packets);
        if outcome == Blocked {
          assert packets[..used] == packets;
          CompleteMeans(symbolMask[subframe], since[subframe], subframe, Expected(c, subframe));
          ExpectedArrived(c, since[subframe], subframe);
          return;
        }
        if outcome == OutOfBounds || packets[used - 1].subframe >= 10 {
          outcome := OutOfBounds;
          return;
        }
        f, sf := packets[used - 1].frame, packets[used - 1].subframe;
      } else {
        assert packets[..0] == [];
        assert was[subframe] + [] == was[subframe];
      }
      CompleteMeans(symbolMask[subframe], since[subframe], subframe, Expected(c, subframe));
      ExpectedArrived(c, since[subframe], subframe);
      frame', subframe' := SetTime(c, frame, f, sf);
      Clear(sf);
    }
  }
}
