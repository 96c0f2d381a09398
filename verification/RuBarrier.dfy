/**
 The barrier that `wakeup_L1s` keeps on `RU_mask`: for each subframe slot one bit per radio unit, and the
 L1 is woken when all bits of a slot are set.
 */
module RuBarrier {
  import opened Bitmask

  datatype RuState = RU_RUN | RU_CHECK_SYNC | RU_SYNC

  /** The fields of a radio unit that the barrier looks at. */
  datatype RuInfo = RuInfo(state: RuState, isSlave: bool, waitCnt: int)

  /** A waiting count that has reached one is dropped to zero outside subframe 9. */
  function Settle(r: RuInfo, tti: nat): RuInfo {
    if r.waitCnt == 1 && tti != 9 then r.(waitCnt := 0) else r
  }

  function SettleAll(rus: seq<RuInfo>, tti: nat): seq<RuInfo> {
    seq(|rus|, i requires 0 <= i < |rus| => Settle(rus[i], tti))
  }

  /** Whether the loop of `wakeup_L1s`, called by radio unit `caller`, sets the bit of radio unit `i`. */
  predicate SetsBit(r: RuInfo, caller: nat, i: nat) {
    if caller == i && r.waitCnt == 0 then true
    else r.state == RU_SYNC || (r.isSlave && r.waitCnt > 0 && caller != i)
  }

  /** The radio units whose bit a call by `caller` sets. */
  function Setters(rus: seq<RuInfo>, caller: nat): set<nat> {
    set i | 0 <= i < |rus| && SetsBit(rus[i], caller, i)
  }

  /** All `n` radio units are in the set. */
  predicate Complete(reported: set<nat>, n: nat) {
    forall i :: 0 <= i < n ==> i in reported
  }

  /** The radio units whose bit is set in a mask. */
  function Bits(m: nat, n: nat): set<nat> {
    set i: nat | i < n && Has(m, i)
  }

  lemma BitsFull(m: nat, n: nat)
    requires m <= Full(n)
    ensures m == Full(n) <==> Complete(Bits(m, n), n)
  {
    AtLeastFull(m, n);
    if m == Full(n) {
      forall i | 0 <= i < n ensures i in Bits(m, n) { HasFull(n, i); }
    } else if Complete(Bits(m, n), n) {
      forall i: nat | i < n ensures Has(m, i) { assert i in Bits(m, n); }
    }
  }

  lemma BitsOr(m: nat, n: nat, i: nat)
    requires m <= Full(n) && i < n
    ensures Or(m, Bit(i)) <= Full(n) && Bits(Or(m, Bit(i)), n) == Bits(m, n) + {i}
  {
    var r := Or(m, Bit(i));
    forall j: nat ensures Has(r, j) == (Has(m, j) || j == i) {
      HasOr(m, Bit(i), j);
      HasBit(i, j);
    }
    if r > Full(n) {
      var j := AboveFull(r, n);
      HigherBit(m, n, j);
    }
  }

  /** `L1_proc_t.RU_mask` and the radio units of one eNB. */
  class EnbProc {
    const ruMask: array<nat>
    var rus: seq<RuInfo>

    /** No stored mask is ever full, and none has a bit beyond the radio units. */
    ghost predicate Valid()
      reads this, ruMask
    {
      ruMask.Length == 10 && rus != [] && forall t :: 0 <= t < 10 ==> ruMask[t] < Full(|rus|)
    }

    /** `init_eNB_proc`: the masks start at zero. */
    constructor (rus: seq<RuInfo>)
      requires rus != []
      ensures Valid() && fresh(ruMask) && this.rus == rus
      ensures forall t :: 0 <= t < 10 ==> ruMask[t] == 0
    {
      this.ruMask := new nat[10](_ => 0);
      this.rus := rus;
    }

    /** One iteration of the loop over the radio units. */
    method Visit(i: nat, caller: nat, tti: nat)
      requires ruMask.Length == 10 && tti < 10 && i < |rus| && ruMask[tti] <= Full(|rus|)
      modifies `rus, ruMask
      ensures rus == old(rus)[i := Settle(old(rus[i]), tti)]
      ensures ruMask[tti] <= Full(|rus|)
      ensures Bits(ruMask[tti], |rus|)
              == old(Bits(ruMask[tti], |rus|)) + if SetsBit(rus[i], caller, i) then {i} else {}
      ensures forall t :: 0 <= t < 10 && t != tti ==> ruMask[t] == old(ruMask[t])
    {
      if rus[i].waitCnt == 1 && tti != 9 {
        rus := rus[i := rus[i].(waitCnt := 0)];
      }
      BitsOr(ruMask[tti], |rus|, i);
      if i == caller && rus[i].waitCnt == 0 {
        ruMask[tti] := Or(ruMask[tti], Bit(i));
      } else if rus[i].state == RU_SYNC || (rus[i].isSlave && rus[i].waitCnt > 0 && caller != i) {
        ruMask[tti] := Or(ruMask[tti], Bit(i));
      }
    }

    /**
     `wakeup_L1s` under `mutex_RU`: `fired` says that the mask became full and was reset, `woken` that the
     L1 was then woken.  The other slots are untouched.
     */
    method WakeupL1s(caller: nat, tti: nat) returns (fired: bool, woken: bool)
      requires Valid() && caller < |rus| && tti < 10
      modifies `rus, ruMask
      ensures Valid() && rus == SettleAll(old(rus), tti)
      ensures |rus| == old(|rus|) && forall i :: 0 <= i < |rus| ==>
                && rus[i].state == old(rus)[i].state && rus[i].isSlave == old(rus)[i].isSlave
                && rus[i].waitCnt == if old(rus)[i].waitCnt == 1 && tti != 9 then 0 else old(rus)[i].waitCnt
      ensures var reported := old(Bits(ruMask[tti], |rus|)) + Setters(rus, caller);
              && (fired <==> Complete(reported, |rus|))
              && Bits(ruMask[tti], |rus|) == (if fired then {} else reported)
      ensures woken == (fired && rus[caller].waitCnt == 0)
      ensures forall t :: 0 <= t < 10 && t != tti ==> ruMask[t] == old(ruMask[t])
    {
      ghost var was, bits := rus, Bits(ruMask[tti], |rus|);
      ghost var settled := SettleAll(rus, tti);
      for i := 0 to |rus|
        invariant |rus| == |was| && ruMask[tti] <= Full(|rus|)
        invariant forall k :: 0 <= k < |was| ==> rus[k] == if k < i then settled[k] else was[k]
        invariant Bits(ruMask[tti], |rus|) == bits + Setters(settled[..i], caller)
        invariant forall t :: 0 <= t < 10 && t != tti ==> ruMask[t] == old(ruMask[t])
      {
        Visit(i, caller, tti);
        SettersSnoc(settled, caller, i);
      }
      assert settled[..|rus|] == settled == rus;
      fired := Fire(tti);
      woken := fired && rus[caller].waitCnt == 0;
    }

    /**
     Any sequence of calls on one slot.  Between calls other threads may change the radio units in any way:
     each call brings what it finds.  Mask, firings and wake-ups follow the trace functions below.
     */
    method RunSlot(calls: seq<Call>, tti: nat) returns (firings: nat, wakeups: nat)
      requires Valid() && ValidCalls(|rus|, calls) && tti < 10 && ruMask[tti] == 0
      modifies `rus, ruMask
      ensures Valid() && |rus| == old(|rus|)
      ensures Bits(ruMask[tti], |rus|) == Reported(|rus|, Settled(calls, tti))
      ensures firings == Firings(|rus|, Settled(calls, tti)) && wakeups == Wakeups(|rus|, Settled(calls, tti))
      ensures forall t :: 0 <= t < 10 && t != tti ==> ruMask[t] == old(ruMask[t])
    {
      firings, wakeups := 0, 0;
      forall i: nat ensures !Has(0, i) { HasZero(i); }
      ghost var n, done := |rus|, Settled(calls, tti);
      assert done[..0] == [];
      for k := 0 to |calls|
        invariant Valid() && |rus| == n
        invariant Bits(ruMask[tti], n) == Reported(n, done[..k])
        invariant firings == Firings(n, done[..k]) && wakeups == Wakeups(n, done[..k])
        invariant forall t :: 0 <= t < 10 && t != tti ==> ruMask[t] == old(ruMask[t])
      {
        rus := calls[k].rus;
        var fired, woken := WakeupL1s(calls[k].caller, tti);
        assert done[k] == Call(calls[k].caller, rus);
        assert done[..k + 1][..k] == done[..k];
        firings := firings + if fired then 1 else 0;
        wakeups := wakeups + if woken then 1 else 0;
      }
      assert done[..|calls|] == done;
    }

    /** Resets a full mask, which is the decision to go on. */
    method Fire(tti: nat) returns (fired: bool)
      requires ruMask.Length == 10 && tti < 10 && rus != [] && ruMask[tti] <= Full(|rus|)
      modifies ruMask
      ensures fired <==> Complete(old(Bits(ruMask[tti], |rus|)), |rus|)
      ensures ruMask[tti] < Full(|rus|)
      ensures Bits(ruMask[tti], |rus|) == if fired then {} else old(Bits(ruMask[tti], |rus|))
      ensures forall t :: 0 <= t < 10 && t != tti ==> ruMask[t] == old(ruMask[t])
    {
      BitsFull(ruMask[tti], |rus|);
      fired := ruMask[tti] == Full(|rus|);
      if fired {
        ruMask[tti] := 0;
        forall i: nat ensures !Has(0, i) { HasZero(i); }
      }
    }
  }

  lemma SettersSnoc(rus: seq<RuInfo>, caller: nat, i: nat)
    requires i < |rus|
    ensures Setters(rus[..i + 1], caller)
            == Setters(rus[..i], caller) + if SetsBit(rus[i], caller, i) then {i} else {}
  {
  }

  // ----- what any sequence of calls does -----

  /** One call of `wakeup_L1s` and the radio units as it sees them. */
  datatype Call = Call(caller: nat, rus: seq<RuInfo>)

  ghost predicate ValidCalls(n: nat, calls: seq<Call>) {
    forall k :: 0 <= k < |calls| ==> calls[k].caller < n && |calls[k].rus| == n
  }

  /** The calls with the waiting counts settled, as the loop over the radio units leaves them. */
  function Settled(calls: seq<Call>, tti: nat): seq<Call> {
    seq(|calls|, k requires 0 <= k < |calls| => Call(calls[k].caller, SettleAll(calls[k].rus, tti)))
  }

  function Last(calls: seq<Call>): Call
    requires calls != []
  {
    calls[|calls| - 1]
  }

  function Before(calls: seq<Call>): seq<Call>
    requires calls != []
  {
    calls[..|calls| - 1]
  }

  /** The radio units whose bit is set after the calls, starting from an empty mask. */
  function Reported(n: nat, calls: seq<Call>): set<nat>
    decreases |calls|
  {
    if calls == [] then {}
    else
      var reached := Reported(n, Before(calls)) + Setters(Last(calls).rus, Last(calls).caller);
      if Complete(reached, n) then {} else reached
  }

  /** The bits set just before the last call decides. */
  function Reached(n: nat, calls: seq<Call>): set<nat>
    requires calls != []
  {
    Reported(n, Before(calls)) + Setters(Last(calls).rus, Last(calls).caller)
  }

  /** The last call fires the barrier. */
  predicate LastFires(n: nat, calls: seq<Call>)
    requires calls != []
  {
    Complete(Reached(n, calls), n)
  }

  function Firings(n: nat, calls: seq<Call>): nat
    decreases |calls|
  {
    if calls == [] then 0 else Firings(n, Before(calls)) + if LastFires(n, calls) then 1 else 0
  }

  /** The firings after which the L1 is woken. */
  function Wakeups(n: nat, calls: seq<Call>): nat
    requires ValidCalls(n, calls)
    decreases |calls|
  {
    if calls == [] then 0
    else
      Wakeups(n, Before(calls))
      + if LastFires(n, calls) && Last(calls).rus[Last(calls).caller].waitCnt == 0 then 1 else 0
  }

  /** How often radio unit `r` called. */
  function Reports(calls: seq<Call>, r: nat): nat
    decreases |calls|
  {
    if calls == [] then 0 else Reports(Before(calls), r) + if Last(calls).caller == r then 1 else 0
  }

  /** Takes part in every round: it reports itself and does not have to be excused. */
  predicate Running(r: RuInfo) {
    r.waitCnt == 0 && r.state != RU_SYNC
  }

  /** Its bit is set by the report of any other radio unit. */
  predicate Excused(r: RuInfo) {
    r.state == RU_SYNC || (r.isSlave && r.waitCnt > 0)
  }

  /**
   A waiting slave is excused by the calls of others up to the first call outside subframe 9 that finds its count
   at one; from then on it has to report itself.
   */
  lemma ExcusedUntil(r: RuInfo, tti: nat)
    requires r.isSlave && r.state != RU_SYNC && r.waitCnt >= 0
    ensures Excused(Settle(r, tti)) <==> r.waitCnt > 1 || (r.waitCnt == 1 && tti == 9)
    ensures Running(Settle(r, tti)) <==> r.waitCnt == 0 || (r.waitCnt == 1 && tti != 9)
  {
  }

  /** In no call of another radio unit is `r` excused; the other radio units may do as they like. */
  ghost predicate NeverExcused(n: nat, calls: seq<Call>, r: nat)
    requires ValidCalls(n, calls) && r < n
  {
    forall k :: 0 <= k < |calls| && calls[k].caller != r ==> !Excused(calls[k].rus[r])
  }

  /** The bit of a radio unit that is not excused is set by itself only. */
  lemma OwnBit(n: nat, calls: seq<Call>, r: nat)
    requires ValidCalls(n, calls) && r < n && calls != [] && NeverExcused(n, calls, r)
    ensures r in Reached(n, calls) ==> r in Reported(n, Before(calls)) || Last(calls).caller == r
  {
    var last := Last(calls);
    if last.caller != r {
      assert !Excused(calls[|calls| - 1].rus[r]);
      assert !SetsBit(last.rus[r], last.caller, r);
    }
  }

  /** It has reported in every round that fired, and once more if its bit is set. */
  lemma {:induction false} ReportsBound(n: nat, calls: seq<Call>, r: nat)
    requires ValidCalls(n, calls) && r < n && NeverExcused(n, calls, r)
    ensures Reports(calls, r) >= Firings(n, calls) + if r in Reported(n, calls) then 1 else 0
    decreases |calls|
  {
    if calls == [] {
    } else {
      ReportsBound(n, Before(calls), r);
      OwnBit(n, calls, r);
    }
  }

  /**
   For every sequence of calls on a slot, whatever the radio units do in between: the stored mask is never full,
   and the barrier fires at most as often as any radio unit reported that was never excused.
   */
  lemma BarrierBounds(n: nat, calls: seq<Call>, r: nat)
    requires ValidCalls(n, calls) && r < n && NeverExcused(n, calls, r)
    ensures !Complete(Reported(n, calls), n)
    ensures Firings(n, calls) <= Reports(calls, r)
  {
    ReportsBound(n, calls, r);
    assert calls == [] ==> r !in Reported(n, calls);
    assert calls != [] && LastFires(n, calls) ==> r !in Reported(n, calls);
  }

  /** After a firing the barrier starts afresh. */
  lemma {:induction false} RoundsCompose(n: nat, a: seq<Call>, b: seq<Call>)
    requires Reported(n, a) == {}
    ensures Reported(n, a + b) == Reported(n, b)
    ensures Firings(n, a + b) == Firings(n, a) + Firings(n, b)
    decreases |b|
  {
    if b == [] {
      assert a + b == a;
    } else {
      var all := a + b;
      RoundsCompose(n, a, Before(b));
      assert Before(all) == a + Before(b) && Last(all) == Last(b);
      assert Reached(n, all) == Reached(n, b);
    }
  }

  /** Between two firings such a radio unit reports: with `m` firings after one, at least `m` times. */
  lemma ReportsBetweenFirings(n: nat, a: seq<Call>, b: seq<Call>, r: nat)
    requires ValidCalls(n, b) && r < n && NeverExcused(n, b, r)
    requires a != [] && LastFires(n, a)
    ensures Reports(b, r) >= Firings(n, a + b) - Firings(n, a)
  {
    RoundsCompose(n, a, b);
    ReportsBound(n, b, r);
  }

  /** Radio unit `r` sets its bit whenever it calls, and never twice in a round. */
  ghost predicate OncePerRound(n: nat, calls: seq<Call>, r: nat)
    requires ValidCalls(n, calls) && r < n
  {
    forall k :: 0 <= k < |calls| && calls[k].caller == r ==>
                  Running(calls[k].rus[r]) && r !in Reported(n, calls[..k])
  }

  lemma OncePrefix(n: nat, calls: seq<Call>, r: nat)
    requires ValidCalls(n, calls) && r < n && calls != [] && OncePerRound(n, calls, r)
    ensures OncePerRound(n, Before(calls), r)
    ensures Last(calls).caller == r ==> r in Reached(n, calls) && r !in Reported(n, Before(calls))
  {
    var before := Before(calls);
    forall k | 0 <= k < |before| && before[k].caller == r
      ensures Running(before[k].rus[r]) && r !in Reported(n, before[..k])
    {
      assert calls[k] == before[k] && calls[..k] == before[..k];
    }
    assert calls[..|calls| - 1] == before;
  }

  /** When it does not report twice in a round its reports count the rounds exactly. */
  lemma {:induction false} ReportsExact(n: nat, calls: seq<Call>, r: nat)
    requires ValidCalls(n, calls) && r < n && NeverExcused(n, calls, r) && OncePerRound(n, calls, r)
    ensures Reports(calls, r) == Firings(n, calls) + if r in Reported(n, calls) then 1 else 0
    decreases |calls|
  {
    if calls == [] {
    } else {
      OncePrefix(n, calls, r);
      ReportsExact(n, Before(calls), r);
      OwnBit(n, calls, r);
    }
  }

  // ----- rounds, read off the calls alone -----

  /** The call sets the bit of radio unit `i`: `i` reports, or is excused. */
  predicate Sets(c: Call, i: nat) {
    i < |c.rus| && SetsBit(c.rus[i], c.caller, i)
  }

  predicate SetIn(b: seq<Call>, i: nat) {
    exists k :: 0 <= k < |b| && Sets(b[k], i)
  }

  /** Every radio unit reported or was excused in some call. */
  predicate Covers(n: nat, b: seq<Call>) {
    forall i :: 0 <= i < n ==> SetIn(b, i)
  }

  /** The calls of the round that is still open: a round ends as soon as its calls cover all radio units. */
  function Round(n: nat, calls: seq<Call>): seq<Call>
    decreases |calls|
  {
    if calls == [] then []
    else
      var b := Round(n, Before(calls)) + [Last(calls)];
      if Covers(n, b) then [] else b
  }

  /** The calls of the round to which the last call belongs. */
  function LastRound(n: nat, calls: seq<Call>): seq<Call>
    requires calls != []
  {
    Round(n, Before(calls)) + [Last(calls)]
  }

  function SetBy(n: nat, b: seq<Call>): set<nat> {
    set i | 0 <= i < n && SetIn(b, i)
  }

  lemma SetInSnoc(b: seq<Call>, c: Call, i: nat)
    ensures SetIn(b + [c], i) <==> SetIn(b, i) || Sets(c, i)
  {
    var all := b + [c];
    if SetIn(b, i) {
      var k :| 0 <= k < |b| && Sets(b[k], i);
      assert all[k] == b[k];
    }
    if Sets(c, i) {
      assert all[|b|] == c;
    }
  }

  lemma SetBySnoc(n: nat, b: seq<Call>, c: Call)
    requires |c.rus| == n
    ensures SetBy(n, b + [c]) == SetBy(n, b) + Setters(c.rus, c.caller)
  {
    forall i | 0 <= i < n ensures i in SetBy(n, b + [c]) <==> i in SetBy(n, b) || i in Setters(c.rus, c.caller) {
      SetInSnoc(b, c, i);
    }
  }

  /**
   The mask against the calls: after any run it holds exactly the radio units that reported or were excused in
   the open round, and a call fires if and only if its round then covers all radio units.
   */
  lemma {:induction false} MaskIsRound(n: nat, calls: seq<Call>)
    requires ValidCalls(n, calls)
    ensures Reported(n, calls) == SetBy(n, Round(n, calls))
    ensures calls != [] ==> (LastFires(n, calls) <==> Covers(n, LastRound(n, calls)))
    decreases |calls|
  {
    if calls == [] {
    } else {
      var b := LastRound(n, calls);
      MaskIsRound(n, Before(calls));
      SetBySnoc(n, Round(n, Before(calls)), Last(calls));
      assert Reached(n, calls) == SetBy(n, b);
      CompleteCovers(n, b);
      assert SetBy(n, []) == {};
    }
  }

  lemma CompleteCovers(n: nat, b: seq<Call>)
    ensures Complete(SetBy(n, b), n) <==> Covers(n, b)
  {
    if Complete(SetBy(n, b), n) {
      forall i | 0 <= i < n ensures SetIn(b, i) {
        assert i in SetBy(n, b);
      }
    }
  }

  /** The open round does not cover all radio units. */
  lemma OpenRound(n: nat, calls: seq<Call>)
    requires n > 0
    ensures !Covers(n, Round(n, calls))
  {
    if Round(n, calls) == [] {
      assert !SetIn(Round(n, calls), 0);
    }
  }

  // ----- the barrier fires as often as possible -----

  lemma {:induction false} FiringsGrow(n: nat, a: seq<Call>, b: seq<Call>)
    ensures Firings(n, a + b) >= Firings(n, a)
    decreases |b|
  {
    if b == [] {
      assert a + b == a;
    } else {
      FiringsGrow(n, a, Before(b));
      assert Before(a + b) == a + Before(b);
    }
  }

  /** Without a firing in `b` every bit set in `b` is still set. */
  lemma {:induction false} KeptBits(n: nat, a: seq<Call>, b: seq<Call>, i: nat)
    requires ValidCalls(n, b) && i < n && SetIn(b, i) && Firings(n, a + b) == Firings(n, a)
    ensures i in Reported(n, a + b)
    decreases |b|
  {
    var all, before := a + b, Before(b);
    assert Before(all) == a + before && Last(all) == Last(b);
    FiringsGrow(n, a, before);
    assert !LastFires(n, all);
    if !Sets(Last(b), i) {
      assert before + [Last(b)] == b;
      SetInSnoc(before, Last(b), i);
      KeptBits(n, a, before, i);
    }
  }

  /** Calls that cover all radio units contain a firing, whenever they begin. */
  lemma CoverFires(n: nat, a: seq<Call>, b: seq<Call>)
    requires n > 0 && ValidCalls(n, a) && ValidCalls(n, b) && Covers(n, b)
    ensures Firings(n, a + b) >= Firings(n, a) + 1
  {
    FiringsGrow(n, a, b);
    if Firings(n, a + b) == Firings(n, a) {
      forall i | 0 <= i < n ensures i in Reported(n, a + b) {
        assert SetIn(b, i);
        KeptBits(n, a, b, i);
      }
      NeverFull(n, a + b);
    }
  }

  lemma NeverFull(n: nat, calls: seq<Call>)
    requires n > 0
    ensures !Complete(Reported(n, calls), n)
  {
    if calls == [] || LastFires(n, calls) {
      assert 0 !in Reported(n, calls);
    }
  }

  function Flat(segments: seq<seq<Call>>): seq<Call> {
    if segments == [] then [] else Flat(segments[..|segments| - 1]) + segments[|segments| - 1]
  }

  ghost predicate AllCover(n: nat, segments: seq<seq<Call>>) {
    forall j :: 0 <= j < |segments| ==> Covers(n, segments[j])
  }

  /** However a run is cut into consecutive segments that each cover all radio units, there are no more than firings. */
  lemma {:induction false} FiringsAreMost(n: nat, segments: seq<seq<Call>>, rest: seq<Call>)
    requires n > 0 && AllCover(n, segments) && ValidCalls(n, Flat(segments) + rest)
    ensures Firings(n, Flat(segments) + rest) >= |segments|
    decreases |segments|
  {
    FiringsGrow(n, Flat(segments), rest);
    ValidPrefix(n, Flat(segments), rest);
    if segments == [] {
    } else {
      var before, last := segments[..|segments| - 1], segments[|segments| - 1];
      assert Flat(segments) == Flat(before) + last;
      ValidPrefix(n, Flat(before), last);
      assert Flat(before) + [] == Flat(before);
      FiringsAreMost(n, before, []);
      CoverFires(n, Flat(before), last);
    }
  }

  lemma ValidPrefix(n: nat, a: seq<Call>, b: seq<Call>)
    requires ValidCalls(n, a + b)
    ensures ValidCalls(n, a) && ValidCalls(n, b)
  {
    forall k | 0 <= k < |a| ensures a[k].caller < n && |a[k].rus| == n {
      assert (a + b)[k] == a[k];
    }
    forall k | 0 <= k < |b| ensures b[k].caller < n && |b[k].rus| == n {
      assert (a + b)[|a| + k] == b[k];
    }
  }

  /** And the rounds are such a cut with exactly that many segments. */
  lemma {:induction false} RoundsCut(n: nat, calls: seq<Call>) returns (segments: seq<seq<Call>>)
    requires ValidCalls(n, calls)
    ensures AllCover(n, segments) && |segments| == Firings(n, calls)
    ensures calls == Flat(segments) + Round(n, calls)
    decreases |calls|
  {
    segments := [];
    if calls == [] {
    } else {
      segments := RoundsCut(n, Before(calls));
      MaskIsRound(n, calls);
      var b := LastRound(n, calls);
      Regroup(calls, Flat(segments), Round(n, Before(calls)));
      if Covers(n, b) {
        FlatSnoc(segments, b);
        segments := segments + [b];
        assert Round(n, calls) == [];
      }
    }
  }

  lemma Regroup(calls: seq<Call>, a: seq<Call>, b: seq<Call>)
    requires calls != [] && Before(calls) == a + b
    ensures calls == a + (b + [Last(calls)])
  {
    assert calls == Before(calls) + [Last(calls)];
  }

  lemma {:induction false} FlatSnoc(segments: seq<seq<Call>>, b: seq<Call>)
    ensures Flat(segments + [b]) == Flat(segments) + b
  {
    var more := segments + [b];
    assert more[..|segments|] == segments;
  }

  // ----- how often each radio unit is served -----

  /** The rounds, the open one included, in which radio unit `r` reported or was excused. */
  function Served(n: nat, calls: seq<Call>, r: nat): nat
    decreases |calls|
  {
    if calls == [] then 0
    else
      Served(n, Before(calls), r)
      + if Sets(Last(calls), r) && !SetIn(Round(n, Before(calls)), r) then 1 else 0
  }

  lemma {:induction false} ServedExact(n: nat, calls: seq<Call>, r: nat)
    requires ValidCalls(n, calls) && r < n
    ensures Served(n, calls, r) == Firings(n, calls) + if r in Reported(n, calls) then 1 else 0
    decreases |calls|
  {
    if calls == [] {
    } else {
      var before := Before(calls);
      ServedExact(n, before, r);
      MaskIsRound(n, before);
      assert r in Reported(n, before) <==> SetIn(Round(n, before), r);
      assert r in Setters(Last(calls).rus, Last(calls).caller) <==> Sets(Last(calls), r);
      assert r in Reached(n, calls) <==> r in Reported(n, before) || Sets(Last(calls), r);
    }
  }

  /** For every run, whatever the radio units do: the firings are exactly the smallest number of rounds served. */
  lemma FiringsAreMinimum(n: nat, calls: seq<Call>) returns (slowest: nat)
    requires n > 0 && ValidCalls(n, calls)
    ensures slowest < n && Firings(n, calls) == Served(n, calls, slowest)
    ensures forall r :: 0 <= r < n ==> Served(n, calls, slowest) <= Served(n, calls, r)
  {
    NeverFull(n, calls);
    slowest :| 0 <= slowest < n && slowest !in Reported(n, calls);
    ServedExact(n, calls, slowest);
    forall r | 0 <= r < n ensures Served(n, calls, slowest) <= Served(n, calls, r) {
      ServedExact(n, calls, r);
    }
  }

  /** A radio unit that is never excused and reports once a round is served as often as it reports. */
  lemma ServedByReports(n: nat, calls: seq<Call>, r: nat)
    requires ValidCalls(n, calls) && r < n && NeverExcused(n, calls, r) && OncePerRound(n, calls, r)
    ensures Served(n, calls, r) == Reports(calls, r)
  {
    ServedExact(n, calls, r);
    ReportsExact(n, calls, r);
  }

  // ----- when the L1 is woken -----

  predicate Waits(c: Call)
    requires c.caller < |c.rus|
  {
    c.rus[c.caller].waitCnt != 0
  }

  /** The call of a waiting radio unit excuses `i`. */
  predicate Excuses(c: Call, i: nat) {
    i < |c.rus| && (c.rus[i].state == RU_SYNC || (i != c.caller && c.rus[i].isSlave && c.rus[i].waitCnt > 0))
  }

  /** The last call of the round is made by a radio unit that waits, and excuses all that were missing. */
  predicate WaiterCloses(n: nat, b: seq<Call>)
    requires b != [] && ValidCalls(n, b)
  {
    Waits(Last(b)) && forall i :: 0 <= i < n ==> SetIn(Before(b), i) || Excuses(Last(b), i)
  }

  lemma WaiterClosesIff(n: nat, b: seq<Call>)
    requires b != [] && ValidCalls(n, b)
    ensures WaiterCloses(n, b) <==> Covers(n, b) && Waits(Last(b))
  {
    var before, last := Before(b), Last(b);
    assert before + [last] == b;
    if Waits(last) {
      forall i | 0 <= i < n ensures SetIn(b, i) <==> SetIn(before, i) || Excuses(last, i) {
        SetInSnoc(before, last, i);
      }
    }
  }

  lemma {:induction false} ValidRound(n: nat, calls: seq<Call>)
    requires ValidCalls(n, calls)
    ensures ValidCalls(n, Round(n, calls))
    decreases |calls|
  {
    if calls == [] {
    } else {
      ValidRound(n, Before(calls));
    }
  }

  /** No round of the run is closed by a radio unit that waits. */
  ghost predicate NoWaiterCloses(n: nat, calls: seq<Call>)
    requires ValidCalls(n, calls)
  {
    forall k :: 0 <= k < |calls| ==> !ClosedByWaiter(n, calls, k)
  }

  /** The round that call `k` belongs to is closed by it, and it waits. */
  ghost predicate ClosedByWaiter(n: nat, calls: seq<Call>, k: nat)
    requires ValidCalls(n, calls) && k < |calls|
  {
    ValidRound(n, calls[..k]);
    WaiterCloses(n, Round(n, calls[..k]) + [calls[k]])
  }

  lemma ClosedPrefix(n: nat, calls: seq<Call>)
    requires ValidCalls(n, calls) && calls != []
    ensures NoWaiterCloses(n, calls) <==>
            NoWaiterCloses(n, Before(calls)) && !ClosedByWaiter(n, calls, |calls| - 1)
  {
    var before := Before(calls);
    forall k | 0 <= k < |before| ensures ClosedByWaiter(n, calls, k) <==> ClosedByWaiter(n, before, k) {
      assert before[..k] == calls[..k] && before[k] == calls[k];
    }
  }

  /**
   The L1 is woken at every firing if and only if no round is closed by a radio unit that waits: one whose call
   excuses every radio unit that neither reported nor was excused before in that round.
   */
  lemma {:induction false} WakesIff(n: nat, calls: seq<Call>)
    requires ValidCalls(n, calls)
    ensures Wakeups(n, calls) <= Firings(n, calls)
    ensures Wakeups(n, calls) == Firings(n, calls) <==> NoWaiterCloses(n, calls)
    decreases |calls|
  {
    if calls == [] {
    } else {
      WakesIff(n, Before(calls));
      ClosedPrefix(n, calls);
      ValidRound(n, Before(calls));
      MaskIsRound(n, calls);
      WaiterClosesIff(n, LastRound(n, calls));
      assert calls[..|calls| - 1] == Before(calls);
    }
  }

  // ----- radio units that keep their role within a round -----

  /** In the call every radio unit of `running` runs, every other one is excused, and none that synchronises calls. */
  ghost predicate RolesIn(c: Call, running: set<nat>) {
    && c.caller < |c.rus| && c.rus[c.caller].state != RU_SYNC
    && forall i :: 0 <= i < |c.rus| ==> if i in running then Running(c.rus[i]) else Excused(c.rus[i])
  }

  /** Roles do not change during the calls of `b`, and somebody runs.  Waiting counts may go down. */
  ghost predicate Roles(n: nat, b: seq<Call>, running: set<nat>) {
    && (forall k :: 0 <= k < |b| ==> RolesIn(b[k], running))
    && (exists i :: 0 <= i < n && i in running)
  }

  ghost predicate SameRoles(n: nat, b: seq<Call>) {
    exists running :: Roles(n, b, running)
  }

  /** Each round has its own roles; from one round to the next they may change in any way. */
  ghost predicate RolesPerRound(n: nat, calls: seq<Call>) {
    forall k :: 0 <= k < |calls| ==> SameRoles(n, Round(n, calls[..k]) + [calls[k]])
  }

  /** Within fixed roles a running radio unit is set by its own report only, which excuses all the others. */
  lemma RunnerSets(n: nat, b: seq<Call>, running: set<nat>, r: nat, i: nat)
    requires ValidCalls(n, b) && Roles(n, b, running) && r < n && r in running && i < n
    ensures SetIn(b, r) && i !in running ==> SetIn(b, i)
  {
    if SetIn(b, r) && i !in running {
      var k :| 0 <= k < |b| && Sets(b[k], r);
      assert RolesIn(b[k], running);
      assert Sets(b[k], i);
    }
  }

  lemma RolesNoWaiter(n: nat, b: seq<Call>, running: set<nat>)
    requires b != [] && ValidCalls(n, b) && Roles(n, b, running) && !Covers(n, Before(b))
    ensures !WaiterCloses(n, b)
  {
    var before, last := Before(b), Last(b);
    assert RolesIn(b[|b| - 1], running);
    forall k | 0 <= k < |before| ensures RolesIn(before[k], running) {
      assert before[k] == b[k];
    }
    var i: nat :| i < n && !SetIn(before, i);
    var r: nat :| r < n && r in running;
    RunnerSets(n, before, running, r, i);
    assert !Excuses(last, if SetIn(before, r) then i else r);
  }

  /** With roles fixed in each round every firing wakes the L1. */
  lemma EveryFiringWakes(n: nat, calls: seq<Call>)
    requires n > 0 && ValidCalls(n, calls) && RolesPerRound(n, calls)
    ensures Wakeups(n, calls) == Firings(n, calls)
  {
    forall k | 0 <= k < |calls| ensures !ClosedByWaiter(n, calls, k) {
      var b := Round(n, calls[..k]) + [calls[k]];
      ValidRound(n, calls[..k]);
      OpenRound(n, calls[..k]);
      assert Before(b) == Round(n, calls[..k]);
      var running :| Roles(n, b, running);
      RolesNoWaiter(n, b, running);
    }
    WakesIff(n, calls);
  }

  /**
   Roles that change within a round break that: a master reports, then a slave that had yet to report goes back
   to synchronising, and the report of a slave that waits completes the round without waking the L1.
   */
  lemma FiringWithoutWakeup(master: RuInfo, waiting: RuInfo, running: RuInfo, a: Call, b: Call)
    requires master == RuInfo(RU_RUN, false, 0) && waiting == RuInfo(RU_RUN, true, 50)
    requires running == RuInfo(RU_RUN, true, 0)
    requires a == Call(0, [master, waiting, running])
    requires b == Call(1, [master, waiting, running.(state := RU_SYNC)])
    ensures ValidCalls(3, [a, b]) && Firings(3, [a, b]) == 1 && Wakeups(3, [a, b]) == 0
  {
    var calls, one, none: seq<Call> := [a, b], [a], [];
    assert Before(calls) == one && Before(one) == none;
    assert Setters(a.rus, 0) == {0, 1};
    assert Setters(b.rus, 1) == {2};
    assert 2 !in Reached(3, one);
    assert Reported(3, one) == {0, 1};
    assert Reached(3, calls) == {0, 1, 2};
    assert LastFires(3, calls) && !LastFires(3, one);
    assert Firings(3, one) == Firings(3, none) && Wakeups(3, one) == Wakeups(3, none);
    assert Firings(3, calls) == Firings(3, one) + 1 && Wakeups(3, calls) == Wakeups(3, one);
  }

  // ----- a negative waiting count -----

  /** In every call radio unit `r` has a negative count and does not synchronise. */
  ghost predicate NegativeIn(n: nat, calls: seq<Call>, r: nat)
    requires ValidCalls(n, calls) && r < n
  {
    forall k :: 0 <= k < |calls| ==> calls[k].rus[r].waitCnt < 0 && calls[k].rus[r].state != RU_SYNC
  }

  /** From then on the barrier fires at most once more, and not at all unless that radio unit is already in. */
  lemma {:induction false} NegativeStops(n: nat, a: seq<Call>, b: seq<Call>, r: nat)
    requires ValidCalls(n, b) && r < n && NegativeIn(n, b, r)
    ensures Firings(n, a + b) <= Firings(n, a) + if r in Reported(n, a) then 1 else 0
    ensures Firings(n, a + b) > Firings(n, a) ==> r !in Reported(n, a + b)
    ensures r in Reported(n, a + b) ==> r in Reported(n, a)
    decreases |b|
  {
    if b == [] {
      assert a + b == a;
    } else {
      var all, before := a + b, Before(b);
      NegativeStops(n, a, before, r);
      assert Before(all) == a + before && Last(all) == Last(b);
      assert b[|b| - 1].rus[r].waitCnt < 0;
      assert r !in Setters(Last(b).rus, Last(b).caller);
      assert r in Reached(n, all) <==> r in Reported(n, a + before);
    }
  }
}
