/**
 The start-up barrier between the main thread and the radio-unit threads.

 `RCconfig_RU` sets one bit of `ru_mask` per radio unit; each radio-unit thread clears its bit when it is
 configured; the main thread waits in `wait_RUs` until the mask is zero, finishes the eNBs and releases
 everybody through `sync_var`.  There are two mutexes and two condition variables.
 */
module Startup {
  import opened Transition
  import opened Bitmask

  /** The loop of `RCconfig_RU` over `*ru_mask = (*ru_mask) | (1 << j)`. */
  method ConfigureMask(n: nat) returns (mask: nat)
    ensures mask == Full(n)
  {
    mask := 0;
    forall i: nat ensures !Has(0, i) { HasZero(i); }
    for j := 0 to n
      invariant forall i: nat :: Has(mask, i) <==> i < j
    {
      forall i: nat ensures Has(Or(mask, Bit(j)), i) <==> i <= j {
        HasOr(mask, Bit(j), i);
        HasBit(j, i);
      }
      mask := Or(mask, Bit(j));
    }
    forall i: nat ensures Has(mask, i) == Has(Full(n), i) {
      HasFull(n, i);
    }
    SameBits(mask, Full(n));
  }

  datatype Holder = Nobody | Main | Ru(id: nat)

  datatype RuPc =
    | RConfigure | RLock | RClear | RSignal | RUnlock
    | RSyncLock | RSyncCheck | RSyncSleep | RSyncWoken | RSyncUnlock | RRunning

  datatype MainPc =
    | MLock | MCheck | MSleep | MWoken | MUnlock | MInitEnbs
    | MSyncLock | MSetSync | MBroadcast | MSyncUnlock | MDone

  datatype State = State(mask: nat, ruOwner: Holder, syncOwner: Holder, synced: bool,
                         m: MainPc, rus: seq<RuPc>, spurious: nat)

  datatype Event = RunMain | RunRu(i: nat) | SpuriousMain | SpuriousRu(i: nat)

  /** The threads start with the mask that `ConfigureMask` computed. */
  function Init(n: nat): State {
    State(Full(n), Nobody, Nobody, false, MLock, seq(n, _ => RConfigure), 0)
  }

  function WakeAll(rus: seq<RuPc>): seq<RuPc> {
    seq(|rus|, i requires 0 <= i < |rus| => if rus[i] == RSyncSleep then RSyncWoken else rus[i])
  }

  function MainStep(s: State): Option<State> {
    match s.m
    case MLock => if s.ruOwner == Nobody then Some(s.(ruOwner := Main, m := MCheck)) else None
    case MCheck => if s.mask > 0 then Some(s.(ruOwner := Nobody, m := MSleep)) else Some(s.(m := MUnlock))
    case MSleep => None
    case MWoken => if s.ruOwner == Nobody then Some(s.(ruOwner := Main, m := MCheck)) else None
    case MUnlock => Some(s.(ruOwner := Nobody, m := MInitEnbs))
    case MInitEnbs => Some(s.(m := MSyncLock))
    case MSyncLock => if s.syncOwner == Nobody then Some(s.(syncOwner := Main, m := MSetSync)) else None
    case MSetSync => Some(s.(synced := true, m := MBroadcast))
    case MBroadcast => Some(s.(rus := WakeAll(s.rus), m := MSyncUnlock))
    case MSyncUnlock => Some(s.(syncOwner := Nobody, m := MDone))
    case MDone => None
  }

  function RuGoto(s: State, i: nat, pc: RuPc): State
    requires i < |s.rus|
  {
    s.(rus := s.rus[i := pc])
  }

  function RuStep(s: State, i: nat): Option<State>
    requires i < |s.rus|
  {
    match s.rus[i]
    case RConfigure => Some(RuGoto(s, i, RLock))
    case RLock => if s.ruOwner == Nobody then Some(RuGoto(s, i, RClear).(ruOwner := Ru(i))) else None
    case RClear => Some(RuGoto(s, i, RSignal).(mask := AndNot(s.mask, Bit(i))))
    case RSignal => Some(RuGoto(s, i, RUnlock).(m := if s.m == MSleep then MWoken else s.m))
    case RUnlock => Some(RuGoto(s, i, RSyncLock).(ruOwner := Nobody))
    case RSyncLock => if s.syncOwner == Nobody then Some(RuGoto(s, i, RSyncCheck).(syncOwner := Ru(i))) else None
    case RSyncCheck =>
      if s.synced then Some(RuGoto(s, i, RSyncUnlock)) else Some(RuGoto(s, i, RSyncSleep).(syncOwner := Nobody))
    case RSyncSleep => None
    case RSyncWoken => if s.syncOwner == Nobody then Some(RuGoto(s, i, RSyncCheck).(syncOwner := Ru(i))) else None
    case RSyncUnlock => Some(RuGoto(s, i, RRunning).(syncOwner := Nobody))
    case RRunning => None
  }

  function Step(s: State, e: Event): Option<State> {
    match e
    case RunMain => MainStep(s)
    case RunRu(i) => if i < |s.rus| then RuStep(s, i) else None
    case SpuriousMain => if s.m == MSleep then Some(s.(m := MWoken, spurious := s.spurious + 1)) else None
    case SpuriousRu(i) =>
      if i < |s.rus| && s.rus[i] == RSyncSleep
      then Some(RuGoto(s, i, RSyncWoken).(spurious := s.spurious + 1)) else None
  }

  /** The radio unit has cleared its bit. */
  predicate Cleared(pc: RuPc) {
    !pc.RConfigure? && !pc.RLock? && !pc.RClear?
  }

  predicate HoldsRu(pc: RuPc) {
    pc.RClear? || pc.RSignal? || pc.RUnlock?
  }

  predicate HoldsSync(pc: RuPc) {
    pc.RSyncCheck? || pc.RSyncUnlock?
  }

  /** The main thread has left the loop of `wait_RUs`. */
  predicate Past(m: MainPc) {
    m.MUnlock? || m.MInitEnbs? || m.MSyncLock? || m.MSetSync? || m.MBroadcast? || m.MSyncUnlock? || m.MDone?
  }

  ghost predicate RuOwnerInv(s: State) {
    && (s.ruOwner == Main <==> s.m.MCheck? || s.m.MUnlock?)
    && (s.ruOwner.Ru? ==> s.ruOwner.id < |s.rus|)
    && forall i :: 0 <= i < |s.rus| ==> (HoldsRu(s.rus[i]) <==> s.ruOwner == Ru(i))
  }

  ghost predicate SyncOwnerInv(s: State) {
    && (s.syncOwner == Main <==> s.m.MSetSync? || s.m.MBroadcast? || s.m.MSyncUnlock?)
    && (s.syncOwner.Ru? ==> s.syncOwner.id < |s.rus|)
    && forall i :: 0 <= i < |s.rus| ==> (HoldsSync(s.rus[i]) <==> s.syncOwner == Ru(i))
  }

  /** The mask holds exactly the bits of the radio units that have not cleared theirs. */
  ghost predicate MaskInv(s: State) {
    forall i: nat :: Has(s.mask, i) <==> i < |s.rus| && !Cleared(s.rus[i])
  }

  ghost predicate PhaseInv(s: State) {
    && (Past(s.m) ==> s.mask == 0)
    && (s.synced <==> s.m.MBroadcast? || s.m.MSyncUnlock? || s.m.MDone?)
    && (s.m == MSleep && s.mask == 0 ==>
          s.ruOwner.Ru? && s.ruOwner.id < |s.rus| && s.rus[s.ruOwner.id] == RSignal)
    && (forall i :: 0 <= i < |s.rus| && (s.rus[i] == RSyncUnlock || s.rus[i] == RRunning) ==> s.synced)
    && (forall i :: 0 <= i < |s.rus| && s.rus[i] == RSyncSleep && s.synced ==> s.m == MBroadcast)
  }

  ghost predicate Inv(s: State) {
    RuOwnerInv(s) && SyncOwnerInv(s) && MaskInv(s) && PhaseInv(s)
  }

  /** The radio unit is still concerned with the mask. */
  predicate MaskPhase(pc: RuPc) {
    !Cleared(pc) || HoldsRu(pc)
  }

  lemma MaskPhaseKeepsRuOwner(s: State, i: nat)
    requires RuOwnerInv(s) && i < |s.rus| && MaskPhase(s.rus[i]) && RuStep(s, i).Some?
    ensures RuOwnerInv(RuStep(s, i).value)
  {
  }

  lemma MaskPhaseKeepsSyncOwner(s: State, i: nat)
    requires SyncOwnerInv(s) && i < |s.rus| && MaskPhase(s.rus[i]) && RuStep(s, i).Some?
    ensures SyncOwnerInv(RuStep(s, i).value)
  {
  }

  lemma SyncPhaseKeepsRuOwner(s: State, i: nat)
    requires RuOwnerInv(s) && i < |s.rus| && !MaskPhase(s.rus[i]) && RuStep(s, i).Some?
    ensures RuOwnerInv(RuStep(s, i).value)
  {
  }

  lemma SyncPhaseKeepsSyncOwner(s: State, i: nat)
    requires SyncOwnerInv(s) && i < |s.rus| && !MaskPhase(s.rus[i]) && RuStep(s, i).Some?
    ensures SyncOwnerInv(RuStep(s, i).value)
  {
  }

  /** Clearing one bit changes no other. */
  lemma RuKeepsMask(s: State, i: nat)
    requires MaskInv(s) && i < |s.rus| && RuStep(s, i).Some?
    ensures MaskInv(RuStep(s, i).value)
    ensures forall j: nat :: j != i ==> (Has(RuStep(s, i).value.mask, j) <==> Has(s.mask, j))
  {
    var t := RuStep(s, i).value;
    forall j: nat ensures Has(t.mask, j) <==> j < |t.rus| && !Cleared(t.rus[j]) {
      HasAndNot(s.mask, Bit(i), j);
      HasBit(i, j);
    }
  }

  lemma ZeroMask(s: State)
    requires MaskInv(s)
    ensures s.mask == 0 <==> forall i :: 0 <= i < |s.rus| ==> Cleared(s.rus[i])
  {
    if s.mask == 0 {
      forall i | 0 <= i < |s.rus| ensures Cleared(s.rus[i]) { HasZero(i); }
    } else {
      var i := SomeBit(s.mask);
    }
  }

  lemma RuKeepsPhase(s: State, i: nat)
    requires Inv(s) && i < |s.rus| && RuStep(s, i).Some?
    ensures PhaseInv(RuStep(s, i).value)
  {
    if s.rus[i] == RClear {
      ZeroMask(s);
      HasZero(i);
    }
  }

  lemma MainKeepsRuOwner(s: State)
    requires RuOwnerInv(s) && MainStep(s).Some?
    ensures RuOwnerInv(MainStep(s).value)
  {
  }

  lemma MainKeepsSyncOwner(s: State)
    requires SyncOwnerInv(s) && MainStep(s).Some?
    ensures SyncOwnerInv(MainStep(s).value)
  {
  }

  lemma MainKeepsPhase(s: State)
    requires Inv(s) && MainStep(s).Some?
    ensures MaskInv(MainStep(s).value) && PhaseInv(MainStep(s).value)
  {
  }

  lemma StepKeepsInv(s: State, e: Event)
    requires Inv(s) && Step(s, e).Some?
    ensures Inv(Step(s, e).value)
  {
    match e {
      case RunMain =>
        MainKeepsRuOwner(s);
        MainKeepsSyncOwner(s);
        MainKeepsPhase(s);
      case RunRu(i) =>
        if MaskPhase(s.rus[i]) {
          MaskPhaseKeepsRuOwner(s, i);
          MaskPhaseKeepsSyncOwner(s, i);
        } else {
          SyncPhaseKeepsRuOwner(s, i);
          SyncPhaseKeepsSyncOwner(s, i);
        }
        RuKeepsMask(s, i);
        RuKeepsPhase(s, i);
      case SpuriousMain =>
      case SpuriousRu(i) =>
    }
  }

  lemma InvAlways(n: nat, run: seq<Event>, s: State)
    requires Exec(Step, Init(n), run) == Some(s)
    ensures Inv(s)
  {
    forall i: nat ensures Has(Full(n), i) == (i < n) { HasFull(n, i); }
    if Full(n) == 0 { forall i: nat ensures !Has(0, i) { HasZero(i); } }
    forall x: State, e: Event | Inv(x) && Step(x, e).Some? ensures Inv(Step(x, e).value) {
      StepKeepsInv(x, e);
    }
    InvariantHolds(Step, Inv, Init(n), run);
  }

  /**
   For any number of radio units and any interleaving: the main thread leaves `wait_RUs`, and any radio unit
   enters its subframe loop, only when EVERY radio unit has cleared its own bit.
   */
  lemma NobodyStartsEarly(n: nat, run: seq<Event>, s: State, j: nat)
    requires Exec(Step, Init(n), run) == Some(s) && j < |s.rus|
    ensures Past(s.m) || s.synced || (exists i :: 0 <= i < |s.rus| && s.rus[i] == RRunning) ==> Cleared(s.rus[j])
  {
    InvAlways(n, run, s);
    ZeroMask(s);
  }

  /** Some thread can take a step that is not a spurious wake-up. */
  ghost predicate CanRun(s: State) {
    Step(s, RunMain).Some? || exists i :: 0 <= i < |s.rus| && Step(s, RunRu(i)).Some?
  }

  /** Start-up is over: the main thread is done and every radio unit runs its subframe loop. */
  ghost predicate Started(s: State) {
    s.m == MDone && forall i :: 0 <= i < |s.rus| ==> s.rus[i] == RRunning
  }

  /** Start-up never gets stuck: the threads can run exactly until everybody is started. */
  lemma RunsUntilStarted(n: nat, run: seq<Event>, s: State)
    requires Exec(Step, Init(n), run) == Some(s)
    ensures CanRun(s) <==> !Started(s)
  {
    InvAlways(n, run, s);
    StuckMeansStarted(s);
  }

  lemma StuckMeansStarted(s: State)
    requires Inv(s)
    ensures CanRun(s) <==> !Started(s)
  {
    if s.ruOwner.Ru? {
      assert Step(s, RunRu(s.ruOwner.id)).Some?;
    } else if s.syncOwner.Ru? {
      assert Step(s, RunRu(s.syncOwner.id)).Some?;
    } else if !CanRun(s) {
      forall i | 0 <= i < |s.rus| ensures s.rus[i] == RSyncSleep || s.rus[i] == RRunning {
        assert Step(s, RunRu(i)).None?;
      }
      ZeroMask(s);
    }
  }

  /** Steps a radio unit has taken, as a bound per position. */
  function RuRank(pc: RuPc, synced: bool): nat {
    match pc
    case RConfigure => 0
    case RLock => 1
    case RClear => 2
    case RSignal => 3
    case RUnlock => 7
    case RSyncLock => 8
    case RSyncCheck => if synced then 11 else 9
    case RSyncSleep => 10
    case RSyncWoken => if synced then 10 else 8
    case RSyncUnlock => 12
    case RRunning => 13
  }

  function MainRank(m: MainPc, mask: nat): nat {
    match m
    case MLock => 0
    case MCheck => if mask > 0 then 1 else 3
    case MSleep => 2
    case MWoken => if mask > 0 then 0 else 2
    case MUnlock => 4
    case MInitEnbs => 5
    case MSyncLock => 6
    case MSetSync => 7
    case MBroadcast => 8
    case MSyncUnlock => 9
    case MDone => 10
  }

  function RuRanks(rus: seq<RuPc>, synced: bool): nat {
    if rus == [] then 0 else RuRanks(rus[..|rus| - 1], synced) + RuRank(rus[|rus| - 1], synced)
  }

  lemma {:induction false} RanksUpdate(rus: seq<RuPc>, i: nat, pc: RuPc, synced: bool)
    requires i < |rus|
    ensures RuRanks(rus[i := pc], synced) == RuRanks(rus, synced) - RuRank(rus[i], synced) + RuRank(pc, synced)
  {
    var next := rus[i := pc];
    if i == |rus| - 1 {
      assert next[..|rus| - 1] == rus[..|rus| - 1];
    } else {
      RanksUpdate(rus[..|rus| - 1], i, pc, synced);
      assert next[..|rus| - 1] == rus[..|rus| - 1][i := pc];
    }
  }

  lemma {:induction false} RanksGrow(a: seq<RuPc>, x: bool, b: seq<RuPc>, y: bool)
    requires |a| == |b| && forall i :: 0 <= i < |a| ==> RuRank(a[i], x) <= RuRank(b[i], y)
    ensures RuRanks(a, x) <= RuRanks(b, y)
  {
    if a == [] {
    } else {
      RanksGrow(a[..|a| - 1], x, b[..|b| - 1], y);
    }
  }

  lemma {:induction false} RanksBound(rus: seq<RuPc>, synced: bool)
    ensures RuRanks(rus, synced) <= 13 * |rus|
  {
    if rus == [] {
    } else {
      RanksBound(rus[..|rus| - 1], synced);
    }
  }

  lemma {:induction false} RanksAtStart(n: nat)
    ensures RuRanks(seq(n, _ => RConfigure), false) == 0
  {
    if n == 0 {
    } else {
      RanksAtStart(n - 1);
      assert seq(n, _ => RConfigure)[..n - 1] == seq(n - 1, _ => RConfigure);
    }
  }

  /** Events accounted for by what the state has achieved. */
  function Paid(s: State): nat {
    RuRanks(s.rus, s.synced) + MainRank(s.m, s.mask) + 3 * s.spurious
  }

  /** What a step of radio unit `i` pays, also when it wakes the main thread. */
  lemma RuMoves(s: State, i: nat)
    requires i < |s.rus| && RuStep(s, i).Some?
    ensures var t := RuStep(s, i).value;
            && |t.rus| == |s.rus| && t.rus == s.rus[i := t.rus[i]] && t.synced == s.synced && t.spurious == s.spurious
            && RuRank(t.rus[i], s.synced) + MainRank(t.m, t.mask)
               >= RuRank(s.rus[i], s.synced) + MainRank(s.m, s.mask) + 1
  {
  }

  lemma RuPays(s: State, i: nat)
    requires i < |s.rus| && RuStep(s, i).Some?
    ensures Paid(RuStep(s, i).value) >= Paid(s) + 1
  {
    RuMoves(s, i);
    RanksUpdate(s.rus, i, RuStep(s, i).value.rus[i], s.synced);
  }

  lemma MainPays(s: State)
    requires s.m == MBroadcast ==> s.synced
    requires MainStep(s).Some?
    ensures Paid(MainStep(s).value) >= Paid(s) + 1
  {
    if s.m == MSetSync {
      RanksGrow(s.rus, s.synced, s.rus, true);
    } else if s.m == MBroadcast {
      RanksGrow(s.rus, true, WakeAll(s.rus), true);
    }
  }

  lemma StepPays(s: State, e: Event)
    requires s.m == MBroadcast ==> s.synced
    requires Step(s, e).Some?
    ensures Paid(Step(s, e).value) >= Paid(s) + 1 && |Step(s, e).value.rus| == |s.rus|
  {
    match e {
      case RunMain => MainPays(s);
      case RunRu(i) => RuPays(s, i);
      case SpuriousMain =>
      case SpuriousRu(i) => RanksUpdate(s.rus, i, RSyncWoken, s.synced);
    }
  }

  lemma PaidBound(s: State)
    ensures Paid(s) <= 13 * |s.rus| + 10 + 3 * s.spurious
  {
    RanksBound(s.rus, s.synced);
  }

  lemma InitInv(n: nat)
    ensures Inv(Init(n)) && Paid(Init(n)) == 0
  {
    forall i: nat ensures Has(Full(n), i) == (i < n) { HasFull(n, i); }
    if Full(n) == 0 { forall i: nat ensures !Has(0, i) { HasZero(i); } }
    RanksAtStart(n);
  }

  /**
   Start-up ends: no run is longer than 13 events per radio unit, 10 for the main thread and 3 per spurious
   wake-up; so, by `RunsUntilStarted`, every run that goes on as long as it can starts every radio unit.
   */
  lemma StartupTerminates(n: nat, run: seq<Event>, s: State)
    requires Exec(Step, Init(n), run) == Some(s)
    ensures |run| <= 13 * n + 10 + 3 * s.spurious
  {
    InitInv(n);
    var inv: State -> bool := x => Inv(x) && |x.rus| == n;
    forall x: State, e: Event | inv(x) && Step(x, e).Some?
      ensures inv(Step(x, e).value)
    {
      StepKeepsInv(x, e);
      StepPays(x, e);
    }
    forall x: State, e: Event | inv(x) && Step(x, e).Some? ensures Paid(Step(x, e).value) >= Paid(x) + 1 {
      StepPays(x, e);
    }
    PotentialBounds(Step, inv, Paid, Init(n), run);
    PaidBound(s);
  }
}
