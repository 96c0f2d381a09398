/**
 The single-slot hand-off from the L1 receive thread to the L1 transmit thread.

 `wakeup_tx` (the producer) and `L1_thread_tx` (the consumer) share one job descriptor, one
 counter (`instance_cnt`: -1 when the slot is free, 0 when it holds a job), one mutex and one
 condition variable on which BOTH sides sleep.  Every store to the descriptor is a step of its
 own, because the consumer reads the descriptor without the mutex while it processes a job.
 */
module TxRendezvous {
  import opened Transition
  import opened LteTime

  /** One call of `wakeup_tx`; `uplink` says that `subframe_select` returns SF_UL. */
  datatype Call = Call(job: Job, uplink: bool)

  datatype Owner = Free | ByProducer | ByConsumer

  datatype ProducerPc =
    | PIdle | PLock | PCheck | PSleep | PWoken
    | PStoreSubframe | PStoreFrame | PStoreTimestamp | PSignal | PUnlock

  datatype ConsumerPc =
    | CLock | CCheck | CSleep | CWoken | CUnlock | CProcess | CRelock
    | CCopySubframe | CCopyFrame | CCopyTimestamp | CReset | CSignal | CRelease | CForward

  /**
   `arg` is the job of the call in progress and `local` holds the consumer's copies.  The
   sequences record what happened: calls made, jobs put in the slot, jobs processed by
   `phy_procedures_eNB_TX`, jobs copied out, jobs passed to `wakeup_txfh`.
   */
  datatype State = State(
    cnt: int, slot: Job, owner: Owner,
    p: ProducerPc, arg: Job, c: ConsumerPc, local: Job,
    calls: seq<Call>, posted: seq<Job>, processed: seq<Job>, copied: seq<Job>, forwarded: seq<Job>,
    skips: nat, spurious: nat)

  /** `Produce(call)` uses `call` only when the producer starts a new call. */
  datatype Event = Produce(call: Call) | Consume | SpuriousProducer | SpuriousConsumer

  function Init(slot: Job): State {
    State(-1, slot, Free, PIdle, slot, CLock, slot, [], [], [], [], [], 0, 0)
  }

  function ProducerStep(s: State, call: Call): Option<State> {
    match s.p
    case PIdle =>
      if call.uplink then Some(s.(calls := s.calls + [call], skips := s.skips + 1))
      else Some(s.(calls := s.calls + [call], arg := call.job, p := PLock))
    case PLock => if s.owner == Free then Some(s.(owner := ByProducer, p := PCheck)) else None
    case PCheck =>
      if s.cnt == 0 then Some(s.(owner := Free, p := PSleep))
      else Some(s.(cnt := 0, p := PStoreSubframe, posted := s.posted + [s.arg]))
    case PSleep => None
    case PWoken => if s.owner == Free then Some(s.(owner := ByProducer, p := PCheck)) else None
    case PStoreSubframe => Some(s.(slot := s.slot.(subframe := s.arg.subframe), p := PStoreFrame))
    case PStoreFrame => Some(s.(slot := s.slot.(frame := s.arg.frame), p := PStoreTimestamp))
    case PStoreTimestamp => Some(s.(slot := s.slot.(timestamp := s.arg.timestamp), p := PSignal))
    case PSignal => Some(s.(c := if s.c == CSleep then CWoken else s.c, p := PUnlock))
    case PUnlock => Some(s.(owner := Free, p := PIdle))
  }

  function ConsumerStep(s: State): Option<State> {
    match s.c
    case CLock => if s.owner == Free then Some(s.(owner := ByConsumer, c := CCheck)) else None
    case CCheck => if s.cnt < 0 then Some(s.(owner := Free, c := CSleep)) else Some(s.(c := CUnlock))
    case CSleep => None
    case CWoken => if s.owner == Free then Some(s.(owner := ByConsumer, c := CCheck)) else None
    case CUnlock => Some(s.(owner := Free, c := CProcess))
    case CProcess => Some(s.(processed := s.processed + [s.slot], c := CRelock))
    case CRelock => if s.owner == Free then Some(s.(owner := ByConsumer, c := CCopySubframe)) else None
    case CCopySubframe => Some(s.(local := s.local.(subframe := s.slot.subframe), c := CCopyFrame))
    case CCopyFrame => Some(s.(local := s.local.(frame := s.slot.frame), c := CCopyTimestamp))
    case CCopyTimestamp => Some(s.(local := s.local.(timestamp := s.slot.timestamp), c := CReset))
    case CReset => Some(s.(cnt := -1, copied := s.copied + [s.local], c := CSignal))
    case CSignal => Some(s.(p := if s.p == PSleep then PWoken else s.p, c := CRelease))
    case CRelease => Some(s.(owner := Free, c := CForward))
    case CForward => Some(s.(forwarded := s.forwarded + [s.local], c := CLock))
  }

  function Step(s: State, e: Event): Option<State> {
    match e
    case Produce(call) => ProducerStep(s, call)
    case Consume => ConsumerStep(s)
    case SpuriousProducer => if s.p == PSleep then Some(s.(p := PWoken, spurious := s.spurious + 1)) else None
    case SpuriousConsumer => if s.c == CSleep then Some(s.(c := CWoken, spurious := s.spurious + 1)) else None
  }

  /** The jobs of the calls that are not for uplink subframes, in order. */
  function NonUplink(calls: seq<Call>): seq<Job> {
    if calls == [] then []
    else
      NonUplink(calls[..|calls| - 1])
      + if calls[|calls| - 1].uplink then [] else [calls[|calls| - 1].job]
  }

  predicate ProducerHolds(p: ProducerPc) {
    p.PCheck? || p.PStoreSubframe? || p.PStoreFrame? || p.PStoreTimestamp? || p.PSignal? || p.PUnlock?
  }

  predicate ConsumerHolds(c: ConsumerPc) {
    c.CCheck? || c.CUnlock? || c.CCopySubframe? || c.CCopyFrame? || c.CCopyTimestamp?
    || c.CReset? || c.CSignal? || c.CRelease?
  }

  /** The producer has decided to fill the slot and has not yet signalled. */
  predicate Storing(p: ProducerPc) {
    p.PStoreSubframe? || p.PStoreFrame? || p.PStoreTimestamp? || p.PSignal?
  }

  /** The consumer has taken the job in the slot and has not yet given the slot back. */
  predicate Working(c: ConsumerPc) {
    c.CUnlock? || c.CProcess? || AfterProcessing(c)
  }

  predicate AfterProcessing(c: ConsumerPc) {
    c.CRelock? || c.CCopySubframe? || c.CCopyFrame? || c.CCopyTimestamp? || c.CReset?
  }

  /** A call has been made but its job is not in the slot yet. */
  predicate Waiting(p: ProducerPc) {
    p.PLock? || p.PCheck? || p.PSleep? || p.PWoken?
  }

  ghost predicate MutexInv(s: State) {
    && s.cnt in {-1, 0}
    && (s.owner == ByProducer <==> ProducerHolds(s.p))
    && (s.owner == ByConsumer <==> ConsumerHolds(s.c))
    && (Storing(s.p) || s.p == PUnlock || Working(s.c) ==> s.cnt == 0)
    && (s.c == CSignal || s.c == CRelease ==> s.cnt == -1)
    && !(Storing(s.p) && Working(s.c))
  }

  /** A sleeper that nobody is about to signal sleeps for the right reason. */
  ghost predicate SleepInv(s: State) {
    && (s.p == PSleep && s.c != CSignal ==> s.cnt == 0)
    && (s.c == CSleep && !Storing(s.p) ==> s.cnt == -1)
  }

  /** The fields of the slot that already belong to the newest posted job. */
  ghost predicate SlotInv(s: State) {
    && (Storing(s.p) ==> s.posted != [] && s.arg == Last(s.posted))
    && (s.cnt == 0 ==> s.posted != [])
    && (s.cnt == 0 && s.p != PStoreSubframe ==> s.slot.subframe == Last(s.posted).subframe)
    && (s.cnt == 0 && s.p != PStoreSubframe && s.p != PStoreFrame ==> s.slot.frame == Last(s.posted).frame)
    && (s.cnt == 0 && s.p != PStoreSubframe && s.p != PStoreFrame && s.p != PStoreTimestamp
        ==> s.slot == Last(s.posted))
    && (s.c == CCopyFrame || s.c == CCopyTimestamp || s.c == CReset ==> s.local.subframe == s.slot.subframe)
    && (s.c == CCopyTimestamp || s.c == CReset ==> s.local.frame == s.slot.frame)
    && (s.c == CReset ==> s.local == s.slot)
  }

  function Last<T>(xs: seq<T>): T
    requires xs != []
  {
    xs[|xs| - 1]
  }

  /** What was copied out and processed, against what was posted. */
  ghost predicate DeliveryInv(s: State)
    requires s.cnt == 0 ==> s.posted != []
  {
    && s.posted == s.copied + (if s.cnt == 0 then [Last(s.posted)] else [])
    && s.processed == s.copied + (if AfterProcessing(s.c) then [s.slot] else [])
  }

  /** What was posted, against the calls made. */
  ghost predicate CallInv(s: State) {
    NonUplink(s.calls) == s.posted + (if Waiting(s.p) then [s.arg] else [])
  }

  /** What was passed on, against what was copied out. */
  ghost predicate ForwardInv(s: State) {
    s.copied == s.forwarded + (if s.c == CSignal || s.c == CRelease || s.c == CForward then [s.local] else [])
  }

  /** Steps the producer has taken since it last filled the slot, as a bound per position. */
  function ProducerRank(p: ProducerPc, cnt: int): nat {
    match p
    case PStoreSubframe => 0
    case PStoreFrame => 1
    case PStoreTimestamp => 2
    case PSignal => 3
    case PUnlock => 4
    case PIdle => 5
    case PLock => 6
    case PCheck => if cnt == 0 then 7 else 9
    case PSleep => 8
    case PWoken => if cnt == 0 then 6 else 8
  }

  /** Steps the consumer has taken since it last emptied the slot, as a bound per position. */
  function ConsumerRank(c: ConsumerPc, cnt: int): nat {
    match c
    case CSignal => 0
    case CRelease => 1
    case CForward => 2
    case CLock => 3
    case CCheck => if cnt < 0 then 4 else 6
    case CSleep => 5
    case CWoken => if cnt < 0 then 3 else 5
    case CUnlock => 7
    case CProcess => 8
    case CRelock => 9
    case CCopySubframe => 10
    case CCopyFrame => 11
    case CCopyTimestamp => 12
    case CReset => 13
  }

  /** Events accounted for by what the state has achieved. */
  function Paid(s: State): nat {
    10 * |s.posted| + 14 * |s.copied| + s.skips + 3 * s.spurious
    + ProducerRank(s.p, s.cnt) + ConsumerRank(s.c, s.cnt)
  }

  ghost predicate Inv(s: State) {
    MutexInv(s) && SleepInv(s) && SlotInv(s) && DeliveryInv(s) && CallInv(s) && ForwardInv(s)
  }

  lemma ProducerKeepsControl(s: State, call: Call)
    requires MutexInv(s) && SleepInv(s) && SlotInv(s) && ProducerStep(s, call).Some?
    ensures var t := ProducerStep(s, call).value; MutexInv(t) && SleepInv(t) && SlotInv(t)
  {
  }

  lemma ConsumerKeepsControl(s: State)
    requires MutexInv(s) && SleepInv(s) && SlotInv(s) && ConsumerStep(s).Some?
    ensures var t := ConsumerStep(s).value; MutexInv(t) && SleepInv(t) && SlotInv(t)
  {
  }

  lemma ProducerKeepsDelivery(s: State, call: Call)
    requires MutexInv(s) && SlotInv(s) && DeliveryInv(s) && ProducerStep(s, call).Some?
    requires var t := ProducerStep(s, call).value; t.cnt == 0 ==> t.posted != []
    ensures DeliveryInv(ProducerStep(s, call).value)
  {
  }

  lemma ProducerKeepsCalls(s: State, call: Call)
    requires CallInv(s) && ProducerStep(s, call).Some?
    ensures CallInv(ProducerStep(s, call).value)
  {
    if s.p == PIdle {
      NonUplinkSnoc(s.calls, call);
    }
  }

  lemma {:induction false} NonUplinkSnoc(calls: seq<Call>, call: Call)
    ensures NonUplink(calls + [call]) == NonUplink(calls) + if call.uplink then [] else [call.job]
  {
    assert (calls + [call])[..|calls|] == calls;
  }

  lemma ProducerKeepsForward(s: State, call: Call)
    requires ForwardInv(s) && ProducerStep(s, call).Some?
    ensures ForwardInv(ProducerStep(s, call).value)
  {
  }

  lemma ConsumerKeepsDelivery(s: State)
    requires MutexInv(s) && SlotInv(s) && DeliveryInv(s) && ConsumerStep(s).Some?
    requires var t := ConsumerStep(s).value; t.cnt == 0 ==> t.posted != []
    ensures DeliveryInv(ConsumerStep(s).value)
  {
  }

  lemma ConsumerKeepsForward(s: State)
    requires MutexInv(s) && CallInv(s) && ForwardInv(s) && ConsumerStep(s).Some?
    ensures var t := ConsumerStep(s).value; CallInv(t) && ForwardInv(t)
  {
  }

  lemma StepKeepsInv(s: State, e: Event)
    requires Inv(s) && Step(s, e).Some?
    ensures Inv(Step(s, e).value)
  {
    match e {
      case Produce(call) =>
        ProducerKeepsControl(s, call);
        ProducerKeepsDelivery(s, call);
        ProducerKeepsCalls(s, call);
        ProducerKeepsForward(s, call);
      case Consume =>
        ConsumerKeepsControl(s);
        ConsumerKeepsDelivery(s);
        ConsumerKeepsForward(s);
      case SpuriousProducer =>
      case SpuriousConsumer =>
    }
  }

  lemma InvAlways(slot: Job, run: seq<Event>, s: State)
    requires Exec(Step, Init(slot), run) == Some(s)
    ensures Inv(s)
  {
    forall x: State, e: Event | Inv(x) && Step(x, e).Some? ensures Inv(Step(x, e).value) {
      StepKeepsInv(x, e);
    }
    InvariantHolds(Step, Inv, Init(slot), run);
  }

  /**
   In every interleaving the jobs copied out are the non-uplink jobs passed to `wakeup_tx`, in
   order, without loss or duplication, with at most one in the slot and one in a call that is
   still waiting; the same jobs are processed and forwarded.
   */
  lemma JobsDeliveredInOrder(slot: Job, run: seq<Event>, s: State)
    requires Exec(Step, Init(slot), run) == Some(s)
    ensures && s.copied <= s.processed <= s.posted <= NonUplink(s.calls)
            && s.forwarded <= s.copied
            && |s.posted| <= |s.copied| + 1
            && |NonUplink(s.calls)| <= |s.posted| + 1
            && |s.copied| <= |s.forwarded| + 1
  {
    InvAlways(slot, run, s);
  }

  /** No step of either thread changes the descriptor while the consumer works on a job. */
  lemma SlotStableWhileWorking(slot: Job, run: seq<Event>, s: State, e: Event)
    requires Exec(Step, Init(slot), run) == Some(s)
    requires Working(s.c)
    requires Step(s, e).Some?
    ensures Step(s, e).value.slot == s.slot
  {
    InvAlways(slot, run, s);
  }

  /**
   No wake-up is lost although both sides sleep on one condition variable: whenever the mutex is
   free a sleeping producer means a full slot and a sleeping consumer an empty one, so the two are
   never asleep together and one of the threads can always take a step.
   */
  lemma NoLostWakeup(slot: Job, run: seq<Event>, s: State, call: Call)
    requires Exec(Step, Init(slot), run) == Some(s)
    ensures && (s.owner == Free && s.p == PSleep ==> s.cnt == 0)
            && (s.owner == Free && s.c == CSleep ==> s.cnt == -1)
            && !(s.p == PSleep && s.c == CSleep)
            && (Step(s, Produce(call)).Some? || Step(s, Consume).Some?)
  {
    InvAlways(slot, run, s);
  }

  /** When no call is under way and the consumer cannot go on, every job was copied out and forwarded. */
  lemma NothingLeftBehind(slot: Job, run: seq<Event>, s: State)
    requires Exec(Step, Init(slot), run) == Some(s) && s.p == PIdle && Step(s, Consume).None?
    ensures s.c == CSleep && s.forwarded == NonUplink(s.calls)
  {
    InvAlways(slot, run, s);
  }

  lemma StepPays(s: State, e: Event)
    requires MutexInv(s) && Step(s, e).Some?
    ensures Paid(Step(s, e).value) >= Paid(s) + 1
  {
  }

  /** At most one job is in the slot, so what was posted is bounded by what was copied out. */
  lemma PaidBound(s: State)
    requires Inv(s)
    ensures Paid(s) <= 24 * |s.copied| + s.skips + 3 * s.spurious + 32
  {
  }

  lemma StepGood(s: State, e: Event)
    requires Inv(s) && Step(s, e).Some?
    ensures Inv(Step(s, e).value) && Paid(Step(s, e).value) >= Paid(s) + 1
  {
    StepKeepsInv(s, e);
    StepPays(s, e);
  }

  lemma InitPaid(slot: Job)
    ensures Inv(Init(slot)) && Paid(Init(slot)) == 8
  {
  }

  /**
   Progress without any fairness assumption: a run, in whatever order the threads are scheduled, has
   delivered at least one job per 24 events, not counting uplink calls (one event each), spurious
   wake-ups (three events each) and the first 24 events.
   */
  lemma ThroughputBound(slot: Job, run: seq<Event>, s: State)
    requires Exec(Step, Init(slot), run) == Some(s)
    ensures |run| <= 24 * |s.copied| + s.skips + 3 * s.spurious + 24
  {
    InitPaid(slot);
    forall x: State, e: Event | Inv(x) && Step(x, e).Some? ensures Inv(Step(x, e).value) {
      StepGood(x, e);
    }
    forall x: State, e: Event | Inv(x) && Step(x, e).Some? ensures Paid(Step(x, e).value) >= Paid(x) + 1 {
      StepGood(x, e);
    }
    PotentialBounds(Step, Inv, Paid, Init(slot), run);
    PaidBound(s);
  }
}
