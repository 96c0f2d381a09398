/**
 Radio units, L1 thread and transmit thread in one system: the L1 thread runs `wakeup_tx` itself, so while that
 call waits for the transmit thread the L1 thread takes no step of its own loop.
 */
module EnbJoint {
  import opened Transition
  import opened LteTime
  import Chain = EnbChain
  import Rx = RxHandoff
  import Tx = TxRendezvous

  datatype State = State(rx: Rx.State, tx: Tx.State)

  /** `uplink` is what `subframe_select` says of the subframe for which the L1 thread calls `wakeup_tx`. */
  datatype Event =
    | Radio(i: nat, job: Rx.Descriptor) | L1(field: Rx.Field, uplink: bool) | TxThread
    | SpuriousL1 | SpuriousCall | SpuriousTx

  function Init(n: nat, rxSlot: Rx.Descriptor, txSlot: Job): State {
    State(Rx.Init(n, rxSlot), Tx.Init(txSlot))
  }

  function RxMove(s: State, e: Rx.Event): Option<State> {
    match Rx.Step(s.rx, e)
    case None => None
    case Some(r) => Some(s.(rx := r))
  }

  function TxMove(s: State, e: Tx.Event): Option<State> {
    match Tx.Step(s.tx, e)
    case None => None
    case Some(t) => Some(s.(tx := t))
  }

  /** The call with which the L1 thread hands on the last job. */
  function NewCall(r: Rx.State, uplink: bool): Tx.Call
    requires r.handed != []
  {
    Tx.Call(Rx.JobOf(r.handed[|r.handed| - 1].job), uplink)
  }

  /** The L1 thread is about to call `wakeup_tx`. */
  predicate Calling(r: Rx.State) {
    r.c == Rx.LArguments && r.unread == {}
  }

  function L1Move(s: State, f: Rx.Field, uplink: bool): Option<State> {
    if s.tx.p != Tx.PIdle then TxMove(s, Tx.Produce(Tx.Call(s.tx.arg, false)))
    else if !Calling(s.rx) then RxMove(s, Rx.Run(f))
    else
      match RxMove(s, Rx.Run(f))
      case None => None
      case Some(m) => if m.rx.handed == [] then None else TxMove(m, Tx.Produce(NewCall(m.rx, uplink)))
  }

  function Step(s: State, e: Event): Option<State> {
    match e
    case Radio(i, job) => RxMove(s, Rx.Wakeup(i, job))
    case L1(f, uplink) => L1Move(s, f, uplink)
    case TxThread => TxMove(s, Tx.Consume)
    case SpuriousL1 => RxMove(s, Rx.Spurious)
    case SpuriousCall => TxMove(s, Tx.SpuriousProducer)
    case SpuriousTx => TxMove(s, Tx.SpuriousConsumer)
  }

  // ----- a joint run is a run of both protocols -----

  /** The events of the two protocols that one joint event stands for. */
  function RxPart(s: State, e: Event): seq<Rx.Event> {
    match e
    case Radio(i, job) => [Rx.Wakeup(i, job)]
    case L1(f, _) => if s.tx.p != Tx.PIdle then [] else [Rx.Run(f)]
    case SpuriousL1 => [Rx.Spurious]
    case _ => []
  }

  function TxPart(s: State, e: Event): seq<Tx.Event> {
    match e
    case L1(f, uplink) =>
      if s.tx.p != Tx.PIdle then [Tx.Produce(Tx.Call(s.tx.arg, false))]
      else if !Calling(s.rx) then []
      else
        (match Rx.Step(s.rx, Rx.Run(f))
         case None => []
         case Some(r) => if r.handed == [] then [] else [Tx.Produce(NewCall(r, uplink))])
    case TxThread => [Tx.Consume]
    case SpuriousCall => [Tx.SpuriousProducer]
    case SpuriousTx => [Tx.SpuriousConsumer]
    case _ => []
  }

  lemma StepParts(s: State, e: Event)
    requires Step(s, e).Some?
    ensures var t, a, b := Step(s, e).value, RxPart(s, e), TxPart(s, e);
            && |a| <= 1 && |b| <= 1 && |a| + |b| >= 1
            && (if a == [] then t.rx == s.rx else Rx.Step(s.rx, a[0]) == Some(t.rx))
            && (if b == [] then t.tx == s.tx else Tx.Step(s.tx, b[0]) == Some(t.tx))
  {
  }

  /** The calls of `wakeup_tx` are exactly the hand-offs made. */
  ghost predicate CallsMatch(s: State) {
    |s.tx.calls| == |s.rx.handed| && Chain.CallsFrom(s.tx.calls, s.rx.handed)
  }

  /** A step of the first protocol hands on a job exactly when the L1 thread calls. */
  lemma RxHands(r: Rx.State, e: Rx.Event)
    requires Rx.Step(r, e).Some?
    ensures var t := Rx.Step(r, e).value;
            if e.Run? && Calling(r) then |t.handed| == |r.handed| + 1 && t.handed[..|r.handed|] == r.handed
            else t.handed == r.handed
  {
  }

  lemma TxCalls(r: Tx.State, e: Tx.Event)
    requires Tx.Step(r, e).Some?
    ensures var t := Tx.Step(r, e).value;
            t.calls == if e.Produce? && r.p == Tx.PIdle then r.calls + [e.call] else r.calls
  {
  }

  lemma StepMatches(s: State, e: Event)
    requires CallsMatch(s) && Step(s, e).Some?
    ensures CallsMatch(Step(s, e).value)
  {
    var a, b := RxPart(s, e), TxPart(s, e);
    StepParts(s, e);
    if a != [] {
      RxHands(s.rx, a[0]);
    }
    if b != [] {
      TxCalls(s.tx, b[0]);
    }
  }

  lemma Append<S, E>(step: (S, E) -> Option<S>, init: S, run: seq<E>, s: S, part: seq<E>, t: S)
    requires Exec(step, init, run) == Some(s) && |part| <= 1
    requires if part == [] then t == s else step(s, part[0]) == Some(t)
    ensures Exec(step, init, run + part) == Some(t)
  {
    if part == [] {
      assert run + part == run;
    } else {
      assert part == [part[0]];
      ExecMore(step, init, run, s, part[0], t);
    }
  }

  /** The radio units only offer jobs computed from their receive time. */
  ghost predicate JointRadio(run: seq<Event>, ahead: nat, spt: nat)
    requires ValidSpt(spt)
  {
    forall i :: 0 <= i < |run| && run[i].Radio? ==> Chain.FromRadio(Rx.JobOf(run[i].job), ahead, spt)
  }

  lemma RadioPart(a: seq<Rx.Event>, s: State, e: Event, ahead: nat, spt: nat)
    requires ValidSpt(spt) && Chain.RadioRun(a, ahead, spt)
    requires e.Radio? ==> Chain.FromRadio(Rx.JobOf(e.job), ahead, spt)
    ensures Chain.RadioRun(a + RxPart(s, e), ahead, spt)
  {
  }

  /** Every joint run projects to a run of each protocol, and the calls of one are the hand-offs of the other. */
  lemma {:induction false} Projects(
      n: nat, rxSlot: Rx.Descriptor, txSlot: Job, run: seq<Event>, s: State, ahead: nat, spt: nat)
    returns (a: seq<Rx.Event>, b: seq<Tx.Event>)
    requires ValidSpt(spt) && Exec(Step, Init(n, rxSlot, txSlot), run) == Some(s)
    ensures Exec(Rx.Step, Rx.Init(n, rxSlot), a) == Some(s.rx) && Exec(Tx.Step, Tx.Init(txSlot), b) == Some(s.tx)
    ensures CallsMatch(s) && |run| <= |a| + |b|
    ensures JointRadio(run, ahead, spt) ==> Chain.RadioRun(a, ahead, spt)
    decreases |run|
  {
    a, b := [], [];
    if run == [] {
    } else {
      var most, e := run[..|run| - 1], run[|run| - 1];
      var m := Exec(Step, Init(n, rxSlot, txSlot), most).value;
      a, b := Projects(n, rxSlot, txSlot, most, m, ahead, spt);
      StepParts(m, e);
      StepMatches(m, e);
      if JointRadio(run, ahead, spt) {
        RadioPart(a, m, e, ahead, spt);
      }
      Append(Rx.Step, Rx.Init(n, rxSlot), a, m.rx, RxPart(m, e), s.rx);
      Append(Tx.Step, Tx.Init(txSlot), b, m.tx, TxPart(m, e), s.tx);
      a, b := a + RxPart(m, e), b + TxPart(m, e);
    }
  }

  // ----- what the chain does -----

  /** In every run of the chain a forwarded job is consistent if and only if its own hand-off was not torn. */
  lemma ForwardedConsistentIff(
      n: nat, rxSlot: Rx.Descriptor, txSlot: Job, run: seq<Event>, s: State, k: nat, ahead: nat, spt: nat)
    requires ValidSpt(spt) && ahead <= 10 && JointRadio(run, ahead, spt)
    requires Exec(Step, Init(n, rxSlot, txSlot), run) == Some(s) && k < |s.tx.forwarded|
    ensures k < |Tx.NonUplink(s.tx.calls)|
    ensures var i := Chain.CallIndex(s.tx.calls, k);
            && i < |s.rx.handed| && i < |s.rx.accepted| && s.tx.forwarded[k] == Rx.JobOf(s.rx.handed[i].job)
            && (Consistent(s.tx.forwarded[k], spt) <==> Chain.Untorn(s.rx, i))
  {
    var a, b := Projects(n, rxSlot, txSlot, run, s, ahead, spt);
    Chain.TransmittedConsistentIff(n, rxSlot, a, s.rx, txSlot, b, s.tx, k, ahead, spt);
  }

  /** While the L1 thread is blocked in `wakeup_tx` the transmit thread can go on. */
  lemma BlockedCallProgress(n: nat, rxSlot: Rx.Descriptor, txSlot: Job, run: seq<Event>, s: State, f: Rx.Field)
    requires Exec(Step, Init(n, rxSlot, txSlot), run) == Some(s)
    requires s.tx.p != Tx.PIdle && Step(s, L1(f, false)).None?
    ensures Step(s, TxThread).Some?
  {
    var _, b := Projects(n, rxSlot, txSlot, run, s, 0, 1);
    Tx.NoLostWakeup(txSlot, b, s.tx, Tx.Call(s.tx.arg, false));
  }

  /** The L1 thread and the transmit thread cannot go on. */
  ghost predicate Quiet(s: State) {
    Step(s, TxThread).None? && forall f, uplink :: Step(s, L1(f, uplink)).None?
  }

  lemma QuietL1(n: nat, rxSlot: Rx.Descriptor, txSlot: Job, run: seq<Event>, s: State, f: Rx.Field)
    requires Exec(Step, Init(n, rxSlot, txSlot), run) == Some(s) && Quiet(s)
    ensures s.tx.p == Tx.PIdle && Rx.L1Step(s.rx, f).None?
  {
    assert Step(s, L1(f, false)).None?;
    if s.tx.p != Tx.PIdle {
      BlockedCallProgress(n, rxSlot, txSlot, run, s, f);
    }
  }

  /**
   Nothing gets stuck between the threads: when the radio units are idle and neither thread can go on, every
   accepted job was processed and handed on, and every job that is not for an uplink subframe was forwarded.
   */
  lemma ChainDrains(n: nat, rxSlot: Rx.Descriptor, txSlot: Job, run: seq<Event>, s: State)
    requires Exec(Step, Init(n, rxSlot, txSlot), run) == Some(s) && Quiet(s)
    requires forall i :: 0 <= i < |s.rx.rus| ==> s.rx.rus[i].pc == Rx.RIdle
    ensures s.rx.processed == s.rx.accepted && |s.rx.handed| == |s.rx.accepted| == |s.tx.calls|
    ensures s.tx.forwarded == Tx.NonUplink(s.tx.calls)
  {
    var a, b := Projects(n, rxSlot, txSlot, run, s, 0, 1);
    forall f ensures s.tx.p == Tx.PIdle && Rx.L1Step(s.rx, f).None? {
      QuietL1(n, rxSlot, txSlot, run, s, f);
    }
    QuietL1(n, rxSlot, txSlot, run, s, Rx.Frame);
    Rx.NothingLeftBehind(n, rxSlot, a, s.rx);
    assert Step(s, TxThread).None?;
    Tx.NothingLeftBehind(txSlot, b, s.tx);
  }

  /** Progress of the whole chain without any fairness assumption: a run is as long as what it achieved. */
  lemma ChainThroughput(n: nat, rxSlot: Rx.Descriptor, txSlot: Job, run: seq<Event>, s: State)
    requires Exec(Step, Init(n, rxSlot, txSlot), run) == Some(s)
    ensures |run| <= 12 * s.rx.returned + 13 * |s.rx.handed| + 24 * |s.tx.copied| + s.tx.skips
                     + 3 * (s.rx.spurious + s.tx.spurious) + 11 * n + 36
  {
    var a, b := Projects(n, rxSlot, txSlot, run, s, 0, 1);
    Rx.ThroughputBound(n, rxSlot, a, s.rx);
    Tx.ThroughputBound(txSlot, b, s.tx);
  }
}
