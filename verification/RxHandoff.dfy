/**
 The hand-off from the radio units to the L1 receive thread.

 Any number of radio-unit threads may call `wakeup_rxtx`; a call is dropped when the L1 thread is
 busy.  `L1_thread` processes the descriptor without the mutex, gives the slot back, and only THEN
 reads the descriptor again to pass it to `wakeup_tx`; C leaves the order of these argument reads
 open, so each read is a step that picks any field not read yet.
 */
module RxHandoff {
  import opened Transition
  import opened LteTime

  /** The fields of the L1 job descriptor that `wakeup_rxtx` stores and `L1_thread` passes on. */
  datatype Descriptor = Descriptor(timestamp: int, frameRx: int, subframeRx: int, frame: int, subframe: int)

  /** Its transmit part. */
  function JobOf(d: Descriptor): Job {
    Job(d.frame, d.subframe, d.timestamp)
  }

  datatype Field = Timestamp | FrameRx | SubframeRx | Frame | Subframe

  const FIELDS: set<Field> := {Timestamp, FrameRx, SubframeRx, Frame, Subframe}

  function Get(d: Descriptor, f: Field): int {
    match f
    case Timestamp => d.timestamp
    case FrameRx => d.frameRx
    case SubframeRx => d.subframeRx
    case Frame => d.frame
    case Subframe => d.subframe
  }

  function Set(d: Descriptor, f: Field, v: int): Descriptor {
    match f
    case Timestamp => d.(timestamp := v)
    case FrameRx => d.(frameRx := v)
    case SubframeRx => d.(subframeRx := v)
    case Frame => d.(frame := v)
    case Subframe => d.(subframe := v)
  }

  datatype Holder = Nobody | Ru(id: nat) | L1

  datatype RuPc =
    | RIdle | RLock | RCheck | RBusyUnlock
    | RStore(field: Field) | RSignal | RUnlock

  /** A radio-unit thread and the job its current call computed from its own time. */
  datatype RuThread = RuThread(pc: RuPc, arg: Descriptor)

  datatype L1Pc =
    | LLock | LCheck | LSleep | LWoken | LUnlock | LProcess
    | LRelock | LRelease | LReleaseUnlock | LArguments

  /** A call of `wakeup_tx`, with the fields whose value was read after a newer job had overwritten it. */
  datatype Handed = Handed(job: Descriptor, late: set<Field>)

  datatype State = State(
    cnt: int, slot: Descriptor, owner: Holder, rus: seq<RuThread>,
    c: L1Pc, args: Descriptor, unread: set<Field>, late: set<Field>,
    accepted: seq<Descriptor>, dropped: nat, returned: nat, processed: seq<Descriptor>, handed: seq<Handed>,
    spurious: nat)

  /** `Wakeup(i, job)` runs radio unit `i`; `job` is used only when it starts a call. */
  datatype Event = Wakeup(i: nat, job: Descriptor) | Run(field: Field) | Spurious

  function Init(n: nat, slot: Descriptor): State {
    State(-1, slot, Nobody, seq(n, _ => RuThread(RIdle, slot)), LLock, slot, {}, {}, [], 0, 0, [], [], 0)
  }

  /** The stores are made in the order of the fields. */
  function AfterStore(f: Field): RuPc {
    match f
    case Timestamp => RStore(FrameRx)
    case FrameRx => RStore(SubframeRx)
    case SubframeRx => RStore(Frame)
    case Frame => RStore(Subframe)
    case Subframe => RSignal
  }

  function RuGoto(s: State, i: nat, pc: RuPc): State
    requires i < |s.rus|
  {
    s.(rus := s.rus[i := s.rus[i].(pc := pc)])
  }

  function RuStep(s: State, i: nat, job: Descriptor): Option<State>
    requires i < |s.rus|
  {
    var arg := s.rus[i].arg;
    match s.rus[i].pc
    case RIdle => Some(s.(rus := s.rus[i := RuThread(RLock, job)]))
    case RLock => if s.owner == Nobody then Some(RuGoto(s, i, RCheck).(owner := Ru(i))) else None
    case RCheck =>
      if s.cnt == 0 then Some(RuGoto(s, i, RBusyUnlock).(dropped := s.dropped + 1))
      else Some(RuGoto(s, i, RStore(Timestamp)).(cnt := s.cnt + 1, accepted := s.accepted + [arg]))
    case RBusyUnlock => Some(RuGoto(s, i, RIdle).(owner := Nobody, returned := s.returned + 1))
    case RStore(f) => Some(RuGoto(s, i, AfterStore(f)).(slot := Set(s.slot, f, Get(arg, f))))
    case RSignal => Some(RuGoto(s, i, RUnlock).(c := if s.c == LSleep then LWoken else s.c))
    case RUnlock => Some(RuGoto(s, i, RIdle).(owner := Nobody, returned := s.returned + 1))
  }

  /** The position of a field in the order of the stores. */
  function Order(f: Field): nat {
    match f
    case Timestamp => 0
    case FrameRx => 1
    case SubframeRx => 2
    case Frame => 3
    case Subframe => 4
  }

  /** The radio unit inside the critical section has accepted a job and has yet to store field `f` of it. */
  predicate Pending(s: State, f: Field) {
    s.owner.Ru? && s.owner.id < |s.rus| && s.rus[s.owner.id].pc.RStore?
    && Order(s.rus[s.owner.id].pc.field) <= Order(f)
  }

  /** A newer job was accepted than the one just released, and field `f` of it is already stored. */
  predicate Overwritten(s: State, f: Field) {
    |s.accepted| > |s.processed| && !Pending(s, f)
  }

  function L1Step(s: State, f: Field): Option<State> {
    match s.c
    case LLock => if s.owner == Nobody then Some(s.(owner := L1, c := LCheck)) else None
    case LCheck => if s.cnt < 0 then Some(s.(owner := Nobody, c := LSleep)) else Some(s.(c := LUnlock))
    case LSleep => None
    case LWoken => if s.owner == Nobody then Some(s.(owner := L1, c := LCheck)) else None
    case LUnlock => Some(s.(owner := Nobody, c := LProcess))
    case LProcess => Some(s.(processed := s.processed + [s.slot], c := LRelock))
    case LRelock => if s.owner == Nobody then Some(s.(owner := L1, c := LRelease)) else None
    case LRelease => Some(s.(cnt := -1, c := LReleaseUnlock))
    case LReleaseUnlock => Some(s.(owner := Nobody, c := LArguments, unread := FIELDS, late := {}))
    case LArguments =>
      if s.unread == {} then Some(s.(handed := s.handed + [Handed(s.args, s.late)], c := LLock))
      else if f !in s.unread then None
      else Some(s.(args := Set(s.args, f, Get(s.slot, f)), unread := s.unread - {f},
                   late := if Overwritten(s, f) then s.late + {f} else s.late))
  }

  function Step(s: State, e: Event): Option<State> {
    match e
    case Wakeup(i, job) => if i < |s.rus| then RuStep(s, i, job) else None
    case Run(f) => L1Step(s, f)
    case Spurious => if s.c == LSleep then Some(s.(c := LWoken, spurious := s.spurious + 1)) else None
  }

  predicate RuHolds(pc: RuPc) {
    !pc.RIdle? && !pc.RLock?
  }

  /** A job was accepted and not yet signalled. */
  predicate Storing(pc: RuPc) {
    pc.RStore? || pc.RSignal?
  }

  predicate RuStoring(s: State) {
    s.owner.Ru? && s.owner.id < |s.rus| && Storing(s.rus[s.owner.id].pc)
  }

  predicate L1Holds(c: L1Pc) {
    c.LCheck? || c.LUnlock? || c.LRelease? || c.LReleaseUnlock?
  }

  /** The L1 thread owns the job in the slot: from the end of the wait to the release. */
  predicate Busy(c: L1Pc) {
    c.LUnlock? || c.LProcess? || Processed(c)
  }

  predicate Processed(c: L1Pc) {
    c.LRelock? || c.LRelease?
  }

  predicate Releasing(c: L1Pc) {
    c.LReleaseUnlock? || c.LArguments?
  }

  ghost predicate MutexInv(s: State) {
    && s.cnt in {-1, 0}
    && (s.owner.Ru? ==> s.owner.id < |s.rus|)
    && (forall i :: 0 <= i < |s.rus| ==> (RuHolds(s.rus[i].pc) <==> s.owner == Ru(i)))
    && (L1Holds(s.c) <==> s.owner == L1)
    && (Busy(s.c) || RuStoring(s) ==> s.cnt == 0)
    && (s.c == LReleaseUnlock ==> s.cnt == -1)
    && !(Busy(s.c) && RuStoring(s))
    && (s.c == LSleep && !RuStoring(s) ==> s.cnt == -1)
  }

  /** Every call decides exactly once, and at most one accepted job is unprocessed. */
  ghost predicate CountInv(s: State) {
    && |s.accepted| == |s.processed| + (if s.cnt == 0 && !Processed(s.c) then 1 else 0)
    && s.returned + (if s.owner.Ru? && s.owner.id < |s.rus| && s.rus[s.owner.id].pc != RCheck then 1 else 0)
       == |s.accepted| + s.dropped
  }

  /** A stored field of the slot belongs to the newest accepted job, a pending one to the job before. */
  ghost predicate SlotField(s: State, f: Field) {
    var n := |s.accepted|;
    && (n > 0 && !Pending(s, f) ==> Get(s.slot, f) == Get(s.accepted[n - 1], f))
    && (n > 1 && Pending(s, f) ==> Get(s.slot, f) == Get(s.accepted[n - 2], f))
  }

  ghost predicate ArgInv(s: State) {
    RuStoring(s) ==> s.accepted != [] && s.rus[s.owner.id].arg == s.accepted[|s.accepted| - 1]
  }

  ghost predicate SlotInv(s: State) {
    ArgInv(s) && forall f :: SlotField(s, f)
  }

  /** Field `f` of `job` comes from accepted job `k`, or from job `k + 1` exactly when `f` is late. */
  ghost predicate FieldFrom(accepted: seq<Descriptor>, k: int, job: Descriptor, late: set<Field>, f: Field) {
    var source := if f in late then k + 1 else k;
    0 <= source < |accepted| && Get(job, f) == Get(accepted[source], f)
  }

  /** While the arguments are read, every field read so far comes from the released job or its successor. */
  ghost predicate ArgumentInv(s: State) {
    var k := |s.processed| - 1;
    s.c == LArguments ==>
      && k >= 0
      && (forall f :: f !in s.unread ==> FieldFrom(s.accepted, k, s.args, s.late, f))
      && s.late !! s.unread
  }

  ghost predicate JobFrom(accepted: seq<Descriptor>, k: int, h: Handed) {
    forall f :: FieldFrom(accepted, k, h.job, h.late, f)
  }

  ghost predicate HandedInv(s: State) {
    && s.processed <= s.accepted
    && |s.processed| == |s.handed| + (if Processed(s.c) || Releasing(s.c) then 1 else 0)
    && forall k :: 0 <= k < |s.handed| ==> JobFrom(s.accepted, k, s.handed[k])
  }

  ghost predicate Inv(s: State) {
    MutexInv(s) && CountInv(s) && SlotInv(s) && ArgumentInv(s) && HandedInv(s)
  }

  lemma RuKeepsControl(s: State, i: nat, job: Descriptor)
    requires MutexInv(s) && i < |s.rus| && RuStep(s, i, job).Some?
    ensures MutexInv(RuStep(s, i, job).value)
  {
  }

  lemma RuKeepsCount(s: State, i: nat, job: Descriptor)
    requires MutexInv(s) && CountInv(s) && i < |s.rus| && RuStep(s, i, job).Some?
    ensures CountInv(RuStep(s, i, job).value)
  {
  }

  lemma RuKeepsArg(s: State, i: nat, job: Descriptor)
    requires MutexInv(s) && ArgInv(s) && i < |s.rus| && RuStep(s, i, job).Some?
    ensures ArgInv(RuStep(s, i, job).value)
  {
  }

  lemma RuKeepsField(s: State, i: nat, job: Descriptor, f: Field)
    requires MutexInv(s) && ArgInv(s) && SlotField(s, f) && i < |s.rus| && RuStep(s, i, job).Some?
    ensures SlotField(RuStep(s, i, job).value, f)
  {
  }

  lemma RuKeepsSlot(s: State, i: nat, job: Descriptor)
    requires MutexInv(s) && SlotInv(s) && i < |s.rus| && RuStep(s, i, job).Some?
    ensures SlotInv(RuStep(s, i, job).value)
  {
    RuKeepsArg(s, i, job);
    forall f ensures SlotField(RuStep(s, i, job).value, f) {
      RuKeepsField(s, i, job, f);
    }
  }

  lemma JobFromGrows(a: seq<Descriptor>, b: seq<Descriptor>, k: int, h: Handed)
    requires a <= b && JobFrom(a, k, h)
    ensures JobFrom(b, k, h)
  {
    forall f ensures FieldFrom(b, k, h.job, h.late, f) {
      assert FieldFrom(a, k, h.job, h.late, f);
    }
  }

  lemma RuTouches(s: State, i: nat, job: Descriptor)
    requires i < |s.rus| && RuStep(s, i, job).Some?
    ensures var t := RuStep(s, i, job).value;
            && s.accepted <= t.accepted
            && t.c == (if s.c == LSleep && t.c == LWoken then LWoken else s.c)
            && t.(cnt := s.cnt, slot := s.slot, owner := s.owner, rus := s.rus, c := s.c, accepted := s.accepted,
                  dropped := s.dropped, returned := s.returned) == s
  {
  }

  lemma RuKeepsHanded(s: State, i: nat, job: Descriptor)
    requires ArgumentInv(s) && HandedInv(s) && i < |s.rus| && RuStep(s, i, job).Some?
    ensures var t := RuStep(s, i, job).value; ArgumentInv(t) && HandedInv(t)
  {
    var t := RuStep(s, i, job).value;
    RuTouches(s, i, job);
    GrowthKeepsHanded(s, t);
  }

  lemma GrowthKeepsHanded(s: State, t: State)
    requires ArgumentInv(s) && HandedInv(s)
    requires s.accepted <= t.accepted && t.c == (if s.c == LSleep && t.c == LWoken then LWoken else s.c)
    requires t.args == s.args && t.unread == s.unread && t.late == s.late
    requires t.processed == s.processed && t.handed == s.handed
    ensures ArgumentInv(t) && HandedInv(t)
  {
    forall k | 0 <= k < |t.handed| ensures JobFrom(t.accepted, k, t.handed[k]) {
      JobFromGrows(s.accepted, t.accepted, k, s.handed[k]);
    }
    if t.c == LArguments {
      var k := |s.processed| - 1;
      forall f | f !in t.unread ensures FieldFrom(t.accepted, k, t.args, t.late, f) {
        assert FieldFrom(s.accepted, k, s.args, s.late, f);
      }
    }
  }

  lemma L1KeepsControl(s: State, f: Field)
    requires MutexInv(s) && CountInv(s) && L1Step(s, f).Some?
    ensures var t := L1Step(s, f).value; MutexInv(t) && CountInv(t)
  {
  }

  lemma L1KeepsSlot(s: State, f: Field)
    requires MutexInv(s) && SlotInv(s) && L1Step(s, f).Some?
    ensures SlotInv(L1Step(s, f).value)
  {
    forall g ensures SlotField(L1Step(s, f).value, g) {
      assert SlotField(s, g);
    }
  }

  /** The job being processed is the newest accepted one. */
  lemma BusySlot(s: State)
    requires MutexInv(s) && CountInv(s) && SlotInv(s) && s.c == LProcess
    ensures s.accepted != [] && s.slot == s.accepted[|s.accepted| - 1]
  {
    assert SlotField(s, Timestamp) && SlotField(s, FrameRx) && SlotField(s, SubframeRx);
    assert SlotField(s, Frame) && SlotField(s, Subframe);
  }

  lemma L1ProcessKeepsHanded(s: State, f: Field)
    requires Inv(s) && s.c != LArguments && L1Step(s, f).Some?
    ensures var t := L1Step(s, f).value; ArgumentInv(t) && HandedInv(t)
  {
    if s.c == LProcess {
      BusySlot(s);
    }
  }

  /** The field just read comes from the released job, or from its successor if that overtook the read. */
  lemma ReadFrom(s: State, f: Field)
    requires Inv(s) && s.c == LArguments && f in s.unread && L1Step(s, f).Some?
    ensures var t := L1Step(s, f).value; FieldFrom(t.accepted, |t.processed| - 1, t.args, t.late, f)
  {
    assert SlotField(s, f);
  }

  lemma OthersKeep(s: State, f: Field, g: Field)
    requires Inv(s) && s.c == LArguments && f in s.unread && L1Step(s, f).Some? && g !in s.unread
    ensures var t := L1Step(s, f).value; FieldFrom(t.accepted, |t.processed| - 1, t.args, t.late, g)
  {
    assert FieldFrom(s.accepted, |s.processed| - 1, s.args, s.late, g);
  }

  lemma AllRead(s: State, k: int)
    requires ArgumentInv(s) && s.c == LArguments && s.unread == {} && k == |s.processed| - 1
    ensures JobFrom(s.accepted, k, Handed(s.args, s.late))
  {
    forall g ensures FieldFrom(s.accepted, k, s.args, s.late, g) {
      assert g !in s.unread;
    }
  }

  lemma L1ReadKeepsHanded(s: State, f: Field)
    requires Inv(s) && s.c == LArguments && L1Step(s, f).Some?
    ensures var t := L1Step(s, f).value; ArgumentInv(t) && HandedInv(t)
  {
    var t := L1Step(s, f).value;
    if s.unread == {} {
      AllRead(s, |s.processed| - 1);
    } else {
      forall g | g !in t.unread ensures FieldFrom(t.accepted, |t.processed| - 1, t.args, t.late, g) {
        if g == f {
          ReadFrom(s, f);
        } else {
          OthersKeep(s, f, g);
        }
      }
    }
  }

  lemma StepKeepsInv(s: State, e: Event)
    requires Inv(s) && Step(s, e).Some?
    ensures Inv(Step(s, e).value)
  {
    match e {
      case Wakeup(i, job) =>
        RuKeepsControl(s, i, job);
        RuKeepsCount(s, i, job);
        RuKeepsSlot(s, i, job);
        RuKeepsHanded(s, i, job);
      case Run(f) =>
        L1KeepsControl(s, f);
        L1KeepsSlot(s, f);
        if s.c == LArguments { L1ReadKeepsHanded(s, f); } else { L1ProcessKeepsHanded(s, f); }
      case Spurious =>
        var t := Step(s, e).value;
        GrowthKeepsHanded(s, t);
        forall f ensures SlotField(t, f) {
          assert SlotField(s, f);
        }
    }
  }

  lemma InvAlways(n: nat, slot: Descriptor, run: seq<Event>, s: State)
    requires Exec(Step, Init(n, slot), run) == Some(s)
    ensures Inv(s)
  {
    forall x: State, e: Event | Inv(x) && Step(x, e).Some? ensures Inv(Step(x, e).value) {
      StepKeepsInv(x, e);
    }
    InvariantHolds(Step, Inv, Init(n, slot), run);
  }

  /**
   In every interleaving of any number of radio units with the L1 thread the counter stays in {-1, 0},
   every call that returned was accepted or dropped, the processed jobs are the accepted ones in order,
   and at most one accepted job is unprocessed.
   */
  lemma CallsAccounted(n: nat, slot: Descriptor, run: seq<Event>, s: State)
    requires Exec(Step, Init(n, slot), run) == Some(s)
    ensures && s.cnt in {-1, 0}
            && s.returned <= |s.accepted| + s.dropped <= s.returned + 1
            && (!s.owner.Ru? ==> s.returned == |s.accepted| + s.dropped)
            && s.processed <= s.accepted
            && |s.accepted| <= |s.processed| + 1
  {
    InvAlways(n, slot, run, s);
  }

  /** An accepted job is in flight: not yet processed, or processed and its slot not yet given back. */
  predicate InFlight(s: State) {
    |s.accepted| > |s.processed| || Processed(s.c)
  }

  /**
   When any radio unit makes its check, its job is accepted if no accepted job is in flight, and dropped if one is;
   nothing else decides, and everything else about the jobs stays as it is.
   */
  lemma AcceptedIff(n: nat, slot: Descriptor, run: seq<Event>, s: State, i: nat, job: Descriptor)
    requires Exec(Step, Init(n, slot), run) == Some(s) && i < |s.rus| && s.rus[i].pc == RCheck
    ensures Step(s, Wakeup(i, job)).Some?
    ensures var t := Step(s, Wakeup(i, job)).value;
            && t.accepted == s.accepted + (if InFlight(s) then [] else [s.rus[i].arg])
            && t.dropped == s.dropped + (if InFlight(s) then 1 else 0)
            && t.processed == s.processed && t.handed == s.handed
  {
    InvAlways(n, slot, run, s);
  }

  /** The job a radio unit checks with is the one its call was made with. */
  lemma CallKeepsJob(s: State, i: nat, job: Descriptor)
    requires i < |s.rus| && RuStep(s, i, job).Some?
    ensures RuStep(s, i, job).value.rus[i].arg == if s.rus[i].pc == RIdle then job else s.rus[i].arg
  {
  }

  /** No radio unit changes the descriptor between the end of the L1 thread's wait and its release. */
  lemma SlotStableWhileBusy(n: nat, slot: Descriptor, run: seq<Event>, s: State, e: Event)
    requires Exec(Step, Init(n, slot), run) == Some(s)
    requires Busy(s.c)
    requires Step(s, e).Some?
    ensures Step(s, e).value.slot == s.slot
  {
    InvAlways(n, slot, run, s);
  }

  /** A sleeping L1 thread is never forgotten: while it sleeps the slot is empty or a signal is on its way. */
  lemma NoLostWakeup(n: nat, slot: Descriptor, run: seq<Event>, s: State)
    requires Exec(Step, Init(n, slot), run) == Some(s)
    ensures s.c == LSleep && s.cnt == 0 ==>
              s.owner.Ru? && s.owner.id < |s.rus| && Storing(s.rus[s.owner.id].pc)
  {
    InvAlways(n, slot, run, s);
  }

  // ----- progress -----

  /** With at least one radio unit some thread can always take a step. */
  lemma NoDeadlock(n: nat, slot: Descriptor, run: seq<Event>, s: State) returns (e: Event)
    requires Exec(Step, Init(n, slot), run) == Some(s) && |s.rus| > 0
    ensures !e.Spurious? && Step(s, e).Some?
  {
    InvAlways(n, slot, run, s);
    match s.owner
    case Nobody => e := Wakeup(0, slot);
    case Ru(i) => e := Wakeup(i, slot);
    case L1 => e := Run(Timestamp);
  }

  /** The L1 thread, given the mutex when it wants it, is stuck only in its sleep. */
  lemma L1Goes(s: State)
    requires s.c != LSleep && (s.owner == Nobody || (L1Holds(s.c) && s.owner == L1))
    ensures exists f :: L1Step(s, f).Some?
  {
    if s.c == LArguments && s.unread != {} {
      var f :| f in s.unread;
      assert L1Step(s, f).Some?;
    } else {
      assert L1Step(s, Timestamp).Some?;
    }
  }

  /** When all radio units are idle and the L1 thread cannot go on, all that was accepted was passed on. */
  lemma NothingLeftBehind(n: nat, slot: Descriptor, run: seq<Event>, s: State)
    requires Exec(Step, Init(n, slot), run) == Some(s)
    requires forall i :: 0 <= i < |s.rus| ==> s.rus[i].pc == RIdle
    requires forall f :: L1Step(s, f).None?
    ensures s.processed == s.accepted && |s.handed| == |s.accepted| && s.returned == |s.accepted| + s.dropped
  {
    InvAlways(n, slot, run, s);
    if s.c != LSleep {
      L1Goes(s);
    }
  }

  function RuRank(pc: RuPc): nat {
    match pc
    case RIdle => 0
    case RLock => 1
    case RCheck => 2
    case RBusyUnlock => 3
    case RStore(f) => 3 + Order(f)
    case RSignal => 8
    case RUnlock => 11
  }

  function RuRanks(rus: seq<RuThread>): nat {
    if rus == [] then 0 else RuRanks(rus[..|rus| - 1]) + RuRank(rus[|rus| - 1].pc)
  }

  lemma {:induction false} RanksUpdate(rus: seq<RuThread>, i: nat, r: RuThread)
    requires i < |rus|
    ensures RuRanks(rus[i := r]) == RuRanks(rus) - RuRank(rus[i].pc) + RuRank(r.pc)
  {
    var next := rus[i := r];
    if i == |rus| - 1 {
      assert next[..|rus| - 1] == rus[..|rus| - 1];
    } else {
      RanksUpdate(rus[..|rus| - 1], i, r);
      assert next[..|rus| - 1] == rus[..|rus| - 1][i := r];
    }
  }

  lemma {:induction false} RanksBound(rus: seq<RuThread>)
    ensures RuRanks(rus) <= 11 * |rus|
  {
    if rus == [] {
    } else {
      RanksBound(rus[..|rus| - 1]);
    }
  }

  lemma {:induction false} RanksAtStart(n: nat, slot: Descriptor)
    ensures RuRanks(seq(n, _ => RuThread(RIdle, slot))) == 0
  {
    if n == 0 {
    } else {
      RanksAtStart(n - 1, slot);
      assert seq(n, _ => RuThread(RIdle, slot))[..n - 1] == seq(n - 1, _ => RuThread(RIdle, slot));
    }
  }

  function Unread(unread: set<Field>, f: Field): nat {
    if f in unread then 1 else 0
  }

  function AllUnread(unread: set<Field>): nat {
    Unread(unread, Timestamp) + Unread(unread, FrameRx) + Unread(unread, SubframeRx) + Unread(unread, Frame)
    + Unread(unread, Subframe)
  }

  function L1Rank(c: L1Pc, unread: set<Field>): nat {
    match c
    case LLock => 0
    case LWoken => 0
    case LCheck => 1
    case LSleep => 2
    case LUnlock => 2
    case LProcess => 3
    case LRelock => 4
    case LRelease => 5
    case LReleaseUnlock => 6
    case LArguments => 12 - AllUnread(unread)
  }

  /** Events accounted for by what the state has achieved. */
  function Paid(s: State): nat {
    RuRanks(s.rus) + 12 * s.returned + L1Rank(s.c, s.unread) + 13 * |s.handed| + 3 * s.spurious
  }

  /** What a step of radio unit `i` pays: more when it wakes the L1 thread. */
  lemma RuMoves(s: State, i: nat, job: Descriptor)
    requires i < |s.rus| && RuStep(s, i, job).Some?
    ensures var t := RuStep(s, i, job).value;
            && |t.rus| == |s.rus| && t.rus == s.rus[i := t.rus[i]]
            && t.unread == s.unread && t.handed == s.handed && t.spurious == s.spurious
            && 12 * t.returned + RuRank(t.rus[i].pc) + L1Rank(t.c, t.unread)
               >= 12 * s.returned + RuRank(s.rus[i].pc) + L1Rank(s.c, s.unread) + 1
  {
  }

  lemma RuPays(s: State, i: nat, job: Descriptor)
    requires i < |s.rus| && RuStep(s, i, job).Some?
    ensures Paid(RuStep(s, i, job).value) >= Paid(s) + 1 && |RuStep(s, i, job).value.rus| == |s.rus|
  {
    RuMoves(s, i, job);
    RanksUpdate(s.rus, i, RuStep(s, i, job).value.rus[i]);
  }

  lemma ReadPays(unread: set<Field>, f: Field)
    requires f in unread
    ensures AllUnread(unread) == AllUnread(unread - {f}) + 1
  {
  }

  lemma AllUnreadAtFirst()
    ensures AllUnread(FIELDS) == 5
  {
  }

  lemma L1Pays(s: State, f: Field)
    requires L1Step(s, f).Some?
    ensures Paid(L1Step(s, f).value) >= Paid(s) + 1
  {
    if s.c == LArguments {
      if s.unread != {} {
        ReadPays(s.unread, f);
      }
    } else {
      AllUnreadAtFirst();
    }
  }

  lemma StepPays(s: State, e: Event)
    requires Step(s, e).Some?
    ensures Paid(Step(s, e).value) >= Paid(s) + 1 && |Step(s, e).value.rus| == |s.rus|
  {
    match e {
      case Wakeup(i, job) => RuPays(s, i, job);
      case Run(f) => L1Pays(s, f);
      case Spurious =>
    }
  }

  lemma PaidBound(s: State)
    ensures Paid(s) <= 12 * s.returned + 13 * |s.handed| + 3 * s.spurious + 11 * |s.rus| + 12
  {
    RanksBound(s.rus);
  }

  /**
   Progress without any fairness assumption: however the threads are scheduled, every run is accounted for by
   twelve events per finished call and thirteen per hand-off, three per spurious wake-up and eleven per radio unit.
   */
  lemma ThroughputBound(n: nat, slot: Descriptor, run: seq<Event>, s: State)
    requires Exec(Step, Init(n, slot), run) == Some(s)
    ensures |run| <= 12 * s.returned + 13 * |s.handed| + 3 * s.spurious + 11 * n + 12
  {
    RanksAtStart(n, slot);
    assert Paid(Init(n, slot)) == 0;
    var inv: State -> bool := (x: State) => |x.rus| == n;
    forall x: State, e: Event | inv(x) && Step(x, e).Some? ensures inv(Step(x, e).value) {
      StepPays(x, e);
    }
    forall x: State, e: Event | inv(x) && Step(x, e).Some? ensures Paid(Step(x, e).value) >= Paid(x) + 1 {
      StepPays(x, e);
    }
    PotentialBounds(Step, inv, Paid, Init(n, slot), run);
    PaidBound(s);
  }

  // ----- what is passed on -----

  /**
   What `wakeup_tx` receives, since the arguments are read after the release: each field of the k-th
   call comes from the k-th processed job, or from the next accepted job exactly when that job's store
   overtook the read.  Nothing older or newer is ever passed on.
   */
  lemma HandedFields(n: nat, slot: Descriptor, run: seq<Event>, s: State, k: nat, f: Field)
    requires Exec(Step, Init(n, slot), run) == Some(s)
    requires k < |s.handed|
    ensures && k < |s.processed| <= |s.accepted| && s.processed[k] == s.accepted[k]
            && (f !in s.handed[k].late ==> Get(s.handed[k].job, f) == Get(s.accepted[k], f))
            && (f in s.handed[k].late ==>
                  k + 1 < |s.accepted| && Get(s.handed[k].job, f) == Get(s.accepted[k + 1], f))
  {
    InvAlways(n, slot, run, s);
    assert JobFrom(s.accepted, k, s.handed[k]);
    assert FieldFrom(s.accepted, k, s.handed[k].job, s.handed[k].late, f);
  }

  /**
   The promise that the L1 thread transmits for the subframe it received is therefore conditional: a field
   in which the next accepted job differs (timestamps and subframes always do) reaches `wakeup_tx` as it was
   processed exactly when the store of the next job did not overtake the read.
   */
  lemma HandedFieldIff(n: nat, slot: Descriptor, run: seq<Event>, s: State, k: nat, f: Field)
    requires Exec(Step, Init(n, slot), run) == Some(s)
    requires k < |s.handed|
    requires var a := s.accepted;
             k + 1 < |a| ==> Get(a[k], f) != Get(a[k + 1], f)
    ensures k < |s.processed| && (Get(s.handed[k].job, f) == Get(s.processed[k], f) <==> f !in s.handed[k].late)
  {
    HandedFields(n, slot, run, s, k, f);
  }

  /** The radio units offer no other jobs than `a` and `b` in the run. */
  ghost predicate Offers(run: seq<Event>, a: Descriptor, b: Descriptor) {
    forall i :: 0 <= i < |run| && run[i].Wakeup? ==> run[i].job == a || run[i].job == b
  }

  lemma Overwrite(rus: seq<RuThread>, i: nat, job: Descriptor, pc: RuPc, next: RuPc)
    requires i < |rus|
    ensures rus[i := RuThread(pc, job)][i := RuThread(next, job)] == rus[i := RuThread(next, job)]
  {
  }

  /** The state of radio unit `i`'s call after it was accepted. */
  function Stored(s: State, i: nat, job: Descriptor, pc: RuPc, slot: Descriptor): State
    requires i < |s.rus|
  {
    s.(cnt := 0, slot := slot, rus := s.rus[i := RuThread(pc, job)], owner := Ru(i), accepted := s.accepted + [job])
  }

  lemma AcceptCall(init: State, run: seq<Event>, s: State, i: nat, job: Descriptor)
    requires Exec(Step, init, run) == Some(s)
    requires i < |s.rus| && s.rus[i].pc == RIdle && s.owner == Nobody && s.cnt == -1
    ensures var e := Wakeup(i, job);
            Exec(Step, init, run + [e, e, e, e])
            == Some(Stored(s, i, job, RStore(FrameRx), s.slot.(timestamp := job.timestamp)))
  {
    Overwrite(s.rus, i, job, RLock, RCheck);
    Overwrite(s.rus, i, job, RCheck, RStore(Timestamp));
    Overwrite(s.rus, i, job, RStore(Timestamp), RStore(FrameRx));
    var e := Wakeup(i, job);
    var s1 := s.(rus := s.rus[i := RuThread(RLock, job)]);
    var s2 := s.(rus := s.rus[i := RuThread(RCheck, job)], owner := Ru(i));
    ExecFour(Step, init, run, s, e, s1, e, s2, e, Stored(s, i, job, RStore(Timestamp), s.slot),
             e, Stored(s, i, job, RStore(FrameRx), s.slot.(timestamp := job.timestamp)));
  }

  lemma StoreRest(init: State, run: seq<Event>, s: State, i: nat, job: Descriptor)
    requires i < |s.rus|
    requires Exec(Step, init, run)
             == Some(Stored(s, i, job, RStore(FrameRx), s.slot.(timestamp := job.timestamp)))
    ensures var e := Wakeup(i, job);
            Exec(Step, init, run + [e, e, e, e]) == Some(Stored(s, i, job, RSignal, job))
  {
    Overwrite(s.rus, i, job, RStore(FrameRx), RStore(SubframeRx));
    Overwrite(s.rus, i, job, RStore(SubframeRx), RStore(Frame));
    Overwrite(s.rus, i, job, RStore(Frame), RStore(Subframe));
    Overwrite(s.rus, i, job, RStore(Subframe), RSignal);
    var e := Wakeup(i, job);
    var d1 := s.slot.(timestamp := job.timestamp);
    var d2 := d1.(frameRx := job.frameRx);
    var d3 := d2.(subframeRx := job.subframeRx);
    ExecFour(Step, init, run, Stored(s, i, job, RStore(FrameRx), d1),
             e, Stored(s, i, job, RStore(SubframeRx), d2), e, Stored(s, i, job, RStore(Frame), d3),
             e, Stored(s, i, job, RStore(Subframe), d3.(frame := job.frame)), e, Stored(s, i, job, RSignal, job));
  }

  lemma FinishCall(init: State, run: seq<Event>, s: State, i: nat, job: Descriptor)
    requires i < |s.rus| && s.c != LSleep
    requires Exec(Step, init, run) == Some(Stored(s, i, job, RSignal, job))
    ensures var e := Wakeup(i, job);
            Exec(Step, init, run + [e] + [e])
            == Some(Stored(s, i, job, RIdle, job).(owner := Nobody, returned := s.returned + 1))
  {
    Overwrite(s.rus, i, job, RSignal, RUnlock);
    Overwrite(s.rus, i, job, RUnlock, RIdle);
    var e := Wakeup(i, job);
    ExecMore(Step, init, run, Stored(s, i, job, RSignal, job), e, Stored(s, i, job, RUnlock, job));
    ExecMore(Step, init, run + [e], Stored(s, i, job, RUnlock, job),
             e, Stored(s, i, job, RIdle, job).(owner := Nobody, returned := s.returned + 1));
  }

  /** With a free slot and an awake L1 thread, ten events make a whole accepted call of any radio unit. */
  lemma WakeupCall(init: State, run: seq<Event>, s: State, i: nat, job: Descriptor, a: Descriptor, b: Descriptor)
    returns (run': seq<Event>)
    requires Exec(Step, init, run) == Some(s) && Offers(run, a, b) && (job == a || job == b)
    requires i < |s.rus| && s.rus[i].pc == RIdle && s.owner == Nobody && s.cnt == -1 && s.c != LSleep
    ensures Exec(Step, init, run')
            == Some(Stored(s, i, job, RIdle, job).(owner := Nobody, returned := s.returned + 1))
    ensures Offers(run', a, b)
  {
    var e := Wakeup(i, job);
    AcceptCall(init, run, s, i, job);
    run' := run + [e, e, e, e];
    StoreRest(init, run', s, i, job);
    run' := run' + [e, e, e, e];
    FinishCall(init, run', s, i, job);
    run' := run' + [e] + [e];
  }

  /** The L1 thread takes the job in the slot, processes and releases it, and reads one argument. */
  lemma ProcessAndReadFrame(init: State, run: seq<Event>, s: State, a: Descriptor, b: Descriptor)
    returns (run': seq<Event>)
    requires Exec(Step, init, run) == Some(s) && Offers(run, a, b)
    requires s.owner == Nobody && s.cnt == 0 && s.c == LLock && |s.accepted| == |s.processed| + 1
    ensures Exec(Step, init, run')
            == Some(s.(cnt := -1, c := LArguments, processed := s.processed + [s.slot], late := {},
                       args := s.args.(frame := s.slot.frame), unread := FIELDS - {Frame}))
    ensures Offers(run', a, b)
  {
    var e := Run(Frame);
    var s1 := s.(owner := L1, c := LCheck);
    var s2 := s1.(c := LUnlock);
    var s3 := s.(c := LProcess);
    var s4 := s.(c := LRelock, processed := s.processed + [s.slot]);
    ExecFour(Step, init, run, s, e, s1, e, s2, e, s3, e, s4);
    run' := run + [e, e, e, e];
    var s5 := s4.(owner := L1, c := LRelease);
    var s6 := s5.(cnt := -1, c := LReleaseUnlock);
    var s7 := s6.(owner := Nobody, c := LArguments, unread := FIELDS, late := {});
    var s8 := s7.(args := s.args.(frame := s.slot.frame), unread := FIELDS - {Frame});
    ExecFour(Step, init, run', s4, e, s5, e, s6, e, s7, e, s8);
    run' := run' + [e, e, e, e];
  }

  /** One argument read after it was overwritten. */
  lemma ReadLate(init: State, run: seq<Event>, s: State, f: Field) returns (t: State)
    requires Exec(Step, init, run) == Some(s)
    requires s.owner == Nobody && s.c == LArguments && f in s.unread && |s.accepted| > |s.processed|
    ensures t == s.(args := Set(s.args, f, Get(s.slot, f)), unread := s.unread - {f}, late := s.late + {f})
    ensures Exec(Step, init, run + [Run(f)]) == Some(t)
  {
    t := s.(args := Set(s.args, f, Get(s.slot, f)), unread := s.unread - {f}, late := s.late + {f});
    ExecMore(Step, init, run, s, Run(f), t);
  }

  /** The L1 thread reads its other arguments after they were overwritten, and calls `wakeup_tx`. */
  lemma ReadOverwritten(init: State, run: seq<Event>, s: State, a: Descriptor, b: Descriptor)
    returns (run': seq<Event>)
    requires Exec(Step, init, run) == Some(s) && Offers(run, a, b)
    requires s.owner == Nobody && s.c == LArguments && s.unread == FIELDS - {Frame} && s.late == {}
    requires |s.accepted| > |s.processed|
    ensures Exec(Step, init, run').Some? && Offers(run', a, b)
    ensures var t := Exec(Step, init, run').value;
            && t.processed == s.processed && t.accepted == s.accepted
            && t.handed == s.handed + [Handed(s.slot.(frame := s.args.frame), FIELDS - {Frame})]
  {
    run' := run + [Run(Timestamp)];
    var s1 := ReadLate(init, run, s, Timestamp);
    var s2 := ReadLate(init, run', s1, FrameRx);
    run' := run' + [Run(FrameRx)];
    var s3 := ReadLate(init, run', s2, SubframeRx);
    run' := run' + [Run(SubframeRx)];
    var s4 := ReadLate(init, run', s3, Subframe);
    run' := run' + [Run(Subframe)];
    assert s4.unread == {} && s4.late == FIELDS - {Frame} && s4.args == s.slot.(frame := s.args.frame);
    ExecMore(Step, init, run', s4, Run(Frame),
             s4.(handed := s.handed + [Handed(s4.args, s4.late)], c := LLock));
    run' := run' + [Run(Frame)];
  }

  /** A job of any radio unit is accepted and processed on some run. */
  lemma AnyUnitServed(n: nat, i: nat, slot: Descriptor, job: Descriptor) returns (run: seq<Event>)
    requires i < n
    ensures Exec(Step, Init(n, slot), run).Some?
    ensures var s := Exec(Step, Init(n, slot), run).value; s.accepted == s.processed == [job] && s.dropped == 0
  {
    var init := Init(n, slot);
    run := WakeupCall(init, [], init, i, job, job, job);
    run := ProcessAndReadFrame(init, run, Exec(Step, init, run).value, job, job);
  }

  /**
   The promise does fail: for any two jobs, of one radio unit or of two, there is a run in which `wakeup_tx` gets
   the frame of the first job with all else of the second.
   */
  lemma TornJobReachable(n: nat, i: nat, j: nat, slot: Descriptor, a: Descriptor, b: Descriptor)
    returns (run: seq<Event>)
    requires i < n && j < n
    ensures Exec(Step, Init(n, slot), run).Some? && Offers(run, a, b)
    ensures var s := Exec(Step, Init(n, slot), run).value;
            s.accepted == [a, b] && s.processed == [a] && s.handed == [Handed(b.(frame := a.frame), FIELDS - {Frame})]
  {
    var init := Init(n, slot);
    run := WakeupCall(init, [], init, i, a, a, b);
    var s1 := Exec(Step, init, run).value;
    run := ProcessAndReadFrame(init, run, s1, a, b);
    var s2 := Exec(Step, init, run).value;
    run := WakeupCall(init, run, s2, j, b, a, b);
    var s3 := Exec(Step, init, run).value;
    run := ReadOverwritten(init, run, s3, a, b);
  }
}
