/**
 The eNB pipeline end to end: receive time of the radio units, hand-off to the L1 thread, hand-off to the
 transmit thread.  The question is whether the frame and subframe under which a subframe is transmitted
 are those of its timestamp.
 */
module EnbChain {
  import opened Transition
  import opened LteTime
  import Clock = RxClock
  import Rx = RxHandoff
  import Tx = TxRendezvous

  /** `wakeup_rxtx` computed the job from some receive time. */
  ghost predicate FromRadio(job: Job, ahead: nat, spt: nat)
    requires ValidSpt(spt)
  {
    exists ts: nat :: job == Offered(ts, ahead, spt)
  }

  lemma FromRadioConsistent(job: Job, ahead: nat, spt: nat)
    requires ValidSpt(spt) && ahead <= 10 && FromRadio(job, ahead, spt)
    ensures Consistent(job, spt)
  {
    var ts: nat :| job == Offered(ts, ahead, spt);
    AheadConsistent(ts, ahead, spt);
  }

  /** Whatever the phase, a radio unit in sync computes such a job from its fields. */
  lemma ClockOffers(c: Clock.Clock, k: Clock.Counters, m: nat, phase: nat, ahead: nat, spt: nat)
    requires ValidSpt(spt) && Clock.InSync(c, k, m, phase, spt)
    ensures FromRadio(JobFor(c.frameRx, c.ttiRx, c.timestampRx, ahead, spt), ahead, spt)
  {
    DecodeAt(m, phase, spt);
    assert JobFor(c.frameRx, c.ttiRx, c.timestampRx, ahead, spt) == Offered(m * spt + phase, ahead, spt);
  }

  /** The radio units only offer jobs computed from their receive time. */
  ghost predicate RadioRun(run: seq<Rx.Event>, ahead: nat, spt: nat)
    requires ValidSpt(spt)
  {
    forall i :: 0 <= i < |run| && run[i].Wakeup? ==> FromRadio(Rx.JobOf(run[i].job), ahead, spt)
  }

  // ----- the first hand-off -----

  ghost predicate RxJobs(s: Rx.State, ahead: nat, spt: nat)
    requires ValidSpt(spt)
  {
    && (forall k :: 0 <= k < |s.accepted| ==> FromRadio(Rx.JobOf(s.accepted[k]), ahead, spt))
    && forall i :: 0 <= i < |s.rus| && s.rus[i].pc != Rx.RIdle ==>
                  FromRadio(Rx.JobOf(s.rus[i].arg), ahead, spt)
  }

  lemma RxStepKeepsJobs(s: Rx.State, e: Rx.Event, ahead: nat, spt: nat)
    requires ValidSpt(spt) && RxJobs(s, ahead, spt) && Rx.Step(s, e).Some?
    requires e.Wakeup? ==> FromRadio(Rx.JobOf(e.job), ahead, spt)
    ensures RxJobs(Rx.Step(s, e).value, ahead, spt)
  {
  }

  lemma {:induction false} RxRunJobs(n: nat, slot: Rx.Descriptor, run: seq<Rx.Event>, ahead: nat, spt: nat)
    requires ValidSpt(spt) && RadioRun(run, ahead, spt) && Exec(Rx.Step, Rx.Init(n, slot), run).Some?
    ensures RxJobs(Exec(Rx.Step, Rx.Init(n, slot), run).value, ahead, spt)
    decreases |run|
  {
    if run == [] {
    } else {
      var most := run[..|run| - 1];
      RxRunJobs(n, slot, most, ahead, spt);
      RxStepKeepsJobs(Exec(Rx.Step, Rx.Init(n, slot), most).value, run[|run| - 1], ahead, spt);
    }
  }

  /** Every job accepted, and so every job the L1 thread processes, has the frame and subframe of its timestamp. */
  lemma ProcessedConsistent(n: nat, slot: Rx.Descriptor, run: seq<Rx.Event>, s: Rx.State, ahead: nat, spt: nat)
    requires ValidSpt(spt) && ahead <= 10 && RadioRun(run, ahead, spt)
    requires Exec(Rx.Step, Rx.Init(n, slot), run) == Some(s)
    ensures s.processed <= s.accepted
    ensures forall k :: 0 <= k < |s.accepted| ==> Consistent(Rx.JobOf(s.accepted[k]), spt)
  {
    RxRunJobs(n, slot, run, ahead, spt);
    Rx.InvAlways(n, slot, run, s);
    forall k | 0 <= k < |s.accepted| ensures Consistent(Rx.JobOf(s.accepted[k]), spt) {
      FromRadioConsistent(Rx.JobOf(s.accepted[k]), ahead, spt);
    }
  }

  // ----- torn jobs -----

  /** The job accepted after job `k`, or job `k` again while there is none. */
  function Next(accepted: seq<Rx.Descriptor>, k: nat): Job
    requires k < |accepted|
  {
    Rx.JobOf(if k + 1 < |accepted| then accepted[k + 1] else accepted[k])
  }

  /** The fields of hand-off `k` were not split by the next job's store in a way that matters. */
  predicate Untorn(s: Rx.State, k: nat)
    requires k < |s.handed| && k < |s.accepted|
  {
    Coherent(Rx.JobOf(s.accepted[k]), Next(s.accepted, k), s.handed[k].late)
  }

  /** A job put together from two; `late` says which fields come from the second. */
  function Mix(a: Job, b: Job, late: set<Rx.Field>): Job {
    Job(if Rx.Frame in late then b.frame else a.frame,
        if Rx.Subframe in late then b.subframe else a.subframe,
        if Rx.Timestamp in late then b.timestamp else a.timestamp)
  }

  /** Frame and subframe stem from the same job as the timestamp, or the two jobs agree in them. */
  predicate Coherent(a: Job, b: Job, late: set<Rx.Field>) {
    && ((Rx.Subframe in late <==> Rx.Timestamp in late) || a.subframe == b.subframe)
    && ((Rx.Frame in late <==> Rx.Timestamp in late) || a.frame == b.frame)
  }

  lemma MixConsistentIff(a: Job, b: Job, late: set<Rx.Field>, spt: nat)
    requires ValidSpt(spt) && Consistent(a, spt) && Consistent(b, spt)
    ensures Consistent(Mix(a, b, late), spt) <==> Coherent(a, b, late)
  {
  }

  /** `Coherent` for jobs of any two absolute subframes, in terms of those. */
  lemma CoherentIff(m: nat, phase: nat, m2: nat, phase2: nat, late: set<Rx.Field>, ahead: nat, spt: nat)
    requires ValidSpt(spt) && phase < spt && phase2 < spt && ahead <= 10
    ensures Coherent(Offered(m * spt + phase, ahead, spt), Offered(m2 * spt + phase2, ahead, spt), late) <==>
            && ((Rx.Subframe in late <==> Rx.Timestamp in late) || (m + ahead) % 10 == (m2 + ahead) % 10)
            && ((Rx.Frame in late <==> Rx.Timestamp in late)
                || (m + ahead) / 10 % 1024 == (m2 + ahead) / 10 % 1024)
  {
    OfferedAt(m, phase, ahead, spt);
    OfferedAt(m2, phase2, ahead, spt);
  }

  lemma NextFrameDiffers(m: nat)
    ensures m % 10 != (m + 1) % 10
    ensures m / 10 % 1024 == (m + 1) / 10 % 1024 <==> m % 10 != 9
  {
    var q := m / 10;
    if m % 10 == 9 {
      assert (m + 1) / 10 == q + 1;
      assert q % 1024 != (q + 1) % 1024;
    } else {
      assert (m + 1) / 10 == q;
    }
  }

  /** When no call was dropped in between, a torn frame is harmless except at the end of a frame. */
  lemma ConsecutiveCoherentIff(m: nat, phase: nat, late: set<Rx.Field>, ahead: nat, spt: nat)
    requires ValidSpt(spt) && phase < spt && ahead <= 10
    ensures Coherent(Offered(m * spt + phase, ahead, spt), Offered((m + 1) * spt + phase, ahead, spt), late) <==>
            && (Rx.Subframe in late <==> Rx.Timestamp in late)
            && ((Rx.Frame in late <==> Rx.Timestamp in late) || (m + ahead) % 10 != 9)
  {
    CoherentIff(m, phase, m + 1, phase, late, ahead, spt);
    NextFrameDiffers(m + ahead);
    assert m + 1 + ahead == m + ahead + 1;
  }

  /**
   In every interleaving, with or without dropped calls: the k-th transmit call is consistent if and only if
   the reads of the descriptor were not split by the store of the next job in a way that matters.
   */
  lemma HandedConsistentIff(n: nat, slot: Rx.Descriptor, run: seq<Rx.Event>, s: Rx.State, k: nat, ahead: nat, spt: nat)
    requires ValidSpt(spt) && ahead <= 10 && RadioRun(run, ahead, spt)
    requires Exec(Rx.Step, Rx.Init(n, slot), run) == Some(s) && k < |s.handed|
    ensures k < |s.accepted|
    ensures Consistent(Rx.JobOf(s.handed[k].job), spt) <==> Untorn(s, k)
  {
    Rx.HandedFields(n, slot, run, s, k, Rx.Timestamp);
    Rx.HandedFields(n, slot, run, s, k, Rx.Frame);
    Rx.HandedFields(n, slot, run, s, k, Rx.Subframe);
    ProcessedConsistent(n, slot, run, s, ahead, spt);
    var a, b, late := Rx.JobOf(s.accepted[k]), Next(s.accepted, k), s.handed[k].late;
    assert Rx.JobOf(s.handed[k].job) == Mix(a, b, late);
    MixConsistentIff(a, b, late, spt);
  }

  /** The descriptor offered `phase` samples into absolute subframe `m`. */
  function DescriptorAt(m: nat, phase: nat, ahead: nat, spt: nat): Rx.Descriptor
    requires ValidSpt(spt)
  {
    var job := Offered(m * spt + phase, ahead, spt);
    Rx.Descriptor(job.timestamp, m / 10 % 1024, m % 10, job.frame, job.subframe)
  }

  /**
   It does go wrong, with any number of radio units: two consecutive subframes around the end of a transmitted frame,
   and `wakeup_tx` is called with a frame that is not that of the timestamp.
   */
  lemma InconsistentCallReachable(n: nat, slot: Rx.Descriptor, m: nat, phase: nat, ahead: nat, spt: nat)
    returns (run: seq<Rx.Event>)
    requires n > 0 && ValidSpt(spt) && phase < spt && ahead <= 10 && (m + ahead) % 10 == 9
    ensures RadioRun(run, ahead, spt) && Exec(Rx.Step, Rx.Init(n, slot), run).Some?
    ensures var s := Exec(Rx.Step, Rx.Init(n, slot), run).value;
            |s.handed| == 1 && !Consistent(Rx.JobOf(s.handed[0].job), spt)
  {
    var a, b := DescriptorAt(m, phase, ahead, spt), DescriptorAt(m + 1, phase, ahead, spt);
    run := Rx.TornJobReachable(n, 0, n - 1, slot, a, b);
    DescriptorOffered(m, phase, ahead, spt);
    DescriptorOffered(m + 1, phase, ahead, spt);
    TornInconsistent(m, phase, ahead, spt);
  }

  lemma DescriptorOffered(m: nat, phase: nat, ahead: nat, spt: nat)
    requires ValidSpt(spt)
    ensures FromRadio(Rx.JobOf(DescriptorAt(m, phase, ahead, spt)), ahead, spt)
  {
    assert Rx.JobOf(DescriptorAt(m, phase, ahead, spt)) == Offered(m * spt + phase, ahead, spt);
  }

  lemma TornInconsistent(m: nat, phase: nat, ahead: nat, spt: nat)
    requires ValidSpt(spt) && phase < spt && ahead <= 10 && (m + ahead) % 10 == 9
    ensures var a, b := DescriptorAt(m, phase, ahead, spt), DescriptorAt(m + 1, phase, ahead, spt);
            !Consistent(Rx.JobOf(b.(frame := a.frame)), spt)
  {
    var a, b := Offered(m * spt + phase, ahead, spt), Offered((m + 1) * spt + phase, ahead, spt);
    var late := Rx.FIELDS - {Rx.Frame};
    DescriptorOffered(m, phase, ahead, spt);
    DescriptorOffered(m + 1, phase, ahead, spt);
    FromRadioConsistent(a, ahead, spt);
    FromRadioConsistent(b, ahead, spt);
    MixConsistentIff(a, b, late, spt);
    ConsecutiveCoherentIff(m, phase, late, ahead, spt);
  }

  // ----- the second hand-off -----

  /** The calls of `wakeup_tx` are those the L1 thread made, in order. */
  ghost predicate CallsFrom(calls: seq<Tx.Call>, handed: seq<Rx.Handed>) {
    |calls| <= |handed| && forall i :: 0 <= i < |calls| ==> calls[i].job == Rx.JobOf(handed[i].job)
  }

  /** Which call the k-th call that is not for an uplink subframe is. */
  function CallIndex(calls: seq<Tx.Call>, k: nat): (i: nat)
    requires k < |Tx.NonUplink(calls)|
    ensures i < |calls| && !calls[i].uplink && calls[i].job == Tx.NonUplink(calls)[k]
    decreases |calls|
  {
    if k < |Tx.NonUplink(calls[..|calls| - 1])| then CallIndex(calls[..|calls| - 1], k) else |calls| - 1
  }

  /**
   Two protocols in a row, any interleaving of each: the k-th job that the transmit thread forwards is the one
   of the k-th call that is not for an uplink subframe, and its frame and subframe are those of its timestamp
   if and only if that one hand-off was not torn in a way that matters.
   */
  lemma TransmittedConsistentIff(
      n: nat, rxSlot: Rx.Descriptor, rxRun: seq<Rx.Event>, rx: Rx.State,
      txSlot: Job, txRun: seq<Tx.Event>, tx: Tx.State, k: nat, ahead: nat, spt: nat)
    requires ValidSpt(spt) && ahead <= 10 && RadioRun(rxRun, ahead, spt)
    requires Exec(Rx.Step, Rx.Init(n, rxSlot), rxRun) == Some(rx)
    requires Exec(Tx.Step, Tx.Init(txSlot), txRun) == Some(tx) && CallsFrom(tx.calls, rx.handed)
    requires k < |tx.forwarded|
    ensures k < |Tx.NonUplink(tx.calls)|
    ensures var i := CallIndex(tx.calls, k);
            && i < |rx.handed| && i < |rx.accepted| && tx.forwarded[k] == Rx.JobOf(rx.handed[i].job)
            && (Consistent(tx.forwarded[k], spt) <==> Untorn(rx, i))
  {
    Tx.JobsDeliveredInOrder(txSlot, txRun, tx);
    assert tx.forwarded[k] == Tx.NonUplink(tx.calls)[k];
    HandedConsistentIff(n, rxSlot, rxRun, rx, CallIndex(tx.calls, k), ahead, spt);
  }
}
