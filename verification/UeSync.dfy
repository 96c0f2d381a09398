/**
 The hand-off between the UE main thread and the initial-synchronisation thread.

 The main thread fills the receive buffer and raises `instance_cnt_synch` from -1 to 0; the
 synchronisation thread works on the buffer and lowers the counter.  The main thread decides from a
 snapshot of the counter and of `is_synchronized` that it takes and then acts on without the mutex.
 */
module UeSync {
  import opened Transition

  datatype Owner = Free | ByMain | BySync

  /** `MFill` writes the real receive buffer for a synchronisation attempt, `MStream` in steady state. */
  datatype MainPc =
    | MLock | MSnapshot | MUnlock | MDecide | MFill | MDummy | MStream
    | MPostLock | MIncrement | MSignal | MBusyExit | MPostUnlock

  /**
   `SRun` is `initial_sync` working on the buffer; `SDump` is the rx_dump_frame code that writes the buffer to
   a file after `is_synchronized` was set, and then ends the program.
   */
  datatype SyncPc =
    | SLock | SCheck | SSleep | SWoken | SUnlock | SRun
    | SSetLock | SSet | SSetUnlock | SDump | SClearLock | SClear | SClearUnlock
    | SDecLock | SDecrement | SDecUnlock

  /**
   What one attempt does: fail, find a cell while scanning the carrier, which only ends the scan, synchronise, or
   synchronise in rx_dump_frame mode.  There an even frame is dumped; an odd one is not read but given up
   (`revert`), and `is_synchronized` is cleared again.
   */
  datatype Outcome = Failed | Scanned | Synchronised | Dumping(revert: bool)

  /** The outcomes after which `is_synchronized` is set, be it for a while. */
  predicate Sets(outcome: Outcome) {
    outcome == Synchronised || outcome.Dumping?
  }

  datatype State = State(
    cnt: int, synced: bool, owner: Owner,
    m: MainPc, seenCnt: int, seenSynced: bool,
    y: SyncPc, outcome: Outcome, finished: seq<Outcome>)

  datatype Event = Main | Sync(outcome: Outcome) | Spurious

  function Init(): State {
    State(-1, false, Free, MLock, -1, false, SLock, Failed, [])
  }

  function MainStep(s: State): Option<State> {
    match s.m
    case MLock => if s.owner == Free then Some(s.(owner := ByMain, m := MSnapshot)) else None
    case MSnapshot => Some(s.(seenCnt := s.cnt, seenSynced := s.synced, m := MUnlock))
    case MUnlock => Some(s.(owner := Free, m := MDecide))
    case MDecide =>
      if s.seenSynced then Some(s.(m := MStream))
      else if s.seenCnt < 0 then Some(s.(m := MFill))
      else Some(s.(m := MDummy))
    case MFill => Some(s.(m := MPostLock))
    case MDummy => Some(s.(m := MLock))
    case MStream => Some(s.(m := MLock))
    case MPostLock => if s.owner == Free then Some(s.(owner := ByMain, m := MIncrement)) else None
    case MIncrement => Some(s.(cnt := s.cnt + 1, m := if s.cnt + 1 == 0 then MSignal else MBusyExit))
    case MSignal => Some(s.(y := if s.y == SSleep then SWoken else s.y, m := MPostUnlock))
    case MBusyExit => None
    case MPostUnlock => Some(s.(owner := Free, m := MLock))
  }

  function AfterSetUnlock(outcome: Outcome): SyncPc {
    match outcome
    case Dumping(false) => SDump
    case Dumping(true) => SClearLock
    case _ => SDecLock
  }

  function SyncStep(s: State, outcome: Outcome): Option<State> {
    match s.y
    case SLock => if s.owner == Free then Some(s.(owner := BySync, y := SCheck)) else None
    case SCheck => if s.cnt < 0 then Some(s.(owner := Free, y := SSleep)) else Some(s.(y := SUnlock))
    case SSleep => None
    case SWoken => if s.owner == Free then Some(s.(owner := BySync, y := SCheck)) else None
    case SUnlock => Some(s.(owner := Free, y := SRun))
    case SRun => Some(s.(outcome := outcome, y := if Sets(outcome) then SSetLock else SDecLock))
    case SSetLock => if s.owner == Free then Some(s.(owner := BySync, y := SSet)) else None
    case SSet => Some(s.(synced := true, y := SSetUnlock))
    case SSetUnlock => Some(s.(owner := Free, y := AfterSetUnlock(s.outcome)))
    case SDump => None
    case SClearLock => if s.owner == Free then Some(s.(owner := BySync, y := SClear)) else None
    case SClear => Some(s.(synced := false, y := SClearUnlock))
    case SClearUnlock => Some(s.(owner := Free, y := SDecLock))
    case SDecLock => if s.owner == Free then Some(s.(owner := BySync, y := SDecrement)) else None
    case SDecrement => Some(s.(cnt := s.cnt - 1, y := SDecUnlock, finished := s.finished + [s.outcome]))
    case SDecUnlock => Some(s.(owner := Free, y := SLock))
  }

  function Step(s: State, e: Event): Option<State> {
    match e
    case Main => MainStep(s)
    case Sync(outcome) => SyncStep(s, outcome)
    case Spurious => if s.y == SSleep then Some(s.(y := SWoken)) else None
  }

  predicate MainHolds(m: MainPc) {
    m.MSnapshot? || m.MUnlock? || m.MIncrement? || m.MSignal? || m.MBusyExit? || m.MPostUnlock?
  }

  predicate SyncHolds(y: SyncPc) {
    y.SCheck? || y.SUnlock? || y.SSet? || y.SSetUnlock? || y.SClear? || y.SClearUnlock?
    || y.SDecrement? || y.SDecUnlock?
  }

  /** The synchronisation thread has taken an attempt and not yet given the counter back. */
  predicate Attempting(y: SyncPc) {
    y.SUnlock? || y.SRun? || y.SSetLock? || y.SSet? || AfterSet(y)
  }

  /** `is_synchronized` has been written in the current attempt, or the attempt failed. */
  predicate AfterSet(y: SyncPc) {
    y.SSetUnlock? || y.SDump? || y.SClearLock? || y.SClear? || y.SClearUnlock? || y.SDecLock? || y.SDecrement?
  }

  /** The main thread has decided to start an attempt and has not yet raised the counter. */
  predicate Starting(s: State) {
    || s.m.MFill? || s.m.MPostLock? || s.m.MIncrement?
    || ((s.m.MUnlock? || s.m.MDecide?) && !s.seenSynced && s.seenCnt < 0)
  }

  /** The main thread acts on a snapshot that showed the UE synchronised. */
  predicate Streaming(s: State) {
    s.m.MStream? || ((s.m.MUnlock? || s.m.MDecide?) && s.seenSynced)
  }

  ghost predicate ControlInv(s: State) {
    && s.cnt in {-1, 0}
    && (s.owner == ByMain <==> MainHolds(s.m))
    && (s.owner == BySync <==> SyncHolds(s.y))
    && (Attempting(s.y) ==> s.cnt == 0)
    && (s.y == SDecUnlock ==> s.cnt == -1)
    && (Starting(s) ==> s.cnt == -1)
    && (s.m == MSignal || s.m == MPostUnlock ==> s.cnt == 0)
    && s.m != MBusyExit
    && (s.y == SSleep ==> s.cnt == -1 || s.m == MSignal)
  }

  /** While the UE counts as synchronised, or the main thread believes so, no attempt is ahead of its end. */
  ghost predicate SyncedInv(s: State) {
    && (s.synced ==> !Starting(s))
    && (s.synced || Streaming(s) ==> s.cnt == -1 || AfterSet(s.y))
  }

  ghost predicate Inv(s: State) {
    ControlInv(s) && SyncedInv(s)
  }

  lemma MainKeepsControl(s: State)
    requires ControlInv(s) && MainStep(s).Some?
    ensures ControlInv(MainStep(s).value)
  {
  }

  lemma MainKeepsSynced(s: State)
    requires ControlInv(s) && SyncedInv(s) && MainStep(s).Some?
    ensures SyncedInv(MainStep(s).value)
  {
  }

  lemma SyncKeepsControl(s: State, outcome: Outcome)
    requires ControlInv(s) && SyncStep(s, outcome).Some?
    ensures ControlInv(SyncStep(s, outcome).value)
  {
  }

  lemma SyncKeepsSynced(s: State, outcome: Outcome)
    requires ControlInv(s) && SyncedInv(s) && SyncStep(s, outcome).Some?
    ensures SyncedInv(SyncStep(s, outcome).value)
  {
  }

  lemma InvAlways(run: seq<Event>, s: State)
    requires Exec(Step, Init(), run) == Some(s)
    ensures Inv(s)
  {
    forall x: State, e: Event | Inv(x) && Step(x, e).Some? ensures Inv(Step(x, e).value) {
      match e {
        case Main => MainKeepsControl(x); MainKeepsSynced(x);
        case Sync(outcome) => SyncKeepsControl(x, outcome); SyncKeepsSynced(x, outcome);
        case Spurious =>
      }
    }
    InvariantHolds(Step, Inv, Init(), run);
  }

  /**
   In every interleaving the counter stays in {-1, 0}, so the "UE sync thread busy" exit is unreachable;
   while it fills the buffer for an attempt the main thread finds the synchronisation thread idle; and a
   sleeping synchronisation thread has nothing to do or is about to be signalled.
   */
  lemma SyncHandoffSafe(run: seq<Event>, s: State)
    requires Exec(Step, Init(), run) == Some(s)
    ensures && s.cnt in {-1, 0} && s.m != MBusyExit
            && (s.m == MFill ==> s.cnt == -1 && !Attempting(s.y))
            && (s.y == SSleep && s.cnt == 0 ==> s.m == MSignal)
  {
    InvAlways(run, s);
  }

  // ----- what the flag means -----

  /** `is_synchronized` at each point of the synchronisation thread, against the outcomes. */
  ghost predicate FlagInv(s: State) {
    && (Attempting(s.y) ==> Synchronised !in s.finished)
    && (match s.y
        case SUnlock => !s.synced
        case SRun => !s.synced
        case SSetLock => !s.synced && Sets(s.outcome)
        case SSet => !s.synced && Sets(s.outcome)
        case SSetUnlock => s.synced && Sets(s.outcome)
        case SDump => s.synced && s.outcome == Dumping(false)
        case SClearLock => s.synced && s.outcome == Dumping(true)
        case SClear => s.synced && s.outcome == Dumping(true)
        case SClearUnlock => !s.synced && s.outcome == Dumping(true)
        case SDecLock => s.synced <==> s.outcome == Synchronised
        case SDecrement => s.synced <==> s.outcome == Synchronised
        case _ => s.synced <==> Synchronised in s.finished)
  }

  lemma MainKeepsFlag(s: State)
    requires FlagInv(s) && MainStep(s).Some?
    ensures FlagInv(MainStep(s).value)
  {
  }

  lemma SyncKeepsFlag(s: State, outcome: Outcome)
    requires FlagInv(s) && (s.y == SCheck && s.cnt >= 0 ==> !s.synced) && SyncStep(s, outcome).Some?
    ensures FlagInv(SyncStep(s, outcome).value)
  {
  }

  lemma StepKeepsFlag(s: State, e: Event)
    requires Inv(s) && FlagInv(s) && Step(s, e).Some?
    ensures FlagInv(Step(s, e).value)
  {
    match e {
      case Main => MainKeepsFlag(s);
      case Sync(outcome) => SyncKeepsFlag(s, outcome);
      case Spurious =>
    }
  }

  lemma {:induction false} FlagAlways(run: seq<Event>, s: State)
    requires Exec(Step, Init(), run) == Some(s)
    ensures FlagInv(s)
  {
    if run == [] {
    } else {
      var x := Exec(Step, Init(), run[..|run| - 1]).value;
      FlagAlways(run[..|run| - 1], x);
      InvAlways(run[..|run| - 1], x);
      StepKeepsFlag(x, run[|run| - 1]);
    }
  }

  /**
   Whenever no attempt is under way the UE counts as synchronised if and only if an attempt has synchronised, and
   then that was the last attempt ever.
   */
  lemma SyncedIff(run: seq<Event>, s: State)
    requires Exec(Step, Init(), run) == Some(s)
    ensures !Attempting(s.y) ==> (s.synced <==> Synchronised in s.finished)
    ensures Attempting(s.y) ==> Synchronised !in s.finished
  {
    FlagAlways(run, s);
  }

  predicate MainWritesBuffer(m: MainPc) {
    m.MFill? || m.MStream?
  }

  predicate SyncReadsBuffer(y: SyncPc) {
    y.SRun? || y.SDump?
  }

  /** The receive buffer is written by one thread while the other reads it. */
  predicate Race(s: State) {
    MainWritesBuffer(s.m) && SyncReadsBuffer(s.y)
  }

  /**
   The only race there can be: the main thread already streams while the synchronisation thread still dumps
   the frame; in particular there is none while `initial_sync` runs.
   */
  lemma BufferRaceOnlyWhileDumping(run: seq<Event>, s: State)
    requires Exec(Step, Init(), run) == Some(s)
    ensures Race(s) ==> s.m == MStream && s.y == SDump
  {
    InvAlways(run, s);
  }

  /** The attempts of the run have only the allowed outcomes. */
  ghost predicate Within(run: seq<Event>, allowed: set<Outcome>) {
    forall i :: 0 <= i < |run| && run[i].Sync? ==> run[i].outcome in allowed
  }

  /** A dump is under way or about to begin. */
  predicate Dumps(s: State) {
    s.y == SDump || (s.outcome == Dumping(false) && (s.y.SSetLock? || s.y.SSet? || s.y.SSetUnlock?))
  }

  lemma StepAvoidsDump(s: State, e: Event)
    requires !Dumps(s) && Step(s, e).Some? && e != Sync(Dumping(false))
    ensures !Dumps(Step(s, e).value)
  {
  }

  lemma {:induction false} NoDumpUnlessAllowed(run: seq<Event>, s: State, allowed: set<Outcome>)
    requires Exec(Step, Init(), run) == Some(s) && Within(run, allowed) && Dumping(false) !in allowed
    ensures !Dumps(s)
  {
    if run == [] {
    } else {
      var x := Exec(Step, Init(), run[..|run| - 1]).value;
      NoDumpUnlessAllowed(run[..|run| - 1], x, allowed);
      StepAvoidsDump(x, run[|run| - 1]);
    }
  }

  /** As long as no even frame is dumped the buffer is never written and read at the same time. */
  lemma BufferRaceFree(run: seq<Event>, s: State, allowed: set<Outcome>)
    requires Exec(Step, Init(), run) == Some(s) && Within(run, allowed) && Dumping(false) !in allowed
    ensures !Race(s)
  {
    BufferRaceOnlyWhileDumping(run, s);
    NoDumpUnlessAllowed(run, s, allowed);
  }

  lemma BufferFilled()
    ensures Exec(Step, Init(), [] + [Main, Main, Main, Main]) == Some(Init().(m := MFill))
  {
    var s0 := Init();
    var s1 := s0.(owner := ByMain, m := MSnapshot);
    ExecFour(Step, s0, [], s0, Main, s1, Main, s1.(m := MUnlock), Main, s0.(m := MDecide), Main, s0.(m := MFill));
  }

  /** The main thread starts an attempt: eight events. */
  lemma AttemptStarted(outcome: Outcome) returns (run: seq<Event>)
    ensures Exec(Step, Init(), run) == Some(Init().(cnt := 0, owner := ByMain, m := MPostUnlock))
    ensures Within(run, {outcome})
  {
    BufferFilled();
    run := [] + [Main, Main, Main, Main];
    var s0 := Init();
    var s6 := s0.(owner := ByMain, m := MIncrement);
    var s7 := s6.(cnt := 0, m := MSignal);
    ExecFour(Step, s0, run, s0.(m := MFill), Main, s0.(m := MPostLock), Main, s6, Main, s7,
             Main, s7.(m := MPostUnlock));
    run := run + [Main, Main, Main, Main];
  }

  /** The synchronisation thread takes the attempt and sets `is_synchronized`: eight events. */
  lemma FlagSet(run: seq<Event>, outcome: Outcome) returns (run': seq<Event>)
    requires Exec(Step, Init(), run) == Some(Init().(cnt := 0, owner := ByMain, m := MPostUnlock))
    requires Sets(outcome) && Within(run, {outcome})
    ensures Exec(Step, Init(), run')
            == Some(Init().(cnt := 0, synced := true, y := AfterSetUnlock(outcome), outcome := outcome))
    ensures Within(run', {outcome})
  {
    var y := Sync(outcome);
    var s := Init().(cnt := 0);
    var t := s.(owner := BySync, y := SCheck);
    ExecFour(Step, Init(), run, s.(owner := ByMain, m := MPostUnlock),
             Main, s, y, t, y, t.(y := SUnlock), y, s.(y := SRun));
    run' := run + [Main, y, y, y];
    var u := s.(y := SSetLock, outcome := outcome);
    var v := u.(synced := true, y := AfterSetUnlock(outcome));
    ExecFour(Step, Init(), run', s.(y := SRun),
             y, u, y, u.(owner := BySync, y := SSet), y, v.(owner := BySync, y := SSetUnlock), y, v);
    run' := run' + [y, y, y, y];
  }

  /** After any outcome that sets the flag the main thread can begin to stream: twenty events. */
  lemma StreamStarted(outcome: Outcome) returns (run: seq<Event>)
    requires Sets(outcome)
    ensures Exec(Step, Init(), run).Some? && Within(run, {outcome})
    ensures var s := Exec(Step, Init(), run).value; s.m == MStream && s.y == AfterSetUnlock(outcome)
  {
    run := AttemptStarted(outcome);
    run := FlagSet(run, outcome);
    var s := Init().(cnt := 0, synced := true, y := AfterSetUnlock(outcome), outcome := outcome);
    var t := s.(seenCnt := 0, seenSynced := true);
    ExecFour(Step, Init(), run, s, Main, s.(owner := ByMain, m := MSnapshot),
             Main, t.(owner := ByMain, m := MUnlock), Main, t.(m := MDecide), Main, t.(m := MStream));
    run := run + [Main, Main, Main, Main];
  }

  /** Without an outcome that sets the flag. */
  ghost predicate NeverSynced(s: State) {
    && !s.synced && !s.seenSynced && s.m != MStream
    && !s.y.SSetLock? && !s.y.SSet? && !s.y.SSetUnlock? && !s.y.SDump? && !s.y.SClearLock? && !s.y.SClear?
  }

  lemma {:induction false} StaysUnsynced(run: seq<Event>, s: State, allowed: set<Outcome>)
    requires Exec(Step, Init(), run) == Some(s) && Within(run, allowed) && forall o :: o in allowed ==> !Sets(o)
    ensures NeverSynced(s)
  {
    if run == [] {
    } else {
      var x := Exec(Step, Init(), run[..|run| - 1]).value;
      StaysUnsynced(run[..|run| - 1], x, allowed);
    }
  }

  ghost predicate StreamReachable(allowed: set<Outcome>) {
    exists run :: Within(run, allowed) && Exec(Step, Init(), run).Some? && Exec(Step, Init(), run).value.m == MStream
  }

  /** Over all runs with the allowed outcomes: the UE ever streams if and only if one is no failure and no scan. */
  lemma StreamIff(allowed: set<Outcome>)
    ensures StreamReachable(allowed) <==> exists o :: o in allowed && o != Failed && o != Scanned
  {
    if o :| o in allowed && o != Failed && o != Scanned {
      var run := StreamStarted(o);
      assert Within(run, allowed);
    } else if StreamReachable(allowed) {
      var run :| Within(run, allowed) && Exec(Step, Init(), run).Some? && Exec(Step, Init(), run).value.m == MStream;
      StaysUnsynced(run, Exec(Step, Init(), run).value, allowed);
    }
  }

  /** When an even frame is dumped the race does happen: twenty events reach it. */
  lemma BufferRaceReachable() returns (run: seq<Event>)
    ensures Exec(Step, Init(), run).Some? && Within(run, {Dumping(false)})
    ensures Race(Exec(Step, Init(), run).value)
  {
    run := StreamStarted(Dumping(false));
  }

  ghost predicate RaceReachable(allowed: set<Outcome>) {
    exists run :: Within(run, allowed) && Exec(Step, Init(), run).Some? && Race(Exec(Step, Init(), run).value)
  }

  /** Over all runs with the allowed outcomes: a race is reachable if and only if dumping an even frame is one. */
  lemma BufferRaceIff(allowed: set<Outcome>)
    ensures RaceReachable(allowed) <==> Dumping(false) in allowed
  {
    if Dumping(false) in allowed {
      var run := BufferRaceReachable();
      assert Within(run, allowed);
    } else if RaceReachable(allowed) {
      var run :| Within(run, allowed) && Exec(Step, Init(), run).Some? && Race(Exec(Step, Init(), run).value);
      BufferRaceFree(run, Exec(Step, Init(), run).value, allowed);
    }
  }
}
