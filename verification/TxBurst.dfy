/**
 The radio write discipline of `tx_rf`: burst flags and write windows in TDD, and the `late_control`
 automaton that restarts the burst after a short read or a short write.
 */
module TxBurst {
  import opened Transition
  import opened LteTime

  datatype Flag = MIDDLE | START | END | END_NO_TIME_SPEC

  datatype Late = NORMAL | TERMINATE | STOP_1 | STOP_2 | RESTART

  /** What the switch on `late_control` decides: the flag to write, if any, and the next state. */
  datatype Action = Action(flag: Flag, send: bool, next: Late)

  function React(late: Late, flag: Flag): Action {
    match late
    case NORMAL => Action(flag, true, NORMAL)
    case TERMINATE => Action(END_NO_TIME_SPEC, true, STOP_1)
    case STOP_1 => Action(flag, false, STOP_2)
    case STOP_2 => Action(flag, false, RESTART)
    case RESTART => Action(START, true, NORMAL)
  }

  // ----- every interleaving of the transmit threads with short reads -----

  /** A transmit thread tests `late_control`, reads it again in the switch, and assigns it later. */
  datatype Pc = Idle | Test(flag: Flag) | Switch(flag: Flag) | Assign(act: Action) | Write(flag: Flag) | Check | Set

  /** The transmit thread of one radio unit and what its radio was asked to write. */
  datatype Unit = Unit(pc: Pc, writes: seq<Flag>)

  /** `late_control` is one variable, shared by all radio units. */
  datatype State = State(late: Late, units: seq<Unit>)

  /**
   `Transmit(i, flag, short)` runs unit `i`: `flag` is the flag of a new downlink or special subframe, `short`
   says that the write was short.
   */
  datatype Event = ShortRead | Transmit(i: nat, flag: Flag, short: bool)

  function Init(n: nat): State {
    State(NORMAL, seq(n, _ => Unit(Idle, [])))
  }

  /** One step of a transmit thread, with the shared variable before and after. */
  datatype Local = Local(late: Late, unit: Unit)

  function UnitStep(late: Late, u: Unit, flag: Flag, short: bool): Option<Local> {
    match u.pc
    case Idle => if flag == END_NO_TIME_SPEC then None else Some(Local(late, u.(pc := Test(flag))))
    case Test(f) => Some(Local(late, u.(pc := if late != NORMAL then Switch(f) else Write(f))))
    case Switch(f) => Some(Local(late, u.(pc := if late == NORMAL then Write(f) else Assign(React(late, f)))))
    case Assign(act) => Some(Local(act.next, u.(pc := if act.send then Write(act.flag) else Idle)))
    case Write(f) => Some(Local(late, Unit(Check, u.writes + [f])))
    case Check => Some(Local(late, u.(pc := if short && late == NORMAL then Set else Idle)))
    case Set => Some(Local(TERMINATE, u.(pc := Idle)))
  }

  function Step(s: State, e: Event): Option<State> {
    match e
    case ShortRead => Some(s.(late := TERMINATE))
    case Transmit(i, flag, short) =>
      if i >= |s.units| then None
      else
        match UnitStep(s.late, s.units[i], flag, short)
        case None => None
        case Some(l) => Some(State(l.late, s.units[i := l.unit]))
  }

  predicate Restarts(f: Flag) {
    f == END_NO_TIME_SPEC || f == START
  }

  /** Every write that follows an emergency end is another one or the start of a new burst. */
  ghost predicate EndsAnswered(writes: seq<Flag>) {
    forall i :: 0 < i < |writes| && writes[i - 1] == END_NO_TIME_SPEC ==> Restarts(writes[i])
  }

  /** The last write was an emergency end. */
  predicate Ended(u: Unit) {
    u.writes != [] && u.writes[|u.writes| - 1] == END_NO_TIME_SPEC
  }

  /** What a transmit thread keeps as long as only short reads interfere. */
  ghost predicate UnitInv(late: Late, u: Unit) {
    && EndsAnswered(u.writes)
    && (u.pc.Assign? ==> exists was, f :: was != NORMAL && u.pc.act == React(was, f))
    && (u.pc == Write(END_NO_TIME_SPEC) ==> late != NORMAL)
    && ((u.pc.Test? || u.pc.Switch?) ==> u.pc.flag != END_NO_TIME_SPEC)
    && (Ended(u) ==>
          match u.pc
          case Assign(act) => if act.send then Restarts(act.flag) else act.next != NORMAL
          case Write(f) => Restarts(f)
          case _ => late != NORMAL)
  }

  lemma UnitStepKeepsInv(late: Late, u: Unit, flag: Flag, short: bool)
    requires UnitInv(late, u) && UnitStep(late, u, flag, short).Some?
    ensures var l := UnitStep(late, u, flag, short).value; UnitInv(l.late, l.unit)
  {
  }

  ghost predicate LoneInv(s: State) {
    |s.units| <= 1 && (|s.units| == 1 ==> UnitInv(s.late, s.units[0]))
  }

  /** With one radio unit an emergency end is never followed by a plain write. */
  lemma LoneUnitAnswers(n: nat, run: seq<Event>, s: State, i: nat)
    requires n <= 1 && Exec(Step, Init(n), run) == Some(s) && i < |s.units|
    ensures EndsAnswered(s.units[i].writes)
  {
    forall x: State, e: Event | LoneInv(x) && Step(x, e).Some? ensures LoneInv(Step(x, e).value) {
      if e.Transmit? {
        UnitStepKeepsInv(x.late, x.units[0], e.flag, e.short);
      }
    }
    InvariantHolds(Step, LoneInv, Init(n), run);
  }

  // ----- whole transmissions -----

  /** A transmission of unit `i` that nothing interrupts; a short write starts a recovery unless one is under way. */
  function Transmitted(s: State, i: nat, flag: Flag, short: bool): State
    requires i < |s.units|
  {
    var act := React(s.late, flag);
    State(if act.send && short && act.next == NORMAL then TERMINATE else act.next,
          s.units[i := Unit(Idle, s.units[i].writes + if act.send then [act.flag] else [])])
  }

  function Put(s: State, i: nat, late: Late, u: Unit): State
    requires i < |s.units|
  {
    State(late, s.units[i := u])
  }

  lemma PutStep(s: State, i: nat, late: Late, u: Unit, e: Event)
    requires i < |s.units| && e.Transmit? && e.i == i && UnitStep(late, u, e.flag, e.short).Some?
    ensures var l := UnitStep(late, u, e.flag, e.short).value;
            Step(Put(s, i, late, u), e) == Some(Put(s, i, l.late, l.unit))
  {
    var l := UnitStep(late, u, e.flag, e.short).value;
    assert s.units[i := u][i := l.unit] == s.units[i := l.unit];
  }

  /** From the test to the point where the flag is decided. */
  lemma {:induction false} UpToWrite(init: State, run: seq<Event>, s: State, i: nat, flag: Flag, short: bool)
    returns (run': seq<Event>)
    requires Exec(Step, init, run) == Some(s) && i < |s.units| && s.units[i].pc == Idle && flag != END_NO_TIME_SPEC
    ensures var act := React(s.late, flag);
            Exec(Step, init, run')
            == Some(Put(s, i, act.next, Unit(if act.send then Write(act.flag) else Idle, s.units[i].writes)))
  {
    var e, w, act := Transmit(i, flag, short), s.units[i].writes, React(s.late, flag);
    PutStep(s, i, s.late, Unit(Test(flag), w), e);
    if s.late == NORMAL {
      ExecMore(Step, init, run, s, e, Put(s, i, NORMAL, Unit(Test(flag), w)));
      ExecMore(Step, init, run + [e], Put(s, i, NORMAL, Unit(Test(flag), w)),
               e, Put(s, i, NORMAL, Unit(Write(flag), w)));
      run' := run + [e] + [e];
    } else {
      PutStep(s, i, s.late, Unit(Switch(flag), w), e);
      PutStep(s, i, s.late, Unit(Assign(act), w), e);
      ExecFour(Step, init, run, s, e, Put(s, i, s.late, Unit(Test(flag), w)),
               e, Put(s, i, s.late, Unit(Switch(flag), w)), e, Put(s, i, s.late, Unit(Assign(act), w)),
               e, Put(s, i, act.next, Unit(if act.send then Write(act.flag) else Idle, w)));
      run' := run + [e, e, e, e];
    }
  }

  /** From the write to the end. */
  lemma {:induction false} FromWrite(
      init: State, run: seq<Event>, s: State, i: nat, late: Late, flag: Flag, w: seq<Flag>, e: Event)
    returns (run': seq<Event>)
    requires i < |s.units| && e.Transmit? && e.i == i
    requires Exec(Step, init, run) == Some(Put(s, i, late, Unit(Write(flag), w)))
    ensures Exec(Step, init, run')
            == Some(Put(s, i, if e.short && late == NORMAL then TERMINATE else late, Unit(Idle, w + [flag])))
  {
    var check := Unit(Check, w + [flag]);
    PutStep(s, i, late, Unit(Write(flag), w), e);
    PutStep(s, i, late, check, e);
    ExecMore(Step, init, run, Put(s, i, late, Unit(Write(flag), w)), e, Put(s, i, late, check));
    run' := run + [e];
    if e.short && late == NORMAL {
      PutStep(s, i, late, check.(pc := Set), e);
      ExecMore(Step, init, run', Put(s, i, late, check), e, Put(s, i, late, check.(pc := Set)));
      ExecMore(Step, init, run' + [e], Put(s, i, late, check.(pc := Set)),
               e, Put(s, i, TERMINATE, check.(pc := Idle)));
      run' := run' + [e] + [e];
    } else {
      ExecMore(Step, init, run', Put(s, i, late, check), e, Put(s, i, late, check.(pc := Idle)));
      run' := run' + [e];
    }
  }

  /** Every such transmission is a run of the threads. */
  lemma {:induction false} TransmissionRuns(
      init: State, run: seq<Event>, s: State, i: nat, flag: Flag, short: bool)
    returns (run': seq<Event>)
    requires Exec(Step, init, run) == Some(s) && i < |s.units| && s.units[i].pc == Idle && flag != END_NO_TIME_SPEC
    ensures Exec(Step, init, run') == Some(Transmitted(s, i, flag, short))
  {
    var w, act := s.units[i].writes, React(s.late, flag);
    run' := UpToWrite(init, run, s, i, flag, short);
    if act.send {
      run' := FromWrite(init, run', s, i, act.next, act.flag, w, Transmit(i, flag, short));
    } else {
      assert w + [] == w;
    }
  }

  /** With two radio units the second one can use up the recovery of the first. */
  lemma {:induction false} RecoveryStolen(n: nat) returns (run: seq<Event>)
    requires n >= 2
    ensures Exec(Step, Init(n), run).Some?
    ensures var s := Exec(Step, Init(n), run).value;
            |s.units| == n && s.units[0].writes == [END_NO_TIME_SPEC, MIDDLE] && s.units[1].writes == [START]
  {
    var s0 := Init(n);
    var s1 := s0.(late := TERMINATE);
    ExecMore(Step, s0, [], s0, ShortRead, s1);
    run := TransmissionRuns(s0, [] + [ShortRead], s1, 0, MIDDLE, false);
    var s2 := Transmitted(s1, 0, MIDDLE, false);
    run := TransmissionRuns(s0, run, s2, 1, MIDDLE, false);
    var s3 := Transmitted(s2, 1, MIDDLE, false);
    run := TransmissionRuns(s0, run, s3, 1, MIDDLE, false);
    var s4 := Transmitted(s3, 1, MIDDLE, false);
    run := TransmissionRuns(s0, run, s4, 1, MIDDLE, false);
    var s5 := Transmitted(s4, 1, MIDDLE, false);
    assert s5.late == NORMAL && s5.units[0].writes == [END_NO_TIME_SPEC] && s5.units[1].writes == [START];
    run := TransmissionRuns(s0, run, s5, 0, MIDDLE, false);
  }

  /** On every run every emergency end that a radio got is answered. */
  ghost predicate AlwaysAnswered(n: nat) {
    forall run: seq<Event>, i: nat :: Exec(Step, Init(n), run).Some? && i < |Exec(Step, Init(n), run).value.units| ==>
                                        EndsAnswered(Exec(Step, Init(n), run).value.units[i].writes)
  }

  /** Under any interleaving of short reads and short writes: exactly when there is no second radio unit. */
  lemma EmergencyEndAnsweredIff(n: nat)
    ensures AlwaysAnswered(n) <==> n <= 1
  {
    if n <= 1 {
      forall run: seq<Event>, i: nat | Exec(Step, Init(n), run).Some? && i < |Exec(Step, Init(n), run).value.units|
        ensures EndsAnswered(Exec(Step, Init(n), run).value.units[i].writes)
      {
        LoneUnitAnswers(n, run, Exec(Step, Init(n), run).value, i);
      }
    } else {
      var run := RecoveryStolen(n);
      var writes := Exec(Step, Init(n), run).value.units[0].writes;
      assert writes[0] == END_NO_TIME_SPEC && !Restarts(writes[1]);
    }
  }

  // ----- recovery without new faults -----

  /** A transmission, or a write, of a radio unit. */
  datatype Tx = Tx(unit: nat, flag: Flag)

  /** The writes for a sequence of transmissions of any units with no fault in between. */
  function Sent(late: Late, txs: seq<Tx>): seq<Tx>
    decreases |txs|
  {
    if txs == [] then []
    else
      var act := React(late, txs[0].flag);
      (if act.send then [Tx(txs[0].unit, act.flag)] else []) + Sent(act.next, txs[1..])
  }

  lemma {:induction false} NormalSendsAll(txs: seq<Tx>)
    ensures Sent(NORMAL, txs) == txs
  {
    if txs == [] {
    } else {
      NormalSendsAll(txs[1..]);
    }
  }

  lemma {:induction false} StopPhase(txs: seq<Tx>)
    requires |txs| >= 3
    ensures Sent(STOP_1, txs) == [Tx(txs[2].unit, START)] + txs[3..]
  {
    var t1, t2, rest := txs[1..], txs[2..], txs[3..];
    assert t1[1..] == t2 && t2[1..] == rest && t2[0] == txs[2];
    NormalSendsAll(rest);
    assert Sent(RESTART, t2) == [Tx(txs[2].unit, START)] + rest;
    assert Sent(STOP_2, t1) == Sent(RESTART, t2);
  }

  /**
   Recovery takes exactly four transmissions in all, whichever units make them: the first is ended, the next two
   are suppressed, the fourth is restarted; then all is sent as it is.
   */
  lemma {:induction false} RecoveryTakesFour(txs: seq<Tx>)
    requires |txs| >= 4
    ensures Sent(TERMINATE, txs) == [Tx(txs[0].unit, END_NO_TIME_SPEC), Tx(txs[3].unit, START)] + txs[4..]
  {
    var t1, rest := txs[1..], txs[4..];
    assert t1[3..] == rest && t1[2] == txs[3];
    StopPhase(t1);
    calc {
      Sent(TERMINATE, txs);
      [Tx(txs[0].unit, END_NO_TIME_SPEC)] + Sent(STOP_1, t1);
      [Tx(txs[0].unit, END_NO_TIME_SPEC)] + ([Tx(txs[3].unit, START)] + rest);
      [Tx(txs[0].unit, END_NO_TIME_SPEC), Tx(txs[3].unit, START)] + rest;
    }
  }

  /** The flags of unit `u`, in order. */
  function Of(txs: seq<Tx>, u: nat): seq<Flag>
    decreases |txs|
  {
    if txs == [] then [] else (if txs[0].unit == u then [txs[0].flag] else []) + Of(txs[1..], u)
  }

  lemma {:induction false} OfCons(t: Tx, rest: seq<Tx>, u: nat)
    ensures Of([t] + rest, u) == (if t.unit == u then [t.flag] else []) + Of(rest, u)
  {
    assert ([t] + rest)[1..] == rest;
  }

  /** What the unit that was ended writes: the end, the restart if it makes the fourth transmission, and the rest. */
  lemma {:induction false} EndedUnitWrites(txs: seq<Tx>)
    requires |txs| >= 4
    ensures var u := txs[0].unit;
            Of(Sent(TERMINATE, txs), u)
            == [END_NO_TIME_SPEC] + (if txs[3].unit == u then [START] else []) + Of(txs[4..], u)
  {
    var u, restart, rest := txs[0].unit, Tx(txs[3].unit, START), txs[4..];
    var end := Tx(u, END_NO_TIME_SPEC);
    RecoveryTakesFour(txs);
    OfCons(restart, rest, u);
    OfCons(end, [restart] + rest, u);
    assert [end, restart] + rest == [end] + ([restart] + rest);
  }

  lemma {:induction false} OfFlags(txs: seq<Tx>, u: nat)
    requires forall i :: 0 <= i < |txs| ==> txs[i].flag != END_NO_TIME_SPEC
    ensures END_NO_TIME_SPEC !in Of(txs, u)
    decreases |txs|
  {
    if txs == [] {
    } else {
      OfFlags(txs[1..], u);
    }
  }

  /**
   With any number of units a recovery answers its emergency end if and only if the same unit makes the fourth
   transmission, or does not transmit again, or happens to start a burst when it does.
   */
  lemma {:induction false} RecoveryAnsweredIff(txs: seq<Tx>)
    requires |txs| >= 4 && forall i :: 0 <= i < |txs| ==> txs[i].flag != END_NO_TIME_SPEC
    ensures var u, later := txs[0].unit, Of(txs[4..], txs[0].unit);
            EndsAnswered(Of(Sent(TERMINATE, txs), u)) <==> txs[3].unit == u || later == [] || later[0] == START
  {
    var u := txs[0].unit;
    var later, writes := Of(txs[4..], u), Of(Sent(TERMINATE, txs), u);
    EndedUnitWrites(txs);
    OfFlags(txs[4..], u);
    assert writes[0] == END_NO_TIME_SPEC;
    assert forall i :: 0 < i < |writes| ==> writes[i] != END_NO_TIME_SPEC;
    if |writes| > 1 {
      assert writes[1] == if txs[3].unit == u then START else later[0];
    }
  }

  /** The transmissions of a unit that is alone. */
  function Alone(flags: seq<Flag>): seq<Tx> {
    seq(|flags|, i requires 0 <= i < |flags| => Tx(0, flags[i]))
  }

  lemma {:induction false} OfAlone(flags: seq<Flag>)
    ensures Of(Alone(flags), 0) == flags
    decreases |flags|
  {
    if flags == [] {
    } else {
      assert Alone(flags)[1..] == Alone(flags[1..]);
      OfAlone(flags[1..]);
    }
  }

  /** What the radio of a lone unit gets from a fault on. */
  function Recovered(flags: seq<Flag>): seq<Flag> {
    Of(Sent(TERMINATE, Alone(flags)), 0)
  }

  lemma {:induction false} RecoveredIs(flags: seq<Flag>)
    requires |flags| >= 4
    ensures Recovered(flags) == [END_NO_TIME_SPEC, START] + flags[4..]
  {
    EndedUnitWrites(Alone(flags));
    assert Alone(flags)[4..] == Alone(flags[4..]);
    OfAlone(flags[4..]);
  }

  // ----- burst flags of a TDD pattern -----

  /** A burst is open after START or MIDDLE; the function says whether `flags` is START MIDDLE* END repeated. */
  predicate Bracketed(open: bool, flags: seq<Flag>)
    decreases |flags|
  {
    flags == [] ||
    match flags[0]
    case START => !open && Bracketed(true, flags[1..])
    case MIDDLE => open && Bracketed(true, flags[1..])
    case END => open && Bracketed(false, flags[1..])
    case END_NO_TIME_SPEC => Bracketed(false, flags[1..])
  }

  function OpenAfter(open: bool, flags: seq<Flag>): bool {
    if flags == [] then open
    else flags[|flags| - 1] == START || flags[|flags| - 1] == MIDDLE
  }

  lemma {:induction false} BracketedConcat(open: bool, a: seq<Flag>, b: seq<Flag>)
    ensures Bracketed(open, a + b) <==> Bracketed(open, a) && Bracketed(OpenAfter(open, a), b)
    decreases |a|
  {
    if a == [] {
      assert a + b == b;
    } else {
      assert (a + b)[0] == a[0] && (a + b)[1..] == a[1..] + b;
      BracketedConcat(true, a[1..], b);
      BracketedConcat(false, a[1..], b);
    }
  }

  /**
   After a recovery the radio sees proper bursts again if and only if the fourth transmission was not a
   special subframe: there the restart overwrites the END that should have closed the burst.
   */
  lemma {:induction false} RecoveryBracketedIff(open: bool, flags: seq<Flag>)
    requires |flags| > 4 && Bracketed(open, flags) && END_NO_TIME_SPEC !in flags
    ensures Bracketed(open, Recovered(flags)) <==> flags[3] != END
  {
    RecoveredIs(flags);
    var rest := flags[4..];
    assert flags == flags[..4] + rest;
    BracketedConcat(open, flags[..4], rest);
    BracketedConcat(open, [END_NO_TIME_SPEC, START], rest);
    var head := [END_NO_TIME_SPEC, START];
    assert head[1..] == [START] && [START][1..] == [];
    assert rest[0] == flags[4];
  }

  // ----- subframe patterns -----

  datatype Duplex = FDD | TDD(config: nat)

  /** `subframe_select`; `None` where the source aborts on an unsupported TDD configuration. */
  function SubframeSelect(duplex: Duplex, subframe: nat): Option<SubframeType> {
    if duplex.FDD? then Some(DL)
    else if duplex.config == 1 then
      Some(if subframe in [0, 4, 5, 9] then DL else if subframe in [2, 3, 7, 8] then UL else S)
    else if duplex.config in [3, 4, 5] then
      Some(if subframe < 1 || subframe >= 8 - duplex.config then DL else if subframe > 1 then UL else S)
    else None
  }

  predicate Supported(duplex: Duplex) {
    duplex.FDD? || duplex.config in [1, 3, 4, 5]
  }

  /** The types of the ten subframes of a frame. */
  function Pattern(duplex: Duplex): seq<SubframeType>
    requires Supported(duplex)
  {
    seq(10, i requires 0 <= i < 10 => SubframeSelect(duplex, i).value)
  }

  /** The type of absolute subframe `n`. */
  function At(p: seq<SubframeType>, n: nat): SubframeType
    requires |p| == 10
  {
    p[n % 10]
  }

  /** What section 4.2 of 3GPP TS 36.211 lets follow a subframe: S leads into uplink, uplink back to downlink. */
  predicate Follows(a: SubframeType, b: SubframeType) {
    && (a == DL ==> b != UL)
    && (a == S ==> b == UL)
    && (a == UL ==> b != S)
  }

  predicate FollowsAt(p: seq<SubframeType>, n: nat)
    requires |p| == 10
  {
    Follows(p[n % 10], p[(n + 1) % 10])
  }

  ghost predicate LocalRules(p: seq<SubframeType>) {
    |p| == 10 && forall n: nat :: n < 10 ==> FollowsAt(p, n)
  }

  /** Every pattern that `subframe_select` supports obeys these rules. */
  lemma SupportedPatterns(duplex: Duplex)
    requires Supported(duplex)
    ensures LocalRules(Pattern(duplex))
  {
  }

  lemma PatternOrder(p: seq<SubframeType>, n: nat)
    requires LocalRules(p)
    ensures At(p, n + 10) == At(p, n) && Follows(At(p, n), At(p, n + 1))
  {
    assert FollowsAt(p, n % 10);
    assert (n + 1) % 10 == (n % 10 + 1) % 10;
  }

  /** The flag `tx_rf` chooses for subframe `n` when no fault is being handled. */
  function FlagOf(p: seq<SubframeType>, n: nat): Flag
    requires |p| == 10 && At(p, n) != UL
  {
    if At(p, n) == S then END else if At(p, n + 9) == UL then START else MIDDLE
  }

  /** The flags chosen for the subframes from `n` on, `k` of them. */
  function Flags(p: seq<SubframeType>, n: nat, k: nat): seq<Flag>
    requires |p| == 10
    decreases k
  {
    if k == 0 then [] else (if At(p, n) == UL then [] else [FlagOf(p, n)]) + Flags(p, n + 1, k - 1)
  }

  /** Each flag fits the burst the previous subframe left open or closed, and leaves it as its own type says. */
  lemma FlagFits(p: seq<SubframeType>, n: nat)
    requires LocalRules(p) && At(p, n) != UL
    ensures FlagOf(p, n) != END_NO_TIME_SPEC
    ensures At(p, n + 9) == DL <==> FlagOf(p, n) != START
    ensures At(p, n) == DL <==> FlagOf(p, n) != END
  {
    PatternOrder(p, n + 9);
    PatternOrder(p, n);
  }

  lemma {:induction false} BracketedCons(open: bool, f: Flag, rest: seq<Flag>)
    requires f != END_NO_TIME_SPEC
    ensures Bracketed(open, [f] + rest) <==> (open <==> f != START) && Bracketed(f != END, rest)
  {
    assert ([f] + rest)[1..] == rest;
  }

  /** On every pattern with the local rules, from any subframe on, the flags are START MIDDLE* END repeated. */
  lemma {:induction false} PatternBracketed(p: seq<SubframeType>, n: nat, k: nat)
    requires LocalRules(p)
    ensures Bracketed(At(p, n + 9) == DL, Flags(p, n, k))
    ensures END_NO_TIME_SPEC !in Flags(p, n, k)
    decreases k
  {
    if k == 0 {
    } else {
      PatternBracketed(p, n + 1, k - 1);
      BracketedStep(p, n, Flags(p, n + 1, k - 1));
    }
  }

  /** One subframe in front of flags that fit what it leaves open. */
  lemma {:induction false} BracketedStep(p: seq<SubframeType>, n: nat, rest: seq<Flag>)
    requires LocalRules(p) && Bracketed(At(p, n + 10) == DL, rest) && END_NO_TIME_SPEC !in rest
    ensures var flags := (if At(p, n) == UL then [] else [FlagOf(p, n)]) + rest;
            Bracketed(At(p, n + 9) == DL, flags) && END_NO_TIME_SPEC !in flags
  {
    PatternOrder(p, n);
    if At(p, n) != UL {
      FlagFits(p, n);
      BracketedCons(At(p, n + 9) == DL, FlagOf(p, n), rest);
    } else {
      PatternOrder(p, n + 9);
      assert [] + rest == rest;
    }
  }

  /** The two results together: a recovery on a pattern is clean exactly when the restart does not fall on S. */
  lemma {:induction false} PatternRecovery(p: seq<SubframeType>, n: nat, k: nat)
    requires LocalRules(p) && |Flags(p, n, k)| > 4
    ensures Bracketed(At(p, n + 9) == DL, Recovered(Flags(p, n, k))) <==> Flags(p, n, k)[3] != END
  {
    PatternBracketed(p, n, k);
    RecoveryBracketedIff(At(p, n + 9) == DL, Flags(p, n, k));
  }

  /** The patterns, row by row of the table of section 4.2 of 3GPP TS 36.211. */
  lemma PatternTable()
    ensures Pattern(FDD) == [DL, DL, DL, DL, DL, DL, DL, DL, DL, DL]
    ensures Pattern(TDD(1)) == [DL, S, UL, UL, DL, DL, S, UL, UL, DL]
    ensures Pattern(TDD(3)) == [DL, S, UL, UL, UL, DL, DL, DL, DL, DL]
    ensures Pattern(TDD(4)) == [DL, S, UL, UL, DL, DL, DL, DL, DL, DL]
    ensures Pattern(TDD(5)) == [DL, S, UL, DL, DL, DL, DL, DL, DL, DL]
  {
  }

  lemma ConfigOne(p: seq<SubframeType>)
    requires p == Pattern(TDD(1))
    ensures p == [DL, S, UL, UL, DL, DL, S, UL, UL, DL]
  {
  }

  lemma {:induction false} SecondHalf(p: seq<SubframeType>)
    requires p == [DL, S, UL, UL, DL, DL, S, UL, UL, DL]
    ensures Flags(p, 6, 5) == [END, START, MIDDLE]
  {
    assert Flags(p, 10, 1) == [MIDDLE];
    assert Flags(p, 9, 2) == [START] + [MIDDLE];
    assert Flags(p, 8, 3) == Flags(p, 9, 2);
    assert Flags(p, 7, 4) == Flags(p, 8, 3);
    assert Flags(p, 6, 5) == [END] + [START, MIDDLE];
  }

  lemma {:induction false} FirstHalf(p: seq<SubframeType>)
    requires p == [DL, S, UL, UL, DL, DL, S, UL, UL, DL] && Flags(p, 6, 5) == [END, START, MIDDLE]
    ensures Flags(p, 2, 9) == [START, MIDDLE, END, START, MIDDLE]
  {
    assert Flags(p, 5, 6) == [MIDDLE] + [END, START, MIDDLE];
    assert Flags(p, 4, 7) == [START] + [MIDDLE, END, START, MIDDLE];
    assert Flags(p, 3, 8) == Flags(p, 4, 7);
    assert Flags(p, 2, 9) == Flags(p, 3, 8);
  }

  lemma {:induction false} ConfigOneFlags(p: seq<SubframeType>, n: nat, k: nat)
    requires p == Pattern(TDD(1)) && n == 1 && k == 10
    ensures Flags(p, n, k) == [END, START, MIDDLE, END, START, MIDDLE]
  {
    ConfigOne(p);
    SecondHalf(p);
    FirstHalf(p);
    assert Flags(p, n, k) == [END] + Flags(p, n + 1, k - 1);
  }

  /** It does fall there: TDD configuration 1, a fault noticed in subframe 1. */
  lemma {:induction false} RecoveryBreaksBursts(p: seq<SubframeType>, n: nat, k: nat)
    requires p == Pattern(TDD(1)) && n == 1 && k == 10
    ensures At(p, n + 9) == DL && |Flags(p, n, k)| > 4
    ensures Bracketed(true, Flags(p, n, k)) && !Bracketed(true, Recovered(Flags(p, n, k)))
  {
    ConfigOneFlags(p, n, k);
    SupportedPatterns(TDD(1));
    PatternBracketed(p, n, k);
    PatternRecovery(p, n, k);
  }

  // ----- write windows -----

  /** The frame parameters and radio unit fields `tx_rf` reads; `granule` is 8 on x86 and 4 on ARM. */
  datatype Cell = Cell(duplex: Duplex, spt: nat, symbol: nat, prefix0: nat, prefix: nat, dlSymbolsInS: nat,
                       isSlave: bool, endDelay: nat, sfExtension: nat, granule: nat, tsOffset: int)
  {
    function TxSymbols(): nat {
      dlSymbolsInS + if isSlave then 0 else 1
    }

    function SpecialLength(): int {
      symbol + prefix0 + (TxSymbols() - 1) * (symbol + prefix) + endDelay
    }

    function Extension(): nat
      requires granule > 0
    {
      sfExtension - sfExtension % granule
    }
  }

  /** The samples of the first `n` symbols of a subframe: the first has the long prefix, the others the short one. */
  function SymbolSamples(c: Cell, n: nat): nat {
    if n == 0 then 0 else SymbolSamples(c, n - 1) + c.symbol + if n == 1 then c.prefix0 else c.prefix
  }

  lemma {:induction false} SymbolSamplesIs(c: Cell, n: nat)
    requires n > 0
    ensures SymbolSamples(c, n) == c.symbol + c.prefix0 + (n - 1) * (c.symbol + c.prefix)
  {
    if n == 1 {
      assert SymbolSamples(c, 0) == 0;
    } else {
      SymbolSamplesIs(c, n - 1);
      assert (n - 1) * (c.symbol + c.prefix) == (n - 2) * (c.symbol + c.prefix) + (c.symbol + c.prefix);
    }
  }

  /**
   The window of a special subframe ends with its last transmitted symbol, one more than the downlink symbols unless
   the radio unit is a slave, plus the delay.
   */
  lemma SpecialLengthIs(c: Cell)
    requires c.TxSymbols() > 0
    ensures c.SpecialLength() == SymbolSamples(c, c.TxSymbols()) + c.endDelay
    ensures c.TxSymbols() == if c.isSlave then c.dlSymbolsInS else c.dlSymbolsInS + 1
  {
    SymbolSamplesIs(c, c.TxSymbols());
  }

  /** The early start is the largest multiple of the granule that is not above `sf_extension`. */
  lemma ExtensionIs(c: Cell, k: nat)
    requires c.granule > 0
    ensures c.Extension() % c.granule == 0 && c.Extension() <= c.sfExtension
    ensures k % c.granule == 0 && k <= c.sfExtension ==> k <= c.Extension()
  {
    var g, x := c.granule, c.sfExtension;
    Fundamental(x, g);
    DivUnique(c.Extension(), g, x / g, 0);
    if k % g == 0 && k <= x {
      Fundamental(k, g);
      if k / g > x / g {
        Distribute(x / g, k / g - x / g, g);
        Distribute(1, k / g - x / g - 1, g);
        TimesNonNegative(k / g - x / g - 1, g);
      }
    }
  }

  function StartOf(c: Cell, p: seq<SubframeType>, n: nat): int
    requires c.granule > 0 && |p| == 10 && At(p, n) != UL
  {
    n * c.spt + c.tsOffset - if FlagOf(p, n) == START then c.Extension() else 0
  }

  function EndOf(c: Cell, p: seq<SubframeType>, n: nat): int
    requires c.granule > 0 && |p| == 10 && At(p, n) != UL
  {
    n * c.spt + c.tsOffset + if At(p, n) == S then c.SpecialLength() else c.spt
  }

  /** Subframe `n` ends a burst, `m` starts the next one, and all between them are uplink. */
  ghost predicate GapAt(p: seq<SubframeType>, n: nat, m: nat)
    requires |p| == 10
  {
    n < m && At(p, n) == S && At(p, m) == DL && forall i: nat :: n < i < m ==> At(p, i) == UL
  }

  /** In every gap the special subframe and the early start of the next burst fit between their boundaries. */
  ghost predicate Fits(c: Cell, p: seq<SubframeType>)
    requires c.granule > 0 && |p| == 10
  {
    forall n: nat, m: nat :: GapAt(p, n, m) ==> c.SpecialLength() + c.Extension() <= (m - n) * c.spt
  }

  ghost predicate InOrder(c: Cell, p: seq<SubframeType>)
    requires c.granule > 0 && |p| == 10
  {
    forall n: nat, m: nat :: n < m && At(p, n) != UL && At(p, m) != UL ==> EndOf(c, p, n) <= StartOf(c, p, m)
  }

  /** The gap after a special subframe ends at or before any later transmission. */
  lemma NextBurst(p: seq<SubframeType>, n: nat, m: nat) returns (d: nat)
    requires LocalRules(p) && At(p, n) == S && n < m && At(p, m) != UL
    ensures d <= m && GapAt(p, n, d)
  {
    d := n + 1;
    PatternOrder(p, n);
    while At(p, d) == UL
      invariant n < d <= m && (forall i: nat :: n < i < d ==> At(p, i) == UL)
      invariant At(p, d) != S
      decreases m - d
    {
      PatternOrder(p, d);
      d := d + 1;
    }
  }

  /** The gap before the start of a burst begins at or after any earlier transmission. */
  lemma PreviousBurst(p: seq<SubframeType>, n: nat, m: nat) returns (s: nat)
    requires LocalRules(p) && At(p, m) == DL && n < m && At(p, n) != UL && At(p, m - 1) == UL
    ensures n <= s && GapAt(p, s, m)
  {
    s := m - 1;
    while At(p, s) == UL
      invariant n <= s < m && (forall i: nat :: s < i < m ==> At(p, i) == UL)
      invariant At(p, s) != DL
      decreases s
    {
      PatternOrder(p, s - 1);
      s := s - 1;
    }
  }

  lemma BeforeStart(p: seq<SubframeType>, m: nat)
    requires |p| == 10 && m > 0
    ensures At(p, m + 9) == At(p, m - 1)
  {
    assert (m + 9) % 10 == (m - 1) % 10;
  }

  lemma GapStarts(p: seq<SubframeType>, n: nat, m: nat)
    requires LocalRules(p) && GapAt(p, n, m)
    ensures n + 2 <= m && FlagOf(p, m) == START
  {
    PatternOrder(p, n);
    BeforeStart(p, m);
  }

  /** `n + g` subframes of `spt` samples. */
  lemma Spread(n: nat, g: nat, m: nat, spt: nat)
    requires n + g <= m
    ensures n * spt + g * spt <= m * spt
  {
    assert (n + g) * spt == n * spt + g * spt;
    assert m * spt == (n + g) * spt + (m - n - g) * spt;
  }

  lemma AfterSpecial(c: Cell, p: seq<SubframeType>, n: nat, m: nat)
    requires c.granule > 0 && LocalRules(p) && Fits(c, p)
    requires n < m && At(p, n) == S && At(p, m) != UL
    ensures EndOf(c, p, n) <= StartOf(c, p, m)
  {
    var d := NextBurst(p, n, m);
    Spread(n, d - n, m, c.spt);
  }

  lemma AfterDownlink(c: Cell, p: seq<SubframeType>, n: nat, m: nat)
    requires c.granule > 0 && LocalRules(p) && Fits(c, p) && c.SpecialLength() >= 0
    requires n < m && At(p, n) == DL && At(p, m) != UL
    ensures EndOf(c, p, n) <= StartOf(c, p, m)
  {
    Spread(n, 1, m, c.spt);
    if FlagOf(p, m) == START {
      BeforeStart(p, m);
      var s := PreviousBurst(p, n, m);
      Spread(n, 1, s, c.spt);
      Spread(s, m - s, m, c.spt);
    }
  }

  lemma GapNeeds(c: Cell, p: seq<SubframeType>, n: nat, m: nat)
    requires c.granule > 0 && LocalRules(p) && GapAt(p, n, m)
    ensures EndOf(c, p, n) <= StartOf(c, p, m) <==> c.SpecialLength() + c.Extension() <= (m - n) * c.spt
  {
    GapStarts(p, n, m);
    Distribute(n, m - n, c.spt);
  }

  lemma PositiveLength(c: Cell)
    requires c.TxSymbols() > 0
    ensures c.SpecialLength() >= 0
  {
  }

  /** On every pattern with the local rules no two writes ever overlap if and only if every gap is wide enough. */
  lemma WindowsInOrderIff(c: Cell, p: seq<SubframeType>)
    requires c.granule > 0 && c.TxSymbols() > 0 && LocalRules(p)
    ensures InOrder(c, p) <==> Fits(c, p)
  {
    PositiveLength(c);
    if Fits(c, p) {
      forall n: nat, m: nat | n < m && At(p, n) != UL && At(p, m) != UL ensures EndOf(c, p, n) <= StartOf(c, p, m) {
        if At(p, n) == S {
          AfterSpecial(c, p, n, m);
        } else {
          AfterDownlink(c, p, n, m);
        }
      }
    }
    if InOrder(c, p) {
      forall n: nat, m: nat | GapAt(p, n, m)
        ensures c.SpecialLength() + c.Extension() <= (m - n) * c.spt
      {
        GapNeeds(c, p, n, m);
      }
    }
  }

  /** Two subframes are always enough. */
  lemma TwoSubframesSuffice(c: Cell, p: seq<SubframeType>)
    requires c.granule > 0 && c.TxSymbols() > 0 && LocalRules(p)
    requires c.SpecialLength() + c.Extension() <= 2 * c.spt
    ensures InOrder(c, p)
  {
    forall n: nat, m: nat | GapAt(p, n, m)
      ensures c.SpecialLength() + c.Extension() <= (m - n) * c.spt
    {
      GapStarts(p, n, m);
      Spread(0, 2, m - n, c.spt);
    }
    WindowsInOrderIff(c, p);
  }

  /** Uplink subframes between a special subframe and the next downlink one. */
  function Gap(config: nat): nat {
    match config
    case 1 => 2
    case 3 => 3
    case 4 => 2
    case _ => 1
  }

  lemma ConfigGap(config: nat, n: nat, m: nat)
    requires Supported(TDD(config)) && At(Pattern(TDD(config)), n) == S && n < m <= n + Gap(config) + 1
    ensures At(Pattern(TDD(config)), m) == if m <= n + Gap(config) then UL else DL
  {
    assert n % 10 == 1 || n % 10 == 6;
    assert m % 10 == n % 10 + (m - n);
  }

  lemma ConfigGapAt(config: nat, n: nat, m: nat)
    requires Supported(TDD(config)) && GapAt(Pattern(TDD(config)), n, m)
    ensures m == n + Gap(config) + 1
  {
    var last := n + Gap(config) + 1;
    if m < last {
      ConfigGap(config, n, m);
    } else {
      ConfigGap(config, n, last);
    }
  }

  lemma ConfigHasGap(config: nat)
    requires Supported(TDD(config))
    ensures GapAt(Pattern(TDD(config)), 1, Gap(config) + 2)
  {
    var p := Pattern(TDD(config));
    assert At(p, 1) == S;
    ConfigGap(config, 1, Gap(config) + 2);
    forall i: nat | 1 < i < Gap(config) + 2 ensures At(p, i) == UL {
      ConfigGap(config, 1, i);
    }
  }

  /** For a TDD configuration the test needs no more than its numbers. */
  lemma ConfigInOrderIff(c: Cell)
    requires c.granule > 0 && c.TxSymbols() > 0 && c.duplex.TDD? && Supported(c.duplex)
    ensures InOrder(c, Pattern(c.duplex)) <==>
            c.SpecialLength() + c.Extension() <= (Gap(c.duplex.config) + 1) * c.spt
  {
    var p, config := Pattern(c.duplex), c.duplex.config;
    SupportedPatterns(c.duplex);
    WindowsInOrderIff(c, p);
    ConfigHasGap(config);
    forall n: nat, m: nat | GapAt(p, n, m) ensures m - n == Gap(config) + 1 {
      ConfigGapAt(config, n, m);
    }
  }

  /** Inside a burst, and so always in FDD, the windows join without a gap. */
  lemma WindowsJoin(c: Cell, p: seq<SubframeType>, n: nat)
    requires c.granule > 0 && LocalRules(p) && At(p, n) == DL
    ensures At(p, n + 1) != UL && EndOf(c, p, n) == StartOf(c, p, n + 1)
  {
    PatternOrder(p, n);
    Distribute(n, 1, c.spt);
  }

  // ----- the operation -----

  datatype Outcome = Aborted | Silent | Wrote(start: int, length: int, flag: Flag)

  /** What the radio is asked to do for subframe `n`. */
  function Written(c: Cell, late: Late, n: nat): Outcome
    requires c.granule > 0
  {
    if !Supported(c.duplex) then Aborted
    else
      var p := Pattern(c.duplex);
      if At(p, n) == UL then Silent
      else if At(p, n) == S && c.TxSymbols() == 0 then Aborted
      else
        var act := React(late, FlagOf(p, n));
        if act.send then Wrote(StartOf(c, p, n), EndOf(c, p, n) - StartOf(c, p, n), act.flag) else Silent
  }

  /** The file-global `late_control`. */
  class LateControl {
    var late: Late

    constructor ()
      ensures late == NORMAL
    {
      late := NORMAL;
    }
  }

  /** One radio unit; all of them share one `LateControl`. */
  class Transmitter {
    const control: LateControl
    var southOut: nat

    constructor (control: LateControl)
      ensures this.control == control && southOut == 0
    {
      this.control := control;
      southOut := 0;
    }

    /** `tx_rf` for absolute subframe `n`; `taken` is what the radio answers, the number of samples it accepted. */
    method TxRf(c: Cell, n: nat, taken: int, usrpTxThread: bool) returns (out: Outcome)
      requires c.granule > 0
      modifies this, control
      ensures out == Written(c, old(control.late), n)
      ensures out.Aborted? <==>
                !Supported(c.duplex) || (At(Pattern(c.duplex), n) == S && c.TxSymbols() == 0)
      ensures out.Silent? <==>
                && Supported(c.duplex)
                && (|| At(Pattern(c.duplex), n) == UL
                    || ((old(control.late) == STOP_1 || old(control.late) == STOP_2)
                        && !(At(Pattern(c.duplex), n) == S && c.TxSymbols() == 0)))
      ensures southOut == old(southOut) + if out.Wrote? then 1 else 0
      ensures out.Wrote? && React(old(control.late), MIDDLE).next == NORMAL && !usrpTxThread && taken != out.length ==>
                control.late == TERMINATE
      ensures out.Wrote? && (React(old(control.late), MIDDLE).next != NORMAL || usrpTxThread || taken == out.length) ==>
                control.late == React(old(control.late), MIDDLE).next
      ensures out.Aborted? || (out.Silent? && At(Pattern(c.duplex), n) == UL) ==> control.late == old(control.late)
      ensures out.Silent? && At(Pattern(c.duplex), n) != UL ==> control.late == React(old(control.late), MIDDLE).next
    {
      var kind := SubframeSelect(c.duplex, n % 10);
      if kind.None? {
        return Aborted;
      }
      if kind.value == UL {
        return Silent;
      }
      var siglen: int, flag, extension := c.spt, MIDDLE, 0;
      if kind.value == S {
        if c.TxSymbols() == 0 {
          return Aborted;
        }
        siglen := c.SpecialLength();
        flag := END;
      }
      if c.duplex.TDD? && kind.value == DL && SubframeSelect(c.duplex, (n + 9) % 10) == Some(UL) {
        flag := START;
        extension := c.Extension();
      }
      if control.late != NORMAL {
        match control.late
        case TERMINATE =>
          flag := END_NO_TIME_SPEC;
          control.late := STOP_1;
        case STOP_1 =>
          control.late := STOP_2;
          return Silent;
        case STOP_2 =>
          control.late := RESTART;
          return Silent;
        case RESTART =>
          flag := START;
          control.late := NORMAL;
      }
      out := Wrote(n * c.spt + c.tsOffset - extension, siglen + extension, flag);
      southOut := southOut + 1;
      if !usrpTxThread && taken != siglen + extension && control.late == NORMAL {
        control.late := TERMINATE;
      }
    }
  }
}
