/**
 The two accesses to a radio unit's `wait_cnt`.

 Its own thread tests the count, and decrements it by a load and a store, without any mutex; then it calls
 `wakeup_L1s`, which under `mutex_RU` stores 0 over a count of 1 outside subframe 9.  The calls of the other
 radio units do the same to it.
 */
module WaitCount {
  import opened Transition

  datatype Lock = Free | ByOwn | ByOther

  datatype OwnPc = OTest | OLoad | OSave(loaded: int) | OLock | OSettle | OZero | OUnlock

  /** The other radio unit that holds the mutex. */
  datatype OtherPc = XTest | XZero | XUnlock

  datatype State = State(others: nat, cnt: int, lock: Lock, own: OwnPc, other: OtherPc)

  /** `nine` says that the caller is in subframe 9. */
  datatype Event = Own(nine: bool) | Other(nine: bool)

  function Init(others: nat, start: nat): State {
    State(others, start, Free, OTest, XTest)
  }

  function Step(s: State, e: Event): Option<State> {
    match e
    case Own(nine) =>
      (match s.own
       case OTest => Some(s.(own := if s.cnt > 0 then OLoad else OLock))
       case OLoad => Some(s.(own := OSave(s.cnt)))
       case OSave(loaded) => Some(s.(cnt := loaded - 1, own := OLock))
       case OLock => if s.lock == Free then Some(s.(lock := ByOwn, own := OSettle)) else None
       case OSettle => Some(s.(own := if s.cnt == 1 && !nine then OZero else OUnlock))
       case OZero => Some(s.(cnt := 0, own := OUnlock))
       case OUnlock => Some(s.(lock := Free, own := OTest)))
    case Other(nine) =>
      if s.lock == Free && s.others > 0 then Some(s.(lock := ByOther, other := XTest))
      else if s.lock != ByOther then None
      else
        match s.other
        case XTest => Some(s.(other := if s.cnt == 1 && !nine then XZero else XUnlock))
        case XZero => Some(s.(cnt := 0, other := XUnlock))
        case XUnlock => Some(s.(lock := Free))
  }

  /** Another radio unit has seen the count at one and is about to store zero. */
  predicate Zeroing(s: State) {
    s.lock == ByOther && s.other == XZero
  }

  /** The own thread is between its test and its store. */
  predicate Decrementing(s: State) {
    s.own.OLoad? || s.own.OSave?
  }

  ghost predicate Inv(s: State) {
    && s.cnt >= -1
    && (s.lock == ByOwn <==> s.own.OSettle? || s.own.OZero? || s.own.OUnlock?)
    && (s.own.OZero? ==> s.cnt == 1)
    && (s.own.OLoad? ==> s.cnt >= 0)
    && (s.own.OSave? ==> s.own.loaded >= 0 && (s.cnt == s.own.loaded || s.cnt == 0))
    && (Zeroing(s) ==> s.cnt == 1 || (s.cnt == 0 && s.own == OLock))
    && (Zeroing(s) && s.own.OSave? ==> s.own.loaded == 1)
    && (s.cnt == -1 ==> !Decrementing(s) && !s.own.OZero? && !Zeroing(s))
  }

  lemma StepKeepsInv(s: State, e: Event)
    requires Inv(s) && Step(s, e).Some?
    ensures Inv(Step(s, e).value)
    ensures s.cnt == -1 ==> Step(s, e).value.cnt == -1
  {
  }

  lemma InvAlways(others: nat, start: nat, run: seq<Event>, s: State)
    requires Exec(Step, Init(others, start), run) == Some(s)
    ensures Inv(s)
  {
    forall x: State, e: Event | Inv(x) && Step(x, e).Some? ensures Inv(Step(x, e).value) {
      StepKeepsInv(x, e);
    }
    InvariantHolds(Step, Inv, Init(others, start), run);
  }

  /** The count never falls below -1. */
  lemma NeverBelow(others: nat, start: nat, run: seq<Event>, s: State)
    requires Exec(Step, Init(others, start), run) == Some(s)
    ensures s.cnt >= -1
  {
    InvAlways(others, start, run, s);
  }

  lemma StepStays(others: nat, start: nat, run: seq<Event>, u: State, e: Event)
    requires Exec(Step, Init(others, start), run) == Some(u) && u.cnt == -1 && Step(u, e).Some?
    ensures Step(u, e).value.cnt == -1
  {
    InvAlways(others, start, run, u);
    StepKeepsInv(u, e);
  }

  /** And once it is there it stays for the rest of the run. */
  lemma {:induction false} NegativeStays(others: nat, start: nat, run: seq<Event>, s: State, more: seq<Event>, t: State)
    requires Exec(Step, Init(others, start), run) == Some(s) && s.cnt == -1
    requires Exec(Step, Init(others, start), run + more) == Some(t)
    ensures t.cnt == -1
    decreases |more|
  {
    if more == [] {
      assert run + more == run;
    } else {
      var most, all := more[..|more| - 1], run + more;
      assert all[..|all| - 1] == run + most;
      var u := Exec(Step, Init(others, start), run + most).value;
      NegativeStays(others, start, run, s, most, u);
      StepStays(others, start, run + most, u, more[|more| - 1]);
    }
  }

  // ----- when it happens -----

  /** Without another radio unit, or without anything to wait for, nobody interferes. */
  ghost predicate QuietInv(s: State) {
    && s.cnt >= 0
    && (s.lock == ByOwn <==> s.own.OSettle? || s.own.OZero? || s.own.OUnlock?)
    && (s.own.OZero? ==> s.cnt == 1)
    && (s.own.OLoad? ==> s.cnt >= 1)
    && (s.own.OSave? ==> s.own.loaded == s.cnt >= 1)
    && (s.others == 0 || (s.cnt == 0 && !Zeroing(s)))
    && (s.others == 0 ==> s.lock != ByOther)
  }

  lemma QuietKept(s: State, e: Event)
    requires QuietInv(s) && Step(s, e).Some?
    ensures QuietInv(Step(s, e).value)
  {
  }

  lemma NeverNegative(others: nat, start: nat, run: seq<Event>, s: State)
    requires Exec(Step, Init(others, start), run) == Some(s) && (others == 0 || start == 0)
    ensures s.cnt >= 0
  {
    forall x: State, e: Event | QuietInv(x) && Step(x, e).Some? ensures QuietInv(Step(x, e).value) {
      QuietKept(x, e);
    }
    InvariantHolds(Step, QuietInv, Init(others, start), run);
  }

  /** The own thread up to its test under the mutex: five events. */
  lemma UpToSettle(init: State, run: seq<Event>, others: nat, k: nat, e: Event)
    requires e.Own? && Exec(Step, init, run) == Some(Init(others, k + 1))
    ensures Exec(Step, init, run + [e, e, e, e]) == Some(Init(others, k).(lock := ByOwn, own := OSettle))
  {
    var s, t := Init(others, k + 1), Init(others, k);
    ExecFour(Step, init, run, s, e, s.(own := OLoad), e, s.(own := OSave(k + 1)), e, t.(own := OLock),
             e, t.(lock := ByOwn, own := OSettle));
  }

  /** One undisturbed turn of the own thread: it counts down by one, and from one to zero at once outside subframe 9. */
  lemma OneTurn(init: State, run: seq<Event>, others: nat, k: nat, nine: bool) returns (run': seq<Event>)
    requires Exec(Step, init, run) == Some(Init(others, k + 1))
    ensures Exec(Step, init, run') == Some(Init(others, if k == 1 && !nine then 0 else k))
  {
    var e := Own(nine);
    UpToSettle(init, run, others, k, e);
    run' := run + [e, e, e, e];
    var t := Init(others, k).(lock := ByOwn, own := OSettle);
    if k == 1 && !nine {
      ExecMore(Step, init, run', t, e, t.(own := OZero));
      ExecMore(Step, init, run' + [e], t.(own := OZero), e, t.(own := OUnlock, cnt := 0));
      ExecMore(Step, init, run' + [e] + [e], t.(own := OUnlock, cnt := 0), e, Init(others, 0));
      run' := run' + [e] + [e] + [e];
    } else {
      ExecMore(Step, init, run', t, e, t.(own := OUnlock));
      ExecMore(Step, init, run' + [e], t.(own := OUnlock), e, Init(others, k));
      run' := run' + [e] + [e];
    }
  }

  lemma {:induction false} CountDown(init: State, run: seq<Event>, others: nat, k: nat) returns (run': seq<Event>)
    requires k > 0 && Exec(Step, init, run) == Some(Init(others, k))
    ensures Exec(Step, init, run') == Some(Init(others, 1))
    decreases k
  {
    if k == 1 {
      run' := run;
    } else {
      run' := OneTurn(init, run, others, k - 1, true);
      run' := CountDown(init, run', others, k - 1);
    }
  }

  /** At a count of one: the own thread tests, another one stores zero, the own thread decrements. */
  lemma Overrun(init: State, run: seq<Event>, others: nat) returns (run': seq<Event>)
    requires others > 0 && Exec(Step, init, run) == Some(Init(others, 1))
    ensures Exec(Step, init, run').Some? && Exec(Step, init, run').value.cnt == -1
  {
    var e, x := Own(false), Other(false);
    var s := Init(others, 1).(own := OLoad);
    var t := s.(lock := ByOther, cnt := 0, other := XUnlock);
    ExecFour(Step, init, run, Init(others, 1), e, s, x, s.(lock := ByOther),
             x, s.(lock := ByOther, other := XZero), x, t);
    run' := run + [e, x, x, x];
    ExecMore(Step, init, run', t, e, t.(own := OSave(0)));
    ExecMore(Step, init, run' + [e], t.(own := OSave(0)), e, t.(cnt := -1, own := OLock));
    run' := run' + [e] + [e];
  }

  /** All calls of the other radio units are made in subframe 9. */
  ghost predicate OthersInNine(run: seq<Event>) {
    forall i :: 0 <= i < |run| && run[i].Other? ==> run[i].nine
  }

  ghost predicate NineInv(s: State) {
    && s.cnt >= 0 && !Zeroing(s)
    && (s.lock == ByOwn <==> s.own.OSettle? || s.own.OZero? || s.own.OUnlock?)
    && (s.own.OZero? ==> s.cnt == 1)
    && (s.own.OLoad? ==> s.cnt >= 1)
    && (s.own.OSave? ==> s.own.loaded == s.cnt >= 1)
  }

  /** In subframe 9 nobody else stores zero, and then the count never goes negative. */
  lemma {:induction false} NineIsSafe(others: nat, start: nat, run: seq<Event>, s: State)
    requires Exec(Step, Init(others, start), run) == Some(s) && OthersInNine(run)
    ensures NineInv(s)
  {
    if run == [] {
    } else {
      var x := Exec(Step, Init(others, start), run[..|run| - 1]).value;
      NineIsSafe(others, start, run[..|run| - 1], x);
    }
  }

  ghost predicate NegativeReachable(others: nat, start: nat) {
    exists run :: Exec(Step, Init(others, start), run).Some? && Exec(Step, Init(others, start), run).value.cnt < 0
  }

  /** The count can go negative if and only if it starts above zero and there is another radio unit. */
  lemma NegativeIff(others: nat, start: nat)
    ensures NegativeReachable(others, start) <==> others > 0 && start > 0
  {
    var init := Init(others, start);
    if others > 0 && start > 0 {
      var run := CountDown(init, [], others, start);
      run := Overrun(init, run, others);
    } else if NegativeReachable(others, start) {
      var run :| Exec(Step, init, run).Some? && Exec(Step, init, run).value.cnt < 0;
      NeverNegative(others, start, run, Exec(Step, init, run).value);
    }
  }
}
