/**
 The UE main thread and its two workers in RF-simulator mode.

 Each worker has its own counter, mutex and condition variable; the main thread and the worker sleep on
 the same condition variable.  Before it posts a subframe the main thread waits until BOTH workers are
 done; a worker processes its subframe while it holds its mutex.  When subframe 0 is posted the main
 thread advances `frame_rx` of both workers although it holds the mutex of only one of them.
 */
module UePipeline {
  import opened Transition

  datatype Id = W0 | W1

  /** What a worker processes. */
  datatype Job = Job(worker: Id, frameRx: int, subframeRx: int, frameTx: int, subframeTx: int)

  datatype Owner = Free | ByMain | ByWorker

  datatype WorkerPc = WLock | WCheck | WSleep | WWoken | WProcess | WDecrement | WSignal | WUnlock

  /** One `UE_rxtx_proc_t` with its thread. */
  datatype Worker = Worker(pc: WorkerPc, cnt: int, owner: Owner,
                           frameRx: int, subframeRx: int, frameTx: int, subframeTx: int)

  datatype MainPc =
    | MNext
    | MLock(t: Id) | MCheck(t: Id) | MSleep(t: Id) | MWoken(t: Id) | MUnlock(t: Id)
    | MRead | MPost | MFrame0 | MFrame1 | MStore | MSignal | MPostUnlock

  /** `sub` is the main thread's `sub_frame`, `idx` its `thread_idx` and `cur` the worker it posts to. */
  datatype State = State(
    m: MainPc, sub: int, idx: Id, cur: Id, w0: Worker, w1: Worker,
    posted: seq<Job>, processed: seq<Job>, adjusted: seq<Option<int>>, served: seq<Job>, spurious: nat)

  /** `Work(t, adjust)`: when worker `t` processes, `adjust` is the frame number the receiver finds, if it differs. */
  datatype Event = Main | Work(t: Id, adjust: Option<int>) | SpuriousMain | SpuriousWorker(t: Id)

  function Init(frame: int): State {
    var w := Worker(WLock, -1, Free, frame, 0, 0, 0);
    State(MNext, -1, W0, W0, w, w.(subframeRx := 1), [], [], [], [], 0)
  }

  function At(s: State, t: Id): Worker {
    if t == W0 then s.w0 else s.w1
  }

  function With(s: State, t: Id, w: Worker): State {
    if t == W0 then s.(w0 := w) else s.(w1 := w)
  }

  /** The job that a worker's fields describe. */
  function JobOf(t: Id, w: Worker): Job {
    Job(t, w.frameRx, w.subframeRx, w.frameTx, w.subframeTx)
  }

  /** The fields the main thread stores for subframe `sub`, and the counter it increments. */
  function Filled(w: Worker, sub: int): Worker {
    w.(subframeRx := sub, subframeTx := (sub + 4) % 10,
       frameTx := w.frameRx + (if sub > 5 then 1 else 0), cnt := w.cnt + 1)
  }

  /** The fields of a job as the scheduler and the transmit half find them, after the receive procedure. */
  function AfterReceive(job: Job, adjust: Option<int>): Job {
    match adjust
    case None => job
    case Some(f) => job.(frameRx := f, frameTx := f)
  }

  /** The receive procedure sets the frame numbers of both workers, whichever of them runs it. */
  function Adjusted(s: State, adjust: Option<int>): State {
    match adjust
    case None => s
    case Some(f) =>
      s.(w0 := s.w0.(frameRx := f, frameTx := f), w1 := s.w1.(frameRx := f, frameTx := f))
  }

  function MainStep(s: State): Option<State> {
    match s.m
    case MNext => Some(s.(sub := (s.sub + 1) % 10, cur := s.idx, m := MLock(W0)))
    case MLock(t) =>
      if At(s, t).owner == Free then Some(With(s, t, At(s, t).(owner := ByMain)).(m := MCheck(t))) else None
    case MCheck(t) =>
      if At(s, t).cnt >= 0 then Some(With(s, t, At(s, t).(owner := Free)).(m := MSleep(t)))
      else Some(s.(m := MUnlock(t)))
    case MSleep(_) => None
    case MWoken(t) =>
      if At(s, t).owner == Free then Some(With(s, t, At(s, t).(owner := ByMain)).(m := MCheck(t))) else None
    case MUnlock(t) =>
      Some(With(s, t, At(s, t).(owner := Free)).(m := if t == W0 then MLock(W1) else MRead))
    case MRead => Some(s.(idx := if s.idx == W0 then W1 else W0, m := MPost))
    case MPost =>
      if At(s, s.cur).owner == Free
      then Some(With(s, s.cur, At(s, s.cur).(owner := ByMain)).(m := if s.sub == 0 then MFrame0 else MStore))
      else None
    case MFrame0 => Some(s.(w0 := s.w0.(frameRx := s.w0.frameRx + 1), m := MFrame1))
    case MFrame1 => Some(s.(w1 := s.w1.(frameRx := s.w1.frameRx + 1), m := MStore))
    case MStore =>
      var w := Filled(At(s, s.cur), s.sub);
      Some(With(s, s.cur, w).(m := MSignal, posted := s.posted + [JobOf(s.cur, w)]))
    case MSignal =>
      var w := At(s, s.cur);
      Some(With(s, s.cur, w.(pc := if w.pc == WSleep then WWoken else w.pc)).(m := MPostUnlock))
    case MPostUnlock => Some(With(s, s.cur, At(s, s.cur).(owner := Free)).(m := MNext))
  }

  function WorkerStep(s: State, t: Id, adjust: Option<int>): Option<State> {
    var w := At(s, t);
    match w.pc
    case WLock => if w.owner == Free then Some(With(s, t, w.(owner := ByWorker, pc := WCheck))) else None
    case WCheck =>
      if w.cnt < 0 then Some(With(s, t, w.(owner := Free, pc := WSleep)))
      else Some(With(s, t, w.(pc := WProcess)))
    case WSleep => None
    case WWoken => if w.owner == Free then Some(With(s, t, w.(owner := ByWorker, pc := WCheck))) else None
    case WProcess =>
      var a := Adjusted(With(s, t, w.(pc := WDecrement)), adjust);
      Some(a.(processed := s.processed + [JobOf(t, w)], adjusted := s.adjusted + [adjust],
              served := s.served + [JobOf(t, At(a, t))]))
    case WDecrement => Some(With(s, t, w.(cnt := w.cnt - 1, pc := WSignal)))
    case WSignal => Some(With(s, t, w.(pc := WUnlock)).(m := if s.m == MSleep(t) then MWoken(t) else s.m))
    case WUnlock => Some(With(s, t, w.(owner := Free, pc := WLock)))
  }

  function Step(s: State, e: Event): Option<State> {
    match e
    case Main => MainStep(s)
    case Work(t, adjust) => WorkerStep(s, t, adjust)
    case SpuriousMain =>
      if s.m.MSleep? then Some(s.(m := MWoken(s.m.t), spurious := s.spurious + 1)) else None
    case SpuriousWorker(t) =>
      if At(s, t).pc == WSleep
      then Some(With(s, t, At(s, t).(pc := WWoken)).(spurious := s.spurious + 1)) else None
  }

  /** The main thread holds the mutex of worker `t`. */
  predicate MainHolds(s: State, t: Id) {
    || ((s.m.MCheck? || s.m.MUnlock?) && s.m.t == t)
    || ((s.m.MFrame0? || s.m.MFrame1? || s.m.MStore? || s.m.MSignal? || s.m.MPostUnlock?) && s.cur == t)
  }

  predicate WorkerHolds(pc: WorkerPc) {
    pc.WCheck? || pc.WProcess? || pc.WDecrement? || pc.WSignal? || pc.WUnlock?
  }

  /** The main thread has seen both workers idle and has not posted since. */
  predicate PassedBoth(m: MainPc) {
    m == MUnlock(W1) || m.MRead? || m.MPost? || m.MFrame0? || m.MFrame1? || m.MStore?
  }

  /** The main thread has seen worker `t` idle and has not posted since. */
  predicate Passed(m: MainPc, t: Id) {
    || PassedBoth(m)
    || (t == W0 && (m == MUnlock(W0) || m == MLock(W1) || m == MCheck(W1) || m == MSleep(W1) || m == MWoken(W1)))
  }

  ghost predicate WorkerInv(s: State, t: Id) {
    var w := At(s, t);
    && w.cnt in {-1, 0}
    && (w.owner == ByMain <==> MainHolds(s, t))
    && (w.owner == ByWorker <==> WorkerHolds(w.pc))
    && (w.pc == WProcess || w.pc == WDecrement ==> w.cnt == 0)
    && (w.pc == WSignal || w.pc == WUnlock ==> w.cnt == -1)
    && (Passed(s.m, t) ==> w.cnt == -1)
    && (w.pc == WSleep ==> w.cnt == -1 || (s.m == MSignal && s.cur == t))
    && (s.m == MSleep(t) ==> w.cnt == 0 || w.pc == WSignal)
  }

  ghost predicate ControlInv(s: State) {
    && WorkerInv(s, W0) && WorkerInv(s, W1)
    && (s.w0.cnt == -1 || s.w1.cnt == -1)
    && (s.m == MSignal || s.m == MPostUnlock ==> At(s, s.cur).cnt == 0)
  }

  /** The worker, the subframe number and the frame advance of the k-th iteration, as the loop counts them. */
  function WorkerOf(k: nat): Id {
    if k == 0 then W0 else if WorkerOf(k - 1) == W0 then W1 else W0
  }

  function SubOf(k: nat): int {
    if k == 0 then 0 else (SubOf(k - 1) + 1) % 10
  }

  /** The frame number before iteration `k`: the one of the iteration before, or what the receiver made of it. */
  function FrameBefore(frame: int, adjusted: seq<Option<int>>, k: nat): int
    requires k <= |adjusted|
  {
    if k == 0 then frame
    else
      match adjusted[k - 1]
      case None => FrameBefore(frame, adjusted, k - 1) + Advance(k - 1)
      case Some(f) => f
  }

  /** The frame number advances when subframe 0 is posted. */
  function Advance(k: nat): int {
    if SubOf(k) == 0 then 1 else 0
  }

  function FrameOf(frame: int, adjusted: seq<Option<int>>, k: nat): int
    requires k <= |adjusted|
  {
    FrameBefore(frame, adjusted, k) + Advance(k)
  }

  function LoopJob(frame: int, adjusted: seq<Option<int>>, k: nat): Job
    requires k <= |adjusted|
  {
    var frameRx := FrameOf(frame, adjusted, k);
    Job(WorkerOf(k), frameRx, SubOf(k), frameRx + (if SubOf(k) > 5 then 1 else 0), (SubOf(k) + 4) % 10)
  }

  /**
   The sequential loop: the subframes go to the workers in turn, the k-th one carries subframe number `k % 10`
   and is transmitted four subframes later.
   */
  function Sequential(frame: int, adjusted: seq<Option<int>>, k: nat): Job
    requires k <= |adjusted|
  {
    var frameRx := FrameOf(frame, adjusted, k);
    Job(if k % 2 == 0 then W0 else W1, frameRx, k % 10, frameRx + (if k % 10 > 5 then 1 else 0), (k + 4) % 10)
  }

  lemma {:induction false} LoopWorkers(k: nat)
    ensures WorkerOf(k) == if k % 2 == 0 then W0 else W1
  {
    if k == 0 {
    } else {
      LoopWorkers(k - 1);
    }
  }

  lemma FourAhead(k: nat)
    ensures (k % 10 + 4) % 10 == (k + 4) % 10
  {
  }

  lemma NextDigit(k: nat)
    ensures (k % 10 + 1) % 10 == (k + 1) % 10
  {
  }

  lemma {:induction false} LoopSubframes(k: nat)
    ensures SubOf(k) == k % 10
  {
    if k == 0 {
    } else {
      LoopSubframes(k - 1);
      NextDigit(k - 1);
    }
  }

  lemma LoopJobClosed(frame: int, adjusted: seq<Option<int>>, k: nat)
    requires k <= |adjusted|
    ensures LoopJob(frame, adjusted, k) == Sequential(frame, adjusted, k)
  {
    LoopWorkers(k);
    LoopSubframes(k);
    FourAhead(k);
  }

  /** Every job of the loop is transmitted exactly four subframes after it was received. */
  lemma FourLater(frame: int, adjusted: seq<Option<int>>, k: nat)
    requires k <= |adjusted|
    ensures var j := LoopJob(frame, adjusted, k);
            && 0 <= j.subframeRx < 10 && 0 <= j.subframeTx < 10
            && j.frameTx * 10 + j.subframeTx == j.frameRx * 10 + j.subframeRx + 4
  {
    LoopSubframes(k);
  }

  /** Without adjustments from iteration `j` on, the frame numbers count whole frames. */
  lemma {:induction false} LoopFrames(frame: int, adjusted: seq<Option<int>>, j: nat, k: nat)
    requires j <= k <= |adjusted| && forall i :: j <= i < k ==> adjusted[i] == None
    ensures FrameOf(frame, adjusted, k) == FrameOf(frame, adjusted, j) + k / 10 - j / 10
  {
    LoopSubframes(k);
    if k == j {
    } else {
      LoopFrames(frame, adjusted, j, k - 1);
    }
  }

  /** The frame numbers in closed form: from the start, or from the last adjustment, at iteration `j`. */
  lemma LoopFramesClosed(frame: int, adjusted: seq<Option<int>>, k: nat)
    requires k <= |adjusted|
    ensures (forall i :: 0 <= i < k ==> adjusted[i] == None) ==> FrameOf(frame, adjusted, k) == frame + 1 + k / 10
    ensures forall j :: 0 <= j < k && adjusted[j].Some? && (forall i :: j < i < k ==> adjusted[i] == None) ==>
                          FrameOf(frame, adjusted, k) == adjusted[j].value + k / 10 - j / 10
  {
    if forall i :: 0 <= i < k ==> adjusted[i] == None {
      LoopFrames(frame, adjusted, 0, k);
    }
    forall j | 0 <= j < k && adjusted[j].Some? && (forall i :: j < i < k ==> adjusted[i] == None)
      ensures FrameOf(frame, adjusted, k) == adjusted[j].value + k / 10 - j / 10
    {
      LoopFrames(frame, adjusted, j + 1, k);
      LoopSubframes(j + 1);
    }
  }

  /** The frame numbers do not depend on later adjustments. */
  lemma {:induction false} FramePrefix(frame: int, a: seq<Option<int>>, b: seq<Option<int>>, k: nat)
    requires a <= b && k <= |a|
    ensures FrameBefore(frame, a, k) == FrameBefore(frame, b, k)
  {
    if k == 0 {
    } else {
      FramePrefix(frame, a, b, k - 1);
      assert a[k - 1] == b[k - 1];
    }
  }

  /** The main thread has started an iteration and not yet posted its subframe. */
  predicate InIteration(m: MainPc) {
    !m.MNext? && !m.MSignal? && !m.MPostUnlock?
  }

  /** The main thread's counters are those of iteration `k`, the number of subframes posted so far. */
  ghost predicate CounterInv(s: State) {
    var k := |s.posted|;
    && s.idx == (if s.m.MPost? || s.m.MFrame0? || s.m.MFrame1? || s.m.MStore? then WorkerOf(k + 1) else WorkerOf(k))
    && (InIteration(s.m) ==> s.sub == SubOf(k) && s.cur == WorkerOf(k))
    && (!InIteration(s.m) ==> s.sub == (if k == 0 then -1 else SubOf(k - 1)))
    && (s.m == MFrame0 || s.m == MFrame1 ==> s.sub == 0)
  }

  /** The frame number of the posted subframe that is not processed yet, or the one to go on from. */
  ghost predicate FrameInv(frame: int, s: State) {
    var k, p := |s.posted|, |s.processed|;
    && |s.adjusted| == p <= k <= p + 1
    && (PassedBoth(s.m) ==> p == k)
    && var now := if p == k then FrameBefore(frame, s.adjusted, k) else FrameOf(frame, s.adjusted, p);
       && s.w0.frameRx == now + (if s.m == MFrame1 || s.m == MStore then Advance(k) else 0)
       && s.w1.frameRx == now + (if s.m == MStore then Advance(k) else 0)
  }

  ghost predicate LoopInv(frame: int, s: State) {
    |s.posted| <= |s.adjusted| + 1
    && forall j :: 0 <= j < |s.posted| ==> s.posted[j] == LoopJob(frame, s.adjusted, j)
  }

  /** Worker `t` holds a subframe it has not processed yet. */
  predicate Outstanding(w: Worker) {
    w.cnt == 0 && w.pc != WDecrement
  }

  ghost predicate DeliveryInv(s: State) {
    && (Outstanding(s.w0) ==> s.posted == s.processed + [JobOf(W0, s.w0)])
    && (Outstanding(s.w1) ==> s.posted == s.processed + [JobOf(W1, s.w1)])
    && (!Outstanding(s.w0) && !Outstanding(s.w1) ==> s.posted == s.processed)
  }

  ghost predicate Inv(frame: int, s: State) {
    ControlInv(s) && CounterInv(s) && FrameInv(frame, s) && LoopInv(frame, s) && DeliveryInv(s)
  }

  lemma MainKeepsWorker0(s: State)
    requires WorkerInv(s, W0) && MainStep(s).Some?
    ensures WorkerInv(MainStep(s).value, W0)
  {
  }

  lemma MainKeepsWorker1(s: State)
    requires WorkerInv(s, W1) && MainStep(s).Some?
    ensures WorkerInv(MainStep(s).value, W1)
  {
  }

  lemma MainKeepsControl(s: State)
    requires ControlInv(s) && MainStep(s).Some?
    ensures ControlInv(MainStep(s).value)
  {
    MainKeepsWorker0(s);
    MainKeepsWorker1(s);
  }

  lemma WorkerKeepsItself(s: State, t: Id, adjust: Option<int>)
    requires WorkerInv(s, t) && WorkerStep(s, t, adjust).Some?
    ensures WorkerInv(WorkerStep(s, t, adjust).value, t)
  {
  }

  lemma WorkerKeepsOther(s: State, t: Id, u: Id, adjust: Option<int>)
    requires t != u && WorkerInv(s, t) && WorkerInv(s, u) && WorkerStep(s, t, adjust).Some?
    ensures WorkerInv(WorkerStep(s, t, adjust).value, u)
  {
  }

  lemma WorkerKeepsControl(s: State, t: Id, adjust: Option<int>)
    requires ControlInv(s) && WorkerStep(s, t, adjust).Some?
    ensures ControlInv(WorkerStep(s, t, adjust).value)
  {
    WorkerKeepsItself(s, t, adjust);
    WorkerKeepsOther(s, t, if t == W0 then W1 else W0, adjust);
  }

  lemma MainKeepsCounters(s: State)
    requires CounterInv(s) && MainStep(s).Some?
    ensures CounterInv(MainStep(s).value)
  {
  }

  /** When the main thread has passed both workers everything posted is processed. */
  lemma PassedAll(s: State)
    requires ControlInv(s) && DeliveryInv(s) && PassedBoth(s.m)
    ensures s.posted == s.processed
  {
  }

  lemma MainKeepsFrames(frame: int, s: State)
    requires CounterInv(s) && FrameInv(frame, s) && MainStep(s).Some?
    requires var r := MainStep(s).value; PassedBoth(r.m) ==> |r.posted| == |r.processed|
    ensures FrameInv(frame, MainStep(s).value)
  {
  }

  lemma MainKeepsLoop(frame: int, s: State)
    requires CounterInv(s) && FrameInv(frame, s) && LoopInv(frame, s) && MainStep(s).Some?
    ensures LoopInv(frame, MainStep(s).value)
  {
    if s.m == MStore {
      assert JobOf(s.cur, Filled(At(s, s.cur), s.sub)) == LoopJob(frame, s.adjusted, |s.posted|);
    }
  }

  lemma MainKeepsDelivery(s: State)
    requires ControlInv(s) && DeliveryInv(s) && MainStep(s).Some?
    ensures DeliveryInv(MainStep(s).value)
  {
  }

  /** A worker changes nothing the main thread counts, except that it may wake the main thread. */
  lemma WorkerTouches(s: State, t: Id, adjust: Option<int>)
    requires WorkerStep(s, t, adjust).Some?
    ensures var r := WorkerStep(s, t, adjust).value;
            && (r.m == s.m || (s.m.MSleep? && r.m == MWoken(s.m.t)))
            && r.sub == s.sub && r.idx == s.idx && r.cur == s.cur && r.posted == s.posted
            && (At(s, t).pc != WProcess ==>
                  && r.w0.frameRx == s.w0.frameRx && r.w1.frameRx == s.w1.frameRx
                  && r.processed == s.processed && r.adjusted == s.adjusted)
  {
  }

  lemma WorkerKeepsDelivery(s: State, t: Id, adjust: Option<int>)
    requires ControlInv(s) && DeliveryInv(s) && WorkerStep(s, t, adjust).Some?
    ensures DeliveryInv(WorkerStep(s, t, adjust).value)
  {
  }

  lemma MainStepKeepsInv(frame: int, s: State)
    requires Inv(frame, s) && MainStep(s).Some?
    ensures Inv(frame, MainStep(s).value)
  {
    MainKeepsControl(s);
    MainKeepsCounters(s);
    MainKeepsDelivery(s);
    if PassedBoth(MainStep(s).value.m) {
      PassedAll(MainStep(s).value);
    }
    MainKeepsFrames(frame, s);
    MainKeepsLoop(frame, s);
  }

  /** What the main thread counts survives any step that leaves it alone or wakes it. */
  lemma CountersFramed(frame: int, s: State, r: State)
    requires CounterInv(s) && FrameInv(frame, s) && LoopInv(frame, s)
    requires r.m == s.m || (s.m.MSleep? && r.m == MWoken(s.m.t))
    requires r.sub == s.sub && r.idx == s.idx && r.cur == s.cur && r.posted == s.posted
    requires r.processed == s.processed && r.adjusted == s.adjusted
    requires r.w0.frameRx == s.w0.frameRx && r.w1.frameRx == s.w1.frameRx
    ensures CounterInv(r) && FrameInv(frame, r) && LoopInv(frame, r)
  {
  }

  /** The fields that processing a subframe changes, while the main thread is at no place where it advances frames. */
  lemma ProcessChanges(s: State, t: Id, adjust: Option<int>)
    requires ControlInv(s) && DeliveryInv(s) && At(s, t).pc == WProcess
    ensures !PassedBoth(s.m) && |s.posted| == |s.processed| + 1
    ensures var r := WorkerStep(s, t, adjust).value;
            && r.m == s.m && r.posted == s.posted && |r.processed| == |s.processed| + 1
            && r.adjusted == s.adjusted + [adjust]
            && r.w0.frameRx == (if adjust.Some? then adjust.value else s.w0.frameRx)
            && r.w1.frameRx == (if adjust.Some? then adjust.value else s.w1.frameRx)
  {
  }

  lemma ProcessKeepsFrames(frame: int, s: State, t: Id, adjust: Option<int>)
    requires ControlInv(s) && DeliveryInv(s) && FrameInv(frame, s) && At(s, t).pc == WProcess
    ensures FrameInv(frame, WorkerStep(s, t, adjust).value)
  {
    var r := WorkerStep(s, t, adjust).value;
    ProcessChanges(s, t, adjust);
    FramePrefix(frame, s.adjusted, r.adjusted, |s.adjusted|);
  }

  lemma ProcessKeepsLoop(frame: int, s: State, t: Id, adjust: Option<int>)
    requires ControlInv(s) && DeliveryInv(s) && LoopInv(frame, s) && At(s, t).pc == WProcess
    ensures LoopInv(frame, WorkerStep(s, t, adjust).value)
  {
    var r := WorkerStep(s, t, adjust).value;
    ProcessChanges(s, t, adjust);
    forall j | 0 <= j < |r.posted| ensures r.posted[j] == LoopJob(frame, r.adjusted, j) {
      FramePrefix(frame, s.adjusted, r.adjusted, j);
    }
  }

  lemma WorkerStepKeepsInv(frame: int, s: State, t: Id, adjust: Option<int>)
    requires Inv(frame, s) && WorkerStep(s, t, adjust).Some?
    ensures Inv(frame, WorkerStep(s, t, adjust).value)
  {
    WorkerKeepsControl(s, t, adjust);
    WorkerTouches(s, t, adjust);
    WorkerKeepsDelivery(s, t, adjust);
    if At(s, t).pc == WProcess {
      ProcessKeepsFrames(frame, s, t, adjust);
      ProcessKeepsLoop(frame, s, t, adjust);
    } else {
      CountersFramed(frame, s, WorkerStep(s, t, adjust).value);
    }
  }

  lemma SpuriousKeepsControl(s: State, e: Event)
    requires ControlInv(s) && DeliveryInv(s) && (e.SpuriousMain? || e.SpuriousWorker?) && Step(s, e).Some?
    ensures ControlInv(Step(s, e).value) && DeliveryInv(Step(s, e).value)
  {
  }

  lemma SpuriousKeepsInv(frame: int, s: State, e: Event)
    requires Inv(frame, s) && (e.SpuriousMain? || e.SpuriousWorker?) && Step(s, e).Some?
    ensures Inv(frame, Step(s, e).value)
  {
    SpuriousKeepsControl(s, e);
    CountersFramed(frame, s, Step(s, e).value);
  }

  lemma StepKeepsInv(frame: int, s: State, e: Event)
    requires Inv(frame, s) && Step(s, e).Some?
    ensures Inv(frame, Step(s, e).value)
  {
    match e {
      case Main => MainStepKeepsInv(frame, s);
      case Work(t, adjust) => WorkerStepKeepsInv(frame, s, t, adjust);
      case SpuriousMain => SpuriousKeepsInv(frame, s, e);
      case SpuriousWorker(t) => SpuriousKeepsInv(frame, s, e);
    }
  }

  lemma InvAlways(frame: int, run: seq<Event>, s: State)
    requires Exec(Step, Init(frame), run) == Some(s)
    ensures Inv(frame, s)
  {
    var inv: State -> bool := x => Inv(frame, x);
    forall x: State, e: Event | inv(x) && Step(x, e).Some? ensures inv(Step(x, e).value) {
      StepKeepsInv(frame, x, e);
    }
    InvariantHolds(Step, inv, Init(frame), run);
  }

  ghost predicate ServedInv(s: State) {
    && |s.served| == |s.processed| == |s.adjusted|
    && forall k :: 0 <= k < |s.served| ==> s.served[k] == AfterReceive(s.processed[k], s.adjusted[k])
  }

  lemma MainKeepsServed(s: State)
    requires MainStep(s).Some?
    ensures var r := MainStep(s).value; r.served == s.served && r.processed == s.processed && r.adjusted == s.adjusted
  {
  }

  lemma WorkerKeepsServed(s: State, t: Id, adjust: Option<int>)
    requires ServedInv(s) && WorkerStep(s, t, adjust).Some?
    ensures ServedInv(WorkerStep(s, t, adjust).value)
  {
  }

  lemma ServedAlways(frame: int, run: seq<Event>, s: State)
    requires Exec(Step, Init(frame), run) == Some(s)
    ensures ServedInv(s)
  {
    forall x: State, e: Event | ServedInv(x) && Step(x, e).Some? ensures ServedInv(Step(x, e).value) {
      match e {
        case Main => MainKeepsServed(x);
        case Work(t, adjust) => WorkerKeepsServed(x, t, adjust);
        case SpuriousMain =>
        case SpuriousWorker(t) =>
      }
    }
    InvariantHolds(Step, ServedInv, Init(frame), run);
  }

  /**
   In every interleaving, and however the receiver adjusts the frame number, the pipeline refines the sequential
   loop with the same adjustments: the processed subframes are the first ones of the loop, each once and in
   order, the scheduler and the transmit half see them as adjusted, and at most one posted is unprocessed.
   */
  lemma RefinesSequentialLoop(frame: int, run: seq<Event>, s: State)
    requires Exec(Step, Init(frame), run) == Some(s)
    ensures && |s.adjusted| == |s.served| == |s.processed|
            && (forall k :: 0 <= k < |s.processed| ==> s.processed[k] == Sequential(frame, s.adjusted, k))
            && (forall k :: 0 <= k < |s.served| ==>
                              s.served[k] == AfterReceive(Sequential(frame, s.adjusted, k), s.adjusted[k]))
            && (forall k :: 0 <= k < |s.served| && s.adjusted[k].Some? ==>
                              s.served[k].frameRx == s.served[k].frameTx == s.adjusted[k].value)
            && s.processed <= s.posted && |s.posted| <= |s.processed| + 1
  {
    InvAlways(frame, run, s);
    ServedAlways(frame, run, s);
    forall k | 0 <= k < |s.processed| ensures s.processed[k] == Sequential(frame, s.adjusted, k) {
      LoopJobClosed(frame, s.adjusted, k);
    }
  }

  /** In every interleaving every posted job is for the subframe four later. */
  lemma PostedFourLater(frame: int, run: seq<Event>, s: State, k: nat)
    requires Exec(Step, Init(frame), run) == Some(s) && k < |s.posted|
    ensures var j := s.posted[k];
            && 0 <= j.subframeRx < 10 && 0 <= j.subframeTx < 10
            && j.frameTx * 10 + j.subframeTx == j.frameRx * 10 + j.subframeRx + 4
  {
    InvAlways(frame, run, s);
    FourLater(frame, s.adjusted, k);
  }

  /**
   The counters stay in {-1, 0}; a subframe is posted only after all earlier ones were processed; and no
   worker processes while the main thread advances the frame numbers, so the store to the worker whose
   mutex it does not hold is safe.
   */
  lemma BarrierBeforePost(frame: int, run: seq<Event>, s: State)
    requires Exec(Step, Init(frame), run) == Some(s)
    ensures && s.w0.cnt in {-1, 0} && s.w1.cnt in {-1, 0}
            && (PassedBoth(s.m) ==>
                  s.processed == s.posted && s.w0.pc != WProcess && s.w1.pc != WProcess)
  {
    InvAlways(frame, run, s);
  }

  /** The shared condition variables cause no deadlock: some thread can always take a step. */
  lemma NoDeadlock(frame: int, run: seq<Event>, s: State)
    requires Exec(Step, Init(frame), run) == Some(s)
    ensures Step(s, Main).Some? || Step(s, Work(W0, None)).Some? || Step(s, Work(W1, None)).Some?
  {
    InvAlways(frame, run, s);
    SomeoneRuns(s);
  }

  lemma SomeoneRuns(s: State)
    requires ControlInv(s)
    ensures MainStep(s).Some? || WorkerStep(s, W0, None).Some? || WorkerStep(s, W1, None).Some?
  {
  }

  function MainRank(s: State): nat {
    match s.m
    case MSignal => 0
    case MPostUnlock => 1
    case MNext => 2
    case MLock(t) => if t == W0 then 3 else 8
    case MCheck(t) => (if t == W0 then 4 else 9) + (if At(s, t).cnt >= 0 then 0 else 2)
    case MSleep(t) => if t == W0 then 5 else 10
    case MWoken(t) => (if t == W0 then 3 else 8) + (if At(s, t).cnt >= 0 then 0 else 2)
    case MUnlock(t) => if t == W0 then 7 else 12
    case MRead => 13
    case MPost => 14
    case MFrame0 => 15
    case MFrame1 => 16
    case MStore => 17
  }

  function WorkerRank(w: Worker): nat {
    match w.pc
    case WDecrement => 0
    case WSignal => 1
    case WUnlock => 2
    case WLock => 3
    case WCheck => if w.cnt < 0 then 4 else 6
    case WSleep => 5
    case WWoken => if w.cnt < 0 then 3 else 5
    case WProcess => 7
  }

  /** Events accounted for by what the state has achieved. */
  function Paid(s: State): nat {
    18 * |s.posted| + 8 * |s.processed| + 3 * s.spurious + MainRank(s) + WorkerRank(s.w0) + WorkerRank(s.w1)
  }

  lemma MainPays(s: State)
    requires ControlInv(s) && MainStep(s).Some?
    ensures Paid(MainStep(s).value) >= Paid(s) + 1
  {
  }

  lemma WorkerPays(s: State, t: Id, adjust: Option<int>)
    requires WorkerInv(s, t) && WorkerStep(s, t, adjust).Some?
    ensures Paid(WorkerStep(s, t, adjust).value) >= Paid(s) + 1
  {
  }

  lemma StepPays(s: State, e: Event)
    requires ControlInv(s) && Step(s, e).Some?
    ensures Paid(Step(s, e).value) >= Paid(s) + 1
  {
    match e {
      case Main => MainPays(s);
      case Work(t, adjust) => WorkerPays(s, t, adjust);
      case SpuriousMain =>
      case SpuriousWorker(t) =>
    }
  }

  lemma PaidBound(frame: int, s: State)
    requires Inv(frame, s)
    ensures Paid(s) <= 26 * |s.processed| + 3 * s.spurious + 49
  {
  }

  /**
   Progress without any fairness assumption: however the three threads are scheduled, a run has processed
   one subframe per 26 events, not counting spurious wake-ups (three events each) and the first 41 events.
   */
  lemma ThroughputBound(frame: int, run: seq<Event>, s: State)
    requires Exec(Step, Init(frame), run) == Some(s)
    ensures |run| <= 26 * |s.processed| + 3 * s.spurious + 41
  {
    var inv: State -> bool := x => Inv(frame, x);
    forall x: State, e: Event | inv(x) && Step(x, e).Some?
      ensures inv(Step(x, e).value)
    {
      StepKeepsInv(frame, x, e);
    }
    forall x: State, e: Event | inv(x) && Step(x, e).Some? ensures Paid(Step(x, e).value) >= Paid(x) + 1 {
      StepPays(x, e);
    }
    PotentialBounds(Step, inv, Paid, Init(frame), run);
    PaidBound(frame, s);
  }
}
