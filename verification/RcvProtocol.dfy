/**
 * packet_rcv_wait and packet_rcv_wakeup (wireway_dev.c) for the receiver of one cpu and any number
 * of wakers: one atomic access a step, in any interleaving.
 */
module RcvProtocol {

  /** task_state[cpu] */
  datatype TaskState = ThreadIdle | ThreadWait | ThreadRunning | ThreadRun

  /** Where the receiver is. */
  datatype Receiver =
    | Working      // outside packet_rcv_wait
    | Yielding     // its exchange returned thread_run: it will not sleep
    | Marking      // before set_current_state(TASK_UNINTERRUPTIBLE)
    | Blocked      // inside schedule()

  /** Where a waker is with this cpu. `episode` is the one its exchange claimed. */
  datatype Waker =
    | Away
    | Exchanging                 // read a state other than thread_run
    | Waking(episode: nat)       // about to call wake_up_process
    | Rechecking(episode: nat)   // wake_up_process returned 0

  /** The shared state, the scheduler's view (`sleepy`: TASK_UNINTERRUPTIBLE), and history. */
  datatype State = State(
    task: TaskState, rcv: Receiver, sleepy: bool, wakers: seq<Waker>,
    episode: nat,          // how many times the receiver has begun to wait
    claims: seq<nat>,      // the episodes claimed, in order
    forced: bool,          // an exchange returned thread_running since the last wait began
    missed: bool)          // wake_up_process came before the receiver of this episode was marked

  datatype Action = Receive | Wake(who: nat)

  function Init(wakers: nat): State {
    State(ThreadIdle, Working, false, seq(wakers, _ => Away), 0, [], false, false)
  }

  function Step(s: State, a: Action): State {
    match a
    case Receive => ReceiverStep(s)
    case Wake(who) => if who < |s.wakers| then WakerStep(s, who) else s
  }

  function ReceiverStep(s: State): State {
    match s.rcv
    case Working =>
      // atomic_xchg(thread_wait)
      s.(task := ThreadWait, rcv := if s.task == ThreadRun then Yielding else Marking, episode := s.episode + 1,
          forced := false, missed := false)
    case Yielding => s.(task := ThreadRunning, rcv := Working)
    case Marking => s.(rcv := Blocked, sleepy := true)
    case Blocked => if s.sleepy then s else s.(task := ThreadRunning, rcv := Working)
  }

  function WakerStep(s: State, who: nat): State
    requires who < |s.wakers|
  {
    match s.wakers[who]
    case Away => if s.task == ThreadRun then s else s.(wakers := s.wakers[who := Exchanging])
    case Exchanging =>
      // atomic_xchg(thread_run)
      var t := s.(task := ThreadRun, forced := s.forced || s.task == ThreadRunning);
      if s.task == ThreadRun || s.task == ThreadRunning then t.(wakers := s.wakers[who := Away])
      else t.(wakers := s.wakers[who := Waking(s.episode)], claims := s.claims + [s.episode])
    case Waking(e) =>
      if s.sleepy then s.(sleepy := false, wakers := s.wakers[who := Away])
      else s.(wakers := s.wakers[who := Rechecking(e)], missed := s.missed || (e == s.episode && s.rcv == Marking))
    case Rechecking(e) => s.(wakers := s.wakers[who := if s.task == ThreadRunning then Waking(e) else Away])
  }

  /** Some waker is about to wake the receiver out of its present episode. */
  ghost predicate Coming(s: State) {
    exists w :: 0 <= w < |s.wakers| && s.wakers[w] == Waking(s.episode)
  }

  ghost predicate Inv(s: State) {
    && (s.task == ThreadRunning ==> s.rcv == Working)
    && (s.task == ThreadIdle ==> s.rcv == Working && s.episode == 0 && s.claims == [])
    && (s.rcv != Working ==> s.episode > 0)
    && (s.task == ThreadWait ==> s.rcv != Working && !s.missed && forall k | 0 <= k < |s.claims| ::
        s.claims[k] < s.episode)
    && (forall k | 0 <= k < |s.claims| :: s.claims[k] <= s.episode)
    && (forall j, k | 0 <= j < k < |s.claims| :: s.claims[j] < s.claims[k])
    && (s.rcv != Working && s.task == ThreadRun ==> s.episode in s.claims)
    && (s.forced ==> s.rcv == Working && s.task == ThreadRun)
    && (s.sleepy ==> s.rcv == Blocked)
    && (s.missed ==> s.task != ThreadWait)
    && (s.rcv == Marking && s.task == ThreadRun && !s.missed ==> Coming(s))
    && (s.rcv == Blocked && s.sleepy && s.task == ThreadRun && !s.missed ==> Coming(s))
    && (forall w | 0 <= w < |s.wakers| && (s.wakers[w].Waking? || s.wakers[w].Rechecking?) ::
        s.wakers[w].episode in s.claims)
    && (forall v, w | 0 <= v < w < |s.wakers| && (s.wakers[v].Waking? || s.wakers[v].Rechecking?)
        && (s.wakers[w].Waking? || s.wakers[w].Rechecking?) ::
          s.wakers[v].episode != s.wakers[w].episode)
  }

  lemma {:induction false} ReceiverKeeps(s: State)
    requires Inv(s)
    ensures Inv(ReceiverStep(s))
  {
    var t := ReceiverStep(s);
    if Coming(s) && t.episode == s.episode {
      var w :| 0 <= w < |s.wakers| && s.wakers[w] == Waking(s.episode);
      assert t.wakers[w] == Waking(t.episode);
    }
  }

  lemma {:induction false} ComingKept(s: State, t: State, who: nat)
    requires Coming(s) && who < |s.wakers| && s.wakers[who] != Waking(s.episode)
    requires t.episode == s.episode && |t.wakers| == |s.wakers| && t.wakers == s.wakers[who := t.wakers[who]]
    ensures Coming(t)
  {
    var w :| 0 <= w < |s.wakers| && s.wakers[w] == Waking(s.episode);
    assert t.wakers[w] == Waking(t.episode);
  }

  lemma {:induction false} ExchangeKeeps(s: State, who: nat)
    requires Inv(s) && who < |s.wakers| && s.wakers[who] == Exchanging
    ensures Inv(WakerStep(s, who))
  {
    var t := WakerStep(s, who);
    if s.task == ThreadRun || s.task == ThreadRunning {
      if Coming(s) { ComingKept(s, t, who); }
    } else {
      assert t.wakers[who] == Waking(t.episode);
    }
  }

  lemma {:induction false} WakingKeeps(s: State, who: nat)
    requires Inv(s) && who < |s.wakers| && s.wakers[who].Waking?
    ensures Inv(WakerStep(s, who))
  {
    hide Coming;
    if Coming(s) && s.wakers[who] != Waking(s.episode) { ComingKept(s, WakerStep(s, who), who); }
  }

  lemma {:induction false} WakerKeeps(s: State, who: nat)
    requires Inv(s) && who < |s.wakers|
    ensures Inv(WakerStep(s, who))
  {
    hide Coming;
    if s.wakers[who] == Exchanging {
      ExchangeKeeps(s, who);
    } else if s.wakers[who].Waking? {
      WakingKeeps(s, who);
    } else if Coming(s) {
      ComingKept(s, WakerStep(s, who), who);
    }
  }

  lemma {:induction false} StepKeeps(s: State, a: Action)
    requires Inv(s)
    ensures Inv(Step(s, a))
  {
    hide Inv, ReceiverStep, WakerStep;
    match a
    case Receive => ReceiverKeeps(s);
    case Wake(who) => if who < |s.wakers| { WakerKeeps(s, who); }
  }

  /** A run: the receiver and the wakers step in any order. */
  ghost predicate Run(ss: seq<State>) {
    && ss != [] && (exists n: nat :: ss[0] == Init(n))
    && forall k | 0 <= k < |ss| - 1 :: Next(ss[k], ss[k + 1])
  }

  ghost predicate Next(s: State, t: State) {
    exists a :: t == Step(s, a)
  }

  lemma {:induction false} RunKeeps(ss: seq<State>, k: nat)
    requires Run(ss) && k < |ss|
    ensures Inv(ss[k])
    decreases k
  {
    hide Inv, Step;
    if k == 0 {
      var n: nat :| ss[0] == Init(n);
      InitHolds(n);
    } else {
      RunKeeps(ss, k - 1);
      assert Next(ss[k - 1], ss[k - 1 + 1]);
      var a :| ss[k] == Step(ss[k - 1], a);
      StepKeeps(ss[k - 1], a);
    }
  }

  lemma {:induction false} InitHolds(n: nat)
    ensures Inv(Init(n))
  {}

  /* ---------- main results ---------- */

  /** In every interleaving each wait episode is claimed by at most one waker. */
  lemma {:induction false} OneClaimEach(ss: seq<State>, k: nat, i: nat, j: nat)
    requires Run(ss) && k < |ss| && i < j < |ss[k].claims|
    ensures ss[k].claims[i] != ss[k].claims[j]
  {
    RunKeeps(ss, k);
  }

  /** And no two wakers ever hold the same claim. */
  lemma {:induction false} OneWakerEach(ss: seq<State>, k: nat, v: nat, w: nat)
    requires Run(ss) && k < |ss| && v < w < |ss[k].wakers|
    requires ss[k].wakers[v].Waking? || ss[k].wakers[v].Rechecking?
    requires ss[k].wakers[w].Waking? || ss[k].wakers[w].Rechecking?
    ensures ss[k].wakers[v].episode != ss[k].wakers[w].episode
  {
    RunKeeps(ss, k);
  }

  /** A waker whose exchange returned thread_running makes the receiver's next wait yield instead of sleep. */
  lemma {:induction false} NextWaitYields(ss: seq<State>, k: nat, who: nat, m: nat)
    requires Run(ss) && k < m < |ss| && who < |ss[k].wakers|
    requires ss[k].wakers[who] == Exchanging && ss[k].task == ThreadRunning && ss[k + 1] == WakerStep(ss[k], who)
    requires forall j | k < j <= m :: ss[j].episode == ss[k].episode
    ensures ss[m].forced && ss[m].rcv == Working && ReceiverStep(ss[m]).rcv == Yielding
    decreases m
  {
    hide Inv, Step;
    if m > k + 1 {
      NextWaitYields(ss, k, who, m - 1);
      assert Next(ss[m - 1], ss[m - 1 + 1]);
      var a :| ss[m] == Step(ss[m - 1], a);
      ForcedStays(ss[m - 1], a);
    }
    RunKeeps(ss, m);
    ForcedYields(ss[m]);
  }

  lemma {:induction false} ForcedStays(s: State, a: Action)
    requires s.forced
    ensures Step(s, a).forced || Step(s, a).episode == s.episode + 1
  {}

  lemma {:induction false} ForcedYields(s: State)
    requires Inv(s) && s.forced
    ensures s.rcv == Working && ReceiverStep(s).rcv == Yielding
  {}

  /** A receiver asleep although its state says it was woken, with nobody about to wake it. */
  ghost predicate Lost(s: State) {
    s.rcv == Blocked && s.sleepy && s.task == ThreadRun && forall w | 0 <= w < |s.wakers| :: !s.wakers[w].Waking?
  }

  /**
   * A wakeup is lost exactly through the window between the exchange and set_current_state: the
   * wake_up_process of the present episode fell into it, and nobody is about to call another.
   */
  lemma {:induction false} LostIff(ss: seq<State>, k: nat)
    requires Run(ss) && k < |ss|
    ensures Lost(ss[k]) <==>
              ss[k].missed && ss[k].rcv == Blocked && ss[k].sleepy
              && forall w | 0 <= w < |ss[k].wakers| :: !ss[k].wakers[w].Waking?
  {
    RunKeeps(ss, k);
  }

  /** Otherwise a sleeping receiver is still unclaimed, or the waker that claimed it is about to wake it. */
  lemma {:induction false} SleepsUnmissed(ss: seq<State>, k: nat)
    requires Run(ss) && k < |ss| && ss[k].rcv == Blocked && ss[k].sleepy && !ss[k].missed
    ensures ss[k].task == ThreadWait || Coming(ss[k])
  {
    RunKeeps(ss, k);
  }

  /** Once lost it stays lost, whatever any waker does. */
  lemma {:induction false} LostForever(ss: seq<State>, k: nat, m: nat)
    requires Run(ss) && k <= m < |ss| && Lost(ss[k])
    ensures Lost(ss[m])
    decreases m
  {
    hide Lost, Step;
    if k < m {
      LostForever(ss, k, m - 1);
      assert Next(ss[m - 1], ss[m - 1 + 1]);
      var a :| ss[m] == Step(ss[m - 1], a);
      LostStays(ss[m - 1], a);
    }
  }

  lemma {:induction false} LostStays(s: State, a: Action)
    requires Lost(s)
    ensures Lost(Step(s, a))
  {}

  /** The states that the actions lead through. */
  function Trace(s: State, actions: seq<Action>): (ss: seq<State>)
    ensures |ss| == |actions| + 1 && ss[0] == s
    decreases |actions|
  {
    if actions == [] then [s] else [s] + Trace(Step(s, actions[0]), actions[1..])
  }

  lemma {:induction false} TraceNext(s: State, actions: seq<Action>, k: nat)
    requires k < |actions|
    ensures Next(Trace(s, actions)[k], Trace(s, actions)[k + 1])
    decreases k
  {
    hide Step;
    var t := Step(s, actions[0]);
    if k == 0 {
      assert Trace(t, actions[1..])[0] == t;
      assert Next(s, t);
    } else {
      TraceNext(t, actions[1..], k - 1);
    }
  }

  lemma {:induction false} TraceEnd(s: State, actions: seq<Action>, a: Action)
    ensures Last(Trace(s, actions + [a])) == Step(Last(Trace(s, actions)), a)
    decreases |actions|
  {
    hide Step;
    if actions == [] {
      assert ([] + [a])[1..] == [];
    } else {
      assert (actions + [a])[1..] == actions[1..] + [a];
      TraceEnd(Step(s, actions[0]), actions[1..], a);
    }
  }

  function Last(ss: seq<State>): State
    requires ss != []
  {
    ss[|ss| - 1]
  }

  /**
   * The window is real: the receiver exchanges; the waker reads thread_wait, claims, calls
   * wake_up_process too early and gives up; the receiver marks itself and sleeps for ever.
   */
  lemma {:induction false} WakeupCanBeLost()
    ensures var ss := Trace(Init(1), [Receive, Wake(0), Wake(0), Wake(0), Wake(0), Receive]);
            Run(ss) && Lost(Last(ss))
  {
    hide Step, Lost;
    var s, w := Init(1), Wake(0);
    var actions := [Receive, w, w, w, w, Receive];
    var ss := Trace(s, actions);
    forall k | 0 <= k < |ss| - 1 ensures Next(ss[k], ss[k + 1]) { TraceNext(s, actions, k); }
    TraceEnd(s, [], Receive);
    TraceEnd(s, [Receive], w);
    TraceEnd(s, [Receive, w], w);
    TraceEnd(s, [Receive, w, w], w);
    TraceEnd(s, [Receive, w, w, w], w);
    TraceEnd(s, [Receive, w, w, w, w], Receive);
    assert [] + [Receive] == [Receive] && [Receive] + [w] == [Receive, w] && [Receive, w] + [w] == [Receive, w, w];
    assert [Receive, w, w] + [w] == [Receive, w, w, w] && [Receive, w, w, w] + [w] == [Receive, w, w, w, w];
    assert [Receive, w, w, w, w] + [Receive] == actions;
    LostEnd(s);
  }

  lemma {:induction false} LostEnd(s: State)
    requires s == Init(1)
    ensures var t := Step(Step(Step(Step(Step(s, Receive), Wake(0)), Wake(0)), Wake(0)), Wake(0));
            Lost(Step(t, Receive))
  {}

  /* ---------- a receiver asleep and unclaimed ---------- */

  /** A run with its actions. */
  ghost predicate Acts(ss: seq<State>, acts: seq<Action>) {
    |ss| == |acts| + 1 && forall j | 0 <= j < |acts| :: ss[j + 1] == Step(ss[j], acts[j])
  }

  /** How many of the actions in [k, m) are steps of waker `who`. */
  function StepsOf(acts: seq<Action>, who: nat, k: nat, m: nat): nat
    requires m <= |acts|
  {
    if m <= k then 0 else StepsOf(acts, who, k, m - 1) + if acts[m - 1] == Wake(who) then 1 else 0
  }

  predicate Asleep(s: State, e: nat) {
    s.episode == e && s.rcv == Blocked && s.sleepy
  }

  /** Episode `e` is past its window. */
  predicate Since(s: State, e: nat) {
    s.episode > e || (s.episode == e && (s.rcv == Blocked || s.rcv == Working) && (s.rcv == Working ==> !s.sleepy))
  }

  /** As long as the receiver sleeps unclaimed, waker `who` has taken no more than its first step. */
  ghost predicate Waited(s: State, e: nat, who: nat, steps: nat) {
    && Since(s, e) && who < |s.wakers|
    && (Asleep(s, e) ==> !s.missed && (s.task == ThreadWait || s.task == ThreadRun))
    && (Asleep(s, e) && s.task == ThreadWait ==>
          (steps == 0 && s.wakers[who] == Away) || (steps == 1 && s.wakers[who] == Exchanging))
  }

  lemma {:induction false} WaitedStep(s: State, a: Action, e: nat, who: nat, steps: nat)
    requires Waited(s, e, who, steps)
    ensures Waited(Step(s, a), e, who, steps + if a == Wake(who) then 1 else 0)
  {}

  lemma {:induction false} WaitedLong(ss: seq<State>, acts: seq<Action>, k: nat, m: nat, who: nat)
    requires Acts(ss, acts) && k <= m <= |acts| && Waited(ss[k], ss[k].episode, who, 0)
    ensures Waited(ss[m], ss[k].episode, who, StepsOf(acts, who, k, m))
    decreases m
  {
    hide Waited, Step;
    if k < m {
      WaitedLong(ss, acts, k, m - 1, who);
      assert ss[m - 1 + 1] == Step(ss[m - 1], acts[m - 1]);
      WaitedStep(ss[m - 1], acts[m - 1], ss[k].episode, who, StepsOf(acts, who, k, m - 1));
    }
  }

  lemma {:induction false} ActsRun(ss: seq<State>, acts: seq<Action>, n: nat)
    requires Acts(ss, acts) && ss[0] == Init(n)
    ensures Run(ss)
  {
    hide Step, Init;
    forall k | 0 <= k < |ss| - 1 ensures Next(ss[k], ss[k + 1]) { assert ss[k + 1] == Step(ss[k], acts[k]); }
  }

  /**
   * A receiver asleep and unclaimed: once any waker that comes has taken two steps, whatever the others
   * did in between, the receiver is awake or some waker has claimed it and wakes it with its next step.
   */
  lemma {:induction false} WaitIsWoken(ss: seq<State>, acts: seq<Action>, n: nat, k: nat, m: nat, who: nat)
    requires Acts(ss, acts) && ss[0] == Init(n) && k <= m <= |acts|
    requires Asleep(ss[k], ss[k].episode) && ss[k].task == ThreadWait
    requires who < |ss[k].wakers| && ss[k].wakers[who] == Away && StepsOf(acts, who, k, m) >= 2
    ensures Asleep(ss[m], ss[k].episode) ==>
              exists w :: 0 <= w < |ss[m].wakers| && ss[m].wakers[w] == Waking(ss[m].episode)
                  && !Step(ss[m], Wake(w)).sleepy
  {
    ActsRun(ss, acts, n);
    RunKeeps(ss, k);
    RunKeeps(ss, m);
    WaitedLong(ss, acts, k, m, who);
    if Asleep(ss[m], ss[k].episode) {
      assert Coming(ss[m]);
      var w :| 0 <= w < |ss[m].wakers| && ss[m].wakers[w] == Waking(ss[m].episode);
      assert !WakerStep(ss[m], w).sleepy;
    }
  }

  /** Only its own steps move a waker. */
  lemma {:induction false} WakerStays(ss: seq<State>, acts: seq<Action>, m: nat, p: nat, w: nat)
    requires Acts(ss, acts) && m <= p <= |acts| && StepsOf(acts, w, m, p) == 0 && w < |ss[m].wakers|
    ensures w < |ss[p].wakers| && ss[p].wakers[w] == ss[m].wakers[w]
    decreases p
  {
    if m < p {
      WakerStays(ss, acts, m, p - 1, w);
      assert ss[p - 1 + 1] == Step(ss[p - 1], acts[p - 1]);
    }
  }

  /** That next step may come as late as it likes: after it the receiver is not asleep. */
  lemma {:induction false} ClaimerWakes(ss: seq<State>, acts: seq<Action>, m: nat, p: nat, w: nat)
    requires Acts(ss, acts) && m <= p < |acts| && StepsOf(acts, w, m, p) == 0 && acts[p] == Wake(w)
    requires w < |ss[m].wakers| && ss[m].wakers[w].Waking?
    ensures !ss[p + 1].sleepy
  {
    WakerStays(ss, acts, m, p, w);
  }
}
