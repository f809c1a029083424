/** What each call of packet_rcv_wait and packet_rcv_wakeup comes to, in any interleaving. */
module RcvAnswers {
  import opened RcvProtocol

  /** Action `j` is the exchange of a waker. */
  predicate Exchanges(ss: seq<State>, acts: seq<Action>, j: nat)
    requires |ss| == |acts| + 1 && j < |acts|
  {
    acts[j].Wake? && acts[j].who < |ss[j].wakers| && ss[j].wakers[acts[j].who] == Exchanging
  }

  /** Some waker exchanges in [k, m). */
  ghost predicate Marked(ss: seq<State>, acts: seq<Action>, k: nat, m: nat)
    requires |ss| == |acts| + 1 && m <= |acts|
  {
    exists j | k <= j < m :: Exchanges(ss, acts, j)
  }

  /** The receiver does not move in [k, m). */
  predicate Still(acts: seq<Action>, k: nat, m: nat)
    requires m <= |acts|
  {
    forall j | k <= j < m :: acts[j] != Receive
  }

  /* ---------- the receiver ---------- */

  lemma {:induction false} WakersOnly(s: State, who: nat)
    requires who < |s.wakers|
    ensures var t := WakerStep(s, who);
            && t.rcv == s.rcv && t.episode == s.episode && (t.sleepy ==> s.sleepy)
            && t.task == if s.wakers[who] == Exchanging then ThreadRun else s.task
  {}

  /** While the receiver works, its state is thread_run exactly if a waker has exchanged. */
  lemma {:induction false} MarkedIff(ss: seq<State>, acts: seq<Action>, k: nat, m: nat)
    requires Acts(ss, acts) && k <= m <= |acts| && Still(acts, k, m) && ss[k].task != ThreadRun
    ensures ss[m].rcv == ss[k].rcv && (ss[m].task == ThreadRun <==> Marked(ss, acts, k, m))
    decreases m
  {
    hide WakerStep, ReceiverStep;
    if k < m {
      MarkedIff(ss, acts, k, m - 1);
      assert ss[m - 1 + 1] == Step(ss[m - 1], acts[m - 1]);
      var who := acts[m - 1].who;
      if who < |ss[m - 1].wakers| { WakersOnly(ss[m - 1], who); }
      assert Still(acts, k, m - 1) && acts[m - 1] != Receive;
      MarkedMore(ss, acts, k, m);
    }
  }

  lemma {:induction false} MarkedMore(ss: seq<State>, acts: seq<Action>, k: nat, m: nat)
    requires |ss| == |acts| + 1 && k < m <= |acts|
    ensures Marked(ss, acts, k, m) <==> Marked(ss, acts, k, m - 1) || Exchanges(ss, acts, m - 1)
  {
    hide Exchanges;
    if Marked(ss, acts, k, m - 1) {
      var j :| k <= j < m - 1 && Exchanges(ss, acts, j);
      assert k <= j < m && Exchanges(ss, acts, j);
    }
  }

  /** The receiver's next step, whatever wakers do before it: to sleep, back to work, or still asleep. */
  lemma {:induction false} OwnStep(ss: seq<State>, acts: seq<Action>, m: nat, p: nat)
    requires Acts(ss, acts) && m <= p < |acts| && Still(acts, m, p) && acts[p] == Receive
    ensures ss[p].rcv == ss[m].rcv
    ensures ss[m].rcv == Marking ==> ss[p + 1].rcv == Blocked && ss[p + 1].sleepy
    ensures ss[m].rcv == Yielding || (ss[m].rcv == Blocked && !ss[m].sleepy) ==>
              ss[p + 1].rcv == Working && ss[p + 1].task == ThreadRunning
    ensures ss[m].rcv == Blocked && ss[p].sleepy ==> ss[p + 1] == ss[p]
    decreases p
  {
    hide WakerStep;
    StillThere(ss, acts, m, p);
    assert ss[p + 1] == Step(ss[p], acts[p]);
  }

  lemma {:induction false} StillThere(ss: seq<State>, acts: seq<Action>, m: nat, p: nat)
    requires Acts(ss, acts) && m <= p <= |acts| && Still(acts, m, p)
    ensures ss[p].rcv == ss[m].rcv && (ss[p].sleepy ==> ss[m].sleepy)
    decreases p
  {
    hide WakerStep, ReceiverStep;
    if m < p {
      StillThere(ss, acts, m, p - 1);
      assert ss[p - 1 + 1] == Step(ss[p - 1], acts[p - 1]);
      var who := acts[p - 1].who;
      if who < |ss[p - 1].wakers| { WakersOnly(ss[p - 1], who); }
    }
  }

  /** At `k` the receiver has just come back from a wait, or the run begins. */
  ghost predicate Back(ss: seq<State>, acts: seq<Action>, n: nat, k: nat) {
    && Acts(ss, acts) && k <= |acts| && ss[0] == Init(n)
    && (k > 0 ==> acts[k - 1] == Receive && ss[k - 1].rcv != Working && ss[k].rcv == Working)
  }

  /**
   * packet_rcv_wait: at its next own step after the exchange the receiver is back at work if some waker
   * exchanged since it last came back, and asleep if none did.
   */
  lemma {:induction false} WaitSleepsIff(ss: seq<State>, acts: seq<Action>, n: nat, k: nat, m: nat, p: nat)
    requires Back(ss, acts, n, k) && k <= m < p < |acts|
    requires Still(acts, k, m) && acts[m] == Receive && Still(acts, m + 1, p) && acts[p] == Receive
    ensures if Marked(ss, acts, k, m) then ss[p + 1].rcv == Working && ss[p + 1].task == ThreadRunning
            else ss[m + 1].task == ThreadWait && ss[p + 1].rcv == Blocked && ss[p + 1].sleepy
  {
    hide WakerStep, Marked;
    if k > 0 { assert ss[k - 1 + 1] == Step(ss[k - 1], acts[k - 1]); }
    MarkedIff(ss, acts, k, m);
    assert ss[m + 1] == Step(ss[m], acts[m]);
    OwnStep(ss, acts, m + 1, p);
  }

  /* ---------- a waker ---------- */

  /**
   * A call of packet_rcv_wakeup that does not find thread_run: its second step leaves thread_run,
   * and it goes on to wake the receiver exactly if the exchange returned neither thread_run nor thread_running.
   */
  lemma {:induction false} CallClaims(ss: seq<State>, acts: seq<Action>, k: nat, m: nat, who: nat)
    requires Acts(ss, acts) && k < m < |acts| && acts[k] == Wake(who) && acts[m] == Wake(who)
    requires StepsOf(acts, who, k + 1, m) == 0 && who < |ss[k].wakers| && ss[k].wakers[who] == Away
    ensures who < |ss[m + 1].wakers|
    ensures ss[k].task == ThreadRun ==> ss[k + 1] == ss[k]
    ensures ss[k].task != ThreadRun ==>
              && ss[m + 1].task == ThreadRun
              && ss[m + 1].wakers[who]
                   == if ss[m].task == ThreadWait || ss[m].task == ThreadIdle then Waking(ss[m].episode) else Away
  {
    assert ss[k + 1] == Step(ss[k], acts[k]);
    WakerStays(ss, acts, k + 1, m, who);
    assert ss[m + 1] == Step(ss[m], acts[m]);
  }

  /**
   * wake_up_process wakes a sleeper and is done. Otherwise the waker looks again: it makes another
   * call exactly if it then finds thread_running.
   */
  lemma {:induction false} CallsAgain(ss: seq<State>, acts: seq<Action>, k: nat, m: nat, who: nat)
    requires Acts(ss, acts) && k < m < |acts| && acts[k] == Wake(who) && acts[m] == Wake(who)
    requires StepsOf(acts, who, k + 1, m) == 0 && who < |ss[k].wakers| && ss[k].wakers[who].Waking?
    ensures who < |ss[k + 1].wakers| && who < |ss[m + 1].wakers| && !ss[k + 1].sleepy
    ensures ss[k].sleepy ==> ss[k + 1].wakers[who] == Away
    ensures !ss[k].sleepy ==>
              ss[m + 1].wakers[who] == if ss[m].task == ThreadRunning then ss[k].wakers[who] else Away
  {
    assert ss[k + 1] == Step(ss[k], acts[k]);
    WakerStays(ss, acts, k + 1, m, who);
    assert ss[m + 1] == Step(ss[m], acts[m]);
  }
}
