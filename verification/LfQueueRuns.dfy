/** What the lock-free queue promises over every run of any number of processes. */
module LfQueueRuns {
  import opened Unsigned
  import opened Rings
  import opened LfQueue
  import opened LfQueueProofs

  /** A run: processes take single steps in any order from the empty queue. */
  ghost predicate Run(g: Ring, ss: seq<State>) {
    && g.Ok() && ss != [] && (exists n: nat :: ss[0] == Init(g, n))
    && forall k | 0 <= k < |ss| - 1 :: Shape(g, ss[k]) && Next(g, ss[k], ss[k + 1])
  }

  ghost predicate Next(g: Ring, s: State, t: State)
    requires Shape(g, s)
  {
    exists i: nat, a :: i < |s.procs| && t == Step(g, s, i, a)
  }

  /* ---------- nothing is forgotten ---------- */

  predicate Claims(pc: Pc, n: nat) {
    (pc.Claimed? || pc.Filling?) && pc.at == n
  }

  ghost predicate Writing(s: State, n: nat) {
    exists i :: 0 <= i < |s.procs| && Claims(s.procs[i].pc, n)
  }

  ghost predicate BeingRead(s: State, n: nat) {
    exists i :: 0 <= i < |s.procs| && ReadAt(s.procs[i].pc) == n
  }

  ghost predicate Announcing(s: State, n: nat) {
    exists i :: 0 <= i < |s.procs| && s.procs[i].pc == Granting(n)
  }

  /**
   * Every claimed index is written or about to be, every taken one read or about to be, every begun block
   * granted or about to be.
   */
  ghost predicate Covered(g: Ring, s: State)
    requires g.Ok()
  {
    && (forall n: nat | n < s.w_idx :: n in s.written || Writing(s, n))
    && (forall n: nat | n < s.r_idx :: n in s.got || BeingRead(s, n))
    && (forall n | n in s.written && n % g.blk_len == 0 :: n / g.blk_len in s.grants || Announcing(s, n))
  }

  /** History is never rewritten. */
  ghost predicate Grows(s: State, t: State) {
    && s.w_idx <= t.w_idx && s.r_idx <= t.r_idx && s.grants <= t.grants
    && (forall n | n in s.written :: n in t.written && t.written[n] == s.written[n])
    && (forall n | n in s.got :: n in t.got && t.got[n] == s.got[n])
  }

  /** What the step of process `i` from `s` to `t` does about the duties of that process, old and new. */
  ghost predicate Duties(g: Ring, s: State, t: State, i: nat)
    requires g.Ok() && i < |s.procs|
  {
    && |t.procs| == |s.procs| && t.procs == s.procs[i := t.procs[i]]
    && Grows(s, t)
    && var pc, next := s.procs[i].pc, t.procs[i].pc;
       && (forall n: nat | Claims(pc, n) :: Claims(next, n) || n in t.written)
       && (pc.Granting? ==> pc.at / g.blk_len in t.grants)
       && (ReadAt(pc) >= 0 ==> ReadAt(next) == ReadAt(pc) || ReadAt(pc) in t.got)
       && (t.w_idx == s.w_idx || (t.w_idx == s.w_idx + 1 && Claims(next, s.w_idx)))
       && (t.r_idx == s.r_idx || (t.r_idx == s.r_idx + 1 && ReadAt(next) == s.r_idx))
       && (forall n | n in t.written && n !in s.written && n % g.blk_len == 0 :: next == Granting(n))
  }

  lemma {:induction false} WritesCovered(g: Ring, s: State, t: State, i: nat, n: nat)
    requires g.Ok() && i < |s.procs| && Covered(g, s) && Duties(g, s, t, i) && n < t.w_idx && n !in t.written
    ensures Writing(t, n)
  {
    if n < s.w_idx {
      assert Writing(s, n);
      var j :| 0 <= j < |s.procs| && Claims(s.procs[j].pc, n);
      assert Claims(t.procs[j].pc, n);
    } else {
      assert Claims(t.procs[i].pc, n);
    }
  }

  lemma {:induction false} ReadsCovered(g: Ring, s: State, t: State, i: nat, n: nat)
    requires g.Ok() && i < |s.procs| && Covered(g, s) && Duties(g, s, t, i) && n < t.r_idx && n !in t.got
    ensures BeingRead(t, n)
  {
    if n < s.r_idx {
      assert BeingRead(s, n);
      var j :| 0 <= j < |s.procs| && ReadAt(s.procs[j].pc) == n;
      assert ReadAt(t.procs[j].pc) == n;
    } else {
      assert ReadAt(t.procs[i].pc) == n;
    }
  }

  lemma {:induction false} GrantsCovered(g: Ring, s: State, t: State, i: nat, n: nat)
    requires g.Ok() && i < |s.procs| && Covered(g, s) && Duties(g, s, t, i)
    requires n in t.written && n % g.blk_len == 0 && n / g.blk_len !in t.grants
    ensures Announcing(t, n)
  {
    if n in s.written {
      assert Announcing(s, n);
      var j :| 0 <= j < |s.procs| && s.procs[j].pc == Granting(n);
      assert t.procs[j].pc == Granting(n);
    } else {
      assert t.procs[i].pc == Granting(n);
    }
  }

  /** A step that does its duties forgets nothing. */
  lemma {:induction false} CoveredStep(g: Ring, s: State, t: State, i: nat)
    requires g.Ok() && i < |s.procs| && Covered(g, s) && Duties(g, s, t, i)
    ensures Covered(g, t)
  {
    hide Duties, Writing, BeingRead, Announcing;
    forall n: nat | n < t.w_idx && n !in t.written ensures Writing(t, n) { WritesCovered(g, s, t, i, n); }
    forall n: nat | n < t.r_idx && n !in t.got ensures BeingRead(t, n) { ReadsCovered(g, s, t, i, n); }
    forall n | n in t.written && n % g.blk_len == 0 && n / g.blk_len !in t.grants ensures Announcing(t, n) {
      GrantsCovered(g, s, t, i, n);
    }
  }

  lemma {:induction false} StepDuties(g: Ring, s: State, i: nat, a: Action)
    requires Shape(g, s) && i < |s.procs| && PcOk(g, s, s.procs[i].pc)
    requires s.procs[i].pc.Claimed? ==> s.q[g.Slot(s.procs[i].pc.at)] == 0
    ensures Duties(g, s, Step(g, s, i, a), i)
  {
    hide Ring.Slot, Ring.Blk, Ring.Lap, Duties;
    if s.procs[i].pc.Idle? {
      IdleDuties(g, s, i, a);
    } else {
      BusyDuties(g, s, i, a);
    }
  }

  lemma {:induction false} IdleDuties(g: Ring, s: State, i: nat, a: Action)
    requires Shape(g, s) && i < |s.procs| && s.procs[i].pc.Idle?
    ensures Duties(g, s, Step(g, s, i, a), i)
  {
    hide Ring.Slot, Ring.Blk, Ring.Lap;
  }

  lemma {:induction false} BusyDuties(g: Ring, s: State, i: nat, a: Action)
    requires Shape(g, s) && i < |s.procs| && PcOk(g, s, s.procs[i].pc) && !s.procs[i].pc.Idle?
    requires s.procs[i].pc.Claimed? ==> s.q[g.Slot(s.procs[i].pc.at)] == 0
    ensures Duties(g, s, Step(g, s, i, a), i)
  {
    hide Ring.Slot, Ring.Blk, Ring.Lap;
  }

  /** One step only adds to what was written, read and granted, and forgets nothing. */
  lemma {:induction false} StepCovers(g: Ring, s: State, i: nat, a: Action)
    requires Inv(g, s) && Covered(g, s) && i < |s.procs|
    ensures Covered(g, Step(g, s, i, a)) && Grows(s, Step(g, s, i, a))
  {
    hide Ring.Slot, Ring.Blk, Ring.Lap, Covered, Permits, Credits, Cells, Step;
    CellsShape(g, s);
    assert PcOk(g, s, s.procs[i].pc);
    if s.procs[i].pc.Claimed? { NoOverlap(g, s, i); }
    StepDuties(g, s, i, a);
    CoveredStep(g, s, Step(g, s, i, a), i);
  }

  /** Every state of every run is sound. */
  lemma {:induction false} RunSound(g: Ring, ss: seq<State>, k: nat)
    requires Run(g, ss) && k < |ss|
    ensures Inv(g, ss[k]) && Covered(g, ss[k])
    decreases k
  {
    hide Inv, Covered, Step, Init;
    if k == 0 {
      var n: nat :| ss[0] == Init(g, n);
      InitHolds(g, n);
      InitCovered(g, n);
    } else {
      RunSound(g, ss, k - 1);
      assert Shape(g, ss[k - 1]) && Next(g, ss[k - 1], ss[k - 1 + 1]);
      var i: nat, a :| i < |ss[k - 1].procs| && ss[k] == Step(g, ss[k - 1], i, a);
      StepKeeps(g, ss[k - 1], i, a);
      StepCovers(g, ss[k - 1], i, a);
    }
  }

  lemma {:induction false} InitCovered(g: Ring, n: nat)
    requires g.Ok()
    ensures Covered(g, Init(g, n))
  {}

  lemma {:induction false} RunGrows(g: Ring, ss: seq<State>, j: nat, k: nat)
    requires Run(g, ss) && j <= k < |ss|
    ensures Grows(ss[j], ss[k])
    decreases k
  {
    hide Inv, Covered, Step, Init;
    if j < k {
      RunGrows(g, ss, j, k - 1);
      RunSound(g, ss, k - 1);
      assert Shape(g, ss[k - 1]) && Next(g, ss[k - 1], ss[k - 1 + 1]);
      var i: nat, a :| i < |ss[k - 1].procs| && ss[k] == Step(g, ss[k - 1], i, a);
      StepCovers(g, ss[k - 1], i, a);
    }
  }

  /* ---------- main results ---------- */

  /**
   * In no run does a writer that claimed an index find its slot in use, and in none does a reader get anything
   * but the item of its own index.
   */
  lemma {:induction false} Safe(g: Ring, ss: seq<State>, k: nat, i: nat)
    requires Run(g, ss) && k < |ss| && i < |ss[k].procs|
    ensures Shape(g, ss[k])
    ensures var s, pc := ss[k], ss[k].procs[i].pc;
            && (pc.Claimed? || pc.Filling? ==> s.q[g.Slot(pc.at)] == 0)
            && (pc.Got? ==> pc.at in s.written && pc.data == s.written[pc.at] && pc.at !in s.got)
  {
    hide Ring.Slot, Ring.Blk, Ring.Lap, Covered, Permits, Credits;
    RunSound(g, ss, k);
    var s, pc := ss[k], ss[k].procs[i].pc;
    assert PcOk(g, s, pc);
    if pc.Claimed? || pc.Filling? { NoOverlap(g, s, i); }
  }

  /** An item put in the queue is read unchanged, by one reader, or is still in its slot; later steps change neither. */
  lemma {:induction false} ExactlyOnce(g: Ring, ss: seq<State>, j: nat, k: nat, n: nat)
    requires Run(g, ss) && j <= k < |ss| && n in ss[j].written
    ensures Shape(g, ss[k]) && n in ss[k].written
    ensures var item := ss[j].written[n];
            if n in ss[k].got then ss[k].got[n] == item && (n in ss[j].got ==> ss[j].got[n] == item)
            else n !in ss[j].got && ss[k].q[g.Slot(n)] == item
    ensures forall i, i' | 0 <= i < i' < |ss[k].procs| && ReadAt(ss[k].procs[i].pc) == n ::
              ReadAt(ss[k].procs[i'].pc) != n
  {
    hide Ring.Slot, Ring.Blk, Ring.Lap, Covered, Permits, Credits, Passed;
    RunSound(g, ss, k);
    RunSound(g, ss, j);
    RunGrows(g, ss, j, k);
  }

  /**
   * When every process is idle: the claimed indices are the written ones, the taken ones the read ones, and
   * permits add up.
   */
  lemma {:induction false} AtRest(g: Ring, ss: seq<State>, k: nat)
    requires Run(g, ss) && k < |ss| && forall i | 0 <= i < |ss[k].procs| :: ss[k].procs[i].pc.Idle?
    ensures var s := ss[k];
            && (forall n: nat :: n in s.written <==> n < s.w_idx)
            && (forall n: nat :: n in s.got <==> n < s.r_idx)
            && s.r_permit + Total(Owned, s.procs) + s.r_idx == Begun(g, s.w_idx) * g.blk_len
  {
    hide Ring.Slot, Ring.Blk, Ring.Lap, Credits, Begun, Total;
    var s := ss[k];
    RunSound(g, ss, k);
    AllGranted(g, s);
    forall p | p in s.procs ensures Returning(p) == 0 {}
    TotalZero(Returning, s.procs);
  }

  lemma {:induction false} AllGranted(g: Ring, s: State)
    requires Inv(g, s) && Covered(g, s) && forall i | 0 <= i < |s.procs| :: s.procs[i].pc.Idle?
    ensures |s.grants| == Begun(g, s.w_idx)
  {
    hide Ring.Slot, Ring.Blk, Ring.Lap, Credits, Begun, Total, Permits;
    var c := Begun(g, s.w_idx);
    forall x: nat ensures x in s.grants <==> x in Span(0, c) {
      BegunBelow(g, s.w_idx, x);
      if x < c {
        QuotientUnique(x * g.blk_len, g.blk_len, x, 0);
        assert x * g.blk_len in s.written;
      }
    }
    assert s.grants == Span(0, c);
  }

  /** No process has a read left to credit. */
  ghost predicate AllCredited(s: State) {
    forall i | 0 <= i < |s.procs| :: s.procs[i].due == multiset{}
  }

  /**
   * With all reads credited, lfrwq_inq is refused exactly when some item of an earlier lap of the block has not
   * been read: a full block, never a free one.
   */
  lemma {:induction false} RefusedIffUnread(g: Ring, s: State, at: nat)
    requires Inv(g, s) && at == s.w_idx && AllCredited(s)
    ensures s.r_cnt[g.Blk(at)] / g.blk_len < g.Lap(at) <==> !Passed(g, s.got.Keys, at)
  {
    hide Ring.Slot, Ring.Blk, Ring.Lap, Total, Permits;
    var b, laps := g.Blk(at), g.Lap(at);
    TotalZero(Due(b), s.procs);
    if s.r_cnt[b] / g.blk_len >= laps {
      DivBound(s.r_cnt[b], g.blk_len, laps);
      ClaimPassed(g, s, at);
    }
    if Passed(g, s.got.Keys, at) {
      var read := ReadsOf(g, s.got.Keys, b);
      ManyReads(g, b, laps, read);
      Quotient(s.r_cnt[b], g.blk_len, laps);
    }
  }

  lemma {:induction false} Quotient(x: nat, len: nat, laps: nat)
    requires len > 0 && x >= laps * len
    ensures x / len >= laps
  {
    assert x == x / len * len + x % len;
    assert (laps - 1 - x / len) * len == laps * len - len - x / len * len;
    NotNegative(laps - 1 - x / len, len);
  }

  /** A set with all earlier laps of a block has at least that many members. */
  lemma {:induction false} ManyReads(g: Ring, b: nat, laps: nat, read: set<nat>)
    requires g.Ok() && forall n: nat | g.Blk(n) == b && g.Lap(n) < laps :: n in read
    requires b < g.blk_cnt
    ensures |read| >= laps * g.blk_len
    decreases laps
  {
    hide Ring.Slot, Ring.Blk, Ring.Lap, Begin, Span;
    if laps > 0 {
      var span := Span(Begin(g, b, laps - 1), g.blk_len);
      forall n | n in span ensures n in read && g.Lap(n) == laps - 1 { SpanLap(g, b, laps - 1, n); }
      ManyReads(g, b, laps - 1, read - span);
      OneMore(laps - 1, g.blk_len);
      assert read == (read - span) + span;
    }
  }

  lemma {:induction false} SpanLap(g: Ring, b: nat, lap: nat, n: nat)
    requires g.Ok() && b < g.blk_cnt && n in Span(Begin(g, b, lap), g.blk_len)
    ensures g.Blk(n) == b && g.Lap(n) == lap
  {
    var k := lap * g.blk_cnt + b;
    QuotientUnique(n, g.blk_len, k, n - k * g.blk_len);
    QuotientUnique(k, g.blk_cnt, lap, b);
    Parts(g, n);
  }
}
