/** What each operation of the lock-free queue comes to: the answers its callers get. */
module LfQueueAnswers {
  import opened Unsigned
  import opened Rings
  import opened LfQueue
  import opened LfQueueProofs
  import opened LfQueueRuns

  /** Process `i` takes `n` steps in a row. */
  function Going(g: Ring, s: State, i: nat, n: nat): (t: State)
    requires Shape(g, s) && i < |s.procs|
    ensures Shape(g, t) && |t.procs| == |s.procs|
    decreases n
  {
    StepShape(g, s, i, Go);
    if n == 0 then s else Going(g, Step(g, s, i, Go), i, n - 1)
  }

  /** Process `i` begins `a` and takes `n` more steps with nobody in between. */
  function Solo(g: Ring, s: State, i: nat, a: Action, n: nat): (t: State)
    requires Shape(g, s) && i < |s.procs|
    ensures Shape(g, t) && |t.procs| == |s.procs|
  {
    StepShape(g, s, i, a);
    Going(g, Step(g, s, i, a), i, n)
  }

  lemma {:induction false} StepShape(g: Ring, s: State, i: nat, a: Action)
    requires Shape(g, s) && i < |s.procs|
    ensures Shape(g, Step(g, s, i, a)) && |Step(g, s, i, a).procs| == |s.procs|
  {
    hide Ring.Slot, Ring.Blk, Ring.Lap;
  }

  lemma {:induction false} GoingMore(g: Ring, s: State, i: nat, m: nat, n: nat)
    requires Shape(g, s) && i < |s.procs|
    ensures Going(g, s, i, m + n) == Going(g, Going(g, s, i, m), i, n)
    decreases m
  {
    hide Step;
    StepShape(g, s, i, Go);
    if m > 0 { GoingMore(g, Step(g, s, i, Go), i, m - 1, n); }
  }

  /** A process that is idle stays as it is. */
  lemma {:induction false} IdleRests(g: Ring, s: State, i: nat, n: nat)
    requires Shape(g, s) && i < |s.procs| && s.procs[i].pc.Idle?
    ensures Going(g, s, i, n) == s
    decreases n
  {
    if n > 0 { IdleRests(g, s, i, n - 1); }
  }

  /* ---------- putting an item in ---------- */

  /** lfrwq_inq's decision, in any state where the index it read is still the write index. */
  lemma {:induction false} AcceptedIff(g: Ring, s: State, i: nat, a: Action)
    requires Inv(g, s) && AllCredited(s) && i < |s.procs|
    requires s.procs[i].pc.Loaded? && s.procs[i].pc.at == s.w_idx
    ensures var pc := s.procs[i].pc;
            Step(g, s, i, a) == To(s, i, if Passed(g, s.got.Keys, pc.at) then Checked(pc.data, pc.at) else Idle)
  {
    hide Ring.Slot, Ring.Blk, Ring.Lap, Passed, Inv;
    RefusedIffUnread(g, s, s.w_idx);
  }

  /** The queue with one more item at the write index. */
  ghost function Stored(g: Ring, s: State, data: nat): State
    requires g.Ok() && |s.q| == g.Len()
  {
    var at := s.w_idx;
    var begins := at % g.blk_len == 0;
    s.(w_idx := at + 1, q := s.q[g.Slot(at) := data], written := s.written[at := data],
       r_permit := s.r_permit + if begins then g.blk_len else 0,
       grants := s.grants + if begins then {at / g.blk_len} else {})
  }

  lemma {:induction false} Nowhere(s: State, i: nat)
    requires i < |s.procs|
    ensures To(s, i, s.procs[i].pc) == s
  {
    assert s.procs[i := s.procs[i]] == s.procs;
  }

  /**
   * lfrwq_inq by itself, with all reads credited: the item is at the write index, or the queue is as it
   * was, and it is stored exactly when all earlier laps of the block have been read.
   */
  lemma {:induction false} EnqueueAnswer(g: Ring, s: State, i: nat, data: nat)
    requires Inv(g, s) && AllCredited(s) && i < |s.procs| && s.procs[i].pc.Idle? && data != 0
    ensures Shape(g, s)
    ensures Solo(g, s, i, Enqueue(data), 6) == if Passed(g, s.got.Keys, s.w_idx) then Stored(g, s, data) else s
  {
    hide Ring.Slot, Ring.Blk, Ring.Lap, Passed, Inv, Step;
    Unfold(g, s);
    var at := s.w_idx;
    var s1, s2 := To(s, i, Inq(data)), To(s, i, Loaded(data, at));
    assert Step(g, s, i, Enqueue(data)) == s1 && Step(g, s1, i, Go) == s2 by { InqSteps(g, s, i, data); }
    StepKeeps(g, s, i, Enqueue(data));
    StepKeeps(g, s1, i, Go);
    AcceptedIff(g, s2, i, Go);
    if Passed(g, s.got.Keys, at) {
      var s3 := To(s, i, Checked(data, at));
      assert Step(g, s2, i, Go) == s3;
      StepKeeps(g, s2, i, Go);
      CheckedStored(g, s, i, data);
      GoingMore(g, s1, i, 2, 4);
      assert Going(g, s1, i, 2) == s3 by { Twice(g, s1, i); }
    } else {
      Nowhere(s, i);
      assert Step(g, s2, i, Go) == s;
      IdleRests(g, s, i, 4);
      GoingMore(g, s1, i, 2, 4);
      assert Going(g, s1, i, 2) == s by { Twice(g, s1, i); }
    }
  }

  lemma {:induction false} Twice(g: Ring, s: State, i: nat)
    requires Shape(g, s) && i < |s.procs|
    ensures Shape(g, Step(g, s, i, Go)) && Going(g, s, i, 1) == Step(g, s, i, Go)
    ensures Going(g, s, i, 2) == Step(g, Step(g, s, i, Go), i, Go)
  {
    hide Step;
    StepShape(g, s, i, Go);
    assert Going(g, Step(g, s, i, Go), i, 0) == Step(g, s, i, Go);
    StepShape(g, Step(g, s, i, Go), i, Go);
    assert Going(g, Step(g, Step(g, s, i, Go), i, Go), i, 0) == Step(g, Step(g, s, i, Go), i, Go);
  }

  lemma {:induction false} InqSteps(g: Ring, s: State, i: nat, data: nat)
    requires Shape(g, s) && i < |s.procs| && s.procs[i].pc.Idle? && data != 0
    ensures Step(g, s, i, Enqueue(data)) == To(s, i, Inq(data))
    ensures Step(g, To(s, i, Inq(data)), i, Go) == To(s, i, Loaded(data, s.w_idx))
  {
    hide Ring.Slot, Ring.Blk, Ring.Lap;
  }

  /** From the accepted check on: claim, probe, write, and grant at a block start. */
  lemma {:induction false} CheckedStored(g: Ring, s: State, i: nat, data: nat)
    requires Shape(g, s) && i < |s.procs| && s.procs[i].pc.Idle?
    requires Inv(g, To(s, i, Checked(data, s.w_idx)))
    ensures Going(g, To(s, i, Checked(data, s.w_idx)), i, 4) == Stored(g, s, data)
  {
    hide Ring.Slot, Ring.Blk, Ring.Lap, Inv, Step;
    var at := s.w_idx;
    var s3, t := To(s, i, Checked(data, at)), s.(w_idx := at + 1);
    var s4, s5 := To(t, i, Claimed(data, at, false, 0)), To(t, i, Filling(data, at, false, 0));
    StepKeeps(g, s3, i, Go);
    assert Step(g, s3, i, Go) == s4 by { CasWins(g, s, i, data); }
    NoOverlap(g, s4, i);
    assert Step(g, s4, i, Go) == s5 by { ProbePasses(g, t, i, data, at, false, 0); }
    GoingMore(g, s3, i, 2, 2);
    Twice(g, s3, i);
    Twice(g, s5, i);
    WriteGrants(g, s, i, data);
  }

  lemma {:induction false} CasWins(g: Ring, s: State, i: nat, data: nat)
    requires Shape(g, s) && i < |s.procs|
    ensures Step(g, To(s, i, Checked(data, s.w_idx)), i, Go)
         == To(s.(w_idx := s.w_idx + 1), i, Claimed(data, s.w_idx, false, 0))
  {
    hide Ring.Slot, Ring.Blk, Ring.Lap;
  }

  lemma {:induction false} ProbePasses(g: Ring, s: State, i: nat, data: nat, at: nat, soft: bool, left: nat)
    requires Shape(g, s) && i < |s.procs| && s.q[g.Slot(at)] == 0
    ensures Step(g, To(s, i, Claimed(data, at, soft, left)), i, Go) == To(s, i, Filling(data, at, soft, left))
  {
    hide Ring.Slot, Ring.Blk, Ring.Lap;
  }

  lemma {:induction false} WriteGrants(g: Ring, s: State, i: nat, data: nat)
    requires Shape(g, s) && i < |s.procs| && s.procs[i].pc.Idle?
    ensures var s5 := To(s.(w_idx := s.w_idx + 1), i, Filling(data, s.w_idx, false, 0));
            && Shape(g, Step(g, s5, i, Go)) && |Step(g, s5, i, Go).procs| == |s.procs|
            && Step(g, Step(g, s5, i, Go), i, Go) == Stored(g, s, data)
  {
    hide Ring.Slot, Ring.Blk, Ring.Lap;
    Nowhere(Stored(g, s, data), i);
  }

  /* ---------- putting an item in while others do as they like ---------- */

  /** A call of lfrwq_inq with `data` is under way. */
  predicate Carries(pc: Pc, data: nat) {
    || ((pc.Inq? || pc.Loaded? || pc.Checked?) && pc.data == data)
    || ((pc.Claimed? || pc.Filling?) && pc.data == data && !pc.soft)
  }

  /** The process finds too few reads credited to the block of its index. */
  predicate Refused(g: Ring, s: State, i: nat)
    requires Shape(g, s) && i < |s.procs|
  {
    var pc := s.procs[i].pc;
    pc.Loaded? && s.r_cnt[g.Blk(pc.at)] / g.blk_len < g.Lap(pc.at)
  }

  /** `t` has an index with `data` that `s` has not. */
  ghost predicate Added(s: State, t: State, data: nat) {
    exists n :: n in t.written && n !in s.written && t.written[n] == data
  }

  lemma {:induction false} CarriesOn(g: Ring, s: State, i: nat, a: Action, data: nat)
    requires Inv(g, s) && i < |s.procs| && Carries(s.procs[i].pc, data)
    ensures Shape(g, s)
    ensures var t := Step(g, s, i, a);
            i < |t.procs| && (Carries(t.procs[i].pc, data) || Refused(g, s, i) || Added(s, t, data))
  {
    hide Ring.Slot, Ring.Blk, Ring.Lap, Permits, Credits, Pcs, Cells;
    Unfold(g, s);
    var pc := s.procs[i].pc;
    assert PcOk(g, s, pc);
    if pc.Claimed? { NoOverlap(g, s, i); }
    if pc.Filling? {
      var t := Step(g, s, i, a);
      assert pc.at in t.written && pc.at !in s.written;
    }
  }

  lemma {:induction false} OthersStay(g: Ring, s: State, i: nat, a: Action)
    requires Inv(g, s) && i < |s.procs|
    ensures Shape(g, s) && |Step(g, s, i, a).procs| == |s.procs|
    ensures forall j | 0 <= j < |s.procs| && j != i :: Step(g, s, i, a).procs[j] == s.procs[j]
  {
    hide Ring.Slot, Ring.Blk, Ring.Lap, Permits, Credits, Cells, Step;
    Unfold(g, s);
    if s.procs[i].pc.Claimed? { NoOverlap(g, s, i); }
    StepDuties(g, s, i, a);
  }

  /**
   * lfrwq_inq in any run: it is still under way, or its item is at a new index, or it was refused
   * because a block was full. A lost compare-and-swap is no reason to give up.
   */
  lemma {:induction false} EnqueueEnds(g: Ring, ss: seq<State>, j: nat, k: nat, i: nat, data: nat)
    requires Run(g, ss) && j <= k < |ss| && i < |ss[j].procs| && Carries(ss[j].procs[i].pc, data)
    ensures i < |ss[k].procs|
    ensures || Carries(ss[k].procs[i].pc, data) || Added(ss[j], ss[k], data)
            || exists m | j <= m < k :: Shape(g, ss[m]) && i < |ss[m].procs| && Refused(g, ss[m], i)
    decreases k
  {
    hide Inv, Covered, Step, Carries, Refused;
    if j < k {
      EnqueueEnds(g, ss, j, k - 1, i, data);
      RunSound(g, ss, k - 1);
      assert Shape(g, ss[k - 1]) && Next(g, ss[k - 1], ss[k - 1 + 1]);
      var i': nat, a :| i' < |ss[k - 1].procs| && ss[k] == Step(g, ss[k - 1], i', a);
      OthersStay(g, ss[k - 1], i', a);
      StepCovers(g, ss[k - 1], i', a);
      RunGrows(g, ss, j, k - 1);
      if Added(ss[j], ss[k - 1], data) { AddedStays(ss[j], ss[k - 1], ss[k], data); }
      else if i' == i && Carries(ss[k - 1].procs[i].pc, data) {
        CarriesOn(g, ss[k - 1], i, a, data);
        if Added(ss[k - 1], ss[k], data) { AddedSince(ss[j], ss[k - 1], ss[k], data); }
      }
    }
  }

  lemma {:induction false} AddedStays(s: State, t: State, u: State, data: nat)
    requires Added(s, t, data) && Grows(t, u)
    ensures Added(s, u, data)
  {
    var n :| n in t.written && n !in s.written && t.written[n] == data;
    assert n in u.written;
  }

  lemma {:induction false} AddedSince(s: State, t: State, u: State, data: nat)
    requires Grows(s, t) && Added(t, u, data)
    ensures Added(s, u, data)
  {
    var n :| n in u.written && n !in t.written && u.written[n] == data;
    assert n !in s.written;
  }

  /** The index a writer has read is never past the write index. */
  lemma {:induction false} NotAhead(g: Ring, ss: seq<State>, k: nat, i: nat)
    requires Run(g, ss) && k < |ss| && i < |ss[k].procs| && (ss[k].procs[i].pc.Loaded? || ss[k].procs[i].pc.Checked?)
    ensures ss[k].procs[i].pc.at <= ss[k].w_idx
    decreases k
  {
    hide Inv, Covered, Step;
    if k > 0 {
      RunSound(g, ss, k - 1);
      assert Shape(g, ss[k - 1]) && Next(g, ss[k - 1], ss[k - 1 + 1]);
      var i': nat, a :| i' < |ss[k - 1].procs| && ss[k] == Step(g, ss[k - 1], i', a);
      OthersStay(g, ss[k - 1], i', a);
      StepCovers(g, ss[k - 1], i', a);
      if ss[k - 1].procs[i].pc.Loaded? || ss[k - 1].procs[i].pc.Checked? { NotAhead(g, ss, k - 1, i); }
      IndexRead(g, ss[k - 1], i', a);
    }
  }

  lemma {:induction false} IndexRead(g: Ring, s: State, i: nat, a: Action)
    requires Shape(g, s) && i < |s.procs| == |Step(g, s, i, a).procs|
    ensures var pc, next := s.procs[i].pc, Step(g, s, i, a).procs[i].pc;
            && (next.Checked? ==> pc.Loaded? && pc.at == next.at)
            && (next.Loaded? ==> next.at == s.w_idx)
  {
    hide Ring.Slot, Ring.Blk, Ring.Lap;
    if s.procs[i].pc.Idle? { IdleReads(g, s, i, a); }
  }

  lemma {:induction false} IdleReads(g: Ring, s: State, i: nat, a: Action)
    requires Shape(g, s) && i < |s.procs| == |Step(g, s, i, a).procs| && s.procs[i].pc.Idle?
    ensures !Step(g, s, i, a).procs[i].pc.Checked? && !Step(g, s, i, a).procs[i].pc.Loaded?
  {
    hide Ring.Slot, Ring.Blk, Ring.Lap;
  }

  /** A writer claims the index it checked, or some writer has claimed that one since, and it tries again. */
  lemma {:induction false} SomeoneClaims(g: Ring, ss: seq<State>, k: nat, i: nat, a: Action)
    requires Run(g, ss) && k < |ss| && i < |ss[k].procs| && ss[k].procs[i].pc.Checked?
    ensures Shape(g, ss[k])
    ensures var s, pc := ss[k], ss[k].procs[i].pc;
            if s.w_idx == pc.at then
              Step(g, s, i, a) == To(s.(w_idx := pc.at + 1), i, Claimed(pc.data, pc.at, false, 0))
            else s.w_idx > pc.at && Step(g, s, i, a) == To(s, i, Inq(pc.data))
  {
    hide Ring.Slot, Ring.Blk, Ring.Lap, Covered;
    RunSound(g, ss, k);
    Unfold(g, ss[k]);
    NotAhead(g, ss, k, i);
  }

  /* ---------- how much room there is ---------- */

  /** With exactly the indices below `r` read, the earlier laps of a block are read up to a distance of all blocks. */
  lemma {:induction false} PassedIff(g: Ring, read: set<nat>, r: nat, n: nat)
    requires g.Ok() && forall m: nat :: m in read <==> m < r
    ensures Passed(g, read, n) <==> n / g.blk_len < r / g.blk_len + g.blk_cnt
  {
    hide Ring.Blk, Ring.Lap, Ring.Len;
    var len, cnt, k, c := g.blk_len, g.blk_cnt, n / g.blk_len, r / g.blk_len;
    if k >= cnt && Passed(g, read, n) {
      var m := LapBefore(g, n);
      assert m < r;
      RowRead(r, len, k - cnt);
    }
    if k < c + cnt {
      forall m: nat | g.Blk(m) == g.Blk(n) && g.Lap(m) < g.Lap(n) ensures m in read {
        Parted(g, m);
        Parted(g, n);
        LapsBefore(m / len, k, cnt);
        InRow(r, m, len);
      }
    }
  }

  /** The last index of the same block one lap before. */
  lemma {:induction false} LapBefore(g: Ring, n: nat) returns (m: nat)
    requires g.Ok() && n / g.blk_len >= g.blk_cnt
    ensures g.Blk(m) == g.Blk(n) && g.Lap(m) < g.Lap(n)
    ensures m == (n / g.blk_len - g.blk_cnt) * g.blk_len + (g.blk_len - 1)
  {
    hide Ring.Blk, Ring.Lap, Ring.Len;
    var len, cnt, k := g.blk_len, g.blk_cnt, n / g.blk_len;
    assert (k - cnt) * len >= 0;
    m := (k - cnt) * len + (len - 1);
    QuotientUnique(m, len, k - cnt, len - 1);
    Quotient(k, cnt, 1);
    OneLapLess(k, cnt);
    Parted(g, m);
    Parted(g, n);
  }

  lemma {:induction false} OneLapLess(k: nat, cnt: nat)
    requires cnt > 0 && k >= cnt && k / cnt >= 1
    ensures (k - cnt) % cnt == k % cnt && (k - cnt) / cnt == k / cnt - 1
  {
    assert k == k / cnt * cnt + k % cnt;
    assert (k / cnt - 1) * cnt == k / cnt * cnt - cnt;
    QuotientUnique(k - cnt, cnt, k / cnt - 1, k % cnt);
  }

  lemma {:induction false} RowRead(r: nat, len: nat, j: nat)
    requires len > 0 && j * len + (len - 1) < r
    ensures j < r / len
  {
    OneMore(j, len);
    Quotient(r, len, j + 1);
  }

  lemma {:induction false} InRow(r: nat, m: nat, len: nat)
    requires len > 0 && m / len < r / len
    ensures m < r
  {
    DivBound(r, len, m / len + 1);
    OneMore(m / len, len);
    assert m == m / len * len + m % len;
  }

  lemma {:induction false} Parted(g: Ring, n: nat)
    requires g.Ok()
    ensures g.Blk(n) == n / g.blk_len % g.blk_cnt && g.Lap(n) == n / g.blk_len / g.blk_cnt
  {
    hide Ring.Len;
    Parts(g, n);
  }

  lemma {:induction false} LapsBefore(j: nat, k: nat, cnt: nat)
    requires cnt > 0 && j % cnt == k % cnt && j / cnt < k / cnt
    ensures j + cnt <= k
  {
    assert j == j / cnt * cnt + j % cnt && k == k / cnt * cnt + k % cnt;
    assert (k / cnt - j / cnt - 1) * cnt == k / cnt * cnt - j / cnt * cnt - cnt;
    NotNegative(k / cnt - j / cnt - 1, cnt);
  }

  /**
   * The room there is: a queue at rest with all reads credited stores one more item exactly while the
   * block of the write index is less than a whole ring ahead of the block of the read index.
   */
  lemma {:induction false} RoomAtRest(g: Ring, ss: seq<State>, k: nat, i: nat, data: nat)
    requires Run(g, ss) && k < |ss| && i < |ss[k].procs| && data != 0 && AllCredited(ss[k])
    requires forall j | 0 <= j < |ss[k].procs| :: ss[k].procs[j].pc.Idle?
    ensures Shape(g, ss[k])
    ensures Solo(g, ss[k], i, Enqueue(data), 6)
         == if ss[k].w_idx / g.blk_len < ss[k].r_idx / g.blk_len + g.blk_cnt then Stored(g, ss[k], data) else ss[k]
  {
    hide Inv, Covered, Passed, Step;
    RunSound(g, ss, k);
    AtRest(g, ss, k);
    PassedIff(g, ss[k].got.Keys, ss[k].r_idx, ss[k].w_idx);
    EnqueueAnswer(g, ss[k], i, data);
  }

  /* ---------- filling a block from the timer ---------- */

  function Marks(at: nat, n: nat): map<nat, nat> {
    map m | m in Span(at, n) :: MARK
  }

  /** One round of the loop of lfrwq_soft_inq. */
  lemma {:induction false} SoftRound(g: Ring, s: State, i: nat, left: nat)
    requires Shape(g, s) && i < |s.procs| && left > 0 && Inv(g, To(s, i, Soft(s.w_idx, left)))
    ensures var at := s.w_idx;
            var t := s.(w_idx := at + 1, q := s.q[g.Slot(at) := MARK], written := s.written[at := MARK]);
            Going(g, To(s, i, Soft(at, left)), i, 3) == To(t, i, Soft(at + 1, left - 1))
  {
    hide Ring.Slot, Ring.Blk, Ring.Lap, Inv, Step;
    var at := s.w_idx;
    var s0, t := To(s, i, Soft(at, left)), s.(w_idx := at + 1);
    var s1, s2 := To(t, i, Claimed(MARK, at, true, left - 1)), To(t, i, Filling(MARK, at, true, left - 1));
    StepKeeps(g, s0, i, Go);
    assert Step(g, s0, i, Go) == s1 by { SoftClaims(g, s, i, left); }
    NoOverlap(g, s1, i);
    assert Step(g, s1, i, Go) == s2 by { ProbePasses(g, t, i, MARK, at, true, left - 1); }
    GoingMore(g, s0, i, 2, 1);
    Twice(g, s0, i);
    Twice(g, s2, i);
    SoftWrites(g, t, i, at, left - 1);
  }

  lemma {:induction false} SoftClaims(g: Ring, s: State, i: nat, left: nat)
    requires Shape(g, s) && i < |s.procs| && left > 0
    ensures Step(g, To(s, i, Soft(s.w_idx, left)), i, Go)
         == To(s.(w_idx := s.w_idx + 1), i, Claimed(MARK, s.w_idx, true, left - 1))
  {
    hide Ring.Slot, Ring.Blk, Ring.Lap;
  }

  lemma {:induction false} SoftWrites(g: Ring, s: State, i: nat, at: nat, left: nat)
    requires Shape(g, s) && i < |s.procs|
    ensures Step(g, To(s, i, Filling(MARK, at, true, left)), i, Go)
         == To(s.(q := s.q[g.Slot(at) := MARK], written := s.written[at := MARK]), i, Soft(at + 1, left))
  {
    hide Ring.Slot, Ring.Blk, Ring.Lap;
  }

  /** The queue `t` is `s` with `n` marked items more and process `i` idle. */
  ghost predicate Filled(g: Ring, s: State, t: State, i: nat, n: nat)
    requires Shape(g, s) && i < |s.procs|
  {
    && t == To(s, i, Idle).(w_idx := s.w_idx + n, q := t.q, written := s.written + Marks(s.w_idx, n))
    && |t.q| == |s.q| && forall m: nat | s.w_idx <= m < s.w_idx + n :: t.q[g.Slot(m)] == MARK
  }

  lemma {:induction false} SoftRounds(g: Ring, s: State, i: nat, left: nat)
    requires Shape(g, s) && i < |s.procs| && Inv(g, To(s, i, Soft(s.w_idx, left)))
    ensures Filled(g, s, Going(g, To(s, i, Soft(s.w_idx, left)), i, 3 * left + 1), i, left)
    decreases left
  {
    hide Ring.Slot, Ring.Blk, Ring.Lap, Inv, Step, Going, Filled;
    var at := s.w_idx;
    var s0 := To(s, i, Soft(at, left));
    if left == 0 {
      Twice(g, s0, i);
      SoftEnds(g, s, i);
    } else {
      var t := s.(w_idx := at + 1, q := s.q[g.Slot(at) := MARK], written := s.written[at := MARK]);
      SoftRound(g, s, i, left);
      GoingKeeps(g, s0, i, 3);
      GoingMore(g, s0, i, 3, 3 * (left - 1) + 1);
      SoftRounds(g, t, i, left - 1);
      var u := Going(g, To(t, i, Soft(at + 1, left - 1)), i, 3 * (left - 1) + 1);
      GoingKeeps(g, s0, i, 3 * left + 1);
      NotRead(g, s0);
      FilledMore(g, s, t, u, i, left);
    }
  }

  lemma {:induction false} SoftEnds(g: Ring, s: State, i: nat)
    requires Shape(g, s) && i < |s.procs|
    ensures Filled(g, s, Step(g, To(s, i, Soft(s.w_idx, 0)), i, Go), i, 0)
  {
    hide Ring.Slot, Ring.Blk, Ring.Lap;
    assert s.written + Marks(s.w_idx, 0) == s.written;
  }

  lemma {:induction false} GoingKeeps(g: Ring, s: State, i: nat, n: nat)
    requires Shape(g, s) && i < |s.procs| && Inv(g, s)
    ensures Inv(g, Going(g, s, i, n))
    decreases n
  {
    hide Inv, Step;
    StepShape(g, s, i, Go);
    if n > 0 {
      StepKeeps(g, s, i, Go);
      GoingKeeps(g, Step(g, s, i, Go), i, n - 1);
    }
  }

  lemma {:induction false} FilledMore(g: Ring, s: State, t: State, u: State, i: nat, n: nat)
    requires Shape(g, s) && i < |s.procs| && n > 0 && Inv(g, u)
    requires var at := s.w_idx;
             t == s.(w_idx := at + 1, q := s.q[g.Slot(at) := MARK], written := s.written[at := MARK])
    requires Filled(g, t, u, i, n - 1) && s.w_idx !in s.got
    ensures Filled(g, s, u, i, n)
  {
    hide Ring.Slot, Ring.Len, Inv, Marks;
    var at := s.w_idx;
    MarksMore(s.written, at, n);
    UnreadInSlot(g, u, at);
  }

  lemma {:induction false} NotRead(g: Ring, s: State)
    requires Inv(g, s)
    ensures s.w_idx !in s.got && s.w_idx !in s.written
  {
    hide Ring.Slot, Ring.Blk, Ring.Lap, Pcs, Permits, Credits, Passed;
  }

  lemma {:induction false} MarksMore(written: map<nat, nat>, at: nat, n: nat)
    requires n > 0
    ensures written + Marks(at, n) == written[at := MARK] + Marks(at + 1, n - 1)
    ensures at in (written + Marks(at, n)) && (written + Marks(at, n))[at] == MARK
  {
    hide Span;
    var l, r := written + Marks(at, n), written[at := MARK] + Marks(at + 1, n - 1);
    forall x ensures x in l <==> x in r {}
    forall x | x in l ensures x in r && l[x] == r[x] {}
  }

  lemma {:induction false} UnreadInSlot(g: Ring, s: State, n: nat)
    requires Inv(g, s) && n in s.written && n !in s.got
    ensures Shape(g, s) && s.q[g.Slot(n)] == s.written[n]
  {
    hide Ring.Slot, Ring.Blk, Ring.Lap, Pcs, Permits, Credits, Passed;
  }

  /**
   * lfrwq_soft_inq by itself, with all reads credited and the index it was given still the write
   * index: the rest of a block that was begun is filled with marks, and no block is begun.
   */
  lemma {:induction false} SoftAnswer(g: Ring, s: State, i: nat)
    requires Inv(g, s) && AllCredited(s) && i < |s.procs| && s.procs[i].pc.Idle?
    ensures Shape(g, s)
    ensures var left := ToBlockEnd(s.w_idx, g.blk_len);
            && Filled(g, s, Solo(g, s, i, SoftEnqueue(s.w_idx), 3 * left + 1), i, left)
            && (s.w_idx + left) % g.blk_len == 0 && left < g.blk_len
  {
    hide Ring.Slot, Ring.Blk, Ring.Lap, Inv, Step, Filled, Going, ToBlockEnd;
    Unfold(g, s);
    var at := s.w_idx;
    var left := ToBlockEnd(at, g.blk_len);
    BlockEnds(at, g.blk_len);
    SoftBegins(g, s, i);
    if left == 0 {
      IdleRests(g, s, i, 1);
      NothingFilled(g, s, i);
    } else {
      StepKeeps(g, s, i, SoftEnqueue(at));
      SoftRounds(g, s, i, left);
    }
  }

  /** How many indices are left in a block that was begun. */
  function ToBlockEnd(at: nat, len: nat): nat
    requires len > 0
  {
    if at % len == 0 then 0 else len - at % len
  }

  lemma {:induction false} BlockEnds(at: nat, len: nat)
    requires len > 0
    ensures (at + ToBlockEnd(at, len)) % len == 0 && ToBlockEnd(at, len) < len
    ensures ToBlockEnd(at, len) == 0 <==> at % len == 0
  {
    if at % len != 0 {
      assert at + (len - at % len) == (at / len + 1) * len by { OneMore(at / len, len); }
      QuotientUnique((at / len + 1) * len, len, at / len + 1, 0);
    }
  }

  lemma {:induction false} NothingFilled(g: Ring, s: State, i: nat)
    requires Shape(g, s) && i < |s.procs| && s.procs[i].pc.Idle?
    ensures Filled(g, s, s, i, 0)
  {
    hide Ring.Slot, Ring.Blk, Ring.Lap;
    Nowhere(s, i);
    assert s.written + Marks(s.w_idx, 0) == s.written;
  }

  lemma {:induction false} SoftBegins(g: Ring, s: State, i: nat)
    requires Inv(g, s) && AllCredited(s) && i < |s.procs| && s.procs[i].pc.Idle?
    ensures var at := s.w_idx;
            Shape(g, s) && Step(g, s, i, SoftEnqueue(at))
                == if at % g.blk_len == 0 then s else To(s, i, Soft(at, ToBlockEnd(at, g.blk_len)))
  {
    hide Ring.Slot, Ring.Blk, Ring.Lap, Passed, Permits, Pcs;
    if s.w_idx % g.blk_len != 0 {
      ClaimPassed(g, s, s.w_idx);
      RefusedIffUnread(g, s, s.w_idx);
    }
  }

  /* ---------- permits ---------- */

  /** How many permits an ask for `suggest` gives. */
  function Granted(r_permit: int, suggest: nat): nat {
    if r_permit <= 0 then 0 else if r_permit < suggest then r_permit else suggest
  }

  /** lfrwq_get_rpermit by itself: as many permits as suggested, or all there are. */
  lemma {:induction false} AskAnswer(g: Ring, s: State, i: nat, suggest: nat)
    requires Shape(g, s) && i < |s.procs| && s.procs[i].pc.Idle?
    ensures var n, p := Granted(s.r_permit, suggest), s.procs[i];
            Solo(g, s, i, AskPermit(suggest), 1)
              == s.(r_permit := s.r_permit - n, procs := s.procs[i := p.(permits := p.permits + n)])
  {
    hide Ring.Slot, Ring.Blk, Ring.Lap, Step;
    StepShape(g, s, i, AskPermit(suggest));
    var t := Step(g, s, i, AskPermit(suggest));
    Twice(g, t, i);
    AskBetween(g, s, t, i, suggest);
    assert s.procs[i := t.procs[i]] == t.procs && t == s.(r_permit := t.r_permit, procs := t.procs) by {
      OnlyAsks(g, s, i, suggest);
    }
  }

  lemma {:induction false} OnlyAsks(g: Ring, s: State, i: nat, suggest: nat)
    requires Shape(g, s) && i < |s.procs| && s.procs[i].pc.Idle?
    ensures var t := Step(g, s, i, AskPermit(suggest));
            t.procs == s.procs[i := t.procs[i]] && t == s.(r_permit := t.r_permit, procs := t.procs)
  {
    hide Ring.Slot, Ring.Blk, Ring.Lap;
  }

  /** And with any steps of others in between, which leaves the queue in any state `u`. */
  lemma {:induction false} AskBetween(g: Ring, s: State, u: State, i: nat, suggest: nat)
    requires Shape(g, s) && Shape(g, u) && i < |s.procs| && s.procs[i].pc.Idle? && i < |u.procs|
    requires |Step(g, s, i, AskPermit(suggest)).procs| == |s.procs|
    requires u.procs[i] == Step(g, s, i, AskPermit(suggest)).procs[i]
    ensures var n, p := Granted(s.r_permit, suggest), s.procs[i];
            && Step(g, s, i, AskPermit(suggest)).r_permit == s.r_permit - suggest
            && Step(g, u, i, Go)
                 == u.(r_permit := u.r_permit + suggest - n, procs := u.procs[i := p.(permits := p.permits + n)])
  {
    hide Ring.Slot, Ring.Blk, Ring.Lap;
    Nowhere(u, i);
  }

  /* ---------- reading ---------- */

  /** A reader's wait ends exactly when the item of its own index is in the queue. */
  lemma {:induction false} SpinsUntilWritten(g: Ring, s: State, i: nat, a: Action)
    requires Inv(g, s) && i < |s.procs| && s.procs[i].pc.Reading?
    ensures var at := s.procs[i].pc.at;
            Step(g, s, i, a) == if at in s.written then To(s, i, Got(at, s.written[at])) else s
  {
    hide Ring.Slot, Ring.Blk, Ring.Lap, Pcs, Permits, Credits;
    assert PcOk(g, s, s.procs[i].pc) by { Unfold(g, s); }
    SeesOwn(g, s, i);
  }

  /**
   * lfrwq_deq by itself and the credit for it: a process with a permit comes back with the item of
   * the read index, once that is in the queue; its slot is free, and the block has one read more to its credit.
   */
  lemma {:induction false} ReadAnswer(g: Ring, s: State, i: nat)
    requires Inv(g, s) && i < |s.procs| && s.procs[i].pc.Idle? && s.procs[i].permits > 0 && s.r_idx in s.written
    ensures Shape(g, s)
    ensures var at, p := s.r_idx, s.procs[i];
            var b, t := g.Blk(at), Solo(g, s, i, Dequeue, 2);
            && t == s.(r_idx := at + 1, q := s.q[g.Slot(at) := 0], got := s.got[at := s.written[at]],
                       procs := s.procs[i := Proc(Idle, p.permits - 1, p.due + multiset{b})])
            && Step(g, t, i, Credit(b, 1))
                 == t.(r_cnt := s.r_cnt[b := s.r_cnt[b] + 1],
                       procs := s.procs[i := Proc(Idle, p.permits - 1, p.due)])
  {
    hide Ring.Slot, Ring.Blk, Ring.Lap, Inv, Step;
    Unfold(g, s);
    var at, p, b := s.r_idx, s.procs[i], g.Blk(s.r_idx);
    var s1 := s.(r_idx := at + 1, procs := s.procs[i := Proc(Reading(at), p.permits - 1, p.due)]);
    StepKeeps(g, s, i, Dequeue);
    assert Step(g, s, i, Dequeue) == s1 by { Fetches(g, s, i); }
    SpinsUntilWritten(g, s1, i, Go);
    Twice(g, s1, i);
    ClearsAndCredits(g, s1, i, s.written[at]);
  }

  lemma {:induction false} Fetches(g: Ring, s: State, i: nat)
    requires Shape(g, s) && i < |s.procs| && s.procs[i].pc.Idle? && s.procs[i].permits > 0
    ensures Step(g, s, i, Dequeue)
         == s.(r_idx := s.r_idx + 1,
               procs := s.procs[i := Proc(Reading(s.r_idx), s.procs[i].permits - 1, s.procs[i].due)])
  {}

  lemma {:induction false} ClearsAndCredits(g: Ring, s: State, i: nat, item: nat)
    requires Shape(g, s) && i < |s.procs| && s.procs[i].pc.Reading?
    ensures var p, at := s.procs[i], s.procs[i].pc.at;
            var b, t := g.Blk(at), Step(g, To(s, i, Got(at, item)), i, Go);
            && t == s.(q := s.q[g.Slot(at) := 0], got := s.got[at := item],
                       procs := s.procs[i := Proc(Idle, p.permits, p.due + multiset{b})])
            && Step(g, t, i, Credit(b, 1))
                 == t.(r_cnt := s.r_cnt[b := s.r_cnt[b] + 1], procs := s.procs[i := Proc(Idle, p.permits, p.due)])
  {
    hide Ring.Slot, Ring.Blk, Ring.Lap;
    var p, b := s.procs[i], g.Blk(s.procs[i].pc.at);
    var due := p.due + multiset{b};
    assert due[b := due[b] - 1] == p.due;
  }

  /** Crediting reads of a block together is the same as crediting them one after the other. */
  lemma {:induction false} CreditsAdd(g: Ring, s: State, i: nat, b: nat, m: nat, n: nat)
    requires Shape(g, s) && i < |s.procs| && s.procs[i].pc.Idle? && s.procs[i].due[b] >= m + n
    ensures var t := Step(g, s, i, Credit(b, m));
            Shape(g, t) && |t.procs| == |s.procs|
            && Step(g, t, i, Credit(b, n)) == Step(g, s, i, Credit(b, m + n))
  {
    var due := s.procs[i].due;
    assert due[b := due[b] - m][b := due[b] - m - n] == due[b := due[b] - m - n];
  }
}
