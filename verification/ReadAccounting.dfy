/** The read loop of packet_rcv_process: dequeues counted in batches, one lfrwq_add_rcnt call a batch. */
module ReadAccounting {
  import opened Rings
  import opened LfQueue

  const U32: nat := 0x1_0000_0000

  /** One call lfrwq_add_rcnt(qh, total, blk). */
  datatype Call = Call(total: nat, blk: nat)

  /** `n` copies of `x`. */
  function Copy(x: nat, n: nat): multiset<nat> {
    multiset{}[x := n]
  }

  /** How often the calls credit each block. */
  function Credited(calls: seq<Call>): multiset<nat> {
    if calls == [] then multiset{}
    else Credited(calls[..|calls| - 1]) + Copy(calls[|calls| - 1].blk, calls[|calls| - 1].total)
  }

  /** local_idx is 32 bits wide. */
  function Narrow(idxs: seq<nat>): (r: seq<nat>)
    ensures |r| == |idxs| && forall i | 0 <= i < |r| :: r[i] == idxs[i] % U32
  {
    seq(|idxs|, i requires 0 <= i < |idxs| => idxs[i] % U32)
  }

  lemma {:induction false} CreditedMore(calls: seq<Call>, c: Call)
    ensures Credited(calls + [c]) == Credited(calls) + Copy(c.blk, c.total)
  {
    assert (calls + [c])[..|calls|] == calls;
  }

  lemma {:induction false} NarrowMore(idxs: seq<nat>, n: nat)
    requires n < |idxs|
    ensures multiset(Narrow(idxs[..n + 1])) == multiset(Narrow(idxs[..n])) + Copy(idxs[n] % U32, 1)
  {
    assert Narrow(idxs[..n + 1]) == Narrow(idxs[..n]) + [idxs[n] % U32];
    assert Copy(idxs[n] % U32, 1) == multiset([idxs[n] % U32]);
  }

  /** A batch is ended by a dequeue from another block; no call is empty, and neighbours differ. */
  ghost predicate Batched(calls: seq<Call>) {
    && (forall k | 0 <= k < |calls| :: calls[k].total > 0)
    && (forall k | 0 < k < |calls| :: calls[k - 1].blk != calls[k].blk)
  }

  /** After `n` dequeues: the calls made and the batch being counted cover them. */
  ghost predicate Counted(idxs: seq<nat>, n: nat, calls: seq<Call>, blk: nat, cnt: nat) {
    n <= |idxs| && Credited(calls) + Copy(blk, cnt) == multiset(Narrow(idxs[..n]))
  }

  lemma {:induction false} CountSame(idxs: seq<nat>, n: nat, calls: seq<Call>, blk: nat, cnt: nat)
    requires n < |idxs| && Counted(idxs, n, calls, blk, cnt) && (idxs[n] % U32 == blk || cnt == 0)
    ensures Counted(idxs, n + 1, calls, idxs[n] % U32, cnt + 1)
  {
    hide Credited, Narrow;
    var x := idxs[n] % U32;
    NarrowMore(idxs, n);
    assert Copy(x, cnt + 1) == Copy(x, cnt) + Copy(x, 1);
    assert cnt == 0 ==> Copy(blk, cnt) == Copy(x, cnt);
  }

  lemma {:induction false} CountFlush(idxs: seq<nat>, n: nat, calls: seq<Call>, blk: nat, cnt: nat, x: nat)
    requires Counted(idxs, n, calls, blk, cnt)
    ensures Counted(idxs, n, calls + [Call(cnt, blk)], x, 0)
  {
    hide Credited, Narrow;
    CreditedMore(calls, Call(cnt, blk));
    assert Copy(x, 0) == multiset{};
  }

  lemma {:induction false} CountNone(idxs: seq<nat>, blk: nat)
    ensures Counted(idxs, 0, [], blk, 0)
  {
    assert Narrow(idxs[..0]) == [];
  }

  lemma {:induction false} CountAll(idxs: seq<nat>, calls: seq<Call>, blk: nat)
    requires Counted(idxs, |idxs|, calls, blk, 0)
    ensures Credited(calls) == multiset(Narrow(idxs))
  {
    hide Credited, Narrow;
    assert idxs[..|idxs|] == idxs;
    assert Copy(blk, 0) == multiset{};
  }

  /** The batches so far, and the block of the one being counted. */
  ghost predicate Batching(idxs: seq<nat>, calls: seq<Call>, blk: nat) {
    (forall i | 0 <= i < |idxs| :: idxs[i] < U32) ==> Batched(calls) && (calls != [] ==> calls[|calls| - 1].blk != blk)
  }

  /**
   * The inner loop with `idxs` the blocks that lfrwq_deq returned, one for each permit; `stale` is
   * what local_idx held before. The calls credit exactly these blocks as far as 32 bits show them.
   */
  method ReadBatch(idxs: seq<nat>, stale: nat) returns (calls: seq<Call>)
    ensures Credited(calls) == multiset(Narrow(idxs))
    ensures (forall i | 0 <= i < |idxs| :: idxs[i] < U32) ==> Batched(calls)
  {
    hide Counted, Credited, Narrow, Copy;
    var local_pmt: nat, read_cnt: nat, local_idx: nat := |idxs|, 0, stale;
    calls := [];
    CountNone(idxs, local_idx);
    while local_pmt > 0
      invariant local_pmt <= |idxs| && Counted(idxs, |idxs| - local_pmt, calls, local_idx, read_cnt)
      invariant read_cnt == 0 ==> local_pmt == |idxs| && calls == []
      invariant (read_cnt > 0 ==> local_idx < U32) && Batching(idxs, calls, local_idx)
    {
      var idx := idxs[|idxs| - local_pmt];
      ghost var n := |idxs| - local_pmt;
      local_pmt := local_pmt - 1;
      if read_cnt == 0 {
        CountSame(idxs, n, calls, local_idx, read_cnt);
        local_idx := idx % U32;
        read_cnt := read_cnt + 1;
        continue;
      }
      if idx != local_idx {
        CountFlush(idxs, n, calls, local_idx, read_cnt, idx % U32);
        calls := calls + [Call(read_cnt, local_idx)];
        read_cnt := 0;
        local_idx := idx % U32;
      }
      CountSame(idxs, n, calls, local_idx, read_cnt);
      read_cnt := read_cnt + 1;
    }
    if read_cnt != 0 {
      CountFlush(idxs, |idxs|, calls, local_idx, read_cnt, local_idx);
      calls := calls + [Call(read_cnt, local_idx)];
      read_cnt := 0;
    }
    CountAll(idxs, calls, local_idx);
  }

  /** Every dequeue is credited to the block it came from exactly when all block numbers fit 32 bits. */
  lemma {:induction false} CreditsExact(idxs: seq<nat>)
    ensures multiset(Narrow(idxs)) == multiset(idxs) <==> forall i | 0 <= i < |idxs| :: idxs[i] < U32
  {
    if forall i | 0 <= i < |idxs| :: idxs[i] < U32 {
      assert Narrow(idxs) == idxs;
    } else {
      var i :| 0 <= i < |idxs| && idxs[i] >= U32;
      assert idxs[i] in multiset(idxs);
      assert idxs[i] !in Narrow(idxs);
    }
  }

  /** The credits sum to the permits used. */
  function Sum(calls: seq<Call>): nat {
    if calls == [] then 0 else Sum(calls[..|calls| - 1]) + calls[|calls| - 1].total
  }

  lemma {:induction false} SumCredited(calls: seq<Call>)
    ensures Sum(calls) == |Credited(calls)|
  {
    if calls != [] {
      SumCredited(calls[..|calls| - 1]);
      Copies(calls[|calls| - 1].blk, calls[|calls| - 1].total);
    }
  }

  lemma {:induction false} Copies(x: nat, n: nat)
    ensures |Copy(x, n)| == n
  {
    if n > 0 {
      Copies(x, n - 1);
      assert Copy(x, n) == Copy(x, n - 1) + multiset{x};
    }
  }

  lemma {:induction false} CreditsSum(idxs: seq<nat>, calls: seq<Call>)
    requires Credited(calls) == multiset(Narrow(idxs))
    ensures Sum(calls) == |idxs|
  {
    SumCredited(calls);
    assert |multiset(Narrow(idxs))| == |Narrow(idxs)|;
  }

  /** The queue after process `i` makes the calls, in order. */
  function AfterCalls(s: State, i: nat, calls: seq<Call>): State
    requires i < |s.procs|
    decreases |calls|
  {
    if calls == [] then s
    else
      var t := AfterCalls(s, i, calls[..|calls| - 1]);
      if i < |t.procs| then AddRcnt(t, i, calls[|calls| - 1].blk, calls[|calls| - 1].total) else t
  }

  lemma {:induction false} SettleOne(t: State, i: nat, c: Call, rest: multiset<nat>)
    requires i < |t.procs| && t.procs[i].due == Copy(c.blk, c.total) + rest
    ensures c.blk < |t.r_cnt| ==>
              var u := AddRcnt(t, i, c.blk, c.total);
              && u == t.(r_cnt := t.r_cnt[c.blk := t.r_cnt[c.blk] + c.total], procs := t.procs[i := u.procs[i]])
              && u.procs[i].due == rest
    ensures c.blk >= |t.r_cnt| ==> AddRcnt(t, i, c.blk, c.total) == t
    ensures c.total == 0 ==> Copy(c.blk, c.total) == multiset{}
  {
    if c.blk < |t.r_cnt| {
      assert t.procs[i].due[c.blk := t.procs[i].due[c.blk] - c.total] == rest;
    }
  }

  /** Made by the process that owes these credits, the calls settle all of them and nothing else. */
  lemma {:induction false} CallsSettle(g: Ring, s: State, i: nat, calls: seq<Call>, rest: multiset<nat>)
    requires Shape(g, s) && i < |s.procs| && s.procs[i].due == Credited(calls) + rest
    requires forall b | b in Credited(calls) :: b < g.blk_cnt
    ensures var t := AfterCalls(s, i, calls);
            && |t.procs| == |s.procs| && t.procs == s.procs[i := t.procs[i]] && t.procs[i].due == rest
            && |t.r_cnt| == |s.r_cnt| && t == s.(r_cnt := t.r_cnt, procs := t.procs)
            && forall b | 0 <= b < g.blk_cnt :: t.r_cnt[b] == s.r_cnt[b] + Credited(calls)[b]
    decreases |calls|
  {
    if calls != [] {
      var front, c := calls[..|calls| - 1], calls[|calls| - 1];
      var last := Copy(c.blk, c.total);
      assert Credited(calls) == Credited(front) + last;
      forall b | b in Credited(front) ensures b < g.blk_cnt { assert b in Credited(calls); }
      assert s.procs[i].due == Credited(front) + (last + rest);
      CallsSettle(g, s, i, front, last + rest);
      SettleOne(AfterCalls(s, i, front), i, c, rest);
      assert c.total > 0 ==> c.blk in Credited(calls);
    }
  }
}
