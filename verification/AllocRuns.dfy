/** What any run of block allocations does, on the bitmaps alone. */
module AllocRuns {
  import opened Words
  import opened BitSearch
  import opened BitOps
  import opened SetFacts

  /** The block indices marked as taken. */
  function Taken(s: seq<Word>, count: nat): set<nat>
    requires count <= 64 * |s|
  {
    set i: nat | i < count && BitAt(s, i)
  }

  /** One allocation: the first clear bit below `count` (or `count` itself) is set. */
  ghost predicate Alloc(s: seq<Word>, t: seq<Word>, count: nat, r: nat) {
    count < 64 * |s| && Least(s, false, count, 0, r) && Ranged(s, t, r, r + 1, true)
  }

  /** A successful allocation takes one new index; on a full zone nothing below `count` changes. */
  lemma {:induction false} AllocTakes(s: seq<Word>, t: seq<Word>, count: nat, r: nat)
    requires Alloc(s, t, count, r)
    ensures |t| == |s| && r <= count
    ensures r < count ==> r !in Taken(s, count) && Taken(t, count) == Taken(s, count) + {r}
    ensures r == count ==> Taken(t, count) == Taken(s, count) && Without(s, false, 0, count)
  {
    hide BitAt;
  }

  /** The whole of [0, n). */
  function Below(n: nat): (b: set<nat>)
    ensures |b| == n && forall i: nat :: i in b <==> i < n
  {
    if n == 0 then {} else Below(n - 1) + {n - 1}
  }

  /** An allocation succeeds exactly when fewer than `count` blocks are taken. */
  lemma {:induction false} SucceedsIffRoom(s: seq<Word>, t: seq<Word>, count: nat, r: nat)
    requires Alloc(s, t, count, r)
    ensures |Taken(s, count)| <= count && (r < count <==> |Taken(s, count)| < count)
    ensures |Taken(t, count)| == |Taken(s, count)| + if r < count then 1 else 0
  {
    hide BitAt;
    AllocTakes(s, t, count, r);
    SubsetSize(Taken(s, count), Below(count));
    if r == count {
      assert Taken(s, count) == Below(count);
    } else {
      SubsetEqual(Taken(s, count), Below(count));
    }
  }

  /** A run: `ss` are the bitmaps before and after each allocation, `rs` the indices found. */
  ghost predicate Run(ss: seq<seq<Word>>, rs: seq<nat>, count: nat) {
    |ss| == |rs| + 1 && forall k | 0 <= k < |rs| :: Alloc(ss[k], ss[k + 1], count, rs[k])
  }

  /** Taken indices stay taken, and only indices that the run found are added. */
  lemma {:induction false} RunTakes(ss: seq<seq<Word>>, rs: seq<nat>, count: nat, i: nat, j: nat)
    requires Run(ss, rs, count) && i <= j <= |rs| && count <= 64 * |ss[0]|
    ensures |ss[i]| == |ss[0]| && |ss[j]| == |ss[0]|
    ensures Taken(ss[j], count) == Taken(ss[i], count) + (set k | i <= k < j && rs[k] < count :: rs[k])
    decreases j
  {
    hide Alloc;
    if j > 0 {
      AllocTakes(ss[j - 1], ss[j], count, rs[j - 1]);
      if i < j {
        RunTakes(ss, rs, count, i, j - 1);
      } else {
        RunTakes(ss, rs, count, j - 1, j - 1);
      }
    }
  }

  /** No index below `count` is found twice, and none that was taken before the run. */
  lemma {:induction false} NeverTwice(ss: seq<seq<Word>>, rs: seq<nat>, count: nat, i: nat, j: nat)
    requires Run(ss, rs, count) && i < j < |rs| && rs[j] < count
    ensures rs[i] != rs[j] && count <= 64 * |ss[0]| && rs[j] !in Taken(ss[0], count)
  {
    hide Taken;
    AllocTakes(ss[0], ss[1], count, rs[0]);
    RunTakes(ss, rs, count, i, j);
    RunTakes(ss, rs, count, 0, j);
    AllocTakes(ss[j], ss[j + 1], count, rs[j]);
  }

  /** Of n allocations exactly as many succeed as there was room for. */
  lemma {:induction false} RunCounts(ss: seq<seq<Word>>, rs: seq<nat>, count: nat, n: nat)
    requires Run(ss, rs, count) && n <= |rs| && count <= 64 * |ss[0]|
    requires |Taken(ss[0], count)| <= count
    ensures |ss[n]| == |ss[0]|
    ensures var taken := |Taken(ss[0], count)| + n;
            |Taken(ss[n], count)| == if taken <= count then taken else count
    decreases n
  {
    hide Taken, Alloc;
    if n > 0 {
      RunCounts(ss, rs, count, n - 1);
      SucceedsIffRoom(ss[n - 1], ss[n], count, rs[n - 1]);
      AllocTakes(ss[n - 1], ss[n], count, rs[n - 1]);
    }
  }

  /** Starting empty, the k-th allocation finds index k, and `count` (no block) once the zone is full. */
  lemma {:induction false} FromEmpty(ss: seq<seq<Word>>, rs: seq<nat>, count: nat, n: nat)
    requires Run(ss, rs, count) && n < |rs|
    requires count <= 64 * |ss[0]| && Without(ss[0], true, 0, count)
    ensures rs[n] == if n < count then n else count
  {
    FilledUpTo(ss, rs, count, n);
  }

  lemma {:induction false} FilledUpTo(ss: seq<seq<Word>>, rs: seq<nat>, count: nat, n: nat)
    requires Run(ss, rs, count) && n < |rs|
    requires count <= 64 * |ss[0]| && Without(ss[0], true, 0, count)
    ensures |ss[n]| == |ss[0]| && rs[n] == if n < count then n else count
    ensures forall i | 0 <= i < count :: BitAt(ss[n], i) <==> i < n
    decreases n
  {
    hide BitAt;
    if n > 0 {
      FilledUpTo(ss, rs, count, n - 1);
      assert Alloc(ss[n - 1], ss[n], count, rs[n - 1]);
    }
    assert Alloc(ss[n], ss[n + 1], count, rs[n]);
    FirstClear(ss[n], count, n, rs[n]);
  }

  lemma {:induction false} FirstClear(s: seq<Word>, count: nat, n: nat, r: nat)
    requires count <= 64 * |s| && Least(s, false, count, 0, r)
    requires forall i | 0 <= i < count :: BitAt(s, i) <==> i < n
    ensures r == if n < count then n else count
  {
    hide BitAt;
    assert n < count ==> !BitAt(s, n);
  }
}
