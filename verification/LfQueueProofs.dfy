/** What every step of the lock-free queue keeps, whatever the other processes are doing. */
module LfQueueProofs {
  import opened Unsigned
  import opened SetFacts
  import opened Rings
  import opened LfQueue

  /* ---------- the invariant ---------- */

  /** All earlier laps of the block of `n` have been read. */
  ghost predicate Passed(g: Ring, read: set<nat>, n: nat)
    requires g.Ok()
  {
    forall m: nat | g.Blk(m) == g.Blk(n) && g.Lap(m) < g.Lap(n) :: m in read
  }

  /** The slots hold exactly what was written and not yet read. */
  ghost predicate Cells(g: Ring, s: State) {
    && Shape(g, s)
    && (forall n | n in s.written :: n < s.w_idx && s.written[n] != 0)
    && (forall n | n in s.got :: n < s.r_idx && n in s.written && s.got[n] == s.written[n])
    && (forall n | n in s.written && n !in s.got :: s.q[g.Slot(n)] == s.written[n])
    && (forall j | 0 <= j < |s.q| && s.q[j] != 0 :: exists n :: n in s.written && n !in s.got && g.Slot(n) == j)
    && (forall n: nat | n < s.w_idx :: Passed(g, s.got.Keys, n))
  }

  ghost predicate ClaimOk(g: Ring, s: State, data: nat, at: nat, soft: bool, left: nat)
    requires g.Ok()
  {
    && data != 0 && at < s.w_idx && at !in s.written
    && (soft ==> at % g.blk_len != 0 && at % g.blk_len + 1 + left == g.blk_len)
  }

  /** What a process knows at its next step. */
  ghost predicate PcOk(g: Ring, s: State, pc: Pc)
    requires Shape(g, s)
  {
    match pc
    case Idle => true
    case Inq(data) => data != 0
    case Loaded(data, at) => data != 0
    case Checked(data, at) => data != 0 && s.r_cnt[g.Blk(at)] >= g.Lap(at) * g.blk_len
    case Claimed(data, at, soft, left) => ClaimOk(g, s, data, at, soft, left)
    case Filling(data, at, soft, left) => ClaimOk(g, s, data, at, soft, left)
    case Granting(at) => at in s.written && at % g.blk_len == 0 && at / g.blk_len !in s.grants
    case Soft(at, left) => left > 0 ==> at % g.blk_len != 0 && at % g.blk_len + left == g.blk_len
    case PermitTrim(over, own) => true
    case Reading(at) => at < s.r_idx && at !in s.got
    case Got(at, data) => at < s.r_idx && at !in s.got && at in s.written && data == s.written[at]
  }

  function WriteAt(pc: Pc): int {
    match pc
    case Claimed(_, at, _, _) => at
    case Filling(_, at, _, _) => at
    case Granting(at) => at
    case _ => -1
  }

  function ReadAt(pc: Pc): int {
    match pc
    case Reading(at) => at
    case Got(at, _) => at
    case _ => -1
  }

  ghost predicate Pcs(g: Ring, s: State)
    requires Shape(g, s)
  {
    && (forall i | 0 <= i < |s.procs| :: PcOk(g, s, s.procs[i].pc))
    && (forall i, j | 0 <= i < j < |s.procs| ::
          WriteAt(s.procs[i].pc) == WriteAt(s.procs[j].pc) ==> WriteAt(s.procs[i].pc) == -1)
    && (forall i, j | 0 <= i < j < |s.procs| ::
          ReadAt(s.procs[i].pc) == ReadAt(s.procs[j].pc) ==> ReadAt(s.procs[i].pc) == -1)
    && (forall k | k in s.grants :: k * g.blk_len in s.written)
  }

  function Total(f: Proc -> nat, ps: seq<Proc>): nat {
    if ps == [] then 0 else f(ps[0]) + Total(f, ps[1..])
  }

  /** Permits a process is about to give back. */
  const Returning: Proc -> nat := (p: Proc) => if p.pc.PermitTrim? then p.pc.over else 0
  /** Permits a process may still use. */
  const Owned: Proc -> nat := (p: Proc) => p.permits + if p.pc.PermitTrim? then p.pc.own else 0

  /** Reads of block `b` not yet credited. */
  function Due(b: nat): Proc -> nat {
    (p: Proc) => p.due[b]
  }

  /** No permit appears or disappears, and none is used that was not granted. */
  ghost predicate Permits(g: Ring, s: State) {
    && s.r_permit + Total(Returning, s.procs) >= 0
    && s.r_permit + Total(Returning, s.procs) + Total(Owned, s.procs) + s.r_idx == |s.grants| * g.blk_len
  }

  function ReadsOf(g: Ring, read: set<nat>, b: nat): set<nat>
    requires g.Ok()
  {
    set n | n in read && g.Blk(n) == b
  }

  /** Every read of a block is credited, or due from the process that made it. */
  ghost predicate Credits(g: Ring, s: State)
    requires Shape(g, s)
  {
    forall b | 0 <= b < g.blk_cnt :: s.r_cnt[b] + Total(Due(b), s.procs) == |ReadsOf(g, s.got.Keys, b)|
  }

  ghost predicate Inv(g: Ring, s: State) {
    Cells(g, s) && Pcs(g, s) && Permits(g, s) && Credits(g, s)
  }

  /* ---------- totals ---------- */

  lemma {:induction false} TotalUpdate(f: Proc -> nat, ps: seq<Proc>, i: nat, p: Proc)
    requires i < |ps|
    ensures Total(f, ps[i := p]) == Total(f, ps) - f(ps[i]) + f(p)
    decreases |ps|
  {
    if i == 0 {
      assert ps[i := p][1..] == ps[1..];
    } else {
      assert ps[i := p][1..] == ps[1..][i - 1 := p];
      TotalUpdate(f, ps[1..], i - 1, p);
    }
  }

  lemma {:induction false} TotalZero(f: Proc -> nat, ps: seq<Proc>)
    requires forall p | p in ps :: f(p) == 0
    ensures Total(f, ps) == 0
    decreases |ps|
  {
    if ps != [] { TotalZero(f, ps[1..]); }
  }

  lemma {:induction false} Changed(s: State, i: nat, p: Proc, b: nat)
    requires i < |s.procs|
    ensures var ps, q := s.procs[i := p], s.procs[i];
            && Total(Returning, ps) == Total(Returning, s.procs) - Returning(q) + Returning(p)
            && Total(Owned, ps) == Total(Owned, s.procs) - Owned(q) + Owned(p)
            && Total(Due(b), ps) == Total(Due(b), s.procs) - q.due[b] + p.due[b]
  {
    TotalUpdate(Returning, s.procs, i, p);
    TotalUpdate(Owned, s.procs, i, p);
    TotalUpdate(Due(b), s.procs, i, p);
  }

  /** A new process state with the same permits and the same dues changes no total. */
  lemma {:induction false} SameTotals(g: Ring, s: State, t: State, i: nat, p: Proc)
    requires Shape(g, s) && i < |s.procs| && t.procs == s.procs[i := p]
    requires p.due == s.procs[i].due && Returning(p) == Returning(s.procs[i]) && Owned(p) == Owned(s.procs[i])
    requires t.r_permit == s.r_permit && t.r_idx == s.r_idx && t.grants == s.grants && t.r_cnt == s.r_cnt
               && t.got == s.got
    ensures Permits(g, s) ==> Permits(g, t)
    ensures Shape(g, t) && Credits(g, s) ==> Credits(g, t)
  {
    Changed(s, i, p, 0);
    forall b | 0 <= b < g.blk_cnt ensures Total(Due(b), t.procs) == Total(Due(b), s.procs) {
      Changed(s, i, p, b);
    }
  }

  /* ---------- what a step leaves ---------- */

  lemma {:induction false} CellsShape(g: Ring, s: State)
    requires Cells(g, s)
    ensures Shape(g, s)
  {}

  /** New indices may be handed out as long as a new write index is free of earlier laps. */
  lemma {:induction false} CellsFrame(g: Ring, s: State, t: State)
    requires Cells(g, s) && t.q == s.q && |t.r_cnt| == |s.r_cnt| && t.written == s.written && t.got == s.got
    requires s.w_idx <= t.w_idx && s.r_idx <= t.r_idx
    requires forall n: nat | s.w_idx <= n < t.w_idx :: Passed(g, s.got.Keys, n)
    ensures Cells(g, t)
  {
    hide Ring.Slot, Ring.Blk, Ring.Lap, Passed;
  }

  /** Only process `i` changed, and its new index, if it has one, is its old one or a new one. */
  ghost predicate OneMoved(s: State, t: State, i: nat) {
    && i < |s.procs| == |t.procs| && t.procs == s.procs[i := t.procs[i]]
    && var pc, next := s.procs[i].pc, t.procs[i].pc;
       && (WriteAt(next) == -1 || WriteAt(next) == WriteAt(pc) || WriteAt(next) >= s.w_idx)
       && (ReadAt(next) == -1 || ReadAt(next) == ReadAt(pc) || ReadAt(next) >= s.r_idx)
  }

  lemma {:induction false} OthersOk(g: Ring, s: State, t: State, i: nat)
    requires Shape(g, s) && Shape(g, t) && Pcs(g, s) && OneMoved(s, t, i)
    requires s.w_idx <= t.w_idx && s.r_idx <= t.r_idx && forall b | 0 <= b < g.blk_cnt :: s.r_cnt[b] <= t.r_cnt[b]
    requires t.written == s.written && t.got == s.got && t.grants == s.grants
    ensures forall j | 0 <= j < |t.procs| && j != i :: PcOk(g, t, t.procs[j].pc)
  {
    hide Ring.Slot, Ring.Blk, Ring.Lap;
  }

  lemma {:induction false} PcsFrame(g: Ring, s: State, t: State, i: nat)
    requires Shape(g, s) && Shape(g, t) && Pcs(g, s) && OneMoved(s, t, i) && PcOk(g, t, t.procs[i].pc)
    requires s.w_idx <= t.w_idx && s.r_idx <= t.r_idx && forall b | 0 <= b < g.blk_cnt :: s.r_cnt[b] <= t.r_cnt[b]
    requires t.written == s.written && t.got == s.got && t.grants == s.grants
    requires forall n | n in s.written :: n < s.w_idx
    ensures Pcs(g, t)
  {
    hide Ring.Slot, Ring.Blk, Ring.Lap;
    OthersOk(g, s, t, i);
    forall j | 0 <= j < |s.procs| ensures WriteAt(s.procs[j].pc) < s.w_idx && ReadAt(s.procs[j].pc) < s.r_idx {
      assert PcOk(g, s, s.procs[j].pc);
    }
  }

  lemma {:induction false} CreditsFrame(g: Ring, s: State, t: State, i: nat)
    requires Shape(g, s) && Shape(g, t) && Credits(g, s) && i < |s.procs|
    requires t.r_cnt == s.r_cnt && t.got == s.got
    requires |t.procs| == |s.procs| && t.procs == s.procs[i := t.procs[i]] && t.procs[i].due == s.procs[i].due
    ensures Credits(g, t)
  {
    hide Ring.Blk, Total, ReadsOf;
    forall b | 0 <= b < g.blk_cnt ensures Total(Due(b), t.procs) == Total(Due(b), s.procs) {
      Changed(s, i, t.procs[i], b);
    }
  }

  /* ---------- steps that only move a process ---------- */

  lemma {:induction false} Move(g: Ring, s: State, i: nat, pc: Pc)
    requires Inv(g, s) && i < |s.procs| && PcOk(g, s, pc) && !pc.PermitTrim? && !s.procs[i].pc.PermitTrim?
    requires WriteAt(pc) == -1 || WriteAt(pc) == WriteAt(s.procs[i].pc)
    requires ReadAt(pc) == -1 || ReadAt(pc) == ReadAt(s.procs[i].pc)
    ensures Inv(g, To(s, i, pc))
  {
    var t := To(s, i, pc);
    PcStays(g, s, i, pc);
    hide Ring.Slot, Ring.Blk, Ring.Lap, Total, Permits, Credits, Passed, PcOk, Pcs;
    CellsFrame(g, s, t);
    PcsFrame(g, s, t, i);
    SameTotals(g, s, t, i, t.procs[i]);
  }

  lemma {:induction false} PcStays(g: Ring, s: State, i: nat, pc: Pc)
    requires Shape(g, s) && i < |s.procs| && PcOk(g, s, pc)
    ensures PcOk(g, To(s, i, pc), pc)
  {
    hide Ring.Slot, Ring.Blk, Ring.Lap;
  }

  lemma {:induction false} DivBound(x: nat, len: nat, lap: nat)
    requires len > 0 && x / len >= lap
    ensures x >= lap * len
  {
    assert x == (x / len) * len + x % len;
    assert (x / len - lap) * len >= 0;
  }

  lemma {:induction false} CheckStep(g: Ring, s: State, i: nat)
    requires Inv(g, s) && i < |s.procs| && s.procs[i].pc.Loaded?
    ensures Inv(g, Check(g, s, i, s.procs[i].pc.data, s.procs[i].pc.at))
  {
    hide Ring.Slot, Ring.Blk, Ring.Lap, Total, Permits, Credits, Cells, To, Inv;
    var data, at := s.procs[i].pc.data, s.procs[i].pc.at;
    Unfold(g, s);
    if s.r_cnt[g.Blk(at)] / g.blk_len >= g.Lap(at) {
      DivBound(s.r_cnt[g.Blk(at)], g.blk_len, g.Lap(at));
      Move(g, s, i, Checked(data, at));
    } else {
      Move(g, s, i, Idle);
    }
  }

  lemma {:induction false} Unfold(g: Ring, s: State)
    requires Inv(g, s)
    ensures Shape(g, s) && Cells(g, s) && Pcs(g, s) && Permits(g, s) && Credits(g, s)
    ensures |s.q| == g.Len() && |s.r_cnt| == g.blk_cnt && g.Ok()
    ensures forall i | 0 <= i < |s.procs| :: PcOk(g, s, s.procs[i].pc)
  {}

  lemma {:induction false} SoftBeginStep(g: Ring, s: State, i: nat, at: nat)
    requires Inv(g, s) && i < |s.procs| && s.procs[i].pc.Idle?
    ensures Inv(g, SoftBegin(g, s, i, at))
  {
    hide Ring.Slot, Ring.Blk, Ring.Lap, Total, Permits, Credits, Cells, To, Inv;
    Unfold(g, s);
    if at % g.blk_len != 0 {
      Move(g, s, i, Soft(at, g.blk_len - at % g.blk_len));
    }
  }

  /* ---------- claiming an index ---------- */

  /** Once a block has begun, all its earlier laps have been read. */
  lemma {:induction false} BegunPassed(g: Ring, s: State, n: nat)
    requires Cells(g, s) && n / g.blk_len * g.blk_len < s.w_idx
    ensures Passed(g, s.got.Keys, n)
  {
    hide Ring.Slot, Ring.Blk, Ring.Lap;
    Start(g, n);
    assert Passed(g, s.got.Keys, n / g.blk_len * g.blk_len);
  }

  /** Enough credits at the start of a block: every earlier lap of it has been read. */
  lemma {:induction false} CreditedPassed(g: Ring, s: State, at: nat)
    requires Cells(g, s) && Credits(g, s) && at == s.w_idx && at % g.blk_len == 0
    requires s.r_cnt[g.Blk(at)] >= g.Lap(at) * g.blk_len
    ensures Passed(g, s.got.Keys, at)
  {
    hide Ring.Slot, Ring.Blk, Ring.Lap, Total;
    var b, read := g.Blk(at), ReadsOf(g, s.got.Keys, g.Blk(at));
    forall n | n in read ensures g.Lap(n) < g.Lap(at) { EarlierLap(g, n, at); }
    AllRead(g, b, g.Lap(at), read);
  }

  lemma {:induction false} EarlierLap(g: Ring, n: nat, at: nat)
    requires g.Ok() && n < at && at % g.blk_len == 0 && g.Blk(n) == g.Blk(at)
    ensures g.Lap(n) < g.Lap(at)
  {
    hide Ring.Slot, Ring.Len;
    Parts(g, n);
    Parts(g, at);
    var k, l, cnt := n / g.blk_len, at / g.blk_len, g.blk_cnt;
    Smaller(n, at, g.blk_len);
    assert k == k / cnt * cnt + k % cnt && l == l / cnt * cnt + l % cnt;
    var d := k / cnt - l / cnt;
    assert d * cnt == k - l;
    NotNegative(d, cnt);
  }

  lemma {:induction false} Smaller(n: nat, at: nat, len: nat)
    requires len > 0 && n < at && at % len == 0
    ensures n / len < at / len
  {
    var d := n / len - at / len;
    assert n == n / len * len + n % len && at == at / len * len;
    assert d * len == n / len * len - at / len * len;
    NotNegative(d, len);
  }

  /** The index a compare-and-swap claims may be written: its block is free of earlier laps. */
  lemma {:induction false} ClaimPassed(g: Ring, s: State, at: nat)
    requires Cells(g, s) && Credits(g, s) && at == s.w_idx
    requires at % g.blk_len != 0 || s.r_cnt[g.Blk(at)] >= g.Lap(at) * g.blk_len
    ensures Passed(g, s.got.Keys, at)
  {
    hide Ring.Slot, Ring.Blk, Ring.Lap, Total, Credits;
    if at % g.blk_len == 0 {
      CreditedPassed(g, s, at);
    } else {
      Inside(g, at);
      assert Passed(g, s.got.Keys, at - 1);
    }
  }

  lemma {:induction false} Claim(g: Ring, s: State, i: nat, pc: Pc)
    requires Inv(g, s) && i < |s.procs| && !s.procs[i].pc.PermitTrim?
    requires pc.Claimed? && pc.at == s.w_idx && pc.data != 0
    requires pc.soft ==> pc.at % g.blk_len != 0 && pc.at % g.blk_len + 1 + pc.left == g.blk_len
    requires Passed(g, s.got.Keys, pc.at)
    ensures Inv(g, To(s.(w_idx := pc.at + 1), i, pc))
  {
    hide Ring.Slot, Ring.Blk, Ring.Lap, Total, Permits, Credits, Passed, Pcs;
    var t := To(s.(w_idx := pc.at + 1), i, pc);
    FreshIndex(g, s);
    CellsFrame(g, s, t);
    PcsFrame(g, s, t, i);
    SameTotals(g, s, t, i, t.procs[i]);
  }

  lemma {:induction false} FreshIndex(g: Ring, s: State)
    requires Cells(g, s)
    ensures s.w_idx !in s.written && s.r_idx !in s.got
  {}

  lemma {:induction false} CasStep(g: Ring, s: State, i: nat)
    requires Inv(g, s) && i < |s.procs| && s.procs[i].pc.Checked?
    ensures Inv(g, Cas(s, i, s.procs[i].pc.data, s.procs[i].pc.at))
  {
    hide Ring.Slot, Ring.Blk, Ring.Lap, Total, Permits, Credits, Cells, To, Inv, Passed;
    var data, at := s.procs[i].pc.data, s.procs[i].pc.at;
    Unfold(g, s);
    assert PcOk(g, s, s.procs[i].pc);
    if s.w_idx == at {
      ClaimPassed(g, s, at);
      Claim(g, s, i, Claimed(data, at, false, 0));
    } else {
      Move(g, s, i, Inq(data));
    }
  }

  lemma {:induction false} SoftCasStep(g: Ring, s: State, i: nat)
    requires Inv(g, s) && i < |s.procs| && s.procs[i].pc.Soft?
    ensures Inv(g, SoftCas(s, i, s.procs[i].pc.at, s.procs[i].pc.left))
  {
    hide Ring.Slot, Ring.Blk, Ring.Lap, Total, Permits, Credits, Cells, To, Inv, Passed;
    var at, left := s.procs[i].pc.at, s.procs[i].pc.left;
    Unfold(g, s);
    assert PcOk(g, s, s.procs[i].pc);
    if left > 0 && s.w_idx == at {
      ClaimPassed(g, s, at);
      Claim(g, s, i, Claimed(MARK, at, true, left - 1));
    } else {
      Move(g, s, i, Idle);
    }
  }

  /* ---------- writing the slot ---------- */

  /** An unread index is alone on its slot. */
  lemma {:induction false} Alone(g: Ring, s: State, m: nat, n: nat)
    requires Cells(g, s) && m < s.w_idx && n < s.w_idx && m !in s.got && n !in s.got && g.Slot(m) == g.Slot(n)
    ensures m == n
  {
    hide Ring.Slot, Ring.Blk, Ring.Lap;
    SameSlot(g, m, n);
    SameSlot(g, n, m);
    assert Passed(g, s.got.Keys, m) && Passed(g, s.got.Keys, n);
  }

  /** A claimed index finds its slot empty: the overlap branch is never taken. */
  lemma {:induction false} NoOverlap(g: Ring, s: State, i: nat)
    requires Inv(g, s) && i < |s.procs| && (s.procs[i].pc.Claimed? || s.procs[i].pc.Filling?)
    ensures s.q[g.Slot(s.procs[i].pc.at)] == 0
  {
    hide Ring.Slot, Ring.Blk, Ring.Lap, Total, Permits, Credits;
    var at := s.procs[i].pc.at;
    assert PcOk(g, s, s.procs[i].pc);
    if s.q[g.Slot(at)] != 0 {
      var m :| m in s.written && m !in s.got && g.Slot(m) == g.Slot(at);
      Alone(g, s, m, at);
    }
  }

  lemma {:induction false} PutCells(g: Ring, s: State, t: State, at: nat, data: nat)
    requires Cells(g, s) && data != 0 && at < s.w_idx && at !in s.written && s.q[g.Slot(at)] == 0
    requires t.q == s.q[g.Slot(at) := data] && t.written == s.written[at := data] && t.got == s.got
    requires t.w_idx == s.w_idx && t.r_idx == s.r_idx && t.r_cnt == s.r_cnt
    ensures Cells(g, t)
  {
    hide Ring.Blk, Ring.Lap, Ring.Slot, Passed;
    forall n | n in t.written && n !in t.got ensures t.q[g.Slot(n)] == t.written[n] {
      if n != at && g.Slot(n) == g.Slot(at) { Alone(g, s, n, at); }
    }
    forall j | 0 <= j < |t.q| && t.q[j] != 0 ensures exists n :: n in t.written && n !in t.got && g.Slot(n) == j {
      if j == g.Slot(at) {
        assert at in t.written && at !in t.got;
      } else {
        var n :| n in s.written && n !in s.got && g.Slot(n) == j;
        assert n in t.written;
      }
    }
  }

  lemma {:induction false} PutPcs(g: Ring, s: State, i: nat, pc: Pc, t: State)
    requires Shape(g, s) && Pcs(g, s) && i < |s.procs| && s.procs[i].pc.Filling?
    requires (forall n | n in s.written :: n < s.w_idx)
    requires var at, data := s.procs[i].pc.at, s.procs[i].pc.data;
             && t == s.(q := s.q[g.Slot(at) := data], written := s.written[at := data],
                 procs := s.procs[i := s.procs[i].(pc := pc)])
             && (pc == Granting(at) || WriteAt(pc) == -1) && ReadAt(pc) == -1
    requires PcOk(g, t, pc)
    ensures Pcs(g, t)
  {
    hide Ring.Blk, Ring.Lap, Ring.Slot;
    var at := s.procs[i].pc.at;
    forall j | 0 <= j < |t.procs| ensures PcOk(g, t, t.procs[j].pc) {
      if j != i {
        assert WriteAt(s.procs[j].pc) != at;
      }
    }
  }

  lemma {:induction false} NextInBlock(g: Ring, at: nat, left: nat)
    requires g.Ok() && at % g.blk_len + 1 + left == g.blk_len
    ensures left > 0 ==> (at + 1) % g.blk_len == at % g.blk_len + 1
  {
    if left > 0 {
      QuotientUnique(at + 1, g.blk_len, at / g.blk_len, at % g.blk_len + 1);
    }
  }

  lemma {:induction false} BlockNumber(g: Ring, at: nat)
    requires g.Ok() && at % g.blk_len == 0
    ensures at / g.blk_len * g.blk_len == at
  {}

  lemma {:induction false} ProbeStep(g: Ring, s: State, i: nat)
    requires Inv(g, s) && i < |s.procs| && s.procs[i].pc.Claimed?
    ensures var pc := s.procs[i].pc; Inv(g, Probe(g, s, i, pc.data, pc.at, pc.soft, pc.left))
  {
    hide Ring.Slot, Ring.Blk, Ring.Lap, Total, Permits, Credits, Cells, To, Inv;
    var pc := s.procs[i].pc;
    Unfold(g, s);
    assert PcOk(g, s, pc);
    NoOverlap(g, s, i);
    Move(g, s, i, Filling(pc.data, pc.at, pc.soft, pc.left));
  }

  lemma {:induction false} PutStep(g: Ring, s: State, i: nat)
    requires Inv(g, s) && i < |s.procs| && s.procs[i].pc.Filling?
    ensures var pc := s.procs[i].pc; Inv(g, Put(g, s, i, pc.data, pc.at, pc.soft, pc.left))
  {
    hide Ring.Slot, Ring.Blk, Ring.Lap, Total, Permits, Credits, Passed;
    var pc := s.procs[i].pc;
    var at, data, soft, left := pc.at, pc.data, pc.soft, pc.left;
    assert PcOk(g, s, pc);
    NoOverlap(g, s, i);
    var next := if soft then Soft(at + 1, left) else if at % g.blk_len == 0 then Granting(at) else Idle;
    var t := Put(g, s, i, data, at, soft, left);
    if soft { NextInBlock(g, at, left); }
    if at % g.blk_len == 0 { BlockNumber(g, at); }
    PutCells(g, s, t, at, data);
    PutPcs(g, s, i, next, t);
    SameTotals(g, s, t, i, s.procs[i].(pc := next));
  }

  /* ---------- permits ---------- */

  lemma {:induction false} OneMore(n: nat, len: nat)
    ensures (n + 1) * len == n * len + len
  {}

  lemma {:induction false} PreAllocPermits(g: Ring, s: State, i: nat)
    requires Shape(g, s) && Permits(g, s) && i < |s.procs| && s.procs[i].pc.Granting?
    requires s.procs[i].pc.at / g.blk_len !in s.grants
    ensures Permits(g, PreAlloc(g, s, i, s.procs[i].pc.at))
  {
    hide Total;
    Changed(s, i, s.procs[i].(pc := Idle), 0);
    OneMore(|s.grants|, g.blk_len);
  }

  lemma {:induction false} PreAllocStep(g: Ring, s: State, i: nat)
    requires Inv(g, s) && i < |s.procs| && s.procs[i].pc.Granting?
    ensures Inv(g, PreAlloc(g, s, i, s.procs[i].pc.at))
  {
    hide Ring.Slot, Ring.Blk, Ring.Lap, Total, Credits, Cells, Permits;
    CellsShape(g, s);
    var t := PreAlloc(g, s, i, s.procs[i].pc.at);
    assert PcOk(g, s, s.procs[i].pc);
    PreAllocPermits(g, s, i);
    PreAllocPcs(g, s, i);
    CellsFrame(g, s, t);
    CreditsFrame(g, s, t, i);
  }

  lemma {:induction false} PreAllocPcs(g: Ring, s: State, i: nat)
    requires Shape(g, s) && Pcs(g, s) && i < |s.procs| && s.procs[i].pc.Granting?
    ensures Pcs(g, PreAlloc(g, s, i, s.procs[i].pc.at))
  {
    hide Ring.Slot, Ring.Blk, Ring.Lap;
    var at := s.procs[i].pc.at;
    var t := PreAlloc(g, s, i, at);
    assert PcOk(g, s, s.procs[i].pc);
    BlockNumber(g, at);
    forall j | 0 <= j < |t.procs| ensures PcOk(g, t, t.procs[j].pc) {
      if j != i && s.procs[j].pc.Granting? {
        assert PcOk(g, s, s.procs[j].pc);
        BlockNumber(g, s.procs[j].pc.at);
      }
    }
  }

  lemma {:induction false} AskPermits(g: Ring, s: State, i: nat, suggest: nat)
    requires Permits(g, s) && i < |s.procs| && s.procs[i].pc.Idle?
    ensures Permits(g, Ask(s, i, suggest))
  {
    hide Total;
    Changed(s, i, Ask(s, i, suggest).procs[i], 0);
  }

  lemma {:induction false} AskStep(g: Ring, s: State, i: nat, suggest: nat)
    requires Inv(g, s) && i < |s.procs| && s.procs[i].pc.Idle?
    ensures Inv(g, Ask(s, i, suggest))
  {
    hide Ring.Slot, Ring.Blk, Ring.Lap, Total, Permits, Credits, Passed, Pcs;
    var t := Ask(s, i, suggest);
    AskPermits(g, s, i, suggest);
    CellsFrame(g, s, t);
    PcsFrame(g, s, t, i);
    CreditsFrame(g, s, t, i);
  }

  lemma {:induction false} TrimPermits(g: Ring, s: State, i: nat)
    requires Permits(g, s) && i < |s.procs| && s.procs[i].pc.PermitTrim?
    ensures Permits(g, Trim(s, i, s.procs[i].pc.over, s.procs[i].pc.own))
  {
    hide Total;
    Changed(s, i, Trim(s, i, s.procs[i].pc.over, s.procs[i].pc.own).procs[i], 0);
  }

  lemma {:induction false} TrimStep(g: Ring, s: State, i: nat)
    requires Inv(g, s) && i < |s.procs| && s.procs[i].pc.PermitTrim?
    ensures Inv(g, Trim(s, i, s.procs[i].pc.over, s.procs[i].pc.own))
  {
    hide Ring.Slot, Ring.Blk, Ring.Lap, Total, Permits, Credits, Passed, Pcs;
    var t := Trim(s, i, s.procs[i].pc.over, s.procs[i].pc.own);
    TrimPermits(g, s, i);
    CellsFrame(g, s, t);
    PcsFrame(g, s, t, i);
    CreditsFrame(g, s, t, i);
  }

  /* ---------- reading ---------- */

  lemma {:induction false} FetchPermits(g: Ring, s: State, i: nat)
    requires Permits(g, s) && i < |s.procs| && s.procs[i].pc.Idle?
    ensures Permits(g, Fetch(s, i))
  {
    hide Total;
    Changed(s, i, Fetch(s, i).procs[i], 0);
  }

  lemma {:induction false} FetchStep(g: Ring, s: State, i: nat)
    requires Inv(g, s) && i < |s.procs| && s.procs[i].pc.Idle?
    ensures Inv(g, Fetch(s, i))
  {
    hide Ring.Slot, Ring.Blk, Ring.Lap, Total, Permits, Credits, Passed, Pcs;
    var t := Fetch(s, i);
    if s.procs[i].permits > 0 {
      FreshIndex(g, s);
      FetchPermits(g, s, i);
      CellsFrame(g, s, t);
      PcsFrame(g, s, t, i);
      CreditsFrame(g, s, t, i);
    }
  }

  /** No more blocks are granted than have begun. */
  lemma {:induction false} GrantsBegun(g: Ring, s: State)
    requires Inv(g, s)
    ensures |s.grants| <= Begun(g, s.w_idx)
  {
    hide Ring.Slot, Ring.Blk, Ring.Lap, Total, Permits, Credits, Passed, Begun;
    var c := Begun(g, s.w_idx);
    forall x | x in s.grants ensures x in Span(0, c) { BegunBelow(g, s.w_idx, x); }
    SubsetSize(s.grants, Span(0, c));
  }

  lemma {:induction false} NotPast(n: nat, r: nat, x: nat, c: nat, len: nat)
    requires len > 0 && n < r <= x * len && x <= c
    ensures n / len < c
  {
    assert c * len == x * len + (c - x) * len;
    NotNegative(c - x, len);
    assert n == n / len * len + n % len;
    assert (n / len - c) * len == n / len * len - c * len;
    NotNegative(n / len - c, len);
  }

  /** Readers never run ahead of the blocks that writers have begun. */
  lemma {:induction false} ReadsBegun(g: Ring, s: State, n: nat)
    requires Inv(g, s) && n < s.r_idx
    ensures n / g.blk_len * g.blk_len < s.w_idx
  {
    hide Ring.Slot, Ring.Blk, Ring.Lap, Total, Cells, Pcs, Credits, Begun;
    CellsShape(g, s);
    GrantsBegun(g, s);
    NotPast(n, s.r_idx, |s.grants|, Begun(g, s.w_idx), g.blk_len);
    BegunBelow(g, s.w_idx, n / g.blk_len);
  }

  /** What a reader finds in its slot is what was written for its own index. */
  lemma {:induction false} SeesOwn(g: Ring, s: State, i: nat)
    requires Inv(g, s) && i < |s.procs| && s.procs[i].pc.Reading?
    ensures var at := s.procs[i].pc.at;
            s.q[g.Slot(at)] != 0 ==> at in s.written && s.q[g.Slot(at)] == s.written[at]
  {
    hide Ring.Slot, Ring.Blk, Ring.Lap, Total, Permits, Credits;
    var at := s.procs[i].pc.at;
    assert PcOk(g, s, s.procs[i].pc);
    if s.q[g.Slot(at)] != 0 {
      var m :| m in s.written && m !in s.got && g.Slot(m) == g.Slot(at);
      ReadsBegun(g, s, at);
      BegunPassed(g, s, at);
      SameSlot(g, m, at);
      SameSlot(g, at, m);
      assert Passed(g, s.got.Keys, m);
    }
  }

  lemma {:induction false} SeeStep(g: Ring, s: State, i: nat)
    requires Inv(g, s) && i < |s.procs| && s.procs[i].pc.Reading?
    ensures Inv(g, See(g, s, i, s.procs[i].pc.at))
  {
    hide Ring.Slot, Ring.Blk, Ring.Lap, Total, Permits, Credits, Cells, To, Inv;
    var at := s.procs[i].pc.at;
    Unfold(g, s);
    assert PcOk(g, s, s.procs[i].pc);
    SeesOwn(g, s, i);
    if s.q[g.Slot(at)] != 0 {
      Move(g, s, i, Got(at, s.q[g.Slot(at)]));
    }
  }

  lemma {:induction false} ClearCells(g: Ring, s: State, t: State, at: nat)
    requires Cells(g, s) && at in s.written && at !in s.got && at < s.r_idx
    requires t.q == s.q[g.Slot(at) := 0] && t.got == s.got[at := s.written[at]] && t.written == s.written
    requires t.w_idx == s.w_idx && t.r_idx == s.r_idx && t.r_cnt == s.r_cnt
    ensures Cells(g, t)
  {
    hide Ring.Blk, Ring.Lap, Ring.Slot;
    forall n | n in t.written && n !in t.got ensures t.q[g.Slot(n)] == t.written[n] {
      if g.Slot(n) == g.Slot(at) { Alone(g, s, n, at); }
    }
    forall j | 0 <= j < |t.q| && t.q[j] != 0 ensures exists n :: n in t.written && n !in t.got && g.Slot(n) == j {
      var n :| n in s.written && n !in s.got && g.Slot(n) == j;
      assert n in t.written && n !in t.got;
    }
    forall n: nat | n < t.w_idx ensures Passed(g, t.got.Keys, n) { assert Passed(g, s.got.Keys, n); }
  }

  lemma {:induction false} ClearPcs(g: Ring, s: State, i: nat)
    requires Shape(g, s) && Pcs(g, s) && i < |s.procs| && s.procs[i].pc.Got?
    ensures var pc := s.procs[i].pc; Pcs(g, Clear(g, s, i, pc.at, pc.data))
  {
    hide Ring.Slot, Ring.Blk, Ring.Lap;
    var at := s.procs[i].pc.at;
    var t := Clear(g, s, i, at, s.procs[i].pc.data);
    forall j | 0 <= j < |t.procs| ensures PcOk(g, t, t.procs[j].pc) {
      if j != i {
        assert ReadAt(s.procs[j].pc) != at;
      }
    }
  }

  lemma {:induction false} ReadOneMore(g: Ring, read: set<nat>, at: nat, b: nat)
    requires g.Ok() && at !in read
    ensures |ReadsOf(g, read + {at}, b)| == |ReadsOf(g, read, b)| + if g.Blk(at) == b then 1 else 0
  {
    hide Ring.Blk;
    assert ReadsOf(g, read + {at}, b) == ReadsOf(g, read, b) + if g.Blk(at) == b then {at} else {};
  }

  lemma {:induction false} ClearCredits(g: Ring, s: State, i: nat)
    requires Shape(g, s) && Credits(g, s) && i < |s.procs| && s.procs[i].pc.Got? && s.procs[i].pc.at !in s.got
    ensures var pc := s.procs[i].pc; Credits(g, Clear(g, s, i, pc.at, pc.data))
  {
    hide Ring.Slot, Ring.Blk, Total, ReadsOf;
    var pc := s.procs[i].pc;
    var t := Clear(g, s, i, pc.at, pc.data);
    forall b | 0 <= b < g.blk_cnt
      ensures t.r_cnt[b] + Total(Due(b), t.procs) == |ReadsOf(g, t.got.Keys, b)|
    {
      Changed(s, i, t.procs[i], b);
      ReadOneMore(g, s.got.Keys, pc.at, b);
      assert t.got.Keys == s.got.Keys + {pc.at};
    }
  }

  lemma {:induction false} ClearStep(g: Ring, s: State, i: nat)
    requires Inv(g, s) && i < |s.procs| && s.procs[i].pc.Got?
    ensures var pc := s.procs[i].pc; Inv(g, Clear(g, s, i, pc.at, pc.data))
  {
    hide Ring.Slot, Ring.Blk, Ring.Lap, Total, Passed, Credits, Cells, Pcs;
    CellsShape(g, s);
    var pc := s.procs[i].pc;
    var t := Clear(g, s, i, pc.at, pc.data);
    assert PcOk(g, s, pc) by { Unfold(g, s); }
    ClearCells(g, s, t, pc.at);
    ClearPcs(g, s, i);
    ClearCredits(g, s, i);
    Changed(s, i, t.procs[i], 0);
  }

  /* ---------- crediting ---------- */

  lemma {:induction false} AddRcntTotals(g: Ring, s: State, i: nat, blk: nat, total: nat)
    requires Shape(g, s) && Permits(g, s) && Credits(g, s) && i < |s.procs| && s.procs[i].pc.Idle?
    requires blk < |s.r_cnt| && s.procs[i].due[blk] >= total
    ensures Permits(g, AddRcnt(s, i, blk, total)) && Credits(g, AddRcnt(s, i, blk, total))
  {
    hide Ring.Slot, Ring.Blk, Ring.Lap, Total, ReadsOf;
    var t := AddRcnt(s, i, blk, total);
    forall b | 0 <= b < g.blk_cnt
      ensures t.r_cnt[b] + Total(Due(b), t.procs) == |ReadsOf(g, t.got.Keys, b)|
    {
      Changed(s, i, t.procs[i], b);
    }
    Changed(s, i, t.procs[i], 0);
  }

  lemma {:induction false} AddRcntStep(g: Ring, s: State, i: nat, blk: nat, total: nat)
    requires Inv(g, s) && i < |s.procs| && s.procs[i].pc.Idle?
    ensures Inv(g, AddRcnt(s, i, blk, total))
  {
    hide Ring.Slot, Ring.Blk, Ring.Lap, Total, Permits, Credits, Passed, Pcs;
    var t := AddRcnt(s, i, blk, total);
    if blk < |s.r_cnt| && s.procs[i].due[blk] >= total {
      AddRcntTotals(g, s, i, blk, total);
      CellsFrame(g, s, t);
      PcsFrame(g, s, t, i);
    }
  }

  /* ---------- every step ---------- */

  lemma {:induction false} StepKeeps(g: Ring, s: State, i: nat, a: Action)
    requires Inv(g, s) && i < |s.procs|
    ensures Inv(g, Step(g, s, i, a)) && |Step(g, s, i, a).procs| == |s.procs|
  {
    hide Inv, Check, Cas, Probe, Put, PreAlloc, SoftBegin, SoftCas, Ask, Trim, Fetch, See, Clear, AddRcnt, To;
    Unfold(g, s);
    Sizes(g, s, i);
    var pc := s.procs[i].pc;
    match pc
    case Idle => {
      match a
      case Enqueue(data) => if data != 0 { Move(g, s, i, Inq(data)); }
      case SoftEnqueue(at) => SoftBeginStep(g, s, i, at);
      case AskPermit(suggest) => AskStep(g, s, i, suggest);
      case Dequeue => FetchStep(g, s, i);
      case Credit(blk, total) => AddRcntStep(g, s, i, blk, total);
      case Go =>
    }
    case Inq(data) => Move(g, s, i, Loaded(data, s.w_idx));
    case Loaded(_, _) => CheckStep(g, s, i);
    case Checked(_, _) => CasStep(g, s, i);
    case Claimed(_, _, _, _) => ProbeStep(g, s, i);
    case Filling(_, _, _, _) => PutStep(g, s, i);
    case Granting(_) => PreAllocStep(g, s, i);
    case Soft(_, _) => SoftCasStep(g, s, i);
    case PermitTrim(_, _) => TrimStep(g, s, i);
    case Reading(_) => SeeStep(g, s, i);
    case Got(_, _) => ClearStep(g, s, i);
  }

  lemma {:induction false} Sizes(g: Ring, s: State, i: nat)
    requires Shape(g, s) && i < |s.procs|
    ensures forall a :: |Step(g, s, i, a).procs| == |s.procs|
  {
    hide Ring.Slot, Ring.Blk, Ring.Lap;
  }

  lemma {:induction false} InitHolds(g: Ring, procs: nat)
    requires g.Ok()
    ensures Inv(g, Init(g, procs))
  {
    hide Ring.Slot, Ring.Blk, Ring.Lap;
    var s := Init(g, procs);
    TotalZero(Returning, s.procs);
    TotalZero(Owned, s.procs);
    forall b | 0 <= b < g.blk_cnt ensures s.r_cnt[b] + Total(Due(b), s.procs) == |ReadsOf(g, s.got.Keys, b)| {
      TotalZero(Due(b), s.procs);
    }
  }
}
