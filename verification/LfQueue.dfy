/**
 * The lock-free queue of lf_rwq.c: any number of writers and readers share a ring of slots,
 * one atomic access per step, in any interleaving.
 */
module LfQueue {
  import opened Rings

  /** What a process does next. */
  datatype Pc =
    | Idle
    | Inq(data: nat)                                          // top of the loop of lfrwq_inq
    | Loaded(data: nat, at: nat)                              // w_idx has been read
    | Checked(data: nat, at: nat)                             // the block was credited often enough
    | Claimed(data: nat, at: nat, soft: bool, left: nat)      // the compare-and-swap succeeded
    | Filling(data: nat, at: nat, soft: bool, left: nat)      // the slot was found empty
    | Granting(at: nat)                                       // the slot is written, lfrwq_pre_alloc is next
    | Soft(at: nat, left: nat)                                // inside the loop of lfrwq_soft_inq
    | PermitTrim(over: nat, own: nat)                         // gives `over` back and keeps `own`
    | Reading(at: nat)                                        // r_idx was advanced, spins on its slot
    | Got(at: nat, data: nat)                                 // read the slot, about to clear it

  /** A process: its next step, the permits it holds, and the blocks of its reads not yet credited. */
  datatype Proc = Proc(pc: Pc, permits: nat, due: multiset<nat>)

  /** The shared queue, the processes, and the history of what was written, read and granted. */
  datatype State = State(
    w_idx: nat, r_idx: nat, q: seq<nat>, r_cnt: seq<nat>, r_permit: int, procs: seq<Proc>,
    written: map<nat, nat>, got: map<nat, nat>, grants: set<nat>)

  const MARK: nat := 0xABABABABBABABABA

  /** What an idle process may begin; Go continues with its next step. */
  datatype Action =
    | Enqueue(data: nat)
    | SoftEnqueue(at: nat)
    | AskPermit(suggest: nat)
    | Dequeue
    | Credit(blk: nat, total: nat)
    | Go

  ghost predicate Shape(g: Ring, s: State) {
    g.Ok() && |s.q| == g.Len() && |s.r_cnt| == g.blk_cnt
  }

  function Init(g: Ring, procs: nat): State {
    State(0, 0, seq(g.Len(), _ => 0), seq(g.blk_cnt, _ => 0), 0, seq(procs, _ => Proc(Idle, 0, multiset{})), map[],
        map[], {})
  }

  /** One atomic step of process `i`. */
  function Step(g: Ring, s: State, i: nat, a: Action): State
    requires Shape(g, s) && i < |s.procs|
  {
    var p := s.procs[i];
    match p.pc
    case Idle =>
      (match a
       case Enqueue(data) => if data == 0 then s else To(s, i, Inq(data))
       case SoftEnqueue(at) => SoftBegin(g, s, i, at)
       case AskPermit(suggest) => Ask(s, i, suggest)
       case Dequeue => Fetch(s, i)
       case Credit(blk, total) => AddRcnt(s, i, blk, total)
       case Go => s)
    case Inq(data) => To(s, i, Loaded(data, s.w_idx))
    case Loaded(data, at) => Check(g, s, i, data, at)
    case Checked(data, at) => Cas(s, i, data, at)
    case Claimed(data, at, soft, left) => Probe(g, s, i, data, at, soft, left)
    case Filling(data, at, soft, left) => Put(g, s, i, data, at, soft, left)
    case Granting(at) => PreAlloc(g, s, i, at)
    case Soft(at, left) => SoftCas(s, i, at, left)
    case PermitTrim(over, own) => Trim(s, i, over, own)
    case Reading(at) => See(g, s, i, at)
    case Got(at, data) => Clear(g, s, i, at, data)
  }

  function To(s: State, i: nat, pc: Pc): State
    requires i < |s.procs|
  {
    s.(procs := s.procs[i := s.procs[i].(pc := pc)])
  }

  /** lfrwq_inq (lf_rwq.c:122-128): has the block been read as often as this lap needs? If not, -1. */
  function Check(g: Ring, s: State, i: nat, data: nat, at: nat): State
    requires Shape(g, s) && i < |s.procs|
  {
    if s.r_cnt[g.Blk(at)] / g.blk_len < g.Lap(at) then To(s, i, Idle) else To(s, i, Checked(data, at))
  }

  /** lfrwq_inq (lf_rwq.c:129-136): claim the index, or start again. */
  function Cas(s: State, i: nat, data: nat, at: nat): State
    requires i < |s.procs|
  {
    if s.w_idx == at then To(s.(w_idx := at + 1), i, Claimed(data, at, false, 0)) else To(s, i, Inq(data))
  }

  /** The slot must be empty (lf_rwq.c:137-142 and 88-94): "overlap" otherwise. */
  function Probe(g: Ring, s: State, i: nat, data: nat, at: nat, soft: bool, left: nat): State
    requires Shape(g, s) && i < |s.procs|
  {
    if s.q[g.Slot(at)] != 0 then To(s, i, Idle) else To(s, i, Filling(data, at, soft, left))
  }

  /**
   * The slot is written (lf_rwq.c:143-148 and 95-97); lfrwq_inq goes on to grant permits at a block start,
   * lfrwq_soft_inq to the next slot.
   */
  function Put(g: Ring, s: State, i: nat, data: nat, at: nat, soft: bool, left: nat): State
    requires Shape(g, s) && i < |s.procs|
  {
    To(s.(q := s.q[g.Slot(at) := data], written := s.written[at := data]), i,
       if soft then Soft(at + 1, left) else if at % g.blk_len == 0 then Granting(at) else Idle)
  }

  /** lfrwq_pre_alloc (lf_rwq.c:225-233) */
  function PreAlloc(g: Ring, s: State, i: nat, at: nat): State
    requires Shape(g, s) && i < |s.procs|
  {
    To(s.(r_permit := s.r_permit + g.blk_len, grants := s.grants + {at / g.blk_len}), i, Idle)
  }

  /** lfrwq_soft_inq up to its loop (lf_rwq.c:52-78), which fills the rest of a block that was begun. */
  function SoftBegin(g: Ring, s: State, i: nat, at: nat): State
    requires Shape(g, s) && i < |s.procs|
  {
    if at % g.blk_len == 0 || s.r_cnt[g.Blk(at)] / g.blk_len < g.Lap(at) then s
    else To(s, i, Soft(at, g.blk_len - at % g.blk_len))
  }

  /** lfrwq_soft_inq, top of its loop (lf_rwq.c:80-86). */
  function SoftCas(s: State, i: nat, at: nat, left: nat): State
    requires i < |s.procs|
  {
    if left > 0 && s.w_idx == at then To(s.(w_idx := at + 1), i, Claimed(MARK, at, true, left - 1)) else To(s, i, Idle)
  }

  /** lfrwq_get_rpermit (lf_rwq.c:204-223): take the suggested number, then see how many there were. */
  function Ask(s: State, i: nat, suggest: nat): State
    requires i < |s.procs|
  {
    var left := s.r_permit - suggest;
    if left + suggest <= 0 then To(s.(r_permit := left), i, PermitTrim(suggest, 0))
    else if left < 0 then To(s.(r_permit := left), i, PermitTrim(-left, left + suggest))
    else s.(r_permit := left, procs := s.procs[i := s.procs[i].(permits := s.procs[i].permits + suggest)])
  }

  /** The surplus goes back; with nothing kept the caller gets 0 or tries again. */
  function Trim(s: State, i: nat, over: nat, own: nat): State
    requires i < |s.procs|
  {
    s.(r_permit := s.r_permit + over,
       procs := s.procs[i := s.procs[i].(pc := Idle, permits := s.procs[i].permits + own)])
  }

  /** lfrwq_deq (lf_rwq.c:38): a process with a permit takes the next read index. */
  function Fetch(s: State, i: nat): State
    requires i < |s.procs|
  {
    if s.procs[i].permits == 0 then s
    else s.(r_idx := s.r_idx + 1,
            procs := s.procs[i := s.procs[i].(pc := Reading(s.r_idx), permits := s.procs[i].permits - 1)])
  }

  /** lfrwq_deq (lf_rwq.c:40-43): the spin ends when the slot is not empty. */
  function See(g: Ring, s: State, i: nat, at: nat): State
    requires Shape(g, s) && i < |s.procs|
  {
    if s.q[g.Slot(at)] == 0 then s else To(s, i, Got(at, s.q[g.Slot(at)]))
  }

  /** lfrwq_deq (lf_rwq.c:46-49): the slot is cleared and the block returned. */
  function Clear(g: Ring, s: State, i: nat, at: nat, data: nat): State
    requires Shape(g, s) && i < |s.procs|
  {
    s.(q := s.q[g.Slot(at) := 0], got := s.got[at := data],
       procs := s.procs[i := s.procs[i].(pc := Idle, due := s.procs[i].due + multiset{g.Blk(at)})])
  }

  /** lfrwq_add_rcnt (lf_rwq.c:197-201) for reads the process has made. */
  function AddRcnt(s: State, i: nat, blk: nat, total: nat): State
    requires i < |s.procs|
  {
    if blk >= |s.r_cnt| || s.procs[i].due[blk] < total then s
    else s.(r_cnt := s.r_cnt[blk := s.r_cnt[blk] + total],
            procs := s.procs[i := s.procs[i].(due := s.procs[i].due[blk := s.procs[i].due[blk] - total])])
  }
}
