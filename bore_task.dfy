// The per-task side of BORE (kernel/sched/bore.c lines 73-175, 334-337):
// the burst context of a task, the scheduling-entity fields BORE touches,
// and the state machine that update_curr_bore, update_penalty,
// restart_burst_bore, restart_burst_rescale_deadline_bore,
// reweight_task_by_prio and reset_task_bore drive.
//
// Each operation is specified by a function on a snapshot of the task
// (TaskState); the methods of class Task update the fields in place and
// are proved to produce exactly that snapshot.

module BoreTask {
  import opened BoreMath

  /** struct bore_bc: a memoised penalty and the (shifted) time it was taken. */
  datatype BurstCache = BurstCache(penalty: u32, timestamp: u64)

  /** struct bore_ctx, the burst context embedded in every task. */
  datatype BoreCtx = BoreCtx(
    burstTime: u64,
    currPenalty: u32,
    prevPenalty: u32,
    penalty: u32,
    stopUpdate: bool,
    futexWaiting: bool,
    subtree: BurstCache,
    group: BurstCache)
  {
    /** Every penalty held in the context is within MAX_BURST_PENALTY. */
    predicate Valid() {
      && IsPenalty(currPenalty) && IsPenalty(prevPenalty) && IsPenalty(penalty)
      && IsPenalty(subtree.penalty) && IsPenalty(group.penalty)
    }
  }

  /** The context after `memset(&p->bore, 0, sizeof(struct bore_ctx))`. */
  const ZeroCtx := BoreCtx(0, 0, 0, 0, false, false, BurstCache(0, 0), BurstCache(0, 0))

  /** The fields of the scheduling entity (`p->se`) BORE reads or writes. */
  datatype Entity = Entity(onRq: bool, weight: nat, invWeight: nat, vruntime: u64, deadline: u64)

  /** Task attributes BORE only reads: static_prio, PF_KTHREAD and
      task_has_idle_policy. */
  datatype Attrs = Attrs(staticPrio: int, kthread: bool, idlePolicy: bool)

  /** What the per-task operations change: `p->bore` and `p->se`. */
  datatype TaskState = TaskState(ctx: BoreCtx, se: Entity)

  function Max(a: u32, b: u32): (r: u32)
    ensures a <= r && b <= r && (r == a || r == b)
  {
    if a < b then b else a
  }

  /** The effective priority of a task in this state. */
  function Prio(t: Tunables, a: Attrs, s: TaskState): (r: u8)
    ensures r < 40
  {
    EffectivePrio(t, a.staticPrio, s.ctx.penalty)
  }

  /** scale_load on a 64-bit kernel: the table weight in the fixed-point
      units of se->load.weight, shifted left by SCHED_FIXEDPOINT_SHIFT (10). */
  function ScaleLoad(w: nat): (r: nat)
    ensures r / 1024 == w && r % 1024 == 0
  {
    w * 1024
  }

  /** The load weight matches the effective priority (idle-policy tasks are
      never reweighted by BORE, so they are exempt). */
  predicate WeightCoherent(t: Tunables, tables: PrioTables, a: Attrs, s: TaskState)
    requires tables.Valid()
  {
    var prio := Prio(t, a, s);
    a.idlePolicy || (s.se.weight == ScaleLoad(tables.weight[prio]) && s.se.invWeight == tables.wmult[prio])
  }

  /** The derived fields agree with the raw ones: curr_penalty is the
      penalty of the current burst time, and penalty is 0 for a kernel
      thread and max(prev_penalty, curr_penalty) otherwise. */
  predicate Consistent(t: Tunables, a: Attrs, ctx: BoreCtx) {
    && ctx.Valid()
    && ctx.currPenalty == CalcBurstPenalty(t, ctx.burstTime)
    && ctx.penalty == if a.kthread then 0 else Max(ctx.prevPenalty, ctx.currPenalty)
  }

  // ---------------------------------------------------------------------
  // reweight_task_by_prio (bore.c lines 73-93)
  // ---------------------------------------------------------------------

  /** reweight_task_by_prio: idle-policy tasks are left alone; otherwise the
      weight (through scale_load) and inverse weight are taken from the
      tables, and a queued task goes through reweight_entity with
      stop_update raised around the call, so it ends with stop_update
      cleared. */
  function Reweight(tables: PrioTables, a: Attrs, s: TaskState, prio: nat): (r: TaskState)
    requires tables.Valid() && prio < 40
    ensures a.idlePolicy ==> r == s
    ensures !a.idlePolicy ==> r.se.weight == ScaleLoad(tables.weight[prio]) && r.se.invWeight == tables.wmult[prio]
    ensures !a.idlePolicy && s.se.onRq ==> !r.ctx.stopUpdate
    ensures r.ctx == s.ctx.(stopUpdate := r.ctx.stopUpdate)
    ensures r.ctx.stopUpdate ==> s.ctx.stopUpdate
    ensures r.se == s.se.(weight := r.se.weight, invWeight := r.se.invWeight)
  {
    if a.idlePolicy then s
    else
      var ctx := if s.se.onRq then s.ctx.(stopUpdate := false) else s.ctx;
      TaskState(ctx, s.se.(weight := ScaleLoad(tables.weight[prio]), invWeight := tables.wmult[prio]))
  }

  /** Reweighting to the current effective priority makes the weight
      coherent, and doing it again changes nothing. */
  lemma ReweightToEffectivePrio(t: Tunables, tables: PrioTables, a: Attrs, s: TaskState)
    requires tables.Valid()
    ensures var r := Reweight(tables, a, s, Prio(t, a, s));
      WeightCoherent(t, tables, a, r) && Reweight(tables, a, r, Prio(t, a, r)) == r
  {
    var r := Reweight(tables, a, s, Prio(t, a, s));
    assert r.ctx.penalty == s.ctx.penalty;
  }

  // ---------------------------------------------------------------------
  // update_penalty (bore.c lines 105-125)
  // ---------------------------------------------------------------------

  /** update_penalty: penalty becomes 0 for a kernel thread and
      max(prev_penalty, curr_penalty) otherwise; the task is reweighted when
      that moved its effective priority. */
  function UpdatePenaltyStep(t: Tunables, tables: PrioTables, a: Attrs, s: TaskState): (r: TaskState)
    requires tables.Valid()
    ensures r.ctx.penalty == if a.kthread then 0 else Max(s.ctx.prevPenalty, s.ctx.currPenalty)
    ensures r.ctx == s.ctx.(penalty := r.ctx.penalty, stopUpdate := r.ctx.stopUpdate)
    ensures r.ctx.stopUpdate ==> s.ctx.stopUpdate
    ensures Prio(t, a, r) == Prio(t, a, s) ==> r.se == s.se
  {
    var prevPrio := EffectivePrio(t, a.staticPrio, s.ctx.penalty);
    var penalty := if a.kthread then 0 else Max(s.ctx.prevPenalty, s.ctx.currPenalty);
    var s' := s.(ctx := s.ctx.(penalty := penalty));
    var newPrio := EffectivePrio(t, a.staticPrio, penalty);
    if newPrio != prevPrio then Reweight(tables, a, s', newPrio) else s'
  }

  /** update_penalty keeps the weight coherent with the priority. */
  lemma UpdatePenaltyKeepsCoherence(t: Tunables, tables: PrioTables, a: Attrs, s: TaskState)
    requires tables.Valid() && WeightCoherent(t, tables, a, s)
    ensures WeightCoherent(t, tables, a, UpdatePenaltyStep(t, tables, a, s))
  {
    var r := UpdatePenaltyStep(t, tables, a, s);
    if Prio(t, a, r) == Prio(t, a, s) {
      assert r.se == s.se;
    }
  }

  /** update_penalty is idempotent. */
  lemma UpdatePenaltyIdempotent(t: Tunables, tables: PrioTables, a: Attrs, s: TaskState)
    requires tables.Valid()
    ensures var r := UpdatePenaltyStep(t, tables, a, s);
      UpdatePenaltyStep(t, tables, a, r) == r
  {
    var r := UpdatePenaltyStep(t, tables, a, s);
    var r2 := UpdatePenaltyStep(t, tables, a, r);
    assert r2.ctx.penalty == r.ctx.penalty;
    assert r2.se == r.se;
  }

  // ---------------------------------------------------------------------
  // update_curr_bore (bore.c lines 127-143)
  // ---------------------------------------------------------------------

  /** update_curr_bore: nothing while stop_update is raised; otherwise the
      executed time is added to burst_time (u64), curr_penalty is recomputed
      and update_penalty runs only when curr_penalty exceeds prev_penalty. */
  function UpdateCurrStep(t: Tunables, tables: PrioTables, a: Attrs, s: TaskState, deltaExec: u64): (r: TaskState)
    requires tables.Valid()
    ensures s.ctx.stopUpdate ==> r == s
    ensures !s.ctx.stopUpdate ==>
      && r.ctx.burstTime == AddU64(s.ctx.burstTime, deltaExec)
      && r.ctx.currPenalty == CalcBurstPenalty(t, r.ctx.burstTime)
      && r.ctx.prevPenalty == s.ctx.prevPenalty
      && (r.ctx.currPenalty <= s.ctx.prevPenalty ==> r.se == s.se && r.ctx.penalty == s.ctx.penalty)
      && (s.ctx.prevPenalty < r.ctx.currPenalty ==> r.ctx.penalty == if a.kthread then 0 else r.ctx.currPenalty)
    ensures r.ctx == s.ctx.(burstTime := r.ctx.burstTime, currPenalty := r.ctx.currPenalty,
                            penalty := r.ctx.penalty, stopUpdate := r.ctx.stopUpdate)
  {
    if s.ctx.stopUpdate then s
    else
      var burstTime := AddU64(s.ctx.burstTime, deltaExec);
      var currPenalty := CalcBurstPenalty(t, burstTime);
      var s' := s.(ctx := s.ctx.(burstTime := burstTime, currPenalty := currPenalty));
      if currPenalty <= s.ctx.prevPenalty then s' else UpdatePenaltyStep(t, tables, a, s')
  }

  /** max(prev, c) is prev for every c up to prev. */
  lemma MaxAbsorbs(prev: u32, c1: u32, c2: u32)
    requires c1 <= c2 <= prev
    ensures Max(prev, c1) == prev && Max(prev, c2) == prev
  {
  }

  /** A new burst time whose penalty is no smaller keeps a consistent
      context consistent, when penalty is left alone as long as
      curr_penalty stays at or below prev_penalty. */
  lemma BurstKeepsConsistent(t: Tunables, a: Attrs, c: BoreCtx, r: BoreCtx)
    requires Consistent(t, a, c)
    requires r == c.(burstTime := r.burstTime, currPenalty := r.currPenalty, penalty := r.penalty, stopUpdate := r.stopUpdate)
    requires r.currPenalty == CalcBurstPenalty(t, r.burstTime)
    requires CalcBurstPenalty(t, c.burstTime) <= CalcBurstPenalty(t, r.burstTime)
    requires r.currPenalty <= c.prevPenalty ==> r.penalty == c.penalty
    requires c.prevPenalty < r.currPenalty ==> r.penalty == if a.kthread then 0 else r.currPenalty
    ensures Consistent(t, a, r)
  {
    if r.currPenalty <= c.prevPenalty {
      MaxAbsorbs(c.prevPenalty, c.currPenalty, r.currPenalty);
    }
  }

  /** Without a u64 wrap of burst_time, update_curr_bore keeps the context
      consistent: the shortcut taken when curr_penalty does not exceed
      prev_penalty is sound because the penalty is monotone in burst_time. */
  lemma UpdateCurrKeepsConsistent(t: Tunables, tables: PrioTables, a: Attrs, s: TaskState, deltaExec: u64)
    requires t.Valid() && tables.Valid() && Consistent(t, a, s.ctx)
    requires s.ctx.burstTime + deltaExec < TWO_64
    ensures Consistent(t, a, UpdateCurrStep(t, tables, a, s, deltaExec).ctx)
  {
    if !s.ctx.stopUpdate {
      var burstTime := s.ctx.burstTime + deltaExec;
      assert AddU64(s.ctx.burstTime, deltaExec) == burstTime;
      CalcBurstPenaltyMonotone(t, s.ctx.burstTime, burstTime);
      BurstKeepsConsistent(t, a, s.ctx, UpdateCurrStep(t, tables, a, s, deltaExec).ctx);
    }
  }

  /** update_curr_bore keeps the weight coherent. */
  lemma UpdateCurrKeepsCoherence(t: Tunables, tables: PrioTables, a: Attrs, s: TaskState, deltaExec: u64)
    requires tables.Valid() && WeightCoherent(t, tables, a, s)
    ensures WeightCoherent(t, tables, a, UpdateCurrStep(t, tables, a, s, deltaExec))
  {
    if !s.ctx.stopUpdate {
      var burstTime := AddU64(s.ctx.burstTime, deltaExec);
      var s' := s.(ctx := s.ctx.(burstTime := burstTime, currPenalty := CalcBurstPenalty(t, burstTime)));
      assert WeightCoherent(t, tables, a, s');
      UpdatePenaltyKeepsCoherence(t, tables, a, s');
    }
  }

  // ---------------------------------------------------------------------
  // restart_burst_bore, restart_burst_rescale_deadline_bore (bore.c 145-175)
  // ---------------------------------------------------------------------

  /** restart_burst_bore: prev_penalty becomes the smoothed value, the burst
      restarts from zero, and update_penalty runs. */
  function RestartStep(t: Tunables, tables: PrioTables, a: Attrs, s: TaskState): (r: TaskState)
    requires t.smoothness < 32 && tables.Valid()
    ensures r.ctx.prevPenalty == BinarySmooth(t, s.ctx.currPenalty, s.ctx.prevPenalty)
    ensures r.ctx.currPenalty == 0 && r.ctx.burstTime == 0
    ensures r.ctx == s.ctx.(prevPenalty := r.ctx.prevPenalty, currPenalty := 0, burstTime := 0,
                            penalty := r.ctx.penalty, stopUpdate := r.ctx.stopUpdate)
    ensures r.se == s.se.(weight := r.se.weight, invWeight := r.se.invWeight)
  {
    var prevPenalty := BinarySmooth(t, s.ctx.currPenalty, s.ctx.prevPenalty);
    var s' := s.(ctx := s.ctx.(prevPenalty := prevPenalty, currPenalty := 0, burstTime := 0));
    UpdatePenaltyStep(t, tables, a, s')
  }

  /** A restart keeps the load weight coherent with the effective priority. */
  lemma RestartKeepsCoherence(t: Tunables, tables: PrioTables, a: Attrs, s: TaskState)
    requires t.smoothness < 32 && tables.Valid() && WeightCoherent(t, tables, a, s)
    ensures WeightCoherent(t, tables, a, RestartStep(t, tables, a, s))
  {
    var prevPenalty := BinarySmooth(t, s.ctx.currPenalty, s.ctx.prevPenalty);
    var s' := s.(ctx := s.ctx.(prevPenalty := prevPenalty, currPenalty := 0, burstTime := 0));
    assert Prio(t, a, s') == Prio(t, a, s);
    UpdatePenaltyKeepsCoherence(t, tables, a, s');
  }

  /** After a restart the context is consistent again and the new
      prev_penalty lies between the old prev_penalty and curr_penalty. */
  lemma RestartConsistent(t: Tunables, tables: PrioTables, a: Attrs, s: TaskState)
    requires t.Valid() && tables.Valid() && s.ctx.Valid()
    ensures var r := RestartStep(t, tables, a, s);
      && Consistent(t, a, r.ctx)
      && (s.ctx.currPenalty <= s.ctx.prevPenalty ==> r.ctx.prevPenalty == s.ctx.currPenalty)
      && (s.ctx.prevPenalty < s.ctx.currPenalty ==> s.ctx.prevPenalty < r.ctx.prevPenalty <= s.ctx.currPenalty)
  {
    Log2p1Bound(0);
  }

  /** restart_burst_rescale_deadline_bore: a restart, after which the
      remaining virtual deadline is rescaled to the new weight only when the
      effective priority improved (the index decreased). */
  function RestartRescaleStep(t: Tunables, tables: PrioTables, a: Attrs, s: TaskState): (r: TaskState)
    requires t.smoothness < 32 && tables.Valid()
    ensures r.ctx == RestartStep(t, tables, a, s).ctx
    ensures r.se.vruntime == s.se.vruntime
    ensures Prio(t, a, s) <= Prio(t, a, r) ==> r.se.deadline == s.se.deadline
  {
    var vremain := Remaining(s.se.vruntime, s.se.deadline);
    var oldPrio := EffectivePrio(t, a.staticPrio, s.ctx.penalty);
    var r := RestartStep(t, tables, a, s);
    var newPrio := EffectivePrio(t, a.staticPrio, r.ctx.penalty);
    if oldPrio > newPrio then
      r.(se := r.se.(deadline := RescaledDeadline(tables, r.se.vruntime, vremain, oldPrio, newPrio)))
    else
      r
  }

  /** The rescale never flips the sign of `deadline - vruntime` and never
      lengthens it. */
  lemma RestartRescaleKeepsSign(t: Tunables, tables: PrioTables, a: Attrs, s: TaskState)
    requires t.smoothness < 32 && tables.Valid()
    ensures var r := RestartRescaleStep(t, tables, a, s);
      var before := Remaining(s.se.vruntime, s.se.deadline);
      var after := Remaining(r.se.vruntime, r.se.deadline);
      && (before >= 0 ==> 0 <= after <= before)
      && (before < 0 ==> before <= after <= 0)
  {
  }

  // ---------------------------------------------------------------------
  // The per-task tail of task_fork_bore (bore.c lines 323-331)
  // ---------------------------------------------------------------------

  /** task_fork_bore after the inherited penalty is known: prev_penalty is
      raised to it, the burst and both flags are cleared, and update_penalty
      runs. */
  function ForkStep(t: Tunables, tables: PrioTables, a: Attrs, s: TaskState, inherited: u32): (r: TaskState)
    requires tables.Valid()
    ensures r.ctx.prevPenalty == Max(s.ctx.prevPenalty, inherited)
    ensures r.ctx.currPenalty == 0 && r.ctx.burstTime == 0
    ensures !r.ctx.stopUpdate && !r.ctx.futexWaiting
    ensures r.ctx.subtree == s.ctx.subtree && r.ctx.group == s.ctx.group
  {
    var prevPenalty := if s.ctx.prevPenalty < inherited then inherited else s.ctx.prevPenalty;
    var s' := s.(ctx := s.ctx.(prevPenalty := prevPenalty, currPenalty := 0, burstTime := 0,
                               stopUpdate := false, futexWaiting := false));
    UpdatePenaltyStep(t, tables, a, s')
  }

  /** A fork leaves a consistent context whose penalty is the raised
      prev_penalty (0 for kernel threads); inheriting 0 keeps the
      prev_penalty the task was copied with. */
  lemma ForkConsistent(t: Tunables, tables: PrioTables, a: Attrs, s: TaskState, inherited: u32)
    requires tables.Valid() && s.ctx.Valid() && IsPenalty(inherited)
    ensures var r := ForkStep(t, tables, a, s, inherited);
      && Consistent(t, a, r.ctx)
      && r.ctx.penalty == (if a.kthread then 0 else Max(s.ctx.prevPenalty, inherited))
      && (inherited == 0 ==> r.ctx.prevPenalty == s.ctx.prevPenalty)
  {
    Log2p1Bound(0);
  }

  // ---------------------------------------------------------------------
  // reset_task_bore (bore.c lines 334-337)
  // ---------------------------------------------------------------------

  /** The zeroed context is valid and consistent for every task. */
  lemma ZeroCtxConsistent(t: Tunables, a: Attrs)
    ensures Consistent(t, a, ZeroCtx)
  {
    Log2p1Bound(0);
  }

  /** A task as the scheduler sees it: the embedded burst context and
      scheduling entity, the attributes BORE reads, and the links to the
      rest of the task tree (real_parent, children, group_leader and the
      thread list).  `depth` and `height` are proof-only ranks that make the
      upward and downward walks of bore_inherit terminate. */
  class Task {
    var bore: BoreCtx
    var se: Entity
    var staticPrio: int
    var kthread: bool
    var idlePolicy: bool
    var fairClass: bool
    var exitState: bool
    var realParent: Task?
    var children: seq<Task>
    var groupLeader: Task?
    var threads: seq<Task>
    ghost var depth: nat
    ghost var height: nat

    function State(): TaskState
      reads this`bore, this`se
    {
      TaskState(bore, se)
    }

    function Attributes(): Attrs
      reads this`staticPrio, this`kthread, this`idlePolicy
    {
      Attrs(staticPrio, kthread, idlePolicy)
    }

    /** task_is_bore_eligible: a CFS task that has not exited. */
    predicate Eligible()
      reads this`fairClass, this`exitState
    {
      fairClass && !exitState
    }

    /** reweight_entity, outside BORE: here only the new load weight. */
    method ReweightEntity(weight: nat)
      modifies this`se
      ensures se == old(se).(weight := weight)
    {
      se := se.(weight := weight);
    }

    method ReweightTaskByPrio(tables: PrioTables, prio: nat)
      requires tables.Valid() && prio < 40
      modifies this`bore, this`se
      ensures State() == Reweight(tables, Attributes(), old(State()), prio)
    {
      if idlePolicy {
        return;
      }
      var weight := ScaleLoad(tables.weight[prio]);
      if se.onRq {
        bore := bore.(stopUpdate := true);
        ReweightEntity(weight);
        bore := bore.(stopUpdate := false);
      } else {
        se := se.(weight := weight);
      }
      se := se.(invWeight := tables.wmult[prio]);
    }

    method UpdatePenalty(t: Tunables, tables: PrioTables)
      requires tables.Valid()
      modifies this`bore, this`se
      ensures State() == UpdatePenaltyStep(t, tables, Attributes(), old(State()))
    {
      var prevPrio := EffectivePrio(t, staticPrio, bore.penalty);
      var penalty: u32 := 0;
      if !kthread {
        var currPenalty := bore.currPenalty;
        penalty := bore.prevPenalty;
        if penalty < currPenalty {
          penalty := currPenalty;
        }
      }
      bore := bore.(penalty := penalty);
      var newPrio := EffectivePrio(t, staticPrio, bore.penalty);
      if newPrio != prevPrio {
        ReweightTaskByPrio(tables, newPrio);
      }
    }

    method UpdateCurrBore(t: Tunables, tables: PrioTables, deltaExec: u64)
      requires tables.Valid()
      modifies this`bore, this`se
      ensures State() == UpdateCurrStep(t, tables, Attributes(), old(State()), deltaExec)
    {
      if bore.stopUpdate {
        return;
      }
      bore := bore.(burstTime := AddU64(bore.burstTime, deltaExec));
      var currPenalty := CalcBurstPenalty(t, bore.burstTime);
      bore := bore.(currPenalty := currPenalty);
      if currPenalty <= bore.prevPenalty {
        return;
      }
      UpdatePenalty(t, tables);
    }

    method RestartBurstBore(t: Tunables, tables: PrioTables)
      requires t.smoothness < 32 && tables.Valid()
      modifies this`bore, this`se
      ensures State() == RestartStep(t, tables, Attributes(), old(State()))
    {
      var newPenalty := BinarySmooth(t, bore.currPenalty, bore.prevPenalty);
      bore := bore.(prevPenalty := newPenalty);
      bore := bore.(currPenalty := 0);
      bore := bore.(burstTime := 0);
      UpdatePenalty(t, tables);
    }

    method RestartBurstRescaleDeadlineBore(t: Tunables, tables: PrioTables)
      requires t.smoothness < 32 && tables.Valid()
      modifies this`bore, this`se
      ensures State() == RestartRescaleStep(t, tables, Attributes(), old(State()))
    {
      var vremain := Remaining(se.vruntime, se.deadline);
      var oldPrio := EffectivePrio(t, staticPrio, bore.penalty);
      ghost var before := State();
      RestartBurstBore(t, tables);
      ghost var restarted := State();
      assert restarted == RestartStep(t, tables, Attributes(), before);
      var newPrio := EffectivePrio(t, staticPrio, bore.penalty);
      if oldPrio > newPrio {
        var vscaled := ScaledRemaining(tables, vremain, oldPrio, newPrio);
        se := se.(deadline := AddS64(se.vruntime, vscaled));
        assert State() == restarted.(se := restarted.se.(deadline := se.deadline));
      } else {
        assert State() == restarted;
      }
    }

    method ResetTaskBore()
      modifies this`bore
      ensures bore == ZeroCtx
    {
      bore := ZeroCtx;
    }
  }
}
