// The process-wide side of BORE (kernel/sched/bore.c lines 10-21, 211-214,
// 309-404): the tunables and the inherit_penalty_fn pointer, the fork hook
// that fills a child's burst context from a burst cache, the policy
// selection, the weight sweep run when sched_bore changes, the two sysctl
// handlers and sched_init_bore.

module BoreSched {
  import opened BoreMath
  import opened BoreTask
  import opened BoreInherit

  datatype Option<T> = None | Some(value: T)

  /** The three targets inherit_penalty_fn can point to. */
  datatype InheritPolicy = InheritNone | FromParent | FromAncestorHub

  /** The switch of update_inherit_type: 1 selects inherit_from_parent, 2
      inherit_from_ancestor_hub, and every other value inherit_none. */
  function PolicyFor(inheritType: u8): (r: InheritPolicy)
    ensures r == FromParent <==> inheritType == 1
    ensures r == FromAncestorHub <==> inheritType == 2
    ensures r == InheritNone <==> inheritType != 1 && inheritType != 2
  {
    match inheritType
    case 1 => FromParent
    case 2 => FromAncestorHub
    case _ => InheritNone
  }

  /** A burst cache a fork can consult: the subtree cache of a task scanned
      over its children (inherit_from_parent) or over its children's
      single-child chains (inherit_from_ancestor_hub), or the group cache of
      a group leader scanned over its threads (inherit_from_thread_group). */
  datatype CacheRef = ChildrenCache(owner: Task) | HubCache(owner: Task) | GroupCache(owner: Task)

  /** The cache task_fork_bore consults: the group cache under CLONE_THREAD,
      whatever the policy; otherwise the policy's cache, and none for
      inherit_none. */
  ghost function ForkCache(U: set<Task>, policy: Option<InheritPolicy>, parent: Task, cloneFlags: u64): (r: Option<CacheRef>)
    requires parent in U && Linked(U)
    requires HasFlag(cloneFlags, CLONE_THREAD) || policy.Some?
    reads U`realParent, U`children, U`groupLeader, U`threads, U`depth, U`height
    ensures r.Some? ==> r.value.owner in U
    ensures HasFlag(cloneFlags, CLONE_THREAD) ==> r == Some(GroupCache(parent.groupLeader))
    ensures r.None? <==> !HasFlag(cloneFlags, CLONE_THREAD) && policy == Some(InheritNone)
  {
    assert LinkedAt(U, parent);
    if HasFlag(cloneFlags, CLONE_THREAD) then Some(GroupCache(parent.groupLeader))
    else
      match policy.value
      case InheritNone => None
      case FromParent => Some(ChildrenCache(ParentAnchor(parent, cloneFlags)))
      case FromAncestorHub => Some(HubCache(HubOf(U, parent, cloneFlags)))
  }

  /** The task whose burst context an inherit call may write: the owner of
      the cache it consults, if any. */
  ghost function CacheOwners(U: set<Task>, policy: Option<InheritPolicy>, parent: Task, cloneFlags: u64): (r: set<Task>)
    requires parent in U && Linked(U)
    requires HasFlag(cloneFlags, CLONE_THREAD) || policy.Some?
    reads U`realParent, U`children, U`groupLeader, U`threads, U`depth, U`height
    ensures r <= U
  {
    match ForkCache(U, policy, parent, cloneFlags)
    case None => {}
    case Some(c) => {c.owner}
  }

  /** The tasks whose burst context a fork may write besides the child's:
      none when the fork hook returns early. */
  ghost function ForkFrame(t: Tunables, U: set<Task>, policy: Option<InheritPolicy>, p: Task, parent: Task, cloneFlags: u64): (r: set<Task>)
    requires parent in U && Linked(U)
    requires p.Eligible() && t.bore != 0 ==> HasFlag(cloneFlags, CLONE_THREAD) || policy.Some?
    reads U`realParent, U`children, U`groupLeader, U`threads, U`depth, U`height, p`fairClass, p`exitState
    ensures r <= U
  {
    if !p.Eligible() || t.bore == 0 then {} else CacheOwners(U, policy, parent, cloneFlags)
  }

  function CacheOf(c: CacheRef): BurstCache
    reads c.owner`bore
  {
    if c.GroupCache? then c.owner.bore.group else c.owner.bore.subtree
  }

  function WithCache(ctx: BoreCtx, c: CacheRef, bc: BurstCache): (r: BoreCtx)
    ensures c.GroupCache? ==> r == ctx.(group := bc)
    ensures !c.GroupCache? ==> r == ctx.(subtree := bc)
  {
    if c.GroupCache? then ctx.(group := bc) else ctx.(subtree := bc)
  }

  /** What the scan behind a cache reads. */
  ghost function CacheEntries(U: set<Task>, c: CacheRef): seq<Entry>
    requires c.owner in U && Linked(U)
    reads U`realParent, U`children, U`groupLeader, U`threads, U`depth, U`height, U`fairClass, U`exitState, U`bore
  {
    assert LinkedAt(U, c.owner);
    match c
    case ChildrenCache(o) => Entries(o.children)
    case HubCache(o) => RepresentativeEntries(U, o)
    case GroupCache(o) => Entries(o.threads)
  }

  /** The cache after the inherit function has looked at it at time now. */
  ghost function Refill(t: Tunables, U: set<Task>, c: CacheRef, now: u64): BurstCache
    requires c.owner in U && Linked(U)
    reads U`realParent, U`children, U`groupLeader, U`threads, U`depth, U`height, U`fairClass, U`exitState, U`bore
  {
    InheritCache(t, CacheOf(c), CacheEntries(U, c), c.owner.bore.penalty, now)
  }

  /** The penalty a fork inherits: 0 under inherit_none, otherwise what the
      consulted cache holds after the inherit function has run. */
  ghost function Inherited(t: Tunables, U: set<Task>, policy: Option<InheritPolicy>, parent: Task, cloneFlags: u64, now: u64): u32
    requires parent in U && Linked(U)
    requires HasFlag(cloneFlags, CLONE_THREAD) || policy.Some?
    reads U`realParent, U`children, U`groupLeader, U`threads, U`depth, U`height, U`fairClass, U`exitState, U`bore
  {
    match ForkCache(U, policy, parent, cloneFlags)
    case None => 0
    case Some(c) => Refill(t, U, c, now).penalty
  }

  /** Every burst context in the tree holds valid penalties. */
  ghost predicate AllValid(U: set<Task>)
    reads U`bore
  {
    forall x :: x in U ==> x.bore.Valid()
  }

  lemma EntriesValid(U: set<Task>, ts: seq<Task>)
    requires AllValid(U) && forall i :: 0 <= i < |ts| ==> ts[i] in U
    ensures PenaltiesValid(Entries(ts))
  {
    forall i | 0 <= i < |ts|
      ensures IsPenalty(Entries(ts)[i].penalty)
    {
      EntryAt(ts, i);
    }
  }

  lemma RepresentativeEntriesValid(U: set<Task>, a: Task)
    requires a in U && Linked(U) && AllValid(U)
    ensures PenaltiesValid(RepresentativeEntries(U, a))
  {
    forall i | 0 <= i < |a.children|
      ensures IsPenalty(RepresentativeEntries(U, a)[i].penalty)
    {
      RepresentativeEntryAt(U, a, i);
    }
  }

  /** Whatever the policy, a fork inherits a valid penalty from a tree
      whose contexts are valid, and the refilled cache stays valid. */
  lemma InheritedValid(t: Tunables, U: set<Task>, policy: Option<InheritPolicy>, parent: Task, cloneFlags: u64, now: u64)
    requires parent in U && Linked(U) && AllValid(U)
    requires HasFlag(cloneFlags, CLONE_THREAD) || policy.Some?
    ensures IsPenalty(Inherited(t, U, policy, parent, cloneFlags, now))
    ensures var c := ForkCache(U, policy, parent, cloneFlags);
      c.Some? ==> WithCache(c.value.owner.bore, c.value, Refill(t, U, c.value, now)).Valid()
  {
    var c := ForkCache(U, policy, parent, cloneFlags);
    if c.Some? {
      var o := c.value.owner;
      assert LinkedAt(U, o);
      match c.value {
        case ChildrenCache(_) => EntriesValid(U, o.children);
        case HubCache(_) => RepresentativeEntriesValid(U, o);
        case GroupCache(_) => EntriesValid(U, o.threads);
      }
      InheritCacheValid(t, CacheOf(c.value), CacheEntries(U, c.value), o.bore.penalty, now);
    }
  }

  /** A forked child of a valid tree starts with a consistent context, with
      its penalty raised to at least the inherited one (kernel threads
      aside); with inherit_none and no CLONE_THREAD it keeps the
      prev_penalty it was copied with. */
  lemma ForkChildConsistent(t: Tunables, tables: PrioTables, U: set<Task>, policy: Option<InheritPolicy>,
                            parent: Task, cloneFlags: u64, now: u64, a: Attrs, s: TaskState)
    requires tables.Valid() && parent in U && Linked(U) && AllValid(U) && s.ctx.Valid()
    requires HasFlag(cloneFlags, CLONE_THREAD) || policy.Some?
    ensures var inherited := Inherited(t, U, policy, parent, cloneFlags, now);
      var r := ForkStep(t, tables, a, s, inherited);
      && Consistent(t, a, r.ctx)
      && (!a.kthread ==> inherited <= r.ctx.penalty)
      && (!HasFlag(cloneFlags, CLONE_THREAD) && policy == Some(InheritNone) ==> r.ctx.prevPenalty == s.ctx.prevPenalty)
  {
    var inherited := Inherited(t, U, policy, parent, cloneFlags, now);
    InheritedValid(t, U, policy, parent, cloneFlags, now);
    ForkConsistent(t, tables, a, s, inherited);
  }

  /** What a sweep has done to one task: an eligible task is reweighted to
      its effective priority, any other is left alone. */
  ghost predicate SweptTask(t: Tunables, tables: PrioTables, eligible: bool, a: Attrs, before: TaskState, after: TaskState)
    requires tables.Valid()
  {
    after == if eligible then Reweight(tables, a, before, Prio(t, a, before)) else before
  }

  /** The globals of bore.c: the tunables and inherit_penalty_fn (None until
      update_inherit_type first runs). */
  class BoreScheduler {
    var tunables: Tunables
    var inheritPenaltyFn: Option<InheritPolicy>

    constructor (tunables: Tunables)
      ensures this.tunables == tunables && inheritPenaltyFn == None
    {
      this.tunables := tunables;
      inheritPenaltyFn := None;
    }

    /** update_inherit_type. */
    method UpdateInheritType()
      modifies this`inheritPenaltyFn
      ensures inheritPenaltyFn == Some(PolicyFor(tunables.inheritType))
    {
      match tunables.inheritType
      case 1 =>
        inheritPenaltyFn := Some(FromParent);
      case 2 =>
        inheritPenaltyFn := Some(FromAncestorHub);
      case _ =>
        inheritPenaltyFn := Some(InheritNone);
    }

    /** The inherited penalty of task_fork_bore: inherit_from_thread_group
        under CLONE_THREAD, the call through inherit_penalty_fn otherwise. */
    method InheritPenalty(parent: Task, cloneFlags: u64, now: u64, ghost U: set<Task>) returns (inherited: u32)
      requires Linked(U) && parent in U
      requires HasFlag(cloneFlags, CLONE_THREAD) || inheritPenaltyFn.Some?
      modifies CacheOwners(U, inheritPenaltyFn, parent, cloneFlags)`bore
      ensures inherited == old(Inherited(tunables, U, inheritPenaltyFn, parent, cloneFlags, now))
      ensures var c := old(ForkCache(U, inheritPenaltyFn, parent, cloneFlags));
        c.Some? ==> c.value.owner.bore == old(WithCache(c.value.owner.bore, c.value, Refill(tunables, U, c.value, now)))
    {
      assert LinkedAt(U, parent);
      if HasFlag(cloneFlags, CLONE_THREAD) {
        inherited := InheritFromThreadGroup(tunables, parent, now);
      } else {
        match inheritPenaltyFn.value
        case InheritNone =>
          inherited := 0;
        case FromParent =>
          inherited := InheritFromParent(tunables, parent, cloneFlags, now);
        case FromAncestorHub =>
          inherited := InheritFromAncestorHub(tunables, parent, cloneFlags, now, U);
      }
    }

    /** task_fork_bore for the new task p, not yet linked into the tree U. */
    method TaskFork(p: Task, parent: Task, cloneFlags: u64, now: u64, tables: PrioTables, ghost U: set<Task>)
      requires tables.Valid() && Linked(U) && parent in U && p !in U
      requires p.Eligible() && tunables.bore != 0 ==> HasFlag(cloneFlags, CLONE_THREAD) || inheritPenaltyFn.Some?
      modifies p`bore, p`se, ForkFrame(tunables, U, inheritPenaltyFn, p, parent, cloneFlags)`bore
      ensures !old(p.Eligible()) || tunables.bore == 0 ==> p.State() == old(p.State())
      ensures old(p.Eligible()) && tunables.bore != 0 ==>
        p.State() == ForkStep(tunables, tables, p.Attributes(), old(p.State()),
                              old(Inherited(tunables, U, inheritPenaltyFn, parent, cloneFlags, now)))
      ensures old(p.Eligible()) && tunables.bore != 0 ==>
        var c := old(ForkCache(U, inheritPenaltyFn, parent, cloneFlags));
        c.Some? ==> c.value.owner.bore == old(WithCache(c.value.owner.bore, c.value, Refill(tunables, U, c.value, now)))
    {
      if !p.Eligible() || tunables.bore == 0 {
        return;
      }
      var inherited := InheritPenalty(parent, cloneFlags, now, U);
      ghost var forked := p.State();
      if p.bore.prevPenalty < inherited {
        p.bore := p.bore.(prevPenalty := inherited);
      }
      p.bore := p.bore.(currPenalty := 0, burstTime := 0, stopUpdate := false, futexWaiting := false);
      p.UpdatePenalty(tunables, tables);
      assert p.State() == ForkStep(tunables, tables, p.Attributes(), forked, inherited);
    }

    /** readjust_all_task_weights over the processes of the system, each
        listed once (locking left out). */
    method ReadjustAllTaskWeights(processes: seq<Task>, tables: PrioTables)
      requires tables.Valid()
      requires forall i, j :: 0 <= i < j < |processes| ==> processes[i] != processes[j]
      modifies (set x | x in processes)`bore, (set x | x in processes)`se
      ensures forall i :: 0 <= i < |processes| ==>
        SweptTask(tunables, tables, processes[i].Eligible(), processes[i].Attributes(),
                  old(processes[i].State()), processes[i].State())
      ensures forall i :: 0 <= i < |processes| && processes[i].Eligible() ==>
        WeightCoherent(tunables, tables, processes[i].Attributes(), processes[i].State())
    {
      var i := 0;
      while i < |processes|
        invariant 0 <= i <= |processes|
        invariant forall j :: 0 <= j < i ==>
          SweptTask(tunables, tables, processes[j].Eligible(), processes[j].Attributes(),
                    old(processes[j].State()), processes[j].State())
        invariant forall j :: i <= j < |processes| ==> processes[j].State() == old(processes[j].State())
      {
        var task := processes[i];
        if task.Eligible() {
          task.ReweightTaskByPrio(tables, EffectivePrio(tunables, task.staticPrio, task.bore.penalty));
        }
        i := i + 1;
      }
      forall i | 0 <= i < |processes| && processes[i].Eligible()
        ensures WeightCoherent(tunables, tables, processes[i].Attributes(), processes[i].State())
      {
        ReweightToEffectivePrio(tunables, tables, processes[i].Attributes(), old(processes[i].State()));
      }
    }

    /** sched_bore_update_handler.  proc_dou8vec_minmax is outside the
        model: procRet is its result, and on a successful write it has
        stored value into sched_bore. */
    method SchedBoreUpdateHandler(write: bool, procRet: int, value: u8, processes: seq<Task>, tables: PrioTables)
      returns (ret: int)
      requires tables.Valid()
      requires forall i, j :: 0 <= i < j < |processes| ==> processes[i] != processes[j]
      modifies this`tunables, (set x | x in processes)`bore, (set x | x in processes)`se
      ensures ret == procRet
      ensures procRet != 0 || !write ==> tunables == old(tunables)
      ensures procRet != 0 || !write ==> forall i :: 0 <= i < |processes| ==> processes[i].State() == old(processes[i].State())
      ensures procRet == 0 && write ==> tunables == old(tunables).(bore := value)
      ensures procRet == 0 && write ==> forall i :: 0 <= i < |processes| && processes[i].Eligible() ==>
        WeightCoherent(tunables, tables, processes[i].Attributes(), processes[i].State())
    {
      if procRet != 0 || !write {
        return procRet;
      }
      tunables := tunables.(bore := value);
      ReadjustAllTaskWeights(processes, tables);
      return 0;
    }

    /** sched_burst_inherit_type_update_handler, with proc_dou8vec_minmax
        outside the model as above. */
    method SchedBurstInheritTypeUpdateHandler(write: bool, procRet: int, value: u8) returns (ret: int)
      modifies this`tunables, this`inheritPenaltyFn
      ensures ret == procRet
      ensures procRet != 0 || !write ==> tunables == old(tunables) && inheritPenaltyFn == old(inheritPenaltyFn)
      ensures procRet == 0 && write ==>
        tunables == old(tunables).(inheritType := value) && inheritPenaltyFn == Some(PolicyFor(value))
    {
      if procRet != 0 || !write {
        return procRet;
      }
      tunables := tunables.(inheritType := value);
      UpdateInheritType();
      return 0;
    }

    /** sched_init_bore (the banner printk left out). */
    method SchedInitBore(initTask: Task)
      modifies initTask`bore, this`inheritPenaltyFn
      ensures initTask.bore == ZeroCtx
      ensures inheritPenaltyFn == Some(PolicyFor(tunables.inheritType))
    {
      initTask.ResetTaskBore();
      UpdateInheritType();
    }
  }
}
