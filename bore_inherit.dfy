// Penalty inheritance at fork (kernel/sched/bore.c lines 177-307): the
// burst cache, the bounded scans over children and threads, and the walks
// up to an "ancestor hub" and down single-child chains.
//
// The task tree is a set of Task objects whose real_parent, children,
// group_leader and thread lists are given; Linked(U) is what the scans
// rely on of it.  The proof-only ranks `depth` (decreasing towards the
// root) and `height` (decreasing towards the leaves) make both walks
// terminate.

module BoreInherit {
  import opened BoreMath
  import opened BoreTask

  const CLONE_PARENT: u64 := 0x0000_8000
  const CLONE_THREAD: u64 := 0x0001_0000

  /** `flags & flag != 0` for a single-bit flag. */
  predicate HasFlag(flags: u64, flag: u64)
    requires flag > 0
  {
    (flags / flag) % 2 == 1
  }

  /** What the walks need of one task t of the tree U: a real parent and a
      group leader in U, a parent other than t itself closer to the root,
      children in U closer to the leaves, and threads in U. */
  ghost predicate LinkedAt(U: set<Task>, t: Task)
    reads U`realParent, U`children, U`groupLeader, U`threads, U`depth, U`height, t`realParent, t`children, t`groupLeader, t`threads, t`depth, t`height
  {
    && t.realParent != null && t.realParent in U
    && t.groupLeader != null && t.groupLeader in U
    && (t.realParent != t ==> t.realParent.depth < t.depth)
    && (forall i :: 0 <= i < |t.children| ==> t.children[i] in U && t.children[i].height < t.height)
    && (forall i :: 0 <= i < |t.threads| ==> t.threads[i] in U)
  }

  /** The shape of the task tree: every task in U is linked. */
  ghost predicate Linked(U: set<Task>)
    reads U`realParent, U`children, U`groupLeader, U`threads, U`depth, U`height
  {
    forall t {:trigger LinkedAt(U, t)} :: t in U ==> LinkedAt(U, t)
  }

  // ---------------------------------------------------------------------
  // The scan (bore.c lines 228-236, 263-276, 294-301)
  // ---------------------------------------------------------------------

  /** What a scan reads of a task: whether it is eligible, and its penalty. */
  datatype Entry = Entry(eligible: bool, penalty: u32)

  function EntryOf(t: Task): Entry
    reads t`fairClass, t`exitState, t`bore
  {
    Entry(t.Eligible(), t.bore.penalty)
  }

  function Entries(ts: seq<Task>): (es: seq<Entry>)
    reads ts`fairClass, ts`exitState, ts`bore
    ensures |es| == |ts|
  {
    if ts == [] then [] else Entries(ts[..|ts| - 1]) + [EntryOf(ts[|ts| - 1])]
  }

  lemma {:induction false} EntryAt(ts: seq<Task>, i: nat)
    requires i < |ts|
    ensures Entries(ts)[i] == EntryOf(ts[i])
  {
    if i < |ts| - 1 {
      EntryAt(ts[..|ts| - 1], i);
    }
  }

  /** The penalties of the eligible entries, in order. */
  function EligiblePenalties(es: seq<Entry>): (ps: seq<u32>)
    ensures |ps| <= |es|
  {
    if es == [] then []
    else EligiblePenalties(es[..|es| - 1]) + (if es[|es| - 1].eligible then [es[|es| - 1].penalty] else [])
  }

  function Sum(ps: seq<u32>): nat {
    if ps == [] then 0 else Sum(ps[..|ps| - 1]) + ps[|ps| - 1]
  }

  lemma SumAppend(ps: seq<u32>, x: u32)
    ensures Sum(ps + [x]) == Sum(ps) + x
  {
    assert (ps + [x])[..|ps|] == ps;
  }

  datatype ScanResult = ScanResult(count: u32, total: u32)

  /** The outcome of a scan: it counts the first (at most) 63 eligible
      entries and totals their penalties in a u32. */
  function Scan(es: seq<Entry>): (r: ScanResult)
    ensures r.count <= BURST_CACHE_STOP_COUNT
    ensures r.count <= |EligiblePenalties(es)|
  {
    var ps := EligiblePenalties(es);
    var n := if |ps| < BURST_CACHE_STOP_COUNT then |ps| else BURST_CACHE_STOP_COUNT;
    ScanResult(n, U32(Sum(ps[..n])))
  }

  lemma {:induction false} EligiblePenaltiesSplit(a: seq<Entry>, b: seq<Entry>)
    ensures EligiblePenalties(a + b) == EligiblePenalties(a) + EligiblePenalties(b)
    decreases |b|
  {
    if b == [] {
      assert a + b == a;
    } else {
      var b' := b[..|b| - 1];
      assert (a + b)[..|a + b| - 1] == a + b';
      EligiblePenaltiesSplit(a, b');
    }
  }

  /** Once 63 eligible entries have been seen, the rest of the list does
      not matter. */
  lemma ScanStopsAt(es: seq<Entry>, i: nat)
    requires i <= |es| && |EligiblePenalties(es[..i])| >= BURST_CACHE_STOP_COUNT
    ensures var ps := EligiblePenalties(es[..i]);
      Scan(es) == ScanResult(BURST_CACHE_STOP_COUNT, U32(Sum(ps[..BURST_CACHE_STOP_COUNT])))
  {
    assert es == es[..i] + es[i..];
    EligiblePenaltiesSplit(es[..i], es[i..]);
    var ps := EligiblePenalties(es[..i]);
    assert EligiblePenalties(es)[..BURST_CACHE_STOP_COUNT] == ps[..BURST_CACHE_STOP_COUNT];
  }

  /** Entries after the 63rd eligible one are never looked at. */
  lemma ScanIgnoresTail(es: seq<Entry>, more: seq<Entry>)
    requires |EligiblePenalties(es)| >= BURST_CACHE_STOP_COUNT
    ensures Scan(es + more) == Scan(es)
  {
    assert (es + more)[..|es|] == es;
    assert es[..|es|] == es;
    ScanStopsAt(es + more, |es|);
    ScanStopsAt(es, |es|);
  }

  /** Every penalty an entry holds is within MAX_BURST_PENALTY. */
  predicate PenaltiesValid(es: seq<Entry>) {
    forall i :: 0 <= i < |es| ==> IsPenalty(es[i].penalty)
  }

  lemma {:induction false} EligiblePenaltiesValid(es: seq<Entry>)
    requires PenaltiesValid(es)
    ensures forall k :: 0 <= k < |EligiblePenalties(es)| ==> IsPenalty(EligiblePenalties(es)[k])
  {
    if es != [] {
      EligiblePenaltiesValid(es[..|es| - 1]);
    }
  }

  lemma {:induction false} SumBound(ps: seq<u32>)
    requires forall k :: 0 <= k < |ps| ==> IsPenalty(ps[k])
    ensures Sum(ps) <= |ps| * MAX_BURST_PENALTY
  {
    if ps != [] {
      SumBound(ps[..|ps| - 1]);
    }
  }

  /** With valid penalties the u32 total cannot wrap (63 * MAX_BURST_PENALTY
      is far below 2^32), and the average stays a valid penalty. */
  lemma ScanBound(es: seq<Entry>)
    requires PenaltiesValid(es)
    ensures var r := Scan(es);
      var ps := EligiblePenalties(es)[..r.count];
      && r.total == Sum(ps)
      && r.total <= r.count * MAX_BURST_PENALTY
      && (r.count != 0 ==> r.total / r.count <= MAX_BURST_PENALTY)
  {
    var r := Scan(es);
    var ps := EligiblePenalties(es)[..r.count];
    EligiblePenaltiesValid(es);
    SumBound(ps);
    MulMono(r.count, BURST_CACHE_STOP_COUNT, MAX_BURST_PENALTY);
    SmallU32(Sum(ps));
    if r.count != 0 {
      AverageBound(r.total, r.count, MAX_BURST_PENALTY);
    }
  }

  lemma AverageBound(total: nat, count: nat, bound: nat)
    requires count > 0 && total <= count * bound
    ensures 0 <= total / count <= bound
  {
    var q := total / count;
    assert q * count <= total;
    MulMono(bound + 1, q, count);
    assert (bound + 1) * count == count * bound + count;
  }

  /** A scan that finds nothing eligible yields (0, 0). */
  lemma ScanNoneEligible(es: seq<Entry>)
    requires forall i :: 0 <= i < |es| ==> !es[i].eligible
    ensures Scan(es) == ScanResult(0, 0)
  {
    assert EligiblePenalties(es) == [] by {
      NoneEligible(es);
    }
  }

  lemma {:induction false} NoneEligible(es: seq<Entry>)
    requires forall i :: 0 <= i < |es| ==> !es[i].eligible
    ensures EligiblePenalties(es) == []
  {
    if es != [] {
      NoneEligible(es[..|es| - 1]);
    }
  }

  /** A scan that ran to the end of the list without reaching the cap. */
  lemma ScanFinished(es: seq<Entry>, count: nat, total: u32)
    requires count == |EligiblePenalties(es)| <= BURST_CACHE_STOP_COUNT
    requires total == U32(Sum(EligiblePenalties(es)))
    ensures ScanResult(count, total) == Scan(es)
  {
    assert EligiblePenalties(es)[..count] == EligiblePenalties(es);
  }

  /** What a scan loop has accumulated over the entries it looked at: the
      number of eligible ones and the u32 total of their penalties. */
  datatype Tally = Tally(count: nat, total: u32)

  function Count(t: Tally, e: Entry): Tally {
    if e.eligible then Tally(t.count + 1, AddU32(t.total, e.penalty)) else t
  }

  function TallyOf(es: seq<Entry>): Tally {
    if es == [] then Tally(0, 0) else Count(TallyOf(es[..|es| - 1]), es[|es| - 1])
  }

  lemma TallyStep(es: seq<Entry>, i: nat)
    requires i < |es|
    ensures TallyOf(es[..i + 1]) == Count(TallyOf(es[..i]), es[i])
  {
    assert es[..i + 1][..i] == es[..i];
  }

  /** The tally counts the eligible penalties and adds them up modulo 2^32. */
  lemma {:induction false} TallyIs(es: seq<Entry>)
    ensures TallyOf(es).count == |EligiblePenalties(es)|
    ensures TallyOf(es).total == U32(Sum(EligiblePenalties(es)))
  {
    if es != [] {
      var prefix := es[..|es| - 1];
      TallyIs(prefix);
      var ps := EligiblePenalties(prefix);
      var e := es[|es| - 1];
      if e.eligible {
        assert EligiblePenalties(es) == ps + [e.penalty];
        SumAppend(ps, e.penalty);
        AddU32IsMod(U32(Sum(ps)), e.penalty);
        U32AddMod(Sum(ps), e.penalty);
      } else {
        assert EligiblePenalties(es) == ps + [] == ps;
      }
    }
  }

  /** Where a scan loop stops, at the end of the list or at the cap, the
      prefix it has seen decides the outcome. */
  lemma ScanConclude(es: seq<Entry>, i: nat, count: nat, total: u32)
    requires i <= |es| && Tally(count, total) == TallyOf(es[..i])
    requires count <= BURST_CACHE_STOP_COUNT
    requires i == |es| || count >= BURST_CACHE_STOP_COUNT
    ensures ScanResult(count, total) == Scan(es)
  {
    TallyIs(es[..i]);
    if i == |es| {
      assert es[..i] == es;
      ScanFinished(es, count, total);
    } else {
      ScanStopsAt(es, i);
      assert EligiblePenalties(es[..i])[..BURST_CACHE_STOP_COUNT] == EligiblePenalties(es[..i]);
    }
  }

  /** The scan loop shared by inherit_from_parent and
      inherit_from_thread_group: stop once 63 eligible tasks are counted,
      skip ineligible ones, add up the penalties in a u32. */
  method ScanTasks(ts: seq<Task>) returns (count: u32, total: u32)
    ensures ScanResult(count, total) == Scan(Entries(ts))
  {
    count, total := 0, 0;
    ghost var es := Entries(ts);
    var i := 0;
    while i < |ts|
      invariant 0 <= i <= |ts| == |es|
      invariant Tally(count, total) == TallyOf(es[..i]) && count <= BURST_CACHE_STOP_COUNT
    {
      if count >= BURST_CACHE_STOP_COUNT {
        break;
      }
      var sibling := ts[i];
      EntryAt(ts, i);
      TallyStep(es, i);
      i := i + 1;
      if !sibling.Eligible() {
        continue;
      }
      count := count + 1;
      total := AddU32(total, sibling.bore.penalty);
    }
    ScanConclude(es, i, count, total);
  }

  // ---------------------------------------------------------------------
  // The burst cache (bore.c lines 195-209)
  // ---------------------------------------------------------------------

  /** update_burst_cache: the average of the scan (0 when nothing was
      counted), raised to the anchor's own penalty, stamped with
      `now >> SHIFT`. */
  function UpdateBurstCache(t: Tunables, scan: ScanResult, anchorPenalty: u32, now: u64): (bc: BurstCache)
    ensures anchorPenalty <= bc.penalty
    ensures scan.count == 0 ==> bc.penalty == anchorPenalty
    ensures scan.count != 0 ==> scan.total / scan.count <= bc.penalty
    ensures bc.penalty == anchorPenalty || (scan.count != 0 && bc.penalty == scan.total / scan.count)
    ensures bc.timestamp == CacheStamp(t, now)
  {
    var average := if scan.count != 0 then scan.total / scan.count else 0;
    BurstCache(Max(average, anchorPenalty), CacheStamp(t, now))
  }

  /** What an inherit function does to its cache: nothing while it is
      fresh; once expired, it is refilled from a scan of the entries. */
  function InheritCache(t: Tunables, bc: BurstCache, es: seq<Entry>, anchorPenalty: u32, now: u64): (r: BurstCache)
    ensures !BurstCacheExpired(t, bc.timestamp, now) ==> r == bc
    ensures BurstCacheExpired(t, bc.timestamp, now) ==> r == UpdateBurstCache(t, Scan(es), anchorPenalty, now)
  {
    if BurstCacheExpired(t, bc.timestamp, now) then UpdateBurstCache(t, Scan(es), anchorPenalty, now) else bc
  }

  /** The cache only ever holds valid penalties. */
  lemma InheritCacheValid(t: Tunables, bc: BurstCache, es: seq<Entry>, anchorPenalty: u32, now: u64)
    requires IsPenalty(bc.penalty) && IsPenalty(anchorPenalty) && PenaltiesValid(es)
    ensures IsPenalty(InheritCache(t, bc, es, anchorPenalty, now).penalty)
  {
    ScanBound(es);
  }

  /** A refilled cache answers every later fork within its lifetime with
      the same penalty, whatever the tree looks like by then. */
  lemma InheritCacheMemo(t: Tunables, bc: BurstCache, es: seq<Entry>, anchorPenalty: u32, now: u64,
                         es': seq<Entry>, anchorPenalty': u32, later: u64)
    requires BurstCacheExpired(t, bc.timestamp, now)
    requires now <= later && later - now + Pow2(t.timestampShift) - 1 <= t.cacheLifetime
    ensures var r := InheritCache(t, bc, es, anchorPenalty, now);
      InheritCache(t, r, es', anchorPenalty', later) == r
  {
    FreshAfterStamp(t, now, later);
  }

  /** Three eligible siblings with penalties 10, 20 and 30 average to 20;
      the cache then holds max(20, the leader's penalty). */
  lemma ThreeSiblingsExample(t: Tunables, bc: BurstCache, leaderPenalty: u32, now: u64)
    requires BurstCacheExpired(t, bc.timestamp, now)
    ensures InheritCache(t, bc, [Entry(true, 10), Entry(true, 20), Entry(true, 30)], leaderPenalty, now).penalty
      == Max(20, leaderPenalty)
  {
    ThreeSiblingsScan();
  }

  lemma ThreeSiblingsScan()
    ensures Scan([Entry(true, 10), Entry(true, 20), Entry(true, 30)]) == ScanResult(3, 60)
  {
    var es := [Entry(true, 10), Entry(true, 20), Entry(true, 30)];
    assert TallyOf(es[..1]) == Tally(1, 10) by {
      assert es[..0] == [];
      TallyStep(es, 0);
    }
    assert TallyOf(es[..2]) == Tally(2, 30) by {
      TallyStep(es, 1);
    }
    assert TallyOf(es) == Tally(3, 60) by {
      TallyStep(es, 2);
      assert es[..3] == es;
    }
    TallyIs(es);
    assert EligiblePenalties(es)[..3] == EligiblePenalties(es);
  }

  // ---------------------------------------------------------------------
  // The hub walks (bore.c lines 187-193, 251-258, 267-270)
  // ---------------------------------------------------------------------

  /** count_children_upto2: the number of children, capped at 2, read off
      the first two links of the children list. */
  function CountChildrenUpto2(t: Task): (r: nat)
    reads t`children
    ensures r == if |t.children| < 2 then |t.children| else 2
  {
    (if |t.children| != 0 then 1 else 0) + (if |t.children| >= 2 then 1 else 0)
  }

  /** Where the upward walk of inherit_from_ancestor_hub stops: at the root
      (its own real parent) or at the first ancestor with more children
      than its allowance (the starting task's allowance, 1 above it). */
  ghost function HubAnchor(U: set<Task>, a: Task, allowance: nat): (r: Task)
    requires a in U && Linked(U)
    reads U`realParent, U`children, U`groupLeader, U`threads, U`depth, U`height
    ensures r in U && (r == a || r.depth < a.depth)
    ensures r.realParent == r || CountChildrenUpto2(r) > (if r == a then allowance else 1)
    decreases a.depth
  {
    assert LinkedAt(U, a);
    var next := a.realParent;
    if next != a && CountChildrenUpto2(a) <= allowance then HubAnchor(U, next, 1) else a
  }

  /** Where the downward walk from a direct child stops: the first task on
      its single-child chain that has no child or several. */
  ghost function Representative(U: set<Task>, d: Task): (r: Task)
    requires d in U && Linked(U)
    reads U`realParent, U`children, U`groupLeader, U`threads, U`depth, U`height
    ensures r in U && CountChildrenUpto2(r) != 1
    ensures r == d || r.height < d.height
    decreases d.height
  {
    assert LinkedAt(U, d);
    if CountChildrenUpto2(d) == 1 then Representative(U, d.children[0]) else d
  }

  /** The k-th real parent of a; the root is its own real parent. */
  ghost function Ancestor(U: set<Task>, a: Task, k: nat): (r: Task)
    requires a in U && Linked(U)
    reads U`realParent, U`children, U`groupLeader, U`threads, U`depth, U`height
    ensures r in U
    decreases k
  {
    assert LinkedAt(U, a);
    if k == 0 then a else Ancestor(U, a.realParent, k - 1)
  }

  /** The exit test of the upward walk: the root, or more children than the
      allowance. */
  predicate WalkStops(t: Task, allowance: nat)
    reads t`realParent, t`children
  {
    t.realParent == t || CountChildrenUpto2(t) > allowance
  }

  /** The allowance at step j of a walk that starts with `start`. */
  function StepAllowance(start: nat, j: nat): nat {
    if j == 0 then start else 1
  }

  /** Step k is the first step at which the walk from a stops. */
  ghost predicate FirstStop(U: set<Task>, a: Task, allowance: nat, k: nat)
    requires a in U && Linked(U)
    reads U`realParent, U`children, U`groupLeader, U`threads, U`depth, U`height
  {
    && WalkStops(Ancestor(U, a, k), StepAllowance(allowance, k))
    && forall j :: 0 <= j < k ==> !WalkStops(Ancestor(U, a, j), StepAllowance(allowance, j))
  }

  /** The hub is the ancestor at the first step where the walk stops: it
      lies on a's real_parent chain and no ancestor before it stops. */
  lemma {:induction false} HubAnchorIsFirstStop(U: set<Task>, a: Task, allowance: nat)
    requires a in U && Linked(U)
    ensures exists k: nat :: FirstStop(U, a, allowance, k) && HubAnchor(U, a, allowance) == Ancestor(U, a, k)
    decreases a.depth
  {
    assert LinkedAt(U, a);
    if WalkStops(a, allowance) {
      assert Ancestor(U, a, 0) == a;
      assert FirstStop(U, a, allowance, 0);
    } else {
      var next := a.realParent;
      HubAnchorIsFirstStop(U, next, 1);
      var k: nat :| FirstStop(U, next, 1, k) && HubAnchor(U, next, 1) == Ancestor(U, next, k);
      forall j | 0 < j <= k + 1
        ensures Ancestor(U, a, j) == Ancestor(U, next, j - 1)
      {
      }
      assert FirstStop(U, a, allowance, k + 1);
    }
  }

  /** The task k steps down the first-child chain from d (a leaf stays put). */
  ghost function FirstChildAt(U: set<Task>, d: Task, k: nat): (r: Task)
    requires d in U && Linked(U)
    reads U`realParent, U`children, U`groupLeader, U`threads, U`depth, U`height
    ensures r in U
    decreases k
  {
    assert LinkedAt(U, d);
    if k == 0 || |d.children| == 0 then d else FirstChildAt(U, d.children[0], k - 1)
  }

  /** Step k of the descent from d is the first task without exactly one child. */
  ghost predicate ChainEnd(U: set<Task>, d: Task, k: nat)
    requires d in U && Linked(U)
    reads U`realParent, U`children, U`groupLeader, U`threads, U`depth, U`height
  {
    && CountChildrenUpto2(FirstChildAt(U, d, k)) != 1
    && forall j :: 0 <= j < k ==> CountChildrenUpto2(FirstChildAt(U, d, j)) == 1
  }

  /** The representative is the end of d's single-child chain: every task
      before it on the first-child chain has exactly one child. */
  lemma {:induction false} RepresentativeEndsChain(U: set<Task>, d: Task)
    requires d in U && Linked(U)
    ensures exists k: nat :: ChainEnd(U, d, k) && Representative(U, d) == FirstChildAt(U, d, k)
    decreases d.height
  {
    assert LinkedAt(U, d);
    if CountChildrenUpto2(d) != 1 {
      assert FirstChildAt(U, d, 0) == d;
      assert ChainEnd(U, d, 0);
    } else {
      var child := d.children[0];
      RepresentativeEndsChain(U, child);
      var k: nat :| ChainEnd(U, child, k) && Representative(U, child) == FirstChildAt(U, child, k);
      forall j | 0 < j <= k + 1
        ensures FirstChildAt(U, d, j) == FirstChildAt(U, child, j - 1)
      {
      }
      assert ChainEnd(U, d, k + 1);
    }
  }

  /** What the hub scan reads: for each direct child, the entry of the end
      of its single-child chain. */
  ghost function HubEntries(U: set<Task>, cs: seq<Task>): (es: seq<Entry>)
    requires Linked(U) && forall i :: 0 <= i < |cs| ==> cs[i] in U
    reads U`realParent, U`children, U`groupLeader, U`threads, U`depth, U`height, U`fairClass, U`exitState, U`bore
    ensures |es| == |cs|
  {
    if cs == [] then [] else HubEntries(U, cs[..|cs| - 1]) + [EntryOf(Representative(U, cs[|cs| - 1]))]
  }

  lemma {:induction false} HubEntriesAt(U: set<Task>, cs: seq<Task>, i: nat)
    requires Linked(U) && forall i :: 0 <= i < |cs| ==> cs[i] in U
    requires i < |cs|
    ensures HubEntries(U, cs)[i] == EntryOf(Representative(U, cs[i]))
  {
    if i < |cs| - 1 {
      HubEntriesAt(U, cs[..|cs| - 1], i);
    }
  }

  /** What the hub scan of a reads: the entries of its children's
      representatives. */
  ghost function RepresentativeEntries(U: set<Task>, a: Task): (es: seq<Entry>)
    requires a in U && Linked(U)
    reads U`realParent, U`children, U`groupLeader, U`threads, U`depth, U`height, U`fairClass, U`exitState, U`bore
    ensures |es| == |a.children|
  {
    assert LinkedAt(U, a);
    HubEntries(U, a.children)
  }

  lemma RepresentativeEntryAt(U: set<Task>, a: Task, i: nat)
    requires a in U && Linked(U) && i < |a.children|
    ensures a.children[i] in U
    ensures RepresentativeEntries(U, a)[i] == EntryOf(Representative(U, a.children[i]))
  {
    assert LinkedAt(U, a);
    HubEntriesAt(U, a.children, i);
  }

  /** The task whose subtree cache inherit_from_parent uses: the parent, or
      its real parent under CLONE_PARENT. */
  function ParentAnchor(parent: Task, cloneFlags: u64): (r: Task)
    requires parent.realParent != null
    reads parent`realParent
    ensures HasFlag(cloneFlags, CLONE_PARENT) ==> r == parent.realParent
    ensures !HasFlag(cloneFlags, CLONE_PARENT) ==> r == parent
  {
    if HasFlag(cloneFlags, CLONE_PARENT) then parent.realParent else parent
  }

  /** The task whose subtree cache inherit_from_ancestor_hub uses. */
  ghost function HubOf(U: set<Task>, parent: Task, cloneFlags: u64): (r: Task)
    requires parent in U && Linked(U)
    reads U`realParent, U`children, U`groupLeader, U`threads, U`depth, U`height
    ensures r in U
  {
    assert LinkedAt(U, parent);
    HubAnchor(U, ParentAnchor(parent, cloneFlags), if HasFlag(cloneFlags, CLONE_PARENT) then 1 else 0)
  }

  // ---------------------------------------------------------------------
  // The inherit functions (bore.c lines 211-307)
  // ---------------------------------------------------------------------

  /** inherit_from_parent. */
  method InheritFromParent(t: Tunables, parent: Task, cloneFlags: u64, now: u64) returns (penalty: u32)
    requires parent.realParent != null
    modifies ParentAnchor(parent, cloneFlags)`bore
    ensures var anchor := ParentAnchor(parent, cloneFlags);
      && anchor.bore == old(anchor.bore).(subtree := old(InheritCache(t, anchor.bore.subtree, Entries(anchor.children), anchor.bore.penalty, now)))
      && penalty == anchor.bore.subtree.penalty
  {
    var anchor := parent;
    if HasFlag(cloneFlags, CLONE_PARENT) {
      anchor := anchor.realParent;
    }
    var bc := anchor.bore.subtree;
    if BurstCacheExpired(t, bc.timestamp, now) {
      var count, total := ScanTasks(anchor.children);
      anchor.bore := anchor.bore.(subtree := UpdateBurstCache(t, ScanResult(count, total), anchor.bore.penalty, now));
    }
    penalty := anchor.bore.subtree.penalty;
  }

  /** inherit_from_ancestor_hub. */
  method InheritFromAncestorHub(t: Tunables, parent: Task, cloneFlags: u64, now: u64, ghost U: set<Task>)
    returns (penalty: u32)
    requires parent in U && Linked(U)
    modifies HubOf(U, parent, cloneFlags)`bore
    ensures var anchor := old(HubOf(U, parent, cloneFlags));
      && anchor.bore == old(anchor.bore).(subtree :=
           old(InheritCache(t, anchor.bore.subtree, RepresentativeEntries(U, anchor), anchor.bore.penalty, now)))
      && penalty == anchor.bore.subtree.penalty
  {
    assert LinkedAt(U, parent);
    var ancestor := parent;
    var soleChildCount := 0;
    if HasFlag(cloneFlags, CLONE_PARENT) {
      ancestor := ancestor.realParent;
      soleChildCount := 1;
    }
    assert LinkedAt(U, ancestor);
    var next := ancestor.realParent;
    while next != ancestor && CountChildrenUpto2(ancestor) <= soleChildCount
      invariant ancestor in U && next == ancestor.realParent
      invariant HubAnchor(U, ancestor, soleChildCount) == HubOf(U, parent, cloneFlags)
      decreases ancestor.depth
    {
      assert LinkedAt(U, ancestor);
      ancestor := next;
      soleChildCount := 1;
      next := ancestor.realParent;
    }
    assert ancestor == HubOf(U, parent, cloneFlags);
    var bc := ancestor.bore.subtree;
    if BurstCacheExpired(t, bc.timestamp, now) {
      var count, total := ScanRepresentatives(ancestor, U);
      ancestor.bore := ancestor.bore.(subtree := UpdateBurstCache(t, ScanResult(count, total), ancestor.bore.penalty, now));
    }
    penalty := ancestor.bore.subtree.penalty;
  }

  /** The scan of inherit_from_ancestor_hub: each direct child is replaced
      by the end of its single-child chain before it is looked at. */
  method ScanRepresentatives(ancestor: Task, ghost U: set<Task>) returns (count: u32, total: u32)
    requires ancestor in U && Linked(U)
    ensures ScanResult(count, total) == Scan(RepresentativeEntries(U, ancestor))
  {
    count, total := 0, 0;
    assert LinkedAt(U, ancestor);
    ghost var es := RepresentativeEntries(U, ancestor);
    var i := 0;
    while i < |ancestor.children|
      invariant 0 <= i <= |ancestor.children| == |es|
      invariant Tally(count, total) == TallyOf(es[..i]) && count <= BURST_CACHE_STOP_COUNT
    {
      if count >= BURST_CACHE_STOP_COUNT {
        break;
      }
      RepresentativeEntryAt(U, ancestor, i);
      // Descend along a single-child chain to its first task with no child
      // or several.
      var descendant := ancestor.children[i];
      while CountChildrenUpto2(descendant) == 1
        invariant descendant in U
        invariant Representative(U, descendant) == Representative(U, ancestor.children[i])
        decreases descendant.height
      {
        assert LinkedAt(U, descendant);
        descendant := descendant.children[0];
      }
      TallyStep(es, i);
      i := i + 1;
      if !descendant.Eligible() {
        continue;
      }
      count := count + 1;
      total := AddU32(total, descendant.bore.penalty);
    }
    ScanConclude(es, i, count, total);
  }

  /** inherit_from_thread_group: the group cache of p's group leader,
      refilled from the leader's thread list. */
  method InheritFromThreadGroup(t: Tunables, p: Task, now: u64) returns (penalty: u32)
    requires p.groupLeader != null
    modifies p.groupLeader`bore
    ensures var leader := p.groupLeader;
      && leader.bore == old(leader.bore).(group := old(InheritCache(t, leader.bore.group, Entries(leader.threads), leader.bore.penalty, now)))
      && penalty == leader.bore.group.penalty
  {
    var leader := p.groupLeader;
    var bc := leader.bore.group;
    if BurstCacheExpired(t, bc.timestamp, now) {
      var count, total := ScanTasks(leader.threads);
      leader.bore := leader.bore.(group := UpdateBurstCache(t, ScanResult(count, total), leader.bore.penalty, now));
    }
    penalty := leader.bore.group.penalty;
  }
}
