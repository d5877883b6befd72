# BORE burst-penalty engine and the E404 boot-argument parser, in Dafny

This project models two parts of an Android kernel tree.

**The BORE scheduler core (`kernel/sched/bore.c`).** The Burst-Oriented Response Enhancer turns the CPU time a task has burned since it last slept into a bounded penalty. That penalty becomes an effective nice priority and a CFS load weight.
- `bore_math.dfy` (module `BoreMath`) holds the pure arithmetic:
  - the 8-bit fixed-point `log2p1` built on `fls64`, and `calc_burst_penalty`;
  - the asymmetric `binary_smooth`, the clamped `effective_prio_bore` and the chained multiply-shift `rescale_slice`;
  - the deadline rescale and the burst-cache expiry test.
- `bore_task.dfy` (module `BoreTask`) holds the per-task context `bore_ctx`, the scheduling entity, and a `Task` class whose methods update them in place:
  - `update_curr_bore`, `update_penalty` and `reweight_task_by_prio`;
  - both restart functions and `reset_task_bore`.
  Each method is proved equal to a step function, and the invariants the scheduler relies on are proved about those step functions.
- `bore_inherit.dfy` (module `BoreInherit`) covers the time-gated burst cache and the three inherit functions:
  - scanning the children;
  - walking up to an "ancestor hub" and scanning the representatives of its children;
  - scanning the thread group.
  The loops are proved against one specification of a capped scan.
- `bore_sched.dfy` (module `BoreSched`) holds the globals of `bore.c` (the tunables and `inherit_penalty_fn`) together with:
  - `update_inherit_type`, `task_fork_bore` and `sched_init_bore`;
  - the re-weight sweep `readjust_all_task_weights` and the two sysctl handlers.

Machine widths are explicit throughout. u32 and u64 values are bounded naturals. Every addition, subtraction, product and shift that can wrap in C wraps in the model. The s32 and s64 reinterpretations of the code are written out.

**The E404 boot-argument parser (`drivers/misc/e404_attributes.c`).** This is `e404_args.dfy` (module `E404Args`).
- `parse_e404_args` splits its argument with `strsep` on space and comma and skips empty tokens. It maps eleven exact keywords onto five early variables.
- `e404_parse_attributes` copies those five variables into the `e404_data` record.

The tokenizer is specified by `StrSep`/`Tokens`, and the keyword table by `Keyword`/`ApplyToken`/`ApplyAll`. The imperative loop is proved to compute `ApplyAll` of the tokens.

Assumptions about code that is not part of this model:
- **Score.** `p->bore.score` is read at `bore.c:100` but never written in `bore.c`. It is taken to be `penalty >> 8`, the integer part of the 8-bit fixed-point penalty (`Score`).
- **Weight tables.** `sched_prio_to_weight` and `sched_prio_to_wmult` are a parameter (`PrioTables`). They are assumed to have 40 positive u32 entries, with the weight non-increasing and `weight[i] * wmult[i-1] <= 2^32` (`PrioTables.Valid`). `weight[i] * wmult[i]` itself may exceed 2^32, because wmult is rounded to nearest. `KernelTables` holds the mainline values, and `KernelTablesValid` proves they meet these assumptions. `scale_load` is the 64-bit `w << SCHED_FIXEDPOINT_SHIFT`, that is `w * 1024` (`ScaleLoad`).
- **Timestamp shift.** `BORE_BC_TIMESTAMP_SHIFT` is a field of the tunables (below 64).
- **Field widths.** `struct bore_ctx` and `struct bore_bc` are declared outside the files modelled here. `burst_time` is taken as u64. `curr_penalty`, `prev_penalty`, `penalty` and the cached penalty are u32, as the `u32` locals and returns of `bore.c` suggest. The cache timestamp is taken as u64, so `now >> SHIFT` is stored without truncation and `timestamp << SHIFT` wraps at 2^64 (`Shl64`).
- **Kernel constants.** `MAX_RT_PRIO` is 100, `CLONE_PARENT` is `0x8000` and `CLONE_THREAD` is `0x10000`, as in the mainline kernel headers.
- **The task tree.** It is a set of `Task` objects in which the root is its own real parent. Two ghost ranks, a depth and a height, make the upward walk (`bore.c:256-258`) and the single-child descent (`bore.c:268-270`) terminate.

## Model

| member | source | states |
|---|---|---|
| BoreMath.DefaultTunables | kernel/sched/bore.c:11-16 | The initial tunables (bore 1, inherit type 2, smoothness 1, offset 24, scale 1536, lifetime 75000000) satisfy the validity conditions the arithmetic needs |
| BoreMath.Fls64 | kernel/sched/bore.c:31 | fls64 is 0 exactly for 0; otherwise 2^(r-1) <= v < 2^r with r <= 64 |
| BoreMath.FlsMonotone | kernel/sched/bore.c:31 | fls64 is monotone non-decreasing |
| BoreMath.Mantissa8 | kernel/sched/bore.c:32 | The 8 bits just below the top set bit form a value below 256 |
| BoreMath.Log2p1 | kernel/sched/bore.c:24-35 | log2p1 is 0 exactly for 0, and for v > 0 its integer part (the bits above the low 8) is fls64(v) |
| BoreMath.Log2p1Value | kernel/sched/bore.c:24-35 | For v > 0, log2p1 (computed with the two u64 left shifts, the right shift and the `|`) equals fls64(v)*256 plus the 8 bits just below v's top set bit |
| BoreMath.Log2p1Bound | kernel/sched/bore.c:24-35 | log2p1 is at most (64<<8)|255, and its integer part is fls64(v) |
| BoreMath.Log2p1Monotone | kernel/sched/bore.c:24-35 | log2p1 is monotone non-decreasing in v |
| BoreMath.CalcBurstPenalty | kernel/sched/bore.c:37-47 | The penalty never exceeds MAX_BURST_PENALTY and is 0 whenever the log is at most penalty_offset<<8 |
| BoreMath.PenaltyOfGreed | kernel/sched/bore.c:42-46 | The same bounds for the s32-reinterpreted difference and the u32 product as written in C |
| BoreMath.PenaltyOfGreedExact | kernel/sched/bore.c:42-46 | With valid tunables, the machine computation equals min(MAX, max(0, greed - tolerance) * scale / 1024) |
| BoreMath.CalcBurstPenaltyExact | kernel/sched/bore.c:37-47 | calc_burst_penalty equals the overflow-free formula over log2p1(burst_time) |
| BoreMath.PenaltyOfGreedMonotone | kernel/sched/bore.c:42-46 | The penalty is non-decreasing in greed |
| BoreMath.CalcBurstPenaltyMonotone | kernel/sched/bore.c:37-47 | calc_burst_penalty is non-decreasing in burst_time when penalty*scale cannot overflow u32 |
| BoreMath.CalcBurstPenaltyZeroBelow | kernel/sched/bore.c:37-47 | No penalty while burst_time < 2^(offset-1), the true threshold given 1-based fls64 |
| BoreMath.DefaultPenaltyThreshold | kernel/sched/bore.c:14-15 | With the default offset and scale, 2^23 gives penalty 0 but 3*2^22 (below 2^24) already gives 192 |
| BoreMath.AddS64Distance | kernel/sched/bore.c:163-173 | Adding an s64 to a u64 and taking the wrapped s64 distance back returns it unchanged |
| BoreMath.BinarySmooth | kernel/sched/bore.c:59-71 | A drop is taken at once (result = new); for new below 2^31 a rise gives old + ceil((new-old)/2^smoothness), strictly above old and at most new (higher up the u32 rounding add can wrap) |
| BoreMath.BinarySmoothTopWraps | kernel/sched/bore.c:67-70 | With smoothness 1, binary_smooth(2^32-1, 0) is 0: `increment + divisor - 1` wraps in u32, so that rise returns old itself |
| BoreMath.BinarySmoothExample | kernel/sched/bore.c:59-71 | With smoothness 1, smoothing 100 towards 250 gives 175 |
| BoreMath.EffectivePrio | kernel/sched/bore.c:95-103 | The priority is always in 0..39; with sched_bore off it is clamp(static_prio - MAX_RT_PRIO, 0, 39); otherwise, when in range, it is nice level plus score |
| BoreMath.EffectivePrioMonotone | kernel/sched/bore.c:95-103 | A larger penalty never gives a numerically smaller priority |
| BoreMath.EffectivePrioZeroPenalty | kernel/sched/bore.c:95-103 | A zero penalty leaves the clamped nice level |
| BoreMath.RescaleSlice | kernel/sched/bore.c:49-57 | The two mul_u64_u32_shr steps, each truncated to u64; when the priority index strictly decreases (the only case bore.c:169 rescales) the rescaled slice is never longer than delta |
| BoreMath.ImprovedProduct | kernel/sched/bore.c:53-54 | For old > new, weight[old] * wmult[new] <= 2^32, from the adjacent bound and the non-increasing weights |
| BoreMath.RescaleSliceSamePrioGrows | kernel/sched/bore.c:49-57 | With the kernel tables and an unchanged index 2, rescale_slice(2^40) is 2^40 + 6144: at equal priority the slice can grow |
| BoreMath.KernelTablesValid | kernel/sched/bore.c:53-54 | The mainline sched_prio_to_weight and sched_prio_to_wmult tables satisfy every assumption the rescale and reweight contracts make |
| BoreMath.ScaledRemaining | kernel/sched/bore.c:169-172 | The rescaled signed remainder stays in s64, and once the priority index has strictly decreased it keeps the sign of vremain (or is 0) and is no longer |
| BoreMath.RescaledDeadline | kernel/sched/bore.c:170-173 | vruntime + vscaled in u64 arithmetic; once the priority index strictly decreased, the new deadline minus vruntime keeps the sign of vremain (or is 0) and is no farther |
| BoreMath.FreshAfterStamp | kernel/sched/bore.c:195-208 | A cache stamped at now stays unexpired at any later time within the lifetime less the shift's lost resolution |
| BoreMath.BurstCacheExpired | kernel/sched/bore.c:195-200 | Without wrap, the cache is expired exactly when more than cache_lifetime has passed since timestamp << SHIFT; a timestamp from the future reads as expired because the u64 difference wraps |
| BoreMath.CacheStamp | kernel/sched/bore.c:208 | now >> SHIFT is the number of whole 2^SHIFT units in now: stamp * 2^SHIFT <= now < (stamp + 1) * 2^SHIFT |
| BoreTask.Max | kernel/sched/bore.c:115-117 | max of two u32 values is one of them and at least both |
| BoreTask.Prio | kernel/sched/bore.c:95-103 | A task's effective priority is below 40 |
| BoreTask.ScaleLoad | kernel/sched/bore.c:82 | scale_load on a 64-bit kernel: a multiple of 1024 that scale_load_down (division by 1024) maps back to the table weight |
| BoreTask.Reweight | kernel/sched/bore.c:73-93 | Idle-policy tasks are untouched; otherwise weight = scale_load(table[prio]) and inv_weight = wmult[prio]; stop_update is false after an on-rq reweight and never becomes set; the rest of the context is unchanged |
| BoreTask.ReweightToEffectivePrio | kernel/sched/bore.c:73-93 | Reweighting to the effective priority makes the weight coherent with it, and a second reweight changes nothing |
| BoreTask.UpdatePenaltyStep | kernel/sched/bore.c:105-125 | penalty becomes 0 for kernel threads and max(prev_penalty, curr_penalty) otherwise; the entity is untouched when the priority did not change; nothing else in the context changes |
| BoreTask.UpdatePenaltyKeepsCoherence | kernel/sched/bore.c:105-125 | update_penalty preserves the coherence of weight and effective priority |
| BoreTask.UpdatePenaltyIdempotent | kernel/sched/bore.c:105-125 | A second update_penalty changes nothing |
| BoreTask.UpdateCurrStep | kernel/sched/bore.c:127-143 | With stop_update set nothing changes; otherwise burst_time grows by delta_exec (u64 wrap), curr_penalty is its penalty and prev_penalty is kept |
| BoreTask.UpdateCurrKeepsConsistent | kernel/sched/bore.c:127-143 | If burst_time does not wrap, update_curr_bore keeps curr_penalty = calc_burst_penalty(burst_time) and penalty = max(prev, curr) (0 for kernel threads), although update_penalty runs only when curr_penalty exceeds prev_penalty |
| BoreTask.BurstKeepsConsistent | kernel/sched/bore.c:136-142 | A burst whose penalty does not shrink keeps the context consistent whether or not update_penalty runs |
| BoreTask.UpdateCurrKeepsCoherence | kernel/sched/bore.c:127-143 | update_curr_bore preserves coherence of weight and priority |
| BoreTask.RestartStep | kernel/sched/bore.c:145-155 | prev_penalty becomes binary_smooth(curr, prev); curr_penalty and burst_time become 0; of the rest of the context only penalty and stop_update (update_penalty) may change, and of the entity only weight and inv_weight |
| BoreTask.RestartKeepsCoherence | kernel/sched/bore.c:145-155 | A restart keeps the load weight coherent with the effective priority |
| BoreTask.RestartConsistent | kernel/sched/bore.c:145-155 | After a restart the context is consistent; a drop is taken at once and a rise stays in (prev, curr] |
| BoreTask.RestartRescaleStep | kernel/sched/bore.c:157-175 | The context is as after restart_burst_bore; the deadline changes only if the effective priority strictly decreased |
| BoreTask.RestartRescaleKeepsSign | kernel/sched/bore.c:157-175 | deadline - vruntime never changes sign and never grows in magnitude |
| BoreTask.ForkStep | kernel/sched/bore.c:318-331 | prev_penalty = max(prev_penalty, inherited); curr_penalty, burst_time, stop_update and futex_waiting are cleared; the caches are kept |
| BoreTask.ForkConsistent | kernel/sched/bore.c:318-331 | A forked context is consistent, its penalty is max(prev, inherited) (0 for kernel threads), and inheriting 0 keeps prev_penalty |
| BoreTask.ZeroCtxConsistent | kernel/sched/bore.c:334-337 | The all-zero context is consistent |
| BoreTask.Task.Eligible | kernel/sched/bore.c:177-180 | task_is_bore_eligible: a task of the fair class that has not exited (a task reference is never NULL here) |
| BoreTask.Task.ReweightEntity | kernel/sched/bore.c:86 | reweight_entity sets the load weight and nothing else |
| BoreTask.Task.ReweightTaskByPrio | kernel/sched/bore.c:73-93 | The new state is Reweight of the old one |
| BoreTask.Task.UpdatePenalty | kernel/sched/bore.c:105-125 | The new state is UpdatePenaltyStep of the old one |
| BoreTask.Task.UpdateCurrBore | kernel/sched/bore.c:127-143 | The new state is UpdateCurrStep of the old one |
| BoreTask.Task.RestartBurstBore | kernel/sched/bore.c:145-155 | The new state is RestartStep of the old one |
| BoreTask.Task.RestartBurstRescaleDeadlineBore | kernel/sched/bore.c:157-175 | The new state is RestartRescaleStep of the old one |
| BoreTask.Task.ResetTaskBore | kernel/sched/bore.c:334-337 | The whole burst context becomes zero |
| BoreInherit.Entries | kernel/sched/bore.c:228-235 | The eligibility/penalty view of a task list has one entry per task |
| BoreInherit.EligiblePenalties | kernel/sched/bore.c:231-234 | The penalties of the eligible entries, never more than the entries |
| BoreInherit.Scan | kernel/sched/bore.c:228-236 | A scan counts at most 63 eligible entries |
| BoreInherit.ScanStopsAt | kernel/sched/bore.c:229-230 | Once 63 eligible entries have been seen, the scan's result is fixed |
| BoreInherit.ScanIgnoresTail | kernel/sched/bore.c:229-230 | Entries after the 63rd eligible one do not affect the scan |
| BoreInherit.ScanBound | kernel/sched/bore.c:202-236 | With valid penalties the u32 total does not wrap, and the average is a valid penalty |
| BoreInherit.ScanNoneEligible | kernel/sched/bore.c:231-232 | With no eligible entry the scan yields count 0 and total 0 |
| BoreInherit.TallyIs | kernel/sched/bore.c:233-234 | The loop's running count and u32 total are the number and wrapped sum of the eligible penalties |
| BoreInherit.ScanConclude | kernel/sched/bore.c:228-236 | A loop that stopped at the cap or at the end of the list has computed Scan |
| BoreInherit.ScanTasks | kernel/sched/bore.c:228-236 | The children or thread scan loop returns Scan of the task list |
| BoreInherit.UpdateBurstCache | kernel/sched/bore.c:202-209 | The cache penalty is the larger of the average total/count (0 when nothing was counted) and the anchor penalty: at least both, and equal to one of them. The timestamp is now >> SHIFT |
| BoreInherit.InheritCache | kernel/sched/bore.c:227-240 | An unexpired cache is returned unchanged. An expired one becomes UpdateBurstCache of the capped Scan of the entries, so ScanBound, ScanIgnoresTail and the rest apply to it |
| BoreInherit.InheritCacheValid | kernel/sched/bore.c:202-209 | The cache only ever holds a valid penalty |
| BoreInherit.InheritCacheMemo | kernel/sched/bore.c:195-209 | A refilled cache answers every later fork within its lifetime with the same penalty, whatever the tree looks like by then |
| BoreInherit.ThreeSiblingsExample | kernel/sched/bore.c:293-306 | Three eligible threads with penalties 10, 20 and 30 and an expired cache give max(20, leader penalty) |
| BoreInherit.CountChildrenUpto2 | kernel/sched/bore.c:187-193 | The number of children, saturated at 2 |
| BoreInherit.HubAnchor | kernel/sched/bore.c:256-258 | The walk ends in the tree, at the start or a shallower task, at the root or at a task with more children than its allowance |
| BoreInherit.HubAnchorIsFirstStop | kernel/sched/bore.c:251-258 | The hub is the k-th real parent of the start for the FIRST step k at which the walk stops (root, or more children than the allowance: the start's at step 0, 1 after); no earlier ancestor stops |
| BoreInherit.Representative | kernel/sched/bore.c:267-270 | The descent ends in the tree, at the start or a lower task, at a task that has no child or at least two |
| BoreInherit.RepresentativeEndsChain | kernel/sched/bore.c:267-270 | The representative is the k-th task down the first-child chain for the first k at which the task has no child or at least two; every task before it has exactly one child |
| BoreInherit.RepresentativeEntries | kernel/sched/bore.c:263-276 | One entry per direct child of the hub, taken from that child's representative |
| BoreInherit.HubOf | kernel/sched/bore.c:246-258 | The hub lies in the tree, starting from the real parent under CLONE_PARENT |
| BoreInherit.ParentAnchor | kernel/sched/bore.c:222-225 | Under CLONE_PARENT the subtree cache of the real parent is used, otherwise the parent's own |
| BoreInherit.InheritFromParent | kernel/sched/bore.c:216-241 | Only the anchor's subtree cache changes, to InheritCache over the anchor's children, and the returned penalty is the cache's |
| BoreInherit.InheritFromAncestorHub | kernel/sched/bore.c:243-282 | Only the hub's subtree cache changes, to InheritCache over the representatives of its children, and the returned penalty is the cache's |
| BoreInherit.ScanRepresentatives | kernel/sched/bore.c:263-276 | The hub scan loop, with its inner descent, returns Scan of RepresentativeEntries |
| BoreInherit.InheritFromThreadGroup | kernel/sched/bore.c:284-307 | Only the leader's group cache changes, to InheritCache over the leader's threads, and the returned penalty is the cache's |
| BoreSched.PolicyFor | kernel/sched/bore.c:341-350 | 1 selects the parent policy, 2 the ancestor hub, and every other value inherit_none, each as an if-and-only-if |
| BoreSched.ForkCache | kernel/sched/bore.c:319-321 | CLONE_THREAD always consults the group leader's group cache; no cache is consulted exactly under inherit_none without CLONE_THREAD |
| BoreSched.EntriesValid | kernel/sched/bore.c:231-234 | Scanned entries of valid contexts have valid penalties |
| BoreSched.RepresentativeEntriesValid | kernel/sched/bore.c:272-275 | Representatives of valid contexts have valid penalties |
| BoreSched.InheritedValid | kernel/sched/bore.c:319-321 | The inherited penalty is valid and the refilled cache leaves its owner's context valid |
| BoreSched.ForkChildConsistent | kernel/sched/bore.c:309-332 | A forked child is consistent, its penalty is at least the inherited one (non-kernel threads), and inherit_none keeps its prev_penalty |
| BoreSched.BoreScheduler.constructor | kernel/sched/bore.c:11-22 | The tunables as given and no inherit function selected yet |
| BoreSched.BoreScheduler.UpdateInheritType | kernel/sched/bore.c:339-351 | inherit_penalty_fn becomes the policy PolicyFor selects |
| BoreSched.BoreScheduler.InheritPenalty | kernel/sched/bore.c:319-321 | The inherited penalty is Inherited, and the only cache written is the consulted one, refilled by InheritCache |
| BoreSched.BoreScheduler.TaskFork | kernel/sched/bore.c:309-332 | Nothing changes for an ineligible child or with sched_bore off; otherwise the child's state is ForkStep with the inherited penalty and the consulted cache is refilled |
| BoreSched.BoreScheduler.ReadjustAllTaskWeights | kernel/sched/bore.c:362-378 | Every eligible process is reweighted to its effective priority (leaving its weight coherent) and the others are untouched |
| BoreSched.BoreScheduler.SchedBoreUpdateHandler | kernel/sched/bore.c:380-391 | The handler returns the proc result; on a failed or read access nothing changes; on a successful write sched_bore takes the value and every eligible process's weight is coherent |
| BoreSched.BoreScheduler.SchedBurstInheritTypeUpdateHandler | kernel/sched/bore.c:393-404 | On a successful write the inherit type takes the value and the policy is reselected; otherwise nothing changes |
| BoreSched.BoreScheduler.SchedInitBore | kernel/sched/bore.c:353-360 | init_task's context is zeroed and the policy is selected from the inherit type |
| E404Args.FirstDelim | drivers/misc/e404_attributes.c:56 | The first space or comma, or the end of the string |
| E404Args.StrSep | drivers/misc/e404_attributes.c:56 | strsep returns the delimiter-free prefix up to the first delimiter; the rest starts after it, or is NULL when there is none |
| E404Args.FirstDelimIs | drivers/misc/e404_attributes.c:56 | Any delimiter-free prefix followed by a delimiter or the end is the first delimiter's position |
| E404Args.Tokens | drivers/misc/e404_attributes.c:56 | Splitting always yields at least one (possibly empty) token |
| E404Args.TokensSingle | drivers/misc/e404_attributes.c:56 | A string without delimiter is one token |
| E404Args.TokensCons | drivers/misc/e404_attributes.c:56 | A prefix and a delimiter give the first token, followed by the tokens of the rest |
| E404Args.TokensCount | drivers/misc/e404_attributes.c:56 | There is one token more than there are delimiters (adjacent delimiters give empty tokens) |
| E404Args.TokensNoDelim | drivers/misc/e404_attributes.c:56 | No token contains a delimiter |
| E404Args.TokensConcat | drivers/misc/e404_attributes.c:56 | The tokens concatenate back to the input without its delimiters |
| E404Args.Set | drivers/misc/e404_attributes.c:61-82 | Setting one early variable leaves the other four unchanged |
| E404Args.ApplyToken | drivers/misc/e404_attributes.c:61-84 | A recognised keyword sets exactly its one variable to its fixed value; an unknown token changes nothing |
| E404Args.Keyword | drivers/misc/e404_attributes.c:61-82 | Every keyword is a non-empty string without space or comma, so it can be a strsep token, and sets a value in 0..3 |
| E404Args.ApplyAll | drivers/misc/e404_attributes.c:56-85 | Tokens are processed left to right: each variable ends with the value of the last keyword touching it, or keeps its default when none does |
| E404Args.ApplyAllStep | drivers/misc/e404_attributes.c:56-85 | Tokens are processed left to right |
| E404Args.Known | drivers/misc/e404_attributes.c:61-84 | The recognised tokens of a list, each a keyword |
| E404Args.UnknownIgnored | drivers/misc/e404_attributes.c:83-84 | Dropping all unknown and empty tokens changes nothing |
| E404Args.ApplyAllIdempotent | drivers/misc/e404_attributes.c:56-85 | Parsing the same arguments twice gives the same variables as parsing once |
| E404Args.LastSettingTwice | drivers/misc/e404_attributes.c:56-85 | The last setting is independent of the default once one exists |
| E404Args.ExactMatch | drivers/misc/e404_attributes.c:61-81 | Matching is exact: rom_oem2, ROOT_KSU and "root_ksu " are unknown |
| E404Args.ParseExample | drivers/misc/e404_attributes.c:56-85 | rom_oem, an empty token and rom_port leave rom_type = 3 and nothing else changed |
| E404Args.EarlyParams.constructor | drivers/misc/e404_attributes.c:22-50 | The early variables take their build-configuration defaults |
| E404Args.EarlyParams.SetFlag | drivers/misc/e404_attributes.c:61-84 | The keyword chain updates the variables as ApplyToken |
| E404Args.EarlyParams.ParseE404Args | drivers/misc/e404_attributes.c:52-88 | The parser returns 0 and leaves the variables as ApplyAll of the strsep tokens (none for a NULL string) |
| E404Args.E404Attributes.constructor | drivers/misc/e404_attributes.c:5-18 | The static initialiser of e404_data |
| E404Args.E404Attributes.ParseAttributes | drivers/misc/e404_attributes.c:91-104 | The five early values are copied in and the other seven fields are unchanged |

## Left out

- Locking in the sweep (`tasklist_lock`, `task_rq_lock`, `update_rq_clock`) and the unsynchronised races on the burst cache are concurrency concerns. The sweep is a sequential loop over a list of distinct processes.
- `reweight_entity` is CFS run-queue accounting outside `bore.c`. `Task.ReweightEntity` only sets the load weight; the vruntime, deadline and run-queue load are not modelled.
- `proc_dou8vec_minmax` and the user-buffer copy are not modelled. The handlers take its return code and the parsed value as parameters. The sysctl table and its range bounds are not part of this model.
- `printk` in `sched_init_bore` and every `pr_alert` in the parser are logging and are left out.
- `list_head` iteration, `for_each_thread` and `for_each_process` are ordered sequences of `Task` references. RCU is not modelled.
- `include/linux/sched.h`, where `struct bore_ctx` and its `score` field are declared, is not part of this model. `Score` is `penalty / 256` by assumption.
- The contents of the weight tables and `BORE_BC_TIMESTAMP_SHIFT` are parameters. `kernel/sched/core.c`, where the tables are defined, is not part of this model. Its mainline values are copied into `KernelTables`.
- RescaleSlice: promises `r <= delta` only when the priority index strictly decreases. At an equal index, `weight[i] * wmult[i]` can exceed 2^32 and the slice can grow (`RescaleSliceSamePrioGrows`). `bore.c:169` rescales only when `old_prio > new_prio`, so no caller sees that case.
- BinarySmooth: characterises a rise only for new below 2^31. Higher up, `increment + divisor - 1` can wrap in u32 and the result can fall to old (`BinarySmoothTopWraps`). In a valid context both penalties are at most MAX_BURST_PENALTY, far below 2^31, and `RestartConsistent` states the rise there.
- ScaledRemaining, RescaledDeadline: promise the sign and the bound only when the priority index strictly decreases, for the same reason as RescaleSlice.
- BurstCacheExpired: assumes the `bore_bc.timestamp` field is u64. If the field is narrower, `now >> SHIFT` would be truncated when stored and `timestamp << SHIFT` would be computed in the narrower type. That truncation is not modelled.
- UpdateCurrKeepsConsistent: requires that `burst_time + delta_exec` does not wrap u64. After a wrap, `calc_burst_penalty` of the smaller burst time can drop below `prev_penalty` without `update_penalty` running. The step functions themselves model the wrap.
- ReadjustAllTaskWeights: requires the process list to hold no task twice. `for_each_process` visits each thread-group leader once. Other threads of a group are not visited, as in the code.
- TaskFork: requires the child not yet to be in the task tree. This rules out aliasing between the new task and the cache owner.
- ForkChildConsistent: under inherit_none the child keeps the `prev_penalty` it copied from its parent. The code computes `max(prev_penalty, 0)`, so the copied value is not reset to 0.
- ParseE404Args: C strings are modelled without their NUL terminator, and a NULL `str` as `None`. The worked example is stated on tokens, because the solver cannot unfold the tokenizer on a literal string cheaply. `TokensCons` and `TokensSingle` connect strings to tokens in general.
- The build configuration options (`CONFIG_E404_KSU_DEFAULT`, `CONFIG_E404_EFFCPU_DEFAULT`, `CONFIG_E404_MIUI`, `CONFIG_E404_ALIOTH_5K_BATT_DEFAULT`) are a `BuildConfig` parameter.
- The e404 sysfs show/store attributes, the kobject setup and `drivers/oplus/` are I/O glue and are left out.
