/**
 The resource scheduler: tasks hold CPU, memory, GPU slots and named locks from the
 moment they are admitted until they complete, and they may complete in any order.

 `Pool` is the state of one run and `Step` its two kinds of move; `RunTasks` is the
 scheduling loop itself, whose whole history is shown to be a run of `Step`.
 */
module ResourceScheduler {
  import opened Wrappers
  import opened Sums

  // ---------------------------------------------------------------- requests and tasks

  datatype BudgetFields = BudgetFields(cpu: int, memory: int, gpu: int)

  /** A budget as its constructor admits it. */
  type Budget = b: BudgetFields | 1 <= b.cpu && 1 <= b.memory && 0 <= b.gpu
    witness BudgetFields(1, 1, 0)

  /** The lock names are kept sorted and unique by the program: a set. */
  datatype RequestFields = RequestFields(cpu: int, memory: int, gpu: int, locks: set<string>)

  type Request = r: RequestFields | 1 <= r.cpu && 1 <= r.memory && 0 <= r.gpu && "" !in r.locks
    witness RequestFields(1, 1, 0, {})

  /** What calling a task's private callable does: return a value, or raise. */
  datatype Work<+T> = Returns(value: T) | Raises(error: string)

  datatype Task<+T> = Task(name: string, request: Request, work: Work<T>)

  datatype Outcome<+T> = Outcome(name: string, value: Option<T>, error: Option<string>)

  datatype Error = DuplicateName | CpuExceeds(order: nat) | MemoryExceeds(order: nat) | GpuExceeds(order: nat)

  function OutcomeOf<T>(task: Task<T>): Outcome<T>
  {
    match task.work
    case Returns(value) => Outcome(task.name, Some(value), None)
    case Raises(error) => Outcome(task.name, None, Some(error))
  }

  function Outcomes<T>(tasks: seq<Task<T>>): seq<Outcome<T>>
  {
    seq(|tasks|, i requires 0 <= i < |tasks| => OutcomeOf(tasks[i]))
  }

  ghost predicate DistinctNames<T>(tasks: seq<Task<T>>)
  {
    forall i, j :: 0 <= i < j < |tasks| ==> tasks[i].name != tasks[j].name
  }

  function NameSet<T>(tasks: seq<Task<T>>): set<string>
  {
    set i | 0 <= i < |tasks| :: tasks[i].name
  }

  /** There are as many names as tasks exactly if no two tasks share one. */
  lemma {:induction false} NamesNext<T>(tasks: seq<Task<T>>)
    requires tasks != []
    ensures NameSet(tasks) == NameSet(tasks[..|tasks| - 1]) + {tasks[|tasks| - 1].name}
  {
    var init := tasks[..|tasks| - 1];
    assert forall i :: 0 <= i < |init| ==> init[i] == tasks[i];
  }

  lemma {:induction false} DistinctNext<T>(tasks: seq<Task<T>>)
    requires tasks != []
    ensures var init, last := tasks[..|tasks| - 1], tasks[|tasks| - 1];
            DistinctNames(tasks) <==> DistinctNames(init) && last.name !in NameSet(init)
  {
    var init := tasks[..|tasks| - 1];
    assert forall i :: 0 <= i < |init| ==> init[i] == tasks[i];
  }

  lemma {:induction false} NamesCount<T>(tasks: seq<Task<T>>)
    ensures |NameSet(tasks)| <= |tasks|
    ensures |NameSet(tasks)| == |tasks| <==> DistinctNames(tasks)
  {
    if tasks == [] {
      assert NameSet(tasks) == {};
    } else {
      var init, last := tasks[..|tasks| - 1], tasks[|tasks| - 1];
      NamesCount(init);
      NamesNext(tasks);
      DistinctNext(tasks);
      hide NameSet, DistinctNames;
      if last.name in NameSet(init) {
        assert NameSet(init) + {last.name} == NameSet(init);
      }
    }
  }

  predicate WithinBudget(request: Request, budget: Budget)
  {
    request.cpu <= budget.cpu && request.memory <= budget.memory && request.gpu <= budget.gpu
  }

  ghost predicate Admissible<T>(tasks: seq<Task<T>>, budget: Budget)
  {
    DistinctNames(tasks) && forall i :: 0 <= i < |tasks| ==> WithinBudget(tasks[i].request, budget)
  }

  /** `error` names the first fault, looking at names before resources and at tasks in order. */
  ghost predicate Blames<T>(tasks: seq<Task<T>>, budget: Budget, error: Error)
  {
    if error.DuplicateName? then !DistinctNames(tasks) else
      && DistinctNames(tasks)
      && error.order < |tasks|
      && (forall k :: 0 <= k < error.order ==> WithinBudget(tasks[k].request, budget))
      && var r := tasks[error.order].request;
      match error
      case CpuExceeds(_) => r.cpu > budget.cpu
      case MemoryExceeds(_) => r.cpu <= budget.cpu && r.memory > budget.memory
      case GpuExceeds(_) => r.cpu <= budget.cpu && r.memory <= budget.memory && r.gpu > budget.gpu
  }

  method ValidateTasks<T>(tasks: seq<Task<T>>, budget: Budget) returns (error: Option<Error>)
    ensures error.None? <==> Admissible(tasks, budget)
    ensures error.Some? ==> Blames(tasks, budget, error.value)
  {
    NamesCount(tasks);
    if |NameSet(tasks)| != |tasks| {
      return Some(DuplicateName);
    }
    for i := 0 to |tasks|
      invariant forall k :: 0 <= k < i ==> WithinBudget(tasks[k].request, budget)
    {
      var request := tasks[i].request;
      if request.cpu > budget.cpu {
        return Some(CpuExceeds(i));
      }
      if request.memory > budget.memory {
        return Some(MemoryExceeds(i));
      }
      if request.gpu > budget.gpu {
        return Some(GpuExceeds(i));
      }
    }
    return None;
  }

  // ---------------------------------------------------------------- the state of a run

  /** Tasks are named by their declaration order. */
  datatype Pool<+T> = Pool(
    cpu: int, memory: int, gpu: int, locks: set<string>,
    pending: seq<nat>, active: set<nat>, outcomes: seq<Option<Outcome<T>>>)

  function Initial<T>(tasks: seq<Task<T>>, budget: Budget): Pool<T>
  {
    Pool(budget.cpu, budget.memory, budget.gpu, {},
         seq(|tasks|, i => i), {}, seq(|tasks|, _ => None))
  }

  predicate Fits<T>(request: Request, s: Pool<T>)
  {
    request.cpu <= s.cpu && request.memory <= s.memory && request.gpu <= s.gpu && s.locks !! request.locks
  }

  function Without(orders: seq<nat>, order: nat): seq<nat>
  {
    if orders == [] then []
    else if orders[0] == order then orders[1..]
    else [orders[0]] + Without(orders[1..], order)
  }

  function Admitted<T>(tasks: seq<Task<T>>, s: Pool<T>, i: nat): Pool<T>
    requires i < |tasks|
  {
    var r := tasks[i].request;
    s.(cpu := s.cpu - r.cpu, memory := s.memory - r.memory, gpu := s.gpu - r.gpu,
       locks := s.locks + r.locks, pending := Without(s.pending, i), active := s.active + {i})
  }

  function Completed<T>(tasks: seq<Task<T>>, s: Pool<T>, i: nat): Pool<T>
    requires i < |tasks| == |s.outcomes|
  {
    var r := tasks[i].request;
    s.(cpu := s.cpu + r.cpu, memory := s.memory + r.memory, gpu := s.gpu + r.gpu,
       locks := s.locks - r.locks, active := s.active - {i},
       outcomes := s.outcomes[i := Some(OutcomeOf(tasks[i]))])
  }

  ghost predicate AdmitStep<T(!new)>(tasks: seq<Task<T>>, s: Pool<T>, s': Pool<T>, i: nat)
  {
    i < |tasks| && i in s.pending && Fits(tasks[i].request, s) && s' == Admitted(tasks, s, i)
  }

  ghost predicate CompleteStep<T(!new)>(tasks: seq<Task<T>>, s: Pool<T>, s': Pool<T>, i: nat)
  {
    i < |tasks| == |s.outcomes| && i in s.active && s' == Completed(tasks, s, i)
  }

  ghost predicate Step<T(!new)>(tasks: seq<Task<T>>, s: Pool<T>, s': Pool<T>)
  {
    exists i: nat :: AdmitStep(tasks, s, s', i) || CompleteStep(tasks, s, s', i)
  }

  /** A run: it starts with everything free and moves one admission or completion at a time. */
  ghost predicate IsRun<T(!new)>(tasks: seq<Task<T>>, budget: Budget, trace: seq<Pool<T>>)
  {
    |trace| > 0 &&
    if |trace| == 1 then trace == [Initial(tasks, budget)]
    else IsRun(tasks, budget, trace[..|trace| - 1]) && Step(tasks, trace[|trace| - 2], trace[|trace| - 1])
  }

  predicate Finished<T>(s: Pool<T>)
  {
    s.pending == [] && s.active == {}
  }

  // ---------------------------------------------------------------- the safety invariant

  function Cpus<T>(tasks: seq<Task<T>>): seq<nat>
  {
    seq(|tasks|, i requires 0 <= i < |tasks| => tasks[i].request.cpu)
  }

  function Memories<T>(tasks: seq<Task<T>>): seq<nat>
  {
    seq(|tasks|, i requires 0 <= i < |tasks| => tasks[i].request.memory)
  }

  function Gpus<T>(tasks: seq<Task<T>>): seq<nat>
  {
    seq(|tasks|, i requires 0 <= i < |tasks| => tasks[i].request.gpu)
  }

  ghost function LocksHeld<T>(tasks: seq<Task<T>>, active: set<nat>): set<string>
  {
    set i, l | i in active && i < |tasks| && l in tasks[i].request.locks :: l
  }

  predicate Ascending(orders: seq<nat>)
  {
    forall i, j :: 0 <= i < j < |orders| ==> orders[i] < orders[j]
  }

  ghost predicate Bounded(orders: seq<nat>, n: nat)
  {
    forall k :: 0 <= k < |orders| ==> orders[k] < n
  }

  /** Nothing is over-committed: what is available plus what active tasks hold is the budget. */
  ghost predicate Conserves<T>(tasks: seq<Task<T>>, budget: Budget, s: Pool<T>)
  {
    && 0 <= s.cpu && s.cpu + SumAt(Cpus(tasks), s.active) == budget.cpu
    && 0 <= s.memory && s.memory + SumAt(Memories(tasks), s.active) == budget.memory
    && 0 <= s.gpu && s.gpu + SumAt(Gpus(tasks), s.active) == budget.gpu
  }

  /** The lock table is exactly what the active tasks hold, and no lock is held twice. */
  ghost predicate LocksExclusive<T>(tasks: seq<Task<T>>, s: Pool<T>)
  {
    && s.locks == LocksHeld(tasks, s.active)
    && forall i, j :: i in s.active && j in s.active && i != j && i < |tasks| && j < |tasks|
                      ==> tasks[i].request.locks !! tasks[j].request.locks
  }

  /** Every task is pending, active or done, and only done tasks have an outcome: their own. */
  ghost predicate Accounts<T>(tasks: seq<Task<T>>, s: Pool<T>)
  {
    && |s.outcomes| == |tasks|
    && Ascending(s.pending)
    && (forall i :: i in s.pending ==> i < |tasks| && i !in s.active)
    && (forall i :: i in s.active ==> i < |tasks|)
    && forall i :: 0 <= i < |tasks| ==>
                     s.outcomes[i] == if i in s.pending || i in s.active then None else Some(OutcomeOf(tasks[i]))
  }

  ghost predicate Safe<T>(tasks: seq<Task<T>>, budget: Budget, s: Pool<T>)
  {
    Conserves(tasks, budget, s) && LocksExclusive(tasks, s) && Accounts(tasks, s)
  }

  lemma {:induction false} WithoutMembers(orders: seq<nat>, order: nat)
    requires Ascending(orders)
    ensures Ascending(Without(orders, order))
    ensures forall i :: i in Without(orders, order) <==> i in orders && i != order
  {
    if orders == [] {
    } else {
      WithoutMembers(orders[1..], order);
      if orders[0] != order {
        var rest := Without(orders[1..], order);
        assert Without(orders, order) == [orders[0]] + rest;
        forall i, j | 0 <= i < j < |rest| + 1
          ensures ([orders[0]] + rest)[i] < ([orders[0]] + rest)[j]
        {
          assert rest[j - 1] in rest;
        }
      }
    }
  }

  lemma {:induction false} WithoutLength(orders: seq<nat>, order: nat)
    requires order in orders
    ensures |Without(orders, order)| == |orders| - 1
  {
    if orders[0] != order {
      WithoutLength(orders[1..], order);
    }
  }

  lemma {:induction false} InitiallySafe<T>(tasks: seq<Task<T>>, budget: Budget)
    ensures Safe(tasks, budget, Initial(tasks, budget))
  {
    SumAtEmpty(Cpus(tasks));
    SumAtEmpty(Memories(tasks));
    SumAtEmpty(Gpus(tasks));
    var s := Initial(tasks, budget);
    forall i | 0 <= i < |tasks|
      ensures i in s.pending
    {
      assert s.pending[i] == i;
    }
  }

  lemma {:induction false} AdmitKeepsSafe<T(!new)>(tasks: seq<Task<T>>, budget: Budget, s: Pool<T>, s': Pool<T>, i: nat)
    requires Safe(tasks, budget, s) && AdmitStep(tasks, s, s', i)
    ensures Safe(tasks, budget, s')
    ensures forall j :: j in s'.pending <==> j in s.pending && j != i
    ensures |s'.pending| + |s'.active| == |s.pending| + |s.active|
  {
    WithoutMembers(s.pending, i);
    WithoutLength(s.pending, i);
    SumAtAdd(Cpus(tasks), s.active, i);
    SumAtAdd(Memories(tasks), s.active, i);
    SumAtAdd(Gpus(tasks), s.active, i);
    assert LocksHeld(tasks, s'.active) == LocksHeld(tasks, s.active) + tasks[i].request.locks;
    forall j | j in s.active
      ensures tasks[i].request.locks !! tasks[j].request.locks
    {
      assert forall l :: l in tasks[j].request.locks ==> l in LocksHeld(tasks, s.active);
    }
  }

  /** Releasing a task's locks releases no other active task's lock. */
  lemma {:induction false} CompleteKeepsSafe<T(!new)>(
    tasks: seq<Task<T>>, budget: Budget, s: Pool<T>, s': Pool<T>, i: nat)
    requires Safe(tasks, budget, s) && CompleteStep(tasks, s, s', i)
    ensures Safe(tasks, budget, s')
  {
    SumAtRemove(Cpus(tasks), s.active, i);
    SumAtRemove(Memories(tasks), s.active, i);
    SumAtRemove(Gpus(tasks), s.active, i);
    assert LocksHeld(tasks, s'.active) == LocksHeld(tasks, s.active) - tasks[i].request.locks;
  }

  lemma {:induction false} StepKeepsSafe<T(!new)>(tasks: seq<Task<T>>, budget: Budget, s: Pool<T>, s': Pool<T>)
    requires Safe(tasks, budget, s) && Step(tasks, s, s')
    ensures Safe(tasks, budget, s')
  {
    var i: nat :| AdmitStep(tasks, s, s', i) || CompleteStep(tasks, s, s', i);
    if AdmitStep(tasks, s, s', i) {
      AdmitKeepsSafe(tasks, budget, s, s', i);
    } else {
      CompleteKeepsSafe(tasks, budget, s, s', i);
    }
  }

  lemma {:induction false} SafeInRange<T>(tasks: seq<Task<T>>, budget: Budget, s: Pool<T>)
    requires Safe(tasks, budget, s)
    ensures |s.outcomes| == |tasks| && Bounded(s.pending, |tasks|) && Ascending(s.pending)
    ensures forall i :: i in s.active ==> i < |tasks|
  {
    assert forall k :: 0 <= k < |s.pending| ==> s.pending[k] in s.pending;
  }

  lemma {:induction false} RunExtends<T(!new)>(tasks: seq<Task<T>>, budget: Budget, trace: seq<Pool<T>>, s: Pool<T>)
    requires IsRun(tasks, budget, trace) && Step(tasks, trace[|trace| - 1], s)
    ensures IsRun(tasks, budget, trace + [s])
  {
    assert (trace + [s])[..|trace|] == trace;
  }

  lemma {:induction false} PrefixIsRun<T(!new)>(tasks: seq<Task<T>>, budget: Budget, trace: seq<Pool<T>>, n: nat)
    requires IsRun(tasks, budget, trace) && 1 <= n <= |trace|
    ensures IsRun(tasks, budget, trace[..n])
  {
    if n == |trace| {
      assert trace[..n] == trace;
    } else {
      PrefixIsRun(tasks, budget, trace[..|trace| - 1], n);
      assert trace[..|trace| - 1][..n] == trace[..n];
    }
  }

  lemma {:induction false} LastStateIsSafe<T(!new)>(tasks: seq<Task<T>>, budget: Budget, trace: seq<Pool<T>>)
    requires IsRun(tasks, budget, trace)
    ensures Safe(tasks, budget, trace[|trace| - 1])
  {
    if |trace| == 1 {
      InitiallySafe(tasks, budget);
    } else {
      LastStateIsSafe(tasks, budget, trace[..|trace| - 1]);
      StepKeepsSafe(tasks, budget, trace[|trace| - 2], trace[|trace| - 1]);
    }
  }

  /** Safety over every order of admissions and completions. */
  lemma {:induction false} EveryReachableStateIsSafe<T(!new)>(
    tasks: seq<Task<T>>, budget: Budget, trace: seq<Pool<T>>, k: nat)
    requires IsRun(tasks, budget, trace) && k < |trace|
    ensures Safe(tasks, budget, trace[k])
  {
    PrefixIsRun(tasks, budget, trace, k + 1);
    LastStateIsSafe(tasks, budget, trace[..k + 1]);
  }

  /** How often task `i` is admitted in a run: it leaves the pending list. */
  ghost function Admissions<T>(trace: seq<Pool<T>>, i: nat): nat
  {
    if |trace| <= 1 then 0
    else Admissions(trace[..|trace| - 1], i)
         + if i in trace[|trace| - 2].pending && i !in trace[|trace| - 1].pending then 1 else 0
  }

  /** How often task `i` is released in a run: it leaves the active set. */
  ghost function Releases<T>(trace: seq<Pool<T>>, i: nat): nat
  {
    if |trace| <= 1 then 0
    else Releases(trace[..|trace| - 1], i)
         + if i in trace[|trace| - 2].active && i !in trace[|trace| - 1].active then 1 else 0
  }

  /** In a finished run every task has been admitted once and released once. */
  lemma {:induction false} EveryTaskRunsOnce<T(!new)>(
    tasks: seq<Task<T>>, budget: Budget, trace: seq<Pool<T>>, i: nat)
    requires IsRun(tasks, budget, trace) && i < |tasks|
    ensures Admissions(trace, i) == if i in trace[|trace| - 1].pending then 0 else 1
    ensures Releases(trace, i) == if i in trace[|trace| - 1].pending || i in trace[|trace| - 1].active then 0 else 1
  {
    if |trace| == 1 {
      assert trace[0].pending[i] == i;
    } else {
      var before := trace[..|trace| - 1];
      var s, s' := trace[|trace| - 2], trace[|trace| - 1];
      EveryTaskRunsOnce(tasks, budget, before, i);
      LastStateIsSafe(tasks, budget, before);
      var j: nat :| AdmitStep(tasks, s, s', j) || CompleteStep(tasks, s, s', j);
      if AdmitStep(tasks, s, s', j) {
        WithoutMembers(s.pending, j);
      }
    }
  }

  // ---------------------------------------------------------------- admission and progress

  /** One admission pass: each candidate in order is admitted if it fits what is left. */
  ghost function FirstFit<T>(tasks: seq<Task<T>>, s: Pool<T>, candidates: seq<nat>): Pool<T>
    requires Bounded(candidates, |tasks|)
    decreases |candidates|
  {
    if candidates == [] then s
    else
      var i := candidates[0];
      FirstFit(tasks, if Fits(tasks[i].request, s) then Admitted(tasks, s, i) else s, candidates[1..])
  }

  /**
   Beside the tasks of `active`, task `i` would take more than the budget, or it shares a lock with
   one of them.
   */
  ghost predicate MustWait<T>(tasks: seq<Task<T>>, budget: Budget, active: set<nat>, i: nat)
    requires i < |tasks|
  {
    var r := tasks[i].request;
    || r.cpu + SumAt(Cpus(tasks), active) > budget.cpu
    || r.memory + SumAt(Memories(tasks), active) > budget.memory
    || r.gpu + SumAt(Gpus(tasks), active) > budget.gpu
    || exists l, j :: l in r.locks && j in active && j < |tasks| && l in tasks[j].request.locks
  }

  /** In a safe state a request fits exactly if nothing active makes its task wait. */
  lemma {:induction false} FitsUnlessMustWait<T>(tasks: seq<Task<T>>, budget: Budget, s: Pool<T>, i: nat)
    requires Safe(tasks, budget, s) && i < |tasks|
    ensures Fits(tasks[i].request, s) <==> !MustWait(tasks, budget, s.active, i)
  {
  }

  /** What makes a task wait does so beside more active tasks, too. */
  lemma {:induction false} MustWaitBesideMore<T>(
    tasks: seq<Task<T>>, budget: Budget, active: set<nat>, active': set<nat>, i: nat)
    requires i < |tasks| && active <= active' && MustWait(tasks, budget, active, i)
    ensures MustWait(tasks, budget, active', i)
  {
    SumAtGrows(Cpus(tasks), active, active');
    SumAtGrows(Memories(tasks), active, active');
    SumAtGrows(Gpus(tasks), active, active');
  }

  /** Every task that is still pending must wait for some that are active. */
  ghost predicate Saturated<T>(tasks: seq<Task<T>>, budget: Budget, s: Pool<T>)
  {
    forall i :: i in s.pending && i < |tasks| ==> MustWait(tasks, budget, s.active, i)
  }

  /** What is active after a pass beside what was before: the tasks declared before `i` that it admitted. */
  ghost function ActiveAt(before: set<nat>, after: set<nat>, i: nat): set<nat>
  {
    set j | j in after && (j in before || j < i)
  }

  /** The pass admitted exactly the candidates that need not wait beside those active and admitted before them. */
  ghost predicate AdmitsInTurn<T>(
    tasks: seq<Task<T>>, budget: Budget, before: set<nat>, candidates: seq<nat>, after: set<nat>)
  {
    && before <= after
    && (forall i :: i in after ==> i in before || i in candidates)
    && forall i :: i in candidates && i < |tasks| ==>
                     (i in after <==> !MustWait(tasks, budget, ActiveAt(before, after, i), i))
  }

  lemma {:induction false} InTurnFirst<T>(
    tasks: seq<Task<T>>, budget: Budget, before: set<nat>, i: nat, rest: seq<nat>, after: set<nat>)
    requires i < |tasks| && i !in before && forall j :: j in rest ==> i < j
    requires var mid := if MustWait(tasks, budget, before, i) then before else before + {i};
             AdmitsInTurn(tasks, budget, mid, rest, after)
    ensures AdmitsInTurn(tasks, budget, before, [i] + rest, after)
  {
    hide MustWait;
    var mid := if MustWait(tasks, budget, before, i) then before else before + {i};
    assert forall j :: j in [i] + rest <==> j == i || j in rest;
    assert ActiveAt(before, after, i) == before;
    forall j | j in rest
      ensures ActiveAt(before, after, j) == ActiveAt(mid, after, j)
    {
    }
  }

  lemma {:induction false} FirstFitAdmitsInTurn<T(!new)>(
    tasks: seq<Task<T>>, budget: Budget, s: Pool<T>, candidates: seq<nat>)
    requires Safe(tasks, budget, s) && Ascending(candidates) && Bounded(candidates, |tasks|)
    requires forall k :: 0 <= k < |candidates| ==> candidates[k] in s.pending
    ensures var after := FirstFit(tasks, s, candidates);
            && AdmitsInTurn(tasks, budget, s.active, candidates, after.active)
            && forall i :: i in after.pending <==> i in s.pending && i !in after.active
    decreases |candidates|
  {
    PendingNotActive(tasks, budget, s);
    hide Safe, MustWait, Fits, AdmitsInTurn;
    if candidates == [] {
      NoneInTurn(tasks, budget, s.active);
    } else {
      var i, rest := candidates[0], candidates[1..];
      FitsUnlessMustWait(tasks, budget, s, i);
      var s' := if Fits(tasks[i].request, s) then Admitted(tasks, s, i) else s;
      if Fits(tasks[i].request, s) {
        AdmitKeepsSafe(tasks, budget, s, s', i);
      }
      FirstFitAdmitsInTurn(tasks, budget, s', rest);
      InTurnFirst(tasks, budget, s.active, i, rest, FirstFit(tasks, s', rest).active);
      assert candidates == [i] + rest;
    }
  }

  lemma {:induction false} NoneInTurn<T>(tasks: seq<Task<T>>, budget: Budget, active: set<nat>)
    ensures AdmitsInTurn(tasks, budget, active, [], active)
  {
  }

  lemma {:induction false} PendingNotActive<T>(tasks: seq<Task<T>>, budget: Budget, s: Pool<T>)
    requires Safe(tasks, budget, s)
    ensures forall i :: i in s.pending ==> i < |tasks| && i !in s.active
  {
  }

  /** A pass over all pending tasks admits them in turn and leaves only tasks that must wait. */
  lemma {:induction false} PassSaturates<T(!new)>(tasks: seq<Task<T>>, budget: Budget, s: Pool<T>)
    requires Safe(tasks, budget, s) && Bounded(s.pending, |tasks|)
    ensures var after := FirstFit(tasks, s, s.pending);
            && AdmitsInTurn(tasks, budget, s.active, s.pending, after.active)
            && (forall i :: i in after.pending <==> i in s.pending && i !in after.active)
            && Saturated(tasks, budget, after)
  {
    SafeInRange(tasks, budget, s);
    FirstFitAdmitsInTurn(tasks, budget, s, s.pending);
    var after := FirstFit(tasks, s, s.pending);
    hide FirstFit, Safe, MustWait;
    forall i | i in after.pending && i < |tasks|
      ensures MustWait(tasks, budget, after.active, i)
    {
      MustWaitBesideMore(tasks, budget, ActiveAt(s.active, after.active, i), after.active, i);
    }
  }

  lemma {:induction false} FirstFitStep<T>(tasks: seq<Task<T>>, s: Pool<T>, candidates: seq<nat>, k: nat)
    requires Bounded(candidates, |tasks|) && k < |candidates|
    ensures FirstFit(tasks, s, candidates[k..])
         == FirstFit(tasks, if Fits(tasks[candidates[k]].request, s) then Admitted(tasks, s, candidates[k]) else s,
                     candidates[k + 1..])
  {
    assert candidates[k..][1..] == candidates[k + 1..];
  }

  lemma {:induction false} PassEnds<T>(tasks: seq<Task<T>>, s: Pool<T>)
    ensures FirstFit(tasks, s, []) == s
  {
  }

  /** With nothing active everything is free, so after validation no pending task has to wait. */
  lemma {:induction false} IdlePoolFits<T>(tasks: seq<Task<T>>, budget: Budget, s: Pool<T>, i: nat)
    requires Admissible(tasks, budget) && s.active == {} && i < |tasks|
    ensures !MustWait(tasks, budget, s.active, i)
  {
    SumAtEmpty(Cpus(tasks));
    SumAtEmpty(Memories(tasks));
    SumAtEmpty(Gpus(tasks));
  }

  /** The "made no progress" error cannot be raised: a saturated pool with work left is busy. */
  lemma {:induction false} SaturatedPoolIsBusy<T>(tasks: seq<Task<T>>, budget: Budget, s: Pool<T>)
    requires Safe(tasks, budget, s) && Admissible(tasks, budget) && Saturated(tasks, budget, s) && !Finished(s)
    ensures s.active != {}
  {
    if s.active == {} {
      assert s.pending[0] in s.pending;
      IdlePoolFits(tasks, budget, s, s.pending[0]);
    }
  }

  // ---------------------------------------------------------------- the scheduling loop

  /** The members of a set below `n`, in ascending order. */
  function SortedBelow(s: set<nat>, n: nat): (orders: seq<nat>)
    ensures forall k, l :: 0 <= k < l < |orders| ==> orders[k] < orders[l]
    ensures forall k :: 0 <= k < |orders| ==> orders[k] < n && orders[k] in s
    ensures forall i :: i in s && i < n ==> i in orders
  {
    if n == 0 then []
    else SortedBelow(s, n - 1) + if n - 1 in s then [n - 1] else []
  }

  /** One turn of the loop: the positions in the history of its first state and of its wait. */
  datatype Round = Round(start: nat, wait: nat)

  /**
   A wait follows one complete admission pass in declaration order, after which every pending
   task must wait, and has something to wait for.
   */
  ghost predicate ProperRound<T>(tasks: seq<Task<T>>, budget: Budget, trace: seq<Pool<T>>, round: Round)
  {
    && round.start <= round.wait < |trace|
    && var start, wait := trace[round.start], trace[round.wait];
    && Bounded(start.pending, |tasks|)
    && wait == FirstFit(tasks, start, start.pending)
    && AdmitsInTurn(tasks, budget, start.active, start.pending, wait.active)
    && Saturated(tasks, budget, wait)
    && wait.active != {}
  }

  /** Between a wait and the next turn tasks only complete, and at least one does. */
  ghost predicate WellPaced<T>(tasks: seq<Task<T>>, budget: Budget, trace: seq<Pool<T>>, rounds: seq<Round>)
  {
    rounds == [] ||
    var before, last := rounds[..|rounds| - 1], rounds[|rounds| - 1];
    && ProperRound(tasks, budget, trace, last)
    && WellPaced(tasks, budget, trace, before)
    && if before == [] then last.start == 0
       else && before[|before| - 1].wait < last.start
            && trace[before[|before| - 1].wait].pending == trace[last.start].pending
  }

  lemma {:induction false} WellPacedExtends<T>(
    tasks: seq<Task<T>>, budget: Budget, trace: seq<Pool<T>>, trace': seq<Pool<T>>, rounds: seq<Round>)
    requires WellPaced(tasks, budget, trace, rounds) && trace <= trace'
    ensures WellPaced(tasks, budget, trace', rounds)
  {
    if rounds == [] {
    } else {
      WellPacedExtends(tasks, budget, trace, trace', rounds[..|rounds| - 1]);
    }
  }

  /** Where the next turn starts: at the start of the history, or after the last wait. */
  ghost predicate ReadyForTurn<T>(trace: seq<Pool<T>>, rounds: seq<Round>)
  {
    trace != [] &&
    if rounds == [] then |trace| == 1
    else && rounds[|rounds| - 1].wait < |trace| - 1
         && trace[rounds[|rounds| - 1].wait].pending == trace[|trace| - 1].pending
  }

  lemma {:induction false} WellPacedTurn<T>(
    tasks: seq<Task<T>>, budget: Budget, trace: seq<Pool<T>>, trace': seq<Pool<T>>, rounds: seq<Round>, round: Round)
    requires WellPaced(tasks, budget, trace, rounds) && ReadyForTurn(trace, rounds)
    requires trace <= trace' && ProperRound(tasks, budget, trace', round) && round.start == |trace| - 1
    ensures WellPaced(tasks, budget, trace', rounds + [round])
  {
    WellPacedExtends(tasks, budget, trace, trace', rounds);
    var rounds' := rounds + [round];
    assert rounds'[..|rounds'| - 1] == rounds;
  }

  /** The state of the loop, and its history: one entry for every admission and completion. */
  class Scheduler<T(!new)> {
    const tasks: seq<Task<T>>
    const budget: Budget
    var cpu: int
    var memory: int
    var gpu: int
    var locks: set<string>
    var pending: seq<nat>
    var active: set<nat>
    var outcomes: seq<Option<Outcome<T>>>
    ghost var trace: seq<Pool<T>>

    function Snapshot(): Pool<T>
      reads this
    {
      Pool(cpu, memory, gpu, locks, pending, active, outcomes)
    }

    ghost predicate Valid()
      reads this
      ensures Valid() ==> trace != []
    {
      && IsRun(tasks, budget, trace)
      && trace[|trace| - 1] == Snapshot()
      && Safe(tasks, budget, Snapshot())
    }

    constructor (tasks: seq<Task<T>>, budget: Budget)
      ensures this.tasks == tasks && this.budget == budget
      ensures Valid() && trace == [Initial(tasks, budget)]
    {
      this.tasks, this.budget := tasks, budget;
      cpu, memory, gpu, locks := budget.cpu, budget.memory, budget.gpu, {};
      pending, active, outcomes := seq(|tasks|, i => i), {}, seq(|tasks|, _ => None);
      trace := [Initial(tasks, budget)];
      InitiallySafe(tasks, budget);
    }

    /** The outcome table, once every task has one: an outcome for each task, its own. */
    method Results() returns (results: seq<Outcome<T>>)
      requires Valid() && Finished(Snapshot())
      ensures results == Outcomes(tasks)
    {
      var table := outcomes;
      results := seq(|table|, i requires 0 <= i < |table| && table[i].Some? => table[i].value);
    }

    ghost function Remaining(): nat
      reads this
    {
      |pending| + |active|
    }

    /** One turn: an admission pass, a wait for some active tasks to complete, their release. */
    method Turn() returns (ghost round: Round)
      requires Valid() && Admissible(tasks, budget) && !Finished(Snapshot())
      modifies this
      ensures Valid() && old(trace) <= trace
      ensures ProperRound(tasks, budget, trace, round)
      ensures round.start == |old(trace)| - 1 && round.wait < |trace| - 1 && trace[round.wait].pending == pending
      ensures Remaining() < old(Remaining())
    {
      hide Safe, IsRun, Saturated, AdmitsInTurn, Admissible;
      AdmitPending();
      if active == {} {
        SaturatedPoolIsBusy(tasks, budget, Snapshot());
        assert false;  // "resource scheduler made no progress"
      }
      round := Round(|old(trace)| - 1, |trace| - 1);
      var completed: set<nat> :| completed != {} && completed <= active;
      ReleaseAll(completed);
    }

    /** Admits every pending task that fits, trying them in declaration order. */
    method AdmitPending()
      requires Valid()
      modifies this
      ensures Valid() && old(trace) <= trace
      ensures Bounded(old(pending), |tasks|)
      ensures Snapshot() == FirstFit(tasks, old(Snapshot()), old(pending))
      ensures AdmitsInTurn(tasks, budget, old(active), old(pending), active)
      ensures Saturated(tasks, budget, Snapshot())
      ensures Remaining() == old(Remaining())
    {
      hide Safe, IsRun, Saturated, AdmitsInTurn, FirstFit, Fits;
      var candidates := pending;
      ghost var start := Snapshot();
      SafeInRange(tasks, budget, start);
      PassSaturates(tasks, budget, start);
      for k := 0 to |candidates|
        invariant Valid() && old(trace) <= trace
        invariant forall j :: k <= j < |candidates| ==> candidates[j] in pending
        invariant FirstFit(tasks, start, candidates) == FirstFit(tasks, Snapshot(), candidates[k..])
        invariant Remaining() == old(Remaining())
      {
        FirstFitStep(tasks, Snapshot(), candidates, k);
        if Fits(tasks[candidates[k]].request, Snapshot()) {
          Admit(candidates[k]);
        }
      }
      PassEnds(tasks, Snapshot());
    }

    method Admit(order: nat)
      requires Valid() && order in pending && order < |tasks| && Fits(tasks[order].request, Snapshot())
      modifies this
      ensures Valid() && trace == old(trace) + [Snapshot()]
      ensures Snapshot() == Admitted(tasks, old(Snapshot()), order)
      ensures forall i :: i in pending <==> i in old(pending) && i != order
      ensures Remaining() == old(Remaining())
    {
      hide Safe, IsRun;
      ghost var s := Snapshot();
      var request := tasks[order].request;
      pending := Without(pending, order);
      cpu := cpu - request.cpu;
      memory := memory - request.memory;
      gpu := gpu - request.gpu;
      locks := locks + request.locks;
      active := active + {order};

      assert AdmitStep(tasks, s, Snapshot(), order);
      AdmitKeepsSafe(tasks, budget, s, Snapshot(), order);
      RunExtends(tasks, budget, trace, Snapshot());
      trace := trace + [Snapshot()];
    }

    /** Takes the completed tasks out in declaration order and keeps what each one did. */
    method ReleaseAll(completed: set<nat>)
      requires Valid() && completed <= active
      modifies this
      ensures Valid() && old(trace) <= trace
      ensures pending == old(pending)
      ensures completed != {} ==> |trace| > |old(trace)| && Remaining() < old(Remaining())
    {
      SafeInRange(tasks, budget, Snapshot());
      hide Safe, IsRun;
      var orders := SortedBelow(completed, |tasks|);
      assert orders == [] ==> forall i :: i in completed ==> i in orders;
      for k := 0 to |orders|
        invariant Valid() && old(trace) <= trace && |trace| == |old(trace)| + k
        invariant pending == old(pending)
        invariant forall j :: k <= j < |orders| ==> orders[j] in active
        invariant Remaining() + k == old(Remaining())
      {
        Release(orders[k]);
      }
    }

    method Release(order: nat)
      requires Valid() && order in active
      modifies this
      ensures Valid() && trace == old(trace) + [Snapshot()]
      ensures order < |tasks| == |old(outcomes)| && Snapshot() == Completed(tasks, old(Snapshot()), order)
    {
      hide Safe, IsRun;
      ghost var s := Snapshot();
      SafeInRange(tasks, budget, s);
      var request := tasks[order].request;
      active := active - {order};
      cpu := cpu + request.cpu;
      memory := memory + request.memory;
      gpu := gpu + request.gpu;
      locks := locks - request.locks;
      outcomes := outcomes[order := Some(OutcomeOf(tasks[order]))];

      assert CompleteStep(tasks, s, Snapshot(), order);
      CompleteKeepsSafe(tasks, budget, s, Snapshot(), order);
      RunExtends(tasks, budget, trace, Snapshot());
      trace := trace + [Snapshot()];
    }
  }

  /**
   Runs every task once and returns the outcomes in declaration order, whichever tasks each
   wait finds completed. `trace` is the history of the run and `rounds` its turns.
   */
  method RunTasks<T(!new)>(tasks: seq<Task<T>>, budget: Budget)
    returns (result: Result<seq<Outcome<T>>, Error>, ghost trace: seq<Pool<T>>, ghost rounds: seq<Round>)
    ensures result.Success? <==> Admissible(tasks, budget)
    ensures result.Failure? ==> Blames(tasks, budget, result.error)
    ensures result.Success? ==> result.value == Outcomes(tasks)
    ensures IsRun(tasks, budget, trace)
    ensures if result.Success? then Finished(trace[|trace| - 1]) else |trace| == 1
    ensures WellPaced(tasks, budget, trace, rounds) && |rounds| <= |tasks|
  {
    trace, rounds := [Initial(tasks, budget)], [];
    assert WellPaced(tasks, budget, trace, rounds);
    var error := ValidateTasks(tasks, budget);
    if error.Some? {
      return Failure(error.value), trace, rounds;
    }
    hide Safe, IsRun, Admissible, ProperRound, WellPaced;
    var run := new Scheduler(tasks, budget);
    while run.pending != [] || run.active != {}
      invariant run.tasks == tasks && run.budget == budget && run.Valid()
      invariant WellPaced(tasks, budget, run.trace, rounds) && ReadyForTurn(run.trace, rounds)
      invariant |rounds| + run.Remaining() <= |tasks|
      decreases run.Remaining()
    {
      ghost var before := run.trace;
      ghost var round := run.Turn();
      WellPacedTurn(tasks, budget, before, run.trace, rounds, round);
      rounds := rounds + [round];
    }
    trace := run.trace;
    var outcomes := run.Results();
    result := Success(outcomes);
  }
}
