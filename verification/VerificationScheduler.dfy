/**
 Verification plans: commands are grouped into lanes, every lane becomes one scheduled task
 with its share of the CPU budget as its job count, and the lanes' failures are collected.
 */
module VerificationScheduler {
  import opened Wrappers
  import opened Sums
  import opened CpuShares
  import opened ResourceScheduler

  const MAX_COMMANDS := 32
  const MAX_LOG_BYTES := 16 * 1024 * 1024

  datatype Lane = Lane(name: string, request: Request)

  /** What running a command does, and how many bytes it writes to its raw log. */
  datatype Exit =
    | Exited(code: int, logged: nat)
    | NotLaunched(detail: string, logged: nat)
    | LogUnusable(error: string)

  datatype Command = Command(caption: string, lane: Lane, exit: Exit)

  /** What a failure says beside its exit code: its log is incomplete, or the launch failed. */
  datatype Detail = LogIncomplete(logged: nat) | LaunchError(text: string)

  datatype CommandFailure = CommandFailure(caption: string, returncode: Option<int>, detail: Option<Detail>)

  /** A command of the plan started with a `CARGO_BUILD_JOBS` setting. */
  datatype Launch = Launch(index: nat, jobs: nat)

  /** A failure with the plan index of its command. */
  type Entry = (nat, CommandFailure)

  datatype LaneResult = LaneResult(failures: seq<Entry>, skipped: seq<nat>)

  /** The commands of one lane, by their index in the plan. */
  datatype Group = Group(lane: Lane, commands: seq<nat>)

  datatype Resource = Cpu | Memory | Gpu

  datatype PlanError = PlanSize | InconsistentLane(name: string) | Oversized(name: string, resource: Resource)

  // ---------------------------------------------------------------- grouping into lanes

  /** Commands that name the same lane agree on what it holds. */
  ghost predicate Consistent(plan: seq<Command>)
  {
    forall i, j :: 0 <= i < |plan| && 0 <= j < |plan| && plan[i].lane.name == plan[j].lane.name
                   ==> plan[i].lane == plan[j].lane
  }

  ghost predicate LanesFit(plan: seq<Command>, budget: Budget)
  {
    forall i :: 0 <= i < |plan| ==> WithinBudget(plan[i].lane.request, budget)
  }

  /** A group holds, in plan order, exactly the commands below `n` that name its lane. */
  ghost predicate IsGroup(plan: seq<Command>, group: Group, n: nat)
    requires n <= |plan|
  {
    && group.commands != []
    && Ascending(group.commands)
    && (forall i :: i in group.commands ==> i < n && plan[i].lane == group.lane)
    && forall i :: 0 <= i < n && plan[i].lane.name == group.lane.name ==> i in group.commands
  }

  ghost predicate HasLane(groups: seq<Group>, lane: Lane)
  {
    exists g :: 0 <= g < |groups| && groups[g].lane == lane
  }

  /** Distinct lanes in order of first use, together holding every command below `n`. */
  ghost predicate IsGrouping(plan: seq<Command>, groups: seq<Group>, n: nat)
    requires n <= |plan|
  {
    && (forall g :: 0 <= g < |groups| ==> IsGroup(plan, groups[g], n))
    && (forall g, h :: 0 <= g < h < |groups| ==>
                         && groups[g].lane.name != groups[h].lane.name
                         && groups[g].commands[0] < groups[h].commands[0])
    && forall i :: 0 <= i < n ==> HasLane(groups, plan[i].lane)
  }

  function Find(groups: seq<Group>, name: string): (found: Option<nat>)
    ensures found.Some? ==> found.value < |groups| && groups[found.value].lane.name == name
    ensures found.None? ==> forall g :: 0 <= g < |groups| ==> groups[g].lane.name != name
  {
    if groups == [] then None
    else if groups[|groups| - 1].lane.name == name then Some(|groups| - 1)
    else Find(groups[..|groups| - 1], name)
  }

  lemma {:induction false} JoinGroup(plan: seq<Command>, groups: seq<Group>, n: nat, g: nat)
    requires n < |plan| && IsGrouping(plan, groups, n)
    requires g < |groups| && groups[g].lane == plan[n].lane
    ensures IsGrouping(plan, groups[g := Group(groups[g].lane, groups[g].commands + [n])], n + 1)
  {
    var groups' := groups[g := Group(groups[g].lane, groups[g].commands + [n])];
    forall h | 0 <= h < |groups'|
      ensures IsGroup(plan, groups'[h], n + 1)
    {
      assert IsGroup(plan, groups[h], n);
      if h == g {
        GroupTakes(plan, groups[g], n);
      } else {
        assert groups[h].lane.name != groups[g].lane.name;
      }
    }
    forall i | 0 <= i < n + 1
      ensures HasLane(groups', plan[i].lane)
    {
      assert HasLane(groups, plan[i].lane);
      var h :| 0 <= h < |groups| && groups[h].lane == plan[i].lane;
      assert groups'[h].lane == plan[i].lane;
    }
  }

  lemma {:induction false} GroupTakes(plan: seq<Command>, group: Group, n: nat)
    requires n < |plan| && IsGroup(plan, group, n) && group.lane == plan[n].lane
    ensures IsGroup(plan, Group(group.lane, group.commands + [n]), n + 1)
  {
    assert forall k :: 0 <= k < |group.commands| ==> group.commands[k] in group.commands;
  }

  lemma {:induction false} StartGroup(plan: seq<Command>, groups: seq<Group>, n: nat)
    requires n < |plan| && IsGrouping(plan, groups, n)
    requires forall g :: 0 <= g < |groups| ==> groups[g].lane.name != plan[n].lane.name
    ensures IsGrouping(plan, groups + [Group(plan[n].lane, [n])], n + 1)
  {
    var groups' := groups + [Group(plan[n].lane, [n])];
    forall h | 0 <= h < |groups'|
      ensures IsGroup(plan, groups'[h], n + 1)
    {
      if h < |groups| {
        assert IsGroup(plan, groups[h], n);
      } else {
        NoEarlierCommand(plan, groups, n);
      }
    }
    forall i | 0 <= i < n + 1
      ensures HasLane(groups', plan[i].lane)
    {
      if i == n {
        assert groups'[|groups|].lane == plan[i].lane;
      } else {
        assert HasLane(groups, plan[i].lane);
        var h :| 0 <= h < |groups| && groups[h].lane == plan[i].lane;
        assert groups'[h].lane == plan[i].lane;
      }
    }
    forall h | 0 <= h < |groups|
      ensures groups[h].commands[0] < n
    {
      assert IsGroup(plan, groups[h], n);
      assert groups[h].commands[0] in groups[h].commands;
    }
  }

  lemma {:induction false} NoEarlierCommand(plan: seq<Command>, groups: seq<Group>, n: nat)
    requires n < |plan| && IsGrouping(plan, groups, n)
    requires forall g :: 0 <= g < |groups| ==> groups[g].lane.name != plan[n].lane.name
    ensures forall i :: 0 <= i < n ==> plan[i].lane.name != plan[n].lane.name
  {
    forall i | 0 <= i < n
      ensures plan[i].lane.name != plan[n].lane.name
    {
      assert HasLane(groups, plan[i].lane);
    }
  }

  lemma {:induction false} GroupingIsConsistent(plan: seq<Command>, groups: seq<Group>)
    requires IsGrouping(plan, groups, |plan|)
    ensures Consistent(plan)
  {
    forall i, j | 0 <= i < |plan| && 0 <= j < |plan| && plan[i].lane.name == plan[j].lane.name
      ensures plan[i].lane == plan[j].lane
    {
      assert HasLane(groups, plan[i].lane) && HasLane(groups, plan[j].lane);
      var g :| 0 <= g < |groups| && groups[g].lane == plan[i].lane;
      var h :| 0 <= h < |groups| && groups[h].lane == plan[j].lane;
      assert IsGroup(plan, groups[g], |plan|) && IsGroup(plan, groups[h], |plan|);
    }
  }

  lemma {:induction false} TwoLanesOneName(plan: seq<Command>, groups: seq<Group>, n: nat, g: nat)
    requires n < |plan| && IsGrouping(plan, groups, n) && g < |groups|
    requires groups[g].lane.name == plan[n].lane.name && groups[g].lane != plan[n].lane
    ensures !Consistent(plan)
  {
    assert IsGroup(plan, groups[g], n) && groups[g].commands[0] in groups[g].commands;
  }

  method GroupLanes(plan: seq<Command>) returns (result: Result<seq<Group>, PlanError>)
    ensures result.Success? ==> IsGrouping(plan, result.value, |plan|)
    ensures result.Success? <==> Consistent(plan)
    ensures result.Failure? ==> result.error.InconsistentLane?
  {
    var groups: seq<Group> := [];
    assert IsGrouping(plan, [], 0);
    hide IsGrouping, IsGroup, Consistent;
    for index := 0 to |plan|
      invariant IsGrouping(plan, groups, index)
    {
      var lane := plan[index].lane;
      var existing := Find(groups, lane.name);
      if existing.None? {
        StartGroup(plan, groups, index);
        groups := groups + [Group(lane, [index])];
        continue;
      }
      var g := existing.value;
      if groups[g].lane != lane {
        TwoLanesOneName(plan, groups, index, g);
        return Failure(InconsistentLane(lane.name));
      }
      JoinGroup(plan, groups, index, g);
      groups := groups[g := Group(lane, groups[g].commands + [index])];
    }
    GroupingIsConsistent(plan, groups);
    return Success(groups);
  }

  /** Groups the commands, then rejects the first lane that asks for more than the budget. */
  method ValidateLanes(plan: seq<Command>, budget: Budget) returns (result: Result<seq<Group>, PlanError>)
    ensures result.Success? ==> IsGrouping(plan, result.value, |plan|)
    ensures result.Failure? && result.error.Oversized? ==>
              exists i :: 0 <= i < |plan| && plan[i].lane.name == result.error.name
                          && !WithinBudget(plan[i].lane.request, budget)
    ensures result.Success? <==> Consistent(plan) && LanesFit(plan, budget)
    ensures result.Failure? ==> if Consistent(plan) then result.error.Oversized? else result.error.InconsistentLane?
  {
    result := GroupLanes(plan);
    if result.Failure? {
      return;
    }
    var groups := result.value;
    for g := 0 to |groups|
      invariant forall h :: 0 <= h < g ==> WithinBudget(groups[h].lane.request, budget)
    {
      var request := groups[g].lane.request;
      assert IsGroup(plan, groups[g], |plan|) && groups[g].commands[0] in groups[g].commands;
      if request.cpu > budget.cpu {
        return Failure(Oversized(groups[g].lane.name, Cpu));
      }
      if request.memory > budget.memory {
        return Failure(Oversized(groups[g].lane.name, Memory));
      }
      if request.gpu > budget.gpu {
        return Failure(Oversized(groups[g].lane.name, Gpu));
      }
    }
    forall i | 0 <= i < |plan|
      ensures WithinBudget(plan[i].lane.request, budget)
    {
      assert HasLane(groups, plan[i].lane);
    }
  }

  // ---------------------------------------------------------------- job counts

  function CpuRequests(lanes: seq<Lane>): (requests: seq<nat>)
    ensures |requests| == |lanes|
  {
    seq(|lanes|, i requires 0 <= i < |lanes| => lanes[i].request.cpu)
  }

  ghost predicate DistinctLanes(lanes: seq<Lane>)
  {
    forall i, j :: 0 <= i < j < |lanes| ==> lanes[i].name != lanes[j].name
  }

  /** `allocations` gives every lane its share, by name, and nothing else. */
  ghost predicate Allocates(lanes: seq<Lane>, allocations: map<string, nat>, shares: seq<nat>)
    requires |shares| == |lanes|
  {
    && (forall i :: 0 <= i < |lanes| ==> lanes[i].name in allocations && allocations[lanes[i].name] == shares[i])
    && forall name :: name in allocations ==> exists i :: 0 <= i < |lanes| && lanes[i].name == name
  }

  function ByName(lanes: seq<Lane>, shares: seq<nat>): (allocations: map<string, nat>)
    requires DistinctLanes(lanes) && |shares| == |lanes|
    ensures Allocates(lanes, allocations, shares)
  {
    map i | 0 <= i < |lanes| :: lanes[i].name := shares[i]
  }

  /** Raising the next winner's entry by one allocates the next step of the apportionment. */
  lemma {:induction false} BumpAllocates(
    lanes: seq<Lane>, allocations: map<string, nat>, floors: seq<nat>, winners: seq<nat>, k: nat)
    requires DistinctLanes(lanes) && |floors| == |lanes|
    requires k < |winners| && forall l :: 0 <= l < |winners| ==> winners[l] < |lanes|
    requires Allocates(lanes, allocations, Bumped(floors, winners[..k]))
    ensures var name := lanes[winners[k]].name;
            name in allocations
            && Allocates(lanes, allocations[name := allocations[name] + 1], Bumped(floors, winners[..k + 1]))
  {
    var shares := Bumped(floors, winners[..k]);
    BumpedNext(floors, winners, k);
    BumpEntry(lanes, allocations, shares, winners[k]);
  }

  lemma {:induction false} BumpEntry(lanes: seq<Lane>, allocations: map<string, nat>, shares: seq<nat>, i: nat)
    requires DistinctLanes(lanes) && |shares| == |lanes| && Allocates(lanes, allocations, shares) && i < |lanes|
    ensures lanes[i].name in allocations
    ensures Allocates(lanes, allocations[lanes[i].name := allocations[lanes[i].name] + 1], shares[i := shares[i] + 1])
  {
  }

  /** The job count of every lane: the largest-remainder shares, by lane name. */
  method CpuAllocations(lanes: seq<Lane>, budget: Budget) returns (allocations: map<string, nat>)
    requires DistinctLanes(lanes)
    ensures Allocates(lanes, allocations, Shares(CpuRequests(lanes), budget.cpu))
  {
    hide Allocates, CpuRequests, Sum, Floors, Remainders, Ranking, Leftover, DistinctLanes;
    var requests := CpuRequests(lanes);
    var total := Sum(requests);
    if total >= budget.cpu || total == 0 {
      return ByName(lanes, requests);
    }
    var floors := Floors(requests, budget.cpu, total);
    allocations := ByName(lanes, floors);
    var remaining := Leftover(requests, budget.cpu);
    var byRemainder := Ranking(Remainders(requests, budget.cpu, total), |lanes|);
    for k := 0 to remaining
      invariant Allocates(lanes, allocations, Bumped(floors, byRemainder[..k]))
    {
      var name := lanes[byRemainder[k]].name;
      BumpAllocates(lanes, allocations, floors, byRemainder, k);
      allocations := allocations[name := allocations[name] + 1];
    }
  }

  // ---------------------------------------------------------------- running one lane

  /** The command ran to a zero exit, and its log was kept. */
  predicate Succeeds(command: Command)
  {
    command.exit.Exited? && command.exit.code == 0 && command.exit.logged <= MAX_LOG_BYTES
  }

  /** The failure a command is reported with; a log over the limit overrides its own result. */
  function FailureOf(command: Command): Option<CommandFailure>
  {
    match command.exit
    case LogUnusable(_) => None
    case Exited(code, logged) =>
      if logged > MAX_LOG_BYTES then Some(CommandFailure(command.caption, None, Some(LogIncomplete(logged))))
      else if code != 0 then Some(CommandFailure(command.caption, Some(code), None))
      else None
    case NotLaunched(text, logged) =>
      if logged > MAX_LOG_BYTES then Some(CommandFailure(command.caption, None, Some(LogIncomplete(logged))))
      else Some(CommandFailure(command.caption, None, Some(LaunchError(text))))
  }

  /**
   What a failure says of its command: it carries the exit code exactly if the command exited with
   another than zero within the log limit, that the log is incomplete exactly if it is over the
   limit, and else why the command was not launched.
   */
  ghost predicate ReportsExit(command: Command, failure: CommandFailure)
  {
    && !Succeeds(command) && !command.exit.LogUnusable?
    && failure.caption == command.caption
    && var complete := command.exit.logged <= MAX_LOG_BYTES;
    && (failure.returncode.Some? <==> complete && command.exit.Exited? && command.exit.code != 0)
    && (failure.returncode.Some? ==> failure.returncode.value == command.exit.code)
    && (failure.detail.Some? <==> !complete || command.exit.NotLaunched?)
    && (failure.detail.Some? ==>
          failure.detail.value == if complete then LaunchError(command.exit.detail)
                                  else LogIncomplete(command.exit.logged))
  }

  /** What running the commands in turn comes to. */
  function LaneWork(plan: seq<Command>, commands: seq<nat>): Work<LaneResult>
    requires forall k :: 0 <= k < |commands| ==> commands[k] < |plan|
  {
    if commands == [] then Returns(LaneResult([], []))
    else
      var command := plan[commands[0]];
      if command.exit.LogUnusable? then Raises(command.exit.error)
      else if FailureOf(command).Some? then
                Returns(LaneResult([(commands[0], FailureOf(command).value)], commands[1..]))
      else LaneWork(plan, commands[1..])
  }

  /** Runs commands in order up to the first that stops the lane, each with the lane's job count. */
  method RunLane(plan: seq<Command>, commands: seq<nat>, jobs: nat)
    returns (work: Work<LaneResult>, launches: seq<Launch>)
    requires forall k :: 0 <= k < |commands| ==> commands[k] < |plan|
    ensures work == LaneWork(plan, commands)
    ensures |launches| <= |commands|
    ensures forall k :: 0 <= k < |launches| ==> launches[k] == Launch(commands[k], jobs)
    ensures forall k :: 0 <= k < |commands| && k < |launches| - 1 ==> Succeeds(plan[commands[k]])
    ensures |launches| < |commands| ==> |launches| > 0 && !Succeeds(plan[commands[|launches| - 1]])
  {
    launches := [];
    for position := 0 to |commands|
      invariant LaneWork(plan, commands) == LaneWork(plan, commands[position..])
      invariant |launches| == position
      invariant forall k :: 0 <= k < position ==>
                  launches[k] == Launch(commands[k], jobs) && Succeeds(plan[commands[k]])
    {
      var index := commands[position];
      var command := plan[index];
      launches := launches + [Launch(index, jobs)];
      if command.exit.LogUnusable? {
        return Raises(command.exit.error), launches;
      }
      var failure := FailureOf(command);
      if failure.Some? {
        return Returns(LaneResult([(index, failure.value)], commands[position + 1..])), launches;
      }
    }
    work := Returns(LaneResult([], []));
  }

  // ---------------------------------------------------------------- what a lane's work means

  /** Command `k` of the lane is the first that stops it. */
  ghost predicate FirstStop(plan: seq<Command>, commands: seq<nat>, k: nat)
    requires forall j :: 0 <= j < |commands| ==> commands[j] < |plan|
  {
    k < |commands| && !Succeeds(plan[commands[k]]) && forall j :: 0 <= j < k ==> Succeeds(plan[commands[j]])
  }

  /** How the work of a lane whose first stop is command `k` must have ended. */
  ghost predicate EndsAt(plan: seq<Command>, commands: seq<nat>, k: nat, work: Work<LaneResult>)
    requires forall j :: 0 <= j < |commands| ==> commands[j] < |plan|
    requires k < |commands|
  {
    var command := plan[commands[k]];
    if command.exit.LogUnusable? then work == Raises(command.exit.error)
    else exists failure :: && ReportsExit(command, failure)
                           && work == Returns(LaneResult([(commands[k], failure)], commands[k + 1..]))
  }

  lemma {:induction false} LaneWorkMeaning(plan: seq<Command>, commands: seq<nat>)
    requires forall j :: 0 <= j < |commands| ==> commands[j] < |plan|
    ensures var work := LaneWork(plan, commands);
            || (work == Returns(LaneResult([], [])) && forall j :: 0 <= j < |commands| ==> Succeeds(plan[commands[j]]))
            || exists k :: FirstStop(plan, commands, k) && EndsAt(plan, commands, k, work)
  {
    if commands == [] {
    } else {
      if !Succeeds(plan[commands[0]]) {
        assert FirstStop(plan, commands, 0) && EndsAt(plan, commands, 0, LaneWork(plan, commands));
      } else {
        var rest := commands[1..];
        LaneWorkMeaning(plan, rest);
        var work := LaneWork(plan, rest);
        if k: nat :| FirstStop(plan, rest, k) && EndsAt(plan, rest, k, work) {
          assert rest[k + 1..] == commands[k + 2..];
          assert FirstStop(plan, commands, k + 1) && EndsAt(plan, commands, k + 1, work);
        }
      }
    }
  }

  /** Command `i` is the one that stops its lane: no earlier command of the lane does. */
  ghost predicate StopsLane(plan: seq<Command>, i: nat)
  {
    && i < |plan| && !Succeeds(plan[i])
    && forall j :: 0 <= j < i && plan[j].lane.name == plan[i].lane.name ==> Succeeds(plan[j])
  }

  lemma {:induction false} FirstStopIsStopsLane(plan: seq<Command>, group: Group, k: nat)
    requires IsGroup(plan, group, |plan|) && k < |group.commands|
    requires forall j :: 0 <= j < |group.commands| ==> group.commands[j] < |plan|
    ensures FirstStop(plan, group.commands, k) <==> StopsLane(plan, group.commands[k])
  {
    var i := group.commands[k];
    assert i in group.commands;
    if FirstStop(plan, group.commands, k) {
      forall j | 0 <= j < i && plan[j].lane.name == plan[i].lane.name
        ensures Succeeds(plan[j])
      {
        var l :| 0 <= l < |group.commands| && group.commands[l] == j;
      }
    }
    if StopsLane(plan, i) {
      forall j | 0 <= j < k
        ensures Succeeds(plan[group.commands[j]])
      {
        assert group.commands[j] in group.commands;
      }
    }
  }

  // ---------------------------------------------------------------- running a plan

  ghost predicate InPlan(plan: seq<Command>, groups: seq<Group>)
  {
    forall g, k :: 0 <= g < |groups| && 0 <= k < |groups[g].commands| ==> groups[g].commands[k] < |plan|
  }

  lemma {:induction false} GroupingInPlan(plan: seq<Command>, groups: seq<Group>)
    requires IsGrouping(plan, groups, |plan|)
    ensures InPlan(plan, groups)
  {
    forall g, k | 0 <= g < |groups| && 0 <= k < |groups[g].commands|
      ensures groups[g].commands[k] < |plan|
    {
      assert IsGroup(plan, groups[g], |plan|) && groups[g].commands[k] in groups[g].commands;
    }
  }

  function LanesOf(groups: seq<Group>): (lanes: seq<Lane>)
    ensures |lanes| == |groups| && forall g :: 0 <= g < |groups| ==> lanes[g] == groups[g].lane
  {
    seq(|groups|, g requires 0 <= g < |groups| => groups[g].lane)
  }

  /** The scheduled task of every lane, under the lane's name and resources. */
  ghost function TasksOf(plan: seq<Command>, groups: seq<Group>): (tasks: seq<Task<LaneResult>>)
    requires InPlan(plan, groups)
    ensures |tasks| == |groups|
  {
    seq(|groups|, g requires 0 <= g < |groups| =>
      Task(groups[g].lane.name, groups[g].lane.request, LaneWork(plan, groups[g].commands)))
  }

  ghost function JobsOf(groups: seq<Group>, budget: Budget): (jobs: seq<nat>)
    ensures |jobs| == |groups|
  {
    Shares(CpuRequests(LanesOf(groups)), budget.cpu)
  }

  /**
   The budget rule for job counts: in every state of every run of a plan's lanes, the
   `CARGO_BUILD_JOBS` of the lanes running at once add up to at most the CPU budget.
   */
  lemma {:induction false} RunningJobsFitBudget(
    plan: seq<Command>, groups: seq<Group>, budget: Budget, trace: seq<Pool<LaneResult>>, k: nat)
    requires InPlan(plan, groups)
    requires IsRun(TasksOf(plan, groups), budget, trace) && k < |trace|
    ensures SumAt(JobsOf(groups, budget), trace[k].active) <= budget.cpu
  {
    var requests := CpuRequests(LanesOf(groups));
    var jobs := Shares(requests, budget.cpu);
    EveryReachableStateIsSafe(TasksOf(plan, groups), budget, trace, k);
    if 0 < Sum(requests) < budget.cpu {
      SharesSpendTheBudget(requests, budget.cpu);
      SumAtBounded(jobs, trace[k].active);
    } else {
      assert Cpus(TasksOf(plan, groups)) == requests;
    }
  }

  /** The lane's commands launched so far, in order, each with `jobs` as its job count. */
  ghost predicate Launched(group: Group, jobs: nat, started: seq<Launch>)
  {
    && |started| <= |group.commands|
    && forall k :: 0 <= k < |started| ==> started[k] == Launch(group.commands[k], jobs)
  }

  /** Binds every lane to its commands and its job count. */
  method PrepareTasks(plan: seq<Command>, groups: seq<Group>, budget: Budget)
    returns (tasks: seq<Task<LaneResult>>, launches: seq<seq<Launch>>)
    requires InPlan(plan, groups) && DistinctLanes(LanesOf(groups))
    ensures tasks == TasksOf(plan, groups)
    ensures |launches| == |groups|
    ensures forall g :: 0 <= g < |groups| ==> Launched(groups[g], JobsOf(groups, budget)[g], launches[g])
  {
    hide Allocates, LaneWork, Shares, DistinctLanes;
    var lanes := LanesOf(groups);
    var allocations := CpuAllocations(lanes, budget);
    tasks, launches := [], [];
    for g := 0 to |groups|
      invariant tasks == TasksOf(plan, groups)[..g]
      invariant |launches| == g
      invariant forall h :: 0 <= h < g ==> Launched(groups[h], JobsOf(groups, budget)[h], launches[h])
    {
      var lane := groups[g].lane;
      AllocationAt(lanes, allocations, JobsOf(groups, budget), g);
      var work, started := RunLane(plan, groups[g].commands, allocations[lane.name]);
      tasks := tasks + [Task(lane.name, lane.request, work)];
      launches := launches + [started];
    }
  }

  lemma {:induction false} AllocationAt(lanes: seq<Lane>, allocations: map<string, nat>, shares: seq<nat>, i: nat)
    requires |shares| == |lanes| && Allocates(lanes, allocations, shares) && i < |lanes|
    ensures lanes[i].name in allocations && allocations[lanes[i].name] == shares[i]
  {
  }

  // ---------------------------------------------------------------- collecting the lanes' failures

  /** Failures by ascending plan index. */
  predicate InPlanOrder(failures: seq<Entry>)
  {
    forall a, b :: 0 <= a < b < |failures| ==> failures[a].0 < failures[b].0
  }

  function InsertFailure(failures: seq<Entry>, entry: Entry): (sorted: seq<Entry>)
    ensures forall e: Entry :: e in sorted <==> e == entry || e in failures
    ensures InPlanOrder(failures) && (forall e: Entry :: e in failures ==> e.0 != entry.0) ==> InPlanOrder(sorted)
  {
    if failures == [] || entry.0 < failures[0].0 then
      [entry] + failures
    else
      var rest := InsertFailure(failures[1..], entry);
      assert forall e: Entry :: e in failures <==> e == failures[0] || e in failures[1..];
      assert InPlanOrder(failures) ==> forall b :: 0 <= b < |failures[1..]| ==> failures[0].0 < failures[1..][b].0;
      assert forall b :: 0 <= b < |rest| ==> rest[b] in rest;
      [failures[0]] + rest
  }

  function SortFailures(entries: seq<Entry>): (sorted: seq<Entry>)
    ensures forall e: Entry :: e in sorted <==> e in entries
    ensures DistinctIndices(entries) ==> InPlanOrder(sorted)
  {
    if entries == [] then []
    else
      var last := entries[|entries| - 1];
      var init := entries[..|entries| - 1];
      assert forall e: Entry :: e in entries <==> e == last || e in init;
      InsertFailure(SortFailures(init), last)
  }

  predicate DistinctIndices(entries: seq<Entry>)
  {
    forall a, b :: 0 <= a < b < |entries| ==> entries[a].0 != entries[b].0
  }

  datatype PlanResult =
    | Passed
    | Failed(failures: seq<Entry>)
    | Unexpected(error: string)

  /** `e` is the failure of a command that stops its lane. */
  ghost predicate IsLaneFailure(plan: seq<Command>, e: Entry)
  {
    StopsLane(plan, e.0) && ReportsExit(plan[e.0], e.1)
  }

  /** The failures a plan is reported with: of the commands that stop their lanes, and no others. */
  ghost predicate ReportsFailures(plan: seq<Command>, failures: seq<Entry>)
  {
    InPlanOrder(failures) && forall e: Entry :: e in failures <==> IsLaneFailure(plan, e)
  }

  /** The command comes after one of its lane that failed, so it was never launched. */
  ghost predicate IsSkipped(plan: seq<Command>, i: nat)
  {
    i < |plan| &&
    exists j :: 0 <= j < i && plan[j].lane == plan[i].lane && StopsLane(plan, j) && !plan[j].exit.LogUnusable?
  }

  function FailuresIn(work: Work<LaneResult>): seq<Entry>
  {
    if work.Returns? then work.value.failures else []
  }

  function SkippedIn(work: Work<LaneResult>): seq<nat>
  {
    if work.Returns? then work.value.skipped else []
  }

  /** Command `i` stops its lane by raising `error`. */
  ghost predicate LaneRaises(plan: seq<Command>, i: nat, error: string)
  {
    StopsLane(plan, i) && plan[i].exit == LogUnusable(error)
  }

  /** A lane stops at no more than one command. */
  lemma {:induction false} OneStop(plan: seq<Command>, i: nat, j: nat)
    requires StopsLane(plan, i) && StopsLane(plan, j) && plan[i].lane.name == plan[j].lane.name
    ensures i == j
  {
  }

  /** How the work of a lane reads in terms of the plan: either nothing stops it, or one command does. */
  lemma {:induction false} LaneStop(plan: seq<Command>, group: Group) returns (stop: Option<nat>)
    requires IsGroup(plan, group, |plan|)
    requires forall j :: 0 <= j < |group.commands| ==> group.commands[j] < |plan|
    ensures stop.None? ==> && LaneWork(plan, group.commands) == Returns(LaneResult([], []))
                           && forall i :: i in group.commands ==> !StopsLane(plan, i)
    ensures stop.Some? ==> && stop.value < |group.commands|
                           && StopsLane(plan, group.commands[stop.value])
                           && EndsAt(plan, group.commands, stop.value, LaneWork(plan, group.commands))
  {
    var commands, work := group.commands, LaneWork(plan, group.commands);
    LaneWorkMeaning(plan, commands);
    if k: nat :| FirstStop(plan, commands, k) && EndsAt(plan, commands, k, work) {
      FirstStopIsStopsLane(plan, group, k);
      return Some(k);
    }
    return None;
  }

  /** A lane's work holds the failure of the command that stops it, or raises, and nothing else. */
  lemma {:induction false} LaneReport(plan: seq<Command>, group: Group)
    requires IsGroup(plan, group, |plan|)
    requires forall j :: 0 <= j < |group.commands| ==> group.commands[j] < |plan|
    ensures var work := LaneWork(plan, group.commands);
            && |FailuresIn(work)| <= 1
            && (forall e: Entry :: e in FailuresIn(work) <==> e.0 in group.commands && IsLaneFailure(plan, e))
            && (work.Returns? <==> forall i :: i in group.commands && StopsLane(plan, i) ==> !plan[i].exit.LogUnusable?)
            && (work.Raises? ==> exists i :: i in group.commands && LaneRaises(plan, i, work.error))
  {
    var stop := LaneStop(plan, group);
    hide LaneWork;
    if stop.Some? {
      var stopper := group.commands[stop.value];
      assert stopper in group.commands;
      forall i | i in group.commands && StopsLane(plan, i)
        ensures i == stopper
      {
        OneStop(plan, i, stopper);
      }
    }
  }

  /** The commands a lane skips are exactly those after a failed command of that lane. */
  lemma {:induction false} LaneSkips(plan: seq<Command>, group: Group)
    requires IsGroup(plan, group, |plan|) && Consistent(plan)
    requires forall j :: 0 <= j < |group.commands| ==> group.commands[j] < |plan|
    ensures forall i :: i in SkippedIn(LaneWork(plan, group.commands)) <==> i in group.commands && IsSkipped(plan, i)
  {
    var commands := group.commands;
    var stop := LaneStop(plan, group);
    hide LaneWork, Succeeds, StopsLane, FailureOf, ReportsExit;
    if stop.Some? {
      var k := stop.value;
      assert commands[k] in commands;
      forall i | i in commands
        ensures i in commands[k + 1..] <==> i > commands[k]
        ensures IsSkipped(plan, i) <==> i > commands[k] && !plan[commands[k]].exit.LogUnusable?
      {
        var l :| 0 <= l < |commands| && commands[l] == i;
        assert l > k ==> commands[k + 1..][l - k - 1] == i;
        if j: nat :| j < i && plan[j].lane == plan[i].lane && StopsLane(plan, j) {
          OneStop(plan, j, commands[k]);
        }
      }
    } else {
      forall i, j: nat | i in commands && j < i && plan[j].lane == plan[i].lane
        ensures !StopsLane(plan, j)
      {
        assert j in commands;
      }
    }
  }

  /** The entries collected from the first `n` lanes: one for each of their failures. */
  ghost predicate Collected(plan: seq<Command>, groups: seq<Group>, n: nat, entries: seq<Entry>)
    requires n <= |groups|
  {
    && DistinctIndices(entries)
    && forall e: Entry :: e in entries <==> IsLaneFailure(plan, e) && HasLane(groups[..n], plan[e.0].lane)
  }

  lemma {:induction false} HasLaneNext(groups: seq<Group>, n: nat, lane: Lane)
    requires n < |groups|
    ensures HasLane(groups[..n + 1], lane) <==> HasLane(groups[..n], lane) || lane == groups[n].lane
  {
    assert groups[..n + 1][n] == groups[n];
    assert forall h :: 0 <= h < n ==> groups[..n + 1][h] == groups[..n][h];
  }

  lemma {:induction false} CollectNext(
    plan: seq<Command>, groups: seq<Group>, n: nat, entries: seq<Entry>, work: Work<LaneResult>)
    requires IsGrouping(plan, groups, |plan|) && InPlan(plan, groups)
    requires n < |groups| && work == LaneWork(plan, groups[n].commands)
    requires Collected(plan, groups, n, entries)
    ensures Collected(plan, groups, n + 1, entries + FailuresIn(work))
  {
    var added := FailuresIn(work);
    assert IsGroup(plan, groups[n], |plan|);
    LaneReport(plan, groups[n]);
    assert !HasLane(groups[..n], groups[n].lane);
    hide IsGrouping, LaneWork, IsLaneFailure, HasLane;
    forall lane
      ensures HasLane(groups[..n + 1], lane) <==> HasLane(groups[..n], lane) || lane == groups[n].lane
    {
      HasLaneNext(groups, n, lane);
    }
    forall e: Entry | IsLaneFailure(plan, e)
      ensures e.0 < |plan| && (e.0 in groups[n].commands <==> plan[e.0].lane == groups[n].lane)
    {
      LaneFailureInPlan(plan, e);
    }
    assert DistinctIndices(entries + added);
  }

  lemma {:induction false} LaneFailureInPlan(plan: seq<Command>, e: Entry)
    requires IsLaneFailure(plan, e)
    ensures e.0 < |plan|
  {
  }

  /** Some command stops its lane because its log cannot be kept. */
  ghost predicate SomeLaneRaises(plan: seq<Command>)
  {
    exists i: nat :: StopsLane(plan, i) && plan[i].exit.LogUnusable?
  }

  ghost function WorkOf(plan: seq<Command>, groups: seq<Group>, g: nat): Work<LaneResult>
    requires InPlan(plan, groups) && g < |groups|
  {
    LaneWork(plan, groups[g].commands)
  }

  /**
   Lane `g` raises `error`, in the command that stops it, and no lane before it raises.
   */
  ghost predicate FirstRaise(plan: seq<Command>, groups: seq<Group>, g: nat, error: string)
    requires g < |groups|
  {
    && (exists i: nat :: LaneRaises(plan, i, error) && plan[i].lane.name == groups[g].lane.name)
    && forall h, i: nat :: 0 <= h < g && StopsLane(plan, i) && plan[i].lane.name == groups[h].lane.name
                           ==> !plan[i].exit.LogUnusable?
  }

  lemma {:induction false} FirstRaiseIsRaise(plan: seq<Command>, groups: seq<Group>, g: nat, error: string)
    requires g < |groups| && FirstRaise(plan, groups, g, error)
    ensures SomeLaneRaises(plan)
  {
    var i: nat :| LaneRaises(plan, i, error) && plan[i].lane.name == groups[g].lane.name;
  }

  /** That is what the lanes' work says. */
  lemma {:induction false} FirstRaiseOfWork(plan: seq<Command>, groups: seq<Group>, g: nat)
    requires IsGrouping(plan, groups, |plan|) && InPlan(plan, groups) && g < |groups|
    requires WorkOf(plan, groups, g).Raises? && forall h :: 0 <= h < g ==> WorkOf(plan, groups, h).Returns?
    ensures FirstRaise(plan, groups, g, WorkOf(plan, groups, g).error)
  {
    assert IsGroup(plan, groups[g], |plan|);
    LaneReport(plan, groups[g]);
    forall h, i: nat | 0 <= h < g && StopsLane(plan, i) && plan[i].lane.name == groups[h].lane.name
      ensures !plan[i].exit.LogUnusable?
    {
      assert IsGroup(plan, groups[h], |plan|) && WorkOf(plan, groups, h).Returns?;
      LaneReport(plan, groups[h]);
    }
  }

  /** Which result the plan's outcomes come to; an exception of an earlier lane wins. */
  method CollectResults(plan: seq<Command>, groups: seq<Group>, outcomes: seq<Outcome<LaneResult>>)
    returns (result: PlanResult)
    requires IsGrouping(plan, groups, |plan|) && InPlan(plan, groups)
    requires outcomes == Outcomes(TasksOf(plan, groups))
    ensures result.Unexpected? <==> SomeLaneRaises(plan)
    ensures result.Unexpected? ==> exists g :: 0 <= g < |groups| && FirstRaise(plan, groups, g, result.error)
    ensures result.Failed? ==> result.failures != [] && ReportsFailures(plan, result.failures)
    ensures result.Passed? ==> ReportsFailures(plan, [])
  {
    hide LaneWork, IsGrouping, InPlan, StopsLane, Collected, FirstRaise;
    var unexpected: Option<string> := None;
    var entries: seq<Entry> := [];
    CollectNone(plan, groups);
    for order := 0 to |outcomes|
      invariant Collected(plan, groups, order, entries)
      invariant unexpected.None? ==> forall h :: 0 <= h < order ==> WorkOf(plan, groups, h).Returns?
      invariant unexpected.Some? ==> exists g :: 0 <= g < order && FirstRaise(plan, groups, g, unexpected.value)
    {
      var outcome := outcomes[order];
      ghost var work := WorkOf(plan, groups, order);
      assert outcome == OutcomeOf(Task(groups[order].lane.name, groups[order].lane.request, work));
      CollectNext(plan, groups, order, entries, work);
      if outcome.error.Some? {
        if unexpected.None? {
          unexpected := outcome.error;
          FirstRaiseOfWork(plan, groups, order);
        }
        assert entries + FailuresIn(work) == entries;
      } else {
        entries := entries + outcome.value.value.failures;
      }
    }
    if unexpected.Some? {
      ghost var g: nat :| g < |groups| && FirstRaise(plan, groups, g, unexpected.value);
      FirstRaiseIsRaise(plan, groups, g, unexpected.value);
      return Unexpected(unexpected.value);
    }
    RaiseIsReported(plan, groups);
    CollectedAll(plan, groups, entries);
    var failures := SortFailures(entries);
    return if failures == [] then Passed else Failed(failures);
  }

  lemma {:induction false} CollectNone(plan: seq<Command>, groups: seq<Group>)
    ensures Collected(plan, groups, 0, [])
  {
  }

  lemma {:induction false} CollectedAll(plan: seq<Command>, groups: seq<Group>, entries: seq<Entry>)
    requires IsGrouping(plan, groups, |plan|) && Collected(plan, groups, |groups|, entries)
    ensures DistinctIndices(entries) && forall e: Entry :: e in entries <==> IsLaneFailure(plan, e)
  {
    assert groups[..|groups|] == groups;
  }

  lemma {:induction false} RaiseIsReported(plan: seq<Command>, groups: seq<Group>)
    requires IsGrouping(plan, groups, |plan|) && InPlan(plan, groups)
    ensures SomeLaneRaises(plan) <==> exists g :: 0 <= g < |groups| && WorkOf(plan, groups, g).Raises?
  {
    forall g | 0 <= g < |groups|
      ensures WorkOf(plan, groups, g).Raises? <==>
              exists i :: i in groups[g].commands && StopsLane(plan, i) && plan[i].exit.LogUnusable?
    {
      assert IsGroup(plan, groups[g], |plan|);
      LaneReport(plan, groups[g]);
    }
    if i: nat :| StopsLane(plan, i) && plan[i].exit.LogUnusable? {
      assert HasLane(groups, plan[i].lane);
      var g :| 0 <= g < |groups| && groups[g].lane == plan[i].lane;
      assert IsGroup(plan, groups[g], |plan|) && i in groups[g].commands;
      assert WorkOf(plan, groups, g).Raises?;
    }
  }

  lemma {:induction false} SomeCommandStopsFirst(plan: seq<Command>, i: nat)
    requires i < |plan| && !Succeeds(plan[i])
    ensures exists j: nat :: StopsLane(plan, j)
  {
    if j :| 0 <= j < i && !Succeeds(plan[j]) {
      SomeCommandStopsFirst(plan, j);
    } else {
      assert StopsLane(plan, i);
    }
  }

  lemma {:induction false} PassedMeansAllSucceed(plan: seq<Command>)
    requires ReportsFailures(plan, []) && !SomeLaneRaises(plan)
    ensures forall i :: 0 <= i < |plan| ==> Succeeds(plan[i])
  {
    if i: nat :| i < |plan| && !Succeeds(plan[i]) {
      SomeCommandStopsFirst(plan, i);
      var j: nat :| StopsLane(plan, j);
      var entry: Entry := (j, FailureOf(plan[j]).value);
      assert IsLaneFailure(plan, entry);
    }
  }

  lemma {:induction false} GroupedLanesAreAdmissible(plan: seq<Command>, groups: seq<Group>, budget: Budget)
    requires IsGrouping(plan, groups, |plan|) && LanesFit(plan, budget)
    ensures InPlan(plan, groups) && DistinctLanes(LanesOf(groups)) && Admissible(TasksOf(plan, groups), budget)
  {
    GroupingInPlan(plan, groups);
    forall g | 0 <= g < |groups|
      ensures WithinBudget(groups[g].lane.request, budget)
    {
      assert IsGroup(plan, groups[g], |plan|) && groups[g].commands[0] in groups[g].commands;
    }
  }

  predicate PlanAccepted(plan: seq<Command>)
  {
    1 <= |plan| <= MAX_COMMANDS
  }

  /**
   How the lanes of an accepted plan ran: one schedule of their tasks to the end, every lane's
   commands launched with the lane's job count, and the counts running at once within the budget.
   */
  ghost predicate RanWithinBudget(
    plan: seq<Command>, groups: seq<Group>, budget: Budget, launches: seq<seq<Launch>>, trace: seq<Pool<LaneResult>>)
  {
    && InPlan(plan, groups)
    && IsRun(TasksOf(plan, groups), budget, trace) && Finished(trace[|trace| - 1])
    && |launches| == |groups|
    && (forall g :: 0 <= g < |groups| ==> Launched(groups[g], JobsOf(groups, budget)[g], launches[g]))
    && forall k :: 0 <= k < |trace| ==> SumAt(JobsOf(groups, budget), trace[k].active) <= budget.cpu
  }

  /**
   What a plan's result says: whether all commands pass, or what stopped each failed lane, or the
   error of the first lane that raised one.
   */
  ghost predicate ReportsPlan(plan: seq<Command>, groups: seq<Group>, result: PlanResult)
    requires InPlan(plan, groups)
  {
    && (result.Unexpected? <==> SomeLaneRaises(plan))
    && (result.Unexpected? ==> exists g :: 0 <= g < |groups| && FirstRaise(plan, groups, g, result.error))
    && (result.Failed? ==> result.failures != [] && ReportsFailures(plan, result.failures))
    && (result.Passed? <==> forall i :: 0 <= i < |plan| ==> Succeeds(plan[i]))
  }

  method RunLanes(plan: seq<Command>, groups: seq<Group>, budget: Budget)
    returns (result: PlanResult, launches: seq<seq<Launch>>, ghost trace: seq<Pool<LaneResult>>)
    requires IsGrouping(plan, groups, |plan|) && InPlan(plan, groups)
    requires DistinctLanes(LanesOf(groups)) && Admissible(TasksOf(plan, groups), budget)
    ensures RanWithinBudget(plan, groups, budget, launches, trace)
    ensures ReportsPlan(plan, groups, result)
  {
    hide IsGrouping, InPlan, DistinctLanes, Admissible, IsRun, WellPaced, ReportsFailures, Shares, JobsOf;
    hide LaneWork, SumAt;
    hide Launched, SomeLaneRaises, Succeeds;
    var tasks: seq<Task<LaneResult>>;
    tasks, launches := PrepareTasks(plan, groups, budget);
    var outcomes: Result<seq<Outcome<LaneResult>>, Error>;
    ghost var rounds;
    outcomes, trace, rounds := RunTasks(tasks, budget);
    forall k | 0 <= k < |trace|
      ensures SumAt(JobsOf(groups, budget), trace[k].active) <= budget.cpu
    {
      RunningJobsFitBudget(plan, groups, budget, trace, k);
    }
    result := CollectResults(plan, groups, outcomes.value);
    ReportCoversPlan(plan, groups, result);
  }

  lemma {:induction false} ReportCoversPlan(plan: seq<Command>, groups: seq<Group>, result: PlanResult)
    requires InPlan(plan, groups)
    requires result.Unexpected? <==> SomeLaneRaises(plan)
    requires result.Unexpected? ==> exists g :: 0 <= g < |groups| && FirstRaise(plan, groups, g, result.error)
    requires result.Failed? ==> result.failures != [] && ReportsFailures(plan, result.failures)
    requires result.Passed? ==> ReportsFailures(plan, [])
    ensures ReportsPlan(plan, groups, result)
  {
    match result
    case Passed => PassedMeansAllSucceed(plan);
    case Failed(failures) => assert failures[0] in failures && IsLaneFailure(plan, failures[0]);
    case Unexpected(_) =>
  }

  lemma {:induction false} OrderIsUnique(a: seq<Entry>, b: seq<Entry>)
    requires InPlanOrder(a) && InPlanOrder(b) && forall e: Entry :: e in a <==> e in b
    ensures a == b
  {
    assert b == [] || b[0] in b;
    if a == [] {
      assert b == [];
    } else {
      assert a[0] in b && b != [] && b[0] in a;
      var i: nat :| i < |b| && b[i] == a[0];
      var j: nat :| j < |a| && a[j] == b[0];
      assert a[0].0 <= a[j].0 == b[0].0 <= b[i].0 == a[0].0;
      assert i == 0;
      forall e: Entry
        ensures e in a[1..] <==> e in b[1..]
      {
        LaterEntries(a, e);
        LaterEntries(b, e);
      }
      OrderIsUnique(a[1..], b[1..]);
      assert a == [a[0]] + a[1..] && b == [b[0]] + b[1..];
    }
  }

  lemma {:induction false} LaterEntries(a: seq<Entry>, e: Entry)
    requires a != [] && InPlanOrder(a)
    ensures InPlanOrder(a[1..]) && (e in a[1..] <==> e in a && e != a[0])
  {
    if e in a && e != a[0] {
      var i: nat :| i < |a| && a[i] == e;
      assert a[1..][i - 1] == e;
    }
    if e in a[1..] {
      var i: nat :| i < |a| - 1 && a[1..][i] == e;
      assert a[i + 1] == e;
    }
  }

  /** A plan has one report: it does not depend on which lanes finish when. */
  lemma {:induction false} ReportIsUnique(plan: seq<Command>, groups: seq<Group>, a: PlanResult, b: PlanResult)
    requires InPlan(plan, groups) && ReportsPlan(plan, groups, a) && ReportsPlan(plan, groups, b)
    ensures a == b
  {
    hide SomeLaneRaises, InPlanOrder, IsLaneFailure, Succeeds, InPlan;
    match (a, b)
    case (Failed(f), Failed(g)) => OrderIsUnique(f, g);
    case (Unexpected(_), Unexpected(_)) => RaiseIsUnique(plan, groups, a.error, b.error);
    case (Passed, Passed) =>
    case (Passed, Failed(f)) => FailureStops(plan, f);
    case (Failed(f), Passed) => FailureStops(plan, f);
    case _ =>
  }

  lemma {:induction false} RaiseIsUnique(plan: seq<Command>, groups: seq<Group>, a: string, b: string)
    requires InPlan(plan, groups)
    requires exists g :: 0 <= g < |groups| && FirstRaise(plan, groups, g, a)
    requires exists g :: 0 <= g < |groups| && FirstRaise(plan, groups, g, b)
    ensures a == b
  {
    var g: nat :| g < |groups| && FirstRaise(plan, groups, g, a);
    var h: nat :| h < |groups| && FirstRaise(plan, groups, h, b);
  }

  lemma {:induction false} FailureStops(plan: seq<Command>, failures: seq<Entry>)
    requires failures != [] && ReportsFailures(plan, failures)
    ensures exists i :: 0 <= i < |plan| && !Succeeds(plan[i])
  {
    assert failures[0] in failures && IsLaneFailure(plan, failures[0]);
  }

  /** Runs a plan; which lanes finish when is of no consequence for the result. */
  method RunPlan(plan: seq<Command>, budget: Budget)
    returns (result: Result<PlanResult, PlanError>, groups: seq<Group>, launches: seq<seq<Launch>>,
             ghost trace: seq<Pool<LaneResult>>)
    ensures result.Success? <==> 1 <= |plan| <= 32 && Consistent(plan) && LanesFit(plan, budget)
    ensures result.Failure? ==> (result.error.PlanSize? <==> |plan| == 0 || |plan| > 32)
    ensures result.Success? ==> IsGrouping(plan, groups, |plan|)
    ensures result.Success? ==> RanWithinBudget(plan, groups, budget, launches, trace)
    ensures result.Success? ==> ReportsPlan(plan, groups, result.value)
  {
    groups, launches, trace := [], [], [];
    if !PlanAccepted(plan) {
      return Failure(PlanSize), groups, launches, trace;
    }
    var lanes := ValidateLanes(plan, budget);
    if lanes.Failure? {
      return Failure(lanes.error), groups, launches, trace;
    }
    groups := lanes.value;
    GroupedLanesAreAdmissible(plan, groups, budget);
    var report: PlanResult;
    report, launches, trace := RunLanes(plan, groups, budget);
    return Success(report), groups, launches, trace;
  }
}
