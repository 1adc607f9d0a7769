/** Grouping packets into containers: the tasks, the reorder buffer and what the writer emits for any arrival order. */
module Packing {
  import opened Basics
  import opened Codec
  import opened Container

  // ---------------------------------------------------------------------------------------------
  // Tasks
  // ---------------------------------------------------------------------------------------------

  datatype PackTask = PackTask(group: nat, startEpoch: nat, epochCount: nat)

  function DivCeil(a: nat, b: nat): (q: nat)
    requires b > 0
    ensures (q - 1) * b < a <= q * b || a == q == 0
  {
    if a % b == 0 then a / b else a / b + 1
  }

  function TaskOf(startEpoch: nat, epochCount: nat, shardEpochs: nat, g: nat): PackTask
    requires shardEpochs > 0 && g < DivCeil(epochCount, shardEpochs)
  {
    StartsInside(epochCount, shardEpochs, g);
    PackTask(g, startEpoch + g * shardEpochs, Min(epochCount - g * shardEpochs, shardEpochs))
  }

  lemma StartsInside(epochCount: nat, shardEpochs: nat, g: nat)
    requires shardEpochs > 0 && g < DivCeil(epochCount, shardEpochs)
    ensures g * shardEpochs < epochCount
  {
    MulMonotone(g, DivCeil(epochCount, shardEpochs) - 1, shardEpochs);
  }

  /** Non-empty tasks of at most a shard each, in order, that cover the epochs from first to last without a gap. */
  predicate CoversEpochs(tasks: seq<PackTask>, startEpoch: nat, epochCount: nat, shardEpochs: nat) {
    && (tasks == [] <==> epochCount == 0)
    && (forall g :: 0 <= g < |tasks| ==>
          && tasks[g].group == g
          && 0 < tasks[g].epochCount <= shardEpochs
          && Follows(tasks, startEpoch, g))
    && (forall g :: 0 <= g < |tasks| - 1 ==> tasks[g].epochCount == shardEpochs)
    && (tasks != [] ==> tasks[|tasks| - 1].startEpoch + tasks[|tasks| - 1].epochCount == startEpoch + epochCount)
  }

  /** Task `g` starts where the one before it ends. */
  predicate Follows(tasks: seq<PackTask>, startEpoch: nat, g: nat)
    requires g < |tasks|
  {
    tasks[g].startEpoch == if g == 0 then startEpoch else tasks[g - 1].startEpoch + tasks[g - 1].epochCount
  }

  /** One task a shard; together they are the requested epochs. */
  function BuildPackTasks(startEpoch: nat, epochCount: nat, shardEpochs: nat): (tasks: seq<PackTask>)
    requires shardEpochs > 0
    ensures CoversEpochs(tasks, startEpoch, epochCount, shardEpochs)
    ensures |tasks| == DivCeil(epochCount, shardEpochs)
  {
    var tasks := seq(DivCeil(epochCount, shardEpochs), g requires 0 <= g < DivCeil(epochCount, shardEpochs) =>
      TaskOf(startEpoch, epochCount, shardEpochs, g));
    TasksCoverEpochs(tasks, startEpoch, epochCount, shardEpochs);
    tasks
  }

  lemma TasksCoverEpochs(tasks: seq<PackTask>, startEpoch: nat, epochCount: nat, shardEpochs: nat)
    requires shardEpochs > 0 && |tasks| == DivCeil(epochCount, shardEpochs)
    requires forall g :: 0 <= g < |tasks| ==> tasks[g] == TaskOf(startEpoch, epochCount, shardEpochs, g)
    ensures CoversEpochs(tasks, startEpoch, epochCount, shardEpochs)
  {
    hide DivCeil, TaskOf, ShardStart, Follows;
    forall g | 0 <= g < |tasks|
      ensures tasks[g].group == g && 0 < tasks[g].epochCount <= shardEpochs
      ensures Follows(tasks, startEpoch, g)
      ensures g + 1 < |tasks| ==> tasks[g].epochCount == shardEpochs
    {
      TaskFollows(tasks, startEpoch, epochCount, shardEpochs, g);
    }
    NoTasks(epochCount, shardEpochs);
    if tasks != [] {
      TaskEnds(startEpoch, epochCount, shardEpochs, |tasks| - 1);
    }
  }

  lemma TaskFollows(tasks: seq<PackTask>, startEpoch: nat, epochCount: nat, shardEpochs: nat, g: nat)
    requires shardEpochs > 0 && |tasks| == DivCeil(epochCount, shardEpochs) && g < |tasks|
    requires forall i :: 0 <= i < |tasks| ==> tasks[i] == TaskOf(startEpoch, epochCount, shardEpochs, i)
    ensures tasks[g].group == g && 0 < tasks[g].epochCount <= shardEpochs
    ensures Follows(tasks, startEpoch, g)
    ensures g + 1 < |tasks| ==> tasks[g].epochCount == shardEpochs
  {
    hide DivCeil, TaskOf, ShardStart;
    TaskEnds(startEpoch, epochCount, shardEpochs, g);
    if g == 0 {
      FirstShard(startEpoch, shardEpochs);
    } else {
      TaskEnds(startEpoch, epochCount, shardEpochs, g - 1);
    }
  }

  lemma NoTasks(epochCount: nat, shardEpochs: nat)
    requires shardEpochs > 0
    ensures DivCeil(epochCount, shardEpochs) == 0 <==> epochCount == 0
  {
  }

  function ShardStart(startEpoch: nat, shardEpochs: nat, g: nat): nat {
    startEpoch + g * shardEpochs
  }

  lemma FirstShard(startEpoch: nat, shardEpochs: nat)
    ensures ShardStart(startEpoch, shardEpochs, 0) == startEpoch
  {
  }

  lemma TaskEnds(startEpoch: nat, epochCount: nat, shardEpochs: nat, g: nat)
    requires shardEpochs > 0 && g < DivCeil(epochCount, shardEpochs)
    ensures var t := TaskOf(startEpoch, epochCount, shardEpochs, g);
      && t.group == g && 0 < t.epochCount <= shardEpochs
      && t.startEpoch == ShardStart(startEpoch, shardEpochs, g)
      && (g + 1 < DivCeil(epochCount, shardEpochs) ==>
            t.epochCount == shardEpochs && t.startEpoch + t.epochCount == ShardStart(startEpoch, shardEpochs, g + 1))
      && (g + 1 == DivCeil(epochCount, shardEpochs) ==> t.startEpoch + t.epochCount == startEpoch + epochCount)
  {
    hide DivCeil;
    NextStart(shardEpochs, g);
    ShardEnds(epochCount, shardEpochs, g);
  }

  lemma NextStart(shardEpochs: nat, g: nat)
    ensures (g + 1) * shardEpochs == g * shardEpochs + shardEpochs
  {
  }

  /** The epochs end inside the last shard and behind the others. */
  lemma ShardEnds(epochCount: nat, shardEpochs: nat, g: nat)
    requires shardEpochs > 0 && g < DivCeil(epochCount, shardEpochs)
    ensures g * shardEpochs < epochCount
    ensures g + 1 < DivCeil(epochCount, shardEpochs) ==> (g + 1) * shardEpochs < epochCount
    ensures g + 1 == DivCeil(epochCount, shardEpochs) ==> epochCount <= (g + 1) * shardEpochs
  {
    hide DivCeil;
    StartsInside(epochCount, shardEpochs, g);
    if g + 1 < DivCeil(epochCount, shardEpochs) {
      StartsInside(epochCount, shardEpochs, g + 1);
    }
  }

  // ---------------------------------------------------------------------------------------------
  // What the writer emits
  // ---------------------------------------------------------------------------------------------

  function PayloadBytes(packets: seq<PacketOut>): nat {
    if packets == [] then 0 else PayloadBytes(packets[..|packets| - 1]) + |packets[|packets| - 1].bytes|
  }

  /** The containers closed so far, and the packets of the one being filled. */
  datatype Filling = Filling(closed: seq<seq<PacketOut>>, current: seq<PacketOut>) {
    function Add(p: PacketOut, target: nat): Filling {
      var c := current + [p];
      if PayloadBytes(c) >= target then Filling(closed + [c], []) else Filling(closed, c)
    }

    function Finish(): seq<seq<PacketOut>> {
      if current == [] then closed else closed + [current]
    }
  }

  /** Packets in group order: a container closes as soon as its payload reaches the target. */
  function Fill(packets: seq<PacketOut>, target: nat): Filling {
    if packets == [] then
      Filling([], [])
    else
      Fill(packets[..|packets| - 1], target).Add(packets[|packets| - 1], target)
  }

  function Containers(packets: seq<PacketOut>, target: nat): seq<seq<PacketOut>> {
    Fill(packets, target).Finish()
  }

  function Flatten(containers: seq<seq<PacketOut>>): seq<PacketOut> {
    if containers == [] then
      []
    else
      Flatten(containers[..|containers| - 1]) + containers[|containers| - 1]
  }

  /** A container that reached the target, and only with its last packet. */
  predicate IsFull(c: seq<PacketOut>, target: nat) {
    && c != []
    && PayloadBytes(c) >= target
    && (|c| > 1 ==> PayloadBytes(c[..|c| - 1]) < target)
  }

  /** What has been added is in the containers, closed ones are full and the current one is not. */
  predicate Holds(f: Filling, packets: seq<PacketOut>, target: nat) {
    && Flatten(f.closed) + f.current == packets
    && (forall i :: 0 <= i < |f.closed| ==> IsFull(f.closed[i], target))
    && (f.current != [] ==> PayloadBytes(f.current) < target)
  }

  lemma {:induction false} FillKeepsAll(packets: seq<PacketOut>, target: nat)
    ensures Holds(Fill(packets, target), packets, target)
  {
    hide Holds, Filling.Add;
    if packets != [] {
      var front, p := packets[..|packets| - 1], packets[|packets| - 1];
      FillKeepsAll(front, target);
      AddHolds(Fill(front, target), front, p, target);
      assert front + [p] == packets;
    } else {
      NothingHolds(target);
    }
  }

  lemma NothingHolds(target: nat)
    ensures Holds(Filling([], []), [], target)
  {
  }

  lemma AddHolds(f: Filling, packets: seq<PacketOut>, p: PacketOut, target: nat)
    requires Holds(f, packets, target)
    ensures Holds(f.Add(p, target), packets + [p], target)
  {
    var c := f.current + [p];
    assert c[..|c| - 1] == f.current;
    assert (f.closed + [c])[..|f.closed|] == f.closed;
    assert Flatten(f.closed) + c == (Flatten(f.closed) + f.current) + [p];
  }

  /**
   * The containers hold every packet once and in order; each but the last is full, reaching the target
   * with its last packet; the last is non-empty and stays below the target before its last packet.
   */
  lemma ContainersPartition(packets: seq<PacketOut>, target: nat)
    ensures var cs := Containers(packets, target);
      && Flatten(cs) == packets
      && (forall i :: 0 <= i < |cs| ==> cs[i] != [])
      && (forall i :: 0 <= i < |cs| - 1 ==> IsFull(cs[i], target))
      && (cs != [] ==> IsFull(cs[|cs| - 1], target) || PayloadBytes(cs[|cs| - 1]) < target)
  {
    FillKeepsAll(packets, target);
    var f := Fill(packets, target);
    if f.current != [] {
      assert (f.closed + [f.current])[..|f.closed|] == f.closed;
    } else {
      assert Flatten(f.closed) + [] == Flatten(f.closed);
    }
  }

  // ---------------------------------------------------------------------------------------------
  // Arrival orders
  // ---------------------------------------------------------------------------------------------

  /** Each task is claimed by one worker, which hands over one packet for it. */
  predicate DistinctGroups(arrivals: seq<PacketOut>) {
    forall i, j :: 0 <= i < j < |arrivals| ==> arrivals[i].group != arrivals[j].group
  }

  predicate Arrived(arrivals: seq<PacketOut>, g: nat) {
    exists i :: 0 <= i < |arrivals| && arrivals[i].group == g
  }

  /** `run` is the arrived groups in order, from the first up to the first gap. */
  predicate IsRun(run: seq<PacketOut>, arrivals: seq<PacketOut>) {
    && (forall g :: 0 <= g < |run| ==> run[g].group == g && run[g] in arrivals)
    && !Arrived(arrivals, |run|)
  }

  lemma RunArrived(run: seq<PacketOut>, sub: seq<PacketOut>, arrivals: seq<PacketOut>)
    requires IsRun(run, sub) && forall p :: p in sub ==> p in arrivals
    ensures forall g: nat :: g < |run| ==> Arrived(arrivals, g)
  {
    forall g: nat | g < |run|
      ensures Arrived(arrivals, g)
    {
      var i :| 0 <= i < |arrivals| && arrivals[i] == run[g];
      assert arrivals[i].group == g;
    }
  }

  /** The run does not depend on the order of arrival. */
  lemma ArrivalOrderIsInvisible(run: seq<PacketOut>, arrivals: seq<PacketOut>,
                                other: seq<PacketOut>, reordered: seq<PacketOut>)
    requires DistinctGroups(arrivals) && IsRun(run, arrivals) && IsRun(other, reordered)
    requires forall p :: p in arrivals <==> p in reordered
    ensures run == other
  {
    RunArrived(run, arrivals, reordered);
    RunArrived(other, reordered, arrivals);
    forall g | 0 <= g < |run|
      ensures run[g] == other[g]
    {
      assert run[g] in arrivals && other[g] in arrivals;
    }
  }

  /** When every task's packet arrives, the run has them all; when some are missing, it stops before the first. */
  lemma RunEndsAtFirstGap(run: seq<PacketOut>, arrivals: seq<PacketOut>, groupCount: nat)
    requires IsRun(run, arrivals) && forall p :: p in arrivals ==> p.group < groupCount
    ensures |run| <= groupCount
    ensures forall g: nat :: g < |run| ==> Arrived(arrivals, g)
    ensures |run| == groupCount <==> forall g: nat :: g < groupCount ==> Arrived(arrivals, g)
  {
    RunArrived(run, arrivals, arrivals);
    assert forall g: nat :: Arrived(arrivals, g) ==> g < groupCount;
    assert !Arrived(arrivals, groupCount);
  }

  predicate AnswersTask(p: PacketOut, tasks: seq<PackTask>) {
    && p.group < |tasks|
    && p.startEpoch == tasks[p.group].startEpoch
    && p.epochCount == tasks[p.group].epochCount
  }

  /**
   * Whatever order the workers finish in, the containers hold consecutive epochs from the requested
   * start without a gap or a repetition, and all the requested epochs once every group has arrived.
   */
  lemma PackedEpochsAreContiguous(run: seq<PacketOut>, arrivals: seq<PacketOut>, target: nat,
                                  startEpoch: nat, epochCount: nat, shardEpochs: nat)
    requires shardEpochs > 0 && IsRun(run, arrivals)
    requires forall p :: p in arrivals ==> AnswersTask(p, BuildPackTasks(startEpoch, epochCount, shardEpochs))
    ensures var packed := Flatten(Containers(run, target));
      && (forall g :: 0 <= g < |packed| ==>
            packed[g].startEpoch ==
              (if g == 0 then startEpoch else packed[g - 1].startEpoch + packed[g - 1].epochCount))
      && (packed != [] && (forall g: nat :: g < DivCeil(epochCount, shardEpochs) ==> Arrived(arrivals, g)) ==>
            packed[|packed| - 1].startEpoch + packed[|packed| - 1].epochCount == startEpoch + epochCount)
  {
    hide BuildPackTasks, Fill, Flatten, DivCeil, Arrived, CoversEpochs, AnswersTask, IsRun;
    ContainersPartition(run, target);
    var tasks := BuildPackTasks(startEpoch, epochCount, shardEpochs);
    AnswersAreInside(arrivals, tasks);
    RunEndsAtFirstGap(run, arrivals, |tasks|);
    forall g | 0 <= g < |run|
      ensures run[g].startEpoch == (if g == 0 then startEpoch else run[g - 1].startEpoch + run[g - 1].epochCount)
    {
      RunFollows(run, arrivals, tasks, startEpoch, epochCount, shardEpochs, g);
    }
    if run != [] && |run| == |tasks| {
      RunReachesEnd(run, arrivals, tasks, startEpoch, epochCount, shardEpochs);
    }
  }

  lemma RunFollows(run: seq<PacketOut>, arrivals: seq<PacketOut>, tasks: seq<PackTask>, startEpoch: nat,
                   epochCount: nat, shardEpochs: nat, g: nat)
    requires CoversEpochs(tasks, startEpoch, epochCount, shardEpochs) && g < |run|
    requires IsRun(run, arrivals) && forall p :: p in arrivals ==> AnswersTask(p, tasks)
    ensures run[g].startEpoch == if g == 0 then startEpoch else run[g - 1].startEpoch + run[g - 1].epochCount
  {
    hide IsRun, AnswersTask, CoversEpochs;
    RunAnswersTask(run, arrivals, tasks, g);
    if g > 0 {
      RunAnswersTask(run, arrivals, tasks, g - 1);
    }
    CoverFollows(tasks, startEpoch, epochCount, shardEpochs, g);
  }

  lemma RunReachesEnd(run: seq<PacketOut>, arrivals: seq<PacketOut>, tasks: seq<PackTask>, startEpoch: nat,
                      epochCount: nat, shardEpochs: nat)
    requires CoversEpochs(tasks, startEpoch, epochCount, shardEpochs) && 0 < |run| == |tasks|
    requires IsRun(run, arrivals) && forall p :: p in arrivals ==> AnswersTask(p, tasks)
    ensures run[|run| - 1].startEpoch + run[|run| - 1].epochCount == startEpoch + epochCount
  {
    hide IsRun, AnswersTask;
    RunAnswersTask(run, arrivals, tasks, |run| - 1);
  }

  lemma AnswersAreInside(arrivals: seq<PacketOut>, tasks: seq<PackTask>)
    requires forall p :: p in arrivals ==> AnswersTask(p, tasks)
    ensures forall p :: p in arrivals ==> p.group < |tasks|
  {
  }

  lemma CoverFollows(tasks: seq<PackTask>, startEpoch: nat, epochCount: nat, shardEpochs: nat, g: nat)
    requires CoversEpochs(tasks, startEpoch, epochCount, shardEpochs) && g < |tasks|
    ensures Follows(tasks, startEpoch, g)
  {
    hide Follows;
  }

  lemma RunAnswersTask(run: seq<PacketOut>, arrivals: seq<PacketOut>, tasks: seq<PackTask>, g: nat)
    requires g < |run| && IsRun(run, arrivals) && forall p :: p in arrivals ==> AnswersTask(p, tasks)
    ensures g < |tasks| && run[g].startEpoch == tasks[g].startEpoch && run[g].epochCount == tasks[g].epochCount
  {
    assert run[g] in arrivals;
  }
}
