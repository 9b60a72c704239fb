/** Whole runs of the materialization pipeline: no reachable state is stuck, every run is finite, and
    a run that completes has copied every tensor to its place and nothing else. */
module PipelineProgress {
  import opened Bytes
  import opened Results
  import opened ReadPlan
  import opened Pipeline
  import opened PipelineSafety

  // ---------------------------------------------------------------------------------------------
  // What the device holds in the end
  // ---------------------------------------------------------------------------------------------

  predicate InDestination(r: CopyRange, y: nat) {
    r.dest <= y < r.dest + (r.end - r.begin)
  }

  /** Every tensor byte is at its place and every other device byte is untouched. */
  ghost predicate Materialized(c: Config, device: seq<byte>) {
    && |device| == |c.memory|
    && (forall i: nat, x: nat | TensorByte(c.ranges, i, x) :: Placed(c, device, i, x))
    && forall y | 0 <= y < |device| && Outside(c.ranges, y) :: device[y] == c.memory[y]
  }

  predicate Outside(ranges: seq<CopyRange>, y: nat) {
    forall i | 0 <= i < |ranges| :: !InDestination(ranges[i], y)
  }

  predicate Placed(c: Config, device: seq<byte>, i: nat, x: nat)
    requires TensorByte(c.ranges, i, x)
  {
    var y := c.ranges[i].dest + (x - c.ranges[i].begin);
    x < |c.file| && y < |device| && device[y] == c.file[x]
  }

  predicate AllFit(c: Config, copies: seq<Copy>) {
    forall k | 0 <= k < |copies| ::
      CopyFits(c, copies[k]) && copies[k].end <= c.ranges[copies[k].range].end
  }

  lemma {:induction false} ReplayOutside(c: Config, copies: seq<Copy>, y: nat)
    requires AllFit(c, copies) && y < |c.memory| && Outside(c.ranges, y)
    ensures Replay(c, copies)[y] == c.memory[y]
  {
    if copies != [] {
      ReplayOutside(c, copies[..|copies| - 1], y);
      var last := copies[|copies| - 1];
      assert CopyFits(c, last) && !InDestination(c.ranges[last.range], y);
    }
  }

  /** Replaying copies puts a tensor byte in place as soon as one of them carries it: the tensors'
      disjoint destinations keep any other copy away. */
  lemma {:induction false} ReplayPlaces(c: Config, copies: seq<Copy>, i: nat, x: nat)
    requires DestinationsFit(c.ranges, |c.memory|) && AllFit(c, copies)
    requires TensorByte(c.ranges, i, x) && Hits(copies, i, x) > 0
    ensures Placed(c, Replay(c, copies), i, x)
  {
    hide DestinationsFit;
    var k := |copies| - 1;
    var last := copies[k];
    var y := c.ranges[i].dest + (x - c.ranges[i].begin);
    assert CopyFits(c, last) && last.end <= c.ranges[last.range].end;
    if last.range == i && last.begin <= x < last.end {
      assert c.file[last.begin..last.end][x - last.begin] == c.file[x];
    } else {
      ReplayPlaces(c, copies[..k], i, x);
      DestinationApart(c, last, i, x);
    }
  }

  lemma DestinationApart(c: Config, copy: Copy, i: nat, x: nat)
    requires DestinationsFit(c.ranges, |c.memory|) && TensorByte(c.ranges, i, x)
    requires CopyFits(c, copy) && copy.end <= c.ranges[copy.range].end
    requires !(copy.range == i && copy.begin <= x < copy.end)
    ensures var y := c.ranges[i].dest + (x - c.ranges[i].begin);
            !(Destination(c, copy) <= y < Destination(c, copy) + (copy.end - copy.begin))
  {
    var a, b := c.ranges[i], c.ranges[copy.range];
  }

  lemma {:induction false} CopiesFit(c: Config, s: State, n: nat)
    requires Ready(c) && Inv(c, s) && n <= |s.stream|
    ensures AllFit(c, Copies(s.stream[..n]))
  {
    if n > 0 {
      CopiesFit(c, s, n - 1);
      CopiesSnoc(s.stream, n - 1);
      var cmd := s.stream[n - 1];
      assert CommandOk(c, s.done, cmd);
      assert PhaseOk(c, Submitted(c, s.host), s.done, cmd.chunk, s.phases[cmd.chunk]);
      if cmd.CopyCommand? { CommandFits(c, s.done, cmd); }
    }
  }

  lemma CommandFits(c: Config, done: seq<nat>, cmd: Command)
    requires DestinationsFit(c.ranges, |c.memory|) && CommandOk(c, done, cmd) && cmd.CopyCommand?
    requires ReadWithin(c, cmd.chunk, done[cmd.chunk])
    ensures CopyFits(c, cmd.copy) && cmd.copy.end <= c.ranges[cmd.copy.range].end
  {}

  /** A run that reports success has materialized every tensor, whatever the interleaving. */
  lemma DoneIsMaterialized(c: Config, s: State)
    requires Ready(c) && Inv(c, s) && s.host.Done?
    ensures Materialized(c, s.device)
  {
    assert s.stream[..s.executed] == s.stream && Copies(s.stream) + [] == Copies(s.stream);
    CopiesFit(c, s, |s.stream|);
    var copies := Copies(s.stream);
    DoneCopies(c, s);
    forall i: nat, x: nat | TensorByte(c.ranges, i, x) ensures Placed(c, s.device, i, x) {
      ReplayPlaces(c, copies, i, x);
    }
    forall y | 0 <= y < |s.device| && Outside(c.ranges, y) ensures s.device[y] == c.memory[y] {
      ReplayOutside(c, copies, y);
    }
  }

  lemma DoneCopies(c: Config, s: State)
    requires Ready(c) && Inv(c, s) && s.host.Done?
    ensures forall i: nat, x: nat | TensorByte(c.ranges, i, x) :: Hits(Copies(s.stream), i, x) == 1
  {
    assert Copies(s.stream) + [] == Copies(s.stream);
    ExactlyOnce(c.ranges, c.chunks, s.done);
  }

  // ---------------------------------------------------------------------------------------------
  // No reachable state is stuck
  // ---------------------------------------------------------------------------------------------

  ghost predicate Steps(c: Config, s: State, s': State) {
    exists l :: Next(c, s, l, s')
  }

  ghost predicate CanStep(c: Config, s: State) {
    exists s' :: Steps(c, s, s')
  }

  lemma Enabled(c: Config, s: State, l: Label, s': State)
    requires Next(c, s, l, s')
    ensures CanStep(c, s)
  {
    assert Steps(c, s, s');
  }

  /** The host's cursor always exists. */
  lemma {:induction false} CursorExists(ranges: seq<CopyRange>, n: nat, frontier: nat) returns (m: nat)
    requires n <= |ranges| && forall i | 0 <= i < n :: ranges[i].end <= frontier
    ensures IsCursor(ranges, m, frontier)
    decreases |ranges| - n
  {
    if n < |ranges| && ranges[n].end <= frontier {
      m := CursorExists(ranges, n + 1, frontier);
    } else {
      m := n;
    }
  }

  lemma StreamEnabled(c: Config, s: State)
    requires Ready(c) && Inv(c, s) && s.executed < |s.stream|
    ensures CanStep(c, s)
  {
    match s.stream[s.executed]
    case RecordCommand(_) => Enabled(c, s, StreamStep, s.(executed := s.executed + 1));
    case CopyCommand(k, copy) =>
      CopyReadsItsChunk(c, s);
      Enabled(c, s, StreamStep,
              s.(executed := s.executed + 1,
                 device := Splice(s.device, Destination(c, copy), Staged(c, s, k, copy))));
  }

  /** With the stream idle, a worker that holds a task can always move on. */
  lemma WorkerEnabled(c: Config, s: State, w: nat)
    requires Ready(c) && Inv(c, s) && s.executed == |s.stream| && Holds(s, w)
    ensures CanStep(c, s)
  {
    var j := s.workers[w].value;
    assert s.phases[j].Held();
    assert MarkOk(c, s.stream, s.executed, s.marks, j, s.phases[j]);
    match s.phases[j]
    case Claimed(after) =>
      Enabled(c, s, Start(w),
        s.(phases := s.phases[j := if after then Waiting(s.marks[j % c.slotCount]) else Reading(0)]));
    case Waiting(_) => Enabled(c, s, Synced(w), s.(phases := s.phases[j := Reading(0)]));
    case Reading(got) =>
      Enabled(c, s, Deliver(w), s.(phases := s.phases[j := Delivered(got)], workers := s.workers[w := None]));
  }

  lemma QueueEnabled(c: Config, s: State)
    requires Ready(c) && Inv(c, s) && s.executed == |s.stream| && s.queue != []
    ensures CanStep(c, s)
  {
    if s.workers[0].Some? {
      WorkerEnabled(c, s, 0);
    } else {
      var j := s.queue[0];
      assert s.phases[j].Queued?;
      Enabled(c, s, Pop(0), s.(queue := s.queue[1..], workers := s.workers[0 := Some(j)],
                               phases := s.phases[j := Claimed(s.phases[j].after)]));
    }
  }

  lemma GetEnabled(c: Config, s: State)
    requires Ready(c) && Inv(c, s) && s.executed == |s.stream| && s.host.Get?
    ensures CanStep(c, s)
  {
    var k := s.host.k;
    assert s.inbox[k % c.slotCount] == k;
    assert PhaseOk(c, Submitted(c, s.host), s.done, k, s.phases[k]);
    var p := s.phases[k];
    if p.Delivered? {
      GetReady(c, s, p.bytes);
    } else if p.Queued? {
      assert k in s.queue;
      QueueEnabled(c, s);
    } else {
      assert IsHeld(s.workers, k);
      var w :| 0 <= w < |s.workers| && s.workers[w] == Some(k);
      WorkerEnabled(c, s, w);
    }
  }

  lemma GetReady(c: Config, s: State, b: nat)
    requires Shape(c, s) && s.host.Get? && s.inbox[s.host.k % c.slotCount] == s.host.k
    requires s.phases[s.host.k] == Delivered(b)
    ensures CanStep(c, s)
  {
    var k := s.host.k;
    if b < c.chunks[k].required {
      Enabled(c, s, HostStep, s.(host := Failed(k)));
    } else {
      var end := c.chunks[k].source + b;
      var next := CursorExists(c.ranges, 0, end);
      Enabled(c, s, HostStep,
              s.(host := Enqueue(k, Intersections(c.ranges, 0, c.chunks[k].source, end)),
                 done := s.done + [b], next := next));
    }
  }

  lemma EnqueueEnabled(c: Config, s: State)
    requires Ready(c) && Inv(c, s) && s.host.Enqueue?
    ensures CanStep(c, s)
  {
    var Enqueue(k, todo) := s.host;
    if todo != [] {
      assert CommandOk(c, s.done, CopyCommand(k, todo[0]));
      Enabled(c, s, HostStep,
              s.(host := Enqueue(k, todo[1..]), stream := s.stream + [CopyCommand(k, todo[0])],
                 copied := s.copied + (todo[0].end - todo[0].begin)));
    } else {
      Enabled(c, s, HostStep,
              s.(host := Resubmit(k), stream := s.stream + [RecordCommand(k)],
                 marks := s.marks[k % c.slotCount := |s.stream| + 1],
                 pending := s.pending[k % c.slotCount := true]));
    }
  }

  lemma HostEnabled(c: Config, s: State)
    requires Shape(c, s) && c.slotCount <= |c.chunks|
    requires s.executed == |s.stream| && forall t | 0 <= t < |s.marks| :: s.marks[t] <= |s.stream|
    requires s.host.Submit? || s.host.Resubmit? || s.host.Drain? || s.host.Sync?
    ensures CanStep(c, s)
  {
    match s.host
    case Submit(i) =>
      Enabled(c, s, HostStep,
              SubmitRead(c, s, i, false).(host := if i + 1 == c.slotCount then Get(0) else Submit(i + 1)));
    case Resubmit(k) =>
      var s1 := if k + c.slotCount < |c.chunks| then SubmitRead(c, s, k + c.slotCount, true) else s;
      Enabled(c, s, HostStep, s1.(host := if k + 1 == |c.chunks| then Drain(0) else Get(k + 1)));
    case Drain(t) =>
      Enabled(c, s, HostStep,
              if t == c.slotCount then s.(host := Sync)
              else s.(host := Drain(t + 1), pending := s.pending[t := false]));
    case Sync =>
      Enabled(c, s, HostStep,
              s.(host := if s.copied == TotalBytes(c.ranges, 0) && s.next == |c.ranges| then Done
                         else Failed(|c.chunks|)));
  }

  /** Deadlock freedom: until the host has finished or failed, some component can step. */
  lemma NotStuck(c: Config, s: State)
    requires Ready(c) && Inv(c, s) && !Terminal(s)
    ensures CanStep(c, s)
  {
    if s.executed < |s.stream| {
      StreamEnabled(c, s);
    } else if s.host.Get? {
      GetEnabled(c, s);
    } else if s.host.Enqueue? {
      EnqueueEnabled(c, s);
    } else {
      HostEnabled(c, s);
    }
  }

  // ---------------------------------------------------------------------------------------------
  // Every run is finite
  // ---------------------------------------------------------------------------------------------

  /** How far the host is from the end, stage by stage. */
  function HostRank(c: Config, host: Host): int {
    match host
    case Submit(i) => 3 * |c.chunks| + 2 * c.slotCount + 4 - i
    case Get(k) => 3 * (|c.chunks| - k) + c.slotCount + 3
    case Enqueue(k, _) => 3 * (|c.chunks| - k) + c.slotCount + 2
    case Resubmit(k) => 3 * (|c.chunks| - k) + c.slotCount + 1
    case Drain(t) => c.slotCount - t + 2
    case Sync => 1
    case _ => 0
  }

  function TaskRank(c: Config, j: nat, p: Phase): int
    requires j < |c.chunks|
  {
    match p
    case Claimed(_) => c.chunks[j].request + 3
    case Waiting(_) => c.chunks[j].request + 2
    case Reading(got) => c.chunks[j].request - got + 1
    case _ => 0
  }

  function WorkerRank(c: Config, phases: seq<Phase>, worker: Option<nat>): int {
    if worker.Some? && worker.value < |c.chunks| == |phases| then TaskRank(c, worker.value, phases[worker.value]) else 0
  }

  function WorkLeft(c: Config, phases: seq<Phase>, workers: seq<Option<nat>>): int {
    if workers == [] then 0
    else WorkLeft(c, phases, workers[..|workers| - 1]) + WorkerRank(c, phases, workers[|workers| - 1])
  }

  /** A state's distance from termination, compared lexicographically. */
  datatype Distance = Distance(host: int, todo: int, stream: int, queue: int, work: int) {
    predicate Below(d: Distance) {
      || host < d.host
      || (host == d.host && todo < d.todo)
      || (host == d.host && todo == d.todo && stream < d.stream)
      || (host == d.host && todo == d.todo && stream == d.stream && queue < d.queue)
      || (host == d.host && todo == d.todo && stream == d.stream && queue == d.queue && work < d.work)
    }
    predicate NonNegative() { 0 <= host && 0 <= todo && 0 <= stream && 0 <= queue && 0 <= work }
  }

  function Left(c: Config, s: State): Distance {
    Distance(HostRank(c, s.host), |Todo(s.host)|, |s.stream| - s.executed, |s.queue|,
             WorkLeft(c, s.phases, s.workers))
  }

  lemma {:induction false} WorkNonNegative(c: Config, phases: seq<Phase>, workers: seq<Option<nat>>)
    requires |phases| == |c.chunks|
    requires forall j | 0 <= j < |phases| && phases[j].Reading? :: phases[j].got <= c.chunks[j].request
    ensures 0 <= WorkLeft(c, phases, workers)
  {
    if workers != [] { WorkNonNegative(c, phases, workers[..|workers| - 1]); }
  }

  /** If one worker's rank drops and no other changes, so does the sum. */
  lemma {:induction false} WorkDrops(c: Config, phases: seq<Phase>, phases': seq<Phase>,
                                     workers: seq<Option<nat>>, workers': seq<Option<nat>>, w: nat)
    requires |workers| == |workers'|
    requires forall v | 0 <= v < |workers| && v != w ::
               WorkerRank(c, phases', workers'[v]) == WorkerRank(c, phases, workers[v])
    requires w < |workers| ==> WorkerRank(c, phases', workers'[w]) < WorkerRank(c, phases, workers[w])
    ensures if w < |workers| then WorkLeft(c, phases', workers') < WorkLeft(c, phases, workers)
            else WorkLeft(c, phases', workers') == WorkLeft(c, phases, workers)
  {
    if workers != [] {
      var n := |workers| - 1;
      WorkDrops(c, phases, phases', workers[..n], workers'[..n], w);
    }
  }

  lemma LeftNonNegative(c: Config, s: State)
    requires Ready(c) && Inv(c, s)
    ensures Left(c, s).NonNegative()
  {
    hide Complete, DestinationsFit, ReadPlan.HostAt, Intersections, InboxOk, StreamOk, QueueOk, WorkersOk, SlotsOk,
      MarksOk,
      PhasesOk, WorkLeft;
    forall j | 0 <= j < |s.phases| && s.phases[j].Reading? ensures s.phases[j].got <= c.chunks[j].request {
      ChunkFacts(c, s, j);
    }
    WorkNonNegative(c, s.phases, s.workers);
  }

  lemma TaskMoves(c: Config, s: State, w: nat, p: Phase, workers': seq<Option<nat>>)
    requires Shape(c, s) && WorkersOk(s.phases, s.workers) && Holds(s, w)
    requires workers' == s.workers || workers' == s.workers[w := None]
    requires TaskRank(c, s.workers[w].value, p) < TaskRank(c, s.workers[w].value, s.phases[s.workers[w].value])
    requires workers'[w].None? ==> 0 < TaskRank(c, s.workers[w].value, s.phases[s.workers[w].value])
    ensures WorkLeft(c, s.phases[s.workers[w].value := p], workers') < WorkLeft(c, s.phases, s.workers)
  {
    var j := s.workers[w].value;
    var phases' := s.phases[j := p];
    forall v | 0 <= v < |s.workers| && v != w
      ensures WorkerRank(c, phases', workers'[v]) == WorkerRank(c, s.phases, s.workers[v])
    {
      if v < w {
        assert s.workers[v].Some? ==> s.workers[v] != s.workers[w];
      } else {
        assert s.workers[v].Some? ==> s.workers[w] != s.workers[v];
      }
    }
    WorkDrops(c, s.phases, phases', s.workers, workers', w);
  }

  lemma WorkerStepCloser(c: Config, s: State, l: Label, s': State)
    requires Ready(c) && Inv(c, s) && Next(c, s, l, s') && !l.HostStep? && !l.StreamStep? && !l.Pop?
    ensures Left(c, s').Below(Left(c, s))
  {
    hide Complete, DestinationsFit, ReadPlan.HostAt, Intersections, InboxOk, StreamOk, QueueOk, WorkersOk, SlotsOk,
      MarksOk,
      PhasesOk, WorkLeft;
    var w := l.w;
    var j := s.workers[w].value;
    ChunkFacts(c, s, j);
    TaskMoves(c, s, w, s'.phases[j], s'.workers);
    assert s'.phases == s.phases[j := s'.phases[j]];
    assert s'.host == s.host && s'.stream == s.stream && s'.executed == s.executed && s'.queue == s.queue;
  }

  lemma HostStepCloser(c: Config, s: State, s': State)
    requires Next(c, s, HostStep, s')
    ensures Left(c, s').Below(Left(c, s))
  {
    if s.host.Enqueue? {
      assert s'.host.Resubmit? || |Todo(s'.host)| < |Todo(s.host)|;
    } else {
      assert HostRank(c, s'.host) < HostRank(c, s.host);
    }
  }

  /** Every step of every component brings the run closer to its end. */
  lemma StepCloser(c: Config, s: State, l: Label, s': State)
    requires Ready(c) && Inv(c, s) && Next(c, s, l, s')
    ensures Left(c, s').Below(Left(c, s))
  {
    match l
    case HostStep => HostStepCloser(c, s, s');
    case StreamStep => assert s'.host == s.host && s'.stream == s.stream && s'.executed == s.executed + 1;
    case Pop(_) => assert s'.host == s.host && s'.stream == s.stream && s'.executed == s.executed
      && s'.queue == s.queue[1..];
    case _ => WorkerStepCloser(c, s, l, s');
  }

  /** A run: any sequence of states in which some component steps until the host is done. */
  ghost predicate IsRun(c: Config, run: nat -> State) {
    && |c.buffers| == c.slotCount
    && run(0) == Initial(c)
    && forall i: nat :: Moves(c, run, i)
  }

  ghost predicate Moves(c: Config, run: nat -> State, i: nat) { Terminal(run(i)) || Steps(c, run(i), run(i + 1)) }

  /** How a run ends: either every tensor is in place, or the read named by the failure was short. */
  ghost predicate EndsWell(c: Config, s: State) {
    && (s.host.Done? ==> Materialized(c, s.device))
    && (s.host.Failed? ==> ShortReadSeen(c, s))
  }

  lemma {:induction false} RunFrom(c: Config, run: nat -> State, i: nat) returns (k: nat)
    requires Ready(c) && IsRun(c, run) && Inv(c, run(i))
    ensures Terminal(run(k)) && Inv(c, run(k))
    decreases Left(c, run(i)).host, Left(c, run(i)).todo, Left(c, run(i)).stream,
              Left(c, run(i)).queue, Left(c, run(i)).work
  {
    if Terminal(run(i)) {
      k := i;
    } else {
      assert Moves(c, run, i);
      var l :| Next(c, run(i), l, run(i + 1));
      StepKeeps(c, run(i), l, run(i + 1));
      StepCloser(c, run(i), l, run(i + 1));
      LeftNonNegative(c, run(i));
      LeftNonNegative(c, run(i + 1));
      k := RunFrom(c, run, i + 1);
    }
  }

  /** Every run, whatever the scheduling, comes to an end, and ends well. */
  lemma EveryRunEndsWell(c: Config, run: nat -> State)
    requires Ready(c) && IsRun(c, run)
    ensures exists k: nat :: Terminal(run(k)) && EndsWell(c, run(k))
  {
    InitialInv(c);
    var k := RunFrom(c, run, 0);
    if run(k).host.Done? { DoneIsMaterialized(c, run(k)); }
    assert EndsWell(c, run(k));
  }

  /** A finite run, step by step. */
  ghost predicate IsPath(c: Config, path: seq<State>) {
    && |c.buffers| == c.slotCount && |path| > 0 && path[0] == Initial(c)
    && forall i | 0 <= i < |path| - 1 :: Steps(c, path[i], path[i + 1])
  }

  /** Safety in every reachable state: the invariant holds, and the state is final or can move. */
  lemma {:induction false} EveryReachableState(c: Config, path: seq<State>)
    requires Ready(c) && IsPath(c, path)
    ensures Inv(c, path[|path| - 1])
    ensures Terminal(path[|path| - 1]) || CanStep(c, path[|path| - 1])
  {
    var n := |path| - 1;
    if n == 0 {
      InitialInv(c);
    } else {
      EveryReachableState(c, path[..n]);
      assert Steps(c, path[n - 1], path[n - 1 + 1]);
      var l :| Next(c, path[n - 1], l, path[n]);
      StepKeeps(c, path[n - 1], l, path[n]);
    }
    if !Terminal(path[n]) { NotStuck(c, path[n]); }
  }
}
