/** The concurrent half of artifact materialization (src/artifact/materializer.cpp): read workers fill
    at most eight reused staging slots, the host loop enqueues copies and resubmits reads, and the
    load stream executes the copies asynchronously. The model is a step system; a run is any
    interleaving of its steps. */
module Pipeline {
  import opened Arith
  import opened Bytes
  import opened Results
  import opened ReadPlan

  /** What a run is given: the file, the plan, the number of slots and their initial contents, and
      the device memory before the run. */
  datatype Config = Config(
    file: seq<byte>, ranges: seq<CopyRange>, chunks: seq<ReadChunk>,
    slotCount: nat, slotBytes: nat, buffers: seq<seq<byte>>, memory: seq<byte>)

  // The larger predicates of this module are written as one equation, `true == (...)`, so that the
  // verifier passes them between lemmas whole.
  predicate DestinationsFit(ranges: seq<CopyRange>, size: nat) {
    true == (
      && (forall i | 0 <= i < |ranges| :: ranges[i].dest + (ranges[i].end - ranges[i].begin) <= size)
      && forall i, j | 0 <= i < j < |ranges| ::
           || ranges[i].dest + (ranges[i].end - ranges[i].begin) <= ranges[j].dest
           || ranges[j].dest + (ranges[j].end - ranges[j].begin) <= ranges[i].dest)
  }

  ghost predicate Ready(c: Config) {
    true == (
      && Complete(c.ranges, c.chunks) && c.chunks != []
      && c.slotCount == Min(MAX_SLOTS, |c.chunks|)
      && (forall k | 0 <= k < |c.chunks| :: c.chunks[k].request <= c.slotBytes)
      && |c.buffers| == c.slotCount && (forall t | 0 <= t < |c.buffers| :: |c.buffers[t]| == c.slotBytes)
      && DestinationsFit(c.ranges, |c.memory|))
  }

  /** The smallest run: one tensor of one byte. */
  lemma SmallestRun() returns (c: Config)
    ensures Ready(c)
  {
    c := Config([7], [CopyRange(0, 1, 0)], [ReadChunk(0, BLOCK, 1)], 1, BLOCK, [seq(BLOCK, _ => 0)], [0]);
    forall i: nat, x: nat | TensorByte(c.ranges, i, x) ensures HasChunk(c.chunks, x) {
      assert Covers(c.chunks[0], x);
    }
  }

  // ---------------------------------------------------------------------------------------------
  // States
  // ---------------------------------------------------------------------------------------------

  /** The life of one chunk's read task. `after` says that the task carries the slot's event;
      `mark` is the stream position the event stood for when the wait began. */
  datatype Phase =
    | Unsubmitted
    | Queued(after: bool)
    | Claimed(after: bool)
    | Waiting(mark: nat)
    | Reading(got: nat)
    | Delivered(bytes: nat)
  {
    predicate Held() { Claimed? || Waiting? || Reading? }
    predicate Started() { Reading? || Delivered? }
  }

  /** The host loop's position. */
  datatype Host =
    | Submit(i: nat)
    | Get(k: nat)
    | Enqueue(k: nat, todo: seq<Copy>)
    | Resubmit(k: nat)
    | Drain(slot: nat)
    | Sync
    | Done
    | Failed(k: nat)

  datatype Command = CopyCommand(chunk: nat, copy: Copy) | RecordCommand(chunk: nat)

  /** `inbox[t]` names the chunk whose future sits in `reads[t]`; `marks[t]` is the stream position
      of slot t's last event record; `done` holds the read lengths the host has taken. */
  datatype State = State(
    host: Host, phases: seq<Phase>, queue: seq<nat>, workers: seq<Option<nat>>, inbox: seq<nat>,
    slots: seq<seq<byte>>, pending: seq<bool>, marks: seq<nat>, stream: seq<Command>, executed: nat,
    device: seq<byte>, done: seq<nat>, next: nat, copied: nat)

  function Initial(c: Config): State
    requires |c.buffers| == c.slotCount
  {
    State(Submit(0), Const(|c.chunks|, Unsubmitted), [], Const(c.slotCount, None),
          Const(c.slotCount, 0), c.buffers, Const(c.slotCount, false), Const(c.slotCount, 0),
          [], 0, c.memory, [], 0, 0)
  }

  function Const<T>(n: nat, x: T): (s: seq<T>)
    ensures |s| == n && forall i | 0 <= i < n :: s[i] == x
  {
    seq(n, _ => x)
  }

  predicate Terminal(s: State) { s.host.Done? || s.host.Failed? }

  /** The lengths and bounds every state keeps. */
  predicate Shape(c: Config, s: State) {
    true == (
      && |s.phases| == |c.chunks|
      && |s.workers| == |s.inbox| == |s.slots| == |s.pending| == |s.marks| == c.slotCount > 0
      && (forall t | 0 <= t < |s.slots| :: |s.slots[t]| == c.slotBytes)
      && |s.device| == |c.memory|
      && s.executed <= |s.stream|
      && (forall w | 0 <= w < |s.workers| && s.workers[w].Some? :: s.workers[w].value < |c.chunks|)
      && (forall q | 0 <= q < |s.queue| :: s.queue[q] < |c.chunks|)
      && (forall t | 0 <= t < |s.inbox| :: s.inbox[t] < |c.chunks|)
      && HostInBounds(c, s.host))
  }

  predicate HostInBounds(c: Config, host: Host) {
    match host
    case Submit(i) => i < c.slotCount
    case Get(k) => k < |c.chunks|
    case Enqueue(k, _) => k < |c.chunks|
    case Resubmit(k) => k < |c.chunks|
    case Drain(t) => t <= c.slotCount
    case _ => true
  }

  // ---------------------------------------------------------------------------------------------
  // Steps
  // ---------------------------------------------------------------------------------------------

  datatype Label =
    | HostStep | StreamStep
    | Pop(w: nat) | Start(w: nat) | Synced(w: nat) | ReadByte(w: nat) | Deliver(w: nat)

  function SubmitRead(c: Config, s: State, j: nat, after: bool): State
    requires Shape(c, s) && j < |c.chunks|
  {
    s.(phases := s.phases[j := Queued(after)], queue := s.queue + [j],
       inbox := s.inbox[j % c.slotCount := j])
  }

  predicate HostNext(c: Config, s: State, s': State)
    requires Shape(c, s)
  {
    match s.host
    case Submit(i) =>
      && i < |c.chunks|
      && s' == SubmitRead(c, s, i, false).(host := if i + 1 == c.slotCount then Get(0) else Submit(i + 1))
    case Get(k) =>
      var read := s.phases[s.inbox[k % c.slotCount]];
      && read.Delivered?
      && if read.bytes < c.chunks[k].required then s' == s.(host := Failed(k))
         else
           var end := c.chunks[k].source + read.bytes;
           && IsCursor(c.ranges, s'.next, end)
           && s' == s.(host := Enqueue(k, Intersections(c.ranges, 0, c.chunks[k].source, end)),
                       done := s.done + [read.bytes], next := s'.next)
    case Enqueue(k, todo) =>
      if todo != [] then
        && todo[0].begin < todo[0].end
        && s' == s.(host := Enqueue(k, todo[1..]), stream := s.stream + [CopyCommand(k, todo[0])],
                    copied := s.copied + (todo[0].end - todo[0].begin))
      else
        s' == s.(host := Resubmit(k), stream := s.stream + [RecordCommand(k)],
                 marks := s.marks[k % c.slotCount := |s.stream| + 1],
                 pending := s.pending[k % c.slotCount := true])
    case Resubmit(k) =>
      var s1 := if k + c.slotCount < |c.chunks| then SubmitRead(c, s, k + c.slotCount, true) else s;
      s' == s1.(host := if k + 1 == |c.chunks| then Drain(0) else Get(k + 1))
    case Drain(t) =>
      if t == c.slotCount then s' == s.(host := Sync)
      else
        && (s.pending[t] ==> s.marks[t] <= s.executed)
        && s' == s.(host := Drain(t + 1), pending := s.pending[t := false])
    case Sync =>
      && s.executed == |s.stream|
      && s' == s.(host := if s.copied == TotalBytes(c.ranges, 0) && s.next == |c.ranges| then Done
                          else Failed(|c.chunks|))
    case Done => false
    case Failed(_) => false
  }

  /** Where a copy reads and writes. */
  predicate CopyInBounds(c: Config, k: nat, copy: Copy) {
    && k < |c.chunks| && copy.range < |c.ranges|
    && c.chunks[k].source <= copy.begin <= copy.end <= c.chunks[k].source + c.slotBytes
    && c.ranges[copy.range].begin <= copy.begin && copy.end <= c.ranges[copy.range].end
    && c.ranges[copy.range].dest + (c.ranges[copy.range].end - c.ranges[copy.range].begin) <= |c.memory|
  }

  function Destination(c: Config, copy: Copy): nat
    requires copy.range < |c.ranges| && c.ranges[copy.range].begin <= copy.begin
  {
    c.ranges[copy.range].dest + (copy.begin - c.ranges[copy.range].begin)
  }

  function Staged(c: Config, s: State, k: nat, copy: Copy): seq<byte>
    requires Shape(c, s) && CopyInBounds(c, k, copy)
  {
    s.slots[k % c.slotCount][copy.begin - c.chunks[k].source..copy.end - c.chunks[k].source]
  }

  /** The stream runs its commands in order; a copy takes the slot's bytes as they are then. */
  predicate StreamNext(c: Config, s: State, s': State)
    requires Shape(c, s)
  {
    && s.executed < |s.stream|
    && match s.stream[s.executed]
       case RecordCommand(_) => s' == s.(executed := s.executed + 1)
       case CopyCommand(k, copy) =>
         && CopyInBounds(c, k, copy)
         && s' == s.(executed := s.executed + 1,
                     device := Splice(s.device, Destination(c, copy), Staged(c, s, k, copy)))
  }

  predicate Holds(s: State, w: nat) { w < |s.workers| && s.workers[w].Some? }

  predicate WorkerNext(c: Config, s: State, l: Label, s': State)
    requires Shape(c, s)
  {
    match l
    case Pop(w) =>
      && w < |s.workers| && s.workers[w].None? && s.queue != []
      && s.phases[s.queue[0]].Queued?
      && s' == s.(queue := s.queue[1..], workers := s.workers[w := Some(s.queue[0])],
                  phases := s.phases[s.queue[0] := Claimed(s.phases[s.queue[0]].after)])
    case Start(w) =>
      && Holds(s, w)
      && var j := s.workers[w].value;
         && s.phases[j].Claimed?
         && s' == s.(phases := s.phases[j := if s.phases[j].after then Waiting(s.marks[j % c.slotCount])
                                             else Reading(0)])
    case Synced(w) =>
      && Holds(s, w)
      && var j := s.workers[w].value;
         && s.phases[j].Waiting? && s.phases[j].mark <= s.executed
         && s' == s.(phases := s.phases[j := Reading(0)])
    case ReadByte(w) =>
      && Holds(s, w)
      && var j := s.workers[w].value;
         && s.phases[j].Reading?
         && var got := s.phases[j].got;
            && got < c.chunks[j].request <= c.slotBytes && c.chunks[j].source + got < |c.file|
            && s' == s.(phases := s.phases[j := Reading(got + 1)],
                        slots := s.slots[j % c.slotCount :=
                          s.slots[j % c.slotCount][got := c.file[c.chunks[j].source + got]]])
    case Deliver(w) =>
      && Holds(s, w)
      && var j := s.workers[w].value;
         && s.phases[j].Reading?
         && s' == s.(phases := s.phases[j := Delivered(s.phases[j].got)],
                     workers := s.workers[w := None])
    case _ => false
  }

  predicate Next(c: Config, s: State, l: Label, s': State) {
    true == (
      && Shape(c, s)
      && match l
         case HostStep => HostNext(c, s, s')
         case StreamStep => StreamNext(c, s, s')
         case _ => WorkerNext(c, s, l, s'))
  }

  // ---------------------------------------------------------------------------------------------
  // The invariant
  // ---------------------------------------------------------------------------------------------

  /** How many chunks have been submitted for reading, and how many reads the host has taken. */
  function Submitted(c: Config, host: Host): int {
    match host
    case Submit(i) => i
    case Get(k) => Min(|c.chunks|, k + c.slotCount)
    case Enqueue(k, _) => Min(|c.chunks|, k + c.slotCount)
    case Resubmit(k) => Min(|c.chunks|, k + c.slotCount)
    case Failed(k) => Min(|c.chunks|, k + c.slotCount)
    case _ => |c.chunks|
  }

  function Consumed(c: Config, host: Host): int {
    match host
    case Submit(i) => 0
    case Get(k) => k
    case Enqueue(k, _) => k + 1
    case Resubmit(k) => k + 1
    case Failed(k) => k
    case _ => |c.chunks|
  }

  predicate ReadWithin(c: Config, j: nat, got: nat)
    requires j < |c.chunks|
  {
    got <= c.chunks[j].request && (got > 0 ==> c.chunks[j].source + got <= |c.file|)
  }

  predicate PhaseOk(c: Config, submitted: int, done: seq<nat>, j: nat, p: Phase)
    requires j < |c.chunks|
  {
    true == (
      && (p.Unsubmitted? <==> j >= submitted)
      && (j < |done| ==> p == Delivered(done[j]))
      && (p.Reading? ==> ReadWithin(c, j, p.got))
      && (p.Delivered? ==> ReadWithin(c, j, p.bytes))
      && (p.Queued? || p.Claimed? ==> (p.after <==> j >= c.slotCount))
      && (p.Waiting? ==> j >= c.slotCount))
  }

  predicate PhasesOk(c: Config, host: Host, phases: seq<Phase>, done: seq<nat>) {
    true == (
      && |phases| == |c.chunks| && |done| == Consumed(c, host) && Permitted(c.chunks, done)
      && forall j | 0 <= j < |phases| :: PhaseOk(c, Submitted(c, host), done, j, phases[j]))
  }

  predicate QueueOk(phases: seq<Phase>, queue: seq<nat>) {
    true == (
      && (forall q | 0 <= q < |queue| :: queue[q] < |phases| && phases[queue[q]].Queued?)
      && (forall q, r | 0 <= q < r < |queue| :: queue[q] != queue[r])
      && forall j | 0 <= j < |phases| && phases[j].Queued? :: j in queue)
  }

  ghost predicate WorkersOk(phases: seq<Phase>, workers: seq<Option<nat>>) {
    true == (
      && (forall w | 0 <= w < |workers| && workers[w].Some? ::
            workers[w].value < |phases| && phases[workers[w].value].Held())
      && (forall v, w | 0 <= v < w < |workers| && workers[v].Some? && workers[w].Some? :: workers[v] != workers[w])
      && forall j {:trigger IsHeld(workers, j)} | 0 <= j < |phases| && phases[j].Held() :: IsHeld(workers, j))
  }

  ghost predicate IsHeld(workers: seq<Option<nat>>, j: nat) {
    exists w :: 0 <= w < |workers| && workers[w] == Some(j)
  }

  /** The future the host takes for chunk j is the one of chunk j's own read. */
  predicate InboxOk(c: Config, host: Host, inbox: seq<nat>) {
    true == (
      && c.slotCount > 0 && |inbox| == c.slotCount
      && forall j | Consumed(c, host) <= j < Submitted(c, host) :: inbox[j % c.slotCount] == j)
  }

  /** Every command of chunks up to `j` stands before stream position `m`. */
  predicate CommandsBefore(stream: seq<Command>, j: int, m: nat) {
    forall x | 0 <= x < |stream| && stream[x].chunk <= j :: x < m
  }

  /** What the event handed to chunk j's task stands for: when the wait is over, no command of the
      slot's previous chunk is outstanding. */
  predicate MarkOk(c: Config, stream: seq<Command>, executed: nat, marks: seq<nat>, j: nat, p: Phase)
    requires |marks| == c.slotCount > 0
  {
    true == (
      var previous := j - c.slotCount;
      && (p.Queued? || p.Claimed? ==> CommandsBefore(stream, previous, marks[j % c.slotCount]))
      && (p.Waiting? ==> CommandsBefore(stream, previous, p.mark) && p.mark <= |stream|)
      && (p.Started() ==> CommandsBefore(stream, previous, executed)))
  }

  predicate MarksOk(c: Config, phases: seq<Phase>, stream: seq<Command>, executed: nat, marks: seq<nat>) {
    true == (
      && |marks| == c.slotCount > 0
      && (forall t | 0 <= t < |marks| :: marks[t] <= |stream|)
      && forall j | 0 <= j < |phases| :: MarkOk(c, stream, executed, marks, j, phases[j]))
  }

  predicate CommandOk(c: Config, done: seq<nat>, cmd: Command)
  {
    && cmd.chunk < |done| <= |c.chunks|
    && (cmd.CopyCommand? ==>
          var lo := c.chunks[cmd.chunk].source;
          Proper(c.ranges, lo, lo + done[cmd.chunk], cmd.copy))
  }

  predicate StreamOk(c: Config, host: Host, done: seq<nat>, stream: seq<Command>) {
    true == (
      && (forall x | 0 <= x < |stream| :: CommandOk(c, done, stream[x]))
      && (host.Enqueue? ==> forall x | 0 <= x < |host.todo| ::
            CommandOk(c, done, CopyCommand(host.k, host.todo[x]))))
  }

  /** The slot starts with `got` bytes of the file from `source` on. */
  predicate Begins(slot: seq<byte>, file: seq<byte>, source: nat, got: nat) {
    got <= |slot| && forall x | 0 <= x < got :: source + x < |file| && slot[x] == file[source + x]
  }

  /** Slot j mod S starts with `got` file bytes of chunk j. */
  predicate SlotHolds(c: Config, slots: seq<seq<byte>>, j: nat, got: nat)
    requires j < |c.chunks| && |slots| == c.slotCount > 0
  {
    Begins(slots[j % c.slotCount], c.file, c.chunks[j].source, got)
  }

  predicate Superseded(c: Config, phases: seq<Phase>, j: nat) {
    j + c.slotCount < |phases| && phases[j + c.slotCount].Started()
  }

  predicate SlotOk(c: Config, phases: seq<Phase>, slots: seq<seq<byte>>, j: nat)
    requires j < |c.chunks| == |phases| && |slots| == c.slotCount > 0
  {
    match phases[j]
    case Reading(got) => SlotHolds(c, slots, j, got)
    case Delivered(bytes) => Superseded(c, phases, j) || SlotHolds(c, slots, j, bytes)
    case _ => true
  }

  predicate SlotsOk(c: Config, phases: seq<Phase>, slots: seq<seq<byte>>) {
    true == (
      && |phases| == |c.chunks| && |slots| == c.slotCount > 0
      && forall j {:trigger SlotOk(c, phases, slots, j)} | 0 <= j < |phases| :: SlotOk(c, phases, slots, j))
  }

  /** The copies among the commands. */
  function Copies(stream: seq<Command>): seq<Copy> {
    if stream == [] then []
    else Copies(stream[..|stream| - 1]) +
         (if stream[|stream| - 1].CopyCommand? then [stream[|stream| - 1].copy] else [])
  }

  /** Device memory after copying straight from the file: the reference meaning of the copies. */
  function Replay(c: Config, copies: seq<Copy>): (m: seq<byte>)
    ensures |m| == |c.memory|
  {
    if copies == [] then c.memory
    else
      var m := Replay(c, copies[..|copies| - 1]);
      var copy := copies[|copies| - 1];
      if CopyFits(c, copy) then Splice(m, Destination(c, copy), c.file[copy.begin..copy.end]) else m
  }

  predicate CopyFits(c: Config, copy: Copy) {
    && copy.range < |c.ranges| && c.ranges[copy.range].begin <= copy.begin <= copy.end <= |c.file|
    && Destination(c, copy) + (copy.end - copy.begin) <= |c.memory|
  }

  function Todo(host: Host): seq<Copy> { if host.Enqueue? then host.todo else [] }

  ghost predicate Inv(c: Config, s: State) {
    true == (
      && Shape(c, s)
      && PhasesOk(c, s.host, s.phases, s.done)
      && QueueOk(s.phases, s.queue)
      && WorkersOk(s.phases, s.workers)
      && InboxOk(c, s.host, s.inbox)
      && MarksOk(c, s.phases, s.stream, s.executed, s.marks)
      && StreamOk(c, s.host, s.done, s.stream)
      && SlotsOk(c, s.phases, s.slots)
      && s.device == Replay(c, Copies(s.stream[..s.executed]))
      && HostAt(c.ranges, c.chunks, s.done, s.next, s.copied + CopyBytes(Todo(s.host)),
                Copies(s.stream) + Todo(s.host))
      && (s.host.Failed? ==> ShortReadSeen(c, s))
      && (s.host.Resubmit? ==> s.marks[s.host.k % c.slotCount] == |s.stream|)
      && (s.host.Done? ==> s.executed == |s.stream|))
  }

  /** The read of the chunk the run failed on came back short. */
  predicate ShortReadSeen(c: Config, s: State) {
    && s.host.Failed? && s.host.k < |c.chunks| == |s.phases|
    && s.phases[s.host.k].Delivered? && s.phases[s.host.k].bytes < c.chunks[s.host.k].required
  }
}
