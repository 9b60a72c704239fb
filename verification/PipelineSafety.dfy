/** Safety of the materialization pipeline: its invariant holds initially and survives every step of
    every component, so in every interleaving a copy moves its own chunk's file bytes. */
module PipelineSafety {
  import opened Arith
  import opened Bytes
  import opened Results
  import opened ReadPlan
  import opened Pipeline

  /** The invariant from its parts, so that a step's proof can settle each part by itself. */
  lemma Assemble(c: Config, s: State)
    requires Shape(c, s)
    requires PhasesOk(c, s.host, s.phases, s.done)
    requires QueueOk(s.phases, s.queue)
    requires WorkersOk(s.phases, s.workers)
    requires InboxOk(c, s.host, s.inbox)
    requires MarksOk(c, s.phases, s.stream, s.executed, s.marks)
    requires StreamOk(c, s.host, s.done, s.stream)
    requires SlotsOk(c, s.phases, s.slots)
    requires s.device == Replay(c, Copies(s.stream[..s.executed]))
    requires HostAt(c.ranges, c.chunks, s.done, s.next, s.copied + CopyBytes(Todo(s.host)),
                    Copies(s.stream) + Todo(s.host))
    requires s.host.Failed? ==> ShortReadSeen(c, s)
    requires s.host.Resubmit? ==> s.marks[s.host.k % c.slotCount] == |s.stream|
    requires s.host.Done? ==> s.executed == |s.stream|
    ensures Inv(c, s)
  {}

  lemma InitialShape(c: Config)
    requires Ready(c)
    ensures Shape(c, Initial(c))
    ensures PhasesOk(c, Submit(0), Initial(c).phases, [])
    ensures MarksOk(c, Initial(c).phases, [], 0, Initial(c).marks)
    ensures InboxOk(c, Submit(0), Initial(c).inbox)
  {
    var s := Initial(c);
    assert forall j | 0 <= j < |s.phases| :: s.phases[j] == Unsubmitted;
  }

  lemma InitialTasks(c: Config)
    requires |c.buffers| == c.slotCount > 0
    ensures var s := Initial(c);
            QueueOk(s.phases, s.queue) && WorkersOk(s.phases, s.workers) && SlotsOk(c, s.phases, s.slots)
  {
    var phases, workers := Initial(c).phases, Initial(c).workers;
    assert forall j | 0 <= j < |phases| :: phases[j] == Unsubmitted;
    assert forall w | 0 <= w < |workers| :: workers[w] == None;
  }

  lemma InitialInv(c: Config)
    requires Ready(c)
    ensures Inv(c, Initial(c))
  {
    InitialShape(c);
    InitialTasks(c);
    BelowZero(c.ranges, 0);
    assert CopyBytes([]) == 0 && Copies([]) == [];
    assert HostAt(c.ranges, c.chunks, [], 0, 0, []);
    Assemble(c, Initial(c));
  }

  /** At most one slot's worth of reads is outstanding. */
  lemma Window(c: Config, host: Host)
    requires HostInBounds(c, host) && 0 < c.slotCount
    ensures Submitted(c, host) <= Consumed(c, host) + c.slotCount
  {}

  /** While chunk j is being read, no other chunk relies on the contents of its slot. */
  lemma SlotExclusive(c: Config, s: State, i: nat, j: nat)
    requires Ready(c) && Shape(c, s) && PhasesOk(c, s.host, s.phases, s.done)
    requires i < |s.phases| && j < |s.phases| && i != j && i % c.slotCount == j % c.slotCount
    requires s.phases[j].Reading? && s.phases[i].Started()
    ensures s.phases[i].Delivered? && Superseded(c, s.phases, i)
  {
    Window(c, s.host);
    var n := c.slotCount;
    assert PhaseOk(c, Submitted(c, s.host), s.done, i, s.phases[i]);
    assert PhaseOk(c, Submitted(c, s.host), s.done, j, s.phases[j]);
    if i < j {
      SameResidueApart(i, j, n);
      assert PhaseOk(c, Submitted(c, s.host), s.done, i + n, s.phases[i + n]);
      if i + n < j {
        ModShift(i, n);
        SameResidueApart(i + n, j, n);
      }
    } else {
      SameResidueApart(j, i, n);
    }
  }

  // ---------------------------------------------------------------------------------------------
  // Read workers
  // ---------------------------------------------------------------------------------------------

  lemma PhasesUpdate(c: Config, s: State, j: nat, p: Phase)
    requires Shape(c, s) && PhasesOk(c, s.host, s.phases, s.done) && j < |s.phases|
    requires PhaseOk(c, Submitted(c, s.host), s.done, j, p)
    ensures PhasesOk(c, s.host, s.phases[j := p], s.done)
  {
    var phases' := s.phases[j := p];
    forall i | 0 <= i < |phases'|
      ensures PhaseOk(c, Submitted(c, s.host), s.done, i, phases'[i])
    {
      if i != j { assert PhaseOk(c, Submitted(c, s.host), s.done, i, s.phases[i]); }
    }
  }

  lemma MarksUpdate(c: Config, s: State, j: nat, p: Phase)
    requires Shape(c, s) && MarksOk(c, s.phases, s.stream, s.executed, s.marks) && j < |s.phases|
    requires MarkOk(c, s.stream, s.executed, s.marks, j, p)
    ensures MarksOk(c, s.phases[j := p], s.stream, s.executed, s.marks)
  {}

  /** Changing one phase keeps the slots' meaning as long as that chunk's own claim holds and no
      chunk loses its successor. */
  lemma SlotsUpdate(c: Config, s: State, j: nat, p: Phase)
    requires Shape(c, s) && SlotsOk(c, s.phases, s.slots) && j < |s.phases|
    requires s.phases[j].Started() ==> p.Started()
    requires p.Reading? ==> SlotHolds(c, s.slots, j, p.got)
    requires p.Delivered? ==> SlotHolds(c, s.slots, j, p.bytes)
    ensures SlotsOk(c, s.phases[j := p], s.slots)
  {
    var phases' := s.phases[j := p];
    forall i | 0 <= i < |phases'| ensures SlotOk(c, phases', s.slots, i) {
      assert SlotOk(c, s.phases, s.slots, i);
    }
  }

  lemma WorkersUpdate(phases: seq<Phase>, workers: seq<Option<nat>>, w: nat, p: Phase)
    requires WorkersOk(phases, workers) && w < |workers| && workers[w].Some? && p.Held()
    ensures workers[w].value < |phases| && WorkersOk(phases[workers[w].value := p], workers)
  {
    var phases' := phases[workers[w].value := p];
    forall j | 0 <= j < |phases'| && phases'[j].Held() ensures IsHeld(workers, j) {
      assert phases[j].Held() ==> IsHeld(workers, j);
    }
  }

  /** What the invariant says about one chunk. */
  lemma ChunkFacts(c: Config, s: State, j: nat)
    requires Inv(c, s) && j < |s.phases|
    ensures Shape(c, s) && PhaseOk(c, Submitted(c, s.host), s.done, j, s.phases[j])
    ensures MarkOk(c, s.stream, s.executed, s.marks, j, s.phases[j]) && SlotOk(c, s.phases, s.slots, j)
    ensures s.marks[j % c.slotCount] <= |s.stream|
  {
    hide Complete, DestinationsFit, ReadPlan.HostAt, InboxOk, StreamOk, QueueOk, WorkersOk, PhaseOk, MarkOk, SlotOk;
  }

  lemma PopKeeps(c: Config, s: State, w: nat, s': State)
    requires Ready(c) && Inv(c, s) && Next(c, s, Pop(w), s')
    ensures Inv(c, s')
  {
    hide Complete, DestinationsFit, ReadPlan.HostAt, Intersections, InboxOk, StreamOk, QueueOk, WorkersOk, SlotsOk,
      MarksOk,
      PhasesOk;
    var j := s.queue[0];
    var p := Claimed(s.phases[j].after);
    ChunkFacts(c, s, j);
    PhasesUpdate(c, s, j, p);
    MarksUpdate(c, s, j, p);
    SlotsUpdate(c, s, j, p);
    PopQueue(s.phases, s.queue, p);
    PopWorkers(s.phases, s.workers, w, j, p);
    WorkerAssemble(c, s, s');
  }

  lemma PopQueue(phases: seq<Phase>, queue: seq<nat>, p: Phase)
    requires QueueOk(phases, queue) && queue != [] && p.Claimed?
    ensures QueueOk(phases[queue[0] := p], queue[1..])
  {
    var phases' := phases[queue[0] := p];
    forall i | 0 <= i < |phases'| && phases'[i].Queued? ensures i in queue[1..] {
      assert i in queue && i != queue[0];
    }
  }

  lemma PopWorkers(phases: seq<Phase>, workers: seq<Option<nat>>, w: nat, j: nat, p: Phase)
    requires WorkersOk(phases, workers) && w < |workers| && workers[w].None?
    requires j < |phases| && phases[j].Queued? && p.Claimed?
    ensures WorkersOk(phases[j := p], workers[w := Some(j)])
  {
    var phases', workers' := phases[j := p], workers[w := Some(j)];
    forall i | 0 <= i < |phases'| && phases'[i].Held() ensures IsHeld(workers', i) {
      if i == j {
        assert workers'[w] == Some(i);
      } else {
        assert IsHeld(workers, i);
        var v :| 0 <= v < |workers| && workers[v] == Some(i);
        assert workers'[v] == Some(i);
      }
    }
  }

  lemma StartKeeps(c: Config, s: State, w: nat, s': State)
    requires Ready(c) && Inv(c, s) && Next(c, s, Start(w), s')
    ensures Inv(c, s')
  {
    hide Complete, DestinationsFit, ReadPlan.HostAt, Intersections, InboxOk, StreamOk, QueueOk, WorkersOk, SlotsOk,
      MarksOk,
      PhasesOk;
    var j := s.workers[w].value;
    var p := s'.phases[j];
    ChunkFacts(c, s, j);
    ChunksBeforeNone(c, s, j);
    PhasesUpdate(c, s, j, p);
    MarksUpdate(c, s, j, p);
    SlotsUpdate(c, s, j, p);
    WorkersUpdate(s.phases, s.workers, w, p);
    QueueUpdate(s.phases, s.queue, j, p);
    WorkerAssemble(c, s, s');
  }

  /** The first chunk of a slot waits for nobody. */
  lemma ChunksBeforeNone(c: Config, s: State, j: nat)
    ensures j < c.slotCount ==> CommandsBefore(s.stream, j - c.slotCount, s.executed)
  {}

  lemma SyncedKeeps(c: Config, s: State, w: nat, s': State)
    requires Ready(c) && Inv(c, s) && Next(c, s, Synced(w), s')
    ensures Inv(c, s')
  {
    hide Complete, DestinationsFit, ReadPlan.HostAt, Intersections, InboxOk, StreamOk, QueueOk, WorkersOk, SlotsOk,
      MarksOk,
      PhasesOk;
    var j := s.workers[w].value;
    ChunkFacts(c, s, j);
    PhasesUpdate(c, s, j, Reading(0));
    MarksUpdate(c, s, j, Reading(0));
    SlotsUpdate(c, s, j, Reading(0));
    WorkersUpdate(s.phases, s.workers, w, Reading(0));
    QueueUpdate(s.phases, s.queue, j, Reading(0));
    WorkerAssemble(c, s, s');
  }

  /** Writing byte `got` of chunk j's slot disturbs no other slot and no earlier byte. */
  lemma SlotWrite(c: Config, slots: seq<seq<byte>>, j: nat, got: nat, i: nat, g: nat)
    requires i < |c.chunks| && j < |c.chunks| && |slots| == c.slotCount > 0
    requires got < |slots[j % c.slotCount]| && c.chunks[j].source + got < |c.file|
    ensures var slots' := slots[j % c.slotCount :=
                            slots[j % c.slotCount][got := c.file[c.chunks[j].source + got]]];
            && (SlotHolds(c, slots, i, g) && (i % c.slotCount != j % c.slotCount || (i == j && g <= got)) ==>
                  SlotHolds(c, slots', i, g))
            && (SlotHolds(c, slots, j, got) ==> SlotHolds(c, slots', j, got + 1))
  {
    hide Begins;
    var t, u := j % c.slotCount, i % c.slotCount;
    var byte := c.file[c.chunks[j].source + got];
    var slots' := slots[t := slots[t][got := byte]];
    assert slots'[t] == slots[t][got := byte];
    if u != t { assert slots'[u] == slots[u]; }
    BeginsOn(slots[t], c.file, c.chunks[j].source, got, g);
  }

  lemma BeginsOn(slot: seq<byte>, file: seq<byte>, source: nat, got: nat, g: nat)
    requires got < |slot| && source + got < |file|
    ensures Begins(slot, file, source, got) ==> Begins(slot[got := file[source + got]], file, source, got + 1)
    ensures Begins(slot, file, source, g) && g <= got ==> Begins(slot[got := file[source + got]], file, source, g)
  {}

  lemma ReadByteSlots(c: Config, s: State, j: nat, slots': seq<seq<byte>>)
    requires Ready(c) && Shape(c, s) && PhasesOk(c, s.host, s.phases, s.done)
    requires j < |s.phases| && s.phases[j].Reading? && SlotsOk(c, s.phases, s.slots)
    requires s.phases[j].got < c.slotBytes && c.chunks[j].source + s.phases[j].got < |c.file|
    requires slots' == s.slots[j % c.slotCount :=
               s.slots[j % c.slotCount][s.phases[j].got := c.file[c.chunks[j].source + s.phases[j].got]]]
    ensures SlotsOk(c, s.phases[j := Reading(s.phases[j].got + 1)], slots')
  {
    var got := s.phases[j].got;
    var phases' := s.phases[j := Reading(got + 1)];
    assert SlotOk(c, s.phases, s.slots, j);
    SlotWrite(c, s.slots, j, got, j, got);
    forall i | 0 <= i < |phases'| ensures SlotOk(c, phases', slots', i) {
      ReadByteSlot(c, s, j, slots', i);
    }
  }

  lemma ReadByteSlot(c: Config, s: State, j: nat, slots': seq<seq<byte>>, i: nat)
    requires Ready(c) && Shape(c, s) && PhasesOk(c, s.host, s.phases, s.done)
    requires i < |s.phases| && j < |s.phases| && s.phases[j].Reading? && SlotsOk(c, s.phases, s.slots)
    requires s.phases[j].got < c.slotBytes && c.chunks[j].source + s.phases[j].got < |c.file|
    requires slots' == s.slots[j % c.slotCount :=
               s.slots[j % c.slotCount][s.phases[j].got := c.file[c.chunks[j].source + s.phases[j].got]]]
    requires SlotHolds(c, slots', j, s.phases[j].got + 1)
    ensures SlotOk(c, s.phases[j := Reading(s.phases[j].got + 1)], slots', i)
  {
    if i != j && s.phases[i].Started() {
      assert SlotOk(c, s.phases, s.slots, i);
      if i % c.slotCount == j % c.slotCount {
        SlotExclusive(c, s, i, j);
      } else {
        var g := if s.phases[i].Reading? then s.phases[i].got else s.phases[i].bytes;
        SlotWrite(c, s.slots, j, s.phases[j].got, i, g);
      }
    }
  }

  /** What no read worker touches. Written as one equation, `true == (...)`, so that the verifier passes it
      between lemmas whole. */
  predicate WorkerFrame(s: State, s': State) {
    true == (
      && s'.host == s.host && s'.inbox == s.inbox && s'.marks == s.marks && s'.stream == s.stream
      && s'.executed == s.executed && s'.done == s.done && s'.device == s.device && s'.next == s.next
      && s'.copied == s.copied)
  }

  lemma ReadByteEffect(c: Config, s: State, w: nat, s': State)
    requires Next(c, s, ReadByte(w), s')
    ensures Holds(s, w) && WorkerFrame(s, s') && Shape(c, s) && Shape(c, s')
    ensures var j := s.workers[w].value;
            && s.phases[j].Reading?
            && var got := s.phases[j].got;
               && got < c.chunks[j].request <= c.slotBytes && c.chunks[j].source + got < |c.file|
               && s'.phases == s.phases[j := Reading(got + 1)] && s'.queue == s.queue && s'.workers == s.workers
               && s'.slots == s.slots[j % c.slotCount :=
                                s.slots[j % c.slotCount][got := c.file[c.chunks[j].source + got]]]
  {}

  lemma WorkerAssemble(c: Config, s: State, s': State)
    requires Inv(c, s) && WorkerFrame(s, s') && Shape(c, s')
    requires PhasesOk(c, s.host, s'.phases, s.done)
    requires QueueOk(s'.phases, s'.queue) && WorkersOk(s'.phases, s'.workers)
    requires MarksOk(c, s'.phases, s.stream, s.executed, s.marks) && SlotsOk(c, s'.phases, s'.slots)
    requires forall j | 0 <= j < |s.phases| && s.phases[j].Delivered? :: s'.phases[j] == s.phases[j]
    ensures Inv(c, s')
  {}

  lemma ReadByteKeeps(c: Config, s: State, w: nat, s': State)
    requires Ready(c) && Inv(c, s) && Next(c, s, ReadByte(w), s')
    ensures Inv(c, s')
  {
    hide Complete, DestinationsFit, Next, ReadPlan.HostAt, Intersections, InboxOk, StreamOk, QueueOk, WorkersOk,
      SlotsOk, SlotOk, MarksOk, PhasesOk;
    ReadByteEffect(c, s, w, s');
    var j := s.workers[w].value;
    var p := Reading(s.phases[j].got + 1);
    ChunkFacts(c, s, j);
    PhasesUpdate(c, s, j, p);
    MarksUpdate(c, s, j, p);
    WorkersUpdate(s.phases, s.workers, w, p);
    QueueUpdate(s.phases, s.queue, j, p);
    ReadByteSlots(c, s, j, s'.slots);
    WorkerAssemble(c, s, s');
  }

  /** Only queued phases matter to the queue. */
  lemma QueueUpdate(phases: seq<Phase>, queue: seq<nat>, j: nat, p: Phase)
    requires QueueOk(phases, queue) && j < |phases| && !phases[j].Queued? && !p.Queued?
    ensures QueueOk(phases[j := p], queue)
  {}

  lemma DeliverKeeps(c: Config, s: State, w: nat, s': State)
    requires Ready(c) && Inv(c, s) && Next(c, s, Deliver(w), s')
    ensures Inv(c, s')
  {
    hide Complete, DestinationsFit, ReadPlan.HostAt, Intersections, InboxOk, StreamOk, QueueOk, WorkersOk, SlotsOk,
      MarksOk,
      PhasesOk;
    var j := s.workers[w].value;
    var p := Delivered(s.phases[j].got);
    ChunkFacts(c, s, j);
    PhasesUpdate(c, s, j, p);
    MarksUpdate(c, s, j, p);
    SlotsUpdate(c, s, j, p);
    DeliverWorkers(s.phases, s.workers, w, p);
    QueueUpdate(s.phases, s.queue, j, p);
    WorkerAssemble(c, s, s');
  }

  lemma DeliverWorkers(phases: seq<Phase>, workers: seq<Option<nat>>, w: nat, p: Phase)
    requires WorkersOk(phases, workers) && w < |workers| && workers[w].Some? && p.Delivered?
    ensures workers[w].value < |phases| && WorkersOk(phases[workers[w].value := p], workers[w := None])
  {
    var j := workers[w].value;
    var phases', workers' := phases[j := p], workers[w := None];
    forall i | 0 <= i < |phases'| && phases'[i].Held() ensures IsHeld(workers', i) {
      assert IsHeld(workers, i);
      var v :| 0 <= v < |workers| && workers[v] == Some(i);
      assert workers'[v] == Some(i);
    }
  }

  // ---------------------------------------------------------------------------------------------
  // The load stream
  // ---------------------------------------------------------------------------------------------

  /** When a copy is at the head of the stream its slot still holds its own chunk's file bytes. */
  lemma CopyReadsItsChunk(c: Config, s: State)
    requires Ready(c) && Inv(c, s)
    requires s.executed < |s.stream| && s.stream[s.executed].CopyCommand?
    ensures var CopyCommand(k, copy) := s.stream[s.executed];
            && CopyInBounds(c, k, copy) && copy.end <= |c.file|
            && Staged(c, s, k, copy) == c.file[copy.begin..copy.end]
  {
    hide Complete, ReadPlan.HostAt, Intersections, InboxOk, StreamOk, QueueOk, WorkersOk, SlotsOk, MarksOk,
      PhasesOk, Begins;
    var CopyCommand(k, copy) := s.stream[s.executed];
    CommandFacts(c, s, s.executed);
    ChunkFacts(c, s, k);
    if k + c.slotCount < |s.phases| { ChunkFacts(c, s, k + c.slotCount); }
    assert SlotHolds(c, s.slots, k, s.done[k]);
    BeginsSlice(s.slots[k % c.slotCount], c.file, c.chunks[k].source, s.done[k], copy);
  }

  lemma CommandFacts(c: Config, s: State, x: nat)
    requires Inv(c, s) && x < |s.stream|
    ensures CommandOk(c, s.done, s.stream[x])
  {
    hide Complete, DestinationsFit, ReadPlan.HostAt, InboxOk, QueueOk, WorkersOk, SlotsOk, MarksOk, PhasesOk, CommandOk;
  }

  /** Part of what a slot starts with is the same part of the file. */
  lemma BeginsSlice(slot: seq<byte>, file: seq<byte>, source: nat, got: nat, copy: Copy)
    requires Begins(slot, file, source, got) && source <= copy.begin < copy.end <= source + got
    ensures copy.end <= |file| && copy.end - source <= |slot|
    ensures slot[copy.begin - source..copy.end - source] == file[copy.begin..copy.end]
  {
    BeginsAt(slot, file, source, got, copy.end - source - 1);
    forall x | 0 <= x < copy.end - copy.begin
      ensures slot[copy.begin - source..copy.end - source][x] == file[copy.begin..copy.end][x]
    {
      BeginsAt(slot, file, source, got, copy.begin - source + x);
    }
  }

  lemma BeginsAt(slot: seq<byte>, file: seq<byte>, source: nat, got: nat, x: nat)
    requires Begins(slot, file, source, got) && x < got
    ensures x < |slot| && source + x < |file| && slot[x] == file[source + x]
  {
    var here := slot[x];
  }

  /** No read is writing a slot from which a copy is still outstanding. */
  lemma NoOverwrite(c: Config, s: State, w: nat, x: nat)
    requires Ready(c) && Inv(c, s) && Holds(s, w) && s.phases[s.workers[w].value].Reading?
    requires s.executed <= x < |s.stream| && s.stream[x].CopyCommand?
    ensures s.stream[x].chunk % c.slotCount != s.workers[w].value % c.slotCount
  {
    hide Complete, DestinationsFit, ReadPlan.HostAt, Intersections, InboxOk, StreamOk, QueueOk, WorkersOk, SlotsOk,
      MarksOk,
      PhasesOk, Begins;
    var j, k := s.workers[w].value, s.stream[x].chunk;
    CommandFacts(c, s, x);
    ChunkFacts(c, s, k);
    if k + c.slotCount < |s.phases| { ChunkFacts(c, s, k + c.slotCount); }
    if k % c.slotCount == j % c.slotCount { SlotExclusive(c, s, k, j); }
  }

  lemma ExecutedMarks(c: Config, s: State)
    requires MarksOk(c, s.phases, s.stream, s.executed, s.marks)
    ensures MarksOk(c, s.phases, s.stream, s.executed + 1, s.marks)
  {
    forall j | 0 <= j < |s.phases| ensures MarkOk(c, s.stream, s.executed + 1, s.marks, j, s.phases[j]) {
      assert MarkOk(c, s.stream, s.executed, s.marks, j, s.phases[j]);
    }
  }

  lemma CopiesSnoc(stream: seq<Command>, x: nat)
    requires x < |stream|
    ensures Copies(stream[..x + 1])
            == Copies(stream[..x]) + (if stream[x].CopyCommand? then [stream[x].copy] else [])
  {
    assert stream[..x + 1][..x] == stream[..x];
  }

  lemma ReplaySnoc(c: Config, copies: seq<Copy>, copy: Copy)
    requires CopyFits(c, copy)
    ensures Replay(c, copies + [copy])
            == Splice(Replay(c, copies), Destination(c, copy), c.file[copy.begin..copy.end])
  {
    assert (copies + [copy])[..|copies|] == copies;
  }

  /** Executing the next command is one more step of the reference meaning. */
  lemma StreamReplays(c: Config, s: State, s': State)
    requires Ready(c) && Inv(c, s) && Next(c, s, StreamStep, s')
    ensures s'.device == Replay(c, Copies(s.stream[..s.executed + 1]))
    ensures |s'.device| == |c.memory|
  {
    CopiesSnoc(s.stream, s.executed);
    if s.stream[s.executed].CopyCommand? {
      CopyReadsItsChunk(c, s);
      ReplaySnoc(c, Copies(s.stream[..s.executed]), s.stream[s.executed].copy);
    } else {
      assert Copies(s.stream[..s.executed]) + [] == Copies(s.stream[..s.executed]);
    }
  }

  lemma StreamEffect(c: Config, s: State, s': State)
    requires Next(c, s, StreamStep, s')
    ensures Shape(c, s) && Shape(c, s') && s'.executed == s.executed + 1
    ensures s' == s.(executed := s'.executed, device := s'.device) && s.executed < |s.stream|
  {}

  lemma StreamKeeps(c: Config, s: State, s': State)
    requires Ready(c) && Inv(c, s) && Next(c, s, StreamStep, s')
    ensures Inv(c, s')
  {
    StreamEffect(c, s, s');
    ExecutedMarks(c, s);
    StreamReplays(c, s, s');
    Assemble(c, s');
  }

  // ---------------------------------------------------------------------------------------------
  // The host loop
  // ---------------------------------------------------------------------------------------------

  lemma SubmitQueue(phases: seq<Phase>, queue: seq<nat>, j: nat, after: bool)
    requires QueueOk(phases, queue) && j < |phases| && phases[j].Unsubmitted?
    ensures QueueOk(phases[j := Queued(after)], queue + [j])
  {
    var phases' := phases[j := Queued(after)];
    forall i | 0 <= i < |phases'| && phases'[i].Queued? ensures i in queue + [j] {
      if i != j { assert i in queue; }
    }
  }

  lemma SubmitWorkers(phases: seq<Phase>, workers: seq<Option<nat>>, j: nat, after: bool)
    requires WorkersOk(phases, workers) && j < |phases| && phases[j].Unsubmitted?
    ensures WorkersOk(phases[j := Queued(after)], workers)
  {
    var phases' := phases[j := Queued(after)];
    forall i | 0 <= i < |phases'| && phases'[i].Held() ensures IsHeld(workers, i) {
      assert phases[i].Held();
    }
  }

  lemma SubmitPhases(c: Config, host: Host, phases: seq<Phase>, done: seq<nat>, j: nat, after: bool, host': Host)
    requires PhasesOk(c, host, phases, done) && j < |c.chunks|
    requires j == Submitted(c, host) && (after <==> j >= c.slotCount)
    requires Submitted(c, host') == j + 1 && Consumed(c, host') == Consumed(c, host)
    ensures phases[j].Unsubmitted? && PhasesOk(c, host', phases[j := Queued(after)], done)
  {
    assert PhaseOk(c, j, done, j, phases[j]);
    var phases' := phases[j := Queued(after)];
    forall i | 0 <= i < |phases'| ensures PhaseOk(c, j + 1, done, i, phases'[i]) {
      assert PhaseOk(c, j, done, i, phases[i]);
    }
  }

  lemma SubmitInbox(c: Config, host: Host, inbox: seq<nat>, j: nat, host': Host)
    requires InboxOk(c, host, inbox) && j == Submitted(c, host)
    requires Submitted(c, host') == j + 1 <= Consumed(c, host') + c.slotCount
    requires Consumed(c, host') == Consumed(c, host)
    ensures InboxOk(c, host', inbox[j % c.slotCount := j])
  {
    forall i: nat | Consumed(c, host') <= i < j + 1
      ensures inbox[j % c.slotCount := j][i % c.slotCount] == i
    {
      if i < j && i % c.slotCount == j % c.slotCount { SameResidueApart(i, j, c.slotCount); }
    }
  }

  lemma SubmitShape(c: Config, s: State, j: nat, after: bool, host: Host)
    requires Shape(c, s) && j < |c.chunks| && HostInBounds(c, host)
    ensures Shape(c, SubmitRead(c, s, j, after).(host := host))
  {}

  /** Submitting the next chunk, from either of the host's two submission points. */
  lemma SubmitKeeps(c: Config, s: State, j: nat, after: bool, host: Host, s': State)
    requires Ready(c) && Inv(c, s) && j < |c.chunks|
    requires j == Submitted(c, s.host) && (after <==> j >= c.slotCount)
    requires (s.host.Submit? || s.host.Resubmit?) && (host.Submit? || host.Get?) && HostInBounds(c, host)
    requires Submitted(c, host) == j + 1 && Consumed(c, host) == Consumed(c, s.host)
    requires CommandsBefore(s.stream, j - c.slotCount, s.marks[j % c.slotCount])
    requires s' == SubmitRead(c, s, j, after).(host := host)
    ensures Inv(c, s')
  {
    Window(c, host);
    SubmitPhases(c, s.host, s.phases, s.done, j, after, host);
    SubmitInbox(c, s.host, s.inbox, j, host);
    SubmitTasks(c, s, j, after);
    SubmitAssemble(c, s, j, after, host);
  }

  lemma SubmitTasks(c: Config, s: State, j: nat, after: bool)
    requires Inv(c, s) && j < |c.chunks| && s.phases[j].Unsubmitted?
    requires CommandsBefore(s.stream, j - c.slotCount, s.marks[j % c.slotCount])
    ensures var phases' := s.phases[j := Queued(after)];
            && MarksOk(c, phases', s.stream, s.executed, s.marks) && SlotsOk(c, phases', s.slots)
            && QueueOk(phases', s.queue + [j]) && WorkersOk(phases', s.workers)
  {
    MarksUpdate(c, s, j, Queued(after));
    SlotsUpdate(c, s, j, Queued(after));
    SubmitQueue(s.phases, s.queue, j, after);
    SubmitWorkers(s.phases, s.workers, j, after);
  }

  lemma SubmitAssemble(c: Config, s: State, j: nat, after: bool, host: Host)
    requires Inv(c, s) && j < |c.chunks|
    requires (s.host.Submit? || s.host.Resubmit?) && (host.Submit? || host.Get?) && HostInBounds(c, host)
    requires var phases' := s.phases[j := Queued(after)];
             && PhasesOk(c, host, phases', s.done)
             && MarksOk(c, phases', s.stream, s.executed, s.marks) && SlotsOk(c, phases', s.slots)
             && QueueOk(phases', s.queue + [j]) && WorkersOk(phases', s.workers)
    requires InboxOk(c, host, s.inbox[j % c.slotCount := j])
    ensures Inv(c, SubmitRead(c, s, j, after).(host := host))
  {
    SubmitShape(c, s, j, after, host);
    Assemble(c, SubmitRead(c, s, j, after).(host := host));
  }

  lemma HostSubmitKeeps(c: Config, s: State, s': State)
    requires Ready(c) && Inv(c, s) && Next(c, s, HostStep, s') && s.host.Submit?
    ensures Inv(c, s')
  {
    hide Complete, DestinationsFit, ReadPlan.HostAt, Intersections, InboxOk, StreamOk, QueueOk, WorkersOk, SlotsOk,
      MarksOk,
      PhasesOk;
    SubmitKeeps(c, s, s.host.i, false, s'.host, s');
  }

  lemma GetPhases(c: Config, k: nat, phases: seq<Phase>, done: seq<nat>, todo: seq<Copy>)
    requires PhasesOk(c, Get(k), phases, done) && k < |c.chunks| && phases[k].Delivered?
    requires c.chunks[k].required <= phases[k].bytes
    ensures PhasesOk(c, Enqueue(k, todo), phases, done + [phases[k].bytes])
  {
    var done' := done + [phases[k].bytes];
    var n := Submitted(c, Get(k));
    assert PhaseOk(c, n, done, k, phases[k]);
    forall i | 0 <= i < |phases| ensures PhaseOk(c, n, done', i, phases[i]) {
      assert PhaseOk(c, n, done, i, phases[i]);
    }
  }

  lemma GetStream(c: Config, k: nat, done: seq<nat>, stream: seq<Command>, b: nat)
    requires StreamOk(c, Get(k), done, stream) && |done| == k < |c.chunks|
    ensures var lo := c.chunks[k].source;
            StreamOk(c, Enqueue(k, Intersections(c.ranges, 0, lo, lo + b)), done + [b], stream)
  {
    var lo := c.chunks[k].source;
    var cs := Intersections(c.ranges, 0, lo, lo + b);
    IntersectionsProper(c.ranges, 0, lo, lo + b);
    forall x | 0 <= x < |stream| ensures CommandOk(c, done + [b], stream[x]) {
      assert CommandOk(c, done, stream[x]);
    }
    forall x | 0 <= x < |cs| ensures CommandOk(c, done + [b], CopyCommand(k, cs[x])) {
      assert cs[x] in cs;
    }
  }

  lemma GetEffect(c: Config, s: State, s': State)
    requires Next(c, s, HostStep, s') && s.host.Get? && s.inbox[s.host.k % c.slotCount] == s.host.k
    ensures Shape(c, s) && s.phases[s.host.k].Delivered?
    ensures var k := s.host.k;
            var b := s.phases[k].bytes;
            if b < c.chunks[k].required then s' == s.(host := Failed(k))
            else
              var end := c.chunks[k].source + b;
              && IsCursor(c.ranges, s'.next, end)
              && s' == s.(host := Enqueue(k, Intersections(c.ranges, 0, c.chunks[k].source, end)),
                          done := s.done + [b], next := s'.next)
  {}

  lemma HostGetKeeps(c: Config, s: State, s': State)
    requires Ready(c) && Inv(c, s) && Next(c, s, HostStep, s') && s.host.Get?
    ensures Inv(c, s')
  {
    var k := s.host.k;
    assert s.inbox[k % c.slotCount] == k;
    GetEffect(c, s, s');
    assert PhaseOk(c, Submitted(c, s.host), s.done, k, s.phases[k]);
    if s.phases[k].bytes < c.chunks[k].required {
      GetFails(c, s);
    } else {
      GetSucceeds(c, s, s'.next);
    }
  }

  lemma GetFails(c: Config, s: State)
    requires Inv(c, s) && s.host.Get? && s.phases[s.host.k].Delivered?
    requires s.phases[s.host.k].bytes < c.chunks[s.host.k].required
    ensures Inv(c, s.(host := Failed(s.host.k)))
  {
    hide Complete, DestinationsFit, ReadPlan.HostAt, Intersections, InboxOk, StreamOk, QueueOk, WorkersOk, SlotsOk,
      MarksOk,
      PhasesOk;
    SamePlace(c, s.host, Failed(s.host.k), s.phases, s.done, s.inbox, s.stream);
    assert Todo(s.host) == [] == Todo(Failed(s.host.k));
    Assemble(c, s.(host := Failed(s.host.k)));
  }

  lemma GetSucceeds(c: Config, s: State, next: nat)
    requires Ready(c) && Inv(c, s) && s.host.Get? && s.phases[s.host.k].Delivered?
    requires c.chunks[s.host.k].required <= s.phases[s.host.k].bytes <= c.chunks[s.host.k].request
    requires IsCursor(c.ranges, next, c.chunks[s.host.k].source + s.phases[s.host.k].bytes)
    ensures var k, b := s.host.k, s.phases[s.host.k].bytes;
            var cs := Intersections(c.ranges, 0, c.chunks[k].source, c.chunks[k].source + b);
            Inv(c, s.(host := Enqueue(k, cs), done := s.done + [b], next := next))
  {
    hide Complete, DestinationsFit, ReadPlan.HostAt, Intersections, InboxOk, StreamOk, QueueOk, WorkersOk, SlotsOk,
      MarksOk,
      PhasesOk;
    var k, b := s.host.k, s.phases[s.host.k].bytes;
    HostFacts(c, s);
    var cs := Intersections(c.ranges, 0, c.chunks[k].source, c.chunks[k].source + b);
    GetPhases(c, k, s.phases, s.done, cs);
    GetStream(c, k, s.done, s.stream, b);
    assert CopyBytes([]) == 0 && Copies(s.stream) + [] == Copies(s.stream);
    HostAdvances(c.ranges, c.chunks, s.done, s.next, s.copied, Copies(s.stream), b, next);
    GetShape(c, s, cs, s.done + [b], next);
    GetInbox(c, k, cs, s.inbox);
    Assemble(c, s.(host := Enqueue(k, cs), done := s.done + [b], next := next));
  }

  lemma GetShape(c: Config, s: State, cs: seq<Copy>, done: seq<nat>, next: nat)
    requires Shape(c, s) && s.host.Get?
    ensures Shape(c, s.(host := Enqueue(s.host.k, cs), done := done, next := next))
  {}

  lemma GetInbox(c: Config, k: nat, cs: seq<Copy>, inbox: seq<nat>)
    requires InboxOk(c, Get(k), inbox)
    ensures InboxOk(c, Enqueue(k, cs), inbox)
  {}

  /** Appending a command of the current chunk leaves every event's meaning intact. */
  lemma AppendMarks(c: Config, s: State, cmd: Command, marks: seq<nat>)
    requires Ready(c) && Inv(c, s) && s.host.Enqueue? && cmd.chunk == s.host.k
    requires |marks| == |s.marks| && forall t | 0 <= t < |marks| :: s.marks[t] <= marks[t] <= |s.stream| + 1
    ensures MarksOk(c, s.phases, s.stream + [cmd], s.executed, marks)
  {
    hide Complete, DestinationsFit, ReadPlan.HostAt, SlotsOk, WorkersOk, QueueOk, InboxOk, StreamOk, MarkOk, PhaseOk;
    forall j | 0 <= j < |s.phases|
      ensures MarkOk(c, s.stream + [cmd], s.executed, marks, j, s.phases[j])
    {
      MarkFacts(c, s, j);
      AppendMark(c, s.stream, s.executed, s.marks, marks, cmd, j, s.phases[j]);
    }
  }

  /** A submitted chunk is less than a slot count past the current one. */
  lemma MarkFacts(c: Config, s: State, j: nat)
    requires Inv(c, s) && s.host.Enqueue? && j < |s.phases|
    ensures |s.marks| == c.slotCount > 0 && MarkOk(c, s.stream, s.executed, s.marks, j, s.phases[j])
    ensures !s.phases[j].Unsubmitted? ==> j - c.slotCount < s.host.k
  {
    hide ReadPlan.HostAt, SlotsOk, WorkersOk, QueueOk, InboxOk, StreamOk, MarkOk;
    assert PhaseOk(c, Submitted(c, s.host), s.done, j, s.phases[j]);
  }

  lemma AppendMark(c: Config, stream: seq<Command>, executed: nat, marks: seq<nat>, marks': seq<nat>, cmd: Command,
                   j: nat, p: Phase)
    requires |marks| == |marks'| == c.slotCount > 0 && forall t | 0 <= t < |marks| :: marks[t] <= marks'[t]
    requires MarkOk(c, stream, executed, marks, j, p) && (!p.Unsubmitted? ==> j - c.slotCount < cmd.chunk)
    ensures MarkOk(c, stream + [cmd], executed, marks', j, p)
  {
    hide CommandsBefore;
    var previous, t := j - c.slotCount, j % c.slotCount;
    if !p.Unsubmitted? {
      BeforeAppend(stream, cmd, previous, marks[t], marks'[t]);
      BeforeAppend(stream, cmd, previous, executed, executed);
      if p.Waiting? { BeforeAppend(stream, cmd, previous, p.mark, p.mark); }
    }
  }

  lemma BeforeAppend(stream: seq<Command>, cmd: Command, j: int, m: nat, m': nat)
    requires j < cmd.chunk && m <= m'
    ensures CommandsBefore(stream, j, m) ==> CommandsBefore(stream + [cmd], j, m')
  {}

  lemma CopiesAppend(stream: seq<Command>, cmd: Command)
    ensures Copies(stream + [cmd]) == Copies(stream) + (if cmd.CopyCommand? then [cmd.copy] else [])
  {
    assert (stream + [cmd])[..|stream|] == stream;
  }

  lemma EnqueueAccounts(c: Config, s: State, todo: seq<Copy>)
    requires todo != []
    ensures CopyBytes(todo) == (todo[0].end - todo[0].begin) + CopyBytes(todo[1..])
    ensures Copies(s.stream) + [todo[0]] + todo[1..] == Copies(s.stream) + todo
  {
    assert todo == [todo[0]] + todo[1..] && [] + [todo[0]] == [todo[0]] && CopyBytes([]) == 0;
    HitsConcat([todo[0]], todo[1..], 0, 0);
    CopyBytesSnoc([], todo[0]);
  }

  lemma EnqueueStream(c: Config, k: nat, todo: seq<Copy>, done: seq<nat>, stream: seq<Command>)
    requires StreamOk(c, Enqueue(k, todo), done, stream) && k < |done| <= |c.chunks|
    ensures todo != [] ==> StreamOk(c, Enqueue(k, todo[1..]), done, stream + [CopyCommand(k, todo[0])])
    ensures StreamOk(c, Resubmit(k), done, stream + [RecordCommand(k)])
  {}

  lemma EnqueueCopyKeeps(c: Config, s: State, s': State)
    requires Ready(c) && Inv(c, s) && s.host.Enqueue? && s.host.todo != []
    requires Shape(c, s') && s'.host == Enqueue(s.host.k, s.host.todo[1..])
    requires s'.stream == s.stream + [CopyCommand(s.host.k, s.host.todo[0])]
    requires s'.copied == s.copied + (s.host.todo[0].end - s.host.todo[0].begin)
    requires s' == s.(host := s'.host, stream := s'.stream, copied := s'.copied)
    ensures Inv(c, s')
  {
    hide Complete, DestinationsFit, ReadPlan.HostAt, Intersections, InboxOk, StreamOk, QueueOk, WorkersOk, SlotsOk,
      MarksOk,
      PhasesOk, Replay;
    var Enqueue(k, todo) := s.host;
    var cmd := CopyCommand(k, todo[0]);
    HostFacts(c, s);
    assert s'.stream[..s.executed] == s.stream[..s.executed];
    AppendMarks(c, s, cmd, s.marks);
    EnqueueStream(c, k, todo, s.done, s.stream);
    CopiesAppend(s.stream, cmd);
    EnqueueAccounts(c, s, todo);
    EnqueueInbox(c, k, todo, s.inbox);
    EnqueuePhases(c, k, todo, s.phases, s.done);
    Assemble(c, s');
  }

  /** How far the host has come, and that no event is past the end of the stream. */
  lemma HostFacts(c: Config, s: State)
    requires Inv(c, s)
    ensures |s.done| == Consumed(c, s.host) && forall t | 0 <= t < |s.marks| :: s.marks[t] <= |s.stream|
  {
    hide Complete, DestinationsFit, ReadPlan.HostAt, InboxOk, StreamOk, QueueOk, WorkersOk, SlotsOk, PhaseOk, MarkOk;
  }

  lemma EnqueueRecordKeeps(c: Config, s: State, s': State)
    requires Ready(c) && Inv(c, s) && s.host.Enqueue? && s.host.todo == []
    requires Shape(c, s') && s'.host == Resubmit(s.host.k)
    requires s'.stream == s.stream + [RecordCommand(s.host.k)]
    requires s'.marks == s.marks[s.host.k % c.slotCount := |s.stream| + 1]
    requires s' == s.(host := s'.host, stream := s'.stream, marks := s'.marks, pending := s'.pending)
    ensures Inv(c, s')
  {
    hide Complete, DestinationsFit, ReadPlan.HostAt, Intersections, InboxOk, StreamOk, QueueOk, WorkersOk, SlotsOk,
      MarksOk,
      PhasesOk, Replay;
    var k := s.host.k;
    assert s'.stream[..s.executed] == s.stream[..s.executed];
    HostFacts(c, s);
    AppendMarks(c, s, RecordCommand(k), s'.marks);
    EnqueueStream(c, k, [], s.done, s.stream);
    CopiesAppend(s.stream, RecordCommand(k));
    assert Copies(s.stream) + [] == Copies(s.stream);
    EnqueueInbox(c, k, [], s.inbox);
    EnqueuePhases(c, k, [], s.phases, s.done);
    Assemble(c, s');
  }

  lemma EnqueueInbox(c: Config, k: nat, todo: seq<Copy>, inbox: seq<nat>)
    requires InboxOk(c, Enqueue(k, todo), inbox)
    ensures todo != [] ==> InboxOk(c, Enqueue(k, todo[1..]), inbox)
    ensures InboxOk(c, Resubmit(k), inbox)
  {}

  lemma EnqueuePhases(c: Config, k: nat, todo: seq<Copy>, phases: seq<Phase>, done: seq<nat>)
    requires PhasesOk(c, Enqueue(k, todo), phases, done)
    ensures todo != [] ==> PhasesOk(c, Enqueue(k, todo[1..]), phases, done)
    ensures PhasesOk(c, Resubmit(k), phases, done)
  {}

  lemma EnqueueShape(c: Config, s: State, s': State)
    requires Next(c, s, HostStep, s') && s.host.Enqueue?
    ensures Shape(c, s) && Shape(c, s')
  {}

  lemma HostEnqueueKeeps(c: Config, s: State, s': State)
    requires Ready(c) && Inv(c, s) && Next(c, s, HostStep, s') && s.host.Enqueue?
    ensures Inv(c, s')
  {
    EnqueueShape(c, s, s');
    if s.host.todo != [] {
      EnqueueCopyKeeps(c, s, s');
    } else {
      EnqueueRecordKeeps(c, s, s');
    }
  }

  lemma HostResubmitKeeps(c: Config, s: State, s': State)
    requires Ready(c) && Inv(c, s) && Next(c, s, HostStep, s') && s.host.Resubmit?
    ensures Inv(c, s')
  {
    hide Complete, DestinationsFit, ReadPlan.HostAt, Intersections, InboxOk, StreamOk, QueueOk, WorkersOk, SlotsOk,
      MarksOk,
      PhasesOk;
    var k := s.host.k;
    if k + c.slotCount < |c.chunks| {
      ModShift(k, c.slotCount);
      SubmitKeeps(c, s, k + c.slotCount, true, s'.host, s');
    } else {
      SamePlace(c, s.host, s'.host, s.phases, s.done, s.inbox, s.stream);
      assert Todo(s.host) == [] == Todo(s'.host);
      Assemble(c, s');
    }
  }

  /** These parts depend only on how many chunks were submitted and consumed. */
  lemma SamePlace(c: Config, host: Host, host': Host, phases: seq<Phase>, done: seq<nat>, inbox: seq<nat>,
                  stream: seq<Command>)
    requires Submitted(c, host) == Submitted(c, host') && Consumed(c, host) == Consumed(c, host') && !host'.Enqueue?
    requires PhasesOk(c, host, phases, done) && InboxOk(c, host, inbox) && StreamOk(c, host, done, stream)
    ensures PhasesOk(c, host', phases, done) && InboxOk(c, host', inbox) && StreamOk(c, host', done, stream)
  {
    hide PhaseOk, CommandOk;
  }

  lemma DrainEffect(c: Config, s: State, s': State)
    requires Next(c, s, HostStep, s') && s.host.Drain?
    ensures Shape(c, s) && Shape(c, s') && (s'.host.Drain? || s'.host.Sync?)
    ensures s' == s.(host := s'.host, pending := s'.pending)
  {}

  lemma HostDrainKeeps(c: Config, s: State, s': State)
    requires Ready(c) && Inv(c, s) && Next(c, s, HostStep, s') && s.host.Drain?
    ensures Inv(c, s')
  {
    hide Complete, DestinationsFit, Next, ReadPlan.HostAt;
    DrainEffect(c, s, s');
    Assemble(c, s');
  }

  /** The closing guard: by the time the stream is synchronized every tensor byte has been copied. */
  lemma HostSyncKeeps(c: Config, s: State, s': State)
    requires Ready(c) && Inv(c, s) && Next(c, s, HostStep, s') && s.host.Sync?
    ensures Inv(c, s') && s'.host.Done?
  {
    assert CopyBytes([]) == 0;
    HostFinishes(c.ranges, c.chunks, s.done, s.next, s.copied, Copies(s.stream) + []);
    SyncShape(c, s);
    Assemble(c, s.(host := Done));
  }

  lemma SyncShape(c: Config, s: State)
    requires Shape(c, s)
    ensures Shape(c, s.(host := Done))
  {}

  lemma StepKeeps(c: Config, s: State, l: Label, s': State)
    requires Ready(c) && Inv(c, s) && Next(c, s, l, s')
    ensures Inv(c, s')
  {
    match l
    case StreamStep => StreamKeeps(c, s, s');
    case Pop(w) => PopKeeps(c, s, w, s');
    case Start(w) => StartKeeps(c, s, w, s');
    case Synced(w) => SyncedKeeps(c, s, w, s');
    case ReadByte(w) => ReadByteKeeps(c, s, w, s');
    case Deliver(w) => DeliverKeeps(c, s, w, s');
    case HostStep =>
      match s.host
      case Submit(_) => HostSubmitKeeps(c, s, s');
      case Get(_) => HostGetKeeps(c, s, s');
      case Enqueue(_, _) => HostEnqueueKeeps(c, s, s');
      case Resubmit(_) => HostResubmitKeeps(c, s, s');
      case Drain(_) => HostDrainKeeps(c, s, s');
      case Sync => HostSyncKeeps(c, s, s');
  }
}
