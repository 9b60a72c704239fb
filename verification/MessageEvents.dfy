/** The events of a streamed message (src/serve/http_server.cpp): what the provider writes for any sequence of
    callbacks and any outcome, and the block grammar those events obey. */
module MessageEvents {
  import opened Results

  datatype Kind = Thinking | Text | Tool

  datatype ToolHead = ToolHead(id: string, name: string)

  datatype ToolCall = ToolCall(head: ToolHead, arguments: string)

  datatype Event =
    | MessageStart
    | Start(index: nat, kind: Kind, head: Option<ToolHead>)
    | Delta(index: nat, kind: Kind, text: string)
    | Signature(index: nat)
    | Stop(index: nat)
    | MessageDelta(stopReason: string)
    | MessageStop
    | ErrorEvent

  datatype Callback = OnReasoning(text: string) | OnContent(text: string)

  datatype Outcome = Outcome(text: string, streamedBytes: nat, tools: seq<ToolCall>, stopReason: string)

  // ---------------------------------------------------------------------------------------------
  // What the provider writes
  // ---------------------------------------------------------------------------------------------

  /** next_index, and the index of the open thinking and text blocks. */
  datatype Blocks = Blocks(next: nat, thinking: Option<nat>, text: Option<nat>)

  /** A piece of output and the block state after it. */
  datatype Step = Step(events: seq<Event>, after: Blocks)

  function Reasoning(b: Blocks, text: string): Step {
    match b.thinking
    case Some(i) => Step([Delta(i, Thinking, text)], b)
    case None => Step([Start(b.next, Thinking, None), Delta(b.next, Thinking, text)],
      b.(next := b.next + 1, thinking := Some(b.next)))
  }

  function CloseThinking(b: Blocks): Step {
    match b.thinking
    case Some(i) => Step([Signature(i), Stop(i)], b.(thinking := None))
    case None => Step([], b)
  }

  function CloseText(b: Blocks): Step {
    match b.text
    case Some(i) => Step([Stop(i)], b.(text := None))
    case None => Step([], b)
  }

  function AddText(b: Blocks, text: string): Step {
    match b.text
    case Some(i) => Step([Delta(i, Text, text)], b)
    case None => Step([Start(b.next, Text, None), Delta(b.next, Text, text)],
      b.(next := b.next + 1, text := Some(b.next)))
  }

  /** One step after another. */
  function Then(a: Step, b: Step): Step { Step(a.events + b.events, b.after) }

  function Content(b: Blocks, text: string): Step {
    var closed := CloseThinking(b);
    Then(closed, AddText(closed.after, text))
  }

  function React(b: Blocks, c: Callback): Step {
    match c
    case OnReasoning(text) => Reasoning(b, text)
    case OnContent(text) => Content(b, text)
  }

  function ReactAll(b: Blocks, cs: seq<Callback>): Step {
    if cs == [] then Step([], b)
    else
      var n := |cs| - 1;
      var before := ReactAll(b, cs[..n]);
      Then(before, React(before.after, cs[n]))
  }

  function CloseAll(b: Blocks): Step {
    var closed := CloseThinking(b);
    Then(closed, CloseText(closed.after))
  }

  /** A block written in one go. */
  function OneBlock(b: Blocks, kind: Kind, head: Option<ToolHead>, deltas: seq<string>): Step
    requires |deltas| <= 1
  {
    Step([Start(b.next, kind, head)] + (if deltas == [] then [] else [Delta(b.next, kind, deltas[0])]) + [Stop(b.next)],
      b.(next := b.next + 1))
  }

  function Remainder(b: Blocks, text: string): Step {
    if text == "" then Step([], b) else OneBlock(b, Text, None, [text])
  }

  function Tools(b: Blocks, calls: seq<ToolCall>): Step {
    if calls == [] then Step([], b)
    else
      var n := |calls| - 1;
      var before := Tools(b, calls[..n]);
      Then(before, OneBlock(before.after, Tool, Some(calls[n].head), [calls[n].arguments]))
  }

  /** An empty message still gets one text block. */
  function AtLeastOne(b: Blocks): Step { if b.next == 0 then OneBlock(b, Text, None, []) else Step([], b) }

  function Tail(b: Blocks, o: Outcome, toolCapable: bool): Step
    requires o.streamedBytes <= |o.text|
  {
    var closed := CloseAll(b);
    var rest := if toolCapable then Remainder(closed.after, o.text[o.streamedBytes..]) else Step([], closed.after);
    var tools := if toolCapable then Tools(rest.after, o.tools) else Step([], rest.after);
    var one := AtLeastOne(tools.after);
    Step(closed.events + rest.events + tools.events + one.events + [MessageDelta(o.stopReason), MessageStop], one.after)
  }

  const Fresh := Blocks(0, None, None)

  /** Everything the provider writes when no write fails. A generation that throws, or that claims to have
      streamed more than it produced, ends in an error event. */
  function Transcript(cs: seq<Callback>, outcome: Option<Outcome>, toolCapable: bool): seq<Event> {
    var live := ReactAll(Fresh, cs);
    [MessageStart] + live.events
    + match outcome
      case Some(o) => if o.streamedBytes <= |o.text| then Tail(live.after, o, toolCapable).events else [ErrorEvent]
      case None => [ErrorEvent]
  }

  // ---------------------------------------------------------------------------------------------
  // The block grammar
  // ---------------------------------------------------------------------------------------------

  /** What a reader of the stream tracks: the next index, the open blocks, a thinking block whose signature
      was just sent and which must stop next, and how far the message has come. */
  datatype Reader = Reader(next: nat, open: map<nat, Kind>, closing: Option<nat>, phase: Phase)

  datatype Phase = Unstarted | Streaming | Summed | Finished | Failed

  /** The reader's next state, or None if the event is not allowed here. */
  function Read(r: Reader, e: Event): Option<Reader> {
    if r.closing.Some? && e != Stop(r.closing.value) then None
    else
      match e
      case MessageStart => if r.phase.Unstarted? then Some(r.(phase := Streaming)) else None
      case Start(i, kind, head) =>
        if r.phase.Streaming? && i == r.next && (head.Some? <==> kind.Tool?)
          then Some(r.(next := i + 1, open := r.open[i := kind])) else None
      case Delta(i, kind, _) => if r.phase.Streaming? && i in r.open && r.open[i] == kind then Some(r) else None
      case Signature(i) =>
        if r.phase.Streaming? && i in r.open && r.open[i].Thinking? then Some(r.(closing := Some(i))) else None
      case Stop(i) =>
        if r.phase.Streaming? && i in r.open && (r.open[i].Thinking? ==> r.closing == Some(i))
        then Some(r.(open := r.open - {i}, closing := None)) else None
      case MessageDelta(_) => if r.phase.Streaming? && r.open == map[] && r.next > 0 then Some(r.(phase := Summed))
        else None
      case MessageStop => if r.phase.Summed? then Some(r.(phase := Finished)) else None
      case ErrorEvent => if r.phase.Streaming? then Some(r.(phase := Failed)) else None
  }

  function ReadAll(r: Reader, es: seq<Event>): Option<Reader> {
    if es == [] then Some(r)
    else
      var n := |es| - 1;
      match ReadAll(r, es[..n])
      case None => None
      case Some(mid) => Read(mid, es[n])
  }

  const Start0 := Reader(0, map[], None, Unstarted)

  lemma {:induction false} ReadJoin(r: Reader, a: seq<Event>, b: seq<Event>)
    ensures ReadAll(r, a + b) == match ReadAll(r, a) case None => None case Some(mid) => ReadAll(mid, b)
    decreases |b|
  {
    hide Read;
    if b == [] {
      assert a + b == a;
    } else {
      var n := |b| - 1;
      ReadJoin(r, a, b[..n]);
      assert (a + b)[..|a| + n] == a + b[..n];
    }
  }

  /** The reader's view of the provider's block state. */
  function Seen(b: Blocks): Reader {
    Reader(b.next, Opened(b), None, Streaming)
  }

  function Opened(b: Blocks): map<nat, Kind> {
    (if b.thinking.Some? then map[b.thinking.value := Thinking] else map[])
    + (if b.text.Some? then map[b.text.value := Text] else map[])
  }

  predicate BlocksOk(b: Blocks) {
    && (b.thinking.Some? ==> b.thinking.value < b.next) && (b.text.Some? ==> b.text.value < b.next)
    && (b.thinking.Some? && b.text.Some? ==> b.thinking.value != b.text.value)
  }

  /** A step is understood: the reader accepts its events and again sees the block state. */
  predicate Follows(b: Blocks, s: Step) { BlocksOk(s.after) && ReadAll(Seen(b), s.events) == Some(Seen(s.after)) }

  lemma ReadOne(r: Reader, e: Event)
    ensures ReadAll(r, [e]) == Read(r, e)
  {
    assert [e][..0] == [];
    assert ReadAll(r, [e][..0]) == Some(r);
  }

  lemma ReadTwo(r: Reader, d: Event, e: Event)
    ensures ReadAll(r, [d, e]) == match Read(r, d) case None => None case Some(mid) => Read(mid, e)
  {
    hide Read;
    ReadJoin(r, [d], [e]);
    assert [d] + [e] == [d, e];
    ReadOne(r, d);
    match Read(r, d)
    case Some(mid) => ReadOne(mid, e);
    case None =>
  }

  lemma ThenFollows(b: Blocks, s: Step, t: Step)
    requires Follows(b, s) && Follows(s.after, t)
    ensures Follows(b, Then(s, t))
  {
    hide Read, Opened, BlocksOk;
    ReadJoin(Seen(b), s.events, t.events);
  }

  lemma NothingFollows(b: Blocks)
    requires BlocksOk(b)
    ensures Follows(b, Step([], b))
  {}

  lemma ReasoningFollows(b: Blocks, text: string)
    requires BlocksOk(b)
    ensures Follows(b, Reasoning(b, text))
  {
    hide ReadAll;
    match b.thinking
    case Some(i) => ReadOne(Seen(b), Delta(i, Thinking, text));
    case None =>
      ReadTwo(Seen(b), Start(b.next, Thinking, None), Delta(b.next, Thinking, text));
      assert Opened(b)[b.next := Thinking] == Opened(Reasoning(b, text).after);
  }

  lemma CloseThinkingFollows(b: Blocks)
    requires BlocksOk(b)
    ensures Follows(b, CloseThinking(b))
  {
    hide ReadAll;
    match b.thinking
    case Some(i) =>
      ReadTwo(Seen(b), Signature(i), Stop(i));
      assert Opened(b) - {i} == Opened(b.(thinking := None));
    case None => NothingFollows(b);
  }

  lemma CloseTextFollows(b: Blocks)
    requires BlocksOk(b)
    ensures Follows(b, CloseText(b))
  {
    hide ReadAll;
    match b.text
    case Some(i) =>
      ReadOne(Seen(b), Stop(i));
      assert Opened(b) - {i} == Opened(b.(text := None));
    case None => NothingFollows(b);
  }

  lemma AddTextFollows(b: Blocks, text: string)
    requires BlocksOk(b)
    ensures Follows(b, AddText(b, text))
  {
    hide ReadAll;
    match b.text
    case Some(i) => ReadOne(Seen(b), Delta(i, Text, text));
    case None =>
      ReadTwo(Seen(b), Start(b.next, Text, None), Delta(b.next, Text, text));
      assert Opened(b)[b.next := Text] == Opened(AddText(b, text).after);
  }

  lemma ReactFollows(b: Blocks, c: Callback)
    requires BlocksOk(b)
    ensures Follows(b, React(b, c))
  {
    hide ReadAll, Opened;
    match c
    case OnReasoning(text) => ReasoningFollows(b, text);
    case OnContent(text) =>
      CloseThinkingFollows(b);
      AddTextFollows(CloseThinking(b).after, text);
      ThenFollows(b, CloseThinking(b), AddText(CloseThinking(b).after, text));
  }

  lemma {:induction false} ReactAllFollows(b: Blocks, cs: seq<Callback>)
    requires BlocksOk(b)
    ensures Follows(b, ReactAll(b, cs))
    decreases |cs|
  {
    hide ReadAll, React, Opened;
    if cs == [] {
      NothingFollows(b);
    } else {
      var n := |cs| - 1;
      ReactAllFollows(b, cs[..n]);
      var before := ReactAll(b, cs[..n]);
      ReactFollows(before.after, cs[n]);
      ThenFollows(b, before, React(before.after, cs[n]));
    }
  }

  lemma CloseAllFollows(b: Blocks)
    requires BlocksOk(b)
    ensures Follows(b, CloseAll(b)) && CloseAll(b).after == Blocks(b.next, None, None)
  {
    hide ReadAll, Opened;
    CloseThinkingFollows(b);
    CloseTextFollows(CloseThinking(b).after);
    ThenFollows(b, CloseThinking(b), CloseText(CloseThinking(b).after));
  }

  lemma OneBlockFollows(b: Blocks, kind: Kind, head: Option<ToolHead>, deltas: seq<string>)
    requires |deltas| <= 1 && b.thinking.None? && b.text.None? && !kind.Thinking? && (head.Some? <==> kind.Tool?)
    ensures Follows(b, OneBlock(b, kind, head, deltas))
  {
    hide ReadAll;
    var r := Seen(b);
    var begun := r.(next := b.next + 1, open := map[b.next := kind]);
    assert r.open[b.next := kind] == begun.open;
    assert begun.open - {b.next} == map[];
    if deltas == [] {
      ReadTwo(r, Start(b.next, kind, head), Stop(b.next));
      assert OneBlock(b, kind, head, deltas).events == [Start(b.next, kind, head), Stop(b.next)];
    } else {
      ReadTwo(r, Start(b.next, kind, head), Delta(b.next, kind, deltas[0]));
      ReadJoin(r, [Start(b.next, kind, head), Delta(b.next, kind, deltas[0])], [Stop(b.next)]);
      ReadOne(begun, Stop(b.next));
      assert OneBlock(b, kind, head, deltas).events
             == [Start(b.next, kind, head), Delta(b.next, kind, deltas[0])] + [Stop(b.next)];
    }
  }

  lemma {:induction false} ToolsFollow(b: Blocks, calls: seq<ToolCall>)
    requires b.thinking.None? && b.text.None?
    ensures Follows(b, Tools(b, calls)) && Tools(b, calls).after == Blocks(b.next + |calls|, None, None)
    decreases |calls|
  {
    hide ReadAll, Opened;
    if calls == [] {
      NothingFollows(b);
    } else {
      var n := |calls| - 1;
      ToolsFollow(b, calls[..n]);
      var before := Tools(b, calls[..n]);
      OneBlockFollows(before.after, Tool, Some(calls[n].head), [calls[n].arguments]);
      ThenFollows(b, before, OneBlock(before.after, Tool, Some(calls[n].head), [calls[n].arguments]));
    }
  }

  /** The end of a message: all blocks closed, at least one block, then the two closing events. */
  lemma TailReads(b: Blocks, o: Outcome, toolCapable: bool)
    requires BlocksOk(b) && o.streamedBytes <= |o.text|
    ensures ReadAll(Seen(b), Tail(b, o, toolCapable).events).Some?
    ensures var r := ReadAll(Seen(b), Tail(b, o, toolCapable).events).value;
            r.phase.Finished? && r.open == map[] && r.next >= 1 && r.closing.None?
  {
    hide ReadAll, Opened, Read, OneBlock;
    var closed := CloseAll(b);
    CloseAllFollows(b);
    var rest := if toolCapable then Remainder(closed.after, o.text[o.streamedBytes..]) else Step([], closed.after);
    RestFollows(closed.after, o.text[o.streamedBytes..]);
    NothingFollows(closed.after);
    ThenFollows(b, closed, rest);
    var tools := if toolCapable then Tools(rest.after, o.tools) else Step([], rest.after);
    ToolsFollow(rest.after, o.tools);
    NothingFollows(rest.after);
    ThenFollows(b, Then(closed, rest), tools);
    var one := AtLeastOne(tools.after);
    OneFollows(tools.after);
    var all := Then(Then(Then(closed, rest), tools), one);
    ThenFollows(b, Then(Then(closed, rest), tools), one);
    var end := [MessageDelta(o.stopReason), MessageStop];
    ReadJoin(Seen(b), all.events, end);
    EndReads(one.after, o.stopReason);
    assert Tail(b, o, toolCapable).events == all.events + end;
  }

  lemma RestFollows(b: Blocks, text: string)
    requires b.thinking.None? && b.text.None?
    ensures Follows(b, Remainder(b, text)) && Remainder(b, text).after.thinking.None?
            && Remainder(b, text).after.text.None?
  {
    hide ReadAll, Opened;
    if text == "" { NothingFollows(b); } else { OneBlockFollows(b, Text, None, [text]); }
  }

  lemma OneFollows(b: Blocks)
    requires b.thinking.None? && b.text.None?
    ensures Follows(b, AtLeastOne(b)) && AtLeastOne(b).after.next >= 1
    ensures AtLeastOne(b).after.thinking.None? && AtLeastOne(b).after.text.None?
  {
    hide ReadAll, Opened;
    if b.next == 0 { OneBlockFollows(b, Text, None, []); } else { NothingFollows(b); }
  }

  lemma EndReads(b: Blocks, reason: string)
    requires b.next >= 1 && b.thinking.None? && b.text.None?
    ensures ReadAll(Seen(b), [MessageDelta(reason), MessageStop])
            == Some(Reader(b.next, map[], None, Finished))
  {
    hide ReadAll;
    ReadTwo(Seen(b), MessageDelta(reason), MessageStop);
  }

  /** Every transcript obeys the grammar: a completed one ends finished with all blocks closed and at least
      one block, a failed one ends with the error event and nothing after it. */
  lemma TranscriptReads(cs: seq<Callback>, outcome: Option<Outcome>, toolCapable: bool)
    ensures ReadAll(Start0, Transcript(cs, outcome, toolCapable)).Some?
    ensures var r := ReadAll(Start0, Transcript(cs, outcome, toolCapable)).value;
            if outcome.Some? && outcome.value.streamedBytes <= |outcome.value.text|
            then r.phase.Finished? && r.open == map[] && r.next >= 1 && r.closing.None?
            else r.phase.Failed?
  {
    hide ReadAll, Opened, Tail, ReactAll;
    var live := ReactAll(Fresh, cs);
    ReactAllFollows(Fresh, cs);
    ReadOne(Start0, MessageStart);
    FreshSeen();
    var end := match outcome
               case Some(o) => if o.streamedBytes <= |o.text| then Tail(live.after, o, toolCapable).events
                 else [ErrorEvent]
               case None => [ErrorEvent];
    ReadJoin(Start0, [MessageStart] + live.events, end);
    ReadJoin(Start0, [MessageStart], live.events);
    if outcome.Some? && outcome.value.streamedBytes <= |outcome.value.text| {
      TailReads(live.after, outcome.value, toolCapable);
    } else {
      ReadOne(Seen(live.after), ErrorEvent);
    }
  }

  lemma FreshSeen()
    ensures Seen(Fresh) == Start0.(phase := Streaming) && BlocksOk(Fresh)
  {}
}
