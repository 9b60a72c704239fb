/** What the block grammar means for a stream of events, when blocks never overlap, and that no streamed text
    is lost (src/serve/http_server.cpp). */
module MessageLaws {
  import opened Arith
  import opened Results
  import opened MessageEvents

  // ---------------------------------------------------------------------------------------------
  // Reading the grammar: indices, starts, stops, signatures, deltas
  // ---------------------------------------------------------------------------------------------

  /** The indices of the block starts, in order. */
  function StartIndices(es: seq<Event>): seq<nat> {
    if es == [] then []
    else
      var n := |es| - 1;
      StartIndices(es[..n]) + (if es[n].Start? then [es[n].index] else [])
  }

  function Upto(n: nat): (s: seq<nat>)
    ensures |s| == n && forall i | 0 <= i < n :: s[i] == i
  {
    seq(n, i => i)
  }

  function StopCount(es: seq<Event>, i: nat): nat {
    if es == [] then 0
    else
      var n := |es| - 1;
      StopCount(es[..n], i) + (if es[n] == Stop(i) then 1 else 0)
  }

  function SignatureCount(es: seq<Event>, i: nat): nat {
    if es == [] then 0
    else
      var n := |es| - 1;
      SignatureCount(es[..n], i) + (if es[n] == Signature(i) then 1 else 0)
  }

  /** The kind block i was started with. */
  function StartKind(es: seq<Event>, i: nat): Option<Kind> {
    if es == [] then None
    else
      var n := |es| - 1;
      if es[n].Start? && es[n].index == i then Some(es[n].kind) else StartKind(es[..n], i)
  }

  /** What the reader knows after any accepted events, about block i. */
  predicate Knows(es: seq<Event>, r: Reader, i: nat) {
    && (i < r.next <==> StartKind(es, i).Some?)
    && (i in r.open <==> i < r.next && StopCount(es, i) == 0)
    && (i in r.open ==> StartKind(es, i) == Some(r.open[i]))
    && StopCount(es, i) <= 1 && (i >= r.next ==> StopCount(es, i) == 0)
    && SignatureCount(es, i)
      == (if StartKind(es, i) == Some(Thinking) && (StopCount(es, i) == 1 || r.closing == Some(i)) then 1 else 0)
    && (r.closing == Some(i) ==> i in r.open && r.open[i].Thinking?)
  }

  lemma {:induction false} ReaderKnows(es: seq<Event>, i: nat)
    requires ReadAll(Start0, es).Some?
    ensures Knows(es, ReadAll(Start0, es).value, i)
    decreases |es|
  {
    if es != [] {
      var n := |es| - 1;
      ReaderKnows(es[..n], i);
      if es[n].Start? || es[n].Stop? || es[n].Signature? { ReaderKnows(es[..n], es[n].index); }
    }
  }

  lemma {:induction false} StartsInOrder(es: seq<Event>)
    requires ReadAll(Start0, es).Some?
    ensures StartIndices(es) == Upto(ReadAll(Start0, es).value.next)
    decreases |es|
  {
    if es != [] {
      var n := |es| - 1;
      StartsInOrder(es[..n]);
      var before := ReadAll(Start0, es[..n]).value;
      if es[n].Start? { assert Upto(before.next) + [before.next] == Upto(before.next + 1); }
    }
  }

  /** The closing mark is the last event's signature. */
  lemma ClosingIsLast(es: seq<Event>, i: nat)
    requires ReadAll(Start0, es).Some?
    ensures ReadAll(Start0, es).value.closing == Some(i) <==> es != [] && es[|es| - 1] == Signature(i)
  {
    if es != [] {
      var n := |es| - 1;
      var before := ReadAll(Start0, es[..n]).value;
      if before.closing.Some? { assert es[n] == Stop(before.closing.value); }
    }
  }

  lemma {:induction false} PrefixReads(es: seq<Event>, p: nat)
    requires ReadAll(Start0, es).Some? && p <= |es|
    ensures ReadAll(Start0, es[..p]).Some?
    decreases |es|
  {
    if p == |es| {
      assert es[..p] == es;
    } else {
      var n := |es| - 1;
      PrefixReads(es[..n], p);
      assert es[..n][..p] == es[..p];
    }
  }

  lemma {:induction false} EndedIsClosed(es: seq<Event>)
    requires ReadAll(Start0, es).Some?
    requires ReadAll(Start0, es).value.phase.Summed? || ReadAll(Start0, es).value.phase.Finished?
    ensures ReadAll(Start0, es).value.open == map[] && ReadAll(Start0, es).value.next >= 1
    decreases |es|
  {
    var n := |es| - 1;
    if !ReadAll(Start0, es[..n]).value.phase.Streaming? { EndedIsClosed(es[..n]); }
  }

  /** A stream with no block open: blocks are numbered 0, 1, 2, ... in start order, and each has exactly one stop;
      thinking blocks have exactly one signature and the others none. A finished stream is one, and has a block. */
  lemma FinishedMeans(es: seq<Event>)
    requires ReadAll(Start0, es).Some?
    requires ReadAll(Start0, es).value.open == map[] || ReadAll(Start0, es).value.phase.Finished?
    ensures ReadAll(Start0, es).value.phase.Finished? ==> ReadAll(Start0, es).value.next >= 1
    ensures var n := ReadAll(Start0, es).value.next;
            && StartIndices(es) == Upto(n)
            && forall i: nat | i < n :: StopCount(es, i) == 1 && StartKind(es, i).Some?
                                        && SignatureCount(es, i) == (if StartKind(es, i).value.Thinking? then 1 else 0)
  {
    hide ReadAll, StopCount, SignatureCount, StartKind, StartIndices;
    StartsInOrder(es);
    if ReadAll(Start0, es).value.phase.Finished? { EndedIsClosed(es); }
    var n := ReadAll(Start0, es).value.next;
    forall i: nat | i < n
      ensures StopCount(es, i) == 1 && StartKind(es, i).Some?
              && SignatureCount(es, i) == (if StartKind(es, i).value.Thinking? then 1 else 0)
    {
      ReaderKnows(es, i);
    }
  }

  /** Around every event: a delta comes after its block's start and before its stop and is of the block's
      kind; a signature is followed by its block's stop; the stop of a thinking block follows its signature. */
  lemma EventInPlace(es: seq<Event>, p: nat)
    requires ReadAll(Start0, es).Some? && p < |es|
    ensures es[p].Delta? ==> StartKind(es[..p], es[p].index) == Some(es[p].kind) && StopCount(es[..p], es[p].index) == 0
                             && SignatureCount(es[..p], es[p].index) == 0
    ensures es[p].Signature? && p + 1 < |es| ==> es[p + 1] == Stop(es[p].index)
    ensures es[p].Stop? ==> StartKind(es[..p], es[p].index).Some? && StopCount(es[..p], es[p].index) == 0
    ensures es[p].Stop? && StartKind(es[..p], es[p].index) == Some(Thinking) ==>
            p > 0 && es[p - 1] == Signature(es[p].index)
    ensures es[p].MessageDelta? || es[p].MessageStop? ==>
            ReadAll(Start0, es[..p]).Some? && ReadAll(Start0, es[..p]).value.open == map[]
  {
    hide StopCount, SignatureCount, StartKind;
    PrefixReads(es, p);
    PrefixReads(es, p + 1);
    assert es[..p + 1][..p] == es[..p];
    var before := ReadAll(Start0, es[..p]).value;
    assert Read(before, es[p]).Some?;
    if es[p].Delta? || es[p].Signature? || es[p].Stop? {
      ReaderKnows(es[..p], es[p].index);
      ClosingIsLast(es[..p], es[p].index);
    }
    if es[p].Signature? && p + 1 < |es| {
      PrefixReads(es, p + 2);
      assert es[..p + 2][..p + 1] == es[..p + 1];
    }
    if es[p].MessageStop? { EndedIsClosed(es[..p]); }
  }

  // ---------------------------------------------------------------------------------------------
  // One block at a time
  // ---------------------------------------------------------------------------------------------

  /** The most blocks open at any moment while reading es. */
  function MaxOpen(r: Reader, es: seq<Event>): nat {
    if es == [] then |r.open|
    else
      var n := |es| - 1;
      var before := MaxOpen(r, es[..n]);
      match ReadAll(r, es)
      case None => before
      case Some(now) => if before < |now.open| then |now.open| else before
  }

  lemma {:induction false} MaxOpenJoin(r: Reader, a: seq<Event>, b: seq<Event>)
    requires ReadAll(r, a).Some?
    ensures MaxOpen(r, a + b) == Max(MaxOpen(r, a), MaxOpen(ReadAll(r, a).value, b))
    decreases |b|
  {
    hide ReadAll;
    if b == [] {
      assert a + b == a;
      LastCounts(r, a);
    } else {
      var n := |b| - 1;
      MaxOpenJoin(r, a, b[..n]);
      assert (a + b)[..|a| + n] == a + b[..n];
      ReadJoin(r, a, b);
    }
  }

  lemma LastCounts(r: Reader, a: seq<Event>)
    requires ReadAll(r, a).Some?
    ensures |ReadAll(r, a).value.open| <= MaxOpen(r, a)
  {}

  /** How many blocks the provider has open. */
  function Open(b: Blocks): nat { (if b.thinking.Some? then 1 else 0) + (if b.text.Some? then 1 else 0) }

  lemma OpenSize(b: Blocks)
    requires BlocksOk(b)
    ensures |Opened(b)| == Open(b)
  {
    var m := Opened(b);
    if b.thinking.Some? && b.text.Some? {
      assert m.Keys == {b.thinking.value, b.text.value};
    } else if b.thinking.Some? {
      assert m.Keys == {b.thinking.value};
    } else if b.text.Some? {
      assert m.Keys == {b.text.value};
    } else {
      assert m.Keys == {};
    }
  }

  lemma MaxOne(r: Reader, e: Event)
    requires Read(r, e).Some?
    ensures MaxOpen(r, [e]) == Max(|r.open|, |Read(r, e).value.open|)
  {
    ReadOne(r, e);
    assert [e][..0] == [];
    assert MaxOpen(r, [e][..0]) == |r.open|;
  }

  lemma MaxTwo(r: Reader, d: Event, e: Event)
    requires Read(r, d).Some? && Read(Read(r, d).value, e).Some?
    ensures MaxOpen(r, [d, e]) == Max(|r.open|, Max(|Read(r, d).value.open|, |Read(Read(r, d).value, e).value.open|))
  {
    hide Read;
    ReadOne(r, d);
    MaxOpenJoin(r, [d], [e]);
    MaxOne(r, d);
    MaxOne(Read(r, d).value, e);
    assert [d] + [e] == [d, e];
  }

  lemma MaxThen(b: Blocks, s: Step, t: Step)
    requires Follows(b, s)
    ensures MaxOpen(Seen(b), Then(s, t).events) == Max(MaxOpen(Seen(b), s.events), MaxOpen(Seen(s.after), t.events))
  {
    hide Opened, Read;
    MaxOpenJoin(Seen(b), s.events, t.events);
  }

  lemma MaxNothing(b: Blocks)
    requires BlocksOk(b)
    ensures MaxOpen(Seen(b), []) == Open(b)
  {
    OpenSize(b);
  }

  lemma ReasoningMax(b: Blocks, text: string)
    requires BlocksOk(b)
    ensures MaxOpen(Seen(b), Reasoning(b, text).events) == Open(Reasoning(b, text).after)
  {
    hide MaxOpen, ReadAll, Opened;
    OpenSize(b);
    match b.thinking
    case Some(i) =>
      OpenedHas(b);
      MaxOne(Seen(b), Delta(i, Thinking, text));
    case None =>
      OpenedNext(b);
      StartMax(b, b.(next := b.next + 1, thinking := Some(b.next)), Thinking, text);
  }

  lemma OpenedNext(b: Blocks)
    requires BlocksOk(b)
    ensures b.thinking.None? ==>
            Opened(b.(next := b.next + 1, thinking := Some(b.next))) == Opened(b)[b.next := Thinking]
    ensures b.text.None? ==> Opened(b.(next := b.next + 1, text := Some(b.next))) == Opened(b)[b.next := Text]
  {}

  lemma OpenedHas(b: Blocks)
    requires BlocksOk(b)
    ensures b.thinking.Some? ==> b.thinking.value in Opened(b) && Opened(b)[b.thinking.value] == Thinking
    ensures b.text.Some? ==> b.text.value in Opened(b) && Opened(b)[b.text.value] == Text
  {}

  /** Starting a block and writing its first delta. */
  lemma StartMax(b: Blocks, after: Blocks, kind: Kind, text: string)
    requires BlocksOk(b) && BlocksOk(after) && after.next == b.next + 1 && !kind.Tool?
    requires Opened(after) == Opened(b)[b.next := kind]
    ensures MaxOpen(Seen(b), [Start(b.next, kind, None), Delta(b.next, kind, text)]) == Max(Open(b), Open(after))
  {
    hide MaxOpen, ReadAll, Opened;
    OpenSize(b);
    OpenSize(after);
    MaxTwo(Seen(b), Start(b.next, kind, None), Delta(b.next, kind, text));
  }

  lemma CloseThinkingMax(b: Blocks)
    requires BlocksOk(b)
    ensures MaxOpen(Seen(b), CloseThinking(b).events) == Open(b)
  {
    hide MaxOpen, ReadAll;
    OpenSize(b);
    OpenSize(CloseThinking(b).after);
    match b.thinking
    case Some(i) =>
      MaxTwo(Seen(b), Signature(i), Stop(i));
      assert Opened(b) - {i} == Opened(b.(thinking := None));
    case None => MaxNothing(b);
  }

  lemma CloseTextMax(b: Blocks)
    requires BlocksOk(b)
    ensures MaxOpen(Seen(b), CloseText(b).events) == Open(b)
  {
    hide MaxOpen, ReadAll;
    OpenSize(b);
    OpenSize(CloseText(b).after);
    match b.text
    case Some(i) =>
      MaxOne(Seen(b), Stop(i));
      assert Opened(b) - {i} == Opened(b.(text := None));
    case None => MaxNothing(b);
  }

  lemma AddTextMax(b: Blocks, text: string)
    requires BlocksOk(b)
    ensures MaxOpen(Seen(b), AddText(b, text).events) == Open(AddText(b, text).after)
  {
    hide MaxOpen, ReadAll, Opened;
    OpenSize(b);
    match b.text
    case Some(i) =>
      OpenedHas(b);
      MaxOne(Seen(b), Delta(i, Text, text));
    case None =>
      OpenedNext(b);
      StartMax(b, b.(next := b.next + 1, text := Some(b.next)), Text, text);
  }

  lemma ReactMax(b: Blocks, c: Callback)
    requires BlocksOk(b)
    ensures MaxOpen(Seen(b), React(b, c).events) == Max(Open(b), Open(React(b, c).after))
  {
    hide MaxOpen, ReadAll, Opened;
    match c
    case OnReasoning(text) => ReasoningMax(b, text);
    case OnContent(text) =>
      CloseThinkingFollows(b);
      CloseThinkingMax(b);
      AddTextMax(CloseThinking(b).after, text);
      MaxThen(b, CloseThinking(b), AddText(CloseThinking(b).after, text));
  }

  /** Reasoning never comes after content. */
  predicate ReasoningFirst(cs: seq<Callback>) {
    forall i, j | 0 <= i < j < |cs| :: !(cs[i].OnContent? && cs[j].OnReasoning?)
  }

  predicate HasContent(cs: seq<Callback>) { exists i :: 0 <= i < |cs| && cs[i].OnContent? }

  /** What is open after the callbacks: thinking exactly if the last one was reasoning, text exactly if there
      was any content. */
  lemma {:induction false} OpenAfter(cs: seq<Callback>)
    ensures BlocksOk(ReactAll(Fresh, cs).after)
    ensures ReactAll(Fresh, cs).after.thinking.Some? <==> cs != [] && cs[|cs| - 1].OnReasoning?
    ensures ReactAll(Fresh, cs).after.text.Some? <==> HasContent(cs)
  {
    FreshSeen();
    ReactAllFollows(Fresh, cs);
    if cs != [] {
      var n := |cs| - 1;
      OpenAfter(cs[..n]);
      if HasContent(cs[..n]) {
        var i :| 0 <= i < n && cs[..n][i].OnContent?;
        assert cs[i].OnContent?;
      }
      if HasContent(cs) && !cs[n].OnContent? {
        var i :| 0 <= i < |cs| && cs[i].OnContent?;
        assert cs[..n][i].OnContent?;
      }
      if cs[n].OnContent? { assert HasContent(cs); }
    }
  }

  lemma {:induction false} CallbacksMax(cs: seq<Callback>)
    ensures MaxOpen(Seen(Fresh), ReactAll(Fresh, cs).events) <= 1 <==> ReasoningFirst(cs)
    decreases |cs|
  {
    hide MaxOpen, ReadAll, React, Opened, HasContent;
    FreshSeen();
    if cs == [] {
      MaxNothing(Fresh);
    } else {
      var n := |cs| - 1;
      var before := ReactAll(Fresh, cs[..n]);
      CallbacksMax(cs[..n]);
      ReactAllFollows(Fresh, cs[..n]);
      OpenAfter(cs[..n]);
      OpenAfter(cs);
      ReactMax(before.after, cs[n]);
      MaxThen(Fresh, before, React(before.after, cs[n]));
      CallbacksLast(Fresh, cs[..n]);
      FirstSplit(cs);
    }
  }

  /** The blocks open after the callbacks are among those counted. */
  lemma CallbacksLast(b: Blocks, cs: seq<Callback>)
    requires BlocksOk(b)
    ensures BlocksOk(ReactAll(b, cs).after) && Open(ReactAll(b, cs).after) <= MaxOpen(Seen(b), ReactAll(b, cs).events)
  {
    hide MaxOpen, React, Opened;
    ReactAllFollows(b, cs);
    LastCounts(Seen(b), ReactAll(b, cs).events);
    OpenSize(ReactAll(b, cs).after);
  }

  lemma FirstSplit(cs: seq<Callback>)
    requires cs != []
    ensures var n := |cs| - 1;
            ReasoningFirst(cs) <==> ReasoningFirst(cs[..n]) && !(cs[n].OnReasoning? && HasContent(cs))
  {
    var n := |cs| - 1;
    if ReasoningFirst(cs) {
      forall i, j | 0 <= i < j < n ensures !(cs[..n][i].OnContent? && cs[..n][j].OnReasoning?) {
        assert cs[..n][i] == cs[i] && cs[..n][j] == cs[j];
      }
    }
    if ReasoningFirst(cs[..n]) && !(cs[n].OnReasoning? && HasContent(cs)) {
      forall i, j | 0 <= i < j < |cs| ensures !(cs[i].OnContent? && cs[j].OnReasoning?) {
        if j < n { assert cs[..n][i] == cs[i] && cs[..n][j] == cs[j]; }
      }
    }
  }

  lemma OneBlockMax(b: Blocks, kind: Kind, head: Option<ToolHead>, deltas: seq<string>)
    requires |deltas| <= 1 && b.thinking.None? && b.text.None? && !kind.Thinking? && (head.Some? <==> kind.Tool?)
    ensures MaxOpen(Seen(b), OneBlock(b, kind, head, deltas).events) == 1
  {
    hide MaxOpen, ReadAll;
    OpenSize(b);
    var r := Seen(b);
    var begun := r.(next := b.next + 1, open := map[b.next := kind]);
    assert r.open[b.next := kind] == begun.open;
    assert begun.open.Keys == {b.next};
    assert begun.open - {b.next} == map[];
    if deltas == [] {
      MaxTwo(r, Start(b.next, kind, head), Stop(b.next));
      assert OneBlock(b, kind, head, deltas).events == [Start(b.next, kind, head), Stop(b.next)];
    } else {
      var front := [Start(b.next, kind, head), Delta(b.next, kind, deltas[0])];
      MaxTwo(r, front[0], front[1]);
      ReadTwo(r, front[0], front[1]);
      MaxOpenJoin(r, front, [Stop(b.next)]);
      MaxOne(begun, Stop(b.next));
      assert OneBlock(b, kind, head, deltas).events == front + [Stop(b.next)];
    }
  }

  lemma {:induction false} ToolsMax(b: Blocks, calls: seq<ToolCall>)
    requires b.thinking.None? && b.text.None?
    ensures MaxOpen(Seen(b), Tools(b, calls).events) <= 1
    decreases |calls|
  {
    hide MaxOpen, ReadAll, Opened, OneBlock;
    if calls == [] {
      MaxNothing(b);
    } else {
      var n := |calls| - 1;
      var before := Tools(b, calls[..n]);
      ToolsMax(b, calls[..n]);
      ToolsFollow(b, calls[..n]);
      OneBlockMax(before.after, Tool, Some(calls[n].head), [calls[n].arguments]);
      MaxThen(b, before, OneBlock(before.after, Tool, Some(calls[n].head), [calls[n].arguments]));
    }
  }

  lemma CloseAllMax(b: Blocks)
    requires BlocksOk(b)
    ensures MaxOpen(Seen(b), CloseAll(b).events) == Open(b)
  {
    hide MaxOpen, ReadAll, Opened;
    CloseThinkingFollows(b);
    CloseThinkingMax(b);
    CloseTextMax(CloseThinking(b).after);
    MaxThen(b, CloseThinking(b), CloseText(CloseThinking(b).after));
  }

  lemma RestMax(b: Blocks, text: string)
    requires b.thinking.None? && b.text.None?
    ensures MaxOpen(Seen(b), Remainder(b, text).events) <= 1 && MaxOpen(Seen(b), AtLeastOne(b).events) <= 1
  {
    hide MaxOpen, ReadAll, Opened, OneBlock;
    MaxNothing(b);
    OneBlockMax(b, Text, None, [text]);
    OneBlockMax(b, Text, None, []);
  }

  lemma EndMax(b: Blocks, reason: string)
    requires b.next >= 1 && b.thinking.None? && b.text.None?
    ensures MaxOpen(Seen(b), [MessageDelta(reason), MessageStop]) == 0
  {
    hide MaxOpen, ReadAll;
    OpenSize(b);
    MaxTwo(Seen(b), MessageDelta(reason), MessageStop);
  }

  /** Closing a message never adds to the overlap. */
  lemma TailMax(b: Blocks, o: Outcome, toolCapable: bool)
    requires BlocksOk(b) && o.streamedBytes <= |o.text|
    ensures MaxOpen(Seen(b), Tail(b, o, toolCapable).events) <= Max(Open(b), 1)
  {
    hide MaxOpen, ReadAll, Opened, OneBlock, Read;
    var closed := CloseAll(b);
    CloseAllFollows(b);
    CloseAllMax(b);
    var rest := if toolCapable then Remainder(closed.after, o.text[o.streamedBytes..]) else Step([], closed.after);
    RestFollows(closed.after, o.text[o.streamedBytes..]);
    NothingFollows(closed.after);
    RestMax(closed.after, o.text[o.streamedBytes..]);
    MaxNothing(closed.after);
    MaxThen(b, closed, rest);
    ThenFollows(b, closed, rest);
    var tools := if toolCapable then Tools(rest.after, o.tools) else Step([], rest.after);
    ToolsFollow(rest.after, o.tools);
    NothingFollows(rest.after);
    ToolsMax(rest.after, o.tools);
    MaxNothing(rest.after);
    MaxThen(b, Then(closed, rest), tools);
    ThenFollows(b, Then(closed, rest), tools);
    var one := AtLeastOne(tools.after);
    OneFollows(tools.after);
    RestMax(tools.after, "");
    MaxThen(b, Then(Then(closed, rest), tools), one);
    ThenFollows(b, Then(Then(closed, rest), tools), one);
    var all, end := Then(Then(Then(closed, rest), tools), one), [MessageDelta(o.stopReason), MessageStop];
    EndMax(one.after, o.stopReason);
    MaxOpenJoin(Seen(b), all.events, end);
    assert Tail(b, o, toolCapable).events == all.events + end;
  }

  /** Blocks overlap in a transcript exactly when the generation reasons again after producing content. */
  lemma OneAtATime(cs: seq<Callback>, outcome: Option<Outcome>, toolCapable: bool)
    ensures MaxOpen(Start0, Transcript(cs, outcome, toolCapable)) <= 1 <==> ReasoningFirst(cs)
  {
    hide MaxOpen, ReadAll, Opened, Tail, ReactAll, ReasoningFirst;
    var live := ReactAll(Fresh, cs);
    FreshSeen();
    ReactAllFollows(Fresh, cs);
    CallbacksMax(cs);
    CallbacksLast(Fresh, cs);
    var end := match outcome
               case Some(o) => if o.streamedBytes <= |o.text| then Tail(live.after, o, toolCapable).events
                 else [ErrorEvent]
               case None => [ErrorEvent];
    ReadOne(Start0, MessageStart);
    MaxOne(Start0, MessageStart);
    MaxOpenJoin(Start0, [MessageStart], live.events);
    ReadJoin(Start0, [MessageStart], live.events);
    MaxOpenJoin(Start0, [MessageStart] + live.events, end);
    if outcome.Some? && outcome.value.streamedBytes <= |outcome.value.text| {
      TailMax(live.after, outcome.value, toolCapable);
    } else {
      MaxOne(Seen(live.after), ErrorEvent);
      OpenSize(live.after);
    }
  }

  /** A run that overlaps: content, then reasoning again. */
  lemma OverlapExample()
    ensures MaxOpen(Start0, Transcript([OnContent("a"), OnReasoning("b")], None, false)) > 1
  {
    var cs := [OnContent("a"), OnReasoning("b")];
    assert cs[0].OnContent? && cs[1].OnReasoning?;
    OneAtATime(cs, None, false);
  }

  // ---------------------------------------------------------------------------------------------
  // Nothing streamed is lost
  // ---------------------------------------------------------------------------------------------

  /** The delta texts of one kind, in order. */
  function Deltas(es: seq<Event>, kind: Kind): seq<string> {
    if es == [] then []
    else
      var n := |es| - 1;
      Deltas(es[..n], kind) + (if es[n].Delta? && es[n].kind == kind then [es[n].text] else [])
  }

  /** The delta text an event contributes. */
  function DeltaOf(e: Event, kind: Kind): seq<string> { if e.Delta? && e.kind == kind then [e.text] else [] }

  lemma DeltasLast(es: seq<Event>, e: Event, kind: Kind)
    ensures Deltas(es + [e], kind) == Deltas(es, kind) + DeltaOf(e, kind)
  {
    assert (es + [e])[..|es|] == es;
  }

  lemma {:induction false} DeltasJoin(a: seq<Event>, b: seq<Event>, kind: Kind)
    ensures Deltas(a + b, kind) == Deltas(a, kind) + Deltas(b, kind)
    decreases |b|
  {
    if b == [] {
      assert a + b == a;
    } else {
      hide Deltas, DeltaOf;
      var n := |b| - 1;
      DeltasJoin(a, b[..n], kind);
      DeltasLast(b[..n], b[n], kind);
      DeltasLast(a + b[..n], b[n], kind);
      assert b == b[..n] + [b[n]] && a + b == a + b[..n] + [b[n]];
    }
  }

  /** The texts the callbacks delivered. */
  function Delivered(cs: seq<Callback>, content: bool): seq<string> {
    if cs == [] then []
    else
      var n := |cs| - 1;
      Delivered(cs[..n], content) + (if cs[n].OnContent? == content then [cs[n].text] else [])
  }

  lemma DeltasOne(e: Event, kind: Kind)
    ensures Deltas([e], kind) == if e.Delta? && e.kind == kind then [e.text] else []
  {
    assert [e][..0] == [];
    assert Deltas([e][..0], kind) == [];
  }

  lemma DeltasTwo(d: Event, e: Event, kind: Kind)
    ensures Deltas([d, e], kind) == Deltas([d], kind) + Deltas([e], kind)
  {
    DeltasJoin([d], [e], kind);
    assert [d] + [e] == [d, e];
  }

  lemma ReactDeltas(b: Blocks, c: Callback, kind: Kind)
    ensures Deltas(React(b, c).events, kind)
            == if (c.OnReasoning? && kind.Thinking?) || (c.OnContent? && kind.Text?) then [c.text] else []
  {
    hide Deltas;
    var s := React(b, c);
    match c
    case OnReasoning(text) =>
      var i := if b.thinking.Some? then b.thinking.value else b.next;
      DeltasOne(Delta(i, Thinking, text), kind);
      DeltasOne(Start(i, Thinking, None), kind);
      DeltasTwo(Start(i, Thinking, None), Delta(i, Thinking, text), kind);
    case OnContent(text) =>
      var closed := CloseThinking(b);
      CloseDeltas(b, kind);
      DeltasJoin(closed.events, AddText(closed.after, text).events, kind);
      var i := if b.text.Some? then b.text.value else b.next;
      DeltasOne(Delta(i, Text, text), kind);
      DeltasOne(Start(i, Text, None), kind);
      DeltasTwo(Start(i, Text, None), Delta(i, Text, text), kind);
  }

  lemma CloseDeltas(b: Blocks, kind: Kind)
    ensures Deltas(CloseThinking(b).events, kind) == [] && Deltas(CloseText(b).events, kind) == []
            && Deltas(CloseAll(b).events, kind) == []
  {
    hide Deltas;
    NoDeltas(kind);
    var closed := CloseThinking(b);
    if b.thinking.Some? {
      DeltasOne(Signature(b.thinking.value), kind);
      DeltasOne(Stop(b.thinking.value), kind);
      DeltasTwo(Signature(b.thinking.value), Stop(b.thinking.value), kind);
    }
    if b.text.Some? { DeltasOne(Stop(b.text.value), kind); }
    DeltasJoin(closed.events, CloseText(closed.after).events, kind);
  }

  lemma NoDeltas(kind: Kind)
    ensures Deltas([], kind) == []
  {}

  lemma {:induction false} ReactAllDeltas(b: Blocks, cs: seq<Callback>)
    ensures Deltas(ReactAll(b, cs).events, Thinking) == Delivered(cs, false)
    ensures Deltas(ReactAll(b, cs).events, Text) == Delivered(cs, true)
    ensures Deltas(ReactAll(b, cs).events, Tool) == []
    decreases |cs|
  {
    hide React;
    if cs != [] {
      var n := |cs| - 1;
      var before := ReactAll(b, cs[..n]);
      ReactAllDeltas(b, cs[..n]);
      var now := React(before.after, cs[n]);
      forall kind
        ensures Deltas(before.events + now.events, kind) == Deltas(before.events, kind) + Deltas(now.events, kind)
      {
        DeltasJoin(before.events, now.events, kind);
      }
      ReactDeltas(before.after, cs[n], Thinking);
      ReactDeltas(before.after, cs[n], Text);
      ReactDeltas(before.after, cs[n], Tool);
    }
  }

  function Arguments(calls: seq<ToolCall>): (a: seq<string>)
    ensures |a| == |calls| && forall i | 0 <= i < |calls| :: a[i] == calls[i].arguments
  {
    seq(|calls|, i requires 0 <= i < |calls| => calls[i].arguments)
  }

  lemma OneBlockDeltas(b: Blocks, k: Kind, head: Option<ToolHead>, deltas: seq<string>, kind: Kind)
    requires |deltas| <= 1
    ensures Deltas(OneBlock(b, k, head, deltas).events, kind) == if kind == k then deltas else []
  {
    hide Deltas;
    NoDeltas(kind);
    var mid := if deltas == [] then [] else [Delta(b.next, k, deltas[0])];
    DeltasOne(Start(b.next, k, head), kind);
    DeltasOne(Stop(b.next), kind);
    if deltas != [] {
      DeltasOne(Delta(b.next, k, deltas[0]), kind);
      assert deltas == [deltas[0]];
    }
    DeltasJoin([Start(b.next, k, head)], mid, kind);
    DeltasJoin([Start(b.next, k, head)] + mid, [Stop(b.next)], kind);
  }

  lemma {:induction false} ToolsDeltas(b: Blocks, calls: seq<ToolCall>, kind: Kind)
    ensures Deltas(Tools(b, calls).events, kind) == if kind.Tool? then Arguments(calls) else []
    decreases |calls|
  {
    hide OneBlock, Deltas;
    if calls == [] {
      NoDeltas(kind);
      assert Arguments(calls) == [];
    } else {
      var n := |calls| - 1;
      var before := Tools(b, calls[..n]);
      ToolsDeltas(b, calls[..n], kind);
      OneBlockDeltas(before.after, Tool, Some(calls[n].head), [calls[n].arguments], kind);
      DeltasJoin(before.events, OneBlock(before.after, Tool, Some(calls[n].head), [calls[n].arguments]).events, kind);
      assert Arguments(calls) == Arguments(calls[..n]) + [calls[n].arguments];
    }
  }

  /** What the tail adds: the unstreamed rest of the text and the tool arguments, for a tool-capable request only. */
  lemma TailDeltas(b: Blocks, o: Outcome, toolCapable: bool, kind: Kind)
    requires o.streamedBytes <= |o.text|
    ensures Deltas(Tail(b, o, toolCapable).events, kind)
            == if !toolCapable || kind.Thinking? then []
               else if kind.Text? then (if o.streamedBytes == |o.text| then [] else [o.text[o.streamedBytes..]])
               else Arguments(o.tools)
  {
    hide Deltas, OneBlock, CloseAll, Tools;
    NoDeltas(kind);
    var closed := CloseAll(b);
    CloseDeltas(b, kind);
    var left := o.text[o.streamedBytes..];
    var rest := if toolCapable then Remainder(closed.after, left) else Step([], closed.after);
    if left != "" { OneBlockDeltas(closed.after, Text, None, [left], kind); }
    var tools := if toolCapable then Tools(rest.after, o.tools) else Step([], rest.after);
    ToolsDeltas(rest.after, o.tools, kind);
    var one := AtLeastOne(tools.after);
    if tools.after.next == 0 { OneBlockDeltas(tools.after, Text, None, [], kind); }
    DeltasOne(MessageDelta(o.stopReason), kind);
    DeltasOne(MessageStop, kind);
    DeltasTwo(MessageDelta(o.stopReason), MessageStop, kind);
    DeltasJoin(closed.events, rest.events, kind);
    DeltasJoin(closed.events + rest.events, tools.events, kind);
    DeltasJoin(closed.events + rest.events + tools.events, one.events, kind);
    DeltasJoin(closed.events + rest.events + tools.events + one.events, [MessageDelta(o.stopReason), MessageStop],
      kind);
  }

  // ---------------------------------------------------------------------------------------------
  // The tool calls a client reads off the stream
  // ---------------------------------------------------------------------------------------------

  /** A tool block as the client assembles it. */
  datatype ToolBlock = ToolBlock(index: nat, call: ToolCall)

  /** The tool blocks read so far: a start opens one, a delta extends the one last opened if its index agrees. */
  function Received(es: seq<Event>): seq<ToolBlock> {
    if es == [] then []
    else
      var n := |es| - 1;
      var before := Received(es[..n]);
      match es[n]
      case Start(i, Tool, Some(head)) => before + [ToolBlock(i, ToolCall(head, ""))]
      case Delta(i, Tool, text) =>
        if before == [] || before[|before| - 1].index != i then before
        else before[..|before| - 1] + [Extended(before[|before| - 1], text)]
      case _ => before
  }

  function Extended(block: ToolBlock, text: string): ToolBlock {
    block.(call := block.call.(arguments := block.call.arguments + text))
  }

  function Calls(blocks: seq<ToolBlock>): (calls: seq<ToolCall>)
    ensures |calls| == |blocks| && forall i | 0 <= i < |blocks| :: calls[i] == blocks[i].call
  {
    seq(|blocks|, i requires 0 <= i < |blocks| => blocks[i].call)
  }

  /** The events neither start a tool block nor extend one. */
  predicate NoTools(es: seq<Event>) {
    forall i | 0 <= i < |es| :: !((es[i].Start? || es[i].Delta?) && es[i].kind.Tool?)
  }

  lemma {:induction false} NoToolsAdd(a: seq<Event>, b: seq<Event>)
    requires NoTools(b)
    ensures Received(a + b) == Received(a)
    decreases |b|
  {
    if b == [] {
      assert a + b == a;
    } else {
      var n := |b| - 1;
      NoToolsAdd(a, b[..n]);
      assert (a + b)[..|a| + n] == a + b[..n];
      assert (a + b)[|a| + n] == b[n];
    }
  }

  lemma ReceivedNext(a: seq<Event>, e: Event)
    ensures (a + [e])[..|a|] == a && (a + [e])[|a|] == e
  {}

  lemma ToolBlockAdds(a: seq<Event>, b: Blocks, call: ToolCall)
    ensures Received(a + OneBlock(b, Tool, Some(call.head), [call.arguments]).events)
            == Received(a) + [ToolBlock(b.next, call)]
  {
    var start, delta, stop := Start(b.next, Tool, Some(call.head)), Delta(b.next, Tool, call.arguments), Stop(b.next);
    assert a + OneBlock(b, Tool, Some(call.head), [call.arguments]).events == a + [start] + [delta] + [stop];
    ReceivedNext(a, start);
    ReceivedNext(a + [start], delta);
    ReceivedNext(a + [start] + [delta], stop);
    var begun := Received(a + [start]);
    assert begun[..|begun| - 1] == Received(a);
    assert "" + call.arguments == call.arguments;
  }

  lemma {:induction false} ToolsReceived(a: seq<Event>, b: Blocks, calls: seq<ToolCall>)
    ensures Calls(Received(a + Tools(b, calls).events)) == Calls(Received(a)) + calls
    decreases |calls|
  {
    hide OneBlock, Received;
    if calls == [] {
      assert a + Tools(b, calls).events == a;
    } else {
      var n := |calls| - 1;
      var before := Tools(b, calls[..n]);
      ToolsReceived(a, b, calls[..n]);
      ToolBlockAdds(a + before.events, before.after, calls[n]);
      var last := OneBlock(before.after, Tool, Some(calls[n].head), [calls[n].arguments]).events;
      assert a + (before.events + last) == a + before.events + last;
      assert calls == calls[..n] + [calls[n]];
    }
  }

  lemma {:induction false} ReactAllNoTools(b: Blocks, cs: seq<Callback>)
    ensures NoTools(ReactAll(b, cs).events)
    decreases |cs|
  {
    if cs != [] { ReactAllNoTools(b, cs[..|cs| - 1]); }
  }

  lemma BlocksNoTools(b: Blocks, text: string)
    ensures NoTools(CloseAll(b).events) && NoTools(Remainder(b, text).events) && NoTools(AtLeastOne(b).events)
  {}

  lemma TailReceived(a: seq<Event>, b: Blocks, o: Outcome, toolCapable: bool)
    requires o.streamedBytes <= |o.text|
    ensures Calls(Received(a + Tail(b, o, toolCapable).events))
            == Calls(Received(a)) + if toolCapable then o.tools else []
  {
    hide Received, Tools, CloseAll, Remainder, AtLeastOne, Calls;
    var closed := CloseAll(b);
    var left := o.text[o.streamedBytes..];
    var rest := if toolCapable then Remainder(closed.after, left) else Step([], closed.after);
    var tools := if toolCapable then Tools(rest.after, o.tools) else Step([], rest.after);
    var one := AtLeastOne(tools.after);
    var end := [MessageDelta(o.stopReason), MessageStop];
    BlocksNoTools(b, left);
    BlocksNoTools(closed.after, left);
    BlocksNoTools(tools.after, left);
    var a1 := a + closed.events;
    NoToolsAdd(a, closed.events);
    NoToolsAdd(a1, rest.events);
    var a2 := a1 + rest.events;
    if toolCapable { ToolsReceived(a2, rest.after, o.tools); } else { assert a2 + [] == a2; }
    var a3 := a2 + tools.events;
    NoToolsAdd(a3, one.events);
    NoToolsAdd(a3 + one.events, end);
    assert a + Tail(b, o, toolCapable).events == a3 + one.events + end;
  }

  // ---------------------------------------------------------------------------------------------
  // Conservation
  // ---------------------------------------------------------------------------------------------

  /** The generation returned and claims to have streamed no more than it produced. */
  predicate Completes(outcome: Option<Outcome>) {
    outcome.Some? && outcome.value.streamedBytes <= |outcome.value.text|
  }

  /** Every delivered text is streamed once, in order and in a block of its kind, whether or not the generation
      completes; a completed tool-capable message adds exactly the unstreamed rest of its text, and the client
      reads off exactly its tool calls, with id, name and arguments. */
  lemma NothingLost(cs: seq<Callback>, outcome: Option<Outcome>, toolCapable: bool)
    ensures var es, more := Transcript(cs, outcome, toolCapable), Completes(outcome) && toolCapable;
            && Deltas(es, Thinking) == Delivered(cs, false)
            && Deltas(es, Text) == Delivered(cs, true)
                 + (if more && outcome.value.streamedBytes < |outcome.value.text|
                    then [outcome.value.text[outcome.value.streamedBytes..]] else [])
            && Deltas(es, Tool) == (if more then Arguments(outcome.value.tools) else [])
            && Calls(Received(es)) == if more then outcome.value.tools else []
  {
    hide Deltas, Tail, ReactAll, Received, NoTools;
    var live := ReactAll(Fresh, cs);
    var end := if Completes(outcome) then Tail(live.after, outcome.value, toolCapable).events else [ErrorEvent];
    assert Transcript(cs, outcome, toolCapable) == [MessageStart] + live.events + end;
    ReactAllDeltas(Fresh, cs);
    forall kind ensures Deltas(Transcript(cs, outcome, toolCapable), kind)
                        == Deltas(live.events, kind) + Deltas(end, kind)
    {
      DeltasOne(MessageStart, kind);
      DeltasJoin([MessageStart], live.events, kind);
      DeltasJoin([MessageStart] + live.events, end, kind);
    }
    ReactAllNoTools(Fresh, cs);
    LiveReceived(live.events);
    if Completes(outcome) {
      TailDeltas(live.after, outcome.value, toolCapable, Thinking);
      TailDeltas(live.after, outcome.value, toolCapable, Text);
      TailDeltas(live.after, outcome.value, toolCapable, Tool);
      TailReceived([MessageStart] + live.events, live.after, outcome.value, toolCapable);
    } else {
      DeltasOne(ErrorEvent, Thinking);
      DeltasOne(ErrorEvent, Text);
      DeltasOne(ErrorEvent, Tool);
    }
  }

  lemma LiveReceived(events: seq<Event>)
    requires NoTools(events)
    ensures Received([MessageStart] + events) == [] && Received([MessageStart] + events + [ErrorEvent]) == []
  {
    NoToolsAdd([], [MessageStart] + events + [ErrorEvent]);
    NoToolsAdd([], [MessageStart] + events);
    assert [] + ([MessageStart] + events) == [MessageStart] + events;
    assert [] + ([MessageStart] + events + [ErrorEvent]) == [MessageStart] + events + [ErrorEvent];
  }

  function Concat(ss: seq<string>): string { if ss == [] then "" else Concat(ss[..|ss| - 1]) + ss[|ss| - 1] }

  /** If the content callbacks delivered the streamed part of the text, the client receives the whole text
      exactly when the request is tool capable or nothing was left unstreamed. */
  lemma WholeTextIff(cs: seq<Callback>, o: Outcome, toolCapable: bool)
    requires o.streamedBytes <= |o.text| && Concat(Delivered(cs, true)) == o.text[..o.streamedBytes]
    ensures Concat(Deltas(Transcript(cs, Some(o), toolCapable), Text)) == o.text <==>
            toolCapable || o.streamedBytes == |o.text|
  {
    hide Deltas, Transcript, Delivered;
    NothingLost(cs, Some(o), toolCapable);
    var sent := Delivered(cs, true);
    if toolCapable && o.streamedBytes < |o.text| {
      var all := sent + [o.text[o.streamedBytes..]];
      assert all[..|all| - 1] == sent;
    } else {
      assert sent + [] == sent;
    }
  }

  /** A reply that is lost: nothing was streamed and the request is not tool capable. */
  lemma UnstreamedExample()
    ensures var o := Outcome("x", 0, [], "end_turn");
            Deltas(Transcript([], Some(o), false), Text) == []
              && Concat(Deltas(Transcript([], Some(o), false), Text)) != o.text
  {
    NothingLost([], Some(Outcome("x", 0, [], "end_turn")), false);
  }
}
