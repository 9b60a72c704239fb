/** The streaming content provider of /v1/messages (src/serve/http_server.cpp), write by write: for any number
    of writes the client accepts, it sends exactly that much of the transcript. */
module MessageStream {
  import opened Results
  import opened MessageEvents
  import opened MessageLaws

  /** The first n events. */
  function Cut(es: seq<Event>, n: nat): seq<Event> { if |es| <= n then es else es[..n] }

  lemma CutJoin(a: seq<Event>, b: seq<Event>, c: seq<Event>, n: nat)
    requires |a + b| > n
    ensures Cut(a + b + c, n) == Cut(a + b, n)
  {
    assert (a + b + c)[..n] == (a + b)[..n];
  }

  /** The client side: it accepts `limit` writes and then disconnects. */
  class DataSink {
    const limit: nat
    var items: seq<Event>
    var cancelled: bool

    constructor (limit: nat)
      ensures this.limit == limit && items == [] && !cancelled
    {
      this.limit, items, cancelled := limit, [], false;
    }

    ghost predicate Valid()
      reads this
    {
      |items| <= limit && (cancelled ==> |items| == limit)
    }
  }

  /** One run of the provider. */
  class Provider {
    const sink: DataSink
    var started: bool
    var nextIndex: nat
    var thinkingOpen: bool
    var thinkingIndex: int
    var textOpen: bool
    var textIndex: int

    ghost predicate Valid()
      reads this, sink
    {
      sink.Valid() && (thinkingOpen ==> 0 <= thinkingIndex) && (textOpen ==> 0 <= textIndex)
    }

    /** The block state. */
    ghost function State(): Blocks
      requires (thinkingOpen ==> 0 <= thinkingIndex) && (textOpen ==> 0 <= textIndex)
      reads this
    {
      Blocks(nextIndex, if thinkingOpen then Some(thinkingIndex) else None, if textOpen then Some(textIndex) else None)
    }

    constructor (sink: DataSink)
      requires sink.Valid()
      ensures Valid() && this.sink == sink && !started && State() == Fresh
    {
      this.sink, started, nextIndex, thinkingOpen, thinkingIndex, textOpen, textIndex := sink, false, 0, false, -1,
        false, -1;
    }

    /** write_stream_item: false is the ClientDisconnected exception. */
    method Write(e: Event) returns (ok: bool)
      requires Valid() && !sink.cancelled
      modifies sink
      ensures Valid() && sink.items == Cut(old(sink.items) + [e], sink.limit)
      ensures ok <==> |old(sink.items)| < sink.limit
      ensures sink.cancelled == !ok
    {
      if |sink.items| == sink.limit {
        sink.cancelled := true;
        return false;
      }
      sink.items := sink.items + [e];
      return true;
    }

    /** The events were appended, as far as the client accepted them. */
    twostate predicate Sent(es: seq<Event>, ok: bool)
      reads this, sink
    {
      && sink.Valid() && sink.items == Cut(old(sink.items) + es, sink.limit)
      && (ok <==> |old(sink.items)| + |es| <= sink.limit) && sink.cancelled == !ok
    }

    method WriteTwo(d: Event, e: Event) returns (ok: bool)
      requires Valid() && !sink.cancelled
      modifies sink
      ensures Valid() && Sent([d, e], ok)
    {
      ok := Write(d);
      if ok {
        ok := Write(e);
        assert old(sink.items) + [d] + [e] == old(sink.items) + [d, e];
      } else {
        assert (old(sink.items) + [d, e])[..sink.limit] == (old(sink.items) + [d])[..sink.limit];
      }
    }

    /** on_reasoning. */
    method OnReasoning(text: string) returns (ok: bool)
      requires Valid() && !sink.cancelled
      modifies sink, this`nextIndex, this`thinkingOpen, this`thinkingIndex
      ensures Valid() && Sent(Reasoning(old(State()), text).events, ok)
      ensures ok ==> State() == Reasoning(old(State()), text).after
    {
      if !thinkingOpen {
        thinkingIndex, nextIndex := nextIndex, nextIndex + 1;
        thinkingOpen := true;
        ok := WriteTwo(Start(thinkingIndex, Thinking, None), Delta(thinkingIndex, Thinking, text));
      } else {
        ok := Write(Delta(thinkingIndex, Thinking, text));
      }
    }

    /** Closing the thinking block: its signature, then its stop. */
    method CloseThinkingBlock() returns (ok: bool)
      requires Valid() && !sink.cancelled
      modifies sink, this`thinkingOpen
      ensures Valid() && Sent(CloseThinking(old(State())).events, ok)
      ensures ok ==> State() == CloseThinking(old(State())).after
    {
      ok := true;
      if thinkingOpen {
        ok := WriteTwo(Signature(thinkingIndex), Stop(thinkingIndex));
        if ok { thinkingOpen := false; }
      }
    }

    /** on_content. */
    method OnContent(text: string) returns (ok: bool)
      requires Valid() && !sink.cancelled
      modifies sink, this`nextIndex, this`thinkingOpen, this`textOpen, this`textIndex
      ensures Valid() && Sent(Content(old(State()), text).events, ok)
      ensures ok ==> State() == Content(old(State()), text).after
    {
      ghost var closed := CloseThinking(State());
      ok := CloseThinkingBlock();
      ghost var rest := AddText(closed.after, text).events;
      if !ok {
        Dropped(old(sink.items), closed.events, rest, sink.limit);
        return;
      }
      if !textOpen {
        textIndex, nextIndex := nextIndex, nextIndex + 1;
        textOpen := true;
        ok := WriteTwo(Start(textIndex, Text, None), Delta(textIndex, Text, text));
      } else {
        ok := Write(Delta(textIndex, Text, text));
      }
      Kept(old(sink.items), closed.events, rest);
    }

    /** A block written in one go, with at most one delta. */
    method WriteBlock(kind: Kind, head: Option<ToolHead>, deltas: seq<string>) returns (ok: bool)
      requires Valid() && !sink.cancelled && |deltas| <= 1
      modifies sink, this`nextIndex
      ensures Valid() && Sent(OneBlock(old(State()), kind, head, deltas).events, ok)
      ensures ok ==> State() == OneBlock(old(State()), kind, head, deltas).after
    {
      var index := nextIndex;
      nextIndex := nextIndex + 1;
      ghost var all := OneBlock(old(State()), kind, head, deltas).events;
      if deltas == [] {
        assert all == [Start(index, kind, head), Stop(index)];
        ok := WriteTwo(Start(index, kind, head), Stop(index));
      } else {
        ghost var front := [Start(index, kind, head), Delta(index, kind, deltas[0])];
        assert all == front + [Stop(index)];
        ok := WriteTwo(Start(index, kind, head), Delta(index, kind, deltas[0]));
        if !ok {
          Dropped(old(sink.items), front, [Stop(index)], sink.limit);
          return;
        }
        ok := Write(Stop(index));
        Kept(old(sink.items), front, [Stop(index)]);
      }
    }

    /** The loop over the tool calls. */
    method WriteTools(calls: seq<ToolCall>) returns (ok: bool)
      requires Valid() && !sink.cancelled
      modifies sink, this`nextIndex
      ensures Valid() && Sent(Tools(old(State()), calls).events, ok)
      ensures ok ==> State() == Tools(old(State()), calls).after
    {
      ghost var b := State();
      assert calls[..0] == [];
      ok := true;
      for k := 0 to |calls|
        invariant Valid() && !sink.cancelled && ok
        invariant Sent(Tools(b, calls[..k]).events, true) && State() == Tools(b, calls[..k]).after
      {
        ghost var done := Tools(b, calls[..k]);
        ghost var next := OneBlock(done.after, Tool, Some(calls[k].head), [calls[k].arguments]);
        assert calls[..k + 1][..k] == calls[..k];
        assert Tools(b, calls[..k + 1]) == Then(done, next);
        ok := WriteBlock(Tool, Some(calls[k].head), [calls[k].arguments]);
        Kept(old(sink.items), done.events, next.events);
        if !ok {
          ToolsSplit(b, calls, k + 1);
          ghost var rest := Tools(b, calls).events[|done.events + next.events|..];
          Dropped(old(sink.items), done.events + next.events, rest, sink.limit);
          return;
        }
      }
      assert calls[..|calls|] == calls;
    }

    /** service run: the callbacks in the order the generation makes them, until one throws. */
    method RunCallbacks(cs: seq<Callback>) returns (ok: bool)
      requires Valid() && !sink.cancelled
      modifies sink, this`nextIndex, this`thinkingOpen, this`thinkingIndex, this`textOpen, this`textIndex
      ensures Valid() && Sent(ReactAll(old(State()), cs).events, ok)
      ensures ok ==> State() == ReactAll(old(State()), cs).after
    {
      ghost var b := State();
      assert cs[..0] == [];
      ok := true;
      for k := 0 to |cs|
        invariant Valid() && !sink.cancelled && ok
        invariant Sent(ReactAll(b, cs[..k]).events, true) && State() == ReactAll(b, cs[..k]).after
      {
        ghost var done := ReactAll(b, cs[..k]);
        ghost var next := React(done.after, cs[k]);
        assert cs[..k + 1][..k] == cs[..k];
        assert ReactAll(b, cs[..k + 1]) == Then(done, next);
        match cs[k] {
          case OnReasoning(text) => ok := OnReasoning(text);
          case OnContent(text) => ok := OnContent(text);
        }
        Kept(old(sink.items), done.events, next.events);
        if !ok {
          CallbacksSplit(b, cs, k + 1);
          ghost var rest := ReactAll(b, cs).events[|done.events + next.events|..];
          Dropped(old(sink.items), done.events + next.events, rest, sink.limit);
          return;
        }
      }
      assert cs[..|cs|] == cs;
    }

    /** Closing both blocks after the generation. */
    method CloseBlocks() returns (ok: bool)
      requires Valid() && !sink.cancelled
      modifies sink, this`thinkingOpen, this`textOpen
      ensures Valid() && Sent(CloseAll(old(State())).events, ok)
      ensures ok ==> State() == CloseAll(old(State())).after
    {
      ghost var closed := CloseThinking(State());
      ghost var rest := CloseText(closed.after).events;
      ok := CloseThinkingBlock();
      if !ok {
        Dropped(old(sink.items), closed.events, rest, sink.limit);
        return;
      }
      if textOpen {
        ok := Write(Stop(textIndex));
        if ok { textOpen := false; }
      }
      Kept(old(sink.items), closed.events, rest);
    }

    /** The blocks a tool-capable request adds after the generation. */
    method WriteRest(remaining: string, calls: seq<ToolCall>, toolCapable: bool) returns (ok: bool)
      requires Valid() && !sink.cancelled
      modifies sink, this`nextIndex
      ensures Valid() && Sent(RestOf(old(State()), remaining, calls, toolCapable).events, ok)
      ensures ok ==> State() == RestOf(old(State()), remaining, calls, toolCapable).after
    {
      ok := true;
      if toolCapable {
        ghost var first := Remainder(State(), remaining);
        if remaining != "" { ok := WriteBlock(Text, None, [remaining]); }
        if !ok {
          Dropped(old(sink.items), first.events, Tools(first.after, calls).events, sink.limit);
          return;
        }
        ok := WriteTools(calls);
        Kept(old(sink.items), first.events, Tools(first.after, calls).events);
      }
    }

    /** Everything after the generation returned. */
    method WriteTail(o: Outcome, toolCapable: bool) returns (ok: bool)
      requires Valid() && !sink.cancelled && o.streamedBytes <= |o.text|
      modifies sink, this`nextIndex, this`thinkingOpen, this`textOpen
      ensures Valid() && Sent(Tail(old(State()), o, toolCapable).events, ok)
    {
      hide CloseAll, RestOf, AtLeastOne;
      ghost var start, limit := sink.items, sink.limit;
      ghost var closed := CloseAll(State());
      ghost var rest := RestOf(closed.after, o.text[o.streamedBytes..], o.tools, toolCapable);
      ghost var one := AtLeastOne(rest.after);
      ghost var end := [MessageDelta(o.stopReason), MessageStop];
      TailParts(State(), o, toolCapable);
      ok := CloseBlocks();
      if !ok {
        Dropped(start, closed.events, rest.events + (one.events + end), limit);
        return;
      }
      Kept(start, closed.events, rest.events + (one.events + end));
      ok := WriteRest(o.text[o.streamedBytes..], o.tools, toolCapable);
      if !ok {
        Dropped(start + closed.events, rest.events, one.events + end, limit);
        return;
      }
      Kept(start + closed.events, rest.events, one.events + end);
      ok := EnsureBlock();
      if !ok {
        Dropped(start + closed.events + rest.events, one.events, end, limit);
        return;
      }
      Kept(start + closed.events + rest.events, one.events, end);
      ok := WriteTwo(MessageDelta(o.stopReason), MessageStop);
    }

    /** An empty message still gets one text block. */
    method EnsureBlock() returns (ok: bool)
      requires Valid() && !sink.cancelled
      modifies sink, this`nextIndex
      ensures Valid() && Sent(AtLeastOne(old(State())).events, ok)
      ensures ok ==> State() == AtLeastOne(old(State())).after
    {
      ok := true;
      if nextIndex == 0 { ok := WriteBlock(Text, None, []); }
    }

    /** The content provider. Its result is false exactly when the client disconnected; called again it writes
        nothing. A generation that throws is `outcome` None. */
    method Provide(cs: seq<Callback>, outcome: Option<Outcome>, toolCapable: bool) returns (ok: bool)
      requires Valid() && !sink.cancelled && (!started ==> State() == Fresh && sink.items == [])
      modifies this, sink
      ensures Valid() && started
      ensures old(started) ==> ok && sink.items == old(sink.items)
      ensures !old(started) ==> sink.items == Cut(Transcript(cs, outcome, toolCapable), sink.limit)
      ensures !old(started) ==> (ok <==> |Transcript(cs, outcome, toolCapable)| <= sink.limit)
    {
      hide ReactAll, Tail;
      if started { return true; }
      started := true;
      ghost var live := ReactAll(Fresh, cs);
      ghost var end := match outcome
                       case Some(o) => if o.streamedBytes <= |o.text| then Tail(live.after, o, toolCapable).events
                         else [ErrorEvent]
                       case None => [ErrorEvent];
      ghost var limit := sink.limit;
      assert Transcript(cs, outcome, toolCapable) == [MessageStart] + (live.events + end);
      Kept([], [MessageStart], live.events + end);
      assert [] + [MessageStart] == [MessageStart];
      ok := Write(MessageStart);
      if !ok {
        Dropped([], [MessageStart], live.events + end, limit);
        return;
      }
      Kept([MessageStart], live.events, end);
      ok := RunCallbacks(cs);
      if !ok {
        Dropped([MessageStart], live.events, end, limit);
        return;
      }
      if outcome.None? || outcome.value.streamedBytes > |outcome.value.text| {
        ok := Write(ErrorEvent);
      } else {
        ok := WriteTail(outcome.value, toolCapable);
      }
    }
  }

  /** Remainder and tools together. */
  function RestOf(b: Blocks, remaining: string, calls: seq<ToolCall>, toolCapable: bool): Step {
    if !toolCapable then Step([], b)
    else
      var first := Remainder(b, remaining);
      Then(first, Tools(first.after, calls))
  }

  lemma TailParts(b: Blocks, o: Outcome, toolCapable: bool)
    requires o.streamedBytes <= |o.text|
    ensures var closed := CloseAll(b);
            var rest := RestOf(closed.after, o.text[o.streamedBytes..], o.tools, toolCapable);
            var one := AtLeastOne(rest.after);
            Tail(b, o, toolCapable).events
            == closed.events + (rest.events + (one.events + [MessageDelta(o.stopReason), MessageStop]))
  {
    hide CloseAll, Remainder, Tools, AtLeastOne;
  }

  /** The events of the first callbacks begin the events of all callbacks. */
  lemma {:induction false} CallbacksSplit(b: Blocks, cs: seq<Callback>, k: nat)
    requires k <= |cs|
    ensures var part, all := ReactAll(b, cs[..k]).events, ReactAll(b, cs).events;
            |part| <= |all| && all == part + all[|part|..]
    decreases |cs|
  {
    hide React;
    if k == |cs| {
      assert cs[..k] == cs;
    } else {
      var n := |cs| - 1;
      CallbacksSplit(b, cs[..n], k);
      assert cs[..n][..k] == cs[..k];
    }
  }

  /** However early the client leaves, what it received is the beginning of a well-formed stream. */
  lemma EveryPrefixReads(cs: seq<Callback>, outcome: Option<Outcome>, toolCapable: bool, limit: nat)
    ensures ReadAll(Start0, Cut(Transcript(cs, outcome, toolCapable), limit)).Some?
  {
    hide Transcript, ReadAll;
    var es := Transcript(cs, outcome, toolCapable);
    TranscriptReads(cs, outcome, toolCapable);
    if |es| > limit { PrefixReads(es, limit); }
  }

  /** After a failed write, later events change nothing. */
  lemma Dropped(before: seq<Event>, sent: seq<Event>, rest: seq<Event>, limit: nat)
    requires |before| + |sent| > limit
    ensures Cut(before + (sent + rest), limit) == Cut(before + sent, limit)
  {
    assert before + (sent + rest) == before + sent + rest;
    CutJoin(before, sent, rest, limit);
  }

  lemma Kept(before: seq<Event>, sent: seq<Event>, rest: seq<Event>)
    ensures before + (sent + rest) == before + sent + rest
  {}

  /** The events of the first calls begin the events of all calls. */
  lemma {:induction false} ToolsSplit(b: Blocks, calls: seq<ToolCall>, k: nat)
    requires k <= |calls|
    ensures var part, all := Tools(b, calls[..k]).events, Tools(b, calls).events;
            |part| <= |all| && all == part + all[|part|..]
    decreases |calls|
  {
    if k == |calls| {
      assert calls[..k] == calls;
    } else {
      var n := |calls| - 1;
      ToolsSplit(b, calls[..n], k);
      assert calls[..n][..k] == calls[..k];
    }
  }
}
