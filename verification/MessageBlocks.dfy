/** What a client assembles from a streamed message (src/serve/http_server.cpp): which deltas share a block, in which
    order the blocks come, and how many there are. */
module MessageBlocks {
  import opened Results
  import opened MessageEvents
  import opened MessageLaws

  // ---------------------------------------------------------------------------------------------
  // The client
  // ---------------------------------------------------------------------------------------------

  /** A content block as the client sees it: its kind, its text so far, and the head of a tool call. */
  datatype Block = Block(kind: Kind, head: Option<ToolHead>, text: string)

  /** The client's blocks after some events: the start of the next index appends a block, a delta extends the
      block of its index. */
  function Assembled(es: seq<Event>): seq<Block> {
    if es == [] then [] else Absorb(Assembled(es[..|es| - 1]), es[|es| - 1])
  }

  function Absorb(bs: seq<Block>, e: Event): seq<Block> {
    match e
    case Start(i, kind, head) => if i == |bs| then bs + [Block(kind, head, "")] else bs
    case Delta(i, _, text) => if i < |bs| then bs[i := bs[i].(text := bs[i].text + text)] else bs
    case _ => bs
  }

  function AbsorbAll(bs: seq<Block>, es: seq<Event>): seq<Block> {
    if es == [] then bs else Absorb(AbsorbAll(bs, es[..|es| - 1]), es[|es| - 1])
  }

  lemma {:induction false} AssembledJoin(a: seq<Event>, b: seq<Event>)
    ensures Assembled(a + b) == AbsorbAll(Assembled(a), b)
    decreases |b|
  {
    hide Absorb;
    if b == [] {
      assert a + b == a;
    } else {
      var n := |b| - 1;
      AssembledJoin(a, b[..n]);
      assert (a + b)[..|a| + n] == a + b[..n];
    }
  }

  lemma {:induction false} AbsorbJoin(bs: seq<Block>, a: seq<Event>, b: seq<Event>)
    ensures AbsorbAll(bs, a + b) == AbsorbAll(AbsorbAll(bs, a), b)
    decreases |b|
  {
    hide Absorb;
    if b == [] {
      assert a + b == a;
    } else {
      var n := |b| - 1;
      AbsorbJoin(bs, a, b[..n]);
      assert (a + b)[..|a| + n] == a + b[..n];
    }
  }

  lemma AbsorbOne(bs: seq<Block>, e: Event)
    ensures AbsorbAll(bs, [e]) == Absorb(bs, e)
  {
    hide Absorb;
    assert [e][..0] == [];
    assert AbsorbAll(bs, [e][..0]) == bs;
  }

  lemma AbsorbTwo(bs: seq<Block>, d: Event, e: Event)
    ensures AbsorbAll(bs, [d, e]) == Absorb(Absorb(bs, d), e)
  {
    hide Absorb;
    AbsorbJoin(bs, [d], [e]);
    AbsorbOne(bs, d);
    AbsorbOne(Absorb(bs, d), e);
    assert [d] + [e] == [d, e];
  }

  // ---------------------------------------------------------------------------------------------
  // What the callbacks should give
  // ---------------------------------------------------------------------------------------------

  /** How many reasoning callbacks come first. */
  function LeadingReasoning(cs: seq<Callback>): (n: nat)
    ensures n <= |cs|
  {
    if cs == [] || cs[0].OnContent? then 0 else 1 + LeadingReasoning(cs[1..])
  }

  function Joined(cs: seq<Callback>): string { if cs == [] then "" else cs[0].text + Joined(cs[1..]) }

  /** The texts of the maximal runs of reasoning callbacks, in order. */
  function Runs(cs: seq<Callback>): seq<string>
    decreases |cs|
  {
    if cs == [] then []
    else if cs[0].OnContent? then Runs(cs[1..])
    else
      var n := LeadingReasoning(cs);
      [Joined(cs[..n])] + Runs(cs[n..])
  }

  function FirstContent(cs: seq<Callback>): (n: nat)
    ensures n <= |cs| && (n < |cs| ==> cs[n].OnContent?)
    ensures forall i | 0 <= i < n :: cs[i].OnReasoning?
  {
    if cs == [] || cs[0].OnContent? then 0 else 1 + FirstContent(cs[1..])
  }

  function Thoughts(texts: seq<string>): (bs: seq<Block>)
    ensures |bs| == |texts| && forall i | 0 <= i < |texts| :: bs[i] == Block(Thinking, None, texts[i])
  {
    seq(|texts|, i requires 0 <= i < |texts| => Block(Thinking, None, texts[i]))
  }

  function ContentOf(c: Callback): string { if c.OnContent? then c.text else "" }

  function Contents(cs: seq<Callback>): string {
    if cs == [] then "" else ContentOf(cs[0]) + Contents(cs[1..])
  }

  /** One thinking block per maximal run of reasoning; all content in one text block, which comes where the first
      content came. */
  function LiveBlocks(cs: seq<Callback>): seq<Block> {
    var f := FirstContent(cs);
    if f == |cs| then Thoughts(Runs(cs))
    else Thoughts(Runs(cs[..f])) + [Block(Text, None, Contents(cs))] + Thoughts(Runs(cs[f..]))
  }

  function ToolBlocks(calls: seq<ToolCall>): (bs: seq<Block>)
    ensures |bs| == |calls| && forall i | 0 <= i < |calls| ::
            bs[i] == Block(Tool, Some(calls[i].head), calls[i].arguments)
  {
    seq(|calls|, i requires 0 <= i < |calls| => Block(Tool, Some(calls[i].head), calls[i].arguments))
  }

  /** All blocks of a message. */
  function MessageOf(cs: seq<Callback>, outcome: Option<Outcome>, toolCapable: bool): seq<Block> {
    if !Completes(outcome) then LiveBlocks(cs)
    else
      var o := outcome.value;
      var rest := if toolCapable && o.streamedBytes < |o.text| then [Block(Text, None, o.text[o.streamedBytes..])]
          else [];
      var tools := if toolCapable then ToolBlocks(o.tools) else [];
      var all := LiveBlocks(cs) + rest + tools;
      if all == [] then [Block(Text, None, "")] else all
  }

  // ---------------------------------------------------------------------------------------------
  // One more callback
  // ---------------------------------------------------------------------------------------------

  lemma Regroup<T>(a: seq<T>, b: seq<T>, c: seq<T>)
    ensures a + (b + c) == a + b + c
  {}

  lemma {:induction false} JoinedSnoc(cs: seq<Callback>, c: Callback)
    ensures Joined(cs + [c]) == Joined(cs) + c.text
  {
    if cs == [] {
      assert cs + [c] == [c] && [c][1..] == [];
      assert c.text + "" == c.text == "" + c.text;
    } else {
      JoinedSnoc(cs[1..], c);
      assert (cs + [c])[1..] == cs[1..] + [c];
      Regroup(cs[0].text, Joined(cs[1..]), c.text);
    }
  }

  lemma {:induction false} ContentsSnoc(cs: seq<Callback>, c: Callback)
    ensures Contents(cs + [c]) == Contents(cs) + ContentOf(c)
  {
    hide ContentOf;
    if cs == [] {
      assert cs + [c] == [c] && [c][1..] == [];
      assert ContentOf(c) + "" == ContentOf(c) == "" + ContentOf(c);
    } else {
      ContentsSnoc(cs[1..], c);
      assert (cs + [c])[1..] == cs[1..] + [c];
      Regroup(ContentOf(cs[0]), Contents(cs[1..]), ContentOf(c));
    }
  }

  lemma {:induction false} LeadingSnoc(cs: seq<Callback>, c: Callback)
    ensures var n := LeadingReasoning(cs);
            LeadingReasoning(cs + [c]) == if n == |cs| && c.OnReasoning? then n + 1 else n
  {
    if cs == [] {
      assert cs + [c] == [c] && [c][1..] == [];
    } else {
      LeadingSnoc(cs[1..], c);
      assert (cs + [c])[1..] == cs[1..] + [c];
    }
  }

  predicate EndsReasoning(cs: seq<Callback>) { cs != [] && cs[|cs| - 1].OnReasoning? }

  function WithLast(texts: seq<string>, text: string): seq<string> {
    if texts == [] then [text] else texts[..|texts| - 1] + [texts[|texts| - 1] + text]
  }

  /** A reasoning callback continues the last run or begins one; a content callback does neither. */
  lemma {:induction false} RunsSnoc(cs: seq<Callback>, c: Callback)
    ensures EndsReasoning(cs) ==> Runs(cs) != []
    ensures Runs(cs + [c]) == if c.OnContent? then Runs(cs)
                              else if EndsReasoning(cs) then WithLast(Runs(cs), c.text)
                              else Runs(cs) + [c.text]
    decreases |cs|
  {
    hide LeadingReasoning, Joined, Runs, WithLast;
    var all := cs + [c];
    if cs == [] {
      assert all == [c];
      OneCallback(c);
      NoRuns();
    } else if cs[0].OnContent? {
      RunsFirst(cs);
      RunsFirst(all);
      RunsSnoc(cs[1..], c);
      assert all[1..] == cs[1..] + [c];
    } else {
      var n := LeadingReasoning(cs);
      LeadingSnoc(cs, c);
      LeadingPositive(cs);
      if n == |cs| {
        RunsWhole(cs, c);
        WithLastOne(Joined(cs), c.text);
      } else {
        RunsFirst(cs);
        RunsFirst(all);
        RunsSnoc(cs[n..], c);
        assert all[n..] == cs[n..] + [c] && all[..n] == cs[..n];
        RunsLater(cs, n);
        var first, rest := [Joined(cs[..n])], Runs(cs[n..]);
        Regroup(first, rest, [c.text]);
        if rest != [] { WithLastAfter(first, rest, c.text); }
      }
    }
  }

  lemma WithLastAfter(a: seq<string>, b: seq<string>, text: string)
    requires b != []
    ensures WithLast(a + b, text) == a + WithLast(b, text)
  {}

  lemma WithLastOne(a: string, text: string)
    ensures WithLast([a], text) == [a + text]
  {}

  lemma RunsFirst(cs: seq<Callback>)
    requires cs != []
    ensures Runs(cs) == if cs[0].OnContent? then Runs(cs[1..])
                        else [Joined(cs[..LeadingReasoning(cs)])] + Runs(cs[LeadingReasoning(cs)..])
  {
    hide LeadingReasoning, Joined;
  }

  lemma OneCallback(c: Callback)
    ensures Runs([c]) == if c.OnContent? then [] else [c.text]
  {
    assert [c][1..] == [] && [c][..1] == [c];
    assert Runs([]) == [];
    if c.OnReasoning? {
      assert LeadingReasoning([c]) == 1 + LeadingReasoning([]);
      assert Joined([c]) == c.text + Joined([]) == c.text;
      RunsFirst([c]);
    }
  }

  lemma LeadingPositive(cs: seq<Callback>)
    requires cs != [] && cs[0].OnReasoning?
    ensures 0 < LeadingReasoning(cs)
  {}

  /** Nothing but reasoning so far. */
  lemma {:induction false} RunsWhole(cs: seq<Callback>, c: Callback)
    requires cs != [] && LeadingReasoning(cs) == |cs|
    ensures Runs(cs) == [Joined(cs)] && EndsReasoning(cs)
    ensures Runs(cs + [c]) == if c.OnContent? then [Joined(cs)] else [Joined(cs) + c.text]
  {
    LeadingLast(cs);
    LeadingSnoc(cs, c);
    assert cs[..|cs|] == cs && cs[|cs|..] == [];
    var all, n := cs + [c], LeadingReasoning(cs + [c]);
    assert all[..|cs|] == cs && all[|cs|..] == [c];
    if c.OnContent? {
      OneCallback(c);
    } else {
      JoinedSnoc(cs, c);
      assert all[..n] == all && all[n..] == [];
    }
  }

  lemma {:induction false} LeadingLast(cs: seq<Callback>)
    requires cs != [] && LeadingReasoning(cs) == |cs|
    ensures cs[|cs| - 1].OnReasoning? && cs[0].OnReasoning?
  {
    if |cs| > 1 { LeadingLast(cs[1..]); }
  }

  /** After the first run and something else, the last run is a later one. */
  lemma {:induction false} RunsLater(cs: seq<Callback>, n: nat)
    requires cs != [] && cs[0].OnReasoning? && n == LeadingReasoning(cs) && 0 < n < |cs|
    ensures EndsReasoning(cs) <==> EndsReasoning(cs[n..])
  {}

  lemma {:induction false} FirstContentSnoc(cs: seq<Callback>, c: Callback)
    ensures FirstContent(cs + [c]) == if FirstContent(cs) < |cs| || c.OnContent? then FirstContent(cs) else |cs| + 1
  {
    if cs == [] {
      assert cs + [c] == [c] && [c][1..] == [];
    } else {
      FirstContentSnoc(cs[1..], c);
      assert (cs + [c])[1..] == cs[1..] + [c];
    }
  }

  /** What one more callback does to the blocks. */
  function Grown(bs: seq<Block>, cs: seq<Callback>, c: Callback): seq<Block> {
    match c
    case OnReasoning(text) =>
      if EndsReasoning(cs) && bs != [] then Lengthened(bs, |bs| - 1, text) else bs + [Block(Thinking, None, text)]
    case OnContent(text) =>
      var f := TextAt(cs);
      if FirstContent(cs) < |cs| && f < |bs| then Lengthened(bs, f, text) else bs + [Block(Text, None, text)]
  }

  function Lengthened(bs: seq<Block>, i: nat, text: string): seq<Block>
    requires i < |bs|
  {
    bs[i := bs[i].(text := bs[i].text + text)]
  }

  /** Where the text block is. */
  function TextAt(cs: seq<Callback>): nat { |Runs(cs[..FirstContent(cs)])| }

  lemma ThoughtsJoin(a: seq<string>, b: seq<string>)
    ensures Thoughts(a + b) == Thoughts(a) + Thoughts(b)
  {}

  lemma ThoughtsLast(texts: seq<string>, text: string)
    requires texts != []
    ensures Thoughts(WithLast(texts, text)) == Lengthened(Thoughts(texts), |texts| - 1, text)
  {}

  lemma {:induction false} LiveSnoc(cs: seq<Callback>, c: Callback)
    ensures LiveBlocks(cs + [c]) == Grown(LiveBlocks(cs), cs, c)
  {
    hide Runs, Contents, FirstContent;
    var all, f := cs + [c], FirstContent(cs);
    FirstContentSnoc(cs, c);
    ContentsSnoc(cs, c);
    if f < |cs| {
      assert all[..f] == cs[..f] && all[f..] == cs[f..] + [c];
      RunsSnoc(cs[f..], c);
      LiveAfterContent(cs, c);
    } else {
      assert cs[..f] == cs && all[..f] == cs;
      RunsSnoc(cs, c);
      LiveBeforeContent(cs, c);
    }
  }

  lemma {:induction false} LiveBeforeContent(cs: seq<Callback>, c: Callback)
    requires FirstContent(cs) == |cs|
    requires Runs(cs + [c]) == if c.OnContent? then Runs(cs) else if EndsReasoning(cs) then WithLast(Runs(cs), c.text)
                               else Runs(cs) + [c.text]
    requires EndsReasoning(cs) ==> Runs(cs) != []
    requires FirstContent(cs + [c]) == if c.OnContent? then |cs| else |cs| + 1
    requires Contents(cs + [c]) == Contents(cs) + ContentOf(c)
    ensures LiveBlocks(cs + [c]) == Grown(LiveBlocks(cs), cs, c)
  {
    hide Runs, FirstContent, Contents;
    var all, n := cs + [c], |cs|;
    if c.OnContent? {
      NoContents(cs);
      assert all[..n] == cs && all[n..] == [c];
      OneCallback(c);
      assert "" + c.text == c.text;
      assert Thoughts(Runs([c])) == [];
    } else if EndsReasoning(cs) {
      ThoughtsLast(Runs(cs), c.text);
    } else {
      ThoughtsJoin(Runs(cs), [c.text]);
      assert Thoughts([c.text]) == [Block(Thinking, None, c.text)];
    }
  }

  lemma {:induction false} NoContents(cs: seq<Callback>)
    requires FirstContent(cs) == |cs|
    ensures Contents(cs) == ""
  {
    if cs != [] { NoContents(cs[1..]); }
  }

  lemma LengthenMiddle(front: seq<Block>, b: Block, back: seq<Block>, text: string)
    ensures Lengthened(front + [b] + back, |front|, text) == front + [b.(text := b.text + text)] + back
  {}

  lemma LengthenLast(front: seq<Block>, back: seq<Block>, text: string)
    requires back != []
    ensures Lengthened(front + back, |front + back| - 1, text) == front + Lengthened(back, |back| - 1, text)
  {}

  lemma {:induction false} LiveAfterContent(cs: seq<Callback>, c: Callback)
    requires var f := FirstContent(cs);
             && f < |cs| && FirstContent(cs + [c]) == f && (cs + [c])[..f] == cs[..f]
               && (cs + [c])[f..] == cs[f..] + [c]
             && (EndsReasoning(cs[f..]) ==> Runs(cs[f..]) != [])
             && Runs(cs[f..] + [c]) == (if c.OnContent? then Runs(cs[f..])
                                        else if EndsReasoning(cs[f..]) then WithLast(Runs(cs[f..]), c.text)
                                        else Runs(cs[f..]) + [c.text])
    requires Contents(cs + [c]) == Contents(cs) + ContentOf(c)
    ensures LiveBlocks(cs + [c]) == Grown(LiveBlocks(cs), cs, c)
  {
    hide Runs, FirstContent, Contents, Lengthened, Thoughts, WithLast;
    var f := FirstContent(cs);
    var front, back, text := Thoughts(Runs(cs[..f])), Runs(cs[f..]), Block(Text, None, Contents(cs));
    assert EndsReasoning(cs) <==> EndsReasoning(cs[f..]);
    if c.OnContent? {
      LengthenMiddle(front, text, Thoughts(back), c.text);
    } else {
      assert Contents(cs) + "" == Contents(cs);
      if EndsReasoning(cs) {
        ThoughtsLast(back, c.text);
        LengthenLast(front + [text], Thoughts(back), c.text);
      } else {
        ThoughtsJoin(back, [c.text]);
        Regroup(front + [text], Thoughts(back), Thoughts([c.text]));
        assert Thoughts([c.text]) == [Block(Thinking, None, c.text)];
      }
    }
  }

  // ---------------------------------------------------------------------------------------------
  // The provider against it
  // ---------------------------------------------------------------------------------------------

  /** The provider's indices agree with the blocks the callbacks should give. */
  predicate Agrees(b: Blocks, cs: seq<Callback>) {
    && b.next == |LiveBlocks(cs)|
    && b.thinking == (if EndsReasoning(cs) && |LiveBlocks(cs)| > 0 then Some(|LiveBlocks(cs)| - 1) else None)
    && b.text == if FirstContent(cs) < |cs| then Some(TextAt(cs)) else None
  }

  lemma {:induction false} LiveShape(cs: seq<Callback>)
    ensures FirstContent(cs) < |cs| ==> TextAt(cs) < |LiveBlocks(cs)| && LiveBlocks(cs)[TextAt(cs)].kind.Text?
    ensures EndsReasoning(cs) ==> LiveBlocks(cs) != []
  {
    hide Runs, Contents, FirstContent;
    var f := FirstContent(cs);
    if EndsReasoning(cs) {
      if f < |cs| {
        assert EndsReasoning(cs[f..]);
      } else {
        RunsSnoc(cs, OnContent(""));
      }
    }
  }

  lemma {:induction false} TextStays(cs: seq<Callback>, c: Callback)
    ensures FirstContent(cs) < |cs| ==> TextAt(cs + [c]) == TextAt(cs)
    ensures FirstContent(cs) == |cs| && c.OnContent? ==> TextAt(cs + [c]) == |LiveBlocks(cs)|
    ensures FirstContent(cs + [c]) < |cs + [c]| <==> FirstContent(cs) < |cs| || c.OnContent?
  {
    hide Runs, Contents, FirstContent;
    FirstContentSnoc(cs, c);
    var f := FirstContent(cs);
    assert (cs + [c])[..f] == cs[..f];
    if f == |cs| { assert cs[..f] == cs; }
  }

  lemma {:induction false} ReactGrows(b: Blocks, cs: seq<Callback>, c: Callback)
    requires Agrees(b, cs)
    ensures AbsorbAll(LiveBlocks(cs), React(b, c).events) == LiveBlocks(cs + [c])
    ensures Agrees(React(b, c).after, cs + [c])
  {
    hide LiveBlocks, FirstContent, TextAt, AbsorbAll;
    LiveShape(cs);
    LiveSnoc(cs, c);
    TextStays(cs, c);
    var bs := LiveBlocks(cs);
    match c {
      case OnReasoning(text) =>
        if b.thinking.Some? {
          AbsorbOne(bs, Delta(b.thinking.value, Thinking, text));
        } else {
          Opens(bs, Thinking, text);
        }
      case OnContent(text) =>
        CloseAbsorbs(bs, b);
        var rest := AddText(CloseThinking(b).after, text).events;
        AbsorbJoin(bs, CloseThinking(b).events, rest);
        if b.text.Some? {
          AbsorbOne(bs, Delta(b.text.value, Text, text));
        } else {
          Opens(bs, Text, text);
        }
    }
  }

  /** Closing adds nothing. */
  lemma CloseAbsorbs(bs: seq<Block>, b: Blocks)
    ensures AbsorbAll(bs, CloseThinking(b).events) == bs && AbsorbAll(bs, CloseText(b).events) == bs
    ensures AbsorbAll(bs, CloseAll(b).events) == bs
  {
    match b.thinking {
      case Some(i) => AbsorbTwo(bs, Signature(i), Stop(i));
      case None =>
    }
    match b.text {
      case Some(i) => AbsorbOne(bs, Stop(i));
      case None =>
    }
    AbsorbJoin(bs, CloseThinking(b).events, CloseText(CloseThinking(b).after).events);
  }

  /** A start and its first delta append one block. */
  lemma Opens(bs: seq<Block>, kind: Kind, text: string)
    ensures AbsorbAll(bs, [Start(|bs|, kind, None), Delta(|bs|, kind, text)]) == bs + [Block(kind, None, text)]
  {
    hide AbsorbAll;
    var start, delta, begun := Start(|bs|, kind, None), Delta(|bs|, kind, text), bs + [Block(kind, None, "")];
    AbsorbTwo(bs, start, delta);
    assert "" + text == text;
    assert Absorb(bs, start) == begun && begun[|bs|] == Block(kind, None, "");
    assert Absorb(begun, delta) == begun[|bs| := Block(kind, None, text)] == bs + [Block(kind, None, text)];
  }

  lemma {:induction false} LiveAssembled(cs: seq<Callback>)
    ensures AbsorbAll([], ReactAll(Fresh, cs).events) == LiveBlocks(cs) && Agrees(ReactAll(Fresh, cs).after, cs)
    decreases |cs|
  {
    hide LiveBlocks, FirstContent, TextAt, React, AbsorbAll;
    if cs == [] {
      NothingLive();
    } else {
      var n := |cs| - 1;
      LiveAssembled(cs[..n]);
      var before := ReactAll(Fresh, cs[..n]);
      ReactGrows(before.after, cs[..n], cs[n]);
      assert cs[..n] + [cs[n]] == cs;
      AbsorbJoin([], before.events, React(before.after, cs[n]).events);
    }
  }

  lemma NothingLive()
    ensures LiveBlocks([]) == [] && AbsorbAll([], []) == [] && FirstContent([]) == 0
  {}

  /** A block written in one go. */
  lemma {:induction false} OneBlockAbsorbs(bs: seq<Block>, b: Blocks, kind: Kind, head: Option<ToolHead>,
      deltas: seq<string>)
    requires |deltas| <= 1 && b.next == |bs|
    ensures AbsorbAll(bs, OneBlock(b, kind, head, deltas).events)
            == bs + [Block(kind, head, if deltas == [] then "" else deltas[0])]
  {
    hide AbsorbAll;
    var start, stop := Start(b.next, kind, head), Stop(b.next);
    if deltas == [] {
      AbsorbTwo(bs, start, stop);
      assert OneBlock(b, kind, head, deltas).events == [start, stop];
    } else {
      var delta := Delta(b.next, kind, deltas[0]);
      AbsorbTwo(bs, start, delta);
      AbsorbJoin(bs, [start, delta], [stop]);
      var bs' := bs + [Block(kind, head, deltas[0])];
      assert "" + deltas[0] == deltas[0];
      assert Absorb(Absorb(bs, start), delta) == bs';
      AbsorbOne(bs', stop);
      assert OneBlock(b, kind, head, deltas).events == [start, delta] + [stop];
    }
  }

  lemma {:induction false} ToolsAbsorb(bs: seq<Block>, b: Blocks, calls: seq<ToolCall>)
    requires b.next == |bs|
    ensures AbsorbAll(bs, Tools(b, calls).events) == bs + ToolBlocks(calls)
            && Tools(b, calls).after.next == |bs| + |calls|
    decreases |calls|
  {
    hide AbsorbAll;
    if calls == [] {
      NothingAbsorbed(bs);
      assert bs + ToolBlocks(calls) == bs;
    } else {
      var n := |calls| - 1;
      var before := Tools(b, calls[..n]);
      ToolsAbsorb(bs, b, calls[..n]);
      var so := bs + ToolBlocks(calls[..n]);
      var last := OneBlock(before.after, Tool, Some(calls[n].head), [calls[n].arguments]);
      OneBlockAbsorbs(so, before.after, Tool, Some(calls[n].head), [calls[n].arguments]);
      AbsorbJoin(bs, before.events, last.events);
      assert so + [Block(Tool, Some(calls[n].head), calls[n].arguments)] == bs + ToolBlocks(calls);
    }
  }

  lemma NothingAbsorbed(bs: seq<Block>)
    ensures AbsorbAll(bs, []) == bs
  {}

  lemma {:induction false} TailAbsorbs(bs: seq<Block>, b: Blocks, o: Outcome, toolCapable: bool)
    requires b.next == |bs| && o.streamedBytes <= |o.text|
    ensures var rest := if toolCapable && o.streamedBytes < |o.text| then [Block(Text, None, o.text[o.streamedBytes..])]
                        else [];
            var all := bs + rest + if toolCapable then ToolBlocks(o.tools) else [];
            AbsorbAll(bs, Tail(b, o, toolCapable).events) == if all == [] then [Block(Text, None, "")] else all
  {
    hide AbsorbAll, Tools, OneBlock, ToolBlocks;
    var left := o.text[o.streamedBytes..];
    var closed := CloseAll(b);
    var rest := if toolCapable then Remainder(closed.after, left) else Step([], closed.after);
    var tools := if toolCapable then Tools(rest.after, o.tools) else Step([], rest.after);
    var one := AtLeastOne(tools.after);
    var end := [MessageDelta(o.stopReason), MessageStop];
    CloseAbsorbs(bs, b);
    RestAbsorbs(bs, closed.after, left);
    NothingAbsorbed(bs);
    var with1 := bs + if toolCapable && left != "" then [Block(Text, None, left)] else [];
    assert bs + [] == bs;
    NothingAbsorbed(with1);
    if toolCapable { ToolsAbsorb(with1, rest.after, o.tools); }
    var with2 := with1 + if toolCapable then ToolBlocks(o.tools) else [];
    assert with1 + [] == with1;
    OneAbsorbs(with2, tools.after);
    var with3 := AbsorbAll(with2, one.events);
    AbsorbTwo(with3, end[0], end[1]);
    AbsorbJoin(bs, closed.events, rest.events);
    AbsorbJoin(bs, closed.events + rest.events, tools.events);
    AbsorbJoin(bs, closed.events + rest.events + tools.events, one.events);
    AbsorbJoin(bs, closed.events + rest.events + tools.events + one.events, end);
  }

  lemma {:induction false} RestAbsorbs(bs: seq<Block>, b: Blocks, left: string)
    requires b.next == |bs|
    ensures AbsorbAll(bs, Remainder(b, left).events) == bs + (if left != "" then [Block(Text, None, left)] else [])
    ensures Remainder(b, left).after.next == |bs| + if left != "" then 1 else 0
  {
    if left == "" { NothingAbsorbed(bs); } else { OneBlockAbsorbs(bs, b, Text, None, [left]); }
  }

  lemma OneAbsorbs(bs: seq<Block>, b: Blocks)
    requires b.next == |bs|
    ensures AbsorbAll(bs, AtLeastOne(b).events) == if bs == [] then [Block(Text, None, "")] else bs
  {
    if bs == [] { OneBlockAbsorbs(bs, b, Text, None, []); } else { NothingAbsorbed(bs); }
  }

  /** The client assembles exactly the message: one thinking block per run of reasoning with the run's whole text, all
      content in one text block, then the unstreamed rest and the tool calls, and never no block at all in a
      completed message. */
  lemma {:induction false} MessageAssembled(cs: seq<Callback>, outcome: Option<Outcome>, toolCapable: bool)
    ensures Assembled(Transcript(cs, outcome, toolCapable)) == MessageOf(cs, outcome, toolCapable)
  {
    hide LiveBlocks, AbsorbAll, Assembled, ReactAll, Tail, FirstContent, TextAt, ToolBlocks;
    var live := ReactAll(Fresh, cs);
    var end := if Completes(outcome) then Tail(live.after, outcome.value, toolCapable).events else [ErrorEvent];
    assert Transcript(cs, outcome, toolCapable) == [MessageStart] + live.events + end;
    Begun();
    AssembledJoin([MessageStart], live.events);
    AssembledJoin([MessageStart] + live.events, end);
    LiveAssembled(cs);
    if Completes(outcome) {
      TailAbsorbs(LiveBlocks(cs), live.after, outcome.value, toolCapable);
    } else {
      AbsorbOne(LiveBlocks(cs), ErrorEvent);
    }
  }

  lemma Begun()
    ensures Assembled([MessageStart]) == []
  {
    assert [MessageStart][..0] == [];
  }

  /** How many blocks a message has. */
  lemma {:induction false} BlockCount(cs: seq<Callback>, outcome: Option<Outcome>, toolCapable: bool)
    ensures |LiveBlocks(cs)| == |Runs(cs)| + if HasContent(cs) then 1 else 0
    ensures Completes(outcome) ==>
              var o := outcome.value;
              var n := |Runs(cs)| + (if HasContent(cs) then 1 else 0)
                       + (if toolCapable && o.streamedBytes < |o.text| then 1 else 0)
                       + (if toolCapable then |o.tools| else 0);
              |Assembled(Transcript(cs, outcome, toolCapable))| == if n == 0 then 1 else n
  {
    hide Runs, Contents, Assembled, Transcript;
    MessageAssembled(cs, outcome, toolCapable);
    var f := FirstContent(cs);
    if f < |cs| {
      assert HasContent(cs);
      RunsSplit(cs, f);
    }
  }

  /** A content callback separates the runs before it from those after it. */
  lemma {:induction false} RunsSplit(cs: seq<Callback>, f: nat)
    requires f < |cs| && cs[f].OnContent?
    ensures Runs(cs) == Runs(cs[..f]) + Runs(cs[f..])
    decreases |cs|
  {
    hide LeadingReasoning, Joined, Runs;
    if f == 0 {
      assert cs[0..] == cs && [] + Runs(cs) == Runs(cs);
      assert Runs(cs[..0]) == [] by { NoRuns(); }
    } else if cs[0].OnContent? {
      RunsFirst(cs);
      RunsFirst(cs[..f]);
      RunsSplit(cs[1..], f - 1);
      assert cs[1..][..f - 1] == cs[..f][1..] && cs[1..][f - 1..] == cs[f..];
    } else {
      var n, front := LeadingReasoning(cs), cs[..f];
      LeadingPositive(cs);
      LeadingPrefix(cs, f);
      RunsSplit(cs[n..], f - n);
      assert front[..n] == cs[..n] && cs[n..][..f - n] == front[n..] && cs[n..][f - n..] == cs[f..];
      RunsFirst(cs);
      RunsFirst(front);
      Regroup([Joined(cs[..n])], Runs(front[n..]), Runs(cs[f..]));
    }
  }

  lemma NoRuns()
    ensures Runs([]) == []
  {}

  lemma {:induction false} LeadingPrefix(cs: seq<Callback>, f: nat)
    requires f < |cs| && cs[f].OnContent?
    ensures LeadingReasoning(cs) <= f && LeadingReasoning(cs[..f]) == LeadingReasoning(cs)
    decreases |cs|
  {
    if f > 0 && cs[0].OnReasoning? {
      LeadingPrefix(cs[1..], f - 1);
      assert cs[1..][..f - 1] == cs[..f][1..];
    }
  }

  /** How the stream frames the blocks: it begins with the message start; a completed message ends with its stop
      reason and the stop, any other with the error event. */
  lemma {:induction false} Framed(cs: seq<Callback>, outcome: Option<Outcome>, toolCapable: bool)
    ensures var es := Transcript(cs, outcome, toolCapable);
            && |es| >= 2 && es[0] == MessageStart
            && if Completes(outcome) then
                 |es| >= 3 && es[|es| - 2..] == [MessageDelta(outcome.value.stopReason), MessageStop]
               else es[|es| - 1] == ErrorEvent
  {
    hide ReactAll, CloseAll, Remainder, Tools, AtLeastOne;
  }
}
