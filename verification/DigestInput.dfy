/** What the content digest is computed over (src/artifact/reader.cpp): the text fed to SHA-256 determines, and is
    determined by, the selected tensors and their selected bytes. */
module DigestInput {
  import opened Results
  import opened Bytes
  import opened RowSelection
  import opened Directory
  import opened Identity
  import opened JsonText
  import opened DigestText

  // ---------------------------------------------------------------------------------------------
  // The order of the tensors
  // ---------------------------------------------------------------------------------------------

  /** The order std::map keeps its string keys in. */
  predicate Before(a: string, b: string) {
    b != "" && (a == "" || a[0] < b[0] || (a[0] == b[0] && Before(a[1..], b[1..])))
  }

  lemma {:induction false} BeforeTransitive(a: string, b: string, c: string)
    requires Before(a, b) && Before(b, c)
    ensures Before(a, c)
  {
    if a != "" && a[0] == b[0] == c[0] { BeforeTransitive(a[1..], b[1..], c[1..]); }
  }

  lemma {:induction false} NotBeforeItself(a: string)
    ensures !Before(a, a)
  {
    if a != "" { NotBeforeItself(a[1..]); }
  }

  predicate Ascending(names: seq<string>) { forall i, j | 0 <= i < j < |names| :: Before(names[i], names[j]) }

  /** The keys of a map in ascending order. */
  predicate Enumerates(names: seq<string>, keys: set<string>) {
    Ascending(names) && (forall n | n in names :: n in keys) && forall n | n in keys :: n in names
  }

  lemma FirstIsLeast(a: seq<string>, n: string)
    requires Ascending(a) && a != [] && n in a
    ensures n == a[0] || Before(a[0], n)
    ensures n in a[1..] <==> n != a[0]
  {
    NotBeforeItself(a[0]);
    var i :| 0 <= i < |a| && a[i] == n;
    if i > 0 { assert a[1..][i - 1] == n; }
  }

  /** A set of names has one ascending enumeration. */
  lemma {:induction false} EnumerationUnique(a: seq<string>, b: seq<string>)
    requires Ascending(a) && Ascending(b) && (forall n :: n in a <==> n in b)
    ensures a == b
    decreases |a|
  {
    hide Ascending, Before;
    assert (a != [] ==> a[0] in b) && (b != [] ==> b[0] in a);
    if a != [] {
      FirstIsLeast(a, b[0]);
      FirstIsLeast(b, a[0]);
      if a[0] != b[0] {
        BeforeTransitive(a[0], b[0], a[0]);
        NotBeforeItself(a[0]);
      }
      TailAscending(a);
      TailAscending(b);
      forall n ensures n in a[1..] <==> n in b[1..] {
        if n in a { FirstIsLeast(a, n); }
        if n in b { FirstIsLeast(b, n); }
      }
      EnumerationUnique(a[1..], b[1..]);
      assert a == [a[0]] + a[1..] && b == [b[0]] + b[1..];
    }
  }

  lemma TailAscending(a: seq<string>)
    requires Ascending(a) && a != []
    ensures Ascending(a[1..])
  {
    hide Before;
  }

  // ---------------------------------------------------------------------------------------------
  // The content behind the text
  // ---------------------------------------------------------------------------------------------

  /** An artifact, what is selected from it, the merged ranges, and their names in map order. */
  datatype Input = Input(reader: Reader, file: seq<byte>, selections: seq<Selection>,
                         ranges: map<string, seq<Range>>, names: seq<string>)

  ghost predicate InputOk(h: Input) {
    && ReaderOk(h.reader) && |h.file| == h.reader.fileBytes && AllOk(h.reader, h.selections)
    && IsIdentity(h.reader, h.selections, h.ranges) && Enumerates(h.names, h.ranges.Keys)
  }

  /** The entry hashed for a selected name. */
  ghost function EntryFor(h: Input, n: string): (e: Entry)
    requires InputOk(h) && n in h.ranges
    ensures Sized(e) && e.name == n
  {
    CanonInside(h.reader, h.selections, h.ranges, n);
    Entry(n, RecordOf(h.reader, h.file, n, h.ranges[n]))
  }

  /** What is hashed for a name is what the directory says about it, its canonical ranges, and the bytes of the file
      at those ranges. */
  lemma EntryIs(h: Input, n: string)
    requires InputOk(h) && n in h.ranges
    ensures n in h.reader.index && h.reader.index[n] < |h.reader.entries|
    ensures var o, e := h.reader.entries[h.reader.index[n]], EntryFor(h, n).record;
            && o.TensorObject? && o.name == n
            && e.shape == o.tensor.shape && e.format == o.tensor.format && e.layout == o.tensor.layout
            && e.ranges == h.ranges[n]
            && forall i | 0 <= i < |e.ranges| ::
                 var at := h.reader.payloadStart + o.offset + e.ranges[i].offset;
                 at + e.ranges[i].bytes <= |h.file| && e.data[i] == h.file[at..at + e.ranges[i].bytes]
  {
    hide AllOk, Enumerates, IsIdentity, ReaderOk, Find;
    CanonInside(h.reader, h.selections, h.ranges, n);
    FoundAt(h.reader, n);
    var o, e, data := h.reader.entries[h.reader.index[n]], EntryFor(h, n).record, DataOf(h.reader, h.file, n);
    var start := h.reader.payloadStart + o.offset;
    forall i | 0 <= i < |e.ranges|
      ensures start + e.ranges[i].End() <= |h.file|
      ensures e.data[i] == h.file[start + e.ranges[i].offset..start + e.ranges[i].End()]
    {
      assert e.data[i] == data[e.ranges[i].offset..e.ranges[i].End()];
      SubSlice(h.file, start, start + o.tensor.bytes, e.ranges[i].offset, e.ranges[i].End());
    }
  }

  lemma FoundAt(r: Reader, n: string)
    requires ReaderOk(r) && TensorOf(r, n).Some?
    ensures n in r.index && r.index[n] < |r.entries|
    ensures var o := r.entries[r.index[n]];
            && o.TensorObject? && o.name == n && TensorOf(r, n) == Some(o.tensor)
            && r.payloadStart + o.offset + o.tensor.bytes <= r.fileBytes
  {
    hide EntryOk;
    var o := r.entries[r.index[n]];
    assert o.End() <= r.fileBytes - r.payloadStart;
  }

  ghost function Entries(h: Input): (es: seq<Entry>)
    requires InputOk(h)
    ensures |es| == |h.names| && forall i | 0 <= i < |es| :: h.names[i] in h.ranges && es[i] == EntryFor(h, h.names[i])
  {
    seq(|h.names|, i requires 0 <= i < |h.names| => EntryFor(h, h.names[i]))
  }

  /** Both sides hold the same data at the bytes of n that h selects. */
  ghost predicate Agree(h: Input, g: Input, n: string)
    requires InputOk(h) && InputOk(g)
  {
    && TensorOf(h.reader, n).Some? && TensorOf(g.reader, n).Some?
    && forall x: nat | x < TensorOf(h.reader, n).value.bytes && x < TensorOf(g.reader, n).value.bytes
                       && Selected(h.reader, h.selections, n, x) ::
         DataOf(h.reader, h.file, n)[x] == DataOf(g.reader, g.file, n)[x]
  }

  /** Tensor n is described alike on both sides, the same of its bytes are selected, and they agree. */
  ghost predicate SameTensor(h: Input, g: Input, n: string)
    requires InputOk(h) && InputOk(g)
  {
    && TensorOf(h.reader, n).Some? && TensorOf(g.reader, n).Some?
    && var t, u := TensorOf(h.reader, n).value, TensorOf(g.reader, n).value;
       && t.shape == u.shape && t.format == u.format && t.layout == u.layout
       && (forall x: nat :: Selected(h.reader, h.selections, n, x) <==> Selected(g.reader, g.selections, n, x))
       && Agree(h, g, n)
  }

  ghost predicate SameContent(h: Input, g: Input)
    requires InputOk(h) && InputOk(g)
  {
    && (forall n :: Named(h.selections, n) <==> Named(g.selections, n))
    && forall n | Named(h.selections, n) :: SameTensor(h, g, n)
  }

  /** The entries of a name agree exactly when its content does. */
  lemma EntryIsContent(h: Input, g: Input, n: string)
    requires InputOk(h) && InputOk(g) && n in h.ranges && n in g.ranges
    ensures EntryFor(h, n) == EntryFor(g, n) <==> SameTensor(h, g, n)
  {
    hide ReaderOk, AllOk, Selected, Named, TensorOf, DataOf, Canonical, Enumerates;
    CanonInside(h.reader, h.selections, h.ranges, n);
    CanonInside(g.reader, g.selections, g.ranges, n);
    if EntryFor(h, n) == EntryFor(g, n) { EntryGivesContent(h, g, n); }
    if SameTensor(h, g, n) { ContentGivesEntry(h, g, n); }
  }

  lemma EntryGivesContent(h: Input, g: Input, n: string)
    requires InputOk(h) && InputOk(g) && n in h.ranges && n in g.ranges && EntryFor(h, n) == EntryFor(g, n)
    ensures SameTensor(h, g, n)
  {
    hide ReaderOk, AllOk, Selected, Named, TensorOf, DataOf, Canonical, Enumerates;
    CanonInside(h.reader, h.selections, h.ranges, n);
    CanonInside(g.reader, g.selections, g.ranges, n);
    var a, b := EntryFor(h, n).record, EntryFor(g, n).record;
    var rs := h.ranges[n];
    assert rs == a.ranges == b.ranges == g.ranges[n];
    forall x: nat ensures Selected(h.reader, h.selections, n, x) <==> Selected(g.reader, g.selections, n, x) {
      assert Covered(h.ranges[n], x) <==> Selected(h.reader, h.selections, n, x);
      assert Covered(g.ranges[n], x) <==> Selected(g.reader, g.selections, n, x);
    }
    forall x: nat | x < TensorOf(h.reader, n).value.bytes && x < TensorOf(g.reader, n).value.bytes
                    && Selected(h.reader, h.selections, n, x)
      ensures DataOf(h.reader, h.file, n)[x] == DataOf(g.reader, g.file, n)[x]
    {
      assert Covered(rs, x);
      var i :| 0 <= i < |rs| && rs[i].Has(x);
      assert a.data[i] == b.data[i];
      assert a.data[i][x - rs[i].offset] == DataOf(h.reader, h.file, n)[x];
      assert b.data[i][x - rs[i].offset] == DataOf(g.reader, g.file, n)[x];
    }
  }

  lemma ContentGivesEntry(h: Input, g: Input, n: string)
    requires InputOk(h) && InputOk(g) && n in h.ranges && n in g.ranges && SameTensor(h, g, n)
    ensures EntryFor(h, n) == EntryFor(g, n)
  {
    hide ReaderOk, AllOk, Selected, Named, TensorOf, DataOf, Canonical, Enumerates;
    CanonInside(h.reader, h.selections, h.ranges, n);
    CanonInside(g.reader, g.selections, g.ranges, n);
    assert SameBytes(h.ranges[n], g.ranges[n]) by {
      hide Covered;
      forall x: nat ensures Covered(h.ranges[n], x) <==> Covered(g.ranges[n], x) {
        assert Selected(h.reader, h.selections, n, x) <==> Selected(g.reader, g.selections, n, x);
      }
    }
    CanonicalUnique(h.ranges[n], g.ranges[n]);
    var rs := h.ranges[n];
    var a, b := EntryFor(h, n).record, EntryFor(g, n).record;
    forall i | 0 <= i < |rs| ensures a.data[i] == b.data[i] {
      var s := rs[i];
      forall x | s.offset <= x < s.End() ensures DataOf(h.reader, h.file, n)[x] == DataOf(g.reader, g.file, n)[x] {
        assert s.Has(x);
        assert Covered(rs, x);
      }
    }
    assert a.data == b.data;
  }

  /** The text under the digest is the same exactly when the same bytes of the same tensors are selected and the
      artifacts agree on their descriptions and on those bytes, wherever the tensors lie and whatever else is
      in the files. */
  lemma InputIsContent(h: Input, g: Input)
    requires InputOk(h) && InputOk(g)
    ensures StreamText(Entries(h)) == StreamText(Entries(g)) <==> SameContent(h, g)
  {
    hide ReaderOk, AllOk, Named, StreamText, SameTensor, Ascending, Sized, EntryFor;
    NamesAreKeys(h);
    NamesAreKeys(g);
    if StreamText(Entries(h)) == StreamText(Entries(g)) {
      EntriesSized(h);
      EntriesSized(g);
      StreamUnique(Entries(h), Entries(g));
      SameNames(h, g);
      forall n | Named(h.selections, n) ensures SameTensor(h, g, n) {
        var i :| 0 <= i < |h.names| && h.names[i] == n;
        assert Entries(h)[i] == Entries(g)[i];
        EntryIsContent(h, g, n);
      }
    }
    if SameContent(h, g) {
      EnumerationUnique(h.names, g.names);
      forall i | 0 <= i < |h.names| ensures Entries(h)[i] == Entries(g)[i] { EntryIsContent(h, g, h.names[i]); }
      assert Entries(h) == Entries(g);
    }
  }

  lemma NamesAreKeys(h: Input)
    requires InputOk(h)
    ensures Ascending(h.names) && forall n :: n in h.names <==> n in h.ranges
    ensures forall n :: n in h.ranges <==> Named(h.selections, n)
  {
    hide ReaderOk, AllOk, Ascending, Named;
  }

  lemma EntriesSized(h: Input)
    requires InputOk(h)
    ensures forall i | 0 <= i < |Entries(h)| :: Sized(Entries(h)[i])
  {
    hide InputOk, Sized;
  }

  lemma SameNames(h: Input, g: Input)
    requires InputOk(h) && InputOk(g) && Entries(h) == Entries(g)
    ensures h.names == g.names
  {
    hide InputOk, Sized;
    forall i | 0 <= i < |h.names| ensures h.names[i] == g.names[i] {
      assert Entries(h)[i].name == h.names[i] && Entries(g)[i].name == g.names[i];
    }
  }

  lemma SelectedElsewhere(r: Reader, q: Reader, selections: seq<Selection>, n: string, x: nat)
    requires ReaderOk(r) && ReaderOk(q) && AllOk(r, selections) && AllOk(q, selections)
    requires forall i | 0 <= i < |selections| :: TensorOf(r, selections[i].name) == TensorOf(q, selections[i].name)
    ensures Selected(r, selections, n, x) <==> Selected(q, selections, n, x)
  {
    hide ReaderOk, TensorOf, PlanesOf, Encoded, TailOf;
    if i :| 0 <= i < |selections| && selections[i].name == n && Selects(r, selections[i], x) {
      assert Selects(q, selections[i], x);
    }
    if i :| 0 <= i < |selections| && selections[i].name == n && Selects(q, selections[i], x) {
      assert Selects(r, selections[i], x);
    }
  }

  /** With the same selections over tensors described alike, only the selected bytes matter. */
  lemma TextDependsOnSelectedBytes(h: Input, g: Input)
    requires InputOk(h) && InputOk(g) && h.selections == g.selections
    requires forall i | 0 <= i < |h.selections| ::
               TensorOf(h.reader, h.selections[i].name) == TensorOf(g.reader, h.selections[i].name)
    ensures StreamText(Entries(h)) == StreamText(Entries(g)) <==>
            forall n | Named(h.selections, n) :: Agree(h, g, n)
  {
    hide ReaderOk, AllOk, StreamText, TensorOf, Selected, DataOf, Enumerates, IsIdentity;
    InputIsContent(h, g);
    forall n | Named(h.selections, n) ensures SameTensor(h, g, n) <==> Agree(h, g, n) {
      var i :| 0 <= i < |h.selections| && h.selections[i].name == n;
      SelectedTensor(h, i);
      forall x: nat ensures Selected(h.reader, h.selections, n, x) <==> Selected(g.reader, g.selections, n, x) {
        SelectedElsewhere(h.reader, g.reader, h.selections, n, x);
      }
    }
  }

  lemma SelectedTensor(h: Input, i: nat)
    requires InputOk(h) && i < |h.selections|
    ensures TensorOf(h.reader, h.selections[i].name).Some?
  {
    hide ReaderOk, Enumerates, IsIdentity;
    assert SelectionOk(h.reader, h.selections[i]);
  }

  // ---------------------------------------------------------------------------------------------
  // The hashing loop
  // ---------------------------------------------------------------------------------------------

  /** The bytes of the ranges, one after another. */
  method RangeText(data: seq<byte>, ranges: seq<Range>, ghost pieces: seq<seq<byte>>) returns (text: string)
    requires |pieces| == |ranges| && forall i | 0 <= i < |ranges| ::
               ranges[i].End() <= |data| && pieces[i] == data[ranges[i].offset..ranges[i].End()]
    ensures text == DataText(pieces)
  {
    hide AsText;
    text := "";
    assert pieces[..0] == [];
    for i := 0 to |ranges|
      invariant text == DataText(pieces[..i])
    {
      DataSnoc(pieces[..i], pieces[i]);
      assert pieces[..i + 1] == pieces[..i] + [pieces[i]];
      text := text + AsText(data[ranges[i].offset..ranges[i].End()]);
    }
    assert pieces[..|ranges|] == pieces;
  }

  /** The descriptor and the payload of a selected tensor. */
  method DescribedBy(h: Input, n: string) returns (descriptor: Json, data: seq<byte>)
    requires InputOk(h) && n in h.ranges
    ensures descriptor == Descriptor(EntryFor(h, n))
    ensures |EntryFor(h, n).record.data| == |h.ranges[n]|
    ensures forall i | 0 <= i < |h.ranges[n]| ::
              h.ranges[n][i].End() <= |data|
              && EntryFor(h, n).record.data[i] == data[h.ranges[n][i].offset..h.ranges[n][i].End()]
  {
    hide ReaderOk, AllOk, Enumerates, IsIdentity;
    CanonInside(h.reader, h.selections, h.ranges, n);
    var t := TensorOf(h.reader, n).value;
    data := DataOf(h.reader, h.file, n);
    descriptor := Descriptor(Entry(n, Record(t.shape, t.format, t.layout, h.ranges[n], [])));
  }

  /** The hashing loop: the descriptor of each tensor, then the bytes of its ranges. Reading the text gives the
      selected tensors in map order, each with its description, ranges and bytes. */
  method HashedText(h: Input) returns (text: string)
    requires InputOk(h)
    ensures text == StreamText(Entries(h)) && ReadStream(text) == Some(Entries(h))
  {
    hide Descriptor, Dump, DataText, InputOk, EntryFor, Sized;
    text := "";
    assert Entries(h)[..0] == [];
    for k := 0 to |h.names|
      invariant text == StreamText(Entries(h)[..k])
    {
      var n := h.names[k];
      ghost var e := EntryFor(h, n);
      assert Entries(h)[..k + 1] == Entries(h)[..k] + [e];
      StreamSnoc(Entries(h)[..k], e);
      var descriptor, data := DescribedBy(h, n);
      var bytes := RangeText(data, h.ranges[n], e.record.data);
      text := text + Dump(descriptor) + bytes;
    }
    assert Entries(h)[..|h.names|] == Entries(h);
    EntriesSized(h);
    StreamReads(Entries(h));
  }
}
