/** The text fed to SHA-256 (src/artifact/reader.cpp): how a tensor's record is written, and that reading the text
    gives the records back. */
module DigestText {
  import opened Results
  import opened Bytes
  import opened Storage
  import opened RowSelection
  import opened Identity
  import opened JsonText
  import opened JsonReading

  // ---------------------------------------------------------------------------------------------
  // Names
  // ---------------------------------------------------------------------------------------------

  function FormatName(f: NumericFormat): string {
    match f
    case BF16 => "BF16"
    case FP32 => "FP32"
    case I32 => "I32"
    case Q4G64_F16S => "Q4G64_F16S"
    case Q5G64_F16S => "Q5G64_F16S"
    case Q6G64_F16S => "Q6G64_F16S"
    case W8G32_F16S => "W8G32_F16S"
    case NVFP4 => "NVFP4"
    case FP8_E4M3FN_ROW_BF16S => "FP8_E4M3FN_ROW_BF16S"
  }

  function LayoutName(l: StorageLayout): string {
    match l
    case ContiguousLe => "contiguous-le-v1"
    case RowSplitK128 => "row-split-k128-v1"
    case BlockScaleK16M128x4 => "blockscale-k16-m128x4-v1"
    case RowScale => "row-scale-v1"
  }

  /** parse_format; None where it throws. */
  function ParseFormat(s: string): Option<NumericFormat> {
    if s == "BF16" then Some(BF16)
    else if s == "FP32" then Some(FP32)
    else if s == "I32" then Some(I32)
    else if s == "Q4G64_F16S" then Some(Q4G64_F16S)
    else if s == "Q5G64_F16S" then Some(Q5G64_F16S)
    else if s == "Q6G64_F16S" then Some(Q6G64_F16S)
    else if s == "W8G32_F16S" then Some(W8G32_F16S)
    else if s == "NVFP4" then Some(NVFP4)
    else if s == "FP8_E4M3FN_ROW_BF16S" then Some(FP8_E4M3FN_ROW_BF16S)
    else None
  }

  /** parse_layout; None where it throws. */
  function ParseLayout(s: string): Option<StorageLayout> {
    if s == "contiguous-le-v1" then Some(ContiguousLe)
    else if s == "row-split-k128-v1" then Some(RowSplitK128)
    else if s == "blockscale-k16-m128x4-v1" then Some(BlockScaleK16M128x4)
    else if s == "row-scale-v1" then Some(RowScale)
    else None
  }

  /** A format's name is the one text that parses as the format. */
  lemma FormatParses(f: NumericFormat, s: string)
    ensures ParseFormat(s) == Some(f) <==> s == FormatName(f)
  {
    assert |FormatName(f)| > 1;
    if ParseFormat(s) != None && ParseFormat(FormatName(f)) != None {
      assert s == FormatName(ParseFormat(s).value);
    }
    FormatNameParses(f);
  }

  lemma FormatNameParses(f: NumericFormat)
    ensures ParseFormat(FormatName(f)) == Some(f)
  {
    var s := FormatName(f);
    assert s[0] in "BFIQWN" && s[1] in "FP3456 8V";
  }

  /** A layout's name is the one text that parses as the layout. */
  lemma LayoutParses(l: StorageLayout, s: string)
    ensures ParseLayout(s) == Some(l) <==> s == LayoutName(l)
  {
    assert |LayoutName(l)| in {16, 17, 24, 12};
  }

  // ---------------------------------------------------------------------------------------------
  // Writing
  // ---------------------------------------------------------------------------------------------

  /** A tensor's name and the record hashed for it. */
  datatype Entry = Entry(name: string, record: Record)

  /** The pieces of data have the sizes of the ranges. */
  predicate Sized(e: Entry) {
    && |e.record.data| == |e.record.ranges|
    && forall i | 0 <= i < |e.record.data| :: |e.record.data[i]| == e.record.ranges[i].bytes
  }

  function Numbers(ns: seq<nat>): (js: seq<Json>)
    ensures |js| == |ns| && forall i | 0 <= i < |ns| :: js[i] == Num(ns[i])
  {
    seq(|ns|, i requires 0 <= i < |ns| => Num(ns[i]))
  }

  function Pairs(rs: seq<Range>): (js: seq<Json>)
    ensures |js| == |rs| && forall i | 0 <= i < |rs| :: js[i] == Arr([Num(rs[i].offset), Num(rs[i].bytes)])
  {
    seq(|rs|, i requires 0 <= i < |rs| => Arr([Num(rs[i].offset), Num(rs[i].bytes)]))
  }

  /** The descriptor written before the data. */
  function Descriptor(e: Entry): Json {
    Arr([Text(e.name), Arr(Numbers(e.record.shape)), Text(FormatName(e.record.format)),
         Text(LayoutName(e.record.layout)), Arr(Pairs(e.record.ranges))])
  }

  /** Data bytes as characters of the stream. */
  function AsText(data: seq<byte>): (t: string)
    ensures |t| == |data| && forall i | 0 <= i < |data| :: t[i] as int == data[i] as int
  {
    seq(|data|, i requires 0 <= i < |data| => (data[i] as int) as char)
  }

  function DataText(pieces: seq<seq<byte>>): string {
    if pieces == [] then "" else AsText(pieces[0]) + DataText(pieces[1..])
  }

  function EntryText(e: Entry): string { Dump(Descriptor(e)) + DataText(e.record.data) }

  function StreamText(es: seq<Entry>): string {
    if es == [] then "" else EntryText(es[0]) + StreamText(es[1..])
  }

  lemma {:induction false} StreamSnoc(es: seq<Entry>, e: Entry)
    ensures StreamText(es + [e]) == StreamText(es) + EntryText(e)
    decreases |es|
  {
    hide EntryText;
    if es == [] {
      assert es + [e] == [e] && [e][1..] == [];
    } else {
      StreamSnoc(es[1..], e);
      assert (es + [e])[1..] == es[1..] + [e];
    }
  }

  lemma {:induction false} DataSnoc(pieces: seq<seq<byte>>, piece: seq<byte>)
    ensures DataText(pieces + [piece]) == DataText(pieces) + AsText(piece)
    decreases |pieces|
  {
    hide AsText;
    if pieces == [] {
      assert pieces + [piece] == [piece] && [piece][1..] == [];
    } else {
      DataSnoc(pieces[1..], piece);
      assert (pieces + [piece])[1..] == pieces[1..] + [piece];
    }
  }

  // ---------------------------------------------------------------------------------------------
  // Reading
  // ---------------------------------------------------------------------------------------------

  predicate AllNumbers(js: seq<Json>) { forall i | 0 <= i < |js| :: js[i].Num? }

  function ReadShape(js: seq<Json>): seq<nat>
    requires AllNumbers(js)
  {
    seq(|js|, i requires 0 <= i < |js| => js[i].n)
  }

  predicate AllPairs(js: seq<Json>) {
    forall i | 0 <= i < |js| :: js[i].Arr? && |js[i].items| == 2 && js[i].items[0].Num? && js[i].items[1].Num?
  }

  function ReadRanges(js: seq<Json>): seq<Range>
    requires AllPairs(js)
  {
    seq(|js|, i requires 0 <= i < |js| => Range(js[i].items[0].n, js[i].items[1].n))
  }

  predicate AllBytes(s: string) { forall i | 0 <= i < |s| :: s[i] as int < 256 }

  function AsBytes(s: string): seq<byte>
    requires AllBytes(s)
  {
    seq(|s|, i requires 0 <= i < |s| => s[i] as int as byte)
  }

  /** As many bytes as the ranges say, cut into their pieces. */
  function ReadPieces(rs: seq<Range>, s: string): (r: Option<(seq<seq<byte>>, string)>)
    ensures r.Some? ==> |r.value.1| <= |s|
    decreases |rs|
  {
    if rs == [] then Some(([], s))
    else
      var n := rs[0].bytes;
      if n > |s| || !AllBytes(s[..n]) then None
      else
        match ReadPieces(rs[1..], s[n..])
        case None => None
        case Some((pieces, after)) => Some(([AsBytes(s[..n])] + pieces, after))
  }

  /** The record a descriptor describes, still without data. */
  function ReadDescriptor(j: Json): Option<Entry> {
    if j.Arr? && |j.items| == 5 && j.items[0].Text? && j.items[1].Arr? && AllNumbers(j.items[1].items)
       && j.items[2].Text? && ParseFormat(j.items[2].s).Some? && j.items[3].Text? && ParseLayout(j.items[3].s).Some?
       && j.items[4].Arr? && AllPairs(j.items[4].items)
    then
      Some(Entry(j.items[0].s, Record(ReadShape(j.items[1].items), ParseFormat(j.items[2].s).value,
                                      ParseLayout(j.items[3].s).value, ReadRanges(j.items[4].items), [])))
    else None
  }

  /** Name, shape, format, layout and ranges, then the data. */
  function ReadEntry(s: string): (r: Option<(Entry, string)>)
    ensures r.Some? ==> |r.value.1| < |s|
  {
    match ReadValue(s)
    case None => None
    case Some((j, more)) =>
      match ReadDescriptor(j)
      case None => None
      case Some(e) =>
        match ReadPieces(e.record.ranges, more)
        case None => None
        case Some((pieces, after)) => Some((e.(record := e.record.(data := pieces)), after))
  }

  function ReadStream(s: string): Option<seq<Entry>>
    decreases |s|
  {
    if s == "" then Some([])
    else
      match ReadEntry(s)
      case None => None
      case Some((e, after)) =>
        match ReadStream(after)
        case None => None
        case Some(es) => Some([e] + es)
  }

  lemma DescriptorReads(e: Entry)
    ensures ReadDescriptor(Descriptor(e)) == Some(e.(record := e.record.(data := [])))
  {
    hide FormatName, LayoutName, ParseFormat, ParseLayout;
    var items := Descriptor(e).items;
    FormatParses(e.record.format, items[2].s);
    LayoutParses(e.record.layout, items[3].s);
    assert ReadShape(Numbers(e.record.shape)) == e.record.shape;
    assert ReadRanges(Pairs(e.record.ranges)) == e.record.ranges;
  }

  lemma {:induction false} PiecesRead(rs: seq<Range>, pieces: seq<seq<byte>>, x: string)
    requires |pieces| == |rs| && forall i | 0 <= i < |rs| :: |pieces[i]| == rs[i].bytes
    ensures ReadPieces(rs, DataText(pieces) + x) == Some((pieces, x))
    decreases |rs|
  {
    if rs == [] {
      assert "" + x == x;
    } else {
      var n, s := rs[0].bytes, DataText(pieces) + x;
      assert s[..n] == AsText(pieces[0]) && s[n..] == DataText(pieces[1..]) + x;
      assert AsBytes(AsText(pieces[0])) == pieces[0];
      PiecesRead(rs[1..], pieces[1..], x);
      assert [pieces[0]] + pieces[1..] == pieces;
    }
  }

  /** The text of an entry, whatever follows, reads as the entry. */
  lemma EntryReads(e: Entry, x: string)
    requires Sized(e)
    ensures ReadEntry(EntryText(e) + x) == Some((e, x))
  {
    hide ReadValue, Dump, ReadPieces, DataText, ReadDescriptor;
    var more := DataText(e.record.data) + x;
    assert EntryText(e) + x == Dump(Descriptor(e)) + more;
    DumpReads(Descriptor(e), more);
    DescriptorReads(e);
    PiecesRead(e.record.ranges, e.record.data, x);
  }

  /** The text of a list of entries reads as the list. */
  lemma {:induction false} StreamReads(es: seq<Entry>)
    requires forall i | 0 <= i < |es| :: Sized(es[i])
    ensures ReadStream(StreamText(es)) == Some(es)
    decreases |es|
  {
    hide ReadEntry, EntryText, Sized;
    if es != [] {
      EntryReads(es[0], StreamText(es[1..]));
      StreamReads(es[1..]);
      assert [es[0]] + es[1..] == es;
    }
  }

  /** Two lists of entries give the same text only if they are the same list. */
  lemma StreamUnique(a: seq<Entry>, b: seq<Entry>)
    requires (forall i | 0 <= i < |a| :: Sized(a[i])) && (forall i | 0 <= i < |b| :: Sized(b[i]))
    requires StreamText(a) == StreamText(b)
    ensures a == b
  {
    hide ReadStream, StreamText, Sized;
    StreamReads(a);
    StreamReads(b);
  }
}
