/** The artifact directory (src/artifact/reader.cpp): the validation loop, accepted exactly when a declarative
    description holds, and what acceptance guarantees about payload ranges. */
module Directory {
  import opened Arith
  import opened Results
  import opened Storage
  import opened RowSelection

  /** A parsed directory entry. */
  datatype Object =
    | TensorObject(name: string, tensor: Tensor, offset: nat)
    | ResourceObject(name: string, size: nat, offset: nat)
  {
    function Bytes(): nat { if TensorObject? then tensor.bytes else size }

    function End(): nat { offset + Bytes() }

    function Alignment(): nat { if TensorObject? then TENSOR_ALIGNMENT else 1 }
  }

  /** parse_tensor and parse_resource: nonempty name, positive sizes and dimensions, and for a tensor exactly
      the bytes its layout requires. */
  predicate EntryOk(o: Object) {
    o.name != "" && 0 < o.Bytes() && (o.TensorObject? ==> Storage.Positive(o.tensor.shape) && Encoded(o.tensor))
  }

  method ParseObject(o: Object) returns (ok: bool)
    ensures ok <==> EntryOk(o)
  {
    if o.name == "" || o.Bytes() == 0 { return false; }
    if o.TensorObject? {
      for i := 0 to |o.tensor.shape|
        invariant forall j | 0 <= j < i :: o.tensor.shape[j] != 0
      {
        if o.tensor.shape[i] == 0 { return false; }
      }
      var expected := TensorEncodedSize(o.tensor.layout, o.tensor.format, o.tensor.shape);
      if expected.None? || expected.value != o.tensor.bytes { return false; }
    }
    return true;
  }

  /** What an accepted directory looks like. */
  predicate Accepted(objects: seq<Object>, payloadBytes: nat) {
    && objects != []
    && (forall i | 0 <= i < |objects| ::
      EntryOk(objects[i]) && objects[i].offset % objects[i].Alignment() == 0 && objects[i].End() <= payloadBytes)
    && (forall i, j | 0 <= i < j < |objects| ::
      objects[i].End() <= objects[j].offset && objects[i].name != objects[j].name)
  }

  /** Acceptance in plain terms: every object is named, not empty and inside the payload; a tensor starts on a
      256-byte boundary, has no zero dimension and takes exactly its encoded size; objects come in file order without
      overlap and under different names. */
  lemma AcceptedMeans(objects: seq<Object>, payloadBytes: nat)
    ensures Accepted(objects, payloadBytes) <==>
            && objects != []
            && (forall o | o in objects ::
                  && o.name != ""
                  && match o
                     case TensorObject(_, t, offset) =>
                       && offset % 256 == 0 && 0 < t.bytes && offset + t.bytes <= payloadBytes && 0 !in t.shape
                       && EncodedSize(t.layout, t.format, t.shape) == Some(t.bytes)
                     case ResourceObject(_, size, offset) => 0 < size && offset + size <= payloadBytes)
            && forall i, j | 0 <= i < j < |objects| ::
                 && objects[i].name != objects[j].name
                 && objects[i].offset
                    + (match objects[i] case TensorObject(_, t, _) => t.bytes case ResourceObject(_, size, _) => size)
                    <= objects[j].offset
  {
    hide EncodedSize;
    assert forall i | 0 <= i < |objects| :: objects[i] in objects;
  }

  /** Entries in file order with their name index. */
  datatype Reader = Reader(entries: seq<Object>, index: map<string, nat>, payloadStart: nat, fileBytes: nat)

  predicate ReaderOk(r: Reader) {
    && r.payloadStart <= r.fileBytes <= U64_MAX && Accepted(r.entries, r.fileBytes - r.payloadStart)
    && (forall n | n in r.index :: r.index[n] < |r.entries| && r.entries[r.index[n]].name == n)
    && forall i | 0 <= i < |r.entries| :: r.entries[i].name in r.index && r.index[r.entries[i].name] == i
  }

  /** The directory loop of Reader::Impl: `None` is a thrown ArtifactError. */
  method Open(raw: seq<Object>, payloadStart: nat, fileBytes: nat) returns (r: Option<Reader>)
    requires payloadStart <= fileBytes <= U64_MAX
    ensures r.Some? <==> Accepted(raw, fileBytes - payloadStart)
    ensures r.Some? ==> ReaderOk(r.value) && r.value.entries == raw && r.value.payloadStart == payloadStart
                        && r.value.fileBytes == fileBytes
  {
    hide EntryOk, Accepted;
    var payloadBytes := fileBytes - payloadStart;
    if raw == [] {
      EmptyRefused(payloadBytes);
      return None;
    }
    var entries: seq<Object>, index: map<string, nat>, cursor := [], map[], 0;
    for k := 0 to |raw|
      invariant entries == raw[..k] && (k > 0 ==> Accepted(raw[..k], payloadBytes))
      invariant cursor == if k == 0 then 0 else raw[k - 1].End()
      invariant forall n | n in index :: index[n] < k && raw[index[n]].name == n
      invariant forall i | 0 <= i < k :: raw[i].name in index && index[raw[i].name] == i
    {
      var o := raw[k];
      if Accepted(raw, payloadBytes) { AcceptedAt(raw, k, payloadBytes); }
      var parsed := ParseObject(o);
      if !parsed { return None; }
      if o.offset < cursor { return None; }
      if o.offset % o.Alignment() != 0 { return None; }
      var end := CheckedAdd(o.offset, o.Bytes());
      if end.None? { return None; }
      if end.value > payloadBytes { return None; }
      if o.name in index { return None; }
      AcceptNext(raw, k, payloadBytes);
      index := index[o.name := k];
      entries := entries + [o];
      cursor := end.value;
    }
    assert raw[..|raw|] == raw;
    return Some(Reader(entries, index, payloadStart, fileBytes));
  }

  lemma EmptyRefused(payloadBytes: nat)
    ensures !Accepted([], payloadBytes)
  {}

  lemma AcceptedAt(raw: seq<Object>, k: nat, payloadBytes: nat)
    requires Accepted(raw, payloadBytes) && k < |raw|
    ensures EntryOk(raw[k]) && raw[k].offset % raw[k].Alignment() == 0 && raw[k].End() <= payloadBytes
    ensures forall i | 0 <= i < k :: raw[i].End() <= raw[k].offset && raw[i].name != raw[k].name
  {
    hide EntryOk;
  }

  /** Comparing each object with its predecessor only is enough, because ends grow. */
  lemma AcceptNext(raw: seq<Object>, k: nat, payloadBytes: nat)
    requires k < |raw| && (k > 0 ==> Accepted(raw[..k], payloadBytes) && raw[k - 1].End() <= raw[k].offset)
    requires EntryOk(raw[k]) && raw[k].offset % raw[k].Alignment() == 0 && raw[k].End() <= payloadBytes
    requires forall i | 0 <= i < k :: raw[i].name != raw[k].name
    ensures Accepted(raw[..k + 1], payloadBytes)
  {
    hide EntryOk;
    var s := raw[..k + 1];
    forall i, j | 0 <= i < j < |s| ensures s[i].End() <= s[j].offset && s[i].name != s[j].name {
      assert s[i] == raw[..k + 1][i];
      if j < k {
        assert raw[..k][i].End() <= raw[..k][j].offset && raw[..k][i].name != raw[..k][j].name;
      } else if i < k - 1 {
        assert raw[..k][i].End() <= raw[..k][k - 1].offset;
      }
    }
    forall i | 0 <= i < |s| ensures EntryOk(s[i]) && s[i].offset % s[i].Alignment() == 0 && s[i].End() <= payloadBytes {
      if i < k { assert s[i] == raw[..k][i]; }
    }
  }

  /** find. */
  function Find(r: Reader, name: string): (o: Option<Object>)
    requires ReaderOk(r)
    ensures o.Some? ==> o.value in r.entries && o.value.name == name
    ensures o.None? ==> forall i | 0 <= i < |r.entries| :: r.entries[i].name != name
  {
    if name in r.index then Some(r.entries[r.index[name]]) else None
  }

  /** payload: the absolute range of an object, with its checks. */
  function Payload(r: Reader, o: Object): Option<Range> {
    match CheckedAdd(r.payloadStart, o.offset)
    case None => None
    case Some(absolute) =>
      match CheckedAdd(absolute, o.Bytes())
      case None => None
      case Some(end) => if end > r.fileBytes then None else Some(Range(absolute, o.Bytes()))
  }

  /** Every object of an accepted directory has a payload inside the file, and no two share a byte. */
  lemma PayloadsDisjoint(r: Reader, i: nat, j: nat)
    requires ReaderOk(r) && i < j < |r.entries|
    ensures Payload(r, r.entries[i]).Some? && Payload(r, r.entries[j]).Some?
    ensures Payload(r, r.entries[i]).value.End() <= Payload(r, r.entries[j]).value.offset
    ensures r.payloadStart <= Payload(r, r.entries[i]).value.offset
            && Payload(r, r.entries[j]).value.End() <= r.fileBytes
  {
    hide EntryOk;
    assert r.entries[i].End() <= r.entries[j].offset;
  }
}
