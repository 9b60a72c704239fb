/** Scoped bump planning (src/core/layout.cpp): checked alignment, the builder and its scopes, and binding
    a planned region to a backing allocation. */
module Layout {
  import opened Arith
  import opened Results

  // ---------------------------------------------------------------------------------------------
  // Powers of two and checked alignment
  // ---------------------------------------------------------------------------------------------

  predicate PowerOfTwo(n: nat) { n == 1 || (n != 0 && n % 2 == 0 && PowerOfTwo(n / 2)) }

  const TWO_64: nat := U64_MAX + 1

  /** Of two powers of two the smaller divides the larger. */
  lemma {:induction false} PowerDivides(a: nat, b: nat)
    requires PowerOfTwo(a) && PowerOfTwo(b) && a <= b
    ensures b % a == 0
    decreases b
  {
    if a == 1 {
    } else {
      PowerDivides(a / 2, b / 2);
      var q, h := b / 2 / (a / 2), a / 2;
      assert b / 2 == q * h;
      assert b == q * a by { assert q * (2 * h) == 2 * (q * h); }
      DivModUnique(b, a, q, 0);
    }
  }

  lemma {:induction false} PowerProduct(a: nat, b: nat)
    requires PowerOfTwo(a) && PowerOfTwo(b)
    ensures PowerOfTwo(a * b)
    decreases a
  {
    hide PowerOfTwo;
    HalfPower(a);
    if a != 1 {
      PowerProduct(a / 2, b);
      Doubled(a / 2, b);
      DoublePower(a / 2 * b);
    }
  }

  lemma HalfPower(a: nat)
    requires PowerOfTwo(a)
    ensures a != 1 ==> 2 * (a / 2) == a && a / 2 < a && PowerOfTwo(a / 2)
  {}

  lemma Doubled(h: nat, b: nat)
    ensures 0 <= h * b && (2 * h) * b == 2 * (h * b)
  {}

  lemma DoublePower(n: nat)
    requires PowerOfTwo(n)
    ensures PowerOfTwo(2 * n)
  {
    assert 2 * n / 2 == n;
  }

  lemma TwoPow64()
    ensures PowerOfTwo(TWO_64)
  {
    PowerProduct(2, 2);
    PowerProduct(4, 4);
    PowerProduct(16, 16);
    PowerProduct(256, 256);
    PowerProduct(0x1_0000, 0x1_0000);
    PowerProduct(0x1_0000_0000, 0x1_0000_0000);
  }

  function CheckedAdd(a: nat, b: nat): Result<nat, Error> {
    if b > U64_MAX - a then Err(Overflow) else Ok(a + b)
  }

  /** align_up with its checks. */
  function CheckedAlign(value: nat, alignment: nat): Result<nat, Error> {
    if !PowerOfTwo(alignment) then Err(InvalidArgument)
    else if alignment - 1 > U64_MAX - value then Err(Overflow)
    else Ok(AlignUp(value, alignment))
  }

  /** The overflow test is exact: it fails only when the aligned value itself does not fit. */
  lemma AlignExact(value: nat, alignment: nat)
    requires PowerOfTwo(alignment) && alignment <= U64_MAX && value <= U64_MAX
    ensures CheckedAlign(value, alignment) == if AlignUp(value, alignment) <= U64_MAX
            then Ok(AlignUp(value, alignment)) else Err(Overflow)
  {
    TwoPow64();
    PowerDivides(alignment, TWO_64);
    if alignment - 1 > U64_MAX - value && AlignUp(value, alignment) <= U64_MAX {
      MultiplesApart(AlignUp(value, alignment), TWO_64, alignment);
    }
  }

  // ---------------------------------------------------------------------------------------------
  // Regions
  // ---------------------------------------------------------------------------------------------

  datatype Region = Region(offset: nat, bytes: nat, alignment: nat) {
    function End(): nat { offset + bytes }
  }

  /** A stretch of device memory; the address 0 is the null pointer. */
  datatype Span = Span(data: nat, bytes: nat)

  predicate Apart(a: Region, b: Region) { a.End() <= b.offset || b.End() <= a.offset }

  /** LayoutRegion::bind. The address sum wraps at 64 bits. */
  function BindRegion(r: Region, backing: Span): Result<Span, Error> {
    if backing.data == 0 then Err(InvalidArgument)
    else if !PowerOfTwo(r.alignment) then Err(LogicError)
    else if (backing.data + r.offset) % TWO_64 % r.alignment != 0 then Err(InvalidArgument)
    else if r.offset > backing.bytes || r.bytes > backing.bytes - r.offset then Err(OutOfRange)
    else Ok(Span(backing.data + r.offset, r.bytes))
  }

  /** The wrap does not change the alignment test: binding needs exactly an aligned address and room. */
  lemma BindExact(r: Region, backing: Span)
    requires PowerOfTwo(r.alignment) && r.alignment <= U64_MAX && backing.data != 0
    ensures BindRegion(r, backing).Ok? <==> (backing.data + r.offset) % r.alignment == 0 && r.End() <= backing.bytes
    ensures BindRegion(r, backing).Ok? ==> BindRegion(r, backing).value == Span(backing.data + r.offset, r.bytes)
  {
    TwoPow64();
    PowerDivides(r.alignment, TWO_64);
    ModTwice(backing.data + r.offset, r.alignment, TWO_64);
  }

  /** An aligned region binds exactly to a present, equally aligned backing with room for it. */
  lemma BindAligned(r: Region, backing: Span)
    requires PowerOfTwo(r.alignment) && r.alignment <= U64_MAX && r.offset % r.alignment == 0
    ensures BindRegion(r, backing).Ok? <==>
            backing.data != 0 && backing.data % r.alignment == 0 && r.End() <= backing.bytes
    ensures BindRegion(r, backing).Ok? ==> BindRegion(r, backing).value.data == backing.data + r.offset
  {
    if backing.data != 0 {
      BindExact(r, backing);
      if backing.data % r.alignment == 0 { SumAligned(backing.data, r.offset, r.alignment); }
      if (backing.data + r.offset) % r.alignment == 0 { SumAligned(backing.data + r.offset, r.offset, r.alignment); }
    }
  }

  lemma ModTwice(x: nat, a: nat, m: nat)
    requires 0 < a && 0 < m && m % a == 0
    ensures x % m % a == x % a
  {
    var q, k, y := x / m, m / a, x % m;
    assert x == q * m + y && m == k * a;
    assert q * m == (q * k) * a by { assert q * (k * a) == (q * k) * a; }
    assert y == y / a * a + y % a;
    assert x == (q * k + y / a) * a + y % a by { assert (q * k + y / a) * a == (q * k) * a + y / a * a; }
    DivModUnique(x, a, q * k + y / a, y % a);
  }

  // ---------------------------------------------------------------------------------------------
  // Traces of adds and scopes
  // ---------------------------------------------------------------------------------------------

  /** An open scope: the cursor it restores and how many regions were alive when it opened. */
  datatype Mark = Mark(cursor: nat, alive: nat)

  /** The builder, the regions alive, the open scopes, and every region ever added. */
  datatype Plan = Plan(cursor: nat, peak: nat, live: seq<Region>, marks: seq<Mark>, all: seq<Region>)

  datatype Event = Add(bytes: u64, alignment: u64) | Open | Close

  function Start(): Plan { Plan(0, 0, [], [], []) }

  /** LayoutBuilder::add. */
  function AddTo(p: Plan, bytes: u64, alignment: u64): Result<(Plan, Region), Error> {
    if bytes == 0 then Err(InvalidArgument)
    else
      match CheckedAlign(p.cursor, alignment)
      case Err(e) => Err(e)
      case Ok(offset) =>
        match CheckedAdd(offset, bytes)
        case Err(e) => Err(e)
        case Ok(end) =>
          var r := Region(offset, bytes, alignment);
          Ok((Plan(end, Max(p.peak, end), p.live + [r], p.marks, p.all + [r]), r))
  }

  /** The aligned end of a region of `bytes` placed at `cursor` fits 64 bits. */
  predicate AddFits(cursor: nat, bytes: nat, alignment: nat) {
    bytes != 0 && PowerOfTwo(alignment) && AlignUp(cursor, alignment) + bytes <= U64_MAX
  }

  /** An add succeeds exactly when the region's end fits, and then moves the cursor there. */
  lemma AddExact(p: Plan, bytes: u64, alignment: u64)
    requires p.cursor <= U64_MAX
    ensures AddTo(p, bytes, alignment).Ok? <==> AddFits(p.cursor, bytes, alignment)
    ensures AddTo(p, bytes, alignment).Err? ==>
              AddTo(p, bytes, alignment).error == if bytes == 0 || !PowerOfTwo(alignment) then InvalidArgument
                else Overflow
    ensures AddTo(p, bytes, alignment).Ok? ==>
              var (next, r) := AddTo(p, bytes, alignment).value;
              r == Region(AlignUp(p.cursor, alignment), bytes, alignment)
              && next == Plan(r.End(), Max(p.peak, r.End()), p.live + [r], p.marks, p.all + [r])
  {
    hide AlignUp;
    if PowerOfTwo(alignment) { AlignExact(p.cursor, alignment); }
  }

  /** One event; a failed add changes nothing, and closing needs an open scope. */
  function Step(p: Plan, e: Event): Plan
    requires MarksOk(p)
  {
    match e
    case Add(bytes, alignment) => (match AddTo(p, bytes, alignment) case Ok(done) => done.0 case Err(_) => p)
    case Open => p.(marks := p.marks + [Mark(p.cursor, |p.live|)])
    case Close =>
      if p.marks == [] then p
      else
        var n := |p.marks| - 1;
        p.(cursor := p.marks[n].cursor, live := p.live[..p.marks[n].alive], marks := p.marks[..n])
  }

  predicate MarksOk(p: Plan) { forall i | 0 <= i < |p.marks| :: p.marks[i].alive <= |p.live| }

  /** Live regions are apart and below the cursor; each scope's regions are below the cursor it restores;
      every region ever added is well formed and ends within the peak. */
  ghost predicate Inv(p: Plan) {
    && MarksOk(p) && p.cursor <= p.peak <= U64_MAX
    && (forall i | 0 <= i < |p.live| :: p.live[i].End() <= p.cursor && p.live[i] in p.all)
    && (forall i, j | 0 <= i < j < |p.live| :: p.live[i].End() <= p.live[j].offset)
    && (forall i | 0 <= i < |p.marks| :: p.marks[i].cursor <= p.cursor)
    && (forall i, j | 0 <= i < |p.marks| && 0 <= j < p.marks[i].alive :: p.live[j].End() <= p.marks[i].cursor)
    && (forall i, j | 0 <= i < j < |p.marks| ::
      p.marks[i].cursor <= p.marks[j].cursor && p.marks[i].alive <= p.marks[j].alive)
    && forall i | 0 <= i < |p.all| ::
         0 < p.all[i].bytes && PowerOfTwo(p.all[i].alignment) && p.all[i].alignment <= U64_MAX
         && p.all[i].offset % p.all[i].alignment == 0 && p.all[i].End() <= p.peak
  }

  lemma CursorBound(p: Plan)
    requires Inv(p)
    ensures p.cursor <= p.peak <= U64_MAX
  {}

  lemma AddKeeps(p: Plan, bytes: u64, alignment: u64)
    requires Inv(p) && AddTo(p, bytes, alignment).Ok?
    ensures Inv(AddTo(p, bytes, alignment).value.0)
  {
    hide PowerOfTwo, AlignUp;
    PowerPositive(alignment);
  }

  lemma PowerPositive(a: nat)
    requires PowerOfTwo(a)
    ensures 0 < a
  {}

  lemma StepKeeps(p: Plan, e: Event)
    requires Inv(p)
    ensures Inv(Step(p, e))
  {
    hide PowerOfTwo, AlignUp, AddTo;
    match e
    case Add(bytes, alignment) => if AddTo(p, bytes, alignment).Ok? { AddKeeps(p, bytes, alignment); }
    case Open =>
    case Close =>
  }

  /** The state after a trace. */
  ghost function Run(events: seq<Event>): (p: Plan)
    ensures Inv(p)
  {
    if events == [] then Start()
    else
      var n := |events| - 1;
      StepKeeps(Run(events[..n]), events[n]);
      Step(Run(events[..n]), events[n])
  }

  /** Over every trace, regions alive together never overlap. */
  lemma EveryTrace(events: seq<Event>, i: nat, j: nat)
    requires i < j < |Run(events).live|
    ensures Apart(Run(events).live[i], Run(events).live[j])
    ensures Run(events).live[i] in Run(events).all && Run(events).live[j] in Run(events).all
  {
    hide PowerOfTwo, Step;
  }

  /** finish. */
  function Finish(p: Plan, alignment: nat): Result<nat, Error> { CheckedAlign(p.peak, alignment) }

  /** Binding any region ever added to a backing of the finished size, aligned at least as strictly as the
      region, always succeeds, and the bound memory lies inside the backing. */
  lemma BindingSucceeds(events: seq<Event>, r: Region, finish: nat, backing: Span, strictness: nat)
    requires r in Run(events).all && Finish(Run(events), finish).Ok?
    requires backing.data != 0 && backing.bytes >= Finish(Run(events), finish).value
    requires PowerOfTwo(strictness) && r.alignment <= strictness && backing.data % strictness == 0
    ensures BindRegion(r, backing) == Ok(Span(backing.data + r.offset, r.bytes))
    ensures backing.data <= backing.data + r.offset && backing.data + r.offset + r.bytes <= backing.data + backing.bytes
  {
    hide PowerOfTwo, Step, AlignUp, BindRegion;
    var p := Run(events);
    var i :| 0 <= i < |p.all| && p.all[i] == r;
    PowerPositive(r.alignment);
    PowerPositive(strictness);
    PowerDivides(r.alignment, strictness);
    Divides(backing.data, r.alignment, strictness);
    SumAligned(backing.data, r.offset, r.alignment);
    BindExact(r, backing);
  }

  lemma Divides(x: nat, a: nat, m: nat)
    requires 0 < a && 0 < m && m % a == 0 && x % m == 0
    ensures x % a == 0
  {
    ModTwice(x, a, m);
  }

  // ---------------------------------------------------------------------------------------------
  // The builder
  // ---------------------------------------------------------------------------------------------

  class LayoutBuilder {
    var cursor: nat
    var peak: nat
    ghost var live: seq<Region>
    ghost var marks: seq<Mark>
    ghost var all: seq<Region>

    ghost function State(): Plan
      reads this
    {
      Plan(cursor, peak, live, marks, all)
    }

    ghost predicate Valid()
      reads this
    {
      Inv(State())
    }

    constructor ()
      ensures Valid() && State() == Start()
    {
      cursor, peak, live, marks, all := 0, 0, [], [], [];
    }

    method Add(bytes: u64, alignment: u64) returns (r: Result<Region, Error>)
      requires Valid()
      modifies this
      ensures Valid()
      ensures match AddTo(old(State()), bytes, alignment)
              case Ok(done) => State() == done.0 && r == Ok(done.1)
              case Err(e) => State() == old(State()) && r == Err(e)
      ensures alignment != 0 && r.Ok? ==>
                && r.value == Region(AlignUp(old(cursor), alignment), bytes, alignment)
                && cursor == r.value.End() && peak == Max(old(peak), cursor)
                && live == old(live) + [r.value] && all == old(all) + [r.value] && marks == old(marks)
    {
      hide PowerOfTwo, AlignUp, Inv;
      ghost var before := State();
      CursorBound(before);
      AddExact(before, bytes, alignment);
      if bytes == 0 { return Err(InvalidArgument); }
      var offset := CheckedAlign(cursor, alignment);
      if offset.Err? { return Err(offset.error); }
      var end := CheckedAdd(offset.value, bytes);
      if end.Err? { return Err(end.error); }
      AddKeeps(before, bytes, alignment);
      cursor := end.value;
      if cursor > peak { peak := cursor; }
      r := Ok(Region(offset.value, bytes, alignment));
      live, all := live + [r.value], all + [r.value];
    }

    method FinishLayout(alignment: nat) returns (r: Result<nat, Error>)
      requires Valid()
      ensures r == Finish(State(), alignment)
      ensures alignment <= U64_MAX ==> (r.Ok? <==> PowerOfTwo(alignment) && AlignUp(peak, alignment) <= U64_MAX)
      ensures r.Ok? ==> peak <= r.value < peak + alignment && r.value % alignment == 0
    {
      hide AlignUp;
      if PowerOfTwo(alignment) {
        PowerPositive(alignment);
        if alignment <= U64_MAX { AlignExact(peak, alignment); }
      }
      return CheckedAlign(peak, alignment);
    }
  }

  /** A scope guard; `builder` is null after it was moved from. */
  class Scope {
    var builder: LayoutBuilder?
    var savedCursor: nat

    /** The guard of the innermost open scope. */
    ghost predicate Innermost()
      reads this, builder
    {
      builder != null && builder.Valid() && builder.marks != []
        && builder.marks[|builder.marks| - 1].cursor == savedCursor
    }

    constructor (b: LayoutBuilder)
      requires b.Valid()
      modifies b
      ensures builder == b && Innermost() && b.State() == Step(old(b.State()), Open)
      ensures savedCursor == b.cursor == old(b.cursor) && b.peak == old(b.peak) && b.live == old(b.live)
      ensures b.marks == old(b.marks) + [Mark(savedCursor, |b.live|)] && b.all == old(b.all)
    {
      builder, savedCursor := b, b.cursor;
      new;
      hide PowerOfTwo;
      StepKeeps(b.State(), Open);
      b.marks := b.marks + [Mark(b.cursor, |b.live|)];
    }

    /** The destructor. */
    method Destroy()
      requires builder != null ==> Innermost()
      modifies builder
      ensures builder == old(builder)
      ensures builder != null ==> builder.Valid() && builder.State() == Step(old(builder.State()), Close)
      ensures builder != null ==>
                && builder.cursor == savedCursor && builder.peak == old(builder.peak) && builder.all == old(builder.all)
                && |builder.marks| == |old(builder.marks)| - 1 && builder.marks <= old(builder.marks)
                && builder.live <= old(builder.live)
                && |builder.live| == old(builder.marks)[|builder.marks|].alive
    {
      hide PowerOfTwo;
      if builder != null {
        ghost var before, n := builder.State(), |builder.marks| - 1;
        StepKeeps(before, Close);
        builder.cursor := savedCursor;
        builder.live, builder.marks := builder.live[..builder.marks[n].alive], builder.marks[..n];
      }
    }

    /** The move constructor: the guard passes on, and the old one does nothing any more. */
    constructor MoveFrom(other: Scope)
      requires other.builder != null ==> other.Innermost()
      modifies other
      ensures builder == old(other.builder) && savedCursor == old(other.savedCursor) && other.builder == null
      ensures builder != null ==> Innermost() && builder.State() == old(other.builder.State())
    {
      builder, savedCursor := other.builder, other.savedCursor;
      new;
      other.builder := null;
    }
  }
}
