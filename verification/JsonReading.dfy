/** A reader for compact JSON after RFC 8259, written without regard to how `dump` writes: whatever `dump` writes
    reads back as the value, no text of the value is shorter, and so a text determines the value. */
module JsonReading {
  import opened Results
  import opened JsonText

  // ---------------------------------------------------------------------------------------------
  // The reader
  // ---------------------------------------------------------------------------------------------

  /** A character by the letter of its escape, section 7 of RFC 8259. */
  function EscapeOf(letter: char): Option<char> {
    match letter
    case '\"' => Some('\"')
    case '\\' => Some('\\')
    case '/' => Some('/')
    case 'b' => Some(0x08 as char)
    case 'f' => Some(0x0C as char)
    case 'n' => Some(0x0A as char)
    case 'r' => Some(0x0D as char)
    case 't' => Some(0x09 as char)
    case _ => None
  }

  function HexValue(c: char): (v: Option<nat>)
    ensures v.Some? ==> v.value < 16
  {
    if '0' <= c <= '9' then Some(c as int - '0' as int)
    else if 'a' <= c <= 'f' then Some(10 + c as int - 'a' as int)
    else if 'A' <= c <= 'F' then Some(10 + c as int - 'A' as int)
    else None
  }

  /** Positional value of hexadecimal text. */
  function HexNumber(s: string): Option<nat> {
    if s == "" then Some(0)
    else
      match (HexNumber(s[..|s| - 1]), HexValue(s[|s| - 1]))
      case (Some(high), Some(low)) => Some(16 * high + low)
      case _ => None
  }

  /** One character of a string and what follows it. Surrogate pairs are not read. */
  function ReadCharacter(s: string): (r: Option<(char, string)>)
    ensures r.Some? ==> |r.value.1| < |s|
  {
    if s == "" || s[0] == '\"' || s[0] as int < 0x20 then None
    else if s[0] != '\\' then Some((s[0], s[1..]))
    else if |s| >= 6 && s[1] == 'u' then
      match HexNumber(s[2..6])
      case Some(v) => if v < 0xD800 then Some((v as char, s[6..])) else None
      case None => None
    else if |s| >= 2 && EscapeOf(s[1]).Some? then Some((EscapeOf(s[1]).value, s[2..]))
    else None
  }

  /** The rest of a string after its opening quotation mark. */
  function ReadString(s: string): (r: Option<(string, string)>)
    ensures r.Some? ==> |r.value.1| < |s|
    decreases |s|
  {
    if s != "" && s[0] == '\"' then Some(("", s[1..]))
    else
      match ReadCharacter(s)
      case None => None
      case Some((c, more)) =>
        match ReadString(more)
        case None => None
        case Some((t, after)) => Some(([c] + t, after))
  }

  predicate AllDigits(d: string) { forall i | 0 <= i < |d| :: IsDigit(d[i]) }

  /** Positional value of decimal text. */
  function ValueOf(d: string): nat
    requires AllDigits(d)
  {
    if d == "" then 0 else 10 * ValueOf(d[..|d| - 1]) + (d[|d| - 1] as int - '0' as int)
  }

  /** How many digits a text begins with. */
  function LeadingDigits(s: string): (n: nat)
    ensures n <= |s| && AllDigits(s[..n]) && (n < |s| ==> !IsDigit(s[n]))
  {
    if s == "" || !IsDigit(s[0]) then 0
    else
      var n := 1 + LeadingDigits(s[1..]);
      assert forall i | 0 < i < n :: s[i] == s[1..][i - 1];
      n
  }

  /** An unsigned number takes all digits; only zero begins with a zero, section 6 of RFC 8259. */
  function ReadNumber(s: string): (r: Option<(nat, string)>)
    ensures r.Some? ==> |r.value.1| < |s|
  {
    var n := LeadingDigits(s);
    if n == 0 || (n > 1 && s[0] == '0') then None else Some((ValueOf(s[..n]), s[n..]))
  }

  function ReadValue(s: string): (r: Option<(Json, string)>)
    ensures r.Some? ==> |r.value.1| < |s|
    decreases |s|, 0
  {
    if s == "" then None
    else if s[0] == '\"' then
      match ReadString(s[1..])
      case None => None
      case Some((t, after)) => Some((Text(t), after))
    else if s[0] == '[' then
      if |s| > 1 && s[1] == ']' then Some((Arr([]), s[2..]))
      else
        match ReadItems(s[1..])
        case None => None
        case Some((items, after)) => Some((Arr(items), after))
    else
      match ReadNumber(s)
      case None => None
      case Some((n, after)) => Some((Num(n), after))
  }

  /** The elements of an array that has some, and its closing bracket. */
  function ReadItems(s: string): (r: Option<(seq<Json>, string)>)
    ensures r.Some? ==> |r.value.1| < |s| && r.value.0 != []
    decreases |s|, 1
  {
    match ReadValue(s)
    case None => None
    case Some((j, more)) =>
      if more != "" && more[0] == ']' then Some(([j], more[1..]))
      else if more != "" && more[0] == ',' then
        match ReadItems(more[1..])
        case None => None
        case Some((items, after)) => Some(([j] + items, after))
      else None
  }

  // ---------------------------------------------------------------------------------------------
  // What is written reads back
  // ---------------------------------------------------------------------------------------------

  lemma LetterIs(c: char)
    ensures Letter(c) != '\0' ==> EscapeOf(Letter(c)) == Some(c) && Letter(c) != 'u'
    ensures c == '\\' || c == '\"' ==> Letter(c) != '\0'
  {}

  lemma HexReads(k: nat)
    requires k < 16
    ensures HexValue(Hex(k)) == Some(k) && !('A' <= Hex(k) <= 'F')
  {}

  lemma HexZero()
    ensures HexNumber("00") == Some(0)
  {
    assert "0"[..0] == "" && "00"[..1] == "0";
    assert HexNumber("0") == Some(0);
  }

  lemma HexSnoc(s: string, c: char)
    requires HexNumber(s).Some? && HexValue(c).Some?
    ensures HexNumber(s + [c]) == Some(16 * HexNumber(s).value + HexValue(c).value)
  {
    hide HexValue;
    assert (s + [c])[..|s|] == s;
  }

  lemma HexTwo(k: nat, x: string)
    requires k < 0x20
    ensures var s := "\\u00" + [Hex(k / 16), Hex(k % 16)] + x;
            |s| >= 6 && HexNumber(s[2..6]) == Some(k) && s[6..] == x
  {
    hide Hex, HexValue, HexNumber;
    var high, low := Hex(k / 16), Hex(k % 16);
    HexReads(k / 16);
    HexReads(k % 16);
    HexZero();
    HexSnoc("00", high);
    HexSnoc("00" + [high], low);
    assert ("\\u00" + [high, low] + x)[2..6] == "00" + [high] + [low];
  }

  lemma CharacterReads(c: char, x: string)
    ensures ReadCharacter(Escaped(c) + x) == Some((c, x))
  {
    hide Letter, Hex, EscapeOf, HexNumber;
    LetterIs(c);
    var s := Escaped(c) + x;
    if Letter(c) != '\0' {
      assert s[2..] == x;
    } else if c as int <= 0x1F {
      HexTwo(c as int, x);
    } else {
      assert s[1..] == x;
    }
  }

  lemma {:induction false} StringReads(s: string, x: string)
    ensures ReadString(EscapedAll(s) + "\"" + x) == Some((s, x))
  {
    hide Escaped, ReadCharacter;
    var all := EscapedAll(s) + "\"" + x;
    if s == "" {
      assert all[1..] == x;
    } else {
      var more := EscapedAll(s[1..]) + "\"" + x;
      assert all == Escaped(s[0]) + more;
      CharacterReads(s[0], more);
      StringReads(s[1..], x);
      assert all[0] == Escaped(s[0])[0];
      assert [s[0]] + s[1..] == s;
    }
  }

  /** The decimal text of a number: its positional value is the number and it has no leading zero. */
  lemma {:induction false} DigitsRead(n: nat)
    ensures AllDigits(Digits(n)) && ValueOf(Digits(n)) == n
    ensures Digits(n)[0] == '0' <==> n == 0
    ensures n == 0 ==> |Digits(n)| == 1
  {
    if n >= 10 {
      DigitsRead(n / 10);
      var d := Digits(n);
      assert d[..|d| - 1] == Digits(n / 10) && d[0] == Digits(n / 10)[0];
    } else {
      assert [Digit(n)][..0] == "";
    }
  }

  lemma DigitsStep(n: nat, k: nat)
    requires 0 < n && k < 10
    ensures Digits(10 * n + k) == Digits(n) + [Digit(k)]
  {
    assert (10 * n + k) / 10 == n && (10 * n + k) % 10 == k;
  }

  lemma OneDigit(k: nat)
    requires k < 10
    ensures Digits(k) == [Digit(k)]
  {}

  /** Decimal text with no leading zero is the text of its value. */
  lemma {:induction false} DigitsOfValue(d: string)
    requires d != "" && AllDigits(d) && (|d| > 1 ==> d[0] != '0')
    ensures Digits(ValueOf(d)) == d && (d[0] != '0' ==> ValueOf(d) > 0)
  {
    hide Digits;
    var n := |d| - 1;
    var front, last := d[..n], d[n] as int - '0' as int;
    assert d == front + [d[n]] && Digit(last) == d[n];
    OneDigit(last);
    if n > 0 {
      DigitsOfValue(front);
      DigitsStep(ValueOf(front), last);
    } else {
      assert ValueOf(front) == 0;
    }
  }

  /** The text does not go on with a digit. */
  predicate NoDigit(x: string) { x == "" || !IsDigit(x[0]) }

  lemma {:induction false} LeadingIs(d: string, x: string)
    requires AllDigits(d) && NoDigit(x)
    ensures LeadingDigits(d + x) == |d|
  {
    if d == "" {
      assert d + x == x;
    } else {
      assert (d + x)[1..] == d[1..] + x;
      LeadingIs(d[1..], x);
    }
  }

  lemma NumberReads(n: nat, x: string)
    requires NoDigit(x)
    ensures ReadNumber(Digits(n) + x) == Some((n, x))
  {
    hide Digits, ValueOf, LeadingDigits;
    var d := Digits(n);
    DigitsRead(n);
    LeadingIs(d, x);
    assert (d + x)[..|d|] == d && (d + x)[|d|..] == x;
  }

  /** What dump writes is read back, whatever follows; only a number needs to be told where it ends. */
  lemma {:induction false} DumpReads(j: Json, x: string)
    requires j.Num? ==> NoDigit(x)
    ensures ReadValue(Dump(j) + x) == Some((j, x))
    decreases j, 0
  {
    hide EscapedAll, Digits, ReadString, ReadNumber, ReadItems;
    var s := Dump(j) + x;
    FirstCharacter(j);
    assert s[0] == Dump(j)[0];
    match j {
      case Text(t) =>
        assert s[1..] == EscapedAll(t) + "\"" + x;
        StringReads(t, x);
      case Num(n) => NumberReads(n, x);
      case Arr(items) =>
        if items == [] {
          assert s[1] == ']' && s[2..] == x;
        } else {
          assert s[1..] == Dump(items[0]) + (DumpRest(items[1..]) + x);
          FirstCharacter(items[0]);
          assert s[1] == Dump(items[0])[0];
          ItemsRead(items, x);
        }
    }
  }

  lemma {:induction false} ItemsRead(items: seq<Json>, x: string)
    requires items != []
    ensures ReadItems(Dump(items[0]) + (DumpRest(items[1..]) + x)) == Some((items, x))
    decreases items, 1
  {
    hide Dump, ReadValue;
    var more, rest := DumpRest(items[1..]) + x, items[1..];
    assert more[0] == DumpRest(rest)[0];
    DumpReads(items[0], more);
    assert [items[0]] + rest == items;
    if rest == [] {
      assert more[1..] == x && [items[0]] == items;
    } else {
      assert more[1..] == Dump(rest[0]) + (DumpRest(rest[1..]) + x);
      ItemsRead(rest, x);
    }
  }

  // ---------------------------------------------------------------------------------------------
  // Nothing shorter would do
  // ---------------------------------------------------------------------------------------------

  lemma CharacterShortest(s: string)
    requires ReadCharacter(s).Some?
    ensures var (c, after) := ReadCharacter(s).value;
            |Escaped(c)| + |after| <= |s| && (|Escaped(c)| > 2 ==> forall d | 'A' <= d <= 'F' :: d !in Escaped(c))
  {
    hide Hex, HexNumber;
    var c := ReadCharacter(s).value.0;
    if Letter(c) == '\0' && c as int <= 0x1F {
      HexReads(c as int / 16);
      HexReads(c as int % 16);
    }
  }

  lemma {:induction false} StringShortest(s: string)
    requires ReadString(s).Some?
    ensures |EscapedAll(ReadString(s).value.0)| + 1 + |ReadString(s).value.1| <= |s|
    decreases |s|
  {
    hide Escaped, ReadCharacter;
    if s == "" || s[0] != '\"' {
      var (c, more) := ReadCharacter(s).value;
      CharacterShortest(s);
      StringShortest(more);
      var t := ReadString(more).value.0;
      assert ([c] + t)[1..] == t;
    }
  }

  lemma NumberShortest(s: string)
    requires ReadNumber(s).Some?
    ensures Digits(ReadNumber(s).value.0) + ReadNumber(s).value.1 == s
  {
    hide Digits, ValueOf, LeadingDigits;
    DigitsOfValue(s[..LeadingDigits(s)]);
  }

  /** No text that reads as a value is shorter than the one dump writes. */
  lemma {:induction false} DumpShortest(s: string)
    requires ReadValue(s).Some?
    ensures |Dump(ReadValue(s).value.0)| + |ReadValue(s).value.1| <= |s|
    decreases |s|, 0
  {
    hide EscapedAll, Digits, ReadString, ReadNumber, ReadItems;
    if s[0] == '\"' {
      StringShortest(s[1..]);
    } else if s[0] == '[' {
      if !(|s| > 1 && s[1] == ']') { ItemsShortest(s[1..]); }
    } else {
      NumberShortest(s);
    }
  }

  lemma {:induction false} ItemsShortest(s: string)
    requires ReadItems(s).Some?
    ensures var (items, after) := ReadItems(s).value;
            |Dump(items[0])| + |DumpRest(items[1..])| + |after| <= |s|
    decreases |s|, 1
  {
    hide Dump, ReadValue;
    DumpShortest(s);
    var (j, more) := ReadValue(s).value;
    if more[0] == ',' {
      ItemsShortest(more[1..]);
      var items := ReadItems(more[1..]).value.0;
      assert ([j] + items)[1..] == items;
    } else {
      assert [j][1..] == [];
    }
  }

  // ---------------------------------------------------------------------------------------------
  // A text determines the value
  // ---------------------------------------------------------------------------------------------

  lemma EscapedUnique(c: char, d: char, x: string, y: string)
    requires Escaped(c) + x == Escaped(d) + y
    ensures c == d && x == y
  {
    hide Escaped, ReadCharacter;
    CharacterReads(c, x);
    CharacterReads(d, y);
  }

  lemma StringUnique(s: string, t: string, x: string, y: string)
    requires EscapedAll(s) + "\"" + x == EscapedAll(t) + "\"" + y
    ensures s == t && x == y
  {
    hide EscapedAll, ReadString;
    StringReads(s, x);
    StringReads(t, y);
  }

  lemma NumberUnique(m: nat, n: nat, x: string, y: string)
    requires Digits(m) + x == Digits(n) + y && NoDigit(x) && NoDigit(y)
    ensures m == n && x == y
  {
    hide Digits, ReadNumber;
    NumberReads(m, x);
    NumberReads(n, y);
  }

  /** A text that begins with a value begins with only one value, and what follows it is determined. */
  lemma DumpUnique(a: Json, b: Json, x: string, y: string)
    requires Dump(a) + x == Dump(b) + y && (a.Num? || b.Num? ==> NoDigit(x) && NoDigit(y))
    ensures a == b && x == y
  {
    hide Dump, ReadValue;
    DumpReads(a, x);
    DumpReads(b, y);
  }
}
