/** Compact JSON text (third_party/nlohmann/json.hpp): strings, unsigned numbers and arrays as `dump` writes them. */
module JsonText {
  datatype Json = Text(s: string) | Num(n: nat) | Arr(items: seq<Json>)

  function Hex(k: nat): char
    requires k < 16
  {
    "0123456789abcdef"[k]
  }

  /** The letter of a two-character escape; NUL if the character has none. */
  function Letter(c: char): char {
    match c as int
    case 0x08 => 'b'
    case 0x09 => 't'
    case 0x0A => 'n'
    case 0x0C => 'f'
    case 0x0D => 'r'
    case 0x22 => '\"'
    case 0x5C => '\\'
    case _ => '\0'
  }

  /** dump_escaped, one character: control characters, the quotation mark and the backslash are escaped. */
  function Escaped(c: char): (e: string)
    ensures e != "" && e[0] != '\"'
  {
    if Letter(c) != '\0' then ['\\', Letter(c)]
    else if c as int <= 0x1F then "\\u00" + [Hex(c as int / 16), Hex(c as int % 16)]
    else [c]
  }

  function EscapedAll(s: string): string {
    if s == "" then "" else Escaped(s[0]) + EscapedAll(s[1..])
  }

  predicate IsDigit(c: char) { '0' <= c <= '9' }

  function Digit(k: nat): (c: char)
    requires k < 10
    ensures IsDigit(c)
  {
    ('0' as int + k) as char
  }

  function Digits(n: nat): (d: string)
    ensures d != "" && forall i | 0 <= i < |d| :: IsDigit(d[i])
  {
    if n < 10 then [Digit(n)] else Digits(n / 10) + [Digit(n % 10)]
  }

  /** dump without indentation. */
  function Dump(j: Json): string {
    match j
    case Text(s) => "\"" + EscapedAll(s) + "\""
    case Num(n) => Digits(n)
    case Arr(items) => if items == [] then "[]" else "[" + Dump(items[0]) + DumpRest(items[1..])
  }

  /** What follows the first element of an array. */
  function DumpRest(items: seq<Json>): (d: string)
    ensures d != "" && (d[0] == ']' || d[0] == ',') && (d[0] == ']' <==> items == [])
  {
    if items == [] then "]" else "," + Dump(items[0]) + DumpRest(items[1..])
  }

  /** The first character tells the kind of value. */
  lemma FirstCharacter(j: Json)
    ensures Dump(j) != ""
    ensures Dump(j)[0] == '\"' <==> j.Text?
    ensures IsDigit(Dump(j)[0]) <==> j.Num?
    ensures Dump(j)[0] == '[' <==> j.Arr?
    ensures Dump(j)[0] != ']'
  {
    hide EscapedAll, Digits, DumpRest;
  }
}
