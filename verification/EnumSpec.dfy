/** Tables of enum and option names, as values: what is printed for a value, what is parsed
    from a string, and when the two undo each other. A string is the characters in front of its
    terminator. */
module EnumSpec {
  import opened Words
  import opened Bitwise

  /** The width of the constants in a table, in bytes. */
  datatype Width = One | Two | Four | Eight

  /** `constant` is the enum constant as an argument of the functions has it: a negative one is
      extended to 64 bits. */
  datatype Row = Row(key: Option<string>, constant: Bits)

  type Table = seq<Row>

  /** What the functions read from a row: the bytes of the constant, extended with zeros. */
  function Value(row: Row, width: Width): Bits {
    match width
    case One => Meet(row.constant, 0xff)
    case Two => Meet(row.constant, 0xffff)
    case Four => Meet(row.constant, 0xffff_ffff)
    case Eight => row.constant
  }

  // ----- numbers -----

  function Nibble(b: Bits): char {
    if b == 0 then '0' else if b == 1 then '1' else if b == 2 then '2' else if b == 3 then '3'
    else if b == 4 then '4' else if b == 5 then '5' else if b == 6 then '6' else if b == 7 then '7'
    else if b == 8 then '8' else if b == 9 then '9' else if b == 10 then 'a' else if b == 11 then 'b'
    else if b == 12 then 'c' else if b == 13 then 'd' else if b == 14 then 'e' else 'f'
  }

  function HexDigits(b: Bits, most: nat): string {
    if most == 0 || b == 0 then "" else HexDigits(Sixteenth(b), most - 1) + [Nibble(LowFour(b))]
  }

  /** A value that is not zero, as "0x%llx" prints it. */
  function Hex(b: Bits): string {
    "0x" + HexDigits(b, 16)
  }

  predicate IsDigit(c: char) {
    '0' <= c <= '9'
  }

  predicate IsNumber(s: string) {
    s != "" && IsDigit(s[0])
  }

  /** The decimal number in front of `s`, going on from `n`. */
  function Decimal(s: string, n: nat): nat
    decreases |s|
  {
    if s == "" || !IsDigit(s[0]) then n else Decimal(s[1..], n * 10 + (s[0] as int - '0' as int))
  }

  /** The decimal number in front of `s`, in a word. */
  function DecimalWord(s: string): Bits {
    LowWord(Decimal(s, 0), 64)
  }

  // ----- searching -----

  /** The first row with this value, or the end of the table. */
  function FirstValue(t: Table, width: Width, value: Bits): (i: nat)
    ensures i <= |t|
    ensures i < |t| ==> Value(t[i], width) == value
    ensures forall j :: 0 <= j < i ==> Value(t[j], width) != value
  {
    if t == [] || Value(t[0], width) == value then 0 else 1 + FirstValue(t[1..], width, value)
  }

  /** Parsing stops at a row without a key. */
  predicate Matches(row: Row, s: string) {
    row.key.Some? ==> row.key.value <= s
  }

  /** The first row whose key is a prefix of `s`, or that has no key, or the end of the table. */
  function FirstMatch(t: Table, s: string): (i: nat)
    ensures i <= |t|
    ensures i < |t| ==> Matches(t[i], s)
    ensures forall j :: 0 <= j < i ==> !Matches(t[j], s)
  {
    if t == [] || Matches(t[0], s) then 0 else 1 + FirstMatch(t[1..], s)
  }

  predicate Found(t: Table, s: string) {
    FirstMatch(t, s) < |t| && t[FirstMatch(t, s)].key.Some?
  }

  // ----- printing options -----

  /** The row is printed: all its bits are there. */
  predicate Takes(row: Row, width: Width, bits: Bits) {
    Value(row, width) != 0 && Within(Value(row, width), bits)
  }

  function Left(row: Row, width: Width, bits: Bits): Bits {
    if Takes(row, width, bits) then Without(bits, Value(row, width)) else bits
  }

  /** The rows that are printed for these bits. */
  function Taken(t: Table, width: Width, bits: Bits): Table
    decreases |t|
  {
    if t == [] then []
    else (if Takes(t[0], width, bits) then [t[0]] else []) + Taken(t[1..], width, Left(t[0], width, bits))
  }

  /** The bits that no row accounts for. */
  function Remainder(t: Table, width: Width, bits: Bits): Bits
    decreases |t|
  {
    if t == [] then bits else Remainder(t[1..], width, Left(t[0], width, bits))
  }

  /** The key of the last row for zero, going on from `empty`. */
  function EmptyKey(t: Table, width: Width, empty: Option<string>): Option<string>
    decreases |t|
  {
    if t == [] then empty else EmptyKey(t[1..], width, if Value(t[0], width) == 0 then t[0].key else empty)
  }

  /** `s` added to what has been written, behind a bar if there is something. */
  function Appended(buffer: string, s: string): string {
    (if buffer == "" then "" else buffer + "|") + s
  }

  function Written(buffer: string, rows: Table): string
    requires forall row :: row in rows ==> row.key.Some?
    decreases |rows|
  {
    if rows == [] then buffer else Written(Appended(buffer, rows[0].key.value), rows[1..])
  }

  /** The source's assertions: the last row, and every row that is printed, has a key. */
  predicate Printable(t: Table, width: Width, bits: Bits) {
    && (t != [] ==> t[|t| - 1].key.Some?)
    && forall row :: row in Taken(t, width, bits) ==> row.key.Some?
  }

  function OptionsText(t: Table, width: Width, bits: Bits): string
    requires Printable(t, width, bits)
  {
    var names, rest, empty := Written("", Taken(t, width, bits)), Remainder(t, width, bits), EmptyKey(t, width, None);
    var text := if rest != 0 then Appended(names, Hex(rest)) else names;
    if text != "" then text else if empty.Some? then empty.value else "0"
  }

  // ----- parsing options -----

  /** Where parsing goes on after a key of length `n`: a bar is skipped unless it is the last
      character. */
  function Behind(s: string, n: nat): string
    requires n <= |s|
  {
    if n + 1 < |s| && s[n] == '|' then s[n + 1..] else s[n..]
  }

  /** `value` has what was matched so far even if parsing fails. With an empty key the parser
      may find nothing to skip, and look at the same string for ever. */
  datatype Parse = Parse(ok: bool, value: Bits) | Endless

  function ParseOptions(t: Table, width: Width, s: string, value: Bits): Parse
    decreases |s|
  {
    if s == "" then Parse(true, value)
    else if !Found(t, s) then Parse(false, value)
    else
      var row := t[FirstMatch(t, s)];
      var rest := Behind(s, |row.key.value|);
      if |rest| == |s| then Endless else ParseOptions(t, width, rest, Join(value, Value(row, width)))
  }

  /** The number at the beginning of `s`, or what strict parsing makes of it, or zero. */
  function ParseOptionsLeniently(t: Table, width: Width, s: string): Bits {
    if IsNumber(s) then DecimalWord(s)
    else
      match ParseOptions(t, width, s, 0)
      case Parse(ok, value) => if ok then value else 0
      case Endless => 0
  }

  // ----- enums -----

  function EnumText(t: Table, width: Width, value: Bits): string {
    var i := FirstValue(t, width, value);
    if i < |t| && t[i].key.Some? then t[i].key.value
    else if value == 0 then "0"
    else Hex(value)
  }

  function ParseEnum(t: Table, width: Width, s: string): Option<Bits> {
    if Found(t, s) then Some(Value(t[FirstMatch(t, s)], width)) else None
  }

  function ParseEnumLeniently(t: Table, width: Width, s: string): Bits {
    if IsNumber(s) then DecimalWord(s)
    else if ParseEnum(t, width, s).Some? then ParseEnum(t, width, s).value
    else 0
  }
}
