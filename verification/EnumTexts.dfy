/** What the printers write and the parsers read: which rows, in which order, and the text. */
module EnumTexts {
  import opened Words
  import opened Bitwise
  import opened EnumSpec
  import opened EnumLaws
  import opened Numerals

  // ----- which rows are printed -----

  lemma {:induction false} TakenSnoc(t: Table, row: Row, width: Width, bits: Bits)
    ensures var rest := Remainder(t, width, bits);
      && Taken(t + [row], width, bits) == Taken(t, width, bits) + (if Takes(row, width, rest) then [row] else [])
      && Remainder(t + [row], width, bits) == Left(row, width, rest)
    decreases |t|
  {
    hide Takes, Left;
    if t == [] {
      assert (t + [row])[1..] == [] && (t + [row])[0] == row;
    } else {
      var left := Left(t[0], width, bits);
      TakenSnoc(t[1..], row, width, left);
      assert (t + [row])[1..] == t[1..] + [row] && (t + [row])[0] == t[0];
      var head, more := if Takes(t[0], width, bits) then [t[0]] else [], Taken(t[1..], width, left);
      var last := if Takes(row, width, Remainder(t[1..], width, left)) then [row] else [];
      assert head + (more + last) == (head + more) + last;
    }
  }

  /** None of these rows has the bit. */
  predicate NoneHas(rows: Table, width: Width, i: nat) {
    forall row :: row in rows ==> !Bit(Value(row, width), i)
  }

  /** What remains are the bits that no printed row has. */
  lemma {:induction false} RemainderBits(t: Table, width: Width, bits: Bits, i: nat)
    requires i < 64
    ensures Bit(Remainder(t, width, bits), i) <==> Bit(bits, i) && NoneHas(Taken(t, width, bits), width, i)
    decreases |t|
  {
    hide Value, Within, Without, Bit;
    if t != [] {
      RemainderBits(t[1..], width, Left(t[0], width, bits), i);
      BitLaws(bits, Value(t[0], width), i);
      var rest := Taken(t[1..], width, Left(t[0], width, bits));
      if Takes(t[0], width, bits) {
        assert Taken(t, width, bits) == [t[0]] + rest;
      } else {
        assert Taken(t, width, bits) == [] + rest == rest;
      }
    }
  }

  /** Row `i` is printed, behind those before it, exactly if it is not zero, and all its bits
      are there, and no row before it has been printed for one of them. */
  predicate IsPrinted(t: Table, width: Width, bits: Bits, i: nat)
    requires i < |t|
  {
    && Value(t[i], width) != 0
    && forall b :: 0 <= b < 64 && Bit(Value(t[i], width), b) ==>
         Bit(bits, b) && NoneHas(Taken(t[..i], width, bits), width, b)
  }

  lemma PrintedIff(t: Table, width: Width, bits: Bits, i: nat)
    requires i < |t|
    ensures Taken(t[..i + 1], width, bits)
         == Taken(t[..i], width, bits) + if IsPrinted(t, width, bits, i) then [t[i]] else []
    ensures t[..|t|] == t && Taken([], width, bits) == []
  {
    hide Value, Within, Left, Bit, NoneHas, Remainder, Taken;
    assert t[..i + 1] == t[..i] + [t[i]];
    TakenSnoc(t[..i], t[i], width, bits);
    var rest := Remainder(t[..i], width, bits);
    WithinIff(Value(t[i], width), rest);
    forall b | 0 <= b < 64
      ensures Bit(rest, b) <==> Bit(bits, b) && NoneHas(Taken(t[..i], width, bits), width, b)
    {
      RemainderBits(t[..i], width, bits, b);
    }
    NothingTakenOf(width, bits);
  }

  lemma NothingTakenOf(width: Width, bits: Bits)
    ensures Taken([], width, bits) == []
  {
  }

  // ----- the text -----

  /** Strings with bars between them. */
  function Barred(parts: seq<string>): string {
    if |parts| <= 1 then (if parts == [] then "" else parts[0]) else parts[0] + "|" + Barred(parts[1..])
  }

  lemma {:induction false} BarredSnoc(parts: seq<string>, last: string)
    requires "" !in parts
    ensures Barred(parts + [last]) == Appended(Barred(parts), last)
    ensures parts != [] ==> Barred(parts) != ""
    decreases |parts|
  {
    if parts == [] {
      assert parts + [last] == [last];
      assert "" + last == last;
    } else {
      assert parts[0] in parts;
      assert (parts + [last])[1..] == parts[1..] + [last] && (parts + [last])[0] == parts[0];
      BarredSnoc(parts[1..], last);
      if |parts| == 1 {
        assert parts[1..] == [];
        assert Barred(parts + [last]) == parts[0] + "|" + last;
      } else {
        assert Barred(parts) == parts[0] + "|" + Barred(parts[1..]);
        assert parts[0] + "|" + (Barred(parts[1..]) + "|" + last) == (parts[0] + "|" + Barred(parts[1..])) + "|" + last;
      }
    }
  }

  function Keys(rows: Table): (keys: seq<string>)
    requires forall row :: row in rows ==> row.key.Some?
    ensures |keys| == |rows| && forall i :: 0 <= i < |rows| ==> keys[i] == rows[i].key.value
  {
    if rows == [] then [] else [rows[0].key.value] + Keys(rows[1..])
  }

  lemma {:induction false} WrittenIsBarred(parts: seq<string>, rows: Table)
    requires "" !in parts && forall row :: row in rows ==> row.key.Some? && row.key.value != ""
    ensures Written(Barred(parts), rows) == Barred(parts + Keys(rows))
    decreases |rows|
  {
    hide Barred, Appended, Written, Keys;
    if rows == [] {
      NothingWritten(Barred(parts));
      assert parts + Keys(rows) == parts;
    } else {
      assert rows[0] in rows;
      var key := rows[0].key.value;
      WrittenStep(Barred(parts), rows);
      BarredSnoc(parts, key);
      WrittenIsBarred(parts + [key], rows[1..]);
      assert parts + ([key] + Keys(rows[1..])) == (parts + [key]) + Keys(rows[1..]);
    }
  }

  lemma WrittenStep(buffer: string, rows: Table)
    requires rows != [] && forall row :: row in rows ==> row.key.Some?
    ensures rows[0] in rows && Written(buffer, rows) == Written(Appended(buffer, rows[0].key.value), rows[1..])
    ensures Keys(rows) == [rows[0].key.value] + Keys(rows[1..])
  {
  }

  lemma NothingWritten(buffer: string)
    ensures Written(buffer, []) == buffer && Keys([]) == []
  {
  }

  /** Row `i` is the last one for zero. */
  predicate IsLastZero(t: Table, width: Width, i: nat) {
    && i < |t| && Value(t[i], width) == 0
    && forall j :: i < j < |t| ==> Value(t[j], width) != 0
  }

  lemma {:induction false} EmptyKeyIsLast(t: Table, width: Width, empty: Option<string>)
    ensures forall i: nat :: IsLastZero(t, width, i) ==> EmptyKey(t, width, empty) == t[i].key
    ensures (forall i :: 0 <= i < |t| ==> Value(t[i], width) != 0) ==> EmptyKey(t, width, empty) == empty
    decreases |t|
  {
    hide Value;
    if t != [] {
      EmptyKeyIsLast(t[1..], width, if Value(t[0], width) == 0 then t[0].key else empty);
      forall i: nat | IsLastZero(t, width, i)
        ensures EmptyKey(t, width, empty) == t[i].key
      {
        if i > 0 {
          assert IsLastZero(t[1..], width, i - 1);
        } else {
          assert forall j :: 0 <= j < |t[1..]| ==> t[1..][j] == t[j + 1];
        }
      }
    }
  }

  /** The text of `bits` is the keys of the printed rows with bars between them, and behind them
      the number of what remains; or the key of the last row for zero, if it has one; or "0". */
  lemma OptionsTextIs(t: Table, width: Width, bits: Bits)
    requires Printable(t, width, bits) && forall row :: row in Taken(t, width, bits) ==> row.key.value != ""
    ensures var rows, rest := Taken(t, width, bits), Remainder(t, width, bits);
      var text := OptionsText(t, width, bits);
      && (rest == 0 && rows != [] ==> text == Barred(Keys(rows)))
      && (rest != 0 ==> text == Barred(Keys(rows) + [Hex(rest)]) && Spells(Hex(rest), Amount(rest)))
      && (rest == 0 && rows == [] ==>
            && (forall i: nat :: IsLastZero(t, width, i) && t[i].key.Some? ==> text == t[i].key.value)
            && ((forall i :: 0 <= i < |t| ==> Value(t[i], width) != 0) ==> text == "0"))
  {
    hide Value, Taken, Remainder, Hex, Spells, Amount, Barred, Appended, EmptyKey;
    var rows, rest := Taken(t, width, bits), Remainder(t, width, bits);
    BarredNothing();
    assert [] + Keys(rows) == Keys(rows);
    WrittenIsBarred([], rows);
    assert "" !in Keys(rows);
    BarredSnoc(Keys(rows), Hex(rest));
    EmptyKeyIsLast(t, width, None);
    AppendedIsThere(Barred(Keys(rows)), Hex(rest));
    if rest != 0 {
      HexSpells(rest);
      HexIsThere(rest);
    }
  }

  lemma BarredNothing()
    ensures Barred([]) == ""
  {
  }

  lemma AppendedIsThere(buffer: string, s: string)
    ensures s != "" ==> Appended(buffer, s) != ""
  {
  }

  lemma HexIsThere(b: Bits)
    ensures Hex(b) != ""
  {
    hide HexDigits;
  }

  // ----- the lenient parsers -----

  /** A digit in front makes it a number, and only the digits matter. */
  lemma Leniently(t: Table, width: Width, digits: string, rest: string)
    requires digits != "" && AllDigits(digits) && (rest == "" || !('0' <= rest[0] <= '9'))
    ensures Amount(ParseOptionsLeniently(t, width, digits + rest)) == DigitsNumber(digits) % TWO64
    ensures Amount(ParseEnumLeniently(t, width, digits + rest)) == DigitsNumber(digits) % TWO64
  {
    hide DecimalWord, DigitsNumber, Number;
    NumbersAreRead(digits, rest);
  }

  /** Anything else is the bits of its keys if nothing is left over, and zero if something is. */
  lemma LenientOptionsAre(t: Table, width: Width, s: string)
    requires s == "" || !('0' <= s[0] <= '9')
    ensures forall tokens, bars, rest :: IsTokenization(t, s, tokens, bars, rest) && IsOver(t, rest) ==>
      ParseOptionsLeniently(t, width, s) == if rest == "" then TokenBits(t, width, tokens) else 0
  {
    hide IsTokenization, IsOver, TokenBits, ParseOptions;
    ParsingIsTokenizing(t, width, s);
  }

  // ----- enums -----

  /** An enum is printed as the key of the first row with its value, or spelled out as a
      number. */
  lemma EnumTextIs(t: Table, width: Width, value: Bits, i: nat)
    ensures (forall j :: 0 <= j < |t| ==> Value(t[j], width) != value)
        ==> Spells(EnumText(t, width, value), Amount(value))
    ensures i < |t| && Value(t[i], width) == value && t[i].key.Some?
            && (forall j :: 0 <= j < i ==> Value(t[j], width) != value)
        ==> EnumText(t, width, value) == t[i].key.value
  {
    hide Value, Hex, Number, Spells, FirstValue;
    ZeroIsSpelled();
    if value != 0 {
      HexSpells(value);
    }
  }

  lemma ZeroIsSpelled()
    ensures Spells("0", Amount(0))
  {
    NumberOfNothing(64);
  }

  /** A string is parsed as the constant of the first row whose key it begins with, if all rows
      before that have keys. */
  lemma ParsedEnumIs(t: Table, width: Width, s: string)
    ensures forall i: nat :: NamesFirst(t, i, s) ==> ParseEnum(t, width, s) == Some(Value(t[i], width))
    ensures (forall i :: 0 <= i < |t| ==> !NamesFirst(t, i, s)) ==> ParseEnum(t, width, s) == None
    ensures s == "" || !('0' <= s[0] <= '9') ==>
      && (forall i: nat :: NamesFirst(t, i, s) ==> ParseEnumLeniently(t, width, s) == Value(t[i], width))
      && ((forall i :: 0 <= i < |t| ==> !NamesFirst(t, i, s)) ==> ParseEnumLeniently(t, width, s) == 0)
  {
    hide Value, FirstMatch;
    FoundIsFirst(t, s);
  }
}
