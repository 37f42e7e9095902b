/** When parsing undoes printing. */
module EnumRoundTrip {
  import opened Words
  import opened Bitwise
  import opened EnumSpec
  import opened EnumLaws

  /** Every key is there, is not empty, and has no bar in it. */
  predicate Nameable(t: Table) {
    forall i :: 0 <= i < |t| ==> t[i].key.Some? && t[i].key.value != "" && '|' !in t[i].key.value
  }

  /** Every key is what the table macros make of a C identifier: no digit in front. */
  predicate WellFormed(t: Table) {
    Nameable(t) && forall i :: 0 <= i < |t| ==> !IsDigit(t[i].key.value[0])
  }

  /** No row lacks a key. */
  predicate Keyed(rows: Table) {
    forall i :: 0 <= i < |rows| ==> rows[i].key.Some?
  }

  /** No earlier key is a prefix of a later one. */
  predicate PrefixFree(t: Table)
    requires Keyed(t)
  {
    forall j, i :: 0 <= j < i < |t| ==> !(t[j].key.value <= t[i].key.value)
  }

  /** How the text goes on after a first name. */
  function Tail(rows: Table): string
    requires Keyed(rows)
  {
    if rows == [] then "" else "|" + rows[0].key.value + Tail(rows[1..])
  }

  lemma TailMore(buffer: string, key: string, more: string)
    requires buffer != ""
    ensures Appended(buffer, key) + more == buffer + ("|" + key + more) && Appended(buffer, key) != ""
  {
  }

  lemma {:induction false} WrittenIsTail(buffer: string, rows: Table)
    requires Keyed(rows) && buffer != ""
    ensures Written(buffer, rows) == buffer + Tail(rows)
    decreases |rows|
  {
    hide Appended;
    if rows == [] {
      assert buffer + "" == buffer;
    } else {
      TailMore(buffer, rows[0].key.value, Tail(rows[1..]));
      WrittenIsTail(Appended(buffer, rows[0].key.value), rows[1..]);
    }
  }

  lemma NamesAreTail(rows: Table)
    requires Keyed(rows) && rows != [] && rows[0].key.value != ""
    ensures Written("", rows) == rows[0].key.value + Tail(rows[1..])
  {
    assert "" + rows[0].key.value == rows[0].key.value;
    WrittenIsTail(rows[0].key.value, rows[1..]);
  }

  lemma EarlierDoesNotMatch(early: string, key: string, rest: string)
    requires '|' !in early && !(early <= key) && (rest == "" || rest[0] == '|')
    ensures !(early <= key + rest)
  {
    if |early| <= |key| {
      assert (key + rest)[..|early|] == key[..|early|];
    } else {
      assert early[|key|] != '|';
      assert rest != "" ==> (key + rest)[|key|] == '|';
    }
  }

  /** A key at the end of a string, or in front of a bar, is found where it is in the table. */
  lemma KeyIsFound(t: Table, i: nat, rest: string)
    requires Nameable(t) && PrefixFree(t) && i < |t| && (rest == "" || rest[0] == '|')
    ensures FirstMatch(t, t[i].key.value + rest) == i
  {
    var s := t[i].key.value + rest;
    assert Matches(t[i], s);
    forall j | 0 <= j < i
      ensures !Matches(t[j], s)
    {
      EarlierDoesNotMatch(t[j].key.value, t[i].key.value, rest);
    }
  }

  lemma BehindKey(key: string, rest: string)
    requires rest == "" || (rest[0] == '|' && |rest| > 1)
    ensures Behind(key + rest, |key|) == if rest == "" then "" else rest[1..]
  {
    assert rest != "" ==> (key + rest)[|key|] == '|' && (key + rest)[|key| + 1..] == rest[1..];
    assert (key + rest)[|key|..] == rest;
  }

  /** What comes behind the names: nothing, or a bar and something more. */
  predicate IsEnd(end: string) {
    end == "" || (end[0] == '|' && |end| > 1)
  }

  lemma TailIsEnd(rows: Table, end: string)
    requires Keyed(rows) && IsEnd(end) && (rows != [] ==> rows[0].key.value != "")
    ensures IsEnd(Tail(rows) + end)
    ensures rows == [] ==> Tail(rows) + end == end
    ensures rows != [] ==>
      Tail(rows) + end != "" && (Tail(rows) + end)[1..] == rows[0].key.value + (Tail(rows[1..]) + end)
  {
    if rows != [] {
      var more := Tail(rows[1..]);
      assert "|" + rows[0].key.value + more + end == "|" + (rows[0].key.value + (more + end));
    }
  }

  /** Rows of a table. */
  predicate Among(rows: Table, t: Table) {
    forall k :: 0 <= k < |rows| ==> rows[k] in t
  }

  lemma AmongIsKeyed(rows: Table, t: Table)
    requires Nameable(t) && Among(rows, t)
    ensures Keyed(rows) && (rows != [] ==> rows[0].key.value != "" && Among(rows[1..], t))
  {
  }

  lemma {:induction false} NamesAreParsed(t: Table, width: Width, rows: Table, end: string, value: Bits)
    requires Nameable(t) && PrefixFree(t) && rows != [] && Among(rows, t) && Keyed(rows) && IsEnd(end)
    ensures ParseOptions(t, width, rows[0].key.value + (Tail(rows[1..]) + end), value)
         == ParseOptions(t, width, if end == "" then "" else end[1..], Join(value, JoinAll(rows, width)))
    decreases |rows|
  {
    hide Value, Join, Behind, Tail, IsEnd, PrefixFree, Among, Keyed, Nameable;
    AmongIsKeyed(rows, t);
    AmongIsKeyed(rows[1..], t);
    var key, rest, v := rows[0].key.value, Tail(rows[1..]) + end, Value(rows[0], width);
    TailIsEnd(rows[1..], end);
    NameIsParsed(t, width, rows, rest, value);
    if rows[1..] == [] {
      JoinLaws(v, 0, 0);
    } else {
      NamesAreParsed(t, width, rows[1..], end, Join(value, v));
      JoinLaws(value, v, JoinAll(rows[1..], width));
    }
  }

  lemma NameIsParsed(t: Table, width: Width, rows: Table, rest: string, value: Bits)
    requires Nameable(t) && PrefixFree(t) && rows != [] && Among(rows, t) && Keyed(rows) && IsEnd(rest)
    ensures ParseOptions(t, width, rows[0].key.value + rest, value)
         == ParseOptions(t, width, if rest == "" then "" else rest[1..], Join(value, Value(rows[0], width)))
  {
    hide Value, Join, Behind, PrefixFree;
    assert rows[0] in t;
    var i :| 0 <= i < |t| && t[i] == rows[0];
    var key := rows[0].key.value;
    KeyIsFound(t, i, rest);
    BehindKey(key, rest);
    assert key + rest != "";
  }

  /** No key of a well-formed table starts like a number. */
  lemma NumberIsNotFound(t: Table, width: Width, s: string, value: Bits)
    requires WellFormed(t) && s != "" && IsDigit(s[0])
    ensures ParseOptions(t, width, s, value) == Parse(false, value) && !Found(t, s)
  {
  }

  predicate HasZero(t: Table, width: Width) {
    exists i :: 0 <= i < |t| && Value(t[i], width) == 0
  }

  /** The key printed for no bits at all is that of a row for zero. */
  lemma {:induction false} EmptyKeyIsZero(t: Table, width: Width, empty: Option<string>)
    ensures !HasZero(t, width) ==> EmptyKey(t, width, empty) == empty
    ensures HasZero(t, width) ==>
      exists i :: 0 <= i < |t| && Value(t[i], width) == 0 && EmptyKey(t, width, empty) == t[i].key
    decreases |t|
  {
    hide Value;
    if t != [] {
      var next := if Value(t[0], width) == 0 then t[0].key else empty;
      EmptyKeyIsZero(t[1..], width, next);
      if HasZero(t[1..], width) {
        var i :| 0 <= i < |t[1..]| && Value(t[1..][i], width) == 0 && EmptyKey(t[1..], width, next) == t[1..][i].key;
        assert t[i + 1] == t[1..][i];
      } else if Value(t[0], width) == 0 {
        assert EmptyKey(t, width, empty) == t[0].key;
      } else {
        forall i | 0 <= i < |t|
          ensures Value(t[i], width) != 0
        {
          assert i > 0 ==> t[i] == t[1..][i - 1];
        }
      }
    }
  }

  lemma NameableIsPrintable(t: Table, width: Width, bits: Bits)
    requires Nameable(t)
    ensures Printable(t, width, bits) && Among(Taken(t, width, bits), t)
    ensures Keyed(Taken(t, width, bits)) && Keyed(t)
  {
    hide Taken, Value, Within, Remainder;
    PrintedAreWithin(t, width, bits);
    forall row | row in Taken(t, width, bits)
      ensures row in t
    {
    }
  }

  // ----- options -----

  /** What follows the names: the bits that have none, in hexadecimal. */
  function HexEnd(rest: Bits): string {
    if rest == 0 then "" else "|" + Hex(rest)
  }

  lemma {:induction false} NothingIsNoWord(size: nat)
    ensures LowWord(0, size) == 0
    decreases size
  {
    if size > 0 {
      NothingIsNoWord(size - 1);
      ShiftedNothing();
    }
  }

  lemma ShiftedNothing()
    ensures Join(0, Double(0)) == 0
  {
  }

  lemma HexIsNumber(rest: Bits)
    ensures Hex(rest) != "" && IsDigit(Hex(rest)[0]) && DecimalWord(Hex(rest)) == 0
    ensures IsEnd(HexEnd(rest)) && (rest != 0 ==> HexEnd(rest) != "" && HexEnd(rest)[1..] == Hex(rest))
  {
    hide HexDigits;
    var s := Hex(rest);
    assert s[0] == '0' && s[1] == 'x';
    assert s[1..][0] == 'x';
    assert Decimal(s[1..], 0) == 0;
    NothingIsNoWord(64);
  }

  lemma EndJoins(key: string, tail: string, rest: Bits)
    requires key != ""
    ensures tail + HexEnd(0) == tail && key + tail != ""
    ensures rest != 0 ==> Appended(key + tail, Hex(rest)) == key + (tail + HexEnd(rest))
  {
    hide Hex;
  }

  /** The text for bits that have names. */
  lemma TextWithNames(t: Table, width: Width, bits: Bits)
    requires Nameable(t) && Taken(t, width, bits) != []
    ensures Printable(t, width, bits)
    ensures var rows := Taken(t, width, bits);
      && Keyed(rows) && rows[0] in t && rows[0].key.value != ""
      && OptionsText(t, width, bits) == rows[0].key.value + (Tail(rows[1..]) + HexEnd(Remainder(t, width, bits)))
  {
    NameableIsPrintable(t, width, bits);
    var rows, rest := Taken(t, width, bits), Remainder(t, width, bits);
    hide Taken, Remainder, Hex, Tail, EmptyKey, Value;
    assert rows[0] in t;
    NamesAreTail(rows);
    EndJoins(rows[0].key.value, Tail(rows[1..]), rest);
  }

  /** The text for bits none of which has a name. */
  lemma TextWithoutNames(t: Table, width: Width, bits: Bits)
    requires Nameable(t) && Taken(t, width, bits) == []
    ensures Printable(t, width, bits) && Remainder(t, width, bits) == bits
    ensures bits != 0 ==> OptionsText(t, width, bits) == Hex(bits)
    ensures bits == 0 && !HasZero(t, width) ==> OptionsText(t, width, bits) == "0"
    ensures bits == 0 && HasZero(t, width) ==>
      exists i :: 0 <= i < |t| && Value(t[i], width) == 0 && OptionsText(t, width, bits) == t[i].key.value + ""
  {
    hide Taken, Remainder, Value, Hex, Join;
    NameableIsPrintable(t, width, bits);
    PrintingConserves(t, width, bits);
    JoinLaws(0, Remainder(t, width, bits), 0);
    JoinLaws(Remainder(t, width, bits), 0, 0);
    HexIsNumber(bits);
    EmptyKeyIsZero(t, width, None);
    if bits == 0 && HasZero(t, width) {
      var i :| 0 <= i < |t| && Value(t[i], width) == 0 && EmptyKey(t, width, None) == t[i].key;
      assert t[i].key.value + "" == t[i].key.value;
    }
  }

  lemma NothingIsTakenFromZero(t: Table, width: Width)
    ensures Taken(t, width, 0) == [] && Remainder(t, width, 0) == 0
  {
    PrintedAreWithin(t, width, 0);
    assert Taken(t, width, 0) != [] ==> Taken(t, width, 0)[0] in Taken(t, width, 0);
  }

  lemma NamedBitsAreParsed(t: Table, width: Width, bits: Bits)
    requires Nameable(t) && PrefixFree(t) && Taken(t, width, bits) != []
    ensures Printable(t, width, bits)
    ensures var rest, named := Remainder(t, width, bits), JoinAll(Taken(t, width, bits), width);
      ParseOptions(t, width, OptionsText(t, width, bits), 0)
      == if rest == 0 then Parse(true, named) else ParseOptions(t, width, Hex(rest), named)
  {
    hide Value, Taken, Remainder, Hex, Tail, OptionsText, Join, PrefixFree, Nameable, JoinAll, IsEnd, HexEnd;
    var rows, rest := Taken(t, width, bits), Remainder(t, width, bits);
    NameableIsPrintable(t, width, bits);
    TextWithNames(t, width, bits);
    HexIsNumber(rest);
    NamesAreParsed(t, width, rows, HexEnd(rest), 0);
    JoinLaws(0, JoinAll(rows, width), 0);
    JoinLaws(JoinAll(rows, width), 0, 0);
    if rest == 0 {
      NoHexEnd();
    }
  }

  lemma NoHexEnd()
    ensures HexEnd(0) == ""
  {
  }

  lemma NothingIsParsed(t: Table, width: Width)
    requires Nameable(t) && PrefixFree(t) && HasZero(t, width)
    ensures Printable(t, width, 0) && ParseOptions(t, width, OptionsText(t, width, 0), 0) == Parse(true, 0)
  {
    hide Value, Taken, Remainder, OptionsText, PrefixFree;
    NameableIsPrintable(t, width, 0);
    NothingIsTakenFromZero(t, width);
    TextWithoutNames(t, width, 0);
    var i :| 0 <= i < |t| && Value(t[i], width) == 0 && OptionsText(t, width, 0) == t[i].key.value + "";
    KeyIsFound(t, i, "");
    BehindKey(t[i].key.value, "");
    JoinLaws(0, 0, 0);
  }

  lemma NumbersAreNotParsed(t: Table, width: Width, bits: Bits)
    requires WellFormed(t) && Taken(t, width, bits) == [] && !(bits == 0 && HasZero(t, width))
    ensures Printable(t, width, bits)
    ensures ParseOptions(t, width, OptionsText(t, width, bits), 0) == Parse(false, 0)
  {
    hide Value, Taken, Remainder, Hex, OptionsText;
    TextWithoutNames(t, width, bits);
    HexIsNumber(bits);
    if bits != 0 {
      NumberIsNotFound(t, width, Hex(bits), 0);
    } else {
      NumberIsNotFound(t, width, "0", 0);
    }
  }

  lemma RemainderOfTaken(t: Table, width: Width, bits: Bits)
    ensures Taken(t, width, bits) == [] ==> Remainder(t, width, bits) == bits
    ensures Taken(t, width, bits) != [] ==> bits != 0
    ensures Remainder(t, width, bits) == 0 ==> JoinAll(Taken(t, width, bits), width) == bits
  {
    hide Value, Taken, Remainder, Join;
    PrintingConserves(t, width, bits);
    JoinLaws(JoinAll(Taken(t, width, bits), width), 0, 0);
    JoinLaws(0, Remainder(t, width, bits), 0);
    JoinLaws(Remainder(t, width, bits), 0, 0);
    NothingIsTakenFromZero(t, width);
  }

  /** All bits have names, where no bits at all need a row for zero. */
  predicate Named(t: Table, width: Width, bits: Bits) {
    Remainder(t, width, bits) == 0 && (bits != 0 || HasZero(t, width))
  }

  /** Strictly parsing what has been printed gives the bits back if all of them have names; and,
      if no key looks like a number, only then. */
  lemma StrictRoundTripIff(t: Table, width: Width, bits: Bits)
    requires Nameable(t) && PrefixFree(t)
    ensures Printable(t, width, bits)
    ensures Named(t, width, bits) ==> ParseOptions(t, width, OptionsText(t, width, bits), 0) == Parse(true, bits)
    ensures WellFormed(t) && ParseOptions(t, width, OptionsText(t, width, bits), 0) == Parse(true, bits)
        ==> Named(t, width, bits)
  {
    hide Value, Taken, Remainder, OptionsText, PrefixFree, Nameable, HasZero, JoinAll, ParseOptions;
    var rest := Remainder(t, width, bits);
    RemainderOfTaken(t, width, bits);
    NameableIsPrintable(t, width, bits);
    if Taken(t, width, bits) != [] {
      NamedBitsAreParsed(t, width, bits);
      if WellFormed(t) && rest != 0 {
        HexIsNumber(rest);
        NumberIsNotFound(t, width, Hex(rest), JoinAll(Taken(t, width, bits), width));
      }
    } else if bits == 0 && HasZero(t, width) {
      NothingIsParsed(t, width);
    } else if WellFormed(t) {
      NumbersAreNotParsed(t, width, bits);
    }
  }

  /** A table with a key that looks like a number. */
  function NumberedTable(): Table {
    [Row(Some("A"), 1), Row(Some("0x2"), 3)]
  }

  lemma NumberedTableIsNameable()
    ensures var t := NumberedTable(); Nameable(t) && PrefixFree(t)
  {
    assert "A"[0] != "0x2"[0];
  }

  lemma NumberedTablePrints()
    ensures var t := NumberedTable();
      Printable(t, Eight, 3) && Remainder(t, Eight, 3) == 2 && OptionsText(t, Eight, 3) == "A|0x2"
  {
    var a, b, t := Row(Some("A"), 1), Row(Some("0x2"), 3), NumberedTable();
    assert t == [a, b] && t[1..] == [b] && [b][1..] == [];
    assert Left(a, Eight, 3) == 2 && !Takes(b, Eight, 2);
    assert Taken([b], Eight, 2) == [] && Remainder([b], Eight, 2) == 2;
    assert Taken(t, Eight, 3) == [a];
    assert HexDigits(2, 16) == HexDigits(0, 15) + "2" == "2";
    assert [a][1..] == [] && Written("", [a]) == "A";
  }

  lemma NumberedTableParses()
    ensures ParseOptions(NumberedTable(), Eight, "A|0x2", 0) == Parse(true, 3)
  {
    var t := NumberedTable();
    assert "A"[0] != "0x2"[0];
    assert Matches(t[0], "A|0x2") && !Matches(t[0], "0x2") && Matches(t[1], "0x2");
    assert Behind("A|0x2", 1) == "0x2" && Behind("0x2", 3) == "";
    hide Matches;
    assert FirstMatch(t, "A|0x2") == 0 && FirstMatch(t, "0x2") == 1;
  }

  /** Where a key looks like a number, bits may come back although some have no name: here 3 is
      printed as "A|0x2", which happens to parse as 3. */
  lemma NumbersMayBeKeys()
    ensures var t := NumberedTable();
      && Nameable(t) && PrefixFree(t) && !Named(t, Eight, 3) && Printable(t, Eight, 3)
      && ParseOptions(t, Eight, OptionsText(t, Eight, 3), 0) == Parse(true, 3)
  {
    NumberedTableIsNameable();
    NumberedTablePrints();
    NumberedTableParses();
    hide ParseOptions, OptionsText, NumberedTable, Printable, Remainder, Nameable;
  }

  /** Leniently parsing what has been printed gives the bits back exactly if all have names. */
  lemma LenientRoundTripIff(t: Table, width: Width, bits: Bits)
    requires WellFormed(t) && PrefixFree(t)
    ensures Printable(t, width, bits)
    ensures ParseOptionsLeniently(t, width, OptionsText(t, width, bits)) == bits <==> Remainder(t, width, bits) == 0
  {
    hide Value, Taken, Remainder, OptionsText, PrefixFree, ParseOptions, DecimalWord, Hex, Tail;
    RemainderOfTaken(t, width, bits);
    if Taken(t, width, bits) != [] {
      TextWithNames(t, width, bits);
      StrictRoundTripIff(t, width, bits);
      NamedBitsAreParsed(t, width, bits);
      if Remainder(t, width, bits) != 0 {
        HexIsNumber(Remainder(t, width, bits));
        NumberIsNotFound(t, width, Hex(Remainder(t, width, bits)), JoinAll(Taken(t, width, bits), width));
      }
    } else {
      TextWithoutNames(t, width, bits);
      HexIsNumber(bits);
      ZeroIsNumber();
      if bits == 0 && HasZero(t, width) {
        NothingIsParsed(t, width);
      }
    }
  }

  lemma ZeroIsNumber()
    ensures DecimalWord("0") == 0 && IsDigit("0"[0])
  {
    assert "0"[1..] == "";
    NothingIsNoWord(64);
  }

  // ----- the prefix condition is needed -----

  /** Parsing only ever adds bits. */
  lemma {:induction false} ParsingKeepsBits(t: Table, width: Width, s: string, value: Bits)
    requires ParseOptions(t, width, s, value).Parse?
    ensures Within(value, ParseOptions(t, width, s, value).value)
    decreases |s|
  {
    hide Value, Join, Within, Behind;
    WithinSelf(value);
    if s != "" && Found(t, s) {
      var row := t[FirstMatch(t, s)];
      var more := Join(value, Value(row, width));
      BehindIsShorter(s, |row.key.value|);
      ParsingKeepsBits(t, width, Behind(s, |row.key.value|), more);
      JoinIsUpper(value, Value(row, width));
      WithinTrans(value, more, ParseOptions(t, width, s, value).value);
    }
  }

  /** Every row stands for bits of its own. */
  predicate OwnBits(t: Table, width: Width) {
    Disjoint(t, width) && forall i :: 0 <= i < |t| ==> Value(t[i], width) != 0
  }

  lemma OwnBitsAreTaken(row: Row, width: Width, bits: Bits)
    requires Value(row, width) != 0
    ensures bits == Value(row, width) ==> Takes(row, width, bits) && Left(row, width, bits) == 0
    ensures Meet(Value(row, width), bits) == 0 ==> !Takes(row, width, bits)
    ensures !Takes(row, width, 0)
  {
    hide Value, Meet, Within, Without;
    var v := Value(row, width);
    WithinSelf(v);
    WithinSelf(0);
    if Within(v, bits) {
      MeetSwaps(v, bits);
      if Meet(v, bits) == 0 {
        WithinIsDisjoint(v, bits, v);
      }
    }
    if Within(v, 0) {
      WithinZero(v);
    }
  }

  lemma WithinZero(v: Bits)
    requires Within(v, 0)
    ensures v == 0
  {
  }

  /** The value of a row is printed as its key alone. */
  lemma {:induction false} OwnBitsArePrinted(t: Table, width: Width, i: nat)
    requires OwnBits(t, width) && i < |t|
    ensures Taken(t, width, Value(t[i], width)) == [t[i]] && Remainder(t, width, Value(t[i], width)) == 0
    decreases |t|
  {
    hide Value, Meet, Takes, Left;
    var bits := Value(t[i], width);
    OwnBitsAreTaken(t[0], width, bits);
    if i == 0 {
      NothingIsTakenFromZero(t[1..], width);
    } else {
      assert Meet(Value(t[0], width), bits) == 0;
      NothingTaken(t[0], width, bits);
      assert t[i] == t[1..][i - 1];
      OwnBitsArePrinted(t[1..], width, i - 1);
    }
  }

  /** The value of row `i` survives printing and strict parsing. */
  predicate RowSurvives(t: Table, width: Width, i: nat)
    requires i < |t|
  {
    Printable(t, width, Value(t[i], width))
    && ParseOptions(t, width, OptionsText(t, width, Value(t[i], width)), 0) == Parse(true, Value(t[i], width))
  }

  lemma WrongRowIsFound(t: Table, width: Width, j: nat, i: nat)
    requires Nameable(t) && OwnBits(t, width)
    requires j < i < |t| && t[j].key.value <= t[i].key.value
    ensures !RowSurvives(t, width, i)
  {
    hide Value, Taken, Remainder, Meet, Within, Join;
    var bits, key := Value(t[i], width), t[i].key.value;
    OwnBitsArePrinted(t, width, i);
    TextWithNames(t, width, bits);
    assert [t[i]][1..] == [] && key + ("" + "") == key;
    assert OptionsText(t, width, bits) == key;
    assert Matches(t[j], key);
    var m := FirstMatch(t, key);
    assert m <= j;
    JoinLaws(0, Value(t[m], width), 0);
    JoinLaws(Value(t[m], width), 0, 0);
    BehindIsShorter(key, |t[m].key.value|);
    var rest := Behind(key, |t[m].key.value|);
    if ParseOptions(t, width, rest, Value(t[m], width)).Parse? {
      ParsingKeepsBits(t, width, rest, Value(t[m], width));
    }
    assert Meet(Value(t[m], width), bits) == 0;
    OwnBitsAreTaken(t[m], width, bits);
  }

  /** For options with bits of their own, all rows survive exactly if no earlier key is a
      prefix of a later one. */
  lemma RowsSurviveIffPrefixFree(t: Table, width: Width)
    requires Nameable(t) && OwnBits(t, width)
    ensures (forall i :: 0 <= i < |t| ==> RowSurvives(t, width, i)) <==> PrefixFree(t)
  {
    hide Value, Taken, Remainder, OptionsText, ParseOptions, Printable;
    if PrefixFree(t) {
      forall i | 0 <= i < |t|
        ensures RowSurvives(t, width, i)
      {
        StrictRoundTripIff(t, width, Value(t[i], width));
        OwnBitsArePrinted(t, width, i);
      }
    } else {
      var j, i :| 0 <= j < i < |t| && t[j].key.value <= t[i].key.value;
      WrongRowIsFound(t, width, j, i);
    }
  }

  // ----- enums -----

  /** The value of row `i` survives printing and strict parsing. */
  predicate ConstantSurvives(t: Table, width: Width, i: nat)
    requires i < |t|
  {
    ParseEnum(t, width, EnumText(t, width, Value(t[i], width))) == Some(Value(t[i], width))
  }

  /** Row `m` is the first one whose key is a prefix of `name`. */
  predicate NamedFirst(t: Table, name: string, m: nat)
    requires Keyed(t)
  {
    m < |t| && t[m].key.value <= name && forall j :: 0 <= j < m ==> !(t[j].key.value <= name)
  }

  lemma FirstMatchIsNamedFirst(t: Table, name: string, m: nat)
    requires Keyed(t) && FirstMatch(t, name) < |t|
    ensures NamedFirst(t, name, m) <==> m == FirstMatch(t, name)
  {
    hide FirstMatch;
    var n := FirstMatch(t, name);
    assert Matches(t[n], name);
    assert forall j :: 0 <= j < |t| ==> (Matches(t[j], name) <==> t[j].key.value <= name);
  }

  /** Parsing the printed name of a value gives the value back exactly if the first row whose
      key is a prefix of the name has that value too. */
  lemma ConstantSurvivesIff(t: Table, width: Width, i: nat)
    requires Keyed(t) && i < |t|
    ensures var name := t[FirstValue(t, width, Value(t[i], width))].key.value;
      ConstantSurvives(t, width, i) <==>
        exists m: nat :: NamedFirst(t, name, m) && Value(t[m], width) == Value(t[i], width)
  {
    hide Value, FirstValue, FirstMatch, NamedFirst, Hex;
    var value := Value(t[i], width);
    var name := t[FirstValue(t, width, value)].key.value;
    assert Matches(t[FirstValue(t, width, value)], name);
    assert ParseEnum(t, width, EnumText(t, width, value)) == Some(Value(t[FirstMatch(t, name)], width));
    forall m: nat
      ensures NamedFirst(t, name, m) <==> m == FirstMatch(t, name)
    {
      FirstMatchIsNamedFirst(t, name, m);
    }
  }

  predicate Distinct(t: Table, width: Width) {
    forall j, i :: 0 <= j < i < |t| ==> Value(t[j], width) != Value(t[i], width)
  }

  /** All rows of a table of different values survive exactly if no earlier key is a prefix of
      a later one. */
  lemma ConstantsSurviveIffPrefixFree(t: Table, width: Width)
    requires Keyed(t) && Distinct(t, width)
    ensures (forall i :: 0 <= i < |t| ==> ConstantSurvives(t, width, i)) <==> PrefixFree(t)
  {
    hide Value;
    forall i | 0 <= i < |t|
      ensures ConstantSurvives(t, width, i) <==> forall j :: 0 <= j < i ==> !(t[j].key.value <= t[i].key.value)
    {
      OneConstantSurvivesIff(t, width, i);
    }
  }

  lemma OneConstantSurvivesIff(t: Table, width: Width, i: nat)
    requires Keyed(t) && Distinct(t, width) && i < |t|
    ensures EnumText(t, width, Value(t[i], width)) == t[i].key.value
    ensures ConstantSurvives(t, width, i) <==> forall j :: 0 <= j < i ==> !(t[j].key.value <= t[i].key.value)
  {
    hide Value;
    var name, m := t[i].key.value, FirstMatch(t, t[i].key.value);
    assert FirstValue(t, width, Value(t[i], width)) == i;
    assert Matches(t[i], name);
    assert forall j :: 0 <= j < |t| ==> (Matches(t[j], name) <==> t[j].key.value <= name);
  }

  /** Leniently parsing a printed enum gives the value back exactly if it is in the table, or
      zero. */
  lemma LenientEnumRoundTripIff(t: Table, width: Width, value: Bits)
    requires WellFormed(t) && PrefixFree(t)
    ensures ParseEnumLeniently(t, width, EnumText(t, width, value)) == value
       <==> value == 0 || exists i :: 0 <= i < |t| && Value(t[i], width) == value
  {
    hide Value, DecimalWord, Hex, PrefixFree;
    var i := FirstValue(t, width, value);
    if i < |t| {
      var name := t[i].key.value;
      KeyIsFound(t, i, "");
      assert name + "" == name;
    } else {
      HexIsNumber(value);
      ZeroIsNumber();
    }
  }

  lemma ValueFitsWidth(row: Row, other: Row, width: Width)
    ensures Value(row, width) == other.constant ==> Value(other, width) == other.constant
  {
    hide Meet;
    MeetTwice(row.constant, 0xff);
    MeetTwice(row.constant, 0xffff);
    MeetTwice(row.constant, 0xffff_ffff);
  }

  /** Looking up the constant of a row finds something exactly if the constant fits the width
      without its sign. */
  lemma ConstantIsFoundIff(t: Table, width: Width, i: nat)
    requires i < |t|
    ensures FirstValue(t, width, t[i].constant) < |t| <==> Value(t[i], width) == t[i].constant
  {
    var m := FirstValue(t, width, t[i].constant);
    if m < |t| {
      ValueFitsWidth(t[m], t[i], width);
    }
  }

  /** The smallest failure: -1 in a table of bytes is printed as a number. */
  lemma MinusOneHasNoName(name: string)
    ensures EnumText([Row(Some(name), 0xffff_ffff_ffff_ffff)], One, 0xffff_ffff_ffff_ffff) == Hex(0xffff_ffff_ffff_ffff)
  {
    hide Hex;
    ConstantIsFoundIff([Row(Some(name), 0xffff_ffff_ffff_ffff)], One, 0);
  }

  const TAO := "MulleObjCTAO"
  const REMOVES := "CallerRemovesFrom"
  const SAFE := "KnownThreadSafe"

  /** The constants of the TAO strategies, in the order of their table. */
  function StrategyConstant(i: nat): Bits {
    match i
    case 0 => 0
    case 1 => 2
    case 2 => 1
    case 3 => 3
    case 4 => 4
    case 5 => 5
    case 6 => 6
    case _ => 7
  }

  /** Their names, but for the common prefix. */
  function StrategyName(i: nat): string {
    match i
    case 0 => REMOVES + "CurrentPool"
    case 1 => REMOVES + ("CurrentPool" + "Shallow")
    case 2 => REMOVES + "AllPools"
    case 3 => REMOVES + ("AllPools" + "Shallow")
    case 4 => "ReceiverPerformsFinalize"
    case 5 => "TransferIvars"
    case 6 => SAFE + "Methods"
    case _ => SAFE
  }

  function TAOStrategies(): Table {
    seq(8, i requires 0 <= i < 8 => Row(Some(TAO + StrategyName(i)), StrategyConstant(i)))
  }

  lemma PrefixCancels(p: string, a: string, b: string)
    ensures p + a <= p + b <==> a <= b
  {
    if a <= b {
      assert p + b == p + a + b[|a|..];
    } else if |a| <= |b| {
      var k :| 0 <= k < |a| && a[k] != b[k];
      assert (p + a)[|p| + k] != (p + b)[|p| + k];
    }
  }

  lemma ShorterIsNoPrefix(p: string, a: string)
    requires a != ""
    ensures !(p + a <= p)
  {
  }

  /** Whose name is a prefix of whose. */
  lemma NamePrefixes(j: nat, i: nat)
    requires j < i < 8
    ensures StrategyName(j) <= StrategyName(i) <==> (j == 0 && i == 1) || (j == 2 && i == 3)
  {
    if i < 4 {
      PoolNamePrefixes(j, i);
    } else if j == 6 {
      ShorterIsNoPrefix(SAFE, "Methods");
    } else {
      assert StrategyName(j)[0] != StrategyName(i)[0];
    }
  }

  lemma PoolNamePrefixes(j: nat, i: nat)
    requires j < i < 4
    ensures StrategyName(j) <= StrategyName(i) <==> (j == 0 && i == 1) || (j == 2 && i == 3)
  {
    var current, all, shallow := "CurrentPool", "AllPools", "Shallow";
    PrefixCancels(REMOVES, current, current + shallow);
    PrefixCancels(REMOVES, all, all + shallow);
    PrefixCancels(REMOVES, current, all);
    PrefixCancels(REMOVES, current, all + shallow);
    PrefixCancels(REMOVES, current + shallow, all);
    PrefixCancels(REMOVES, current + shallow, all + shallow);
    assert current[0] != all[0];
    assert (current + shallow)[0] == current[0] && (all + shallow)[0] == all[0];
  }

  lemma StrategiesAreDistinct()
    ensures var t := TAOStrategies(); |t| == 8 && Distinct(t, Eight) && Keyed(t)
  {
    hide StrategyConstant, StrategyName;
    StrategyConstants();
  }

  lemma StrategyConstants()
    ensures forall j, i :: 0 <= j < i < 8 ==> StrategyConstant(j) != StrategyConstant(i)
  {
  }

  /** The table of the TAO strategies is not prefix free: the names of the two shallow strategies
      parse as others, and all other names as themselves. */
  lemma ShallowStrategiesDoNotSurvive(i: nat)
    requires i < 8
    ensures ConstantSurvives(TAOStrategies(), Eight, i) <==> i != 1 && i != 3
    ensures EnumText(TAOStrategies(), Eight, StrategyConstant(i)) == TAO + StrategyName(i)
  {
    var t := TAOStrategies();
    StrategiesAreDistinct();
    OneConstantSurvivesIff(t, Eight, i);
    hide StrategyName, StrategyConstant, Distinct, ConstantSurvives;
    forall j | 0 <= j < i
      ensures t[j].key.value <= t[i].key.value <==> (j == 0 && i == 1) || (j == 2 && i == 3)
    {
      PrefixCancels(TAO, StrategyName(j), StrategyName(i));
      NamePrefixes(j, i);
    }
    if i == 1 {
      assert t[0].key.value <= t[i].key.value;
    }
    if i == 3 {
      assert t[2].key.value <= t[i].key.value;
    }
  }

  /** What the shallow strategies parse as. */
  lemma ShallowStrategiesParseAsDeep()
    ensures ParseEnum(TAOStrategies(), Eight, TAO + StrategyName(1)) == Some(0)
    ensures ParseEnum(TAOStrategies(), Eight, TAO + StrategyName(3)) == Some(1)
  {
    var t := TAOStrategies();
    FoundFirst(0, 1);
    FoundFirst(2, 3);
    assert StrategyConstant(0) == 0 && StrategyConstant(2) == 1;
  }

  lemma FoundFirst(j: nat, i: nat)
    requires (j == 0 && i == 1) || (j == 2 && i == 3)
    ensures FirstMatch(TAOStrategies(), TAO + StrategyName(i)) == j
  {
    hide StrategyName, StrategyConstant;
    var t, s := TAOStrategies(), TAO + StrategyName(i);
    forall k | 0 <= k <= j
      ensures Matches(t[k], s) <==> k == j
    {
      PrefixCancels(TAO, StrategyName(k), StrategyName(i));
      NamePrefixes(k, i);
    }
    var m := FirstMatch(t, s);
    assert Matches(t[j], s) && m <= j;
  }
}
