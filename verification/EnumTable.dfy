/** The loops over a table of names. */
module EnumTables {
  import opened Words
  import opened Bitwise
  import opened EnumSpec
  import opened EnumLaws

  method TableSearch(t: Table, width: Width, bit: Bits) returns (key: Option<string>)
    ensures key.Some? <==> exists i :: 0 <= i < |t| && Value(t[i], width) == bit && t[i].key.Some?
                                       && forall j :: 0 <= j < i ==> Value(t[j], width) != bit
    ensures var i := FirstValue(t, width, bit); key == if i < |t| then t[i].key else None
  {
    hide Value;
    for i := 0 to |t|
      invariant forall j :: 0 <= j < i ==> Value(t[j], width) != bit
    {
      if bit == Value(t[i], width) {
        return t[i].key;
      }
    }
    return None;
  }

  /** One turn of the printing loop. */
  lemma PrintStep(t: Table, i: nat, width: Width, bits: Bits, buffer: string, empty: Option<string>)
    requires i < |t| && forall row :: row in Taken(t[i..], width, bits) ==> row.key.Some?
    ensures var left := Left(t[i], width, bits);
      && Remainder(t[i..], width, bits) == Remainder(t[i + 1..], width, left)
      && EmptyKey(t[i..], width, empty) == EmptyKey(t[i + 1..], width,
                                                    if Value(t[i], width) == 0 then t[i].key else empty)
      && (forall row :: row in Taken(t[i + 1..], width, left) ==> row.key.Some?)
      && (Takes(t[i], width, bits) ==> t[i].key.Some?)
      && Written(buffer, Taken(t[i..], width, bits))
         == Written(if Takes(t[i], width, bits) then Appended(buffer, t[i].key.value) else buffer,
                    Taken(t[i + 1..], width, left))
  {
    hide Value, Takes, Left, Appended;
    assert t[i..][1..] == t[i + 1..] && t[i..][0] == t[i];
    var rest := Taken(t[i + 1..], width, Left(t[i], width, bits));
    assert Taken(t[i..], width, bits) == (if Takes(t[i], width, bits) then [t[i]] else []) + rest;
    if Takes(t[i], width, bits) {
      assert t[i] in [t[i]] + rest;
      assert ([t[i]] + rest)[1..] == rest;
    } else {
      assert [] + rest == rest;
    }
  }

  lemma PrintEnds(t: Table, width: Width, bits: Bits, buffer: string, empty: Option<string>)
    ensures t[0..] == t
    ensures Taken(t[|t|..], width, bits) == [] && Remainder(t[|t|..], width, bits) == bits
    ensures EmptyKey(t[|t|..], width, empty) == empty
    ensures Written(buffer, []) == buffer
  {
  }

  /** The body of the printing loop. */
  method PrintRow(row: Row, width: Width, options: Bits, text: string, none: Option<string>)
      returns (bits: Bits, buffer: string, empty: Option<string>)
    requires Takes(row, width, options) ==> row.key.Some?
    ensures bits == Left(row, width, options)
    ensures buffer == if Takes(row, width, options) then Appended(text, row.key.value) else text
    ensures empty == if Value(row, width) == 0 then row.key else none
  {
    hide Value, Within, Without, Appended;
    bits, buffer, empty := options, text, none;
    var value := Value(row, width);
    if value == 0 {
      empty := row.key;
    } else if Within(value, bits) {
      buffer := Appended(buffer, row.key.value);
      bits := Without(bits, value);
    }
  }

  /** Prints every row whose bits are all there and takes them away, then what is left. */
  method OptionsUTF8String(t: Table, width: Width, options: Bits) returns (s: string)
    requires Printable(t, width, options)
    ensures s == OptionsText(t, width, options)
  {
    hide Value, Taken, Remainder, EmptyKey, Written, Takes, Left, Hex, Appended;
    var bits, buffer := options, "";
    var empty: Option<string> := None;
    PrintEnds(t, width, bits, buffer, empty);
    for i := 0 to |t|
      invariant forall row :: row in Taken(t[i..], width, bits) ==> row.key.Some?
      invariant Written(buffer, Taken(t[i..], width, bits)) == Written("", Taken(t, width, options))
      invariant Remainder(t[i..], width, bits) == Remainder(t, width, options)
      invariant EmptyKey(t[i..], width, empty) == EmptyKey(t, width, None)
    {
      PrintStep(t, i, width, bits, buffer, empty);
      bits, buffer, empty := PrintRow(t[i], width, bits, buffer, empty);
    }
    PrintEnds(t, width, bits, buffer, empty);
    if bits != 0 {
      buffer := Appended(buffer, Hex(bits));
    }
    if buffer != "" {
      return buffer;
    }
    s := if empty.Some? then empty.value else "0";
  }

  /** The character at position `j`, where the terminator may be read but nothing behind it. */
  function At(s: string, j: nat): char
    requires j <= |s|
  {
    if j < |s| then s[j] else '\0'
  }

  /** All keys begin with these characters. */
  predicate Shared(t: Table, prefix: string) {
    forall i :: 0 <= i < |t| ==> t[i].key.Some? && prefix <= t[i].key.value
  }

  lemma PrefixesAgree(a: string, b: string, prefix: string, j: nat)
    requires prefix <= a && prefix <= b
    ensures j < |prefix| ==> j < |a| && j < |b| && a[j] == b[j]
  {
  }

  /** How long the longest prefix is that all keys share. No key is read behind its
      terminator. */
  method PrefixLength(t: Table) returns (n: nat)
    requires forall i :: 0 <= i < |t| ==> t[i].key.Some? && '\0' !in t[i].key.value
    ensures t == [] ==> n == 0
    ensures t != [] ==> n <= |t[0].key.value| && Shared(t, t[0].key.value[..n])
    ensures t != [] ==> forall prefix :: Shared(t, prefix) ==> |prefix| <= n
  {
    if |t| == 0 {
      return 0;
    }
    var first := t[0].key.value;
    var j := 0;
    while j < |first|
      invariant j <= |first| && Shared(t, first[..j])
    {
      var c := first[j];
      var i := 1;
      while i < |t|
        invariant 1 <= i <= |t|
        invariant forall k :: 0 <= k < i ==> j < |t[k].key.value| && t[k].key.value[j] == c
      {
        var s := t[i].key.value;
        assert first[..j] <= s;
        if At(s, j) == '\0' || At(s, j) != c {
          forall prefix | Shared(t, prefix)
            ensures |prefix| <= j
          {
            PrefixesAgree(first, s, prefix, j);
          }
          return j;
        }
        i := i + 1;
      }
      forall k | 0 <= k < |t|
        ensures first[..j + 1] <= t[k].key.value
      {
        assert first[..j] <= t[k].key.value && first[..j + 1] == first[..j] + [c];
      }
      j := j + 1;
    }
    return |first|;
  }

  method EnumUTF8String(t: Table, width: Width, value: Bits) returns (s: string)
    requires t != [] ==> t[|t| - 1].key.Some?
    ensures s == EnumText(t, width, value)
  {
    hide Value, Hex;
    var key := TableSearch(t, width, value);
    if key.Some? {
      return key.value;
    }
    if value == 0 {
      return "0";
    }
    s := Hex(value);
  }

  /** The search loop of the parsers: the first row that matches, or the end. */
  method FindKey(t: Table, s: string) returns (i: nat)
    ensures i == FirstMatch(t, s)
  {
    i := 0;
    while i < |t|
      invariant i <= |t| && forall j :: 0 <= j < i ==> !Matches(t[j], s)
    {
      if t[i].key.None? {
        return;
      }
      if t[i].key.value <= s {
        return;
      }
      i := i + 1;
    }
  }

  /** Cuts `s` into keys, unless that would go on for ever. Without a string, `was` stays in
      place as the value. */
  method ParseOptionsStrict(t: Table, width: Width, s: Option<string>, was: Bits) returns (ok: bool, value: Bits)
    requires s.Some? ==> ParseOptions(t, width, s.value, 0).Parse?
    ensures if s.None? then !ok && value == was else Parse(ok, value) == ParseOptions(t, width, s.value, 0)
  {
    hide Value, Join, FirstMatch, Behind;
    if s.None? {
      return false, was;
    }
    value := 0;
    var rest := s.value;
    while rest != ""
      invariant ParseOptions(t, width, rest, value) == ParseOptions(t, width, s.value, 0)
      decreases |rest|
    {
      var i := FindKey(t, rest);
      if i == |t| || t[i].key.None? {
        return false, value;
      }
      var n := |t[i].key.value|;
      BehindIsShorter(rest, n);
      value := Join(value, Value(t[i], width));
      rest := SkipKey(rest, n);
    }
    return true, value;
  }

  /** Behind a key, a bar is skipped, unless it is the last character. */
  method SkipKey(s: string, n: nat) returns (rest: string)
    requires n <= |s|
    ensures rest == Behind(s, n)
  {
    rest := s[n..];
    if |rest| > 1 && rest[0] == '|' {
      rest := rest[1..];
    }
  }

  method ParseOptionsUTF8String(t: Table, width: Width, s: Option<string>) returns (value: Bits)
    requires s.Some? ==> IsNumber(s.value) || ParseOptions(t, width, s.value, 0).Parse?
    ensures value == if s.None? then 0 else ParseOptionsLeniently(t, width, s.value)
  {
    hide DecimalWord, ParseOptions;
    if s.Some? && IsNumber(s.value) {
      return DecimalWord(s.value);
    }
    var ok, parsed := ParseOptionsStrict(t, width, s, 0);
    value := if ok then parsed else 0;
  }

  /** A string is parsed as far as the first key that is a prefix of it; a failure leaves
      `was` in place as the value. */
  method ParseEnumStrict(t: Table, width: Width, s: Option<string>, was: Bits) returns (ok: bool, value: Bits)
    ensures ok <==> s.Some? && Found(t, s.value)
    ensures value == if ok then ParseEnum(t, width, s.value).value else was
  {
    hide Value;
    if s.None? {
      return false, was;
    }
    var i := FindKey(t, s.value);
    if i == |t| || t[i].key.None? {
      return false, was;
    }
    return true, Value(t[i], width);
  }

  method ParseEnumUTF8String(t: Table, width: Width, s: Option<string>) returns (value: Bits)
    ensures value == if s.None? then 0 else ParseEnumLeniently(t, width, s.value)
  {
    hide DecimalWord;
    if s.Some? && IsNumber(s.value) {
      return DecimalWord(s.value);
    }
    var ok, parsed := ParseEnumStrict(t, width, s, 0);
    value := if ok then parsed else 0;
  }
}
