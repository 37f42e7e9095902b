/** Printing and parsing options and enums: what each does on its own, and exactly when one
    undoes the other. */
module EnumLaws {
  import opened Words
  import opened Bitwise
  import opened EnumSpec

  // ----- printing is a decomposition of the bits -----

  function JoinAll(rows: Table, width: Width): Bits {
    if rows == [] then 0 else Join(Value(rows[0], width), JoinAll(rows[1..], width))
  }

  /** The sum of the values, without wrap-around. */
  function Total(rows: Table, width: Width): nat {
    if rows == [] then 0 else Amount(Value(rows[0], width)) + Total(rows[1..], width)
  }

  /** The values of different rows have no bit in common. */
  predicate Disjoint(rows: Table, width: Width) {
    forall i, j :: 0 <= i < j < |rows| ==> Meet(Value(rows[i], width), Value(rows[j], width)) == 0
  }

  lemma LeftIsWithin(row: Row, width: Width, bits: Bits)
    ensures Within(Left(row, width, bits), bits)
    ensures Takes(row, width, bits) ==>
      && Meet(Value(row, width), Left(row, width, bits)) == 0
      && Join(Value(row, width), Left(row, width, bits)) == bits
      && Amount(Value(row, width)) + Amount(Left(row, width, bits)) == Amount(bits)
  {
    hide Value, Within, Without, Meet, Join, Number;
    var v := Value(row, width);
    WithinSelf(bits);
    WithoutIsWithin(bits, v);
    if Takes(row, width, bits) {
      WithoutAndBack(bits, v);
      JoinAdds(v, Without(bits, v), 64);
    }
  }

  /** What is printed and what remains make up the bits. */
  lemma {:induction false} PrintingConserves(t: Table, width: Width, bits: Bits)
    ensures Join(JoinAll(Taken(t, width, bits), width), Remainder(t, width, bits)) == bits
    ensures Total(Taken(t, width, bits), width) + Amount(Remainder(t, width, bits)) == Amount(bits)
    decreases |t|
  {
    hide Value, Takes, Left, Join, Amount;
    if t == [] {
      JoinLaws(0, bits, 0);
      JoinLaws(bits, 0, 0);
    } else {
      var v, left := Value(t[0], width), Left(t[0], width, bits);
      var rest := Taken(t[1..], width, left);
      PrintingConserves(t[1..], width, left);
      LeftIsWithin(t[0], width, bits);
      if Takes(t[0], width, bits) {
        assert ([t[0]] + rest)[1..] == rest;
        JoinLaws(v, JoinAll(rest, width), Remainder(t[1..], width, left));
      } else {
        assert [] + rest == rest;
        NothingTaken(t[0], width, bits);
      }
    }
  }

  lemma NothingTaken(row: Row, width: Width, bits: Bits)
    requires !Takes(row, width, bits)
    ensures Left(row, width, bits) == bits
  {
  }

  lemma {:induction false} PrintedAreWithin(t: Table, width: Width, bits: Bits)
    ensures Within(Remainder(t, width, bits), bits)
    ensures forall row :: row in Taken(t, width, bits) ==>
      row in t && Value(row, width) != 0 && Within(Value(row, width), bits)
    decreases |t|
  {
    hide Value, Left, Within;
    if t == [] {
      WithinSelf(bits);
    } else {
      var left := Left(t[0], width, bits);
      PrintedAreWithin(t[1..], width, left);
      LeftIsWithin(t[0], width, bits);
      WithinTrans(Remainder(t[1..], width, left), left, bits);
      forall row | row in Taken(t[1..], width, left)
        ensures Within(Value(row, width), bits)
      {
        WithinTrans(Value(row, width), left, bits);
      }
    }
  }

  lemma TakenIsApart(row: Row, width: Width, bits: Bits, other: Row)
    requires Takes(row, width, bits) && Within(Value(other, width), Left(row, width, bits))
    ensures Meet(Value(row, width), Value(other, width)) == 0
  {
    hide Value, Left, Within, Meet, Takes;
    LeftIsWithin(row, width, bits);
    MeetSwaps(Value(row, width), Left(row, width, bits));
    WithinIsDisjoint(Value(other, width), Left(row, width, bits), Value(row, width));
  }

  /** No bit is printed twice. */
  lemma {:induction false} PrintedAreDisjoint(t: Table, width: Width, bits: Bits)
    ensures Disjoint(Taken(t, width, bits), width)
    decreases |t|
  {
    hide Value, Left, Within, Meet, Takes;
    if t != [] {
      var left := Left(t[0], width, bits);
      var rest := Taken(t[1..], width, left);
      PrintedAreDisjoint(t[1..], width, left);
      PrintedAreWithin(t[1..], width, left);
      if Takes(t[0], width, bits) {
        forall j | 0 <= j < |rest|
          ensures Meet(Value(t[0], width), Value(rest[j], width)) == 0
        {
          assert rest[j] in rest;
          TakenIsApart(t[0], width, bits, rest[j]);
        }
      }
    }
  }

  /** Printing is maximal: no row is wholly contained in what remains. */
  lemma {:induction false} PrintingIsMaximal(t: Table, width: Width, bits: Bits, i: nat)
    requires i < |t| && Value(t[i], width) != 0
    ensures !Within(Value(t[i], width), Remainder(t, width, bits))
    decreases |t|
  {
    hide Value, Left, Within, Takes;
    var left := Left(t[0], width, bits);
    if i > 0 {
      PrintingIsMaximal(t[1..], width, left, i - 1);
    } else {
      FirstIsUsedUp(t[0], width, bits, Remainder(t[1..], width, left)) by {
        PrintedAreWithin(t[1..], width, left);
      }
    }
  }

  lemma FirstIsUsedUp(row: Row, width: Width, bits: Bits, rest: Bits)
    requires Value(row, width) != 0 && Within(rest, Left(row, width, bits))
    ensures !Within(Value(row, width), rest)
  {
    hide Value, Left, Within, Meet;
    var v, left := Value(row, width), Left(row, width, bits);
    if Within(v, rest) {
      WithinTrans(v, rest, left);
      LeftIsWithin(row, width, bits);
      WithinTrans(v, left, bits);
      TakesIf(row, width, bits);
      MeetSwaps(v, left);
      WithinIsDisjoint(v, left, v);
      WithinSelf(v);
    }
  }

  lemma TakesIf(row: Row, width: Width, bits: Bits)
    ensures Takes(row, width, bits) <==> Value(row, width) != 0 && Within(Value(row, width), bits)
  {
  }

  // ----- parsing is a tokenization -----

  /** The tokens are rows with keys, and there is a bar, or none, for each. */
  predicate AreRows(t: Table, tokens: seq<nat>, bars: seq<bool>) {
    |bars| == |tokens| && forall k :: 0 <= k < |tokens| ==> tokens[k] < |t| && t[tokens[k]].key.Some?
  }

  /** The keys of these rows one after the other, with a bar behind those where `bars` says so, and then
      `rest`. */
  function Glued(t: Table, tokens: seq<nat>, bars: seq<bool>, rest: string): string
    requires AreRows(t, tokens, bars)
    decreases |tokens|
  {
    if tokens == [] then rest
    else t[tokens[0]].key.value + (if bars[0] then "|" else "") + Glued(t, tokens[1..], bars[1..], rest)
  }

  /** Row `i` is the first to have a key that `s` begins with, and all rows before it have
      keys. */
  predicate NamesFirst(t: Table, i: nat, s: string) {
    && i < |t| && t[i].key.Some? && t[i].key.value <= s
    && forall j :: 0 <= j < i ==> t[j].key.Some? && !(t[j].key.value <= s)
  }

  /** The key of row `i` is the first to match, and behind it a bar is dropped exactly if there
      is one, and something behind it. */
  predicate IsCut(t: Table, i: nat, bar: bool, s: string) {
    && s != "" && NamesFirst(t, i, s)
    && var n := |t[i].key.value|; bar <==> |s| > n + 1 && s[n] == '|'
  }

  /** The leftmost first-match tokenization: `s` is the keys of the tokens one after the other
      and then `rest`, each cut off as it should be. */
  predicate IsTokenization(t: Table, s: string, tokens: seq<nat>, bars: seq<bool>, rest: string) {
    && AreRows(t, tokens, bars)
    && s == Glued(t, tokens, bars, rest)
    && forall k :: 0 <= k < |tokens| ==> IsCut(t, tokens[k], bars[k], Glued(t, tokens[k..], bars[k..], rest))
  }

  /** Nothing is left, or something that no key can be cut off. */
  predicate IsOver(t: Table, rest: string) {
    rest == "" || forall i :: 0 <= i < |t| ==> !NamesFirst(t, i, rest)
  }

  /** The bits of all the tokens. */
  function TokenBits(t: Table, width: Width, tokens: seq<nat>): Bits {
    if tokens == [] then 0
    else Join(if tokens[0] < |t| then Value(t[tokens[0]], width) else 0, TokenBits(t, width, tokens[1..]))
  }

  /** Where a token has been cut off, the rest is not longer. */
  lemma BehindIsShorter(s: string, n: nat)
    requires n <= |s|
    ensures |Behind(s, n)| <= |s| && (n > 0 ==> |Behind(s, n)| < |s|)
    ensures |Behind(s, n)| == |s| ==> Behind(s, n) == s
  {
  }

  lemma FoundIsFirst(t: Table, s: string)
    ensures Found(t, s) ==> NamesFirst(t, FirstMatch(t, s), s)
    ensures forall i: nat :: NamesFirst(t, i, s) ==> Found(t, s) && i == FirstMatch(t, s)
  {
    hide FirstMatch;
    forall i: nat | NamesFirst(t, i, s)
      ensures Found(t, s) && i == FirstMatch(t, s)
    {
      assert Matches(t[i], s) && forall j :: 0 <= j < i ==> !Matches(t[j], s);
    }
  }

  lemma GluedStep(t: Table, s: string, tokens: seq<nat>, bars: seq<bool>, rest: string)
    requires IsTokenization(t, s, tokens, bars, rest) && tokens != []
    ensures |bars| == |tokens| && s != "" && Found(t, s) && FirstMatch(t, s) == tokens[0]
    ensures Behind(s, |t[tokens[0]].key.value|) == Glued(t, tokens[1..], bars[1..], rest)
    ensures IsTokenization(t, Behind(s, |t[tokens[0]].key.value|), tokens[1..], bars[1..], rest)
  {
    hide FirstMatch;
    FoundIsFirst(t, s);
    assert tokens[0..] == tokens && bars[0..] == bars;
    assert IsCut(t, tokens[0], bars[0], s);
    var key, more := t[tokens[0]].key.value, Glued(t, tokens[1..], bars[1..], rest);
    assert s == key + (if bars[0] then "|" else "") + more;
    assert s[|key|..] == (if bars[0] then "|" else "") + more;
    forall k | 0 <= k < |tokens[1..]|
      ensures tokens[1..][k] == tokens[k + 1] && tokens[1..][k..] == tokens[k + 1..] && bars[1..][k..] == bars[k + 1..]
    {
    }
  }

  lemma {:induction false} TokenizationIsParsed(t: Table, width: Width, s: string, value: Bits,
                                               tokens: seq<nat>, bars: seq<bool>, rest: string)
    requires IsTokenization(t, s, tokens, bars, rest) && IsOver(t, rest)
    ensures ParseOptions(t, width, s, value) == Parse(rest == "", Join(value, TokenBits(t, width, tokens)))
    decreases |tokens|
  {
    hide Value, Join, Behind, IsTokenization;
    if tokens == [] {
      JoinLaws(value, 0, 0);
      OverIsParsed(t, width, s, value, bars, rest);
    } else {
      GluedStep(t, s, tokens, bars, rest);
      var v, n := Value(t[tokens[0]], width), |t[tokens[0]].key.value|;
      var left := Behind(s, n);
      TokenizationIsParsed(t, width, left, Join(value, v), tokens[1..], bars[1..], rest);
      JoinLaws(value, v, TokenBits(t, width, tokens[1..]));
      BehindIsShorter(s, n);
      if |left| == |s| {
        ForEverIsNoTokenization(t, s, tokens, bars, rest);
      }
    }
  }

  lemma OverIsParsed(t: Table, width: Width, s: string, value: Bits, bars: seq<bool>, rest: string)
    requires IsTokenization(t, s, [], bars, rest) && IsOver(t, rest)
    ensures ParseOptions(t, width, s, value) == Parse(rest == "", value)
  {
    hide Value, Join;
    FoundIsFirst(t, s);
  }

  /** A string that stays the same when its key is cut off is never used up. */
  lemma {:induction false} ForEverIsNoTokenization(t: Table, s: string, tokens: seq<nat>, bars: seq<bool>, rest: string)
    requires IsTokenization(t, s, tokens, bars, rest) && IsOver(t, rest)
    requires s != "" && Found(t, s) && Behind(s, |t[FirstMatch(t, s)].key.value|) == s
    ensures false
    decreases |tokens|
  {
    hide Behind, FirstMatch;
    FoundIsFirst(t, s);
    if tokens != [] {
      GluedStep(t, s, tokens, bars, rest);
      ForEverIsNoTokenization(t, s, tokens[1..], bars[1..], rest);
    }
  }

  lemma BehindSplits(s: string, key: string)
    requires key <= s
    ensures var bar := |key| + 1 < |s| && s[|key|] == '|';
      s == key + (if bar then "|" else "") + Behind(s, |key|)
  {
  }

  lemma GluedCons(t: Table, i: nat, bar: bool, tokens: seq<nat>, bars: seq<bool>, rest: string)
    requires i < |t| && t[i].key.Some?
    requires AreRows(t, tokens, bars)
    ensures AreRows(t, [i] + tokens, [bar] + bars)
    ensures Glued(t, [i] + tokens, [bar] + bars, rest)
         == t[i].key.value + (if bar then "|" else "") + Glued(t, tokens, bars, rest)
  {
    assert ([i] + tokens)[1..] == tokens && ([bar] + bars)[1..] == bars;
  }

  lemma ConsDrops<T>(x: T, s: seq<T>)
    ensures ([x] + s)[0..] == [x] + s
    ensures forall k :: 1 <= k <= |s| ==> ([x] + s)[k] == s[k - 1] && ([x] + s)[k..] == s[k - 1..]
  {
  }

  lemma GluedGrows(t: Table, s: string, i: nat, bar: bool, tokens: seq<nat>, bars: seq<bool>, rest: string)
    requires IsCut(t, i, bar, s) && IsTokenization(t, Behind(s, |t[i].key.value|), tokens, bars, rest)
    ensures IsTokenization(t, s, [i] + tokens, [bar] + bars, rest)
  {
    CutSplits(t, i, bar, s);
    GluedCons(t, i, bar, tokens, bars, rest);
    ConsDrops(i, tokens);
    ConsDrops(bar, bars);
    hide Behind, NamesFirst, IsCut, Glued, AreRows;
    var more, moreBars := [i] + tokens, [bar] + bars;
    forall k | 0 <= k < |more|
      ensures AreRows(t, more[k..], moreBars[k..])
      ensures IsCut(t, more[k], moreBars[k], Glued(t, more[k..], moreBars[k..], rest))
    {
      if k > 0 {
        LaterAreRows(t, tokens, bars, k - 1);
        assert more[k..] == tokens[k - 1..] && moreBars[k..] == bars[k - 1..];
      }
    }
    SizesAgree(t, more, moreBars);
  }

  lemma SizesAgree(t: Table, tokens: seq<nat>, bars: seq<bool>)
    requires AreRows(t, tokens, bars)
    ensures |tokens| == |bars|
  {
  }

  lemma LaterAreRows(t: Table, tokens: seq<nat>, bars: seq<bool>, k: nat)
    requires AreRows(t, tokens, bars) && k <= |tokens|
    ensures AreRows(t, tokens[k..], bars[k..])
  {
  }

  lemma CutSplits(t: Table, i: nat, bar: bool, s: string)
    requires IsCut(t, i, bar, s)
    ensures i < |t| && t[i].key.Some? && |t[i].key.value| <= |s|
    ensures s == t[i].key.value + (if bar then "|" else "") + Behind(s, |t[i].key.value|)
  {
    BehindSplits(s, t[i].key.value);
  }

  lemma {:induction false} ParsedIsTokenized(t: Table, width: Width, s: string, value: Bits)
      returns (tokens: seq<nat>, bars: seq<bool>, rest: string)
    requires ParseOptions(t, width, s, value).Parse?
    ensures IsTokenization(t, s, tokens, bars, rest) && IsOver(t, rest)
    decreases |s|
  {
    hide Value, Join, Behind, FirstMatch;
    FoundIsFirst(t, s);
    if s == "" || !Found(t, s) {
      tokens, bars, rest := [], [], s;
    } else {
      var i := FirstMatch(t, s);
      var n := |t[i].key.value|;
      var bar := n + 1 < |s| && s[n] == '|';
      BehindIsShorter(s, n);
      hide IsTokenization, IsOver;
      tokens, bars, rest := ParsedIsTokenized(t, width, Behind(s, n), Join(value, Value(t[i], width)));
      GluedGrows(t, s, i, bar, tokens, bars, rest);
      tokens, bars := [i] + tokens, [bar] + bars;
    }
  }

  /** Strict parsing cuts keys off the string until nothing is left, which is success, or until
      no key matches. It returns the bits of all that were cut off. Every string on which it
      ends at all can be cut up like that. */
  lemma ParsingIsTokenizing(t: Table, width: Width, s: string)
    ensures ParseOptions(t, width, s, 0).Parse?
       <==> exists tokens, bars, rest :: IsTokenization(t, s, tokens, bars, rest) && IsOver(t, rest)
    ensures forall tokens, bars, rest :: IsTokenization(t, s, tokens, bars, rest) && IsOver(t, rest) ==>
      ParseOptions(t, width, s, 0) == Parse(rest == "", TokenBits(t, width, tokens))
  {
    hide IsTokenization, ParseOptions, TokenBits, IsOver, Join;
    forall tokens, bars, rest | IsTokenization(t, s, tokens, bars, rest) && IsOver(t, rest)
      ensures ParseOptions(t, width, s, 0) == Parse(rest == "", TokenBits(t, width, tokens))
    {
      TokenizationIsParsed(t, width, s, 0, tokens, bars, rest);
      JoinLaws(0, TokenBits(t, width, tokens), 0);
      JoinLaws(TokenBits(t, width, tokens), 0, 0);
    }
    if ParseOptions(t, width, s, 0).Parse? {
      var tokens, bars, rest := ParsedIsTokenized(t, width, s, 0);
    }
  }

  predicate NonEmptyKeys(t: Table) {
    forall i :: 0 <= i < |t| ==> t[i].key != Some("")
  }

  /** Without empty keys parsing ends on every string. */
  lemma {:induction false} NonEmptyKeysEnd(t: Table, width: Width, s: string, value: Bits)
    requires NonEmptyKeys(t)
    ensures ParseOptions(t, width, s, value).Parse?
    decreases |s|
  {
    hide Value, Join, Behind;
    if s != "" && Found(t, s) {
      var row := t[FirstMatch(t, s)];
      BehindIsShorter(s, |row.key.value|);
      NonEmptyKeysEnd(t, width, Behind(s, |row.key.value|), Join(value, Value(row, width)));
    }
  }
}
