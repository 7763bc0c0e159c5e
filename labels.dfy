/** How register_node resolves the label of a node:
    `name or func.__name__.replace("_", " ").title() or str(rank)`.
    Title-casing is modelled over ASCII letters: a letter is upper-cased when it
    starts the string or follows a non-letter, and lower-cased otherwise;
    every other character is left alone. */
module Labels {
  import opened Results

  predicate IsUpper(c: char) { 'A' <= c <= 'Z' }
  predicate IsLower(c: char) { 'a' <= c <= 'z' }
  predicate IsLetter(c: char) { IsUpper(c) || IsLower(c) }

  function ToUpper(c: char): (u: char)
    ensures IsLetter(c) ==> IsUpper(u)
    ensures !IsLower(c) ==> u == c
  {
    if IsLower(c) then (c as int - 32) as char else c
  }

  function ToLower(c: char): (l: char)
    ensures IsLetter(c) ==> IsLower(l)
    ensures !IsUpper(c) ==> l == c
  {
    if IsUpper(c) then (c as int + 32) as char else c
  }

  /** `s.replace("_", " ")` */
  function ReplaceUnderscores(s: string): (r: string)
    ensures |r| == |s|
    ensures forall i :: 0 <= i < |s| ==> r[i] == if s[i] == '_' then ' ' else s[i]
    ensures '_' !in r
  {
    if s == [] then []
    else [if s[0] == '_' then ' ' else s[0]] + ReplaceUnderscores(s[1..])
  }

  /** What `title()` puts at index i of s: the reference definition, position by position. */
  function TitleChar(s: string, i: nat): char
    requires i < |s|
  {
    if !IsLetter(s[i]) then s[i]
    else if i > 0 && IsLetter(s[i - 1]) then ToLower(s[i])
    else ToUpper(s[i])
  }

  /** `title()` as a left-to-right scan; prevCased says whether the character
      before s[0] was a letter. */
  function TitleFrom(s: string, prevCased: bool): string
  {
    if s == [] then []
    else
      var c := s[0];
      [if !IsLetter(c) then c else if prevCased then ToLower(c) else ToUpper(c)]
      + TitleFrom(s[1..], IsLetter(c))
  }

  function TitleCase(s: string): string
  {
    TitleFrom(s, false)
  }

  lemma {:induction false} TitleFromAt(s: string, prevCased: bool, i: nat)
    requires i < |s|
    ensures |TitleFrom(s, prevCased)| == |s|
    ensures TitleFrom(s, prevCased)[i] ==
      if !IsLetter(s[i]) then s[i]
      else if (if i == 0 then prevCased else IsLetter(s[i - 1])) then ToLower(s[i])
      else ToUpper(s[i])
  {
    if i == 0 {
      if |s| > 1 {
        TitleFromAt(s[1..], IsLetter(s[0]), 0);
      } else {
        assert s[1..] == [];
      }
    } else {
      TitleFromAt(s[1..], IsLetter(s[0]), i - 1);
      if i - 1 > 0 {
        assert s[1..][i - 2] == s[i - 1];
      }
    }
  }

  /** The scan agrees with the position-by-position definition everywhere. */
  lemma TitleCaseSpec(s: string)
    ensures |TitleCase(s)| == |s|
    ensures forall i :: 0 <= i < |s| ==> TitleCase(s)[i] == TitleChar(s, i)
  {
    if s == [] {
    } else {
      TitleFromAt(s, false, 0);
      forall i | 0 <= i < |s| ensures TitleCase(s)[i] == TitleChar(s, i) {
        TitleFromAt(s, false, i);
      }
    }
  }

  /** Title-casing a title-cased string changes nothing. */
  lemma TitleCaseIdempotent(s: string)
    ensures TitleCase(TitleCase(s)) == TitleCase(s)
  {
    var t := TitleCase(s);
    TitleCaseSpec(s);
    TitleCaseSpec(t);
    forall i | 0 <= i < |t| ensures TitleCase(t)[i] == t[i] {
      assert IsLetter(t[i]) == IsLetter(s[i]);
      if i > 0 {
        assert IsLetter(t[i - 1]) == IsLetter(s[i - 1]);
      }
    }
  }

  function DigitChar(d: nat): (c: char)
    requires d < 10
    ensures '0' <= c <= '9'
  {
    ('0' as int + d) as char
  }

  function DigitValue(c: char): nat
    requires '0' <= c <= '9'
  {
    c as int - '0' as int
  }

  predicate AllDigits(s: string)
  {
    forall i :: 0 <= i < |s| ==> '0' <= s[i] <= '9'
  }

  /** The decimal digits of n, most significant first, without leading zeros. */
  function NatToDecimal(n: nat): (s: string)
    ensures |s| >= 1 && AllDigits(s)
    ensures |s| > 1 ==> s[0] != '0'
    decreases n
  {
    if n < 10 then [DigitChar(n)]
    else NatToDecimal(n / 10) + [DigitChar(n % 10)]
  }

  /** Python's `str(rank)` for an int. */
  function IntToDecimal(i: int): (s: string)
    ensures s != []
  {
    if i < 0 then "-" + NatToDecimal(-i) else NatToDecimal(i)
  }

  function ParseNat(s: string): nat
    requires AllDigits(s)
  {
    if s == [] then 0
    else ParseNat(s[..|s| - 1]) * 10 + DigitValue(s[|s| - 1])
  }

  predicate IsDecimal(s: string)
  {
    || (|s| >= 2 && s[0] == '-' && AllDigits(s[1..]))
    || (|s| >= 1 && AllDigits(s))
  }

  /** The inverse of IntToDecimal: Python's `int(s)` on a decimal literal. */
  function ParseInt(s: string): int
    requires IsDecimal(s)
  {
    if s[0] == '-' then 0 - ParseNat(s[1..]) as int else ParseNat(s)
  }

  lemma {:induction false} NatToDecimalRoundTrip(n: nat)
    ensures ParseNat(NatToDecimal(n)) == n
    decreases n
  {
    var s := NatToDecimal(n);
    if n < 10 {
      assert s[..|s| - 1] == [];
    } else {
      NatToDecimalRoundTrip(n / 10);
      assert s[..|s| - 1] == NatToDecimal(n / 10);
    }
  }

  /** `str(rank)` spells rank: parsing it back gives rank. */
  lemma IntToDecimalRoundTrip(i: int)
    ensures IsDecimal(IntToDecimal(i))
    ensures ParseInt(IntToDecimal(i)) == i
  {
    var s := IntToDecimal(i);
    if i < 0 {
      assert s[1..] == NatToDecimal(-i);
      NatToDecimalRoundTrip(-i);
    } else {
      NatToDecimalRoundTrip(i);
    }
  }

  /** The label rule of register_node. An explicit non-empty name wins; then
      the function's name with underscores as spaces, title-cased; and only if
      that is empty, the decimal spelling of the rank. */
  function ResolveName(name: Option<string>, funcName: string, rank: int): (r: string)
    ensures r != []
    ensures name.Some? && name.value != [] ==> r == name.value
    ensures (name.None? || name.value == []) && funcName != [] ==>
      && |r| == |funcName|
      && '_' !in r
      && forall i :: 0 <= i < |r| ==> r[i] == TitleChar(ReplaceUnderscores(funcName), i)
    ensures (name.None? || name.value == []) && funcName == [] ==>
      IsDecimal(r) && ParseInt(r) == rank
  {
    if name.Some? && name.value != [] then name.value
    else
      var spaced := ReplaceUnderscores(funcName);
      TitleCaseSpec(spaced);
      var titled := TitleCase(spaced);
      if titled != [] then titled
      else
        IntToDecimalRoundTrip(rank);
        IntToDecimal(rank)
  }
}
