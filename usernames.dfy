/**
 * `generateUsername` of backend/server.js: an adjective, a noun and a number
 * below 1000, each picked with `Math.floor(Math.random() * n)`. The random
 * draws are parameters here; the module also gives the parser that recovers
 * the three picks from a name.
 */
module Usernames {
  import opened Wrappers

  const Adjectives: seq<string> :=
    ["Swift", "Bright", "Cool", "Wild", "Smart", "Quick", "Bold", "Calm", "Wise", "Pure"]
  const Nouns: seq<string> :=
    ["Fox", "Eagle", "Tiger", "Wolf", "Bear", "Lion", "Hawk", "Owl", "Deer", "Cat"]
  const NumberBound: nat := 1000

  /** `Math.floor(r * n)` for a draw `r` of `Math.random()`, which lies in [0, 1). */
  function Draw(r: real, n: nat): (k: nat)
    requires 0.0 <= r < 1.0 && n > 0
    ensures k < n
  {
    var x := r * n as real;
    assert 0.0 <= x < n as real;
    x.Floor
  }

  /** The three picks a name is made of. */
  datatype NameParts = NameParts(adjective: nat, noun: nat, number: nat)

  predicate ValidParts(p: NameParts)
  {
    p.adjective < |Adjectives| && p.noun < |Nouns| && p.number < NumberBound
  }

  // ---- decimal numerals, as a template literal prints a non-negative integer ----

  predicate IsDigit(c: char) { '0' <= c <= '9' }

  function DigitChar(d: nat): (c: char)
    requires d < 10
    ensures IsDigit(c) && (c as int) - ('0' as int) == d
  {
    (('0' as int) + d) as char
  }

  /** The decimal form of `n`, with no leading zeros. */
  function DecimalString(n: nat): string
    decreases n
  {
    if n < 10 then [DigitChar(n)] else DecimalString(n / 10) + [DigitChar(n % 10)]
  }

  /** The value of a string of decimal digits. */
  function DigitsValue(s: string): nat
    requires forall i :: 0 <= i < |s| ==> IsDigit(s[i])
  {
    if s == [] then 0
    else
      var last := s[|s| - 1];
      assert IsDigit(last);
      DigitsValue(s[..|s| - 1]) * 10 + ((last as int) - ('0' as int))
  }

  /** Reads a decimal numeral without leading zeros; anything else is refused. */
  function ParseDecimal(s: string): Option<nat>
  {
    if s == [] || (|s| > 1 && s[0] == '0') then None
    else if forall i :: 0 <= i < |s| ==> IsDigit(s[i]) then Some(DigitsValue(s))
    else None
  }

  lemma {:induction false} DecimalStringShape(n: nat)
    ensures |DecimalString(n)| > 0
    ensures forall i :: 0 <= i < |DecimalString(n)| ==> IsDigit(DecimalString(n)[i])
    ensures n >= 10 ==> DecimalString(n)[0] != '0'
    ensures DigitsValue(DecimalString(n)) == n
    decreases n
  {
    if n >= 10 {
      DecimalStringShape(n / 10);
      var s := DecimalString(n);
      assert s[..|s| - 1] == DecimalString(n / 10);
    }
  }

  /** Printing a number and reading it back gives the number. */
  lemma DecimalRoundTrip(n: nat)
    ensures ParseDecimal(DecimalString(n)) == Some(n)
  {
    DecimalStringShape(n);
  }

  // ---- names ----

  /** `${adj}${noun}${num}`. */
  function ComposeName(p: NameParts): string
    requires ValidParts(p)
  {
    Adjectives[p.adjective] + Nouns[p.noun] + DecimalString(p.number)
  }

  /** The index of the first word in `words[k..]` that `s` starts with. */
  function FindPrefix(words: seq<string>, s: string, k: nat): (r: Option<nat>)
    requires k <= |words|
    ensures r.Some? ==> k <= r.value < |words| && words[r.value] <= s
    decreases |words| - k
  {
    if k == |words| then None
    else if words[k] <= s then Some(k)
    else FindPrefix(words, s, k + 1)
  }

  /** Splits a name back into its adjective, noun and number. */
  function ParseName(s: string): Option<NameParts>
  {
    match FindPrefix(Adjectives, s, 0)
    case None => None
    case Some(i) =>
      var rest := s[|Adjectives[i]|..];
      match FindPrefix(Nouns, rest, 0)
      case None => None
      case Some(j) =>
        match ParseDecimal(rest[|Nouns[j]|..])
        case None => None
        case Some(k) => if k < NumberBound then Some(NameParts(i, j, k)) else None
  }

  /** A string that `generateUsername` can produce. */
  ghost predicate IsUsername(s: string)
  {
    exists p :: ValidParts(p) && ComposeName(p) == s
  }

  /** No word of the list is a prefix of another. */
  predicate PrefixFree(words: seq<string>)
  {
    forall i, j :: 0 <= i < |words| && 0 <= j < |words| && i != j ==> !(words[i] <= words[j])
  }

  /** Every word has three letters at least, and no two words share their first three. */
  predicate DistinctHeads(words: seq<string>)
  {
    && (forall i :: 0 <= i < |words| ==> |words[i]| >= 3)
    && forall i, j :: 0 <= i < |words| && 0 <= j < |words| && i != j ==>
         words[i][0] != words[j][0] || words[i][1] != words[j][1] || words[i][2] != words[j][2]
  }

  lemma AdjectivesPrefixFree()
    ensures PrefixFree(Adjectives)
  {
    assert DistinctHeads(Adjectives);
  }

  lemma NounsPrefixFree()
    ensures PrefixFree(Nouns)
  {
    assert DistinctHeads(Nouns);
  }

  lemma {:induction false} FindPrefixOf(words: seq<string>, i: nat, t: string, k: nat)
    requires PrefixFree(words) && k <= i < |words|
    ensures FindPrefix(words, words[i] + t, k) == Some(i)
    decreases i - k
  {
    if k < i {
      FindPrefixOf(words, i, t, k + 1);
    }
  }

  /** A composed name parses back to its parts. */
  lemma ParseComposeName(p: NameParts)
    requires ValidParts(p)
    ensures ParseName(ComposeName(p)) == Some(p)
  {
    AdjectivesPrefixFree();
    NounsPrefixFree();
    var adj, noun, num := Adjectives[p.adjective], Nouns[p.noun], DecimalString(p.number);
    var s := ComposeName(p);
    assert s == adj + (noun + num);
    FindPrefixOf(Adjectives, p.adjective, noun + num, 0);
    assert s[|adj|..] == noun + num;
    FindPrefixOf(Nouns, p.noun, num, 0);
    assert (noun + num)[|noun|..] == num;
    DecimalRoundTrip(p.number);
  }

  lemma {:induction false} LeadingDigitPositive(s: string)
    requires |s| > 0 && s[0] != '0'
    requires forall i :: 0 <= i < |s| ==> IsDigit(s[i])
    ensures DigitsValue(s) >= 1
    decreases |s|
  {
    if |s| > 1 {
      LeadingDigitPositive(s[..|s| - 1]);
    }
  }

  /** A numeral the parser accepts is exactly how its value is printed. */
  lemma {:induction false} DecimalStringOfParse(s: string)
    requires ParseDecimal(s).Some?
    ensures DecimalString(ParseDecimal(s).value) == s
    decreases |s|
  {
    assert forall i :: 0 <= i < |s| ==> IsDigit(s[i]);
    var n := DigitsValue(s);
    if |s| > 1 {
      var init := s[..|s| - 1];
      assert init[0] == s[0];
      LeadingDigitPositive(init);
      assert n / 10 == DigitsValue(init) && n % 10 == (s[|s| - 1] as int) - ('0' as int);
      assert ParseDecimal(init) == Some(DigitsValue(init));
      DecimalStringOfParse(init);
      assert n >= 10;
      assert DigitChar(n % 10) == s[|s| - 1];
      assert s == init + [s[|s| - 1]];
    } else {
      assert s[..0] == [] && IsDigit(s[0]);
      assert n == DigitsValue(s[..0]) * 10 + ((s[0] as int) - ('0' as int));
      assert DigitChar(n) == s[0];
      assert s == [s[0]];
    }
  }

  /** The parser accepts exactly the names that can be generated. */
  lemma ParseNameSound(s: string)
    ensures ParseName(s).Some? ==> ValidParts(ParseName(s).value) && ComposeName(ParseName(s).value) == s
    ensures IsUsername(s) <==> ParseName(s).Some?
  {
    if ParseName(s).Some? {
      var p := ParseName(s).value;
      var adj := Adjectives[p.adjective];
      var rest := s[|adj|..];
      var noun := Nouns[p.noun];
      var digits := rest[|noun|..];
      DecimalStringOfParse(digits);
      assert rest == noun + digits;
      assert s == adj + rest;
    }
    if IsUsername(s) {
      var p :| ValidParts(p) && ComposeName(p) == s;
      ParseComposeName(p);
    }
  }

  /** Two different picks never give the same name. */
  lemma ComposeNameInjective(p: NameParts, q: NameParts)
    requires ValidParts(p) && ValidParts(q) && ComposeName(p) == ComposeName(q)
    ensures p == q
  {
    ParseComposeName(p);
    ParseComposeName(q);
  }

  /**
   * `generateUsername()` with the three `Math.random()` results passed in:
   * the name is one of the adjectives, then one of the nouns, then a number
   * below 1000 in decimal.
   */
  function GenerateUsername(r1: real, r2: real, r3: real): (name: string)
    requires 0.0 <= r1 < 1.0 && 0.0 <= r2 < 1.0 && 0.0 <= r3 < 1.0
    ensures IsUsername(name)
  {
    var p := NameParts(Draw(r1, |Adjectives|), Draw(r2, |Nouns|), Draw(r3, NumberBound));
    assert ValidParts(p);
    ComposeName(p)
  }

  /** A generated name records exactly the three picks the draws made. */
  lemma GeneratedNameRecordsDraws(r1: real, r2: real, r3: real)
    requires 0.0 <= r1 < 1.0 && 0.0 <= r2 < 1.0 && 0.0 <= r3 < 1.0
    ensures ParseName(GenerateUsername(r1, r2, r3))
         == Some(NameParts(Draw(r1, |Adjectives|), Draw(r2, |Nouns|), Draw(r3, NumberBound)))
  {
    ParseComposeName(NameParts(Draw(r1, |Adjectives|), Draw(r2, |Nouns|), Draw(r3, NumberBound)));
  }
}
