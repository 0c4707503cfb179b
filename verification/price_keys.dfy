/** Matching of property names against the price vocabulary, as the rewriter does it:
    lower-case the name, then ask whether any vocabulary word is a substring of it. */
module PriceKeys {

  /** The vocabulary, in the order the source lists it. */
  const PriceWords: seq<string> := ["price", "cost", "unlock", "gold", "coins"]

  predicate IsUpper(c: char) {
    'A' <= c <= 'Z'
  }

  predicate IsDigit(c: char) {
    '0' <= c <= '9'
  }

  /** ASCII lower-casing of one character. */
  function LowerChar(c: char): (r: char)
    ensures !IsUpper(r)
    ensures IsUpper(c) ==> r as int == c as int + 32
    ensures !IsUpper(c) ==> r == c
  {
    if IsUpper(c) then (c as int + 32) as char else c
  }

  /** `toLowerCase`, restricted to the ASCII letters. */
  function Lower(s: string): (r: string)
    ensures |r| == |s|
    ensures forall i :: 0 <= i < |r| ==> !IsUpper(r[i])
    ensures forall i :: 0 <= i < |s| && !IsUpper(s[i]) ==> r[i] == s[i]
    ensures forall i :: 0 <= i < |s| && IsUpper(s[i]) ==> r[i] as int == s[i] as int + 32
  {
    seq(|s|, i requires 0 <= i < |s| => LowerChar(s[i]))
  }

  /** `w` occurs in `s` starting at position `i`. */
  predicate OccursAt(s: string, w: string, i: int) {
    0 <= i && i + |w| <= |s| && s[i..i + |w|] == w
  }

  /** `s.includes(w)` */
  predicate Contains(s: string, w: string) {
    exists i :: 0 <= i <= |s| && OccursAt(s, w, i)
  }

  /** `priceKeys.some(pk => k.toLowerCase().includes(pk))` */
  predicate IsPriceKey(k: string) {
    exists n :: 0 <= n < |PriceWords| && Contains(Lower(k), PriceWords[n])
  }

  /** The property name `for..in` hands out for array position `i`: its decimal numeral. */
  function DecimalKey(i: nat): (r: string)
    ensures |r| > 0
    ensures forall j :: 0 <= j < |r| ==> IsDigit(r[j])
  {
    var d := ['0' + (i % 10) as char];
    if i < 10 then d else DecimalKey(i / 10) + d
  }

  /** `w` cannot occur where the character of `s` differs from the first letter of `w`. */
  lemma MissingFirstLetter(s: string, w: string)
    requires |w| > 0
    requires forall j :: 0 <= j && j + |w| <= |s| ==> s[j] != w[0]
    ensures !Contains(s, w)
  {
    forall i | 0 <= i <= |s| && i + |w| <= |s|
      ensures !OccursAt(s, w, i)
    {
      assert s[i..i + |w|][0] == s[i];
    }
  }

  /** Every vocabulary word starts with a lower-case letter. */
  lemma PriceWordsStartWithLetter(n: int)
    requires 0 <= n < |PriceWords|
    ensures |PriceWords[n]| > 0 && 'a' <= PriceWords[n][0] <= 'z'
  {
  }

  /** Array index keys never match the vocabulary, so numbers held directly in an array
      are never rewritten. */
  lemma DecimalKeyIsNotPriceKey(i: nat)
    ensures !IsPriceKey(DecimalKey(i))
  {
    var s := DecimalKey(i);
    forall n | 0 <= n < |PriceWords|
      ensures !Contains(Lower(s), PriceWords[n])
    {
      PriceWordsStartWithLetter(n);
      MissingFirstLetter(Lower(s), PriceWords[n]);
    }
  }

  /** Lower-casing a lower-cased string changes nothing. */
  lemma LowerIdempotent(s: string)
    ensures Lower(Lower(s)) == Lower(s)
  {
  }

  /** Matching ignores ASCII case: a name matches exactly when its lower-cased form does. */
  lemma IsPriceKeyIgnoresCase(k: string)
    ensures IsPriceKey(Lower(k)) <==> IsPriceKey(k)
  {
    LowerIdempotent(k);
  }

  /** Distinct array positions get distinct names. */
  lemma {:induction false} DecimalKeyInjective(i: nat, j: nat)
    requires DecimalKey(i) == DecimalKey(j)
    ensures i == j
    decreases i
  {
    var a, b := DecimalKey(i), DecimalKey(j);
    assert a[|a| - 1] == '0' + (i % 10) as char;
    assert b[|b| - 1] == '0' + (j % 10) as char;
    if i >= 10 && j >= 10 {
      assert a[..|a| - 1] == DecimalKey(i / 10);
      assert b[..|b| - 1] == DecimalKey(j / 10);
      DecimalKeyInjective(i / 10, j / 10);
    }
  }

  /** The vocabulary matches anywhere inside a name and in any letter case. */
  lemma MatchingExamples()
    ensures IsPriceKey("Gold_Cost")
    ensures IsPriceKey("goldCost")
    ensures IsPriceKey("unlockCost")
    ensures IsPriceKey("coins")
    ensures !IsPriceKey("metadata")
    ensures !IsPriceKey("volume")
    ensures !IsPriceKey("name")
  {
    assert OccursAt(Lower("Gold_Cost"), PriceWords[3], 0);
    assert OccursAt(Lower("goldCost"), PriceWords[3], 0);
    assert OccursAt(Lower("unlockCost"), PriceWords[2], 0);
    assert OccursAt(Lower("coins"), PriceWords[4], 0);
    NoPriceLetters("metadata");
    NoPriceLetters("volume");
    NoPriceLetters("name");
  }

  /** A name in which no vocabulary word can start (no room, or the wrong letter) cannot match. */
  lemma NoPriceLetters(k: string)
    requires forall n, j :: 0 <= n < |PriceWords| && 0 <= j && j + |PriceWords[n]| <= |k| ==>
               LowerChar(k[j]) != PriceWords[n][0]
    ensures !IsPriceKey(k)
  {
    forall n | 0 <= n < |PriceWords|
      ensures !Contains(Lower(k), PriceWords[n])
    {
      MissingFirstLetter(Lower(k), PriceWords[n]);
    }
  }
}
