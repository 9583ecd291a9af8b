/** The few JavaScript string operations the client relies on: `includes`,
    `toLowerCase` and the decimal text of an integer inside a template literal. */
module Text {

  /** needle sits in hay starting at position i. */
  predicate OccursAt(hay: string, needle: string, i: int) {
    0 <= i <= |hay| - |needle| && hay[i..i + |needle|] == needle
  }

  /** `hay.includes(needle)`: needle occurs in hay at some position. */
  predicate Includes(hay: string, needle: string) {
    exists i :: 0 <= i <= |hay| - |needle| && OccursAt(hay, needle, i)
  }

  /** Every text includes itself; a text includes nothing longer than itself. */
  lemma IncludesBounds(hay: string, needle: string)
    ensures Includes(hay, hay)
    ensures |needle| > |hay| ==> !Includes(hay, needle)
  {
    assert OccursAt(hay, hay, 0);
  }

  /** A text includes a piece of it, wherever that piece sits. */
  lemma IncludesConcat(before: string, needle: string, after: string)
    ensures Includes(before + needle + after, needle)
  {
    var hay := before + needle + after;
    assert hay[|before|..|before| + |needle|] == needle;
    assert OccursAt(hay, needle, |before|);
  }

  /** A text that lacks the first character of needle does not include needle. */
  lemma MissingFirstChar(hay: string, needle: string)
    requires |needle| > 0
    requires forall i :: 0 <= i < |hay| ==> hay[i] != needle[0]
    ensures !Includes(hay, needle)
  {
    forall i | 0 <= i <= |hay| - |needle| ensures !OccursAt(hay, needle, i) {
      assert hay[i..i + |needle|][0] == hay[i];
    }
  }

  /** `toLowerCase` on one character, for the letters A to Z. */
  function LowerChar(c: char): char {
    if 'A' <= c <= 'Z' then (c as int + 32) as char else c
  }

  /** `toLowerCase` with the case mapping of the letters A to Z. */
  function ToLower(s: string): (r: string)
    ensures |r| == |s|
    ensures forall i :: 0 <= i < |s| ==> r[i] == LowerChar(s[i])
  {
    if s == [] then [] else [LowerChar(s[0])] + ToLower(s[1..])
  }

  /** A lowered text holds no letter A to Z, lowering it again changes nothing, and
      lowering changes exactly its capital letters, each into its small letter. */
  lemma ToLowerIdempotent(s: string)
    ensures forall i :: 0 <= i < |s| ==> !('A' <= ToLower(s)[i] <= 'Z')
    ensures ToLower(ToLower(s)) == ToLower(s)
    ensures forall i :: 0 <= i < |s| ==>
      (ToLower(s)[i] != s[i] <==> 'A' <= s[i] <= 'Z') &&
      ('A' <= s[i] <= 'Z' ==> 'a' <= ToLower(s)[i] <= 'z')
  {
  }

  /** The decimal digit for 0 to 9. */
  function DigitChar(d: int): char
    requires 0 <= d < 10
  {
    ('0' as int + d) as char
  }

  /** The decimal text of a non-negative integer, without leading zeros. */
  function NatToDecimal(n: nat): (s: string)
    ensures |s| >= 1
    ensures forall i :: 0 <= i < |s| ==> '0' <= s[i] <= '9'
    ensures s[0] == '0' ==> n == 0
    decreases n
  {
    if n < 10 then [DigitChar(n)] else NatToDecimal(n / 10) + [DigitChar(n % 10)]
  }

  /** `${n}` for an integral number: a minus sign for a negative value, then digits. */
  function IntToDecimal(n: int): (s: string)
    ensures |s| >= 1
    ensures (s[0] == '-') == (n < 0)
  {
    if n < 0 then "-" + NatToDecimal(-n) else NatToDecimal(n)
  }

  /** The value of a non-empty run of decimal digits. */
  function DigitsValue(s: string): int
    requires forall i :: 0 <= i < |s| ==> '0' <= s[i] <= '9'
  {
    if s == [] then 0 else 10 * DigitsValue(s[..|s| - 1]) + (s[|s| - 1] as int - '0' as int)
  }

  /** The value a decimal text with an optional minus sign denotes. */
  function DecimalValue(s: string): int
    requires |s| >= 1
    requires s[0] == '-' || '0' <= s[0] <= '9'
    requires forall i :: 1 <= i < |s| ==> '0' <= s[i] <= '9'
  {
    if s[0] == '-' then -DigitsValue(s[1..]) else DigitsValue(s)
  }

  lemma {:induction false} NatToDecimalValue(n: nat)
    ensures DigitsValue(NatToDecimal(n)) == n
    decreases n
  {
    if n >= 10 {
      var s := NatToDecimal(n);
      NatToDecimalValue(n / 10);
      assert s[..|s| - 1] == NatToDecimal(n / 10);
    }
  }

  /** The decimal text of an integer denotes that integer, so distinct integers
      print differently. */
  lemma IntToDecimalValue(n: int)
    ensures DecimalValue(IntToDecimal(n)) == n
  {
    if n < 0 {
      assert IntToDecimal(n)[1..] == NatToDecimal(-n);
      NatToDecimalValue(-n);
    } else {
      NatToDecimalValue(n);
    }
  }
}
