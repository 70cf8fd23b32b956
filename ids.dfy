/**
 * Object ids (`unique_id`, simple_inkscape_scripting.py:65-70) and the
 * `url(#id)` reference form that every handle converts to.
 */
module Ids {

  predicate IsDigit(c: char)
  {
    '0' <= c <= '9'
  }

  function DigitChar(d: nat): (c: char)
    requires d < 10
    ensures IsDigit(c)
  {
    ('0' as int + d) as char
  }

  function DigitValue(c: char): nat
    requires IsDigit(c)
  {
    c as int - '0' as int
  }

  /** `'%d' % n`: the decimal numeral of `n`, without leading zeros. */
  function Decimal(n: nat): (s: string)
    ensures |s| >= 1
    ensures forall i :: 0 <= i < |s| ==> IsDigit(s[i])
    ensures s[0] == '0' ==> n == 0
  {
    if n < 10 then [DigitChar(n)] else Decimal(n / 10) + [DigitChar(n % 10)]
  }

  /** `int(s)` for a string of decimal digits. */
  function ParseDecimal(s: string): nat
    requires forall i :: 0 <= i < |s| ==> IsDigit(s[i])
  {
    if s == [] then 0 else ParseDecimal(s[..|s| - 1]) * 10 + DigitValue(s[|s| - 1])
  }

  /** Reading a numeral back gives the number that was written. */
  lemma {:induction false} ParseDecimalInverse(n: nat)
    ensures ParseDecimal(Decimal(n)) == n
  {
    var s := Decimal(n);
    if n >= 10 {
      ParseDecimalInverse(n / 10);
      assert s[..|s| - 1] == Decimal(n / 10);
    }
  }

  /** Distinct numbers have distinct numerals. */
  lemma DecimalInjective(m: nat, n: nat)
    requires Decimal(m) == Decimal(n)
    ensures m == n
  {
    ParseDecimalInverse(m);
    ParseDecimalInverse(n);
  }

  /** `'%s%d' % (_id_prefix, counter)`: the id issued for one counter value. */
  function IdOf(prefix: string, counter: nat): (id: string)
    ensures |id| > |prefix| && id[..|prefix|] == prefix
  {
    prefix + Decimal(counter)
  }

  /** The numeric suffix after the run prefix is the counter the id was made from. */
  lemma IdSuffix(prefix: string, counter: nat)
    ensures |IdOf(prefix, counter)| > |prefix|
    ensures IdOf(prefix, counter)[..|prefix|] == prefix
    ensures IdOf(prefix, counter)[|prefix|..] == Decimal(counter)
    ensures ParseDecimal(IdOf(prefix, counter)[|prefix|..]) == counter
  {
    ParseDecimalInverse(counter);
  }

  /** Ids made from different counter values under one prefix never collide. */
  lemma IdsDistinct(prefix: string, m: nat, n: nat)
    requires m != n
    ensures IdOf(prefix, m) != IdOf(prefix, n)
  {
    if IdOf(prefix, m) == IdOf(prefix, n) {
      IdSuffix(prefix, m);
      IdSuffix(prefix, n);
      DecimalInjective(m, n);
    }
  }

  /** `'url(#%s)' % id`: the string form of every handle (lines 103-107, 204-205, 283-284). */
  function Url(id: string): (u: string)
    ensures |u| == |id| + 6 && u[..5] == "url(#" && u[|u| - 1] == ')'
    ensures u[5..|u| - 1] == id
  {
    "url(#" + id + ")"
  }

  /** Python's `s[5:-1]` for a string of any length. */
  function StripUrl(s: string): (name: string)
    ensures |s| >= 6 ==> name == s[5..|s| - 1]
    ensures |s| < 7 ==> name == ""
  {
    var start := if |s| < 5 then |s| else 5;
    var end := if |s| < 1 then 0 else |s| - 1;
    if start < end then s[start..end] else ""
  }

  /** Stripping `url(#` and `)` recovers the id a handle was printed from. */
  lemma StripUrlInverse(id: string)
    ensures StripUrl(Url(id)) == id
  {
    var s := Url(id);
    assert |s| == |id| + 6;
    assert s[5..|s| - 1] == id;
  }
}
