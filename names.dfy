/*
 * Names of the statics the pass creates: `lifted#` followed by the decimal
 * form of the static's index in its module's pending list.
 */
module Names {

  predicate IsDigit(c: char) {
    '0' <= c <= '9'
  }

  predicate AllDigits(s: string) {
    forall i :: 0 <= i < |s| ==> IsDigit(s[i])
  }

  function DigitChar(d: nat): (c: char)
    requires d < 10
    ensures IsDigit(c) && c as int - '0' as int == d
  {
    ('0' as int + d) as char
  }

  /** The decimal form of `n`, most significant digit first. */
  function Decimal(n: nat): (s: string)
    ensures |s| > 0 && AllDigits(s)
    decreases n
  {
    if n < 10 then [DigitChar(n)] else Decimal(n / 10) + [DigitChar(n % 10)]
  }

  /** Reads a run of decimal digits back as a number. */
  function ParseDecimal(s: string): nat
    requires AllDigits(s)
    decreases |s|
  {
    if s == [] then 0
    else ParseDecimal(s[..|s| - 1]) * 10 + (s[|s| - 1] as int - '0' as int)
  }

  lemma {:induction false} DecimalRoundTrip(n: nat)
    ensures ParseDecimal(Decimal(n)) == n
    decreases n
  {
    if n >= 10 {
      var s := Decimal(n);
      assert s[..|s| - 1] == Decimal(n / 10);
      DecimalRoundTrip(n / 10);
    }
  }

  lemma {:induction false} DecimalInjective(a: nat, b: nat)
    ensures Decimal(a) == Decimal(b) <==> a == b
  {
    DecimalRoundTrip(a);
    DecimalRoundTrip(b);
  }

  const LiftedPrefix: string := "lifted#"

  /** The name of the static with index `idx` in its module. */
  function LiftedName(idx: nat): (s: string)
    ensures |s| > |LiftedPrefix| && s[..|LiftedPrefix|] == LiftedPrefix
    ensures AllDigits(s[|LiftedPrefix|..])
  {
    LiftedPrefix + Decimal(idx)
  }

  /** The index written in a lifted name. */
  function LiftedIndex(s: string): nat
    requires |s| >= |LiftedPrefix| && AllDigits(s[|LiftedPrefix|..])
  {
    ParseDecimal(s[|LiftedPrefix|..])
  }

  lemma {:induction false} LiftedNameRoundTrip(idx: nat)
    ensures LiftedIndex(LiftedName(idx)) == idx
  {
    assert LiftedName(idx)[|LiftedPrefix|..] == Decimal(idx);
    DecimalRoundTrip(idx);
  }

  /** Two statics get the same name exactly when they have the same index. */
  lemma {:induction false} LiftedNameInjective(i: nat, j: nat)
    ensures LiftedName(i) == LiftedName(j) <==> i == j
  {
    LiftedNameRoundTrip(i);
    LiftedNameRoundTrip(j);
  }
}
