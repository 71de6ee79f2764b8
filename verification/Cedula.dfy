/** The check digit of a cédula: the Luhn formula (ISO/IEC 7812-1, Annex B), first for prefixes of any length. */
module Cedula {

  predicate Digit(d: int) {
    0 <= d <= 9
  }

  predicate Digits(ds: seq<int>) {
    forall i :: 0 <= i < |ds| ==> Digit(ds[i])
  }

  /** Doubled, less nine when two digits come out. */
  function Doubled(d: int): int {
    if d * 2 > 9 then d * 2 - 9 else d * 2
  }

  function Term(d: int, i: nat): int {
    if i % 2 == 0 then Doubled(d) else d
  }

  function Sum(ds: seq<int>): int {
    if ds == [] then 0 else Sum(ds[..|ds| - 1]) + Term(ds[|ds| - 1], |ds| - 1)
  }

  function CheckDigit(sum: int): int {
    if sum % 10 == 0 then 0 else 10 - sum % 10
  }

  predicate Accepted(prefix: seq<int>, verifier: int) {
    CheckDigit(Sum(prefix)) == verifier
  }

  // ----- the formula -----

  lemma {:induction false} AcceptedIsCongruence(prefix: seq<int>, verifier: int)
    requires Digit(verifier)
    ensures Accepted(prefix, verifier) <==> (Sum(prefix) + verifier) % 10 == 0
  {
  }

  /** Every prefix has exactly one verifier. */
  lemma {:induction false} ExactlyOneVerifier(prefix: seq<int>)
    ensures Digit(CheckDigit(Sum(prefix)))
    ensures forall v :: Accepted(prefix, v) <==> v == CheckDigit(Sum(prefix))
    ensures (Sum(prefix) + CheckDigit(Sum(prefix))) % 10 == 0
  {
  }

  lemma {:induction false} SumAfterChange(ds: seq<int>, i: nat, x: int)
    requires i < |ds|
    ensures Sum(ds[i := x]) == Sum(ds) - Term(ds[i], i) + Term(x, i)
  {
    var n := |ds| - 1;
    if i == n {
      assert ds[i := x][..n] == ds[..n];
    } else {
      assert ds[i := x][..n] == ds[..n][i := x];
      SumAfterChange(ds[..n], i, x);
    }
  }

  /** Doubling permutes the digits. */
  lemma TermIsInjective(a: int, b: int, i: nat)
    requires Digit(a) && Digit(b) && a != b
    ensures Digit(Term(a, i)) && Digit(Term(b, i)) && Term(a, i) != Term(b, i)
  {
  }

  lemma ShiftedCongruence(a: int, delta: int)
    requires a % 10 == 0
    ensures (a + delta) % 10 == 0 <==> delta % 10 == 0
    ensures delta % 10 == 0 <==> (-delta) % 10 == 0
  {
    var q, p := a / 10, delta / 10;
    assert a == 10 * q && delta == 10 * p + delta % 10;
    assert (a + delta) / 10 == q + p;
    assert a + delta == 10 * (q + p) + delta % 10;
    assert -delta == 10 * (-p) - delta % 10;
  }

  /** A changed digit never goes unnoticed. */
  lemma {:induction false} ChangedDigitIsRejected(prefix: seq<int>, verifier: int, i: nat, x: int)
    requires Digits(prefix) && Digit(x) && Accepted(prefix, verifier)
    ensures i < |prefix| && x != prefix[i] ==> !Accepted(prefix[i := x], verifier)
    ensures x != verifier ==> !Accepted(prefix, x)
  {
    if i < |prefix| && x != prefix[i] {
      SumAfterChange(prefix, i, x);
      TermIsInjective(prefix[i], x, i);
      AcceptedIsCongruence(prefix, verifier);
      AcceptedIsCongruence(prefix[i := x], verifier);
      ShiftedCongruence(Sum(prefix) + verifier, Term(x, i) - Term(prefix[i], i));
    }
  }

  predicate ZeroNine(a: int, b: int) {
    (a == 0 && b == 9) || (a == 9 && b == 0)
  }

  /** Exchanging two digits, one of which is doubled, moves the sum by a multiple of ten only for 0 with 9. */
  lemma ExchangeMovesSum(a: int, b: int)
    requires Digit(a) && Digit(b)
    ensures (Doubled(a) + b - Doubled(b) - a) % 10 == 0 <==> a == b || ZeroNine(a, b)
  {
  }

  function Swap(ds: seq<int>, i: nat): seq<int>
    requires i + 1 < |ds|
  {
    ds[i := ds[i + 1]][i + 1 := ds[i]]
  }

  /** Exchanging two neighbours of an accepted prefix is noticed unless they are equal, or 0 and 9. */
  lemma {:induction false} SwappedDigitsExactly(prefix: seq<int>, verifier: int, i: nat)
    requires Digits(prefix) && Digit(verifier) && Accepted(prefix, verifier) && i + 1 < |prefix|
    ensures Accepted(Swap(prefix, i), verifier) <==> prefix[i] == prefix[i + 1] || ZeroNine(prefix[i], prefix[i + 1])
  {
    var a, b := prefix[i], prefix[i + 1];
    SumAfterChange(prefix, i, b);
    SumAfterChange(prefix[i := b], i + 1, a);
    AcceptedIsCongruence(prefix, verifier);
    AcceptedIsCongruence(Swap(prefix, i), verifier);
    ExchangeMovesSum(a, b);
    var moved := Doubled(a) + b - Doubled(b) - a;
    assert Sum(Swap(prefix, i)) == Sum(prefix) + if i % 2 == 0 then -moved else moved;
    ShiftedCongruence(Sum(prefix) + verifier, if i % 2 == 0 then -moved else moved);
  }

  /** Exchanging the last digit of the prefix with the verifier is noticed, with the same exception, only when that
      digit is a doubled one: an odd number of digits before the verifier. */
  lemma {:induction false} SwappedVerifierExactly(prefix: seq<int>, verifier: int)
    requires Digits(prefix) && Digit(verifier) && Accepted(prefix, verifier) && prefix != []
    ensures
      var n := |prefix| - 1;
      Accepted(prefix[n := verifier], prefix[n]) <==>
        prefix[n] == verifier || ZeroNine(prefix[n], verifier) || |prefix| % 2 == 0
  {
    var n := |prefix| - 1;
    SumAfterChange(prefix, n, verifier);
    AcceptedIsCongruence(prefix, verifier);
    AcceptedIsCongruence(prefix[n := verifier], prefix[n]);
    ExchangeMovesSum(prefix[n], verifier);
  }

  // ----- ten characters -----

  predicate TenDigits(s: string) {
    |s| == 10 && forall i :: 0 <= i < 10 ==> '0' <= s[i] <= '9'
  }

  function Value(c: char): int {
    c as int - '0' as int
  }

  function Values(s: string): (ds: seq<int>)
    ensures |ds| == |s|
  {
    seq(|s|, i requires 0 <= i < |s| => Value(s[i]))
  }

  predicate Province(s: string)
    requires |s| >= 2
  {
    1 <= 10 * Value(s[0]) + Value(s[1]) <= 24
  }

  predicate Valid(s: string) {
    TenDigits(s) && Province(s) && Accepted(Values(s)[..9], Values(s)[9])
  }

  method ValidateCedula(cedula: string) returns (ok: bool)
    ensures ok == Valid(cedula)
  {
    if !TenDigits(cedula) {
      return false;
    }
    var province := 10 * Value(cedula[0]) + Value(cedula[1]);
    if province < 1 || province > 24 {
      return false;
    }
    var digits := Values(cedula);
    var verifier := digits[9];
    var sum := 0;
    for i := 0 to 9
      invariant sum == Sum(digits[..i])
    {
      assert digits[..i + 1][..i] == digits[..i];
      var val := digits[i];
      if i % 2 == 0 {
        val := val * 2;
        if val > 9 {
          val := val - 9;
        }
      }
      sum := sum + val;
    }
    var check := if sum % 10 == 0 then 0 else 10 - sum % 10;
    return check == verifier;
  }

  function Exchanged(s: string, i: nat): string
    requires i + 1 < |s|
  {
    s[i := s[i + 1]][i + 1 := s[i]]
  }

  /** For a valid cédula: no other last digit is valid, no other single digit either, and exchanging two neighbours
      is valid again exactly when they are equal or 0 and 9, and the province is still one. */
  lemma ErrorsInCedula(s: string, i: nat, c: char)
    requires Valid(s) && i < 10 && '0' <= c <= '9'
    ensures c != s[i] ==> !Valid(s[i := c])
    ensures i < 9 ==>
              (Valid(Exchanged(s, i)) <==>
                 Province(Exchanged(s, i)) && (s[i] == s[i + 1] || ZeroNine(Value(s[i]), Value(s[i + 1]))))
  {
    var ds := Values(s);
    var prefix, verifier := ds[..9], ds[9];
    var changed := Values(s[i := c]);
    assert changed == ds[i := Value(c)];
    ChangedDigitIsRejected(prefix, verifier, i, Value(c));
    if i < 9 {
      assert changed[..9] == prefix[i := Value(c)] && changed[9] == verifier;
      ExchangeInCedula(s, i);
    } else {
      assert changed[..9] == prefix && changed[9] == Value(c);
    }
  }

  lemma ExchangeInCedula(s: string, i: nat)
    requires Valid(s) && i < 9
    ensures Valid(Exchanged(s, i)) <==>
              Province(Exchanged(s, i)) && (s[i] == s[i + 1] || ZeroNine(Value(s[i]), Value(s[i + 1])))
  {
    var ds := Values(s);
    var prefix, verifier := ds[..9], ds[9];
    var swapped := Values(Exchanged(s, i));
    assert swapped == ds[i := ds[i + 1]][i + 1 := ds[i]];
    if i < 8 {
      assert swapped[..9] == Swap(prefix, i) && swapped[9] == verifier;
      SwappedDigitsExactly(prefix, verifier, i);
    } else {
      assert swapped[..9] == prefix[8 := verifier] && swapped[9] == prefix[8];
      SwappedVerifierExactly(prefix, verifier);
    }
  }

  /** Every nine digits of a province have exactly one valid completion. */
  lemma ExactlyOneCompletion(nine: string)
    requires |nine| == 9 && (forall i :: 0 <= i < 9 ==> '0' <= nine[i] <= '9') && Province(nine)
    ensures exists c :: Valid(nine + [c]) && forall d :: Valid(nine + [d]) ==> d == c
  {
    var prefix := Values(nine);
    ExactlyOneVerifier(prefix);
    var c := (CheckDigit(Sum(prefix)) + '0' as int) as char;
    forall d | '0' <= d <= '9' ensures Valid(nine + [d]) <==> Accepted(prefix, Value(d)) {
      assert Values(nine + [d])[..9] == prefix && Values(nine + [d])[9] == Value(d);
    }
    assert Valid(nine + [c]);
    forall d | Valid(nine + [d]) ensures d == c {
      assert (nine + [d])[9] == d;
    }
  }
}
