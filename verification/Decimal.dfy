/** Decimal text of unsigned integers, as the standard formatter writes and the standard parser reads it. */
module Decimal {
  import opened Wrappers

  const DIGITS := "0123456789"

  predicate IsDigit(c: char) {
    '0' <= c <= '9'
  }

  predicate AllDigits(s: string) {
    forall k :: 0 <= k < |s| ==> IsDigit(s[k])
  }

  function DigitValue(c: char): (d: nat)
    requires IsDigit(c)
    ensures d < 10 && DIGITS[d] == c
  {
    c as int - '0' as int
  }

  function Render(n: nat): (s: string)
    ensures s != "" && AllDigits(s)
  {
    if n < 10 then [DIGITS[n]] else Render(n / 10) + [DIGITS[n % 10]]
  }

  function Value(s: string): nat
    requires AllDigits(s)
  {
    if s == "" then 0 else Value(s[..|s| - 1]) * 10 + DigitValue(s[|s| - 1])
  }

  /** An optional plus sign and at least one digit; a number at or over the limit is refused. */
  function Parse(s: string, limit: nat): (r: Option<nat>)
    ensures r.Some? ==> r.value < limit
  {
    var digits := if s != "" && s[0] == '+' then s[1..] else s;
    if digits == "" || !AllDigits(digits) then None
    else if Value(digits) < limit then Some(Value(digits))
    else None
  }

  lemma {:induction false} ValueOfRender(n: nat)
    ensures Value(Render(n)) == n
  {
    if n >= 10 {
      ValueOfRender(n / 10);
      assert Render(n)[..|Render(n)| - 1] == Render(n / 10);
    }
  }

  lemma ParseAfterRender(n: nat, limit: nat)
    ensures Parse(Render(n), limit) == if n < limit then Some(n) else None
  {
    ValueOfRender(n);
  }

  predicate AllZeros(s: string) { forall k :: 0 <= k < |s| ==> s[k] == '0' }

  /** The text is an optional plus sign, any zeros, and the number. */
  predicate Spells(s: string, sign: string, zeros: string, n: nat) {
    (sign == "" || sign == "+") && AllZeros(zeros) && s == sign + (zeros + Render(n))
  }

  lemma OneMoreDigit(n: nat, v: nat)
    requires n > 0 && v < 10
    ensures Render(n * 10 + v) == Render(n) + [DIGITS[v]]
  {
    assert (n * 10 + v) / 10 == n && (n * 10 + v) % 10 == v;
  }

  lemma OneMoreSpelled(front: string, zeros: string, n: nat, v: nat) returns (more: string)
    requires AllZeros(zeros) && front == zeros + Render(n) && v < 10
    ensures AllZeros(more) && front + [DIGITS[v]] == more + Render(n * 10 + v)
  {
    if n == 0 {
      more := front;
    } else {
      more := zeros;
      OneMoreDigit(n, v);
    }
  }

  lemma {:induction false} DigitsSpell(s: string) returns (zeros: string)
    requires s != "" && AllDigits(s)
    ensures AllZeros(zeros) && s == zeros + Render(Value(s))
  {
    var front, v := s[..|s| - 1], DigitValue(s[|s| - 1]);
    assert s == front + [DIGITS[v]];
    if front == "" {
      return "";
    }
    var before := DigitsSpell(front);
    zeros := OneMoreSpelled(front, before, Value(front), v);
  }

  lemma {:induction false} ZerosAddNothing(zeros: string, s: string)
    requires AllZeros(zeros) && AllDigits(s)
    ensures AllDigits(zeros + s) && Value(zeros + s) == Value(s)
    decreases |zeros| + |s|
  {
    var all := zeros + s;
    if s != "" {
      ZerosAddNothing(zeros, s[..|s| - 1]);
      assert all[..|all| - 1] == zeros + s[..|s| - 1];
    } else if zeros != "" {
      ZerosAddNothing(zeros[..|zeros| - 1], s);
      assert all[..|all| - 1] == zeros[..|zeros| - 1] + s;
    }
  }

  lemma ReadIsSpelled(s: string, limit: nat, n: nat) returns (sign: string, zeros: string)
    requires Parse(s, limit) == Some(n)
    ensures n < limit && Spells(s, sign, zeros, n)
  {
    var digits := if s != "" && s[0] == '+' then s[1..] else s;
    sign := if s != "" && s[0] == '+' then "+" else "";
    assert AllDigits(digits) && digits != "" && Value(digits) == n;
    zeros := DigitsSpell(digits);
    assert digits == zeros + Render(n);
    assert s == sign + digits;
  }

  /** A text is read as `n` exactly when it spells `n`, and `n` is below the limit. */
  lemma ParseIff(s: string, limit: nat, n: nat)
    ensures Parse(s, limit) == Some(n) <==> n < limit && exists sign, zeros :: Spells(s, sign, zeros, n)
  {
    if Parse(s, limit) == Some(n) {
      var sign, zeros := ReadIsSpelled(s, limit, n);
    }
    if sign, zeros :| Spells(s, sign, zeros, n) {
      SpelledIsRead(s, sign, zeros, limit, n);
    }
  }

  lemma SpelledIsRead(s: string, sign: string, zeros: string, limit: nat, n: nat)
    requires Spells(s, sign, zeros, n)
    ensures Parse(s, limit) == if n < limit then Some(n) else None
  {
    var digits := zeros + Render(n);
    ZerosAddNothing(zeros, Render(n));
    ValueOfRender(n);
    assert IsDigit(digits[0]);
    if sign == "+" { assert s[1..] == digits && s[0] == '+'; } else { assert s == digits; }
  }
}
