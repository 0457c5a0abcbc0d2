/** Decimal text of unsigned integers, as printed by `{}` and read by `str::parse::<u64>`. */
module Decimal {
  import opened Collections
  import opened Numbers

  function Digit(d: nat): char
    requires d < 10
  {
    '0' + d as char
  }

  predicate IsDigit(c: char)
  {
    '0' <= c <= '9'
  }

  function Print(n: nat): string
  {
    if n < 10 then [Digit(n)] else Print(n / 10) + [Digit(n % 10)]
  }

  /** The value of a run of digits. */
  function Value(s: string): nat
    requires forall i :: 0 <= i < |s| ==> IsDigit(s[i])
  {
    if s == "" then 0
    else
      var last := s[|s| - 1];
      assert IsDigit(last);
      10 * Value(s[..|s| - 1]) + (last as int - '0' as int)
  }

  /** `str::parse::<u64>`: an optional `+`, then at least one digit, and no overflow. */
  function ParseU64(s: string): Option<nat>
  {
    ParseDigits(if s != "" && s[0] == '+' then s[1..] else s)
  }

  function ParseDigits(body: string): Option<nat>
  {
    if body == "" || exists i :: 0 <= i < |body| && !IsDigit(body[i]) then None
    else if Value(body) < U64_LIMIT then Some(Value(body))
    else None
  }

  lemma {:induction false} PrintValue(n: nat)
    ensures Print(n) != "" && forall i :: 0 <= i < |Print(n)| ==> IsDigit(Print(n)[i])
    ensures Value(Print(n)) == n
  {
    if n >= 10 {
      PrintValue(n / 10);
      assert Print(n)[..|Print(n)| - 1] == Print(n / 10);
    }
  }

  lemma {:induction false} ParseInvertsPrint(n: nat)
    requires n < U64_LIMIT
    ensures ParseU64(Print(n)) == Some(n)
  {
    PrintValue(n);
    assert IsDigit(Print(n)[0]);
  }

  /** A number in front of which a `+` stands is read as well; one that does not fit is not. */
  lemma {:induction false} ParseIsGuarded(n: nat)
    ensures ParseU64("+" + Print(n)) == ParseU64(Print(n)) == if n < U64_LIMIT then Some(n) else None
  {
    PrintValue(n);
    assert IsDigit(Print(n)[0]);
    assert ("+" + Print(n))[1..] == Print(n);
  }

  /** What is read has digits, and nothing else, but for a leading `+`. */
  lemma ParsedIsDigits(s: string, i: nat)
    requires ParseU64(s).Some? && i < |s|
    ensures IsDigit(s[i]) || (i == 0 && s[i] == '+' && |s| > 1)
  {
    var body := if s[0] == '+' then s[1..] else s;
    if s[0] == '+' && i > 0 {
      assert body[i - 1] == s[i];
    } else if s[0] != '+' {
      assert body[i] == s[i];
    }
  }

  lemma {:induction false} PrintInjective(m: nat, n: nat)
    requires Print(m) == Print(n)
    ensures m == n
  {
    PrintValue(m);
    PrintValue(n);
  }
}
