/** Scanning and decimal helpers over strings. */
module Text {

  /** The first position of `c` in `s`, or `|s|` when there is none. */
  function IndexOf(s: string, c: char): (i: nat)
    ensures i <= |s| && c !in s[..i] && (i < |s| ==> s[i] == c)
  {
    if s == "" then 0
    else if s[0] == c then 0
    else
      var i := IndexOf(s[1..], c);
      assert s[..i + 1] == [s[0]] + s[1..][..i];
      i + 1
  }

  /** The first `c` ends any `c`-free prefix it follows. */
  lemma IndexOfAt(x: string, c: char, rest: string)
    requires c !in x && (rest == "" || rest[0] == c)
    ensures IndexOf(x + rest, c) == |x|
  {
    var s := x + rest;
    var i := IndexOf(s, c);
    assert forall k | 0 <= k < |x| :: s[k] == x[k];
    assert rest != "" ==> s[|x|] == c;
    assert forall k | 0 <= k < i :: s[..i][k] == s[k];
  }

  predicate IsDigit(c: char) {
    '0' <= c <= '9'
  }

  predicate AllDigits(s: string) {
    forall i | 0 <= i < |s| :: IsDigit(s[i])
  }

  /** The length of the longest prefix of digits. */
  function DigitRun(s: string): (n: nat)
    ensures n <= |s| && AllDigits(s[..n]) && (n < |s| ==> !IsDigit(s[n]))
  {
    if s == "" || !IsDigit(s[0]) then 0
    else
      var n := DigitRun(s[1..]);
      assert s[..n + 1] == [s[0]] + s[1..][..n];
      n + 1
  }

  lemma DigitRunAt(x: string, rest: string)
    requires AllDigits(x) && (rest == "" || !IsDigit(rest[0]))
    ensures DigitRun(x + rest) == |x|
  {
    var s := x + rest;
    var n := DigitRun(s);
    assert forall k | 0 <= k < |x| :: s[k] == x[k];
    assert rest != "" ==> s[|x|] == rest[0];
    assert forall k | 0 <= k < n :: s[..n][k] == s[k];
  }

  function DigitChar(d: nat): char
    requires d < 10
  {
    ('0' as int + d) as char
  }

  function DigitValue(c: char): nat
    requires IsDigit(c)
  {
    c as int - '0' as int
  }

  /** Decimal without leading zeros. */
  function Decimal(n: nat): string {
    if n < 10 then [DigitChar(n)] else Decimal(n / 10) + [DigitChar(n % 10)]
  }

  function DecimalValue(s: string): nat
    requires AllDigits(s)
  {
    if s == "" then 0 else DecimalValue(s[..|s| - 1]) * 10 + DigitValue(s[|s| - 1])
  }

  lemma {:induction false} DecimalRoundTrip(n: nat)
    ensures Decimal(n) != "" && AllDigits(Decimal(n)) && DecimalValue(Decimal(n)) == n
  {
    if n < 10 {
      assert Decimal(n)[..0] == "";
    } else {
      DecimalRoundTrip(n / 10);
      assert Decimal(n)[..|Decimal(n)| - 1] == Decimal(n / 10);
    }
  }
}
