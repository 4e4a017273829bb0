/**
 Identifiers built by formatting numbers into strings, and why they never collide; and the
 stripping of surrounding space.
 */
module Formats {

  predicate IsDigit(c: char) {
    '0' <= c <= '9'
  }

  predicate AllDigits(s: string) {
    forall i :: 0 <= i < |s| ==> IsDigit(s[i])
  }

  /** Decimal digits, without leading zeros. */
  function Decimal(n: nat): (s: string)
    ensures s != [] && AllDigits(s)
  {
    var last := [('0' as int + n % 10) as char];
    if n < 10 then last else Decimal(n / 10) + last
  }

  /** Pad with zeros on the left. */
  function Pad(s: string, width: nat): (r: string)
    ensures |r| == if |s| < width then width else |s|
    ensures AllDigits(s) ==> AllDigits(r)
    decreases width - |s|
  {
    if |s| >= width then s else Pad("0" + s, width)
  }

  /** The number that a string of digits denotes. */
  ghost function Value(s: string): int {
    if s == [] then 0 else Value(s[..|s| - 1]) * 10 + (s[|s| - 1] as int - '0' as int)
  }

  lemma {:induction false} DecimalDenotes(n: nat)
    ensures Value(Decimal(n)) == n
  {
    var s := Decimal(n);
    if n >= 10 {
      DecimalDenotes(n / 10);
      assert s[..|s| - 1] == Decimal(n / 10);
    } else {
      assert s[..0] == [];
    }
  }

  lemma {:induction false} LeadingZero(s: string)
    ensures Value("0" + s) == Value(s)
  {
    var t := "0" + s;
    if s == [] {
      assert t[..0] == [];
    } else {
      LeadingZero(s[..|s| - 1]);
      assert t[..|t| - 1] == "0" + s[..|s| - 1];
    }
  }

  lemma {:induction false} PadDenotes(s: string, width: nat)
    ensures Value(Pad(s, width)) == Value(s)
    decreases width - |s|
  {
    if |s| < width {
      LeadingZero(s);
      PadDenotes("0" + s, width);
    }
  }

  /** Zero-padded numbers of any width are equal only if the numbers are. */
  lemma PaddedInjective(a: nat, b: nat, width: nat)
    requires Pad(Decimal(a), width) == Pad(Decimal(b), width)
    ensures a == b
  {
    PadDenotes(Decimal(a), width);
    PadDenotes(Decimal(b), width);
    DecimalDenotes(a);
    DecimalDenotes(b);
  }

  function Pow10(k: nat): nat {
    if k == 0 then 1 else 10 * Pow10(k - 1)
  }

  /** A number below the k-th power of ten has at most k digits. */
  lemma {:induction false} DecimalLength(n: nat, k: nat)
    requires k >= 1 && n < Pow10(k)
    ensures |Decimal(n)| <= k
  {
    if n >= 10 {
      assert k >= 2 && n / 10 < Pow10(k - 1);
      DecimalLength(n / 10, k - 1);
    }
  }

  /** A text that ends in a separator and digits determines both parts. */
  lemma TrailingDigitsSplit(x: string, y: string, a: string, b: string, separator: char)
    requires x + [separator] + a == y + [separator] + b
    requires !IsDigit(separator) && AllDigits(a) && AllDigits(b)
    ensures x == y && a == b
  {
    var s, t := x + [separator] + a, y + [separator] + b;
    assert s[|x|] == separator && t[|y|] == separator;
    assert forall i :: |x| < i < |s| ==> s[i] == a[i - |x| - 1];
    assert forall i :: |y| < i < |t| ==> t[i] == b[i - |y| - 1];
    assert |x| == |y|;
    assert x == s[..|x|] == t[..|y|] == y;
    assert a == s[|x| + 1..] == t[|y| + 1..] == b;
  }

  /** The identifier of the n-th attempt at a job. */
  function AttemptId(job: string, attempt: nat): string {
    job + "/attempt" + "-" + Pad(Decimal(attempt), 4)
  }

  /** Attempt identifiers never collide, whatever the job identifiers look like and however many
      digits the attempt number has. */
  lemma AttemptIdInjective(job1: string, attempt1: nat, job2: string, attempt2: nat)
    requires AttemptId(job1, attempt1) == AttemptId(job2, attempt2)
    ensures job1 == job2 && attempt1 == attempt2
  {
    TrailingDigitsSplit(job1 + "/attempt", job2 + "/attempt",
                        Pad(Decimal(attempt1), 4), Pad(Decimal(attempt2), 4), '-');
    assert job1 == (job1 + "/attempt")[..|job1|] && job2 == (job2 + "/attempt")[..|job2|];
    PaddedInjective(attempt1, attempt2, 4);
  }

  predicate IsSpace(c: char) {
    || '\t' <= c <= '\r' || '\U{1C}' <= c <= ' ' || c == '\U{85}' || c == '\U{A0}' || c == '\U{1680}'
    || '\U{2000}' <= c <= '\U{200A}' || c == '\U{2028}' || c == '\U{2029}' || c == '\U{202F}' || c == '\U{205F}'
    || c == '\U{3000}'
  }

  /** The text without the space around it. */
  function Strip(s: string): (r: string)
    ensures |r| <= |s| && (r != [] ==> !IsSpace(r[0]) && !IsSpace(r[|r| - 1]))
  {
    if s == [] then s
    else if IsSpace(s[0]) then Strip(s[1..])
    else if IsSpace(s[|s| - 1]) then Strip(s[..|s| - 1])
    else s
  }
}
