/** Decimal member strings: how a video id becomes a Redis member (`fmt.Sprintf("%d", id)`)
    and how a reader turns a member back into an id (`strconv.ParseUint(s, 10, 64)`). */
module Decimal {
  import opened Wrappers

  /** Ids are Go `uint` values: 64 bits wide. */
  const UINT_LIMIT: nat := 0x1_0000_0000_0000_0000

  predicate IsDigit(c: char) { '0' <= c <= '9' }

  function DigitValue(c: char): nat
    requires IsDigit(c)
  {
    c as nat - '0' as nat
  }

  function DigitChar(d: nat): (c: char)
    requires d < 10
    ensures IsDigit(c) && DigitValue(c) == d
  {
    (d + '0' as nat) as char
  }

  predicate AllDigits(s: string) { forall i :: 0 <= i < |s| ==> IsDigit(s[i]) }

  /** The number a digit string denotes, most significant digit first. */
  function Value(s: string): nat
    requires AllDigits(s)
  {
    if s == [] then 0 else 10 * Value(s[..|s| - 1]) + DigitValue(s[|s| - 1])
  }

  function FormatUint(n: nat): (s: string)
    ensures s != [] && AllDigits(s)
  {
    if n < 10 then [DigitChar(n)] else FormatUint(n / 10) + [DigitChar(n % 10)]
  }

  /** None stands for the parse error; leading zeros are accepted, signs are not. */
  function ParseUint(s: string): Option<nat>
  {
    if s == [] || !AllDigits(s) then None
    else if Value(s) < UINT_LIMIT then Some(Value(s))
    else None
  }

  lemma {:induction false} ValueOfFormat(n: nat)
    ensures Value(FormatUint(n)) == n
  {
    if n < 10 {
      assert [DigitChar(n)][..0] == [];
    } else {
      var s := FormatUint(n / 10);
      ValueOfFormat(n / 10);
      assert (s + [DigitChar(n % 10)])[..|s|] == s;
    }
  }

  /** Reading a member back gives the id that was written. */
  lemma ParseFormatRoundTrip(n: nat)
    ensures ParseUint(FormatUint(n)) == if n < UINT_LIMIT then Some(n) else None
  {
    ValueOfFormat(n);
  }

  /** Two videos never share a member string. */
  lemma FormatInjective(a: nat, b: nat)
    requires FormatUint(a) == FormatUint(b)
    ensures a == b
  {
    ValueOfFormat(a);
    ValueOfFormat(b);
  }

  function Zeros(k: nat): (s: string)
    ensures AllDigits(s)
  {
    seq(k, _ => '0')
  }

  /** A digit string is its number written in decimal behind some zeros. */
  lemma {:induction false} DigitsAreDecimal(s: string) returns (k: nat)
    requires s != [] && AllDigits(s)
    ensures s == Zeros(k) + FormatUint(Value(s))
  {
    var before, c := s[..|s| - 1], s[|s| - 1];
    k := 0;
    if before == [] {
      OneDigit(c);
      assert s == [c] && Zeros(0) + FormatUint(Value(s)) == FormatUint(Value(s));
    } else {
      k := DigitsAreDecimal(before);
      MoreDigits(before, c, k);
      assert s == before + [c];
      if Value(before) == 0 { k := k + 1; }
    }
  }

  lemma OneDigit(c: char)
    requires IsDigit(c)
    ensures FormatUint(Value([c])) == [c]
  {
    assert [c][..0] == [];
  }

  lemma MoreDigits(before: string, c: char, k: nat)
    requires AllDigits(before) && IsDigit(c) && before == Zeros(k) + FormatUint(Value(before))
    ensures before + [c] == Zeros(if Value(before) == 0 then k + 1 else k) + FormatUint(Value(before + [c]))
  {
    assert (before + [c])[..|before|] == before;
    OneMoreDigit(k, Value(before), DigitValue(c));
  }

  lemma OneMoreDigit(k: nat, n: nat, d: nat)
    requires d < 10
    ensures Zeros(k) + FormatUint(n) + [DigitChar(d)] == Zeros(if n == 0 then k + 1 else k) + FormatUint(10 * n + d)
  {
    if n == 0 {
      assert Zeros(k + 1) == Zeros(k) + FormatUint(0);
    } else {
      assert FormatUint(10 * n + d) == FormatUint(n) + [DigitChar(d)];
    }
  }

  lemma {:induction false} ZerosCountForNothing(k: nat, s: string)
    requires AllDigits(s)
    ensures AllDigits(Zeros(k) + s) && Value(Zeros(k) + s) == Value(s)
    decreases |s|, k
  {
    if s != [] {
      ZerosCountForNothing(k, s[..|s| - 1]);
      assert (Zeros(k) + s)[..|Zeros(k) + s| - 1] == Zeros(k) + s[..|s| - 1];
    } else if k > 0 {
      ZerosCountForNothing(k - 1, s);
      assert (Zeros(k) + s)[..|Zeros(k) + s| - 1] == Zeros(k - 1) + s;
    }
  }

  /** What parses, and to what: the decimal texts of 64-bit numbers, behind any zeros. */
  lemma ParseExactly(s: string, n: nat)
    ensures ParseUint(s) == Some(n) <==> n < 0x1_0000_0000_0000_0000 && exists k: nat :: s == Zeros(k) + FormatUint(n)
  {
    if ParseUint(s) == Some(n) {
      var k := DigitsAreDecimal(s);
    }
    if k: nat :| s == Zeros(k) + FormatUint(n) {
      ZerosCountForNothing(k, FormatUint(n));
      ValueOfFormat(n);
    }
  }
}
