/** Decimal rendering and parsing of unsigned integers, as Go's
    strconv.FormatUint(n, 10) and strconv.ParseUint(s, 10, 32) do them. The
    token codec renders the subject claim with the first; the pagination
    helpers parse query parameters with the second. */
module Strconv {
  import opened Errors

  const MaxUint32: nat := 0xFFFF_FFFF

  predicate IsDigit(c: char) {
    '0' <= c <= '9'
  }

  predicate AllDigits(s: string) {
    forall k :: 0 <= k < |s| ==> IsDigit(s[k])
  }

  /** A digit string in the form FormatUint produces: non-empty, and no
      leading zero unless the number is zero itself. */
  predicate Canonical(s: string) {
    s != [] && AllDigits(s) && (s[0] == '0' ==> s == "0")
  }

  function DigitValue(c: char): nat
    requires IsDigit(c)
  {
    c as int - '0' as int
  }

  function DigitChar(d: nat): (c: char)
    requires d < 10
    ensures IsDigit(c) && DigitValue(c) == d
  {
    ('0' as int + d) as char
  }

  /** The number a digit string denotes, most significant digit first. */
  function DecimalValue(s: string): nat
    requires AllDigits(s)
  {
    if s == [] then 0 else DecimalValue(s[..|s| - 1]) * 10 + DigitValue(s[|s| - 1])
  }

  lemma DecimalValueSnoc(s: string, c: char)
    requires AllDigits(s) && IsDigit(c)
    ensures AllDigits(s + [c]) && DecimalValue(s + [c]) == DecimalValue(s) * 10 + DigitValue(c)
  {
    assert (s + [c])[..|s|] == s;
  }

  /** strconv.FormatUint(n, 10): the canonical digit string whose value is n. */
  function FormatUint(n: nat): (s: string)
    ensures Canonical(s)
    ensures DecimalValue(s) == n
    ensures s[0] == '0' <==> n == 0
  {
    if n < 10 then
      [DigitChar(n)]
    else
      var prefix := FormatUint(n / 10);
      DecimalValueSnoc(prefix, DigitChar(n % 10));
      prefix + [DigitChar(n % 10)]
  }

  /** A digit string that denotes zero is made of zeros only. */
  lemma {:induction false} ZeroValueAllZeros(s: string)
    requires AllDigits(s) && DecimalValue(s) == 0
    ensures forall k :: 0 <= k < |s| ==> s[k] == '0'
  {
    if s != [] {
      ZeroValueAllZeros(s[..|s| - 1]);
      assert forall k :: 0 <= k < |s| - 1 ==> s[k] == s[..|s| - 1][k];
    }
  }

  /** Rendering is the inverse of evaluation on canonical digit strings, so
      distinct canonical strings denote distinct numbers. */
  lemma {:induction false} FormatOfCanonical(s: string)
    requires Canonical(s)
    ensures FormatUint(DecimalValue(s)) == s
  {
    var n := DecimalValue(s);
    if |s| > 1 {
      var t := s[..|s| - 1];
      assert t[0] == s[0] && t[0] != '0';
      if DecimalValue(t) == 0 {
        ZeroValueAllZeros(t);
      }
      assert Canonical(t);
      FormatOfCanonical(t);
      assert n / 10 == DecimalValue(t) && n % 10 == DigitValue(s[|s| - 1]);
      assert s == t + [s[|s| - 1]];
    }
  }

  /** The number of leading ASCII digits of s. */
  function DigitRun(s: string): (n: nat)
    ensures n <= |s| && AllDigits(s[..n])
    ensures n < |s| ==> !IsDigit(s[n])
  {
    if s == [] || !IsDigit(s[0]) then 0
    else
      var n := 1 + DigitRun(s[1..]);
      assert forall k :: 1 <= k < n ==> s[..n][k] == s[1..][..n - 1][k - 1];
      n
  }

  /** A prefix of a digit string denotes no more than the whole string. */
  lemma {:induction false} DecimalValuePrefix(s: string, k: nat)
    requires AllDigits(s) && k <= |s|
    ensures AllDigits(s[..k]) && DecimalValue(s[..k]) <= DecimalValue(s)
  {
    if k < |s| {
      var init := s[..|s| - 1];
      assert forall j :: 0 <= j < |init| ==> init[j] == s[j];
      assert DecimalValue(s) == DecimalValue(init) * 10 + DigitValue(s[|s| - 1]);
      DecimalValuePrefix(init, k);
      assert init[..k] == s[..k];
    } else {
      assert s[..k] == s;
    }
  }

  /** strconv.ParseUint(s, 10, 32) in the closed form of its scan: the empty
      string is a syntax error; a value above 2^32-1 among the leading
      digits is a range error, even when a non-digit follows; any other
      non-digit (a sign, a base prefix, an underscore) is a syntax error. */
  function ParseUint32(s: string): (r: Result<nat>)
    ensures r.Ok? <==> s != [] && AllDigits(s) && DecimalValue(s) <= MaxUint32
    ensures r.Ok? ==> r.value == DecimalValue(s)
    ensures r == Err(NumRange) <==> DecimalValue(s[..DigitRun(s)]) > MaxUint32
    ensures r.Err? ==> r.error in {NumSyntax, NumRange}
  {
    var p := s[..DigitRun(s)];
    assert AllDigits(s) ==> p == s;
    if s == [] then Err(NumSyntax)
    else if DecimalValue(p) > MaxUint32 then Err(NumRange)
    else if |p| < |s| then Err(NumSyntax)
    else
      assert p == s;
      Ok(DecimalValue(s))
  }

  /** The scan ParseUint performs, one byte at a time from index i with n
      the value read so far: a non-digit is a syntax error at once, and the
      value passing 2^32-1 is a range error at once. */
  function Scan(s: string, i: nat, n: nat): Result<nat>
    requires i <= |s|
    decreases |s| - i
  {
    if i == |s| then Ok(n)
    else if !IsDigit(s[i]) then Err(NumSyntax)
    else if n * 10 + DigitValue(s[i]) > MaxUint32 then Err(NumRange)
    else Scan(s, i + 1, n * 10 + DigitValue(s[i]))
  }

  lemma {:induction false} ScanFrom(s: string, i: nat)
    requires s != [] && i <= |s| && AllDigits(s[..i]) && DecimalValue(s[..i]) <= MaxUint32
    ensures Scan(s, i, DecimalValue(s[..i])) == ParseUint32(s)
    decreases |s| - i
  {
    var r := DigitRun(s);
    assert i <= r;
    if i < |s| && IsDigit(s[i]) {
      DecimalValueSnoc(s[..i], s[i]);
      assert s[..i] + [s[i]] == s[..i + 1];
      var v := DecimalValue(s[..i + 1]);
      if v > MaxUint32 {
        assert i + 1 <= r;
        DecimalValuePrefix(s[..r], i + 1);
        assert s[..r][..i + 1] == s[..i + 1];
      } else {
        ScanFrom(s, i + 1);
      }
    } else if i == |s| {
      assert s[..i] == s;
    }
  }

  /** The closed form agrees with the scan on every input. */
  lemma ParseIsScan(s: string)
    ensures ParseUint32(s) == if s == [] then Err(NumSyntax) else Scan(s, 0, 0)
  {
    if s != [] {
      ScanFrom(s, 0);
    }
  }

  /** Digits that overflow are a range error even when a non-digit follows:
      the scan stops at the overflow before it reaches the letter. */
  lemma OverflowBeforeLetter()
    ensures ParseUint32("4294967296x") == Err(NumRange)
    ensures ParseUint32("12x") == Err(NumSyntax)
  {
    var s := "4294967296x";
    ParseIsScan(s);
    assert Scan(s, 9, 429496729) == Err(NumRange);
    assert Scan(s, 0, 0) == Scan(s, 9, 429496729) by {
      assert Scan(s, 0, 0) == Scan(s, 1, 4) == Scan(s, 2, 42) == Scan(s, 3, 429);
      assert Scan(s, 3, 429) == Scan(s, 4, 4294) == Scan(s, 5, 42949) == Scan(s, 6, 429496);
      assert Scan(s, 6, 429496) == Scan(s, 7, 4294967) == Scan(s, 8, 42949672) == Scan(s, 9, 429496729);
    }
    ParseIsScan("12x");
  }

  /** Parsing the rendering of a 32-bit value gives the value back. */
  lemma ParseFormatRoundTrip(n: nat)
    requires n <= MaxUint32
    ensures ParseUint32(FormatUint(n)) == Ok(n)
  {
  }

  /** A canonical string that parses is the rendering of what it parses to. */
  lemma FormatParseRoundTrip(s: string)
    requires Canonical(s) && ParseUint32(s).Ok?
    ensures FormatUint(ParseUint32(s).value) == s
  {
    FormatOfCanonical(s);
  }
}
