/**
 * Go's `strconv.Atoi` on a platform where `int` has 64 bits. Its behaviour is
 * that of `strconv.ParseInt(s, 10, 0)`: one optional sign, then base-10 digits
 * scanned left to right by `ParseUint`, then a signed range check. (Atoi's fast
 * path for inputs shorter than 19 bytes accepts and rejects the same strings
 * and never overflows, so it is not written out separately.)
 */
module Strconv {
  import opened Wrappers

  const INT_MAX: int := 0x7fff_ffff_ffff_ffff
  const INT_MIN: int := -0x8000_0000_0000_0000
  const UINT64_MAX: int := 0xffff_ffff_ffff_ffff

  /** strconv.ErrSyntax and strconv.ErrRange. */
  datatype ErrKind = ErrSyntax | ErrRange

  /** strconv.NumError: the function that failed, the input it was given, and why. */
  datatype NumError = NumError(func: string, num: string, err: ErrKind)

  predicate IsDigit(ch: char) {
    '0' <= ch <= '9'
  }

  predicate IsSign(ch: char) {
    ch == '+' || ch == '-'
  }

  predicate AllDigits(s: string) {
    forall k :: 0 <= k < |s| ==> IsDigit(s[k])
  }

  function DigitValue(ch: char): (d: nat)
    requires IsDigit(ch)
    ensures d < 10
  {
    (ch as int) - ('0' as int)
  }

  /** The number a string of decimal digits denotes, most significant digit first. */
  function DecimalValue(s: string): nat
    requires AllDigits(s)
    decreases |s|
  {
    if |s| == 0 then 0 else DecimalValue(s[..|s| - 1]) * 10 + DigitValue(s[|s| - 1])
  }

  /** `s` without its one optional leading sign. */
  function Unsigned(s: string): (u: string)
    ensures u == s || (|s| > 0 && IsSign(s[0]) && u == s[1..])
    ensures |s| > 0 && IsSign(s[0]) ==> u == s[1..]
  {
    if |s| > 0 && IsSign(s[0]) then s[1..] else s
  }

  /** ParseUint's digit loop from position `i`, with `n` accumulated so far. */
  function ScanDigits(s: string, i: nat, n: nat): Result<nat, ErrKind>
    requires i <= |s|
    decreases |s| - i
  {
    if i == |s| then Ok(n)
    else if !IsDigit(s[i]) then Err(ErrSyntax)
    else if n * 10 + DigitValue(s[i]) > UINT64_MAX then Err(ErrRange)
    else ScanDigits(s, i + 1, n * 10 + DigitValue(s[i]))
  }

  /** strconv.ParseUint(s, 10, 64): the empty string is a syntax error. */
  function ParseUint(s: string): Result<nat, ErrKind> {
    if s == "" then Err(ErrSyntax) else ScanDigits(s, 0, 0)
  }

  /** strconv.Atoi. Every error names "Atoi" and carries the whole input. */
  function Atoi(s: string): (r: Result<int, NumError>)
    ensures r.Ok? ==> INT_MIN <= r.value <= INT_MAX
    ensures r.Err? ==> r.error.func == "Atoi" && r.error.num == s
  {
    var neg := |s| > 0 && s[0] == '-';
    match ParseUint(Unsigned(s))
    case Err(kind) => Err(NumError("Atoi", s, kind))
    case Ok(un) =>
      if !neg && un > INT_MAX then Err(NumError("Atoi", s, ErrRange))
      else if neg && un > -INT_MIN then Err(NumError("Atoi", s, ErrRange))
      else Ok(if neg then -(un as int) else un)
  }

  // ---------------------------------------------------------------------------
  // Reference definition: what a decimal integer is, and what it denotes.
  // ---------------------------------------------------------------------------

  /** One optional sign followed by at least one decimal digit. */
  predicate IsDecimalInteger(s: string) {
    (|s| >= 1 && AllDigits(s)) || (|s| >= 2 && IsSign(s[0]) && AllDigits(s[1..]))
  }

  /** The value a decimal integer denotes: negated after a `-`, unchanged after a `+`. */
  function SignedValue(s: string): int
    requires IsDecimalInteger(s)
  {
    if s[0] == '-' then -(DecimalValue(s[1..]) as int)
    else if s[0] == '+' then DecimalValue(s[1..])
    else DecimalValue(s)
  }

  /** A digit string denotes at least as much as any of its prefixes. */
  lemma {:induction false} DecimalValuePrefix(s: string, j: nat)
    requires AllDigits(s) && j <= |s|
    ensures AllDigits(s[..j]) && DecimalValue(s[..j]) <= DecimalValue(s)
    decreases |s|
  {
    if j < |s| {
      var t := s[..|s| - 1];
      assert t[..j] == s[..j];
      DecimalValuePrefix(t, j);
    } else {
      assert s[..j] == s;
    }
  }

  /** The digit loop, from a prefix already read correctly. */
  lemma {:induction false} ScanDigitsCorrect(s: string, i: nat, n: nat)
    requires i <= |s| && AllDigits(s[..i]) && n == DecimalValue(s[..i]) && n <= UINT64_MAX
    ensures ScanDigits(s, i, n).Ok? <==> AllDigits(s) && DecimalValue(s) <= UINT64_MAX
    ensures ScanDigits(s, i, n).Ok? ==> ScanDigits(s, i, n).value == DecimalValue(s)
    ensures ScanDigits(s, i, n) == Err(ErrSyntax) ==> !AllDigits(s)
    decreases |s| - i
  {
    if i == |s| {
      assert s[..i] == s;
    } else if IsDigit(s[i]) {
      var m := n * 10 + DigitValue(s[i]);
      assert AllDigits(s[..i + 1]) && DecimalValue(s[..i + 1]) == m by {
        var t := s[..i + 1];
        assert t[..i] == s[..i];
        assert t[i] == s[i];
      }
      if m > UINT64_MAX {
        if AllDigits(s) {
          DecimalValuePrefix(s, i + 1);
        }
      } else {
        ScanDigitsCorrect(s, i + 1, m);
      }
    }
  }

  /**
   * ParseUint accepts exactly the non-empty digit strings whose value fits in
   * 64 bits, returns that value, and reports a syntax error only for a string
   * that is not all digits.
   */
  lemma ParseUintCorrect(s: string)
    ensures ParseUint(s).Ok? <==> s != "" && AllDigits(s) && DecimalValue(s) <= UINT64_MAX
    ensures ParseUint(s).Ok? ==> ParseUint(s).value == DecimalValue(s)
    ensures ParseUint(s) == Err(ErrSyntax) ==> s == "" || !AllDigits(s)
  {
    if s != "" {
      assert s[..0] == "";
      ScanDigitsCorrect(s, 0, 0);
    }
  }

  /**
   * Atoi succeeds exactly on decimal integers within the range of a 64-bit
   * int, and then returns the value the text denotes.
   */
  lemma AtoiCorrect(s: string)
    ensures Atoi(s).Ok? <==> IsDecimalInteger(s) && INT_MIN <= SignedValue(s) <= INT_MAX
    ensures Atoi(s).Ok? ==> Atoi(s).value == SignedValue(s)
  {
    ParseUintCorrect(Unsigned(s));
  }

  /**
   * A syntax error means the input is not a decimal integer; a decimal integer
   * that Atoi rejects is out of range.
   */
  lemma AtoiErrorKind(s: string)
    ensures Atoi(s).Err? && Atoi(s).error.err == ErrSyntax ==> !IsDecimalInteger(s)
    ensures Atoi(s).Err? && IsDecimalInteger(s) ==> Atoi(s).error.err == ErrRange
  {
    ParseUintCorrect(Unsigned(s));
  }

  /** A leading `+` changes nothing: Atoi accepts "+d" exactly when it accepts "d", with the same value. */
  lemma AtoiPlusSign(d: string)
    requires |d| >= 1 && AllDigits(d)
    ensures Atoi("+" + d).Ok? <==> Atoi(d).Ok?
    ensures Atoi(d).Ok? ==> Atoi("+" + d).value == Atoi(d).value
  {
  }

  /** Once the digits read so far exceed 64 bits, the loop stops with a range error. */
  lemma {:induction false} ScanDigitsOverflow(s: string, i: nat, n: nat, j: nat)
    requires i < j <= |s| && AllDigits(s[..j])
    requires n == DecimalValue(s[..i]) && n <= UINT64_MAX && DecimalValue(s[..j]) > UINT64_MAX
    ensures ScanDigits(s, i, n) == Err(ErrRange)
    decreases j - i
  {
    var t := s[..i + 1];
    assert t[..i] == s[..i];
    assert t == s[..j][..i + 1];
    assert DecimalValue(t) == n * 10 + DigitValue(s[i]);
    if n * 10 + DigitValue(s[i]) <= UINT64_MAX {
      ScanDigitsOverflow(s, i + 1, n * 10 + DigitValue(s[i]), j);
    }
  }

  /**
   * The digit loop stops at the first prefix that overflows 64 bits, so digits
   * denoting more than that are a range error whatever follows them, even text
   * that is not a number at all.
   */
  lemma AtoiOverflowBeforeSyntax(n: nat, tail: string)
    requires n > UINT64_MAX
    ensures Atoi(FormatNat(n) + tail) == Err(NumError("Atoi", FormatNat(n) + tail, ErrRange))
  {
    var p := FormatNat(n);
    var s := p + tail;
    assert s[..|p|] == p;
    assert s[..0] == "";
    assert Unsigned(s) == s;
    ScanDigitsOverflow(s, 0, 0, |p|);
  }

  // ---------------------------------------------------------------------------
  // The inverse: decimal formatting of an int (strconv.Itoa).
  // ---------------------------------------------------------------------------

  function DigitChar(d: nat): (ch: char)
    requires d < 10
    ensures IsDigit(ch) && DigitValue(ch) == d
  {
    ('0' as int + d) as char
  }

  /** The shortest decimal text of `n`. */
  function FormatNat(n: nat): (s: string)
    ensures |s| >= 1 && AllDigits(s) && DecimalValue(s) == n
    decreases n
  {
    if n < 10 then [DigitChar(n)]
    else
      var t := FormatNat(n / 10);
      var s := t + [DigitChar(n % 10)];
      assert s[..|s| - 1] == t;
      s
  }

  /** strconv.Itoa: a minus sign for negative values, then the digits. */
  function Itoa(v: int): string {
    if v < 0 then "-" + FormatNat(-v) else FormatNat(v)
  }

  /** Atoi reads back every int that Itoa writes. */
  lemma AtoiItoa(v: int)
    requires INT_MIN <= v <= INT_MAX
    ensures Atoi(Itoa(v)) == Ok(v)
  {
    var s := Itoa(v);
    if v < 0 {
      assert s[1..] == FormatNat(-v);
    }
    AtoiCorrect(s);
  }
}
