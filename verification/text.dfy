/** The string primitives the program borrows from Go's standard library
    (`strings`, `strconv`) and from `go-funk`, on strings as sequences of characters. */
module Text {
  import opened Base

  // ---------------------------------------------------------------------------
  // Case mapping (ASCII letters only; see README)
  // ---------------------------------------------------------------------------

  predicate IsUpper(c: char)
  {
    'A' <= c <= 'Z'
  }

  function LowerChar(c: char): (d: char)
    ensures !IsUpper(d)
  {
    if IsUpper(c) then (c as int + 32) as char else c
  }

  /** No character of `s` is an upper-case letter. */
  predicate IsLowercase(s: string)
  {
    forall i | 0 <= i < |s| :: !IsUpper(s[i])
  }

  /** `strings.ToLower`. */
  function Lower(s: string): (r: string)
    ensures |r| == |s| && IsLowercase(r)
    ensures forall i | 0 <= i < |s| :: r[i] == LowerChar(s[i])
  {
    seq(|s|, i requires 0 <= i < |s| => LowerChar(s[i]))
  }

  /** Lowercasing changes exactly the strings that hold an upper-case letter. */
  lemma LowerFixesExactlyLowercase(s: string)
    ensures Lower(s) == s <==> IsLowercase(s)
  {
    if IsLowercase(s) {
      assert forall i | 0 <= i < |s| :: Lower(s)[i] == s[i];
    } else {
      var i :| 0 <= i < |s| && IsUpper(s[i]);
      assert Lower(s)[i] != s[i];
    }
  }

  // ---------------------------------------------------------------------------
  // Prefixes and suffixes
  // ---------------------------------------------------------------------------

  predicate HasPrefix(s: string, p: string)
  {
    |p| <= |s| && s[..|p|] == p
  }

  predicate HasSuffix(s: string, p: string)
  {
    |p| <= |s| && s[|s| - |p|..] == p
  }

  /** `strings.TrimPrefix`. */
  function TrimPrefix(s: string, p: string): (r: string)
    ensures HasPrefix(s, p) ==> p + r == s
    ensures !HasPrefix(s, p) ==> r == s
  {
    if HasPrefix(s, p) then s[|p|..] else s
  }

  /** `strings.TrimSuffix`. */
  function TrimSuffix(s: string, p: string): (r: string)
    ensures HasSuffix(s, p) ==> r + p == s
    ensures !HasSuffix(s, p) ==> r == s
  {
    if HasSuffix(s, p) then s[..|s| - |p|] else s
  }

  // ---------------------------------------------------------------------------
  // Splitting on a one-character separator
  // ---------------------------------------------------------------------------

  /** Position of the first `c` in `s`, or `|s|` when there is none. */
  function IndexOf(s: string, c: char): (i: nat)
    ensures i <= |s|
    ensures c !in s[..i]
    ensures i < |s| ==> s[i] == c
  {
    if |s| == 0 then 0
    else if s[0] == c then 0
    else
      var j := IndexOf(s[1..], c);
      assert s[..j + 1] == [s[0]] + s[1..][..j];
      j + 1
  }

  /** `strings.Split(s, string(sep))`: the pieces between separators, at least one. */
  function Split(s: string, sep: char): (parts: seq<string>)
    ensures |parts| >= 1
    ensures forall i | 0 <= i < |parts| :: sep !in parts[i]
    decreases |s|
  {
    var i := IndexOf(s, sep);
    if i == |s| then [s] else [s[..i]] + Split(s[i + 1..], sep)
  }

  /** `strings.Join(parts, string(sep))`. */
  function Join(parts: seq<string>, sep: char): string
    requires |parts| >= 1
  {
    if |parts| == 1 then parts[0] else parts[0] + [sep] + Join(parts[1..], sep)
  }

  /** Joining the pieces of a split gives the original string back. */
  lemma {:induction false} JoinSplit(s: string, sep: char)
    ensures Join(Split(s, sep), sep) == s
    decreases |s|
  {
    var i := IndexOf(s, sep);
    if i < |s| {
      var rest := Split(s[i + 1..], sep);
      var parts := Split(s, sep);
      assert parts == [s[..i]] + rest;
      assert parts[1..] == rest;
      JoinSplit(s[i + 1..], sep);
      assert Join(parts, sep) == s[..i] + [sep] + Join(rest, sep);
      assert s == s[..i] + [sep] + s[i + 1..];
    }
  }

  /** Splitting a join of separator-free pieces gives the pieces back. */
  lemma {:induction false} SplitJoin(parts: seq<string>, sep: char)
    requires |parts| >= 1
    requires forall i | 0 <= i < |parts| :: sep !in parts[i]
    ensures Split(Join(parts, sep), sep) == parts
  {
    var s := Join(parts, sep);
    if |parts| == 1 {
      IndexOfAbsent(s, sep);
    } else {
      var rest := Join(parts[1..], sep);
      assert s == parts[0] + ([sep] + rest);
      IndexOfAfter(parts[0], sep, [sep] + rest);
      assert s[|parts[0]| + 1..] == rest;
      SplitJoin(parts[1..], sep);
    }
  }

  lemma IndexOfAbsent(s: string, c: char)
    requires c !in s
    ensures IndexOf(s, c) == |s|
  {
  }

  lemma {:induction false} IndexOfAfter(a: string, c: char, b: string)
    requires c !in a && |b| > 0 && b[0] == c
    ensures IndexOf(a + b, c) == |a|
  {
    if |a| > 0 {
      assert (a + b)[1..] == a[1..] + b;
      IndexOfAfter(a[1..], c, b);
    } else {
      assert a + b == b;
    }
  }

  /** The last piece of a split is the longest separator-free suffix: it
      starts at k, and k is 0 or follows a separator. */
  lemma {:induction false} SplitLastStart(s: string, sep: char) returns (k: nat)
    ensures k <= |s|
    ensures var parts := Split(s, sep); parts[|parts| - 1] == s[k..]
    ensures k == 0 || s[k - 1] == sep
    decreases |s|
  {
    var i := IndexOf(s, sep);
    if i < |s| {
      var t := s[i + 1..];
      var rest := Split(t, sep);
      var parts := Split(s, sep);
      assert parts == [s[..i]] + rest;
      assert parts[|parts| - 1] == rest[|rest| - 1];
      var k' := SplitLastStart(t, sep);
      k := i + 1 + k';
      assert t[k'..] == s[k..];
      assert k' == 0 || t[k' - 1] == s[k - 1];
    } else {
      k := 0;
    }
  }

  // ---------------------------------------------------------------------------
  // strconv.Atoi on a 64-bit platform
  // ---------------------------------------------------------------------------

  const MinInt: int := -0x8000_0000_0000_0000
  const MaxInt: int := 0x7FFF_FFFF_FFFF_FFFF

  predicate IsDigit(c: char)
  {
    '0' <= c <= '9'
  }

  predicate AllDigits(s: string)
  {
    forall i | 0 <= i < |s| :: IsDigit(s[i])
  }

  /** The decimal value of a digit string, most significant digit first. */
  function DigitsValue(s: string): nat
    requires AllDigits(s)
  {
    if |s| == 0 then 0 else DigitsValue(s[..|s| - 1]) * 10 + (s[|s| - 1] as int - '0' as int)
  }

  function Pow10(n: nat): nat
  {
    if n == 0 then 1 else 10 * Pow10(n - 1)
  }

  /** A digit string of length n denotes a number below 10^n. */
  lemma {:induction false} DigitsValueBound(s: string)
    requires AllDigits(s)
    ensures DigitsValue(s) < Pow10(|s|)
  {
    if |s| > 0 {
      DigitsValueBound(s[..|s| - 1]);
    }
  }

  datatype NumError = SyntaxError | RangeError

  /** The largest 64-bit unsigned value: `strconv` scans the digits as one. */
  const MaxUint64: int := 0xFFFF_FFFF_FFFF_FFFF

  /** The part of a number after its optional sign. */
  function Unsigned(s: string): string
  {
    if |s| > 0 && s[0] in "+-" then s[1..] else s
  }

  /** The error `strconv.ParseUint`'s scan reports for a malformed number,
      continued after the first `k` characters of `s` (digits): the scan stops
      with a range error at the first digit that takes the value past
      2^64 - 1, and with a syntax error at the first character that is not a
      digit (or at the end of an empty string). */
  function ScanError(s: string, k: nat): NumError
    requires k <= |s| && AllDigits(s[..k])
    decreases |s| - k
  {
    if k == |s| || !IsDigit(s[k]) then SyntaxError
    else
      assert AllDigits(s[..k + 1]) by {
        assert forall i | 0 <= i < k :: s[..k + 1][i] == s[..k][i];
      }
      if DigitsValue(s[..k + 1]) > MaxUint64 then RangeError
      else ScanError(s, k + 1)
  }

  /** `strconv.Atoi`: an optional sign followed by at least one decimal digit,
      in the range of a 64-bit `int`. The digits are scanned left to right as
      an unsigned 64-bit value, so a digit run that overflows it is a range
      error even when a character that is not a digit follows. */
  function Atoi(s: string): (r: Result<int, NumError>)
    ensures r.Ok? ==> |s| > 0 && forall i | 0 <= i < |s| :: IsDigit(s[i]) || (i == 0 && s[0] in "+-")
    ensures r.Ok? ==> MinInt <= r.value <= MaxInt
    ensures r.Ok? ==> IsDigit(s[|s| - 1])
    ensures 0 < |s| && AllDigits(s) && DigitsValue(s) <= MaxInt ==> r == Ok(DigitsValue(s))
  {
    var body := Unsigned(s);
    if |body| == 0 || !AllDigits(body) then
      assert body[..0] == "";
      Err(ScanError(body, 0))
    else
      var mag: int := DigitsValue(body);
      var v := if s[0] == '-' then -mag else mag;
      if v < MinInt || v > MaxInt then Err(RangeError) else Ok(v)
  }

  /** A longer digit string never denotes a smaller number. */
  lemma {:induction false} DigitsValuePrefix(s: string, k: nat)
    requires AllDigits(s) && k <= |s|
    ensures AllDigits(s[..k]) && DigitsValue(s[..k]) <= DigitsValue(s)
    decreases |s|
  {
    if k < |s| {
      var init := s[..|s| - 1];
      assert init[..k] == s[..k];
      DigitsValuePrefix(init, k);
      assert IsDigit(s[|s| - 1]);
      assert DigitsValue(s) == DigitsValue(init) * 10 + (s[|s| - 1] as int - '0' as int);
    } else {
      assert s[..k] == s;
    }
  }

  /** The scan stops with a range error at a digit run that exceeds
      2^64 - 1, and with a syntax error at a character that is not a digit
      and comes before any such run. */
  lemma {:induction false} ScanErrorStops(s: string, j: nat, k: nat)
    requires j <= k <= |s| && AllDigits(s[..j]) && DigitsValue(s[..j]) <= MaxUint64 && AllDigits(s[..k])
    ensures DigitsValue(s[..k]) > MaxUint64 ==> ScanError(s, j) == RangeError
    ensures k < |s| && !IsDigit(s[k]) && DigitsValue(s[..k]) <= MaxUint64 ==> ScanError(s, j) == SyntaxError
    decreases k - j
  {
    if j < k {
      assert IsDigit(s[j]) by { assert s[..k][j] == s[j]; }
      assert s[..k][..j + 1] == s[..j + 1];
      DigitsValuePrefix(s[..k], j + 1);
      if DigitsValue(s[..j + 1]) <= MaxUint64 {
        ScanErrorStops(s, j + 1, k);
      }
    }
  }

  /** Which error `strconv.Atoi` reports. After the sign: when some run of
      digits at the start already exceeds 2^64 - 1 it is a range error,
      whatever follows; when a character that is not a digit comes first,
      it is a syntax error; a lone sign or the empty string is one too. */
  lemma AtoiErrorKind(s: string, k: nat)
    ensures var body := Unsigned(s);
            k <= |body| && AllDigits(body[..k]) && DigitsValue(body[..k]) > MaxUint64 ==> Atoi(s) == Err(RangeError)
    ensures var body := Unsigned(s);
            k < |body| && AllDigits(body[..k]) && !IsDigit(body[k]) && DigitsValue(body[..k]) <= MaxUint64 ==> Atoi(s) == Err(SyntaxError)
    ensures |Unsigned(s)| == 0 ==> Atoi(s) == Err(SyntaxError)
  {
    var body := Unsigned(s);
    assert body[..0] == "";
    if k <= |body| && AllDigits(body[..k]) {
      ScanErrorStops(body, 0, k);
      if AllDigits(body) {
        DigitsValuePrefix(body, k);
      }
    }
  }

  /** The remaining cases of `strconv.Atoi`: a digit string beyond the 64-bit
      range is a range error, and a sign in front of digits gives their value
      with that sign, down to the most negative 64-bit `int`. */
  lemma AtoiSigned(s: string)
    ensures 0 < |s| && AllDigits(s) && DigitsValue(s) > MaxInt ==> Atoi(s) == Err(RangeError)
    ensures 1 < |s| && s[0] == '+' && AllDigits(s[1..]) && DigitsValue(s[1..]) <= MaxInt ==> Atoi(s) == Ok(DigitsValue(s[1..]))
    ensures 1 < |s| && s[0] == '+' && AllDigits(s[1..]) && DigitsValue(s[1..]) > MaxInt ==> Atoi(s) == Err(RangeError)
    ensures 1 < |s| && s[0] == '-' && AllDigits(s[1..]) && DigitsValue(s[1..]) <= -MinInt ==> Atoi(s) == Ok(-(DigitsValue(s[1..]) as int))
    ensures 1 < |s| && s[0] == '-' && AllDigits(s[1..]) && DigitsValue(s[1..]) > -MinInt ==> Atoi(s) == Err(RangeError)
  {
  }

  // ---------------------------------------------------------------------------
  // go-funk helpers
  // ---------------------------------------------------------------------------

  /** `funk.UniqString` continued after the strings in `seen`: keeps the first
      occurrence of each string, in order. */
  function UniqAfter(s: seq<string>, seen: set<string>): (r: seq<string>)
    ensures NoDup(r)
    ensures forall x :: x in r <==> x in s && x !in seen
  {
    if |s| == 0 then []
    else if s[0] in seen then UniqAfter(s[1..], seen)
    else
      var rest := UniqAfter(s[1..], seen + {s[0]});
      assert forall j | 0 <= j < |rest| :: rest[j] != s[0];
      [s[0]] + rest
  }

  /** `funk.UniqString`. */
  function Uniq(s: seq<string>): (r: seq<string>)
    ensures NoDup(r)
    ensures forall x :: x in r <==> x in s
  {
    UniqAfter(s, {})
  }

  /** `funk.UniqString` leaves a duplicate-free list as it is, so applying it
      twice is applying it once. */
  lemma UniqIdempotent(s: seq<string>)
    ensures NoDup(s) ==> Uniq(s) == s
    ensures Uniq(Uniq(s)) == Uniq(s)
  {
    UniqAfterKeepsDistinct(Uniq(s), {});
    if NoDup(s) {
      UniqAfterKeepsDistinct(s, {});
    }
  }

  /** A sequence without duplicates is left as it is. */
  lemma {:induction false} UniqAfterKeepsDistinct(s: seq<string>, seen: set<string>)
    requires NoDup(s)
    requires forall i | 0 <= i < |s| :: s[i] !in seen
    ensures UniqAfter(s, seen) == s
  {
    if |s| > 0 {
      assert s[0] !in s[1..] by {
        forall j | 0 <= j < |s[1..]|
          ensures s[1..][j] != s[0]
        {
          assert s[1..][j] == s[j + 1];
        }
      }
      UniqAfterKeepsDistinct(s[1..], seen + {s[0]});
    }
  }
}
