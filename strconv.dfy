/**
  A model of the two routines of Go's strconv package that the trace-id
  conversion relies on: ParseUint(s, base, 64) and FormatUint(v, base).
  Go strings are byte strings; here every char stands for one byte, which
  is exact for the ASCII digits these routines accept and produce.
 */
module StrConv {
  import opened Optional

  const MaxUint64: nat := 0xFFFF_FFFF_FFFF_FFFF

  /** Go's uint64. */
  type U64 = v: nat | v <= MaxUint64

  /** The explicit bases 2..36 that ParseUint and FormatUint accept. */
  type Base = b: nat | 2 <= b <= 36 witness 10

  /** ParseUint's outcome: a value, or one of the two error kinds it reports. */
  datatype ParseResult = Parsed(value: U64) | SyntaxError | RangeError

  function Pow(b: nat, k: nat): nat
  {
    if k == 0 then 1 else b * Pow(b, k - 1)
  }

  /** The value ParseUint gives a byte before comparing it with the base:
      decimal digits, then letters of either case from 10 upwards. */
  function DigitValue(c: char): (d: Option<nat>)
    ensures d.Some? ==> d.value < 36
  {
    if '0' <= c <= '9' then Some(c as nat - '0' as nat)
    else if 'a' <= c <= 'z' then Some(c as nat - 'a' as nat + 10)
    else if 'A' <= c <= 'Z' then Some(c as nat - 'A' as nat + 10)
    else None
  }

  predicate IsDigit(c: char, base: Base)
  {
    DigitValue(c).Some? && DigitValue(c).value < base
  }

  predicate AllDigits(s: string, base: Base)
  {
    forall i :: 0 <= i < |s| ==> IsDigit(s[i], base)
  }

  /** The positional value of a digit string, most significant digit first. */
  function Value(s: string, base: Base): nat
    requires AllDigits(s, base)
    decreases |s|
  {
    if s == [] then 0
    else Value(s[..|s| - 1], base) * base + DigitValue(s[|s| - 1]).value
  }

  /** The digit FormatUint writes for d: 0-9, then lower-case letters. */
  function DigitChar(d: nat): (c: char)
    requires d < 36
    ensures DigitValue(c) == Some(d)
    ensures '0' <= c <= '9' || 'a' <= c <= 'z'
  {
    if d < 10 then ('0' as nat + d) as char else ('a' as nat + d - 10) as char
  }

  /** A digit string as FormatUint writes it: non-empty, lower-case digits
      below the base, and no leading zero unless it is "0" itself. */
  predicate IsCanonical(s: string, base: Base)
  {
    && s != []
    && AllDigits(s, base)
    && (forall i :: 0 <= i < |s| ==> '0' <= s[i] <= '9' || 'a' <= s[i] <= 'z')
    && (s[0] == '0' ==> s == "0")
  }

  /** The smallest n for which n * base exceeds MaxUint64. */
  function Cutoff(base: Base): nat
  {
    MaxUint64 / base + 1
  }

  /**
    strconv.ParseUint(s, base, 64): an empty string is a syntax error;
    otherwise the digits are accumulated left to right, stopping at the
    first byte that is not a digit of the base (syntax error) or at the
    first digit that would take the value past MaxUint64 (range error).
   */
  function ParseUint(s: string, base: Base): (r: ParseResult)
    ensures r.Parsed? <==> s != [] && AllDigits(s, base) && Value(s, base) <= MaxUint64
    ensures r.Parsed? ==> r.value == Value(s, base)
    ensures s == [] ==> r == SyntaxError
    ensures s != [] && AllDigits(s, base) && Value(s, base) > MaxUint64 ==> r == RangeError
  {
    if s == [] then SyntaxError
    else
      assert s[..0] == [];
      AccumulateMeaning(s, base, 0);
      Accumulate(s, base, 0, 0)
  }

  /** The body of ParseUint's loop from byte i on, with n accumulated so far. */
  function Accumulate(s: string, base: Base, i: nat, n: U64): ParseResult
    requires i <= |s|
    decreases |s| - i
  {
    if i == |s| then Parsed(n)
    else if !IsDigit(s[i], base) then SyntaxError
    else if n >= Cutoff(base) then RangeError
    else
      // n < Cutoff(base) keeps n * base within 64 bits; Go detects the
      // wrap-around of n * base + d by comparing, here the bound is explicit
      var n1 := n * base + DigitValue(s[i]).value;
      if n1 > MaxUint64 then RangeError
      else Accumulate(s, base, i + 1, n1)
  }

  lemma PrefixStep(s: string, base: Base, i: nat)
    requires i < |s| && AllDigits(s[..i + 1], base)
    ensures s[..i + 1][..i] == s[..i]
    ensures AllDigits(s[..i], base)
    ensures Value(s[..i + 1], base) == Value(s[..i], base) * base + DigitValue(s[i]).value
  {
    assert s[..i + 1][..i] == s[..i];
  }

  // Multiplication facts, each kept in a lemma of its own so that the
  // proofs about digit strings stay linear.

  lemma MulMonotone(x: nat, y: nat, b: nat)
    requires x <= y
    ensures x * b <= y * b
  {
  }

  lemma MulGrows(x: nat, b: nat)
    requires b >= 1
    ensures x <= x * b
  {
  }

  lemma DivModParts(v: nat, b: nat)
    requires b >= 2
    ensures v == (v / b) * b + v % b && v % b < b
    ensures v >= b ==> 1 <= v / b < v
  {
  }

  lemma DivModOf(q: nat, r: nat, b: nat)
    requires b >= 2 && r < b
    ensures (q * b + r) / b == q && (q * b + r) % b == r
  {
    var v := q * b + r;
    DivModParts(v, b);
    if q < v / b {
      DigitStepBelow(q, r, b, v / b);
      assert false;
    } else if v / b < q {
      DigitStepBelow(v / b, v % b, b, q);
      assert false;
    }
  }

  lemma Regroup(a: nat, x: nat, y: nat, b: nat, d: nat)
    ensures (a * x + y) * b + d == a * (b * x) + (y * b + d)
  {
  }

  lemma {:induction false} PowAdd(b: nat, m: nat, n: nat)
    ensures Pow(b, m + n) == Pow(b, m) * Pow(b, n)
    decreases m
  {
    if m > 0 {
      PowAdd(b, m - 1, n);
      assert Pow(b, m + n) == b * Pow(b, m - 1 + n);
      MulAssoc(b, Pow(b, m - 1), Pow(b, n));
    }
  }

  lemma MulAssoc(x: nat, y: nat, z: nat)
    ensures x * (y * z) == (x * y) * z
  {
  }

  lemma DivBelow(v: nat, b: nat, m: nat)
    requires b >= 2 && v < b * m
    ensures v / b < m
  {
    DivModParts(v, b);
    if v / b >= m {
      MulMonotone(m, v / b, b);
      assert false;
    }
  }

  lemma DigitStepBelow(n: nat, d: nat, b: nat, m: nat)
    requires n < m && d < b
    ensures n * b + d < m * b
  {
    MulMonotone(n + 1, m, b);
  }

  /** A longer prefix of a digit string never has a smaller value. */
  lemma {:induction false} PrefixValueMonotone(s: string, base: Base, j: nat, k: nat)
    requires j <= k <= |s| && AllDigits(s, base)
    ensures AllDigits(s[..j], base) && AllDigits(s[..k], base)
    ensures Value(s[..j], base) <= Value(s[..k], base)
    decreases k - j
  {
    if j < k {
      PrefixValueMonotone(s, base, j, k - 1);
      assert AllDigits(s[..k], base);
      PrefixStep(s, base, k - 1);
      MulGrows(Value(s[..k - 1], base), base);
    }
  }

  lemma CutoffExceeds(n: nat, base: Base)
    requires n >= Cutoff(base)
    ensures n * base > MaxUint64
  {
    DivModParts(MaxUint64, base);
    MulMonotone(Cutoff(base), n, base);
  }

  /** The loop, started in the state it reaches after the first i bytes,
      parses exactly the digit strings whose value fits in 64 bits. */
  lemma {:induction false} AccumulateMeaning(s: string, base: Base, i: nat)
    requires i <= |s| && AllDigits(s[..i], base) && Value(s[..i], base) <= MaxUint64
    ensures var r := Accumulate(s, base, i, Value(s[..i], base));
      && (r.Parsed? <==> AllDigits(s, base) && Value(s, base) <= MaxUint64)
      && (r.Parsed? ==> r.value == Value(s, base))
      && (AllDigits(s, base) && Value(s, base) > MaxUint64 ==> r == RangeError)
    decreases |s| - i
  {
    var n := Value(s[..i], base);
    if i == |s| {
      assert s[..i] == s;
    } else if !IsDigit(s[i], base) {
      assert !AllDigits(s, base);
    } else {
      assert AllDigits(s[..i + 1], base);
      PrefixStep(s, base, i);
      if n >= Cutoff(base) {
        CutoffExceeds(n, base);
        if AllDigits(s, base) {
          PrefixValueMonotone(s, base, i + 1, |s|);
          assert s[..|s|] == s;
        }
      } else if n * base + DigitValue(s[i]).value > MaxUint64 {
        if AllDigits(s, base) {
          PrefixValueMonotone(s, base, i + 1, |s|);
          assert s[..|s|] == s;
        }
      } else {
        AccumulateMeaning(s, base, i + 1);
      }
    }
  }

  /** The loop meets the first byte j that is not a digit of the base: it
      reports a syntax error there, unless the digits before it already
      overflowed, in which case it stopped earlier with a range error. */
  lemma {:induction false} AccumulateStopsAt(s: string, base: Base, i: nat, j: nat)
    requires i <= j < |s| && AllDigits(s[..j], base) && !IsDigit(s[j], base)
    requires AllDigits(s[..i], base) && Value(s[..i], base) <= MaxUint64
    ensures Accumulate(s, base, i, Value(s[..i], base)) ==
      if Value(s[..j], base) <= MaxUint64 then SyntaxError else RangeError
    decreases j - i
  {
    var n := Value(s[..i], base);
    if i < j {
      assert s[..j][i] == s[i];
      assert s[..j][..i + 1] == s[..i + 1] && s[..j][..j] == s[..j];
      assert AllDigits(s[..i + 1], base);
      PrefixStep(s, base, i);
      PrefixValueMonotone(s[..j], base, i + 1, j);
      if n >= Cutoff(base) {
        CutoffExceeds(n, base);
      } else if n * base + DigitValue(s[i]).value <= MaxUint64 {
        AccumulateStopsAt(s, base, i + 1, j);
      }
    }
  }

  /** ParseUint's error for a string with a byte j that is not a digit of
      the base, all bytes before it being digits: a syntax error, unless
      those digits already exceed MaxUint64, which is a range error. */
  lemma ParseUintStopsAtNonDigit(s: string, base: Base, j: nat)
    requires j < |s| && AllDigits(s[..j], base) && !IsDigit(s[j], base)
    ensures ParseUint(s, base) == if Value(s[..j], base) <= MaxUint64 then SyntaxError else RangeError
  {
    assert s[..0] == [];
    AccumulateStopsAt(s, base, 0, j);
  }

  /**
    strconv.FormatUint(v, base): the digits of v, most significant first,
    in lower case and without leading zeros.
   */
  function FormatUint(v: U64, base: Base): (s: string)
    ensures IsCanonical(s, base)
    ensures Value(s, base) == v
    ensures s[0] == '0' <==> v == 0
    decreases v
  {
    if v < base then [DigitChar(v)]
    else
      DivModParts(v, base);
      var p := FormatUint(v / base, base);
      var s := p + [DigitChar(v % base)];
      assert s[..|s| - 1] == p;
      s
  }

  /** FormatUint needs at most k digits for a value below base^k. */
  lemma {:induction false} FormatUintLength(v: U64, base: Base, k: nat)
    requires 1 <= k && v < Pow(base, k)
    ensures |FormatUint(v, base)| <= k
    decreases k
  {
    if v >= base {
      assert Pow(base, 1) == base;
      assert k >= 2;
      DivBelow(v, base, Pow(base, k - 1));
      FormatUintLength(v / base, base, k - 1);
    }
  }

  /** A string of k digits has a value below base^k. */
  lemma {:induction false} ValueBound(s: string, base: Base)
    requires AllDigits(s, base)
    ensures Value(s, base) < Pow(base, |s|)
    decreases |s|
  {
    if s != [] {
      var p := s[..|s| - 1];
      assert AllDigits(p, base);
      ValueBound(p, base);
      DigitStepBelow(Value(p, base), DigitValue(s[|s| - 1]).value, base, Pow(base, |p|));
    }
  }

  lemma ConcatDigits(p: string, q: string, base: Base)
    requires AllDigits(p, base) && AllDigits(q, base)
    ensures AllDigits(p + q, base)
  {
    forall i | 0 <= i < |p + q| ensures IsDigit((p + q)[i], base) {
      if i >= |p| { assert (p + q)[i] == q[i - |p|]; }
    }
  }

  /** The value of a concatenation: the first part shifted by the second's length. */
  lemma {:induction false} ValueConcat(p: string, q: string, base: Base)
    requires AllDigits(p, base) && AllDigits(q, base)
    ensures AllDigits(p + q, base)
    ensures Value(p + q, base) == Value(p, base) * Pow(base, |q|) + Value(q, base)
    decreases |q|
  {
    ConcatDigits(p, q, base);
    if q == [] {
      assert p + q == p;
    } else {
      var q' := q[..|q| - 1];
      var d := DigitValue(q[|q| - 1]).value;
      assert AllDigits(q', base);
      assert (p + q)[..|p + q| - 1] == p + q';
      ValueConcat(p, q', base);
      Regroup(Value(p, base), Pow(base, |q'|), Value(q', base), base, d);
      assert |q| - 1 == |q'|;
      assert Pow(base, |q|) == base * Pow(base, |q'|);
    }
  }

  /** Round trip: parsing what FormatUint writes gives the value back. */
  lemma FormatParseRoundTrip(v: U64, base: Base)
    ensures ParseUint(FormatUint(v, base), base) == Parsed(v)
  {
  }

  /** The other direction: a canonical digit string is exactly what
      FormatUint writes for its value. */
  lemma {:induction false} ParseFormatRoundTrip(s: string, base: Base)
    requires IsCanonical(s, base) && Value(s, base) <= MaxUint64
    ensures FormatUint(Value(s, base), base) == s
    decreases |s|
  {
    var d := DigitValue(s[|s| - 1]).value;
    var c := s[|s| - 1];
    assert DigitChar(d) == c;
    if |s| == 1 {
      assert s == [c];
      assert s[..0] == [];
    } else {
      var p := s[..|s| - 1];
      assert p[0] == s[0];
      assert IsCanonical(p, base);
      var w := Value(p, base);
      if w == 0 {
        LeadingDigitZero(p, base);
        assert false;
      }
      assert Value(s, base) == w * base + d;
      MulGrows(w, base);
      ParseFormatRoundTrip(p, base);
      MulMonotone(1, w, base);
      DivModOf(w, d, base);
      assert s == p + [c];
    }
  }

  /** A digit string of value zero starts with '0'. */
  lemma {:induction false} LeadingDigitZero(s: string, base: Base)
    requires s != [] && AllDigits(s, base) && Value(s, base) == 0
    ensures s[0] == '0'
    decreases |s|
  {
    var p := s[..|s| - 1];
    assert AllDigits(p, base);
    if |s| == 1 {
      assert s[..0] == [];
      assert DigitValue(s[0]).value == 0;
    } else {
      MulGrows(Value(p, base), base);
      LeadingDigitZero(p, base);
      assert p[0] == s[0];
    }
  }
}
