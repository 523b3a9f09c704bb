/**
 * The integer conversions of Go's `strconv`, `fmt` and `math/big` packages
 * that the parsers of this repository call, with Go's error values and
 * 64-bit two's-complement arithmetic written out.
 */
module GoStrconv {
  import opened Wrappers

  const TwoTo63: int := 0x8000_0000_0000_0000
  const TwoTo64: int := 0x1_0000_0000_0000_0000

  /** Go's int64 (and int, on the 64-bit platforms the daemon runs on). */
  type Int64 = x: int | -TwoTo63 <= x < TwoTo63

  /** The int64 with the same low 64 bits as `x`: Go's wrap-around on overflow and on int64(...) conversions. */
  function Wrap64(x: int): (r: Int64)
    ensures -TwoTo63 <= x < TwoTo63 ==> r == x
  {
    if -TwoTo63 <= x < TwoTo63 then x else (x + TwoTo63) % TwoTo64 - TwoTo63
  }

  /** Wrapping keeps the value modulo 2^64. */
  lemma {:induction false} WrapKeepsResidue(x: int)
    ensures (x - Wrap64(x)) % TwoTo64 == 0
  {
    var q := (x + TwoTo63) / TwoTo64;
    assert x + TwoTo63 == q * TwoTo64 + (x + TwoTo63) % TwoTo64;
    assert x - Wrap64(x) == q * TwoTo64;
    ModMultiple(0, q, TwoTo64);
  }

  /** Integers that agree modulo 2^64 wrap to the same int64. */
  lemma {:induction false} WrapCongruent(x: int, y: int)
    requires (x - y) % TwoTo64 == 0
    ensures Wrap64(x) == Wrap64(y)
  {
    var d := (x - y) / TwoTo64;
    assert x + TwoTo63 == (y + TwoTo63) + d * TwoTo64;
    ModMultiple(y + TwoTo63, d, TwoTo64);
  }

  /** Multiplying by a non-negative factor keeps the order. */
  lemma {:induction false} MulMono(x: int, y: int, k: int)
    requires x <= y && 0 <= k
    ensures x * k <= y * k
  {
  }

  /** Euclidean division is determined by quotient and remainder. */
  lemma {:induction false} ModUnique(x: int, m: int, q: int, r: int)
    requires m > 0 && x == q * m + r && 0 <= r < m
    ensures x % m == r
  {
    var q2, r2 := x / m, x % m;
    assert x == q2 * m + r2 && 0 <= r2 < m;
    assert (q - q2) * m == r2 - r;
    if q - q2 >= 1 {
      MulMono(1, q - q2, m);
      assert false;
    }
    if q - q2 <= -1 {
      MulMono(q - q2, -1, m);
      assert false;
    }
  }

  /** Adding a multiple of m leaves the remainder modulo m unchanged. */
  lemma {:induction false} ModMultiple(a: int, d: int, m: int)
    requires m > 0
    ensures (a + d * m) % m == a % m
  {
    var q, r := a / m, a % m;
    assert a == q * m + r;
    assert a + d * m == (q + d) * m + r;
    ModUnique(a + d * m, m, q + d, r);
  }

  /** Wrapping an intermediate sum does not change the wrapped total. */
  lemma {:induction false} WrapAdd(a: int, b: int)
    ensures Wrap64(Wrap64(a) + b) == Wrap64(a + b)
    ensures Wrap64(b - Wrap64(a)) == Wrap64(b - a)
  {
    WrapCongruent(Wrap64(a) + b, a + b);
    WrapCongruent(b - Wrap64(a), b - a);
  }

  /** Go's integer division, which truncates toward zero (Dafny's `/` is Euclidean). */
  function GoDiv(a: int, b: int): (q: int)
    requires b != 0
    ensures a >= 0 && b > 0 ==> q == a / b
  {
    var m := (if a < 0 then -a else a) / (if b < 0 then -b else b);
    if (a < 0) == (b < 0) then m else -m
  }

  /** The value of an ASCII digit or letter, as strconv reads it: '0'-'9', then 'a'/'A' = 10 up to 'z'/'Z' = 35. */
  function DigitValue(c: char): (d: Option<nat>)
    ensures d.Some? ==> d.value < 36
  {
    if '0' <= c <= '9' then Some(c as int - '0' as int)
    else if 'a' <= c <= 'z' then Some(c as int - 'a' as int + 10)
    else if 'A' <= c <= 'Z' then Some(c as int - 'A' as int + 10)
    else None
  }

  /** ASCII lower case, as strconv's base-prefix test uses it. */
  function Lower(c: char): char {
    if 'A' <= c <= 'Z' then (c as int - 'A' as int + 'a' as int) as char else c
  }

  /**
   * The outcome of strconv.ParseUint / ParseInt. Go returns an integer beside
   * the error: 0 for a syntax error, the bound that was exceeded for a range error.
   */
  datatype NumResult = Parsed(n: int) | SyntaxError | RangeError(clamped: int) {
    /** The integer Go returns together with the error. */
    function Value(): int {
      match this
      case Parsed(n) => n
      case SyntaxError => 0
      case RangeError(c) => c
    }
  }

  /** 2^bitSize for the bit sizes the repository passes to strconv. */
  function UnsignedLimit(bitSize: nat): (r: int)
    requires bitSize == 8 || bitSize == 16 || bitSize == 64
    ensures r == 2 * SignedLimit(bitSize)
  {
    if bitSize == 8 then 0x100 else if bitSize == 16 then 0x1_0000 else TwoTo64
  }

  /** 2^(bitSize-1): the magnitude of the most negative signed value. */
  function SignedLimit(bitSize: nat): (r: int)
    requires bitSize == 8 || bitSize == 16 || bitSize == 64
    ensures r > 0
  {
    if bitSize == 8 then 0x80 else if bitSize == 16 then 0x8000 else TwoTo63
  }

  /**
   * The digit loop of strconv.ParseUint: left to right, a character that is not
   * a digit of `base` is a syntax error, and the first step past `maxVal` is a
   * range error that ends the scan.
   */
  function AccumulateDigits(s: string, base: nat, maxVal: nat, acc: nat): (r: NumResult)
    requires 2 <= base <= 36 && acc <= maxVal
    ensures r.Parsed? ==> acc <= r.n <= maxVal
    ensures r.RangeError? ==> r.clamped == maxVal
    decreases |s|
  {
    if s == [] then Parsed(acc)
    else match DigitValue(s[0])
      case None => SyntaxError
      case Some(d) =>
        if d >= base then SyntaxError
        else
          var next := acc * base + d;
          assert acc <= next by { MulMono(1, base, acc); }
          if next > maxVal then RangeError(maxVal)
          else AccumulateDigits(s[1..], base, maxVal, next)
  }

  /**
   * strconv.ParseUint(s, base, bitSize). Base 0 reads a "0b", "0o" or "0x"
   * prefix (any case, when at least one character follows it) and otherwise
   * treats a leading '0' as octal.
   */
  function ParseUint(s: string, base: nat, bitSize: nat): (r: NumResult)
    requires base == 0 || 2 <= base <= 36
    requires bitSize == 8 || bitSize == 16 || bitSize == 64
    ensures r.Parsed? ==> 0 <= r.n < UnsignedLimit(bitSize)
    ensures r.RangeError? ==> r.clamped == UnsignedLimit(bitSize) - 1
    ensures s == [] ==> r == SyntaxError
  {
    if s == [] then SyntaxError
    else
      var maxVal: nat := UnsignedLimit(bitSize) - 1;
      if base != 0 then AccumulateDigits(s, base, maxVal, 0)
      else if s[0] != '0' then AccumulateDigits(s, 10, maxVal, 0)
      else if |s| >= 3 && Lower(s[1]) == 'b' then AccumulateDigits(s[2..], 2, maxVal, 0)
      else if |s| >= 3 && Lower(s[1]) == 'o' then AccumulateDigits(s[2..], 8, maxVal, 0)
      else if |s| >= 3 && Lower(s[1]) == 'x' then AccumulateDigits(s[2..], 16, maxVal, 0)
      else AccumulateDigits(s[1..], 8, maxVal, 0)
  }

  /**
   * strconv.ParseInt(s, base, bitSize): an optional sign, then ParseUint of the
   * rest; a magnitude outside the signed range is a range error carrying the
   * nearer bound.
   */
  function ParseInt(s: string, base: nat, bitSize: nat): (r: NumResult)
    requires base == 0 || 2 <= base <= 36
    requires bitSize == 8 || bitSize == 16 || bitSize == 64
    ensures r.Parsed? ==> -SignedLimit(bitSize) <= r.n < SignedLimit(bitSize)
    ensures r.RangeError? ==> r.clamped == SignedLimit(bitSize) - 1 || r.clamped == -SignedLimit(bitSize)
    ensures s == [] ==> r == SyntaxError
  {
    if s == [] then SyntaxError
    else
      var neg := s[0] == '-';
      var digits := if s[0] == '+' || s[0] == '-' then s[1..] else s;
      var cutoff := SignedLimit(bitSize);
      var u := ParseUint(digits, base, bitSize);
      if u.SyntaxError? then SyntaxError
      else
        var un := if u.Parsed? then u.n else u.clamped;
        if !neg && un >= cutoff then RangeError(cutoff - 1)
        else if neg && un > cutoff then RangeError(-cutoff)
        else Parsed(if neg then -un else un)
  }

  /** strconv.Atoi on a 64-bit platform: the same outcome as ParseInt(s, 10, 64) (only the error text differs). */
  function Atoi(s: string): NumResult {
    ParseInt(s, 10, 64)
  }

  function DigitChar(d: nat): (c: char)
    requires d < 10
    ensures DigitValue(c) == Some(d)
  {
    ('0' as int + d) as char
  }

  /** The decimal digits of `n`, most significant first, without leading zeros. */
  function DecimalDigits(n: nat): (s: string)
    ensures s != []
    ensures forall c :: c in s ==> '0' <= c <= '9'
  {
    if n < 10 then [DigitChar(n)] else DecimalDigits(n / 10) + [DigitChar(n % 10)]
  }

  /** fmt.Sprintf("%d", n), strconv.Itoa(n). */
  function FormatInt(n: int): (s: string)
    ensures s != [] && s[0] != '#' && s[0] != '+'
    ensures forall c :: c in s ==> c == '-' || '0' <= c <= '9'
  {
    if n < 0 then "-" + DecimalDigits(-n)
    else
      var d := DecimalDigits(n);
      assert d[0] in d;
      d
  }

  /** Appending one character to text whose digits all fit continues the scan from the value reached. */
  lemma {:induction false} AccumulateSnoc(p: string, c: char, base: nat, maxVal: nat, acc: nat)
    requires 2 <= base <= 36 && acc <= maxVal
    requires AccumulateDigits(p, base, maxVal, acc).Parsed?
    ensures AccumulateDigits(p + [c], base, maxVal, acc)
         == AccumulateDigits([c], base, maxVal, AccumulateDigits(p, base, maxVal, acc).n)
    decreases |p|
  {
    if p == [] {
      assert p + [c] == [c];
    } else {
      assert (p + [c])[0] == p[0];
      assert (p + [c])[1..] == p[1..] + [c];
      var d := DigitValue(p[0]).value;
      AccumulateSnoc(p[1..], c, base, maxVal, acc * base + d);
    }
  }

  /** The scan reads back the decimal digits of any value within its bound. */
  lemma {:induction false} DecimalDigitsRoundTrip(n: nat, maxVal: nat)
    requires n <= maxVal
    ensures AccumulateDigits(DecimalDigits(n), 10, maxVal, 0) == Parsed(n)
  {
    if n >= 10 {
      DecimalDigitsRoundTrip(n / 10, maxVal);
      AccumulateSnoc(DecimalDigits(n / 10), DigitChar(n % 10), 10, maxVal, 0);
      assert [DigitChar(n % 10)][1..] == [];
    } else {
      assert [DigitChar(n)][1..] == [];
    }
  }

  /** ParseInt(FormatInt(n), 10, bitSize) gives back every n in the signed range of bitSize. */
  lemma {:induction false} FormatParseRoundTrip(n: int, bitSize: nat)
    requires bitSize == 8 || bitSize == 16 || bitSize == 64
    requires -SignedLimit(bitSize) <= n < SignedLimit(bitSize)
    ensures ParseInt(FormatInt(n), 10, bitSize) == Parsed(n)
  {
    var maxVal: nat := UnsignedLimit(bitSize) - 1;
    if n < 0 {
      DecimalDigitsRoundTrip(-n, maxVal);
      assert ("-" + DecimalDigits(-n))[1..] == DecimalDigits(-n);
    } else {
      DecimalDigitsRoundTrip(n, maxVal);
      assert DecimalDigits(n)[0] in DecimalDigits(n);
    }
  }

  /** A digit scan that stays within a bound gives the same value under any larger bound. */
  lemma {:induction false} AccumulateWiden(s: string, base: nat, small: nat, big: nat, acc: nat)
    requires 2 <= base <= 36 && acc <= small <= big
    requires AccumulateDigits(s, base, small, acc).Parsed?
    ensures AccumulateDigits(s, base, big, acc) == AccumulateDigits(s, base, small, acc)
    decreases |s|
  {
    if s != [] {
      var d := DigitValue(s[0]).value;
      AccumulateWiden(s[1..], base, small, big, acc * base + d);
    }
  }

  /** A value that ParseInt reads in a smaller bit size is read the same in a larger one. */
  lemma {:induction false} ParseIntWiden(s: string, base: nat, small: nat, big: nat)
    requires 2 <= base <= 36
    requires small == 8 || small == 16 || small == 64
    requires big == 8 || big == 16 || big == 64
    requires small <= big
    requires ParseInt(s, base, small).Parsed?
    ensures ParseInt(s, base, big) == ParseInt(s, base, small)
  {
    var digits := if s[0] == '+' || s[0] == '-' then s[1..] else s;
    assert UnsignedLimit(small) <= UnsignedLimit(big);
    AccumulateWiden(digits, base, UnsignedLimit(small) - 1, UnsignedLimit(big) - 1, 0);
  }

  /** The value of a string of digits of `base`, with no bound (math/big); None if a character is not such a digit. */
  function DigitsValue(s: string, base: nat, acc: nat): (r: Option<nat>)
    requires 2 <= base <= 36
    ensures r.Some? ==> acc <= r.value
    decreases |s|
  {
    if s == [] then Some(acc)
    else match DigitValue(s[0])
      case None => None
      case Some(d) =>
        if d >= base then None
        else
          var next := acc * base + d;
          assert acc <= next by { MulMono(1, base, acc); }
          DigitsValue(s[1..], base, next)
  }

  /** Reading back the decimal digits of n gives n. */
  lemma {:induction false} DecimalDigitsValueRoundTrip(n: nat)
    ensures DigitsValue(DecimalDigits(n), 10, 0) == Some(n)
    decreases n
  {
    if n < 10 {
      assert DigitsValue([DigitChar(n)][1..], 10, n) == Some(n);
    } else {
      DecimalDigitsValueRoundTrip(n / 10);
      var last := [DigitChar(n % 10)];
      DigitsValueAppend(DecimalDigits(n / 10), last, 10, 0);
      assert last[1..] == [];
    }
  }

  /** Decimal digits always have a value. */
  lemma {:induction false} DecimalDigitsValue(s: string, acc: nat)
    requires forall k :: 0 <= k < |s| ==> '0' <= s[k] <= '9'
    ensures DigitsValue(s, 10, acc).Some?
    decreases |s|
  {
    if s != [] {
      var d := DigitValue(s[0]).value;
      DecimalDigitsValue(s[1..], acc * 10 + d);
    }
  }

  /** Reading a concatenation continues from the value of its first part. */
  lemma {:induction false} DigitsValueAppend(s: string, t: string, base: nat, acc: nat)
    requires 2 <= base <= 36
    ensures DigitsValue(s + t, base, acc)
         == match DigitsValue(s, base, acc)
            case None => None
            case Some(v) => DigitsValue(t, base, v)
    decreases |s|
  {
    if s == [] {
      assert s + t == t;
    } else {
      assert (s + t)[0] == s[0];
      assert (s + t)[1..] == s[1..] + t;
      match DigitValue(s[0])
      case None =>
      case Some(d) =>
        if d < base {
          DigitsValueAppend(s[1..], t, base, acc * base + d);
        }
    }
  }

  /**
   * (*big.Int).SetString(s, 16): an optional sign and at least one hexadecimal
   * digit, no prefix and no other character.
   */
  function BigSetStringHex(s: string): (r: Option<int>)
    ensures s == [] ==> r == None
  {
    if s == [] then None
    else
      var neg := s[0] == '-';
      var digits := if s[0] == '+' || s[0] == '-' then s[1..] else s;
      if digits == [] then None
      else match DigitsValue(digits, 16, 0)
        case None => None
        case Some(v) => Some(if neg then -(v as int) else v)
  }

  /**
   * (*big.Int).Int64(): the low 64 bits of the magnitude as an int64, negated
   * for a negative number; that is the int64 congruent to the value modulo 2^64.
   */
  function BigInt64(v: int): Int64 {
    Wrap64(v)
  }
}
