// The portability layer (src/core/pt_compat.c): bounded string copy, the
// byte copy used from interrupt level, the flag-word bit operations the
// network notifiers and the main loop share, and the Classic Mac
// `pt_vsnprintf` with its integer formatter. The flag bits are in
// atomic_flags.dfy.
//
// C strings are `string`s read up to their first NUL ('\0'); a C buffer
// is an `array<char>`. Varargs become a
// sequence of `Arg` values.
module Compat {
  import opened PtTypes

  // ---------------------------------------------------------------------
  // C strings
  // ---------------------------------------------------------------------

  /** `strlen`: the index of the first NUL, or the whole length when there is none. */
  function StrLen(s: string): (r: nat)
    ensures r <= |s|
    ensures forall i :: 0 <= i < r ==> s[i] != '\0'
    ensures r < |s| ==> s[r] == '\0'
  {
    if |s| == 0 || s[0] == '\0' then 0 else 1 + StrLen(s[1..])
  }

  /** `n` copies of `c`. */
  function Rep(c: char, n: int): (r: string)
    ensures |r| == if n < 0 then 0 else n
  {
    seq(if n < 0 then 0 else n, _ => c)
  }

  /** At most the first `n` characters of `s`. */
  function Take(s: string, n: int): (r: string)
    ensures |r| == if |s| <= n then |s| else if n < 0 then 0 else n
    ensures r <= s
  {
    if |s| <= n then s else if n < 0 then [] else s[..n]
  }

  /**
   * The `n` bytes `pt_strncpy` leaves in `dest`: the string copied while
   * it lasts, NULs up to `n`, and the last byte forced to NUL.
   */
  function StrncpyResult(src: string, n: nat): (r: string)
  {
    var k := if n == 0 then 0 else Min(StrLen(src), n - 1);
    src[..k] + Rep('\0', n - k)
  }

  /**
   * With room for at least one byte the copy is always a terminated
   * string, and its length is that of `src` cut to `n - 1`; the rest of
   * the `n` bytes are NUL.
   */
  lemma StrncpyTerminates(src: string, n: nat)
    requires n > 0
    ensures var r := StrncpyResult(src, n);
            && |r| == n && r[n - 1] == '\0'
            && StrLen(r) == Min(StrLen(src), n - 1)
            && r[..StrLen(r)] == src[..StrLen(r)]
            && forall i :: StrLen(r) <= i < n ==> r[i] == '\0'
  {
    var k := Min(StrLen(src), n - 1);
    var r := StrncpyResult(src, n);
    assert r[k] == '\0';
    assert forall i :: 0 <= i < k ==> r[i] == src[i] != '\0';
    StrLenIs(r, k);
    assert r[..k] == src[..k];
  }

  /** A string whose first NUL is at `k` has length `k`. */
  lemma {:induction false} StrLenIs(s: string, k: nat)
    requires k < |s| && s[k] == '\0'
    requires forall i :: 0 <= i < k ==> s[i] != '\0'
    ensures StrLen(s) == k
    decreases k
  {
    if k > 0 {
      StrLenIs(s[1..], k - 1);
    }
  }

  /**
   * `pt_strncpy` (the Classic Mac loop; the POSIX build calls the C
   * library's `strncpy`, which copies and NUL-pads the same way, then
   * terminates alike). `src` must be readable up to its NUL or `n` bytes.
   */
  method Strncpy(dest: array<char>, src: string, n: nat)
    requires n <= dest.Length
    requires StrLen(src) < |src| || n <= |src|
    modifies dest
    ensures dest[..n] == StrncpyResult(src, n)
    ensures dest[n..] == old(dest[n..])
  {
    var i := 0;
    while i < n && src[i] != '\0'
      invariant 0 <= i <= n && i <= StrLen(src)
      invariant forall j :: 0 <= j < i ==> dest[j] == src[j]
      invariant forall j :: n <= j < dest.Length ==> dest[j] == old(dest[j])
    {
      dest[i] := src[i];
      i := i + 1;
    }
    ghost var copied := i;
    while i < n
      invariant copied <= i <= n
      invariant forall j :: 0 <= j < copied ==> dest[j] == src[j]
      invariant forall j :: copied <= j < i ==> dest[j] == '\0'
      invariant forall j :: n <= j < dest.Length ==> dest[j] == old(dest[j])
    {
      dest[i] := '\0';
      i := i + 1;
    }
    if n > 0 {
      dest[n - 1] := '\0';
    }
    ghost var r := StrncpyResult(src, n);
    ghost var k := if n == 0 then 0 else Min(StrLen(src), n - 1);
    assert |r| == n && k <= copied;
    assert forall j :: 0 <= j < n ==> dest[j] == r[j];
  }

  /** `pt_strlen` (the Classic Mac loop). */
  method Strlen(s: string) returns (len: nat)
    requires StrLen(s) < |s|
    ensures len == StrLen(s)
  {
    len := 0;
    while s[len] != '\0'
      invariant len <= StrLen(s)
      decreases StrLen(s) - len
    {
      len := len + 1;
    }
  }

  // ---------------------------------------------------------------------
  // Memory
  // ---------------------------------------------------------------------

  /**
   * `pt_memcpy_isr`: exactly `n` bytes, one at a time, from `src` to
   * `dest`; nothing past `n` is touched. `src` may be `dest` itself.
   */
  method MemcpyIsr(dest: array<byte>, src: array<byte>, n: nat)
    requires n <= dest.Length && n <= src.Length
    modifies dest
    ensures dest[..n] == old(src[..n])
    ensures dest[n..] == old(dest[n..])
  {
    var i := 0;
    while i < n
      invariant 0 <= i <= n
      invariant dest[..i] == old(src[..i])
      invariant src[i..] == old(src[i..]) && dest[i..] == old(dest[i..])
    {
      dest[i] := src[i];
      i := i + 1;
    }
  }

  /** `pt_memset` (the Classic Mac loop): the first `n` bytes become `c` truncated to a byte. */
  method Memset(dest: array<byte>, c: int, n: nat)
    requires n <= dest.Length
    modifies dest
    ensures forall i :: 0 <= i < n ==> dest[i] == U8(c)
    ensures dest[n..] == old(dest[n..])
  {
    var value := U8(c);
    var i := 0;
    while i < n
      invariant 0 <= i <= n
      invariant forall j :: 0 <= j < i ==> dest[j] == value
      invariant dest[n..] == old(dest[n..])
    {
      dest[i] := value;
      i := i + 1;
    }
  }

  /** Lexicographic comparison of byte strings of equal length: -1, 0 or 1. */
  function Compare(a: bytes, b: bytes): (r: int)
    requires |a| == |b|
    ensures r == 0 <==> a == b
    ensures r == -1 || r == 0 || r == 1
  {
    if |a| == 0 then 0
    else if a[0] != b[0] then (if a[0] < b[0] then -1 else 1)
    else
      var t := Compare(a[1..], b[1..]);
      assert a == [a[0]] + a[1..] && b == [b[0]] + b[1..];
      t
  }

  /** `pt_memcmp` (the Classic Mac loop): the sign of the first differing byte. */
  method Memcmp(a: array<byte>, b: array<byte>, n: nat) returns (r: int)
    requires n <= a.Length && n <= b.Length
    ensures r == Compare(a[..n], b[..n])
  {
    var i := 0;
    while i < n
      invariant 0 <= i <= n && a[..i] == b[..i]
      invariant Compare(a[..n], b[..n]) == Compare(a[i..n], b[i..n])
    {
      if a[i] != b[i] {
        return if a[i] < b[i] then -1 else 1;
      }
      assert a[i..n][1..] == a[i + 1..n] && b[i..n][1..] == b[i + 1..n];
      i := i + 1;
    }
    r := 0;
  }

  /** A differing position decides the comparison when everything before it agrees. */
  lemma CompareFirstDifference(a: bytes, b: bytes, k: nat)
    requires |a| == |b| && k < |a| && a[..k] == b[..k] && a[k] != b[k]
    ensures Compare(a, b) == (if a[k] < b[k] then -1 else 1)
    decreases k
  {
    if k > 0 {
      assert a[0] == a[..k][0] && b[0] == b[..k][0];
      assert a[1..][..k - 1] == a[..k][1..] && b[1..][..k - 1] == b[..k][1..];
      CompareFirstDifference(a[1..], b[1..], k - 1);
    }
  }

  // ---------------------------------------------------------------------
  // Integer formatting (Classic Mac)
  // ---------------------------------------------------------------------

  const LOWER_DIGITS: string := "0123456789abcdef"
  const UPPER_DIGITS: string := "0123456789ABCDEF"

  /** The digit character for `d` from the table `upper` picks. */
  function DigitChar(d: nat, upper: bool): (c: char)
    requires d < 16
  {
    (if upper then UPPER_DIGITS else LOWER_DIGITS)[d]
  }

  /** The value of a digit character of either case; -1 for any other character. */
  function DigitValue(c: char): (v: int)
    ensures -1 <= v < 16
  {
    if '0' <= c <= '9' then c as int - '0' as int
    else if 'a' <= c <= 'f' then c as int - 'a' as int + 10
    else if 'A' <= c <= 'F' then c as int - 'A' as int + 10
    else -1
  }

  /** Each table entry reads back as its index. */
  lemma DigitCharValue(d: nat, upper: bool)
    requires d < 16
    ensures DigitValue(DigitChar(d, upper)) == d
  {
  }

  /** `u` with its last base-`base` digit dropped. */
  function Shift(u: nat, base: nat): (q: nat)
    requires base == 10 || base == 16
    ensures q <= u / 10 && (u > 0 ==> q < u)
  {
    if base == 10 then u / 10 else u / 16
  }

  /** The last base-`base` digit of `u`. */
  function Low(u: nat, base: nat): (d: nat)
    requires base == 10 || base == 16
    ensures d < base
    ensures if base == 10 then Shift(u, 10) * 10 + d == u else Shift(u, 16) * 16 + d == u
  {
    if base == 10 then u % 10 else u % 16
  }

  /** The base-`base` digits of `u`, most significant first; none for 0. */
  function Digits(u: nat, base: nat, upper: bool): (r: string)
    requires base == 10 || base == 16
    ensures |r| >= 1 <==> u > 0
    decreases u
  {
    if u == 0 then [] else Digits(Shift(u, base), base, upper) + [DigitChar(Low(u, base), upper)]
  }

  /** The digits `pt_format_int` produces for `u`: a lone "0" for zero. */
  function Numeral(u: nat, base: nat, upper: bool): (r: string)
    requires base == 10 || base == 16
    ensures |r| >= 1
  {
    if u == 0 then "0" else Digits(u, base, upper)
  }

  /** The value a digit string denotes in base `base`. */
  function DigitsValue(s: string, base: nat): (v: int)
    requires base == 10 || base == 16
  {
    if |s| == 0 then 0
    else
      var high := DigitsValue(s[..|s| - 1], base);
      (if base == 10 then high * 10 else high * 16) + DigitValue(s[|s| - 1])
  }

  /** Reading the digits back gives the number: the conversion loses nothing. */
  lemma {:induction false} DigitsRoundTrip(u: nat, base: nat, upper: bool)
    requires base == 10 || base == 16
    ensures DigitsValue(Digits(u, base, upper), base) == u
    decreases u
  {
    if u > 0 {
      var d := Digits(u, base, upper);
      DigitsRoundTrip(Shift(u, base), base, upper);
      DigitCharValue(Low(u, base), upper);
      assert d[..|d| - 1] == Digits(Shift(u, base), base, upper);
    }
  }

  /** The numeral of `u` reads back as `u`. */
  lemma NumeralRoundTrip(u: nat, base: nat, upper: bool)
    requires base == 10 || base == 16
    ensures DigitsValue(Numeral(u, base, upper), base) == u
  {
    if u == 0 {
      assert Numeral(u, base, upper)[..0] == [];
    } else {
      DigitsRoundTrip(u, base, upper);
    }
  }

  /** Fewer than `10^k` means at most `k` digits, in base 10 or 16. */
  lemma {:induction false} DigitsShort(u: nat, base: nat, upper: bool, k: nat)
    requires base == 10 || base == 16
    requires u < Pow10(k)
    ensures |Digits(u, base, upper)| <= k
    decreases u
  {
    if u > 0 {
      DigitsShort(Shift(u, base), base, upper, k - 1);
    }
  }

  function Pow10(k: nat): (r: nat)
  {
    if k == 0 then 1 else 10 * Pow10(k - 1)
  }

  /** A 32-bit magnitude has at most ten digits. */
  lemma MagnitudeDigits(u: nat, base: nat, upper: bool)
    requires base == 10 || base == 16
    requires u <= 0xFFFF_FFFF
    ensures |Digits(u, base, upper)| <= 10
  {
    assert Pow10(10) == 10_000_000_000;
    DigitsShort(u, base, upper, 10);
  }

  /** The reverse of a sequence. */
  function Reverse(s: string): (r: string)
    ensures |r| == |s|
  {
    seq(|s|, k requires 0 <= k < |s| => s[|s| - 1 - k])
  }

  /** Whether `pt_format_int` prints a minus sign. */
  predicate Negative(value: int, signed: bool)
  {
    signed && value < 0
  }

  /**
   * The magnitude it prints: the negation of a negative signed value,
   * otherwise the value read as a 32-bit unsigned long.
   */
  function Magnitude(value: int, signed: bool): (u: nat)
    requires -0x8000_0000 <= value < 0x8000_0000
    ensures u <= 0xFFFF_FFFF
  {
    if Negative(value, signed) then -value else value % 0x1_0000_0000
  }

  /**
   * The full text for a sign and digits padded to `width`: zero padding
   * goes between the sign and the digits, space padding before the sign.
   */
  function PaddedText(negative: bool, digits: string, width: int, zeroPad: bool): (r: string)
  {
    var sign := if negative then "-" else "";
    var pad := width - (|sign| + |digits|);
    if zeroPad then sign + Rep('0', pad) + digits else Rep(' ', pad) + sign + digits
  }

  /**
   * The characters `pt_format_int` writes before its terminator, with its
   * final digit loop running down to index 0 (see FormatIntAsWritten for
   * the loop as the source writes it).
   */
  function FormatIntText(value: int, base: nat, width: int, zeroPad: bool, upper: bool, signed: bool,
                         bufsize: nat): (r: string)
    requires base == 10 || base == 16
    requires -0x8000_0000 <= value < 0x8000_0000
    requires bufsize >= 1
  {
    Take(PaddedText(Negative(value, signed), Numeral(Magnitude(value, signed), base, upper), width, zeroPad),
         bufsize - 1)
  }

  /** The padded text is as long as the width, or the sign and digits when longer. */
  lemma PaddedTextLength(negative: bool, digits: string, width: int, zeroPad: bool)
    ensures |PaddedText(negative, digits, width, zeroPad)| == Max(width, (if negative then 1 else 0) + |digits|)
  {
  }

  /** With no room to pad, the text is the sign and the digits. */
  lemma PaddedTextUnpadded(negative: bool, digits: string, width: int, zeroPad: bool)
    requires width <= (if negative then 1 else 0) + |digits|
    ensures PaddedText(negative, digits, width, zeroPad) == (if negative then "-" else "") + digits
  {
    var sign := if negative then "-" else "";
    assert Rep('0', width - (|sign| + |digits|)) == [];
    assert Rep(' ', width - (|sign| + |digits|)) == [];
    assert sign + [] + digits == sign + digits;
    assert [] + sign + digits == sign + digits;
  }

  /**
   * The text is the sign, then the digits of the magnitude, padded to the
   * width, and cut to the buffer; with room, it reads back as the value.
   */
  lemma FormatIntTextMeaning(value: int, base: nat, width: int, zeroPad: bool, upper: bool, signed: bool,
                             bufsize: nat)
    requires base == 10 || base == 16
    requires -0x8000_0000 <= value < 0x8000_0000
    requires bufsize >= 1
    ensures var r := FormatIntText(value, base, width, zeroPad, upper, signed, bufsize);
            var digits := Numeral(Magnitude(value, signed), base, upper);
            var sign := if Negative(value, signed) then 1 else 0;
            && |r| == Min(Max(width, sign + |digits|), bufsize - 1)
            && (width <= sign + |digits| < bufsize ==>
                  r == (if sign == 1 then "-" else "") + digits
                  && DigitsValue(digits, base) == Magnitude(value, signed))
  {
    var neg := Negative(value, signed);
    var digits := Numeral(Magnitude(value, signed), base, upper);
    NumeralRoundTrip(Magnitude(value, signed), base, upper);
    PaddedTextLength(neg, digits, width, zeroPad);
    if width <= (if neg then 1 else 0) + |digits| {
      PaddedTextUnpadded(neg, digits, width, zeroPad);
    }
  }

  /** A signed value printed unpadded into a roomy buffer is its decimal numeral with its sign. */
  lemma FormatSignedDecimal(value: int)
    requires -0x8000_0000 <= value < 0x8000_0000
    ensures var r := FormatIntText(value, 10, 0, false, false, true, 32);
            && (value < 0 ==> r == "-" + Numeral(-value, 10, false))
            && (value >= 0 ==> r == Numeral(value, 10, false))
  {
    var u := Magnitude(value, true);
    assert u == if value < 0 then -value else value;
    MagnitudeDigits(u, 10, false);
    var digits := Numeral(u, 10, false);
    assert |digits| <= 10;
    FormatIntTextMeaning(value, 10, 0, false, false, true, 32);
    assert 0 <= (if value < 0 then 1 else 0) + |digits| < 32;
  }

  /** Reversing a sequence with one more element puts that element first. */
  lemma ReverseSnoc(s: string, c: char)
    ensures Reverse(s + [c]) == [c] + Reverse(s)
  {
    assert forall k :: 0 <= k < |s| + 1 ==> Reverse(s + [c])[k] == ([c] + Reverse(s))[k];
  }

  /** The base-`base` digits of `u`, least significant first, as the conversion loop produces them. */
  function LowDigitsFirst(u: nat, base: nat, upper: bool): (r: string)
    requires base == 10 || base == 16
    ensures |r| >= 1 <==> u > 0
    decreases u
  {
    if u == 0 then [] else [DigitChar(Low(u, base), upper)] + LowDigitsFirst(Shift(u, base), base, upper)
  }

  /** Least significant first is the reverse of most significant first. */
  lemma {:induction false} DigitsReversed(u: nat, base: nat, upper: bool)
    requires base == 10 || base == 16
    ensures LowDigitsFirst(u, base, upper) == Reverse(Digits(u, base, upper))
    decreases u
  {
    if u > 0 {
      var c := DigitChar(Low(u, base), upper);
      var high := Digits(Shift(u, base), base, upper);
      DigitsReversed(Shift(u, base), base, upper);
      ReverseSnoc(high, c);
    }
  }

  /**
   * The conversion loop of `pt_format_int`: the digits of `u`, least
   * significant first, at most 32 of them ("0" for zero).
   */
  method ReversedDigits(u: nat, base: nat, upper: bool) returns (temp: string)
    requires base == 10 || base == 16
    requires u <= 0xFFFF_FFFF
    ensures temp == Reverse(Numeral(u, base, upper))
    ensures |temp| <= 10
  {
    var table := if upper then UPPER_DIGITS else LOWER_DIGITS;
    temp := [];
    if u == 0 {
      temp := ['0'];
      return;
    }
    var uvalue: nat := u;
    DigitsReversed(u, base, upper);
    MagnitudeDigits(u, base, upper);
    while uvalue > 0 && |temp| < 32
      invariant temp + LowDigitsFirst(uvalue, base, upper) == LowDigitsFirst(u, base, upper)
      decreases uvalue
    {
      var c := table[Low(uvalue, base)];
      assert LowDigitsFirst(uvalue, base, upper) == [c] + LowDigitsFirst(Shift(uvalue, base), base, upper);
      assert temp + [c] + LowDigitsFirst(Shift(uvalue, base), base, upper) == LowDigitsFirst(u, base, upper);
      temp := temp + [c];
      uvalue := Shift(uvalue, base);
    }
  }

  /** Cutting a concatenation cuts the first part, then the second with what room is left. */
  lemma TakeAppend(x: string, y: string, lim: nat)
    ensures Take(x + y, lim) == Take(x, lim) + Take(y, lim - |Take(x, lim)|)
  {
    if |x| <= lim && |x + y| > lim {
      assert (x + y)[..lim] == x + y[..lim - |x|];
    }
  }

  /** Reversing twice gives the sequence back. */
  lemma ReverseReverse(s: string)
    ensures Reverse(Reverse(s)) == s
  {
    assert forall k :: 0 <= k < |s| ==> Reverse(Reverse(s))[k] == s[k];
  }

  /** The layout of the reversed digits with the sign on top is the padded text. */
  lemma EmittedIsPadded(negative: bool, digits: string, width: int, zeroPad: bool, temp: string)
    requires temp == Reverse(digits) + (if negative then "-" else "")
    ensures Emitted(temp, negative, width, zeroPad, 0) == PaddedText(negative, digits, width, zeroPad)
  {
    var sign := if negative then "-" else "";
    var pad := Max(0, width - |temp|);
    ReverseReverse(digits);
    if negative {
      ReverseSnoc(Reverse(digits), '-');
      assert Reverse(temp) == sign + digits;
      assert temp[..|temp| - 1] == Reverse(digits);
    } else {
      assert Reverse(temp) == digits;
    }
    var zeros := Rep('0', pad);
    var spaces := Rep(' ', pad);
    assert zeros == Rep('0', width - (|sign| + |digits|));
    assert spaces == Rep(' ', width - (|sign| + |digits|));
    if zeroPad && negative {
      assert Emitted(temp, negative, width, zeroPad, 0) == sign + zeros + digits;
    } else if zeroPad {
      assert Emitted(temp, negative, width, zeroPad, 0) == zeros + digits == sign + zeros + digits;
    } else {
      assert Emitted(temp, negative, width, zeroPad, 0) == spaces + (sign + digits) == spaces + sign + digits;
    }
  }

  /** `s` with `r` written over it from index `i`. */
  function Splice(s: string, i: nat, r: string): (t: string)
    requires i + |r| <= |s|
    ensures |t| == |s|
    ensures forall k :: 0 <= k < |s| ==> t[k] == if i <= k < i + |r| then r[k - i] else s[k]
  {
    s[..i] + r + s[i + |r|..]
  }

  /**
   * `s` differs from `s0` only in `s[off..off + pos]`, which holds `written`.
   */
  predicate Agrees(s: string, s0: string, off: nat, pos: nat, written: string)
  {
    && |s| == |s0| && |written| == pos && off + pos <= |s|
    && s[off..off + pos] == written
    && (forall k :: 0 <= k < off ==> s[k] == s0[k])
    && (forall k :: off + pos <= k < |s| ==> s[k] == s0[k])
  }

  /** Writing `r` just after the written part extends it by `r`. */
  lemma AgreesSplice(s: string, s0: string, off: nat, pos: nat, written: string, r: string)
    requires Agrees(s, s0, off, pos, written)
    requires off + pos + |r| <= |s|
    ensures Agrees(Splice(s, off + pos, r), s0, off, pos + |r|, written + r)
  {
    var t := Splice(s, off + pos, r);
    assert forall k :: 0 <= k < pos + |r| ==> t[off..off + pos + |r|][k] == (written + r)[k];
  }

  /** A string that kept everything outside `[i, j)` of `s0` is `s0` with `[i, j)` replaced. */
  lemma KeptOutside(s: string, s0: string, i: nat, j: nat)
    requires |s| == |s0| && i <= j <= |s|
    requires forall k :: 0 <= k < i ==> s[k] == s0[k]
    requires forall k :: j <= k < |s| ==> s[k] == s0[k]
    ensures s == Splice(s0, i, s[i..j])
  {
  }

  /**
   * A padding loop of `pt_format_int`: `pad` copies of `c` from `pos`,
   * stopping when `pos` reaches `lim`.
   */
  method PadRun(buf: array<char>, off: nat, pos: nat, lim: nat, c: char, pad: int) returns (next: nat)
    requires pos <= lim && off + lim <= buf.Length
    requires pad >= 0
    modifies buf
    ensures pos <= next <= lim
    ensures buf[off + pos..off + next] == Take(Rep(c, pad), lim - pos)
    ensures buf[..] == Splice(old(buf[..]), off + pos, buf[off + pos..off + next])
  {
    ghost var r := Take(Rep(c, pad), lim - pos);
    next := pos;
    var left := pad;
    while left > 0 && next < lim
      invariant 0 <= left <= pad && pos <= next <= lim && next - pos == pad - left
      invariant forall k :: off + pos <= k < off + next ==> buf[k] == r[k - off - pos]
      invariant forall k :: 0 <= k < off + pos ==> buf[k] == old(buf[k])
      invariant forall k :: off + next <= k < buf.Length ==> buf[k] == old(buf[k])
    {
      assert r[next - pos] == Rep(c, pad)[next - pos] == c;
      buf[off + next] := c;
      next := next + 1;
      left := left - 1;
    }
    KeptOutside(buf[..], old(buf[..]), off + pos, off + next);
  }

  /**
   * The digit loop of `pt_format_int`, run down to index `start`:
   * `temp[start..len]` from its last character to its first, stopping when
   * `pos` reaches `lim`.
   */
  method CopyReversed(buf: array<char>, off: nat, pos: nat, lim: nat, temp: string, start: nat, len: nat)
    returns (next: nat)
    requires pos <= lim && off + lim <= buf.Length && start <= len <= |temp|
    modifies buf
    ensures pos <= next <= lim
    ensures buf[off + pos..off + next] == Take(Reverse(temp[start..len]), lim - pos)
    ensures buf[..] == Splice(old(buf[..]), off + pos, buf[off + pos..off + next])
  {
    next := CopyDown(buf, off, pos, lim, temp, start, len);
    ReversedCut(buf[off + pos..off + next], temp, start, len, lim - pos);
    KeptOutside(buf[..], old(buf[..]), off + pos, off + next);
  }

  /** The loop of `CopyReversed`: `buf[off + pos + j]` receives `temp[len - 1 - j]`, for each `j` it reaches. */
  method CopyDown(buf: array<char>, off: nat, pos: nat, lim: nat, temp: string, start: nat, len: nat)
    returns (next: nat)
    requires pos <= lim && off + lim <= buf.Length && start <= len <= |temp|
    modifies buf
    ensures pos <= next <= lim && next - pos == Min(len - start, lim - pos)
    ensures forall k :: off + pos <= k < off + next ==> buf[k] == temp[len - 1 - (k - off - pos)]
    ensures forall k :: 0 <= k < off + pos ==> buf[k] == old(buf[k])
    ensures forall k :: off + next <= k < buf.Length ==> buf[k] == old(buf[k])
  {
    next := pos;
    var i: int := len - 1;
    while i >= start && next < lim
      invariant start - 1 <= i < len && pos <= next <= lim && next - pos == len - 1 - i
      invariant forall k :: off + pos <= k < off + next ==> buf[k] == temp[len - 1 - (k - off - pos)]
      invariant forall k :: 0 <= k < off + pos ==> buf[k] == old(buf[k])
      invariant forall k :: off + next <= k < buf.Length ==> buf[k] == old(buf[k])
    {
      buf[off + next] := temp[i];
      next := next + 1;
      i := i - 1;
    }
  }

  /** What `CopyDown` leaves is `temp[start..len]` reversed and cut to `lim`. */
  lemma ReversedCut(w: string, temp: string, start: nat, len: nat, lim: nat)
    requires start <= len <= |temp| && |w| == Min(len - start, lim)
    requires forall j :: 0 <= j < |w| ==> w[j] == temp[len - 1 - j]
    ensures w == Take(Reverse(temp[start..len]), lim)
  {
    var r := Take(Reverse(temp[start..len]), lim);
    forall j | 0 <= j < |w|
      ensures w[j] == r[j]
    {
      assert r[j] == Reverse(temp[start..len])[j];
    }
  }

  /**
   * What the write phase of `pt_format_int` lays out from `temp`, the
   * digits least significant first with any minus sign last: padding to
   * `width`, then `temp` backwards down to index `start`; zero padding goes
   * after the sign.
   */
  function Emitted(temp: string, negative: bool, width: int, zeroPad: bool, start: nat): (r: string)
    requires negative ==> |temp| >= 1
    requires start <= (if zeroPad && negative then |temp| - 1 else |temp|)
  {
    var pad := Max(0, width - |temp|);
    if !zeroPad then Rep(' ', pad) + Reverse(temp[start..])
    else if negative then "-" + Rep('0', pad) + Reverse(temp[start..|temp| - 1])
    else Rep('0', pad) + Reverse(temp[start..])
  }

  /**
   * Writing the part of `y` that fits after a written prefix of `x`
   * leaves a written prefix of `x + y`.
   */
  lemma AgreesStep(s: string, s0: string, t: string, off: nat, p0: nat, pos: nat, lim: nat, x: string, y: string)
    requires Agrees(s, s0, off, p0, Take(x, lim))
    requires p0 <= pos && off + pos <= |s| && |t| == |s|
    requires t == Splice(s, off + p0, t[off + p0..off + pos])
    requires t[off + p0..off + pos] == Take(y, lim - p0)
    ensures Agrees(t, s0, off, pos, Take(x + y, lim))
  {
    TakeAppend(x, y, lim);
    AgreesSplice(s, s0, off, p0, Take(x, lim), Take(y, lim - p0));
  }

  /** What the write phase puts before the digits, and the digits it copies, make up the layout. */
  lemma LeadLayout(temp: string, negative: bool, width: int, zeroPad: bool, start: nat, lim: nat, pad: int, len: nat,
                   lead: string)
    requires negative ==> |temp| >= 1
    requires start <= (if zeroPad && negative then |temp| - 1 else |temp|)
    requires pad == Max(0, width - |temp|) && start <= len <= |temp|
    requires !zeroPad ==> len == |temp| && lead == Rep(' ', pad)
    requires zeroPad && negative && lim > 0 ==> len == |temp| - 1 && lead == "-" + Rep('0', pad)
    requires zeroPad && !negative ==> len == |temp| && lead == [] + Rep('0', pad)
    ensures Take(lead + Reverse(temp[start..len]), lim) == Take(Emitted(temp, negative, width, zeroPad, start), lim)
  {
    var e := Emitted(temp, negative, width, zeroPad, start);
    if !zeroPad {
      assert temp[start..len] == temp[start..];
      assert e == Rep(' ', pad) + Reverse(temp[start..]);
    } else if negative && lim > 0 {
      assert e == "-" + Rep('0', pad) + Reverse(temp[start..|temp| - 1]);
    } else if !negative {
      assert temp[start..len] == temp[start..];
      assert e == Rep('0', pad) + Reverse(temp[start..]);
      assert lead == Rep('0', pad);
    }
  }

  /**
   * The write phase of `pt_format_int`, its final loop running down to
   * index `start`: writes at most `lim` characters of the layout of `temp`
   * into `buf[off..]` and returns how many.
   */
  method WritePadded(buf: array<char>, off: nat, temp: string, negative: bool, width: int, zeroPad: bool,
                     start: nat, lim: nat) returns (pos: nat)
    requires negative ==> |temp| >= 1
    requires start <= (if zeroPad && negative then |temp| - 1 else |temp|)
    requires off + lim <= buf.Length
    modifies buf
    ensures pos <= lim
    ensures Agrees(buf[..], old(buf[..]), off, pos, Take(Emitted(temp, negative, width, zeroPad, start), lim))
  {
    var len := |temp|;
    var pad := width - len;
    if pad < 0 {
      pad := 0;
    }
    pos := 0;
    ghost var lead: string := [];
    assert Agrees(buf[..], old(buf[..]), off, 0, []);

    if !zeroPad {
      pos := PadRun(buf, off, pos, lim, ' ', pad);
      AgreesStep(old(buf[..]), old(buf[..]), buf[..], off, 0, pos, lim, [], Rep(' ', pad));
      lead := Rep(' ', pad);
    } else {
      if negative && pos < lim {
        ghost var s := buf[..];
        buf[off + pos] := '-';
        AgreesStep(s, old(buf[..]), buf[..], off, 0, 1, lim, [], "-");
        pos := pos + 1;
        len := len - 1;
        lead := "-";
      }
      ghost var s, p0 := buf[..], pos;
      pos := PadRun(buf, off, pos, lim, '0', pad);
      AgreesStep(s, old(buf[..]), buf[..], off, p0, pos, lim, lead, Rep('0', pad));
      lead := [] + lead + Rep('0', pad);
    }

    ghost var s, p0 := buf[..], pos;
    pos := CopyReversed(buf, off, pos, lim, temp, start, len);
    AgreesStep(s, old(buf[..]), buf[..], off, p0, pos, lim, lead, Reverse(temp[start..len]));
    LeadLayout(temp, negative, width, zeroPad, start, lim, pad, len, lead);
  }

  /** The layout of the converted magnitude with its sign is the formatted text, cut to the buffer. */
  lemma FormatIntLayout(value: int, base: nat, width: int, zeroPad: bool, upper: bool, signed: bool,
                        bufsize: nat, temp: string)
    requires base == 10 || base == 16
    requires -0x8000_0000 <= value < 0x8000_0000
    requires bufsize >= 1
    requires temp == Reverse(Numeral(Magnitude(value, signed), base, upper))
                     + (if Negative(value, signed) then "-" else "")
    ensures Negative(value, signed) ==> |temp| >= 1
    ensures Take(Emitted(temp, Negative(value, signed), width, zeroPad, 0), bufsize - 1)
            == FormatIntText(value, base, width, zeroPad, upper, signed, bufsize)
  {
    EmittedIsPadded(Negative(value, signed), Numeral(Magnitude(value, signed), base, upper), width, zeroPad, temp);
  }

  /**
   * The write phase of `pt_format_int` with its terminator: the layout of
   * `temp` (digits copied down to index `start`) cut to `bufsize - 1`
   * characters, then '\0'; returns how many characters precede it.
   */
  method WriteTerminated(buf: array<char>, off: nat, temp: string, negative: bool, width: int, zeroPad: bool,
                         start: nat, bufsize: nat) returns (n: nat)
    requires negative ==> |temp| >= 1
    requires start <= (if zeroPad && negative then |temp| - 1 else |temp|)
    requires 0 < bufsize && off + bufsize <= buf.Length
    modifies buf
    ensures n < bufsize
    ensures buf[off..off + n] == Take(Emitted(temp, negative, width, zeroPad, start), bufsize - 1)
    ensures buf[off + n] == '\0'
    ensures buf[..off] == old(buf[..off])
    ensures buf[off + n + 1..] == old(buf[off + n + 1..])
  {
    var pos := WritePadded(buf, off, temp, negative, width, zeroPad, start, bufsize - 1);
    ghost var s := buf[..];
    buf[off + pos] := '\0';
    n := pos;
    assert buf[off..off + n] == s[off..off + n];
    assert forall k :: 0 <= k < off ==> buf[k] == s[k];
    assert forall k :: off + n < k < buf.Length ==> buf[k] == s[k];
  }

  /** The digits of `value` least significant first, with a minus sign last when it is negative. */
  method Converted(value: int, base: nat, upper: bool, signed: bool) returns (temp: string)
    requires base == 10 || base == 16
    requires -0x8000_0000 <= value < 0x8000_0000
    ensures temp == Reverse(Numeral(Magnitude(value, signed), base, upper))
                    + (if Negative(value, signed) then "-" else "")
  {
    var negative := signed && value < 0;
    var uvalue: nat := if negative then -value else value % 0x1_0000_0000;
    temp := ReversedDigits(uvalue, base, upper);
    if negative {
      temp := temp + ['-'];
    }
  }

  /**
   * `pt_format_int` with its final loop running down to index 0: writes
   * the padded numeral of `value` into `buf[off..]`, at most `bufsize - 1`
   * characters and a terminator, and returns how many characters precede
   * the terminator. Nothing is written when `bufsize` is 0.
   */
  method FormatInt(buf: array<char>, off: nat, value: int, base: nat, width: int, zeroPad: bool,
                   upper: bool, signed: bool, bufsize: nat) returns (n: nat)
    requires base == 10 || base == 16
    requires -0x8000_0000 <= value < 0x8000_0000
    requires off + bufsize <= buf.Length
    modifies buf
    ensures bufsize == 0 ==> n == 0 && buf[..] == old(buf[..])
    ensures bufsize > 0 ==>
              && n < bufsize
              && buf[off..off + n] == FormatIntText(value, base, width, zeroPad, upper, signed, bufsize)
              && buf[off + n] == '\0'
              && buf[..off] == old(buf[..off])
              && buf[off + n + 1..] == old(buf[off + n + 1..])
  {
    if bufsize == 0 {
      return 0;
    }
    var temp := Converted(value, base, upper, signed);
    FormatIntLayout(value, base, width, zeroPad, upper, signed, bufsize, temp);
    n := WriteTerminated(buf, off, temp, Negative(value, signed), width, zeroPad, 0, bufsize);
  }

  /**
   * `pt_format_int` as the source writes it: the final loop stops at
   * index 1 for a negative value, so the least significant digit (the
   * first one the conversion produced) is never copied.
   */
  function FormatIntAsWritten(value: int, base: nat, width: int, zeroPad: bool, upper: bool, signed: bool,
                              bufsize: nat): (r: string)
    requires base == 10 || base == 16
    requires -0x8000_0000 <= value < 0x8000_0000
    requires bufsize >= 1
  {
    var digits := Numeral(Magnitude(value, signed), base, upper);
    var neg := Negative(value, signed);
    var pad := width - (|digits| + if neg then 1 else 0);
    var shown := if neg then digits[..|digits| - 1] else digits;
    var sign := if neg then "-" else "";
    Take(if zeroPad then sign + Rep('0', pad) + shown else Rep(' ', pad) + sign + shown, bufsize - 1)
  }

  /**
   * A signed value printed unpadded into a roomy buffer as written: its
   * decimal numeral, and for a negative value the sign with all but the
   * last digit.
   */
  lemma FormatSignedDecimalAsWritten(value: int)
    requires -0x8000_0000 <= value < 0x8000_0000
    ensures var r := FormatIntAsWritten(value, 10, 0, false, false, true, 32);
            var digits := Numeral(if value < 0 then -value else value, 10, false);
            && (value < 0 ==> r == "-" + digits[..|digits| - 1])
            && (value >= 0 ==> r == digits)
  {
    FormatSignedDecimal(value);
    MagnitudeDigits(Magnitude(value, true), 10, false);
    FormatIntAsWrittenDiffers(value, 10, 0, false, false, true, 32);
  }

  /** Reversing, dropping the first character and reversing back drops the last one. */
  lemma ReverseDropFirst(s: string)
    requires |s| >= 1
    ensures Reverse(Reverse(s)[1..]) == s[..|s| - 1]
  {
    assert forall k :: 0 <= k < |s| - 1 ==> Reverse(Reverse(s)[1..])[k] == s[k];
  }

  /**
   * The layout the source's final loop produces, stopping at index 1 for a
   * negative value, is the as-written text, cut to the buffer.
   */
  lemma FormatIntAsWrittenLayout(value: int, base: nat, width: int, zeroPad: bool, upper: bool, signed: bool,
                                 bufsize: nat, temp: string)
    requires base == 10 || base == 16
    requires -0x8000_0000 <= value < 0x8000_0000
    requires bufsize >= 1
    requires temp == Reverse(Numeral(Magnitude(value, signed), base, upper))
                     + (if Negative(value, signed) then "-" else "")
    ensures Negative(value, signed) ==> |temp| >= 2
    ensures var start := if Negative(value, signed) then 1 else 0;
            && start <= (if zeroPad && Negative(value, signed) then |temp| - 1 else |temp|)
            && Take(Emitted(temp, Negative(value, signed), width, zeroPad, start), bufsize - 1)
               == FormatIntAsWritten(value, base, width, zeroPad, upper, signed, bufsize)
  {
    var digits := Numeral(Magnitude(value, signed), base, upper);
    if !Negative(value, signed) {
      FormatIntLayout(value, base, width, zeroPad, upper, signed, bufsize, temp);
      FormatIntAsWrittenDiffers(value, base, width, zeroPad, upper, signed, bufsize);
    } else {
      var pad := width - (|digits| + 1);
      var shown := digits[..|digits| - 1];
      assert temp[1..] == Reverse(digits)[1..] + "-";
      ReverseSnoc(Reverse(digits)[1..], '-');
      ReverseDropFirst(digits);
      assert Reverse(temp[1..]) == "-" + shown;
      assert temp[1..|temp| - 1] == Reverse(digits)[1..];
      assert Rep(' ', Max(0, width - |temp|)) == Rep(' ', pad);
      assert Rep('0', Max(0, width - |temp|)) == Rep('0', pad);
      if zeroPad {
        assert Emitted(temp, true, width, zeroPad, 1) == "-" + Rep('0', pad) + shown;
      } else {
        assert Emitted(temp, true, width, zeroPad, 1) == Rep(' ', pad) + ("-" + shown) == Rep(' ', pad) + "-" + shown;
      }
    }
  }

  /**
   * `pt_format_int` as the source writes it, into `buf[off..]`: the final
   * loop stops at index 1 for a negative value, so the text written before
   * the terminator is the as-written text; nothing is written when
   * `bufsize` is 0.
   */
  method FormatIntAsWrittenInto(buf: array<char>, off: nat, value: int, base: nat, width: int, zeroPad: bool,
                                upper: bool, signed: bool, bufsize: nat) returns (n: nat)
    requires base == 10 || base == 16
    requires -0x8000_0000 <= value < 0x8000_0000
    requires off + bufsize <= buf.Length
    modifies buf
    ensures bufsize == 0 ==> n == 0 && buf[..] == old(buf[..])
    ensures bufsize > 0 ==>
              && n < bufsize
              && buf[off..off + n] == FormatIntAsWritten(value, base, width, zeroPad, upper, signed, bufsize)
              && buf[off + n] == '\0'
              && buf[..off] == old(buf[..off])
              && buf[off + n + 1..] == old(buf[off + n + 1..])
  {
    if bufsize == 0 {
      return 0;
    }
    var temp := Converted(value, base, upper, signed);
    var negative := signed && value < 0;
    var start := if negative then 1 else 0;
    FormatIntAsWrittenLayout(value, base, width, zeroPad, upper, signed, bufsize, temp);
    n := WriteTerminated(buf, off, temp, negative, width, zeroPad, start, bufsize);
  }

  /** As written, -123 prints as "-12"; the corrected formatter prints "-123". */
  lemma FormatIntDropsDigit()
    ensures FormatIntAsWritten(-123, 10, 0, false, false, true, 64) == "-12"
    ensures FormatIntText(-123, 10, 0, false, false, true, 64) == "-123"
  {
    assert Digits(0, 10, false) == [];
    assert Digits(1, 10, false) == "1";
    assert Digits(12, 10, false) == "12";
    assert Digits(123, 10, false) == "123";
    assert Rep(' ', -4) == [];
    assert Rep(' ', -4) + "-" + "123" == "-123";
  }

  /** As written, every negative value loses its last digit; other values print as corrected. */
  lemma FormatIntAsWrittenDiffers(value: int, base: nat, width: int, zeroPad: bool, upper: bool, signed: bool,
                                  bufsize: nat)
    requires base == 10 || base == 16
    requires -0x8000_0000 <= value < 0x8000_0000
    requires bufsize >= 1
    ensures !Negative(value, signed) ==>
              FormatIntAsWritten(value, base, width, zeroPad, upper, signed, bufsize)
              == FormatIntText(value, base, width, zeroPad, upper, signed, bufsize)
    ensures Negative(value, signed) && width <= |Numeral(Magnitude(value, signed), base, upper)| + 1 < bufsize ==>
              FormatIntAsWritten(value, base, width, zeroPad, upper, signed, bufsize)
              == "-" + Numeral(Magnitude(value, signed), base, upper)[..|Numeral(Magnitude(value, signed), base, upper)| - 1]
  {
    var digits := Numeral(Magnitude(value, signed), base, upper);
    if !Negative(value, signed) {
      assert "" + Rep('0', width - |digits|) + digits == Rep('0', width - |digits|) + digits;
    } else {
      var shown := digits[..|digits| - 1];
      if width <= |digits| + 1 {
        assert "-" + Rep('0', width - (|digits| + 1)) + shown == "-" + shown;
        assert Rep(' ', width - (|digits| + 1)) + "-" + shown == "-" + shown;
      }
    }
  }
}
