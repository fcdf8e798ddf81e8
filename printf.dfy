// The Classic Mac `pt_vsnprintf` of the portability layer
// (src/core/pt_compat.c): a bounded printf with the conversions %d %u %x
// %X %p %s %c and %%, an optional '0' flag, a decimal width and an 'l'
// length modifier. Integers are formatted by `pt_format_int` as written
// (Compat.FormatIntAsWrittenInto), so a negative value loses its last digit.
//
// The variable arguments are a sequence of `Arg` values read in order; an
// argument that is missing or of the other kind reads as 0 or NULL.
module Printf {
  import opened PtTypes
  import opened Compat

  /** One variable argument: an integer (or a pointer), or a C string that may be NULL. */
  datatype Arg = Num(n: int) | Str(s: Option<string>)

  /** The character at `p` of a C string; NUL past its end. */
  function At(s: string, p: nat): (c: char)
    ensures p >= |s| ==> c == '\0'
    ensures p < |s| ==> c == s[p]
  {
    if p < |s| then s[p] else '\0'
  }

  /** An integer argument as a 32-bit `int` or `long`: its two's-complement reading. */
  function Signed32(n: int): (v: int)
    ensures -0x8000_0000 <= v < 0x8000_0000
    ensures v % 0x1_0000_0000 == n % 0x1_0000_0000
  {
    var w := n % 0x1_0000_0000;
    if w < 0x8000_0000 then w else w - 0x1_0000_0000
  }

  /** The integer argument at `ai`. */
  function NumArg(args: seq<Arg>, ai: nat): int
  {
    if ai < |args| && args[ai].Num? then args[ai].n else 0
  }

  /** The string argument at `ai`. */
  function StrArg(args: seq<Arg>, ai: nat): Option<string>
  {
    if ai < |args| && args[ai].Str? then args[ai].s else None
  }

  predicate IsDigit(c: char)
  {
    '0' <= c <= '9'
  }

  /**
   * A conversion specification after its '%': the '0' flag, the width,
   * and the index of the conversion character (after any 'l').
   */
  datatype Spec = Spec(zeroPad: bool, width: nat, at: nat)

  /** The decimal digits from `q` accumulated onto `acc`, and the index after them. */
  function ParseWidth(fmt: string, q: nat, acc: nat): (r: (nat, nat))
    requires q <= |fmt|
    ensures q <= r.1 <= |fmt| && !IsDigit(At(fmt, r.1))
    ensures forall i :: q <= i < r.1 ==> IsDigit(fmt[i])
    decreases |fmt| - q
  {
    if IsDigit(At(fmt, q)) then ParseWidth(fmt, q + 1, acc * 10 + (fmt[q] as int - '0' as int)) else (acc, q)
  }

  /** The specification that starts at `q`, just after a '%'. */
  function ParseSpec(fmt: string, q: nat): (s: Spec)
    requires q <= |fmt|
    ensures q <= s.at <= |fmt|
  {
    var zeroPad := At(fmt, q) == '0';
    var w := ParseWidth(fmt, if zeroPad then q + 1 else q, 0);
    Spec(zeroPad, w.0, if At(fmt, w.1) == 'l' then w.1 + 1 else w.1)
  }

  /** How many arguments a conversion reads. */
  function Consumed(conv: char): (k: nat)
    ensures k <= 1
  {
    if conv == 'd' || conv == 'u' || conv == 'x' || conv == 'X' || conv == 'p' || conv == 's' || conv == 'c'
    then 1 else 0
  }

  /** The string a `%s` argument prints: "(null)" for NULL, up to its terminator. */
  function StrText(s: Option<string>): (r: string)
    ensures forall i :: 0 <= i < |r| ==> r[i] != '\0'
  {
    var str := if s.None? then "(null)" else s.value;
    str[..StrLen(str)]
  }

  /** Whether `pt_vsnprintf` writes the "0x" of a `%p` at `pos` into `size` places. */
  predicate PointerRoom(pos: nat, size: nat)
  {
    pos + 3 < size
  }

  /** The conversions that print an integer argument. */
  predicate Numeric(conv: char)
  {
    conv == 'd' || conv == 'u' || conv == 'x' || conv == 'X' || conv == 'p'
  }

  /** What an integer conversion writes at `pos` of a buffer of `size` places. */
  function NumberPiece(conv: char, zeroPad: bool, width: nat, value: int, pos: nat, size: nat): (r: string)
    requires Numeric(conv) && pos + 1 < size
    requires -0x8000_0000 <= value < 0x8000_0000
    ensures |r| <= size - 1 - pos
  {
    var room := size - pos;
    if conv == 'd' then FormatIntAsWritten(value, 10, width, zeroPad, false, true, room)
    else if conv == 'u' then FormatIntAsWritten(value, 10, width, zeroPad, false, false, room)
    else if conv == 'x' || conv == 'X' then FormatIntAsWritten(value, 16, width, zeroPad, conv == 'X', false, room)
    else
      var prefix := if PointerRoom(pos, size) then "0x" else "";
      prefix + FormatIntAsWritten(value, 16, 8, true, false, false, room - |prefix|)
  }

  /** What any other conversion writes at `pos` of a buffer of `size` places. */
  function TextPiece(conv: char, args: seq<Arg>, ai: nat, pos: nat, size: nat): (r: string)
    requires pos + 1 < size
    ensures |r| <= size - 1 - pos
  {
    if conv == 's' then Take(StrText(StrArg(args, ai)), size - pos - 1)
    else if conv == 'c' then [(NumArg(args, ai) % 256) as char]
    else if conv == '%' then "%"
    else "%" + (if conv != '\0' && pos + 2 < size then [conv] else [])
  }

  /**
   * What one conversion writes at `pos` of a buffer of `size` places,
   * leaving room for the terminator.
   */
  function Piece(conv: char, zeroPad: bool, width: nat, args: seq<Arg>, ai: nat, pos: nat, size: nat): (r: string)
    requires pos + 1 < size
    ensures |r| <= size - 1 - pos
  {
    if Numeric(conv) then NumberPiece(conv, zeroPad, width, Signed32(NumArg(args, ai)), pos, size)
    else TextPiece(conv, args, ai, pos, size)
  }

  /**
   * The characters `pt_vsnprintf` writes from `fmt[p..]` once `out` is
   * written and argument `ai` is next, stopping at the end of the format
   * or when only the terminator's place is left.
   */
  function RenderFrom(fmt: string, p: nat, args: seq<Arg>, ai: nat, out: string, size: nat): (r: string)
    requires p <= |fmt| && |out| < size
    ensures out <= r && |r| < size
    decreases |fmt| - p
  {
    if At(fmt, p) == '\0' || |out| == size - 1 then out
    else if fmt[p] != '%' then RenderFrom(fmt, p + 1, args, ai, out + [fmt[p]], size)
    else
      var spec := ParseSpec(fmt, p + 1);
      var conv := At(fmt, spec.at);
      RenderFrom(fmt, if conv != '\0' then spec.at + 1 else spec.at, args, ai + Consumed(conv),
                 out + Piece(conv, spec.zeroPad, spec.width, args, ai, |out|, size), size)
  }

  /** The characters `pt_vsnprintf` writes before its terminator into `size` places. */
  function Render(fmt: string, args: seq<Arg>, size: nat): (r: string)
    requires size >= 1
    ensures |r| <= size - 1
  {
    RenderFrom(fmt, 0, args, 0, [], size)
  }

  /** An integer conversion: `pt_format_int` into the places left. */
  method IntConversion(buf: array<char>, size: nat, pos: nat, value: int, base: nat, width: nat, zeroPad: bool,
                       upper: bool, signed: bool) returns (next: nat)
    requires pos + 1 < size && size <= buf.Length
    requires base == 10 || base == 16
    requires -0x8000_0000 <= value < 0x8000_0000
    modifies buf
    ensures pos <= next < size
    ensures buf[pos..next] == FormatIntAsWritten(value, base, width, zeroPad, upper, signed, size - pos)
    ensures forall k :: 0 <= k < pos ==> buf[k] == old(buf[k])
    ensures forall k :: next < k < buf.Length ==> buf[k] == old(buf[k])
  {
    var written := FormatIntAsWrittenInto(buf, pos, value, base, width, zeroPad, upper, signed, size - pos);
    next := pos + written;
    KeptBeyond(buf[..], old(buf[..]), pos, next + 1);
  }

  /** Equal slices before `lo` and from `hi` on are equal characters there. */
  lemma KeptBeyond(s: string, s0: string, lo: nat, hi: nat)
    requires |s| == |s0| && lo <= hi <= |s|
    requires s[..lo] == s0[..lo] && s[hi..] == s0[hi..]
    ensures forall k :: 0 <= k < lo ==> s[k] == s0[k]
    ensures forall k :: hi <= k < |s| ==> s[k] == s0[k]
  {
    assert forall k :: 0 <= k < lo ==> s[..lo][k] == s0[..lo][k];
    forall k | hi <= k < |s|
      ensures s[k] == s0[k]
    {
      assert s[hi..][k - hi] == s0[hi..][k - hi];
    }
  }

  /** The `%p` conversion: "0x" when it fits, then eight zero-padded hex digits. */
  method PointerConversion(buf: array<char>, size: nat, pos: nat, value: int) returns (next: nat)
    requires pos + 1 < size && size <= buf.Length
    requires -0x8000_0000 <= value < 0x8000_0000
    modifies buf
    ensures pos <= next < size
    ensures buf[pos..next] == (if PointerRoom(pos, size) then "0x" else "")
                              + FormatIntAsWritten(value, 16, 8, true, false, false,
                                              size - pos - (if PointerRoom(pos, size) then 2 else 0))
    ensures forall k :: 0 <= k < pos ==> buf[k] == old(buf[k])
    ensures forall k :: next < k < buf.Length ==> buf[k] == old(buf[k])
  {
    if pos + 3 < size {
      buf[pos] := '0';
      buf[pos + 1] := 'x';
      next := IntConversion(buf, size, pos + 2, value, 16, 8, true, false, false);
      assert buf[pos] == '0' && buf[pos + 1] == 'x';
      JoinSlices(buf, pos, pos + 2, next);
    } else {
      next := IntConversion(buf, size, pos, value, 16, 8, true, false, false);
    }
  }

  /** A slice of an array is the concatenation of its two halves. */
  lemma JoinSlices(a: array<char>, i: nat, j: nat, k: nat)
    requires i <= j <= k <= a.Length
    ensures a[i..k] == a[i..j] + a[j..k]
  {
  }

  /** The `%s` conversion: the string, or "(null)", up to its terminator or the last place. */
  method StringConversion(buf: array<char>, size: nat, pos: nat, s: Option<string>) returns (next: nat)
    requires pos + 1 < size && size <= buf.Length
    modifies buf
    ensures pos <= next < size
    ensures buf[pos..next] == Take(StrText(s), size - pos - 1)
    ensures forall k :: 0 <= k < pos ==> buf[k] == old(buf[k])
    ensures forall k :: next < k < buf.Length ==> buf[k] == old(buf[k])
  {
    ghost var r := Take(StrText(s), size - pos - 1);
    var str := if s.None? then "(null)" else s.value;
    next := pos;
    var i := 0;
    while At(str, i) != '\0' && next < size - 1
      invariant i <= StrLen(str) && next == pos + i && next < size
      invariant forall k :: pos <= k < next ==> buf[k] == r[k - pos]
      invariant forall k :: 0 <= k < pos ==> buf[k] == old(buf[k])
      invariant forall k :: next <= k < buf.Length ==> buf[k] == old(buf[k])
      decreases size - next
    {
      assert r[i] == str[i];
      buf[next] := str[i];
      next := next + 1;
      i := i + 1;
    }
  }

  /** Writes `c` at `pos` when a place is left before the terminator's. */
  method PutChar(buf: array<char>, size: nat, pos: nat, c: char) returns (next: nat)
    requires pos < size <= buf.Length
    modifies buf
    ensures next == if pos < size - 1 then pos + 1 else pos
    ensures buf[pos..next] == if pos < size - 1 then [c] else []
    ensures forall k :: 0 <= k < buf.Length && k != pos ==> buf[k] == old(buf[k])
  {
    next := pos;
    if pos < size - 1 {
      buf[pos] := c;
      next := pos + 1;
    }
  }

  /** An integer conversion of `pt_vsnprintf` on the 32-bit `value` of its argument. */
  method NumberConversion(buf: array<char>, size: nat, pos: nat, conv: char, zeroPad: bool, width: nat, value: int)
    returns (next: nat)
    requires Numeric(conv) && pos + 1 < size && size <= buf.Length
    requires -0x8000_0000 <= value < 0x8000_0000
    modifies buf
    ensures pos <= next < size
    ensures buf[pos..next] == NumberPiece(conv, zeroPad, width, value, pos, size)
    ensures forall k :: 0 <= k < pos ==> buf[k] == old(buf[k])
    ensures forall k :: next < k < buf.Length ==> buf[k] == old(buf[k])
  {
    if conv == 'd' {
      next := IntConversion(buf, size, pos, value, 10, width, zeroPad, false, true);
    } else if conv == 'u' {
      next := IntConversion(buf, size, pos, value, 10, width, zeroPad, false, false);
    } else if conv == 'x' {
      next := IntConversion(buf, size, pos, value, 16, width, zeroPad, false, false);
    } else if conv == 'X' {
      next := IntConversion(buf, size, pos, value, 16, width, zeroPad, true, false);
    } else {
      next := PointerConversion(buf, size, pos, value);
    }
  }

  /** Any other conversion of `pt_vsnprintf`: `%s`, `%c`, `%%` or an unknown one. */
  method TextConversion(buf: array<char>, size: nat, pos: nat, conv: char, args: seq<Arg>, ai: nat)
    returns (next: nat)
    requires !Numeric(conv) && pos + 1 < size && size <= buf.Length
    modifies buf
    ensures pos <= next < size
    ensures buf[pos..next] == TextPiece(conv, args, ai, pos, size)
    ensures forall k :: 0 <= k < pos ==> buf[k] == old(buf[k])
    ensures forall k :: next < k < buf.Length ==> buf[k] == old(buf[k])
  {
    if conv == 's' {
      next := StringConversion(buf, size, pos, StrArg(args, ai));
    } else if conv == 'c' {
      next := PutChar(buf, size, pos, (NumArg(args, ai) % 256) as char);
    } else if conv == '%' {
      next := PutChar(buf, size, pos, '%');
    } else {
      next := PutChar(buf, size, pos, '%');
      if conv != '\0' {
        ghost var mid := next;
        assert buf[pos..mid] == "%";
        next := PutChar(buf, size, next, conv);
        assert buf[pos..mid] == "%";
        assert buf[pos..next] == buf[pos..mid] + buf[mid..next];
      }
    }
  }

  /**
   * One conversion of `pt_vsnprintf`: reads its argument and writes its
   * text at `pos`, returning the new position and the next argument.
   */
  method Convert(buf: array<char>, size: nat, pos: nat, conv: char, zeroPad: bool, width: nat,
                 args: seq<Arg>, ai: nat) returns (next: nat, nextArg: nat)
    requires pos + 1 < size && size <= buf.Length
    modifies buf
    ensures nextArg == ai + Consumed(conv)
    ensures pos <= next < size
    ensures buf[pos..next] == Piece(conv, zeroPad, width, args, ai, pos, size)
    ensures forall k :: 0 <= k < pos ==> buf[k] == old(buf[k])
    ensures forall k :: next < k < buf.Length ==> buf[k] == old(buf[k])
  {
    if Numeric(conv) {
      next := NumberConversion(buf, size, pos, conv, zeroPad, width, Signed32(NumArg(args, ai)));
    } else {
      next := TextConversion(buf, size, pos, conv, args, ai);
    }
    nextArg := ai + Consumed(conv);
  }

  /** Reads the flag, width and length modifier of a conversion specification starting at `q`. */
  method ReadSpec(fmt: string, q: nat) returns (zeroPad: bool, width: nat, at: nat)
    requires q <= |fmt|
    ensures Spec(zeroPad, width, at) == ParseSpec(fmt, q)
  {
    var p := q;
    zeroPad := false;
    width := 0;
    if At(fmt, p) == '0' {
      zeroPad := true;
      p := p + 1;
    }
    ghost var digitsAt := p;
    while IsDigit(At(fmt, p))
      invariant digitsAt <= p <= |fmt|
      invariant ParseWidth(fmt, p, width) == ParseWidth(fmt, digitsAt, 0)
      decreases |fmt| - p
    {
      width := width * 10 + (fmt[p] as int - '0' as int);
      p := p + 1;
    }
    // `is_long` changes only how the argument is fetched; int and long
    // are both 32 bits here.
    if At(fmt, p) == 'l' {
      p := p + 1;
    }
    at := p;
  }

  /** One step of `RenderFrom` at a '%': the conversion's piece, then the rest. */
  lemma ConversionStep(fmt: string, p: nat, args: seq<Arg>, ai: nat, out: string, size: nat,
                       zeroPad: bool, width: nat, at: nat)
    requires p < |fmt| && fmt[p] == '%' && |out| + 1 < size
    requires Spec(zeroPad, width, at) == ParseSpec(fmt, p + 1)
    ensures var conv := At(fmt, at);
            RenderFrom(fmt, p, args, ai, out, size)
            == RenderFrom(fmt, if conv != '\0' then at + 1 else at, args, ai + Consumed(conv),
                          out + Piece(conv, zeroPad, width, args, ai, |out|, size), size)
  {
  }

  /** A literal character is copied to the output and rendering goes on after it. */
  lemma LiteralStep(fmt: string, p: nat, args: seq<Arg>, ai: nat, out: string, size: nat)
    requires p < |fmt| && fmt[p] != '\0' && fmt[p] != '%' && |out| + 1 < size
    ensures RenderFrom(fmt, p, args, ai, out, size) == RenderFrom(fmt, p + 1, args, ai, out + [fmt[p]], size)
  {
  }

  /**
   * One pass of the main loop of `pt_vsnprintf`: copies the literal
   * character at `p`, or reads and writes the conversion starting there.
   */
  method Step(buf: array<char>, size: nat, fmt: string, args: seq<Arg>, p: nat, pos: nat, ai: nat)
    returns (p': nat, pos': nat, ai': nat)
    requires p < |fmt| && fmt[p] != '\0' && pos + 1 < size && size <= buf.Length
    modifies buf
    ensures p < p' <= |fmt| && pos <= pos' < size
    ensures RenderFrom(fmt, p', args, ai', buf[..pos'], size) == RenderFrom(fmt, p, args, ai, old(buf[..pos]), size)
    ensures forall k :: pos' < k < buf.Length ==> buf[k] == old(buf[k])
  {
    if fmt[p] != '%' {
      LiteralStep(fmt, p, args, ai, buf[..pos], size);
      buf[pos] := fmt[p];
      assert buf[..pos + 1] == old(buf[..pos]) + [fmt[p]];
      p', pos', ai' := p + 1, pos + 1, ai;
    } else {
      p', pos', ai' := ConversionPass(buf, size, fmt, args, p, pos, ai);
    }
  }

  /** The conversion branch of `Step`: reads the specification at `p` and writes its piece. */
  method ConversionPass(buf: array<char>, size: nat, fmt: string, args: seq<Arg>, p: nat, pos: nat, ai: nat)
    returns (p': nat, pos': nat, ai': nat)
    requires p < |fmt| && fmt[p] == '%' && pos + 1 < size && size <= buf.Length
    modifies buf
    ensures p < p' <= |fmt| && pos <= pos' < size
    ensures RenderFrom(fmt, p', args, ai', buf[..pos'], size) == RenderFrom(fmt, p, args, ai, old(buf[..pos]), size)
    ensures forall k :: pos' < k < buf.Length ==> buf[k] == old(buf[k])
  {
    ghost var out := buf[..pos];
    var zeroPad, width, at := ReadSpec(fmt, p + 1);
    ConversionStep(fmt, p, args, ai, out, size, zeroPad, width, at);
    var conv := At(fmt, at);
    ghost var piece := Piece(conv, zeroPad, width, args, ai, pos, size);
    pos', ai' := Convert(buf, size, pos, conv, zeroPad, width, args, ai);
    p' := if conv != '\0' then at + 1 else at;
    assert buf[..pos] == out;
    JoinSlices(buf, 0, pos, pos');
    assert buf[..pos'] == out + piece;
  }

  /**
   * `pt_vsnprintf` on the Classic Mac: writes the formatted text, cut to
   * `size - 1` characters, and a terminator into `buf`, and returns the
   * number of characters before the terminator. Nothing is written when
   * `size` is 0.
   */
  method Vsnprintf(buf: array<char>, size: nat, fmt: string, args: seq<Arg>) returns (n: nat)
    requires size <= buf.Length
    modifies buf
    ensures size == 0 ==> n == 0 && buf[..] == old(buf[..])
    ensures size > 0 ==>
              && n < size
              && buf[..n] == Render(fmt, args, size)
              && buf[n] == '\0'
              && buf[n + 1..] == old(buf[n + 1..])
  {
    if size == 0 {
      return 0;
    }
    var pos: nat := 0;
    var p: nat := 0;
    var ai: nat := 0;
    while At(fmt, p) != '\0' && pos < size - 1
      invariant p <= |fmt| && pos < size
      invariant RenderFrom(fmt, p, args, ai, buf[..pos], size) == Render(fmt, args, size)
      invariant forall k :: pos < k < buf.Length ==> buf[k] == old(buf[k])
      decreases |fmt| - p
    {
      p, pos, ai := Step(buf, size, fmt, args, p, pos, ai);
    }
    buf[pos] := '\0';
    n := pos;
    assert buf[n + 1..] == old(buf[n + 1..]);
  }

  // ---------------------------------------------------------------------
  // What the rendered text is
  // ---------------------------------------------------------------------

  /** Text without '%' is copied as it is, from any point on, up to the last place. */
  lemma {:induction false} RenderFromPlain(fmt: string, p: nat, args: seq<Arg>, ai: nat, out: string, size: nat)
    requires p <= |fmt| && |out| < size
    requires forall i :: p <= i < |fmt| ==> fmt[i] != '%' && fmt[i] != '\0'
    ensures RenderFrom(fmt, p, args, ai, out, size) == out + Take(fmt[p..], size - 1 - |out|)
    decreases |fmt| - p
  {
    if p < |fmt| && |out| < size - 1 {
      RenderFromPlain(fmt, p + 1, args, ai, out + [fmt[p]], size);
      assert fmt[p..] == [fmt[p]] + fmt[p + 1..];
      TakeAppend([fmt[p]], fmt[p + 1..], size - 1 - |out|);
    }
  }

  /** A format without conversions renders as itself, cut to `size - 1` characters. */
  lemma RenderPlain(fmt: string, args: seq<Arg>, size: nat)
    requires size >= 1
    requires forall i :: 0 <= i < |fmt| ==> fmt[i] != '%' && fmt[i] != '\0'
    ensures Render(fmt, args, size) == Take(fmt, size - 1)
  {
    RenderFromPlain(fmt, 0, args, 0, [], size);
    assert fmt[0..] == fmt;
  }

  /** A NULL string argument prints "(null)" when there is room for it. */
  lemma RenderNullString(size: nat)
    requires size >= 7
    ensures Render("%s", [Str(None)], size) == "(null)"
  {
    var fmt := "%s";
    assert ParseWidth(fmt, 1, 0) == (0, 1);
    assert ParseSpec(fmt, 1) == Spec(false, 0, 1);
    assert StrLen("(null)") == 6 by {
      assert forall i :: 0 <= i < 6 ==> "(null)"[i] != '\0';
    }
    assert Piece('s', false, 0, [Str(None)], 0, 0, size) == "(null)";
    assert RenderFrom(fmt, 2, [Str(None)], 1, "(null)", size) == "(null)";
  }

  /** An unknown conversion is copied with its '%', as far as there is room. */
  lemma RenderUnknownConversion(size: nat)
    requires size >= 2
    ensures Render("%q", [], size) == if size >= 3 then "%q" else "%"
  {
    var fmt := "%q";
    assert ParseWidth(fmt, 1, 0) == (0, 1);
    assert ParseSpec(fmt, 1) == Spec(false, 0, 1);
    var piece := Piece('q', false, 0, [], 0, 0, size);
    assert piece == if size >= 3 then "%q" else "%";
    assert RenderFrom(fmt, 2, [], 0, piece, size) == piece;
  }

  /**
   * `%d` of a 32-bit value prints the decimal digits of a non-negative
   * value, and the sign with all but the last digit of a negative one.
   */
  lemma RenderSignedDecimal(value: int)
    requires -0x8000_0000 <= value < 0x8000_0000
    ensures value < 0 ==> Render("%d", [Num(value)], 32) == "-" + Numeral(-value, 10, false)[..|Numeral(-value, 10, false)| - 1]
    ensures value >= 0 ==> Render("%d", [Num(value)], 32) == Numeral(value, 10, false)
  {
    RenderDecimal(value);
    FormatSignedDecimalAsWritten(value);
  }

  /** `%d` alone renders as the integer conversion of its argument. */
  lemma RenderDecimal(value: int)
    requires -0x8000_0000 <= value < 0x8000_0000
    ensures Render("%d", [Num(value)], 32) == FormatIntAsWritten(value, 10, 0, false, false, true, 32)
  {
    var fmt, args := "%d", [Num(value)];
    assert ParseWidth(fmt, 1, 0) == (0, 1);
    assert ParseSpec(fmt, 1) == Spec(false, 0, 1);
    ConversionStep(fmt, 0, args, 0, [], 32, false, 0, 1);
    var piece := Piece('d', false, 0, args, 0, 0, 32);
    assert Signed32(value) == value;
    assert piece == FormatIntAsWritten(value, 10, 0, false, false, true, 32);
    assert [] + piece == piece;
    assert RenderFrom(fmt, 2, args, 1, piece, 32) == piece;
  }

  // ---------------------------------------------------------------------
  // The `%p` room test as written
  // ---------------------------------------------------------------------

  /**
   * The `%p` test as written: `pos < size - 3` computed in the 32-bit
   * `size_t`, where `size - 3` wraps to a huge value when `size` is 2.
   */
  predicate PointerRoomAsWritten(pos: nat, size: nat)
  {
    pos < (size - 3) % 0x1_0000_0000
  }

  /**
   * The position after a `%p` as written, which is also where the
   * terminator goes: "0x" when the wrapped test passes, then
   * `pt_format_int` into what is left (nothing at all when no place is left).
   */
  function PointerEndAsWritten(pos: nat, size: nat, value: int): (end: nat)
    requires pos + 1 < size < 0x1_0000_0000
    requires -0x8000_0000 <= value < 0x8000_0000
    ensures pos <= end <= size
    ensures end == size <==> size == 2
  {
    var at := if PointerRoomAsWritten(pos, size) then pos + 2 else pos;
    if at == size then at
    else at + |FormatIntAsWritten(value, 16, 8, true, false, false, size - at)|
  }

  /** The wrapped test differs from the intended one only when `size` is 2. */
  lemma PointerRoomAsWrittenDiffers(pos: nat, size: nat)
    requires pos + 1 < size < 0x1_0000_0000
    ensures PointerRoomAsWritten(pos, size) <==> PointerRoom(pos, size) || size == 2
  {
    if size == 2 {
      assert (size - 3) % 0x1_0000_0000 == 0xFFFF_FFFF;
    }
  }

  /**
   * With two places, "%p" as written fills both with "0x" and puts its
   * terminator at index 2, one past the buffer; the intended test keeps
   * the terminator inside.
   */
  lemma PointerOverrun(value: int)
    requires -0x8000_0000 <= value < 0x8000_0000
    ensures PointerEndAsWritten(0, 2, value) == 2
    ensures |Piece('p', true, 8, [Num(value)], 0, 0, 2)| < 2
  {
  }
}
