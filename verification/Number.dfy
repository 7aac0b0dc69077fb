/** `number` of `kernel/vsprintf.c`, the integer conversions of section 7.19.6.1 of
    ISO/IEC 9899:1999. */
module NumberFormat {
  const WORD := 0x1_0000_0000

  /** The flag bits. */
  datatype Flags = Flags(zeropad: bool, sign: bool, plus: bool, space: bool, left: bool, special: bool, small: bool)

  // ---- digits ------------------------------------------------------------------------------------------------

  /** The alphabet of digits. */
  function DigitChar(d: nat, small: bool): char
    requires d < 36
  {
    if d < 10 then ('0' as int + d) as char
    else if small then ('a' as int + d - 10) as char
    else ('A' as int + d - 10) as char
  }

  function CharDigit(c: char): int
  {
    if '0' <= c <= '9' then c as int - '0' as int
    else if 'a' <= c <= 'z' then c as int - 'a' as int + 10
    else if 'A' <= c <= 'Z' then c as int - 'A' as int + 10
    else -1
  }

  lemma DigitBack(d: nat, small: bool)
    requires d < 36
    ensures CharDigit(DigitChar(d, small)) == d
  {
  }

  /** What a string of digits stands for. */
  function Value(s: string, base: nat): int
  {
    if s == "" then 0 else Value(s[..|s| - 1], base) * base + CharDigit(s[|s| - 1])
  }

  /** The digits of m, none for zero. */
  function Digits(m: nat, base: nat, small: bool): (s: string)
    requires 2 <= base <= 36
  {
    if m == 0 then "" else Digits(m / base, base, small) + [DigitChar(m % base, small)]
  }

  lemma {:induction false} DigitsValue(m: nat, base: nat, small: bool)
    requires 2 <= base <= 36
    ensures Value(Digits(m, base, small), base) == m
  {
    if m == 0 {
      assert Digits(m, base, small) == "";
    } else {
      hide Value, DigitChar, CharDigit;
      Division(m, base);
      var (q, r) := (m / base, m % base);
      DigitsValue(q, base, small);
      DigitBack(r, small);
      ValueOfMore(Digits(q, base, small), DigitChar(r, small), base);
      assert Digits(m, base, small) == Digits(q, base, small) + [DigitChar(r, small)];
    }
  }

  lemma Division(m: nat, base: nat)
    requires base >= 2 && m > 0
    ensures 0 <= m / base < m && 0 <= m % base < base && m == (m / base) * base + m % base
  {
  }

  lemma ValueOfMore(s: string, c: char, base: nat)
    ensures Value(s + [c], base) == Value(s, base) * base + CharDigit(c)
  {
    assert (s + [c])[..|s + [c]| - 1] == s;
  }

  function Power2(k: nat): nat { if k == 0 then 1 else 2 * Power2(k - 1) }

  /** A number below 2^k has at most k digits. */
  lemma {:induction false} DigitsFit(m: nat, base: nat, small: bool, k: nat)
    requires 2 <= base <= 36 && m < Power2(k)
    ensures |Digits(m, base, small)| <= k
  {
    if m != 0 {
      HalfIsMore(m, base);
      DigitsFit(m / base, base, small, k - 1);
    }
  }

  lemma HalfIsMore(m: nat, base: nat)
    requires base >= 2
    ensures m / base <= m / 2
  {
    var q := m / base;
    assert q * base <= m;
    assert q * 2 <= q * base;
  }

  lemma Power32()
    ensures Power2(32) == WORD
  {
    assert Power2(8) == 256;
    assert Power2(16) == 65536;
    assert Power2(24) == 0x100_0000;
  }

  lemma {:induction false} ZerosValue(n: nat, s: string, base: nat)
    ensures Value(Repeat('0', n) + s, base) == Value(s, base)
    decreases |s|, n
  {
    var z := Repeat('0', n);
    if s != "" {
      ZerosValue(n, s[..|s| - 1], base);
      assert (z + s)[..|z + s| - 1] == z + s[..|s| - 1];
    } else if n > 0 {
      ZerosValue(n - 1, s, base);
      assert (z + s)[..n - 1] == Repeat('0', n - 1) + s;
    }
  }

  function Repeat(c: char, n: int): (s: string)
    ensures |s| == if n > 0 then n else 0
    ensures forall i | 0 <= i < |s| :: s[i] == c
  {
    if n <= 0 then "" else Repeat(c, n - 1) + [c]
  }

  // ---- the format --------------------------------------------------------------------------------------------

  predicate Int32(n: int) { -0x8000_0000 <= n < 0x8000_0000 }

  predicate Negative(num: int, f: Flags) { f.sign && num < 0 }

  /** The 32-bit word the digits show: the absolute value of a signed negative number, that of the
      smallest one included, and otherwise the number modulo 2^32. */
  function Magnitude(num: int, f: Flags): (m: nat)
    requires Int32(num)
    ensures m < WORD
  {
    if Negative(num, f) then -num else if num < 0 then num + 0x1_0000_0000 else num
  }

  function SignText(num: int, f: Flags): string
  {
    if Negative(num, f) then "-" else if f.plus then "+" else if f.space then " " else ""
  }

  function Prefix(base: nat, f: Flags): string
  {
    if !f.special then "" else if base == 8 then "0"
    else if base == 16 then (if f.small then "0x" else "0X") else ""
  }

  function Shown(m: nat, base: nat, small: bool): string
    requires 2 <= base <= 36
  {
    if m == 0 then "0" else Digits(m, base, small)
  }

  function Max(a: int, b: int): int { if a < b then b else a }

  /** The field: sign, prefix and digits with at least `precision` places, padded to `size`. */
  function Format(num: int, base: nat, size: int, precision: int, f: Flags): (s: string)
    requires Int32(num) && 2 <= base <= 36
  {
    var d := Shown(Magnitude(num, f), base, f.small);
    var places := Max(precision, |d|);
    var pad := size - |SignText(num, f)| - |Prefix(base, f)| - places;
    var start := SignText(num, f) + Prefix(base, f);
    var tail := Repeat('0', places - |d|) + d;
    if f.left then start + tail + Repeat(' ', pad)
    else if f.zeropad then start + Repeat('0', pad) + tail
    else Repeat(' ', pad) + start + tail
  }

  /** The length is exactly the width, or what the number needs if that is more. */
  lemma FormatLength(num: int, base: nat, size: int, precision: int, f: Flags)
    requires Int32(num) && 2 <= base <= 36
    ensures |Format(num, base, size, precision, f)| ==
            Max(size, |SignText(num, f)| + |Prefix(base, f)| + Max(precision, |Shown(Magnitude(num, f), base, f.small)|))
  {
  }

  /** The part of the field that holds the digits. */
  function DigitPart(num: int, base: nat, size: int, precision: int, f: Flags): (r: (int, int))
    requires Int32(num) && 2 <= base <= 36
  {
    var d := Shown(Magnitude(num, f), base, f.small);
    var places := Max(precision, |d|);
    var start := |SignText(num, f)| + |Prefix(base, f)|;
    var pad := Max(0, size - start - places);
    if f.left then (start, start + places)
    else if f.zeropad then (start, start + pad + places)
    else (pad + start, pad + start + places)
  }

  /** The digits parse back to the value. */
  lemma ParsesBack(num: int, base: nat, size: int, precision: int, f: Flags)
    requires Int32(num) && 2 <= base <= 36
    ensures var (a, b) := DigitPart(num, base, size, precision, f); var s := Format(num, base, size, precision, f);
            0 <= a <= b <= |s| && Value(s[a..b], base) == Magnitude(num, f)
  {
    hide Value, Repeat, Shown, SignText, Prefix, Magnitude;
    var d := Shown(Magnitude(num, f), base, f.small);
    var places := Max(precision, |d|);
    var pad := size - |SignText(num, f)| - |Prefix(base, f)| - places;
    var tail := Repeat('0', places - |d|) + d;
    ShownValue(Magnitude(num, f), base, f.small);
    ZerosValue(places - |d|, d, base);
    ZerosValue(if pad > 0 then pad else 0, tail, base);
    RepeatNone('0', pad);
    Fields(SignText(num, f) + Prefix(base, f), Repeat(' ', pad), Repeat('0', pad), tail);
  }

  /** Where the digits stand in the three layouts. */
  lemma Fields(start: string, blanks: string, zeros: string, tail: string)
    ensures (start + tail + blanks)[|start|..|start| + |tail|] == tail
    ensures (start + zeros + tail)[|start|..|start| + |zeros| + |tail|] == zeros + tail
    ensures (blanks + start + tail)[|blanks| + |start|..|blanks| + |start| + |tail|] == tail
  {
  }

  lemma RepeatNone(c: char, n: int)
    ensures Repeat(c, n) == Repeat(c, if n > 0 then n else 0)
  {
  }

  lemma ShownValue(m: nat, base: nat, small: bool)
    requires 2 <= base <= 36
    ensures Value(Shown(m, base, small), base) == m
  {
    DigitsValue(m, base, small);
    assert "0"[..0] == "";
    assert Value("0", base) == Value("0"[..0], base) * base + CharDigit('0');
  }

  // ---- reading the field ------------------------------------------------------------------------------------------

  function SkipBlanks(s: string): string { if s != "" && s[0] == ' ' then SkipBlanks(s[1..]) else s }

  function UpToBlank(s: string): string { if s == "" || s[0] == ' ' then "" else [s[0]] + UpToBlank(s[1..]) }

  /** An unsigned number in the given base; base 16 may have a prefix. */
  function ReadUnsigned(s: string, base: nat): int
  {
    var d := if base == 16 && |s| >= 2 && s[0] == '0' && (s[1] == 'x' || s[1] == 'X') then s[2..] else s;
    Value(UpToBlank(d), base)
  }

  /** A reader for fields: blanks, a sign or none, a prefix or none, digits up to the next blank. */
  function ReadField(s: string, base: nat): int
  {
    var r := SkipBlanks(s);
    if r != "" && r[0] == '-' then -ReadUnsigned(r[1..], base)
    else if r != "" && r[0] == '+' then ReadUnsigned(r[1..], base)
    else ReadUnsigned(r, base)
  }

  lemma {:induction false} BlanksSkipped(n: int, s: string)
    requires s == "" || s[0] != ' '
    ensures SkipBlanks(Repeat(' ', n) + s) == s
  {
    if n > 0 {
      BlanksSkipped(n - 1, s);
      assert (Repeat(' ', n) + s)[1..] == Repeat(' ', n - 1) + s;
    } else {
      assert Repeat(' ', n) + s == s;
    }
  }

  /** No blanks, and every character a digit of the base. */
  predicate Numeral(d: string, base: nat) { forall i | 0 <= i < |d| :: 0 <= CharDigit(d[i]) < base }

  lemma {:induction false} ReadUpTo(d: string, base: nat, n: int)
    requires Numeral(d, base)
    ensures UpToBlank(d + Repeat(' ', n)) == d
    decreases |d|
  {
    var s := d + Repeat(' ', n);
    if d == "" {
      assert s == Repeat(' ', n);
    } else {
      assert d[0] != ' ' && s[1..] == d[1..] + Repeat(' ', n);
      ReadUpTo(d[1..], base, n);
    }
  }

  lemma {:induction false} DigitsNumeral(m: nat, base: nat, small: bool)
    requires 2 <= base <= 36
    ensures Numeral(Digits(m, base, small), base)
  {
    if m != 0 {
      DigitsNumeral(m / base, base, small);
      DigitBack(m % base, small);
    }
  }

  /** The digits of the field with their leading zeros. */
  lemma ZerosNumeral(n: int, d: string, base: nat)
    requires base >= 2 && Numeral(d, base)
    ensures Numeral(Repeat('0', n) + d, base)
  {
  }

  /** A sign is read, and blanks before it. */
  lemma SignRead(num: int, f: Flags, blanks: int, rest: string, base: nat)
    requires rest != "" && 0 <= CharDigit(rest[0]) < 36
    ensures ReadField(Repeat(' ', blanks) + SignText(num, f) + rest, base) ==
            if f.sign && num < 0 then -ReadUnsigned(rest, base) else ReadUnsigned(rest, base)
  {
    var t := SignText(num, f);
    assert Repeat(' ', blanks) + t + rest == Repeat(' ', blanks) + (t + rest);
    if t == " " {
      assert Repeat(' ', blanks) + (t + rest) == Repeat(' ', Max(blanks, 0) + 1) + rest;
      BlanksSkipped(Max(blanks, 0) + 1, rest);
    } else {
      assert t + rest != "" && (t + rest)[0] != ' ';
      BlanksSkipped(blanks, t + rest);
      assert t != "" ==> (t + rest)[1..] == rest;
      assert t == "" ==> t + rest == rest;
    }
  }

  /** The prefix is read over, and so are leading zeros and blanks behind the digits. */
  lemma UnsignedRead(base: nat, f: Flags, d: string, n: int)
    requires 2 <= base <= 36 && d != "" && Numeral(d, base)
    ensures ReadUnsigned(Prefix(base, f) + d + Repeat(' ', n), base) == Value(d, base)
  {
    var (p, b) := (Prefix(base, f), Repeat(' ', n));
    var s := p + d + b;
    ReadUpTo(d, base, n);
    if p == "0x" || p == "0X" {
      assert s[2..] == d + b;
    } else if p == "0" {
      assert s == ("0" + d) + b;
      assert Repeat('0', 1) == "0";
      ZerosNumeral(1, d, base);
      ZerosValue(1, d, base);
      ReadUpTo("0" + d, base, n);
    } else {
      assert s == d + b;
      if base == 16 && |s| >= 2 { assert s[1] == ' ' || s[1] == d[1]; }
    }
  }

  /** All digits of the field, padding zeros included. */
  function AllDigits(m: nat, base: nat, small: bool, zeros: int, precision: int): (r: string)
    requires 2 <= base <= 36
  {
    var d := Shown(m, base, small);
    Repeat('0', zeros) + (Repeat('0', Max(precision, |d|) - |d|) + d)
  }

  lemma AllDigitsRead(m: nat, base: nat, small: bool, zeros: nat, precision: int)
    requires 2 <= base <= 36
    ensures var r := AllDigits(m, base, small, zeros, precision); r != "" && Numeral(r, base) && Value(r, base) == m
  {
    var d := Shown(m, base, small);
    ShownValue(m, base, small);
    ShownNumeral(m, base, small);
    hide Value, Shown, CharDigit;
    var n := Max(precision, |d|) - |d|;
    ZerosValue(n, d, base);
    ZerosNumeral(n, d, base);
    ZerosValue(zeros, Repeat('0', n) + d, base);
    ZerosNumeral(zeros, Repeat('0', n) + d, base);
  }

  /** What the digits show, with the sign in front. */
  lemma SignedMagnitude(num: int, f: Flags)
    requires Int32(num)
    ensures (if f.sign && num < 0 then 0 - Magnitude(num, f) else Magnitude(num, f)) == if f.sign then num else num % 0x1_0000_0000
  {
  }

  /** The whole field reads as the number: with SIGN as a signed one, without it modulo 2^32. */
  lemma ReadsBack(num: int, base: nat, size: int, precision: int, f: Flags)
    requires Int32(num) && 2 <= base <= 36
    ensures ReadField(Format(num, base, size, precision, f), base) == if f.sign then num else num % 0x1_0000_0000
  {
    hide Value, Shown, SignText, Prefix, Magnitude, ReadField, ReadUnsigned, CharDigit, AllDigits, Format, Repeat, Numeral;
    var m := Magnitude(num, f);
    var pad := size - |SignText(num, f)| - |Prefix(base, f)| - Max(precision, |Shown(m, base, f.small)|);
    var zeros := if f.left || !f.zeropad then 0 else Max(pad, 0);
    var blanks := if f.left || f.zeropad then 0 else pad;
    var behind := if f.left then pad else 0;
    var digits := AllDigits(m, base, f.small, zeros, precision);
    AllDigitsRead(m, base, f.small, zeros, precision);
    FieldIs(num, base, size, precision, f, pad, zeros, blanks, behind);
    UnsignedRead(base, f, digits, behind);
    FirstIsDigit(base, f, digits, Repeat(' ', behind));
    SignRead(num, f, blanks, Prefix(base, f) + digits + Repeat(' ', behind), base);
    SignedMagnitude(num, f);
  }

  lemma ShownNumeral(m: nat, base: nat, small: bool)
    requires 2 <= base <= 36
    ensures Shown(m, base, small) != "" && Numeral(Shown(m, base, small), base)
  {
    DigitsNumeral(m, base, small);
  }

  lemma FirstIsDigit(base: nat, f: Flags, digits: string, blanks: string)
    requires 2 <= base <= 36 && digits != "" && Numeral(digits, base)
    ensures var rest := Prefix(base, f) + digits + blanks; rest != "" && 0 <= CharDigit(rest[0]) < 36
  {
  }

  lemma FieldIs(num: int, base: nat, size: int, precision: int, f: Flags, pad: int, zeros: int, blanks: int, behind: int)
    requires Int32(num) && 2 <= base <= 36
    requires pad == size - |SignText(num, f)| - |Prefix(base, f)| - Max(precision, |Shown(Magnitude(num, f), base, f.small)|)
    requires zeros == (if f.left || !f.zeropad then 0 else Max(pad, 0))
    requires blanks == (if f.left || f.zeropad then 0 else pad) && behind == (if f.left then pad else 0)
    ensures Format(num, base, size, precision, f) ==
            Repeat(' ', blanks) + SignText(num, f)
            + (Prefix(base, f) + AllDigits(Magnitude(num, f), base, f.small, zeros, precision) + Repeat(' ', behind))
  {
    hide Shown, SignText, Prefix, Magnitude;
    RepeatNone('0', pad);
    NoRepeat(' ', 0);
    NoRepeat('0', 0);
  }

  // ---- what stands where -----------------------------------------------------------------------------------------

  /** How many characters stand before the digits: a sign, and a prefix. */
  function StartLength(num: int, base: nat, f: Flags): nat
  {
    (if (f.sign && num < 0) || f.plus || f.space then 1 else 0)
    + (if f.special && base == 16 then 2 else if f.special && base == 8 then 1 else 0)
  }

  /** Padding goes behind the field for LEFT, between its start and its digits as zeros for ZEROPAD, and in
      front of it otherwise. The field without width is what is padded. */
  lemma PaddingPlaced(num: int, base: nat, size: int, precision: int, f: Flags)
    requires Int32(num) && 2 <= base <= 36
    ensures var (s, core) := (Format(num, base, size, precision, f), Format(num, base, 0, precision, f));
            var (n, h) := (size - |core|, StartLength(num, base, f));
            && h < |core|
            && s == if f.left then core + Repeat(' ', n)
                    else if f.zeropad then core[..h] + Repeat('0', n) + core[h..]
                    else Repeat(' ', n) + core
  {
    hide Shown, SignText, Prefix, Magnitude, StartLength, Repeat, Format;
    var d := Shown(Magnitude(num, f), base, f.small);
    ShownNumeral(Magnitude(num, f), base, f.small);
    var (start, tail) := (SignText(num, f) + Prefix(base, f), Repeat('0', Max(precision, |d|) - |d|) + d);
    StartIs(num, base, f);
    Unpadded(num, base, precision, f);
    Padded(num, base, size, precision, f, start, tail);
    Parts(start, tail);
  }

  lemma StartIs(num: int, base: nat, f: Flags)
    ensures |SignText(num, f) + Prefix(base, f)| == StartLength(num, base, f)
  {
  }

  lemma Parts(a: string, b: string)
    ensures (a + b)[..|a|] == a && (a + b)[|a|..] == b
  {
  }

  lemma Padded(num: int, base: nat, size: int, precision: int, f: Flags, start: string, tail: string)
    requires Int32(num) && 2 <= base <= 36 && start == SignText(num, f) + Prefix(base, f)
    requires var d := Shown(Magnitude(num, f), base, f.small); tail == Repeat('0', Max(precision, |d|) - |d|) + d
    ensures var n := size - |start + tail|;
            Format(num, base, size, precision, f) ==
            if f.left then (start + tail) + Repeat(' ', n)
            else if f.zeropad then start + Repeat('0', n) + tail
            else Repeat(' ', n) + (start + tail)
  {
    hide Shown, SignText, Prefix, Magnitude, Repeat;
    var d := Shown(Magnitude(num, f), base, f.small);
    assert size - |start + tail| == size - |SignText(num, f)| - |Prefix(base, f)| - Max(precision, |d|);
  }

  /** The field without width. */
  lemma Unpadded(num: int, base: nat, precision: int, f: Flags)
    requires Int32(num) && 2 <= base <= 36
    ensures var d := Shown(Magnitude(num, f), base, f.small);
            Format(num, base, 0, precision, f) ==
            (SignText(num, f) + Prefix(base, f)) + (Repeat('0', Max(precision, |d|) - |d|) + d)
  {
    hide Shown, SignText, Prefix, Magnitude, Repeat;
    var d := Shown(Magnitude(num, f), base, f.small);
    var pad := 0 - |SignText(num, f)| - |Prefix(base, f)| - Max(precision, |d|);
    NoRepeat(' ', pad);
    NoRepeat('0', pad);
  }

  /** The sign of the field, its prefix and the case of its letters. */
  lemma StartShown(num: int, base: nat, precision: int, f: Flags)
    requires Int32(num) && 2 <= base <= 36
    ensures var core := Format(num, base, 0, precision, f);
            var k := if (f.sign && num < 0) || f.plus || f.space then 1 else 0;
            && (core != "" && (core[0] == '-' <==> f.sign && num < 0))
            && (core[0] == '+' <==> f.plus && !(f.sign && num < 0))
            && (core[0] == ' ' <==> f.space && !f.plus && !(f.sign && num < 0))
            && (f.special && base == 8 ==> core[k..][..1] == "0")
            && (f.special && base == 16 ==> core[k..][..2] == if f.small then "0x" else "0X")
  {
    var d := Shown(Magnitude(num, f), base, f.small);
    ShownNumeral(Magnitude(num, f), base, f.small);
    Unpadded(num, base, precision, f);
    hide Shown, Magnitude, Format;
    var places := Max(precision, |d|);
    var tail := Repeat('0', places - |d|) + d;
    ZerosNumeral(places - |d|, d, base);
    assert tail[0] != '-' && tail[0] != '+' && tail[0] != ' ';
  }

  /** The letters of a numeral have the case asked for. */
  predicate InCase(c: char, small: bool) { !('A' <= c <= 'Z' && small) && !('a' <= c <= 'z' && !small) }

  lemma DigitInCase(d: nat, small: bool)
    requires d < 36
    ensures InCase(DigitChar(d, small), small) && (DigitChar(d, small) == '0' <==> d == 0)
  {
  }

  /** The digits themselves have no leading zeros. */
  lemma {:induction false} DigitsLeast(m: nat, base: nat, small: bool)
    requires 2 <= base <= 36 && m > 0
    ensures var d := Digits(m, base, small); d != "" && d[0] != '0' && forall i | 0 <= i < |d| :: InCase(d[i], small)
  {
    hide DigitChar, InCase;
    Division(m, base);
    var (q, r) := (m / base, m % base);
    DigitInCase(r, small);
    if q > 0 {
      DigitsLeast(q, base, small);
    } else {
      assert Digits(q, base, small) == "" && q * base == 0;
    }
  }

  // ---- the code ------------------------------------------------------------------------------------------------

  /** A padding loop: c as often as size says, and size is one too low afterwards. */
  method Emit(str: string, c: char, size: int) returns (s: string, left: int)
    ensures s == str + Repeat(c, size) && left == (if size > 0 then 0 else size) - 1
  {
    s, left := str, size;
    while left > 0
      invariant left <= size && (size > 0 ==> left >= 0) && (size <= 0 ==> left == size)
      invariant s == str + Repeat(c, size - left)
    {
      s := s + [c];
      left := left - 1;
    }
    left := left - 1;
  }

  /** The digits, last first, into tmp. */
  method Collect(m: nat, base: nat, small: bool, tmp: array<char>) returns (i: nat)
    requires 2 <= base <= 36 && m < WORD && tmp.Length == 36
    modifies tmp
    ensures i <= 32 && Backwards(tmp[..i]) == Shown(m, base, small)
  {
    Power32();
    DigitsFit(m, base, small, 32);
    i := 0;
    if m == 0 {
      tmp[i] := '0';
      i := i + 1;
      assert tmp[..1] == ['0'];
      assert Backwards(['0']) == "0";
      return;
    }
    hide Digits, DigitChar, Backwards;
    assert tmp[..0] == "";
    NothingBackwards();
    var n: nat := m;
    while n != 0
      invariant |Digits(n, base, small)| + i <= 32
      invariant Digits(m, base, small) == Digits(n, base, small) + Backwards(tmp[..i])
      decreases n
    {
      Division(n, base);
      ghost var before := tmp[..i];
      OneDigit(n, base, small, before);
      tmp[i] := DigitChar(n % base, small);
      assert tmp[..i + 1] == before + [tmp[i]];
      n := n / base;
      i := i + 1;
    }
    NoDigits(base, small);
  }

  lemma NothingBackwards()
    ensures Backwards("") == ""
  {
  }

  lemma NoDigits(base: nat, small: bool)
    requires 2 <= base <= 36
    ensures Digits(0, base, small) == ""
  {
  }

  /** One turn of the loop: the last digit of what is left goes in front of those already found. */
  lemma OneDigit(n: nat, base: nat, small: bool, found: string)
    requires 2 <= base <= 36 && n != 0
    ensures |Digits(n, base, small)| == |Digits(n / base, base, small)| + 1
    ensures Digits(n, base, small) + Backwards(found)
         == Digits(n / base, base, small) + Backwards(found + [DigitChar(n % base, small)])
  {
    hide DigitChar, Backwards;
    var c := DigitChar(n % base, small);
    BackwardsMore(found, c);
    var more := Digits(n / base, base, small);
    assert more + [c] + Backwards(found) == more + ([c] + Backwards(found));
  }

  function Backwards(s: string): string
  {
    if s == "" then "" else Backwards(s[1..]) + [s[0]]
  }

  lemma {:induction false} BackwardsMore(s: string, c: char)
    ensures Backwards(s + [c]) == [c] + Backwards(s)
  {
    if s == "" {
      assert "" + [c] == [c] && Backwards([c][1..]) == "";
    } else {
      BackwardsMore(s[1..], c);
      assert (s + [c])[1..] == s[1..] + [c];
    }
  }

  lemma {:induction false} BackwardsLength(s: string)
    ensures |Backwards(s)| == |s|
  {
    if s != "" { BackwardsLength(s[1..]); }
  }

  /** The collected digits, last one first. */
  method EmitBackwards(str: string, tmp: array<char>, i: nat) returns (s: string)
    requires i <= tmp.Length
    ensures s == str + Backwards(tmp[..i])
  {
    s := str;
    var k := i;
    ghost var done := "";
    assert tmp[..i] == tmp[..k] + done && Backwards(done) == "";
    while k > 0
      invariant 0 <= k <= i && s + Backwards(tmp[..k]) == str + Backwards(tmp[..i])
    {
      k := k - 1;
      assert tmp[..k + 1] == tmp[..k] + [tmp[k]];
      BackwardsMore(tmp[..k], tmp[k]);
      assert s + ([tmp[k]] + Backwards(tmp[..k])) == (s + [tmp[k]]) + Backwards(tmp[..k]);
      s := s + [tmp[k]];
    }
    assert tmp[..0] == "";
  }

  lemma NoRepeat(c: char, n: int)
    ensures n <= 0 ==> Repeat(c, n) == ""
  {
  }

  /** Blanks before the sign, zeros after it, blanks at the end: only one of them is there. */
  function Lead(pad: int, f: Flags): string { if f.left || f.zeropad then "" else Repeat(' ', pad) }

  function Mid(pad: int, f: Flags): string { if f.left || !f.zeropad then "" else Repeat('0', pad) }

  function End(pad: int, f: Flags): string { if f.left then Repeat(' ', pad) else "" }

  /** The parts in the order of the code make the field. */
  lemma Layout(num: int, base: nat, size: int, precision: int, f: Flags, places: int, pad: int)
    requires Int32(num) && 2 <= base <= 36 && places == Max(precision, |Shown(Magnitude(num, f), base, f.small)|)
    requires pad == size - |SignText(num, f)| - |Prefix(base, f)| - places
    ensures var d := Shown(Magnitude(num, f), base, f.small);
            Lead(pad, f) + (SignText(num, f) + Prefix(base, f)) + Mid(pad, f) + Repeat('0', places - |d|) + d + End(pad, f)
            == Format(num, base, size, precision, f)
  {
    hide Shown, Magnitude, Repeat, SignText, Prefix;
    var (start, d) := (SignText(num, f) + Prefix(base, f), Shown(Magnitude(num, f), base, f.small));
    var z := Repeat('0', places - |d|);
    assert Lead(pad, f) + start + Mid(pad, f) + z + d + End(pad, f)
        == Lead(pad, f) + start + Mid(pad, f) + (z + d) + End(pad, f);
  }

  /** The sign and the prefix. */
  method EmitStart(str: string, num: int, base: nat, f: Flags) returns (s: string)
    ensures s == str + (SignText(num, f) + Prefix(base, f))
  {
    s := str + SignText(num, f);
    if f.special {
      if base == 8 {
        s := s + ['0'];
      } else if base == 16 {
        s := s + ['0'];
        s := s + [DigitChar(33, f.small)];
      }
    }
  }

  /** The second half of number: everything is counted, now it is written out. */
  method EmitField(num: int, base: nat, pad: int, places: int, tmp: array<char>, i: nat, f: Flags) returns (str: string)
    requires i <= tmp.Length
    ensures str == Lead(pad, f) + (SignText(num, f) + Prefix(base, f)) + Mid(pad, f) + Repeat('0', places - i)
                   + Backwards(tmp[..i]) + End(pad, f)
  {
    hide Repeat, SignText, Prefix, Backwards;
    NoRepeat(' ', -1);
    var zeropad := f.zeropad && !f.left;
    var c, size := if zeropad then '0' else ' ', pad;
    str := "";
    if !zeropad && !f.left { str, size := Emit(str, ' ', size); }
    assert str == Lead(pad, f) && (str == "" || size < 0);
    str := EmitStart(str, num, base, f);
    NoRepeat(c, size);
    if !f.left { str, size := Emit(str, c, size); }
    assert str == Lead(pad, f) + (SignText(num, f) + Prefix(base, f)) + Mid(pad, f);
    var rest;
    str, rest := Emit(str, '0', places - i);
    str := EmitBackwards(str, tmp, i);
    NoRepeat(' ', size);
    str, rest := Emit(str, ' ', size);
  }

  /** number; false stands for its null result. */
  method Number(num: int, base: int, width: int, digits: int, f: Flags) returns (ok: bool, str: string)
    requires Int32(num)
    ensures ok <==> 2 <= base <= 36
    ensures ok ==> str == Format(num, base, width, digits, f)
  {
    if base < 2 || base > 36 { return false, ""; }
    var size, precision := width, digits;
    if SignText(num, f) != "" { size := size - 1; }
    if f.special {
      if base == 16 { size := size - 2; } else if base == 8 { size := size - 1; }
    }
    assert size == width - |SignText(num, f)| - |Prefix(base, f)|;
    hide Shown, Magnitude, Repeat, SignText, Prefix, Backwards, Format;
    var tmp := new char[36];
    var i := Collect(Magnitude(num, f), base, f.small, tmp);
    BackwardsLength(tmp[..i]);
    if i > precision { precision := i; }
    size := size - precision;
    Layout(num, base, width, digits, f, precision, size);
    ok := true;
    str := EmitField(num, base, size, precision, tmp, i, f);
  }
}
