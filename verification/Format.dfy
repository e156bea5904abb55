/** How integers are written as text, and how that text is read. */
module IntegerText {
  import opened Options

  predicate IsBase(base: nat) {
    base == 2 || base == 8 || base == 10 || base == 16
  }

  datatype Flags = Flags(emptySign: bool, forceSign: bool, hash: bool, leftJustify: bool, zeroPad: bool, uppercase: bool, hasPrecision: bool)

  function DigitChar(digit: nat, upper: bool): char
    requires digit < 16
  {
    (if digit < 10 then '0' as int + digit else (if upper then 'A' else 'a') as int + digit - 10) as char
  }

  function DigitValue(c: char): nat {
    if '0' <= c <= '9' then c as int - '0' as int
    else if 'a' <= c <= 'f' then c as int - 'a' as int + 10
    else if 'A' <= c <= 'F' then c as int - 'A' as int + 10
    else 16
  }

  /** The digits of a value, most significant first. */
  function Digits(value: nat, base: nat, upper: bool): string
    requires IsBase(base)
    decreases value
  {
    (if value < base then [] else Digits(value / base, base, upper)) + [DigitChar(value % base, upper)]
  }

  function Repeat(c: char, n: int): (s: string)
    ensures |s| == if n > 0 then n else 0
  {
    if n <= 0 then [] else [c] + Repeat(c, n - 1)
  }

  /** The parts of a printed integer, as printf has them. */
  function Number(f: Flags, base: nat, value: nat): string
    requires IsBase(base)
  {
    if f.hasPrecision && value == 0 then [] else Digits(value, base, f.uppercase)
  }

  function Sign(f: Flags, negative: bool): string {
    if negative then "-" else if f.forceSign then "+" else if f.emptySign then " " else ""
  }

  function Prefix(f: Flags, base: nat, value: nat): string {
    if !f.hash || value == 0 then "" else if base == 2 then "0b" else if base == 16 then "0x" else "0"
  }

  function Zeroes(f: Flags, width: nat, precision: nat, before: nat, digits: nat): nat {
    if !f.leftJustify && f.zeroPad then (if digits + before < width then width - digits - before else 0)
    else if digits < precision then precision - digits else 0
  }

  function Body(f: Flags, width: nat, precision: nat, base: nat, negative: bool, value: nat): string
    requires IsBase(base)
  {
    var number, before := Number(f, base, value), Sign(f, negative) + Prefix(f, base, value);
    before + Repeat('0', Zeroes(f, width, precision, |before|, |number|)) + number
  }

  function Padded(leftJustify: bool, width: nat, body: string): string {
    if leftJustify then body + Repeat(' ', width - |body|) else Repeat(' ', width - |body|) + body
  }

  function Printed(f: Flags, width: nat, precision: nat, base: nat, negative: bool, value: nat): string
    requires IsBase(base)
  {
    Padded(f.leftJustify, width, Body(f, width, precision, base, negative, value))
  }

  /** Reading an integer: spaces, a sign, a prefix that stands for the base, digits, and spaces again. */
  function SkipSpaces(s: string): string {
    if s != "" && s[0] == ' ' then SkipSpaces(s[1..]) else s
  }

  function ReadDigits(s: string, base: nat, sofar: nat): (nat, string) {
    if s != "" && DigitValue(s[0]) < base then ReadDigits(s[1..], base, sofar * base + DigitValue(s[0])) else (sofar, s)
  }

  function AfterSign(s: string): string {
    if s != "" && (s[0] == '-' || s[0] == '+') then s[1..] else s
  }

  function AfterPrefix(s: string, base: nat): string {
    if |s| >= 2 && s[0] == '0' && ((base == 2 && s[1] == 'b') || (base == 16 && s[1] == 'x')) then s[2..] else s
  }

  function Read(s: string, base: nat): Option<(bool, nat)> {
    var t := SkipSpaces(s);
    var (value, rest) := ReadDigits(AfterPrefix(AfterSign(t), base), base, 0);
    if SkipSpaces(rest) == "" then Some((t != "" && t[0] == '-', value)) else None
  }

  lemma {:induction false} SpacesSkipped(n: int, s: string)
    ensures SkipSpaces(Repeat(' ', n) + s) == SkipSpaces(s)
  {
    if n <= 0 {
      assert Repeat(' ', n) + s == s;
    } else {
      assert (Repeat(' ', n) + s)[1..] == Repeat(' ', n - 1) + s;
      SpacesSkipped(n - 1, s);
    }
  }

  lemma {:induction false} ZeroesRead(n: int, s: string, base: nat)
    requires IsBase(base)
    ensures ReadDigits(Repeat('0', n) + s, base, 0) == ReadDigits(s, base, 0)
  {
    if n <= 0 {
      assert Repeat('0', n) + s == s;
    } else {
      assert (Repeat('0', n) + s)[1..] == Repeat('0', n - 1) + s;
      ZeroesRead(n - 1, s, base);
    }
  }

  lemma Quotient(value: nat, base: nat)
    requires IsBase(base)
    ensures base >= 2 && value / base * base + value % base == value && 0 <= value % base < 16
    ensures 0 <= value / base && 2 * (value / base) <= value && (value > 0 ==> value / base < value) && (value / base == 0 <==> value < base)
  {
  }

  lemma DigitsSplit(value: nat, base: nat, upper: bool)
    requires IsBase(base)
    ensures 0 <= value % base < 16
    ensures Digits(value, base, upper) ==
            if value < base then [DigitChar(value % base, upper)] else Digits(value / base, base, upper) + [DigitChar(value % base, upper)]
  {
  }

  lemma OneDigitRead(digit: nat, base: nat, upper: bool, s: string, sofar: nat)
    requires IsBase(base) && digit < base
    ensures ReadDigits([DigitChar(digit, upper)] + s, base, sofar) == ReadDigits(s, base, sofar * base + digit)
  {
    var t := [DigitChar(digit, upper)] + s;
    assert t[1..] == s;
  }

  /** The digits read back give the value. */
  lemma {:induction false} DigitsRead(value: nat, base: nat, upper: bool, s: string)
    requires IsBase(base)
    ensures ReadDigits(Digits(value, base, upper) + s, base, 0) == ReadDigits(s, base, value)
    decreases value
  {
    hide ReadDigits, DigitChar, DigitValue, Digits;
    var last := [DigitChar(value % base, upper)];
    Quotient(value, base);
    DigitsSplit(value, base, upper);
    OneDigitRead(value % base, base, upper, s, if value < base then 0 else value / base);
    if value < base {
      assert Digits(value, base, upper) == last;
    } else {
      assert Digits(value, base, upper) + s == Digits(value / base, base, upper) + (last + s);
      DigitsRead(value / base, base, upper, last + s);
    }
  }

  /** There is no leading zero, and every character is a digit of the base. */
  lemma {:induction false} DigitsAre(value: nat, base: nat, upper: bool)
    requires IsBase(base)
    ensures var d := Digits(value, base, upper);
            && d != "" && (d[0] == '0' ==> value == 0)
            && (forall i :: 0 <= i < |d| ==> DigitValue(d[i]) < base && d[i] != ' ' && d[i] != '-' && d[i] != '+' && d[i] != 'x')
            && (forall i :: 0 <= i < |d| ==> if upper then !('a' <= d[i] <= 'f') else !('A' <= d[i] <= 'F'))
    decreases value
  {
    if value >= base {
      DigitsAre(value / base, base, upper);
    }
  }

  /** What is left over after the digits are spaces, and they are not digits. */
  lemma NumberRead(f: Flags, base: nat, value: nat, zeroes: int, spaces: int)
    requires IsBase(base)
    ensures ReadDigits(Repeat('0', zeroes) + Number(f, base, value) + Repeat(' ', spaces), base, 0) == (value, Repeat(' ', spaces))
  {
    var number, after := Number(f, base, value), Repeat(' ', spaces);
    assert Repeat('0', zeroes) + number + after == Repeat('0', zeroes) + (number + after);
    ZeroesRead(zeroes, number + after, base);
    if number == [] {
      assert number + after == after;
      DigitsAre(value, base, f.uppercase);
    } else {
      DigitsRead(value, base, f.uppercase, after);
    }
  }

  /** The first characters of zeroes, digits and trailing spaces. */
  lemma NumberStarts(f: Flags, base: nat, value: nat, zeroes: int, spaces: int)
    requires IsBase(base)
    ensures var s := Repeat('0', zeroes) + Number(f, base, value) + Repeat(' ', spaces);
            && (s == Repeat(' ', spaces) || (s != "" && DigitValue(s[0]) < base))
            && (|s| >= 2 ==> DigitValue(s[1]) < base || s[1] == ' ')
  {
    hide Digits;
    DigitsAre(value, base, f.uppercase);
    var number := Number(f, base, value);
    var s := Repeat('0', zeroes) + number + Repeat(' ', spaces);
    forall i | 0 <= i < |s| ensures if i < |Repeat('0', zeroes) + number| then DigitValue(s[i]) < base else s[i] == ' ' {
      if |Repeat('0', zeroes) + number| <= i {
        RepeatIs(' ', spaces, i - |Repeat('0', zeroes) + number|);
      } else if i < |Repeat('0', zeroes)| {
        RepeatIs('0', zeroes, i);
      } else {
        assert s[i] == number[i - |Repeat('0', zeroes)|];
      }
    }
    if zeroes <= 0 && number == "" {
      assert s == Repeat(' ', spaces);
    }
  }

  lemma {:induction false} RepeatIs(c: char, n: int, i: nat)
    requires i < n
    ensures Repeat(c, n)[i] == c
  {
    if i > 0 {
      RepeatIs(c, n - 1, i - 1);
    }
  }

  /** A prefix does not change the value that is read, and looks like no sign. */
  lemma PrefixRead(f: Flags, base: nat, value: nat, digits: string)
    requires IsBase(base) && (|digits| >= 2 ==> DigitValue(digits[1]) < base || digits[1] == ' ')
    requires digits != "" ==> DigitValue(digits[0]) < base || digits[0] == ' '
    ensures var t := Prefix(f, base, value) + digits;
            && ReadDigits(AfterPrefix(t, base), base, 0) == ReadDigits(digits, base, 0)
            && AfterSign(t) == t && (t == "" || t[0] != '-') && (t != digits ==> SkipSpaces(t) == t)
  {
    var prefix := Prefix(f, base, value);
    var t := prefix + digits;
    if prefix == "" {
      assert t == digits;
    } else if prefix == "0" {
      assert t[1..] == digits;
    } else {
      assert t[2..] == digits;
    }
  }

  /** Past the spaces, the sign and the prefix come the zeroes and digits. */
  lemma PartsRead(f: Flags, base: nat, negative: bool, value: nat, zeroes: int, right: int)
    requires IsBase(base)
    ensures var digits := Repeat('0', zeroes) + Number(f, base, value) + Repeat(' ', right);
            var t := SkipSpaces(Sign(f, negative) + (Prefix(f, base, value) + digits));
            var d, e := ReadDigits(AfterPrefix(AfterSign(t), base), base, 0), ReadDigits(digits, base, 0);
            (t != "" && t[0] == '-' <==> negative) && d.0 == e.0 && SkipSpaces(d.1) == SkipSpaces(e.1)
  {
    hide Number, Prefix, Digits, SkipSpaces, AfterPrefix, AfterSign, ReadDigits, Repeat;
    var digits := Repeat('0', zeroes) + Number(f, base, value) + Repeat(' ', right);
    var sign, tail := Sign(f, negative), Prefix(f, base, value) + digits;
    NumberStarts(f, base, value, zeroes, right);
    BlanksRead(right, base);
    BlankOrDigit(digits, right, base);
    PrefixRead(f, base, value, digits);
    SignRead(sign, tail);
  }

  lemma BlankOrDigit(s: string, n: int, base: nat)
    requires IsBase(base) && (s == Repeat(' ', n) || (s != "" && DigitValue(s[0]) < base))
    ensures s != "" ==> DigitValue(s[0]) < base || s[0] == ' '
    ensures s == Repeat(' ', n) || SkipSpaces(s) == s
  {
    if s == Repeat(' ', n) && s != "" { RepeatIs(' ', n, 0); }
  }

  /** Past the spaces and the sign comes the rest, unless the rest is all spaces and there is no sign. */
  lemma SignRead(sign: string, tail: string)
    requires sign == "" || sign == "-" || sign == "+" || sign == " "
    requires AfterSign(tail) == tail && (tail == "" || tail[0] != '-') && (SkipSpaces(tail) == tail || SkipSpaces(tail) == "")
    ensures var t := SkipSpaces(sign + tail);
            && (t != "" && t[0] == '-' <==> sign == "-") && (t != "" && t[0] == '+' <==> sign == "+")
            && AfterSign(t) == if sign == "-" || sign == "+" then tail else SkipSpaces(tail)
  {
    var s := sign + tail;
    if sign == "" {
      assert s == tail;
    } else {
      assert s[1..] == tail;
    }
  }

  lemma BlanksRead(n: int, base: nat)
    requires IsBase(base)
    ensures SkipSpaces(Repeat(' ', n)) == "" && ReadDigits(Repeat(' ', n), base, 0) == (0, Repeat(' ', n))
    ensures SkipSpaces("") == "" && ReadDigits(AfterPrefix("", base), base, 0) == (0, "")
  {
    SpacesSkipped(n, "");
    assert Repeat(' ', n) + "" == Repeat(' ', n);
  }

  /** Any printed integer, with any flags, width and precision, reads back as its sign and its value. */
  lemma PrintedReadsBack(f: Flags, width: nat, precision: nat, base: nat, negative: bool, value: nat)
    requires IsBase(base)
    ensures Read(Printed(f, width, precision, base, negative, value), base) == Some((negative, value))
  {
    hide Number, Sign, Prefix, Zeroes, Repeat, SkipSpaces, ReadDigits, AfterSign, AfterPrefix;
    var body := Body(f, width, precision, base, negative, value);
    var sign, prefix, number := Sign(f, negative), Prefix(f, base, value), Number(f, base, value);
    var zeroes := Zeroes(f, width, precision, |sign + prefix|, |number|);
    var left := if f.leftJustify then 0 else width - |body|;
    var right := if f.leftJustify then width - |body| else 0;
    var digits := Repeat('0', zeroes) + number + Repeat(' ', right);
    assert Printed(f, width, precision, base, negative, value) == Repeat(' ', left) + (sign + (prefix + digits));
    SpacesSkipped(left, sign + (prefix + digits));
    PartsRead(f, base, negative, value, zeroes, right);
    NumberRead(f, base, value, zeroes, right);
    BlanksRead(right, base);
  }

  /** What the flags make visible: past the spaces there is a minus exactly for negative values, and a plus exactly for
      others with a forced sign; with an empty sign a space comes before the rest; and with the hash flag the digits of a
      value other than zero start with what stands for the base. */
  lemma SignAndPrefix(f: Flags, width: nat, precision: nat, base: nat, negative: bool, value: nat)
    requires IsBase(base)
    ensures var text := Printed(f, width, precision, base, negative, value);
            var t := SkipSpaces(text);
            && (t != "" && t[0] == '-' <==> negative)
            && (t != "" && t[0] == '+' <==> !negative && f.forceSign)
            && (!negative && !f.forceSign && f.emptySign ==> text != "" && text[0] == ' ')
            && (f.hash && value != 0 && base != 10 ==>
                  var u := AfterSign(t);
                  u != "" && u[0] == '0' && (base != 8 ==> |u| >= 2 && u[1] == if base == 2 then 'b' else 'x'))
  {
    hide Printed, Repeat, SkipSpaces, ReadDigits, AfterPrefix;
    var left, digits := PrintedParts(f, width, precision, base, negative, value);
    var sign, tail := Sign(f, negative), Prefix(f, base, value) + digits;
    SpacesSkipped(left, sign + tail);
    PrefixRead(f, base, value, digits);
    SignRead(sign, tail);
    if left > 0 {
      RepeatIs(' ', left, 0);
    }
    if Prefix(f, base, value) != "" {
      PrefixKept(sign, tail);
    }
  }

  lemma PrefixKept(sign: string, tail: string)
    requires sign == "" || sign == "-" || sign == "+" || sign == " "
    requires AfterSign(tail) == tail && SkipSpaces(tail) == tail
    ensures AfterSign(SkipSpaces(sign + tail)) == tail
  {
    if sign == "" {
      assert sign + tail == tail;
    } else {
      assert (sign + tail)[1..] == tail;
    }
  }

  lemma Regrouped(sign: string, prefix: string, zeroes: string, number: string, spaces: string)
    ensures ((sign + prefix) + zeroes + number) + spaces == sign + (prefix + (zeroes + number + spaces))
  {
  }

  lemma NoSpaces()
    ensures forall n: int :: n <= 0 ==> Repeat(' ', n) == ""
    ensures forall s: string :: s + "" == s && "" + s == s
  {
  }

  /** A printed integer is spaces, sign and prefix, and then zeroes, digits and spaces. */
  lemma PrintedParts(f: Flags, width: nat, precision: nat, base: nat, negative: bool, value: nat) returns (left: int, digits: string)
    requires IsBase(base)
    ensures Printed(f, width, precision, base, negative, value) == Repeat(' ', left) + (Sign(f, negative) + (Prefix(f, base, value) + digits))
    ensures (digits != "" ==> DigitValue(digits[0]) < base || digits[0] == ' ') && (|digits| >= 2 ==> DigitValue(digits[1]) < base || digits[1] == ' ')
    ensures SkipSpaces(digits) == digits || SkipSpaces(digits) == ""
  {
    hide Number, Sign, Prefix, Zeroes, Repeat, SkipSpaces, ReadDigits, AfterPrefix;
    var body := Body(f, width, precision, base, negative, value);
    var sign, prefix, number := Sign(f, negative), Prefix(f, base, value), Number(f, base, value);
    var zeroes := Zeroes(f, width, precision, |sign + prefix|, |number|);
    left := if f.leftJustify then 0 else width - |body|;
    var right := if f.leftJustify then width - |body| else 0;
    digits := Repeat('0', zeroes) + number + Repeat(' ', right);
    Regrouped(sign, prefix, Repeat('0', zeroes), number, Repeat(' ', right));
    NoSpaces();
    NumberStarts(f, base, value, zeroes, right);
    BlanksRead(right, base);
    BlankOrDigit(digits, right, base);
  }

  /** The length is the width, or as much as sign, prefix, zeroes and digits need if that is more. With a
      precision, and no padding by zeroes instead, there are at least that many zeroes and digits; padding by
      zeroes leaves no spaces. */
  lemma PrintedLength(f: Flags, width: nat, precision: nat, base: nat, negative: bool, value: nat)
    requires IsBase(base)
    ensures var number, before := Number(f, base, value), Sign(f, negative) + Prefix(f, base, value);
            var zeroes := Zeroes(f, width, precision, |before|, |number|);
            var needed := |before| + zeroes + |number|;
            && |Printed(f, width, precision, base, negative, value)| == (if width > needed then width else needed)
            && (f.leftJustify || !f.zeroPad ==> zeroes + |number| == if precision > |number| then precision else |number|)
            && (!f.leftJustify && f.zeroPad ==> needed >= width)
  {
  }
}

/** The integer conversions of the kernel's formatter, which writes characters into a buffer of fixed size. */
module DebugLog {
  import opened Options
  import opened IntegerText

  const BUFFER_SIZE: nat := 64
  const MAX_VALUE: nat := 0xFFFF_FFFF_FFFF_FFFF

  ghost function PowerOfTwo(n: nat): nat {
    if n == 0 then 1 else 2 * PowerOfTwo(n - 1)
  }

  lemma {:induction false} PowersGrow(m: nat, n: nat)
    requires m <= n
    ensures 0 < PowerOfTwo(m) <= PowerOfTwo(n)
  {
    if n > m {
      PowersGrow(m, n - 1);
    } else if m > 0 {
      PowersGrow(m - 1, m - 1);
    }
  }

  lemma {:induction false} PowersMultiply(m: nat, n: nat)
    ensures PowerOfTwo(m + n) == PowerOfTwo(m) * PowerOfTwo(n)
  {
    if m > 0 {
      PowersMultiply(m - 1, n);
      assert PowerOfTwo(m) * PowerOfTwo(n) == 2 * (PowerOfTwo(m - 1) * PowerOfTwo(n));
    }
  }

  /** The buffer has room for as many digits as a value can have. */
  lemma FewDigits(value: nat, len: nat, all: nat)
    requires 0 < value && value * PowerOfTwo(len) <= all <= MAX_VALUE
    ensures len < BUFFER_SIZE
  {
    hide PowerOfTwo;
    PowersGrow(BUFFER_SIZE, if len < BUFFER_SIZE then BUFFER_SIZE else len);
    SixtyFour();
    PowersGrow(len, len);
    assert (value - 1) * PowerOfTwo(len) >= 0;
  }

  lemma SixtyFour()
    ensures PowerOfTwo(BUFFER_SIZE) == MAX_VALUE + 1
  {
    assert PowerOfTwo(4) == 16;
    PowersMultiply(4, 4);
    PowersMultiply(8, 8);
    PowersMultiply(16, 16);
    PowersMultiply(32, 32);
  }

  lemma NextDigit(value: nat, base: nat, len: nat, all: nat)
    requires IsBase(base) && value * PowerOfTwo(len) <= all
    ensures value / base * PowerOfTwo(len + 1) <= all
  {
    Quotient(value, base);
    Halved(value, value / base, PowerOfTwo(len));
  }

  lemma Halved(value: nat, q: nat, p: nat)
    requires 2 * q <= value
    ensures q * (2 * p) <= value * p
  {
    assert (value - 2 * q) * p >= 0;
    assert q * (2 * p) == (2 * q) * p;
  }

  ghost function Backwards(s: seq<char>): (t: seq<char>)
    ensures |t| == |s|
  {
    seq(|s|, i requires 0 <= i < |s| => s[|s| - 1 - i])
  }

  class Printer {
    const dst: array<char>
    var dstIndex: nat
    var flags: Flags
    /** Everything written so far, also what no longer fitted. */
    ghost var written: string

    constructor (dst: array<char>)
      requires dst.Length > 0
      ensures Valid() && written == "" && this.dst == dst
    {
      this.dst, dstIndex, written := dst, 0, "";
      flags := Flags(false, false, false, false, false, false, false);
    }

    ghost predicate Valid()
      reads this, dst
    {
      && 0 < dst.Length
      && dstIndex == (if |written| < dst.Length then |written| else dst.Length)
      && dst[..dstIndex] == written[..dstIndex]
    }

    method WriteCharacter(c: char)
      requires Valid()
      modifies `dstIndex, `written, dst
      ensures Valid() && written == old(written) + [c]
    {
      if dstIndex < dst.Length {
        dst[dstIndex] := c;
        dstIndex := dstIndex + 1;
      }
      written := written + [c];
      assert dst[..dstIndex] == written[..dstIndex];
    }

    /** The loops that write padding. */
    method WriteRepeated(c: char, from: nat, to: nat)
      requires Valid()
      modifies `dstIndex, `written, dst
      ensures Valid() && written == old(written) + Repeat(c, to - from)
    {
      ghost var before := written;
      var i := from;
      while i < to
        invariant Valid() && from <= i && written + Repeat(c, to - i) == before + Repeat(c, to - from)
      {
        ghost var w := written;
        WriteCharacter(c);
        assert w + Repeat(c, to - i) == written + Repeat(c, to - (i + 1));
        i := i + 1;
      }
    }

    /** Put the last digit of what is left into the buffer. */
    method PutDigit(buf: array<char>, len: nat, base: nat, left: nat, ghost value: nat) returns (next: nat)
      requires len < buf.Length && IsBase(base) && left * PowerOfTwo(len) <= value
      requires Digits(left, base, flags.uppercase) + Backwards(buf[..len]) == Digits(value, base, flags.uppercase)
      modifies buf
      ensures next * PowerOfTwo(len + 1) <= value && (left > 0 ==> next < left) && next <= left
      ensures next > 0 ==> Digits(next, base, flags.uppercase) + Backwards(buf[..len + 1]) == Digits(value, base, flags.uppercase)
      ensures next == 0 ==> Backwards(buf[..len + 1]) == Digits(value, base, flags.uppercase)
    {
      hide PowerOfTwo, Digits, Backwards, IsBase, DigitChar;
      DigitStep(left, base, flags.uppercase, Backwards(buf[..len]));
      NextDigit(left, base, len, value);
      ghost var done := buf[..len];
      var digit := left % base;
      buf[len] := DigitChar(digit, flags.uppercase);
      assert buf[..len + 1] == done + [buf[len]];
      BackwardsMore(buf[..len + 1]);
      next := left / base;
    }

    /** The digits, last one first, in a buffer that is never too small. */
    method MakeDigits(buf: array<char>, base: nat, value: nat) returns (len: nat)
      requires buf.Length == BUFFER_SIZE && IsBase(base) && value <= MAX_VALUE
      modifies buf
      ensures 0 < len <= BUFFER_SIZE && Backwards(buf[..len]) == Digits(value, base, flags.uppercase)
    {
      hide PowerOfTwo, Digits, Backwards, IsBase, DigitChar;
      var left: nat := value;
      len := 0;
      var more := true;
      PowerOfNone();
      BackwardsMore(buf[..0]);
      while more
        invariant len <= BUFFER_SIZE && left * PowerOfTwo(len) <= value
        invariant more ==> len == 0 || left > 0
        invariant !more ==> left == 0 && len > 0 && Backwards(buf[..len]) == Digits(value, base, flags.uppercase)
        invariant more ==> Digits(left, base, flags.uppercase) + Backwards(buf[..len]) == Digits(value, base, flags.uppercase)
        decreases more, left
      {
        if len > 0 {
          FewDigits(left, len, value);
        }
        left := PutDigit(buf, len, base, left, value);
        len := len + 1;
        more := left != 0;
      }
    }

    method WriteSign(negative: bool)
      requires Valid()
      modifies `dstIndex, `written, dst
      ensures Valid() && written == old(written) + Sign(flags, negative)
    {
      if negative {
        WriteCharacter('-');
      } else if flags.forceSign {
        WriteCharacter('+');
      } else if flags.emptySign {
        WriteCharacter(' ');
      }
    }

    method WritePrefix(base: nat)
      requires Valid()
      modifies `dstIndex, `written, dst
      ensures Valid() && written == old(written) + Prefix(flags, base, 1)
    {
      if flags.hash {
        WriteCharacter('0');
        if base == 2 {
          WriteCharacter('b');
        } else if base == 16 {
          WriteCharacter('x');
        }
      }
    }

    method WriteDigits(buf: array<char>, len: nat)
      requires Valid() && buf != dst && len <= buf.Length
      modifies `dstIndex, `written, dst
      ensures Valid() && written == old(written) + Backwards(buf[..len])
    {
      for i := 0 to len
        invariant Valid() && written == old(written) + Backwards(buf[..len])[..i]
      {
        WriteCharacter(buf[len - 1 - i]);
      }
      assert Backwards(buf[..len])[..len] == Backwards(buf[..len]);
    }

    method PrefixLength(base: nat, negative: bool) returns (prefixLen: nat)
      requires IsBase(base) && (base == 10 ==> !flags.hash)
      ensures prefixLen == |Sign(flags, negative)| + |Prefix(flags, base, 1)|
    {
      prefixLen := 0;
      if negative || flags.forceSign || flags.emptySign {
        prefixLen := prefixLen + 1;
      }
      if flags.hash {
        prefixLen := prefixLen + if base != 8 then 2 else 1;
      }
    }

    /** Print one integer. */
    method PrintInteger(base: nat, width: nat, precision: nat, negative: bool, value: nat)
      requires Valid() && IsBase(base) && (base == 10 ==> !flags.hash) && value <= MAX_VALUE
      modifies this, dst
      ensures Valid() && flags == old(flags).(hash := old(flags).hash && value != 0)
      ensures written == old(written) + Printed(old(flags), width, precision, base, negative, value)
    {
      hide Repeat, Digits, Backwards, Sign, Prefix, IsBase, Padded, Body;
      var buf := new char[BUFFER_SIZE];
      var len := 0;
      ghost var given := flags;
      // No base prefix for zero.
      if value == 0 {
        flags := flags.(hash := false);
      }
      if !flags.hasPrecision || value != 0 {
        len := MakeDigits(buf, base, value);
      }
      ghost var number := Number(given, base, value);
      BackwardsMore(buf[..len]);
      assert Backwards(buf[..len]) == number;
      PartsAre(given, flags, base, negative, value);
      var prefixLen := PrefixLength(base, negative);
      var numZeroes := if len < precision then precision - len else 0;
      if !flags.leftJustify && flags.zeroPad {
        numZeroes := if len + prefixLen < width then width - len - prefixLen else 0;
      }
      ghost var body := Body(given, width, precision, base, negative, value);
      BodyIs(given, flags, width, precision, base, negative, value, numZeroes);
      WritePadded(base, width, negative, prefixLen, numZeroes, buf, len);
    }

    /** Which base a conversion has, and which flags count for it. */
    method Prepare(specifier: char) returns (base: nat)
      modifies `flags
      ensures base == BaseOf(specifier) && flags == Effective(old(flags), specifier)
    {
      if specifier == 'p' {
        flags := flags.(hash := true);
      }
      match specifier {
        case 'b' => base := 2;
        case 'o' => base := 8;
        case 'X' =>
          flags := flags.(uppercase := true);
          base := 16;
        case 'p' => base := 16;
        case 'x' => base := 16;
        case _ =>
          base := 10;
          flags := flags.(hash := false);
      }
      // Precision implies no zero-padding.
      if flags.hasPrecision {
        flags := flags.(zeroPad := false);
      }
      // Unsigned types do not get signs.
      if base != 10 || specifier == 'u' {
        flags := flags.(emptySign := false, forceSign := false);
      }
    }

    /** The cases of the format string that print integers; `n` is the argument, of the type that the length says. */
    method PrintConversion(specifier: char, width: nat, precision: nat, n: int)
      requires Valid() && specifier in {'p', 'd', 'i', 'u', 'b', 'o', 'x', 'X'}
      requires if Unsigned(specifier) then 0 <= n <= MAX_VALUE else -0x8000_0000_0000_0000 <= n < 0x8000_0000_0000_0000
      modifies this, dst
      ensures Valid() && written == old(written) + Converted(old(flags), specifier, width, precision, n)
    {
      hide Printed, Effective;
      var base := Prepare(specifier);
      PreparedIs(old(flags), specifier);
      if specifier == 'p' && n == 0 {
        WriteCharacter('(');
        WriteCharacter('n');
        WriteCharacter('i');
        WriteCharacter('l');
        WriteCharacter(')');
      } else {
        var negative := n < 0;
        PrintInteger(base, width, precision, negative, if negative then -n else n);
      }
    }

    /** Terminate the string: as much of the text as fits, and a null character. */
    method Finish()
      requires Valid()
      modifies this, dst
      ensures var k := if |old(written)| < dst.Length then |old(written)| else dst.Length - 1;
              dst[k] == '\0' && dst[..k] == old(written)[..k]
    {
      ghost var k := if |written| < dst.Length then |written| else dst.Length - 1;
      WriteCharacter('\0');
      assert dst[..dstIndex][..k] == dst[..k] && written[..dstIndex][..k] == old(written)[..k];
      assert k < dstIndex && dst[..dstIndex][k] == dst[k];
      dst[dst.Length - 1] := '\0';
    }

    method WritePadded(base: nat, width: nat, negative: bool, prefixLen: nat, numZeroes: nat, buf: array<char>, len: nat)
      requires Valid() && buf != dst && len <= buf.Length && prefixLen == |Sign(flags, negative)| + |Prefix(flags, base, 1)|
      modifies `dstIndex, `written, dst
      ensures Valid()
      ensures written == old(written) + Padded(flags.leftJustify, width, Sign(flags, negative) + Prefix(flags, base, 1) + Repeat('0', numZeroes) + Backwards(buf[..len]))
    {
      hide Sign, Prefix, Backwards;
      ghost var body := Sign(flags, negative) + Prefix(flags, base, 1) + Repeat('0', numZeroes) + Backwards(buf[..len]);
      ghost var pad := Repeat(' ', width - |body|);
      ghost var chars := buf[..len];
      if !flags.leftJustify {
        WriteRepeated(' ', len + prefixLen + numZeroes, width);
        assert buf[..len] == chars;
      }
      WriteBody(base, negative, numZeroes, buf, len);
      if flags.leftJustify {
        WriteRepeated(' ', len + prefixLen + numZeroes, width);
        assert written == old(written) + (body + pad);
      } else {
        assert written == old(written) + (pad + body);
      }
    }

    method WriteBody(base: nat, negative: bool, numZeroes: nat, buf: array<char>, len: nat)
      requires Valid() && buf != dst && len <= buf.Length
      modifies `dstIndex, `written, dst
      ensures Valid()
      ensures written == old(written) + (Sign(flags, negative) + Prefix(flags, base, 1) + Repeat('0', numZeroes) + Backwards(buf[..len]))
    {
      hide Repeat, Backwards, Sign, Prefix;
      ghost var digits := Backwards(buf[..len]);
      WriteSign(negative);
      WritePrefix(base);
      WriteRepeated('0', 0, numZeroes);
      WriteDigits(buf, len);
      assert written == old(written) + (Sign(flags, negative) + Prefix(flags, base, 1) + Repeat('0', numZeroes) + digits);
    }
  }

  /** What an integer conversion prints, by its letter. */
  function BaseOf(specifier: char): nat {
    match specifier
    case 'b' => 2
    case 'o' => 8
    case 'X' => 16
    case 'p' => 16
    case 'x' => 16
    case _ => 10
  }

  predicate Unsigned(specifier: char) {
    BaseOf(specifier) != 10 || specifier == 'u'
  }

  /** The flags that count for a conversion. */
  function Effective(f: Flags, specifier: char): Flags {
    Flags(f.emptySign && !Unsigned(specifier), f.forceSign && !Unsigned(specifier), (f.hash || specifier == 'p') && BaseOf(specifier) != 10,
          f.leftJustify, f.zeroPad && !f.hasPrecision, f.uppercase || specifier == 'X', f.hasPrecision)
  }

  lemma PreparedIs(f: Flags, specifier: char)
    ensures IsBase(BaseOf(specifier)) && (BaseOf(specifier) == 10 ==> !Effective(f, specifier).hash)
  {
  }

  function Converted(f: Flags, specifier: char, width: nat, precision: nat, n: int): string {
    if specifier == 'p' && n == 0 then "(nil)"
    else Printed(Effective(f, specifier), width, precision, BaseOf(specifier), n < 0, if n < 0 then -n else n)
  }

  /** Every conversion of an integer, with any flags, width and precision, reads back as that integer; only the
      null pointer does not. With a precision there are at least that many digits after sign and prefix. */
  lemma ConvertedReadsBack(f: Flags, specifier: char, width: nat, precision: nat, n: int)
    requires specifier != 'p' || n != 0
    ensures Read(Converted(f, specifier, width, precision, n), BaseOf(specifier)) == Some((n < 0, if n < 0 then -n else n))
    ensures |Converted(f, specifier, width, precision, n)| >= width
    ensures f.hasPrecision ==> |Converted(f, specifier, width, precision, n)| >= precision
  {
    hide Body, Read, Number;
    PrintedReadsBack(Effective(f, specifier), width, precision, BaseOf(specifier), n < 0, if n < 0 then -n else n);
    PrintedLength(Effective(f, specifier), width, precision, BaseOf(specifier), n < 0, if n < 0 then -n else n);
  }

  /** The lengths that the printer computes are those of the parts. */
  lemma PartsAre(given: Flags, f: Flags, base: nat, negative: bool, value: nat)
    requires IsBase(base) && (base == 10 ==> !given.hash) && f == given.(hash := given.hash && value != 0)
    ensures Sign(f, negative) == Sign(given, negative) && Prefix(f, base, 1) == Prefix(given, base, value)
  {
  }

  lemma BodyIs(given: Flags, f: Flags, width: nat, precision: nat, base: nat, negative: bool, value: nat, zeroes: nat)
    requires IsBase(base) && zeroes == Zeroes(given, width, precision, |Sign(given, negative)| + |Prefix(given, base, value)|, |Number(given, base, value)|)
    requires Sign(f, negative) == Sign(given, negative) && Prefix(f, base, 1) == Prefix(given, base, value)
    ensures Body(given, width, precision, base, negative, value) == Sign(f, negative) + Prefix(f, base, 1) + Repeat('0', zeroes) + Number(given, base, value)
  {
  }

  lemma BackwardsMore(s: seq<char>)
    ensures Backwards(s) == if s == [] then [] else [s[|s| - 1]] + Backwards(s[..|s| - 1])
  {
  }

  lemma PowerOfNone()
    ensures PowerOfTwo(0) == 1
  {
  }

  /** Taking the last digit of what is left. */
  lemma DigitStep(left: nat, base: nat, upper: bool, done: string)
    requires IsBase(base)
    ensures base >= 2 && 0 <= left % base < 16 && left / base <= left && (left > 0 ==> left / base < left)
    ensures var more := [DigitChar(left % base, upper)] + done;
            Digits(left, base, upper) + done == if left / base == 0 then more else Digits(left / base, base, upper) + more
  {
    hide Digits, DigitChar;
    Quotient(left, base);
    DigitsSplit(left, base, upper);
    var digit := [DigitChar(left % base, upper)];
    if left < base {
      assert Digits(left, base, upper) == digit;
    } else {
      assert Digits(left, base, upper) + done == Digits(left / base, base, upper) + (digit + done);
    }
  }
}
