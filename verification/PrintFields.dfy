/** The integer and string formatters of printf, writing to a stream that counts. */
module PrintFields {
  import opened Common

  datatype Flags = Flags(minus: bool, plus: bool, space: bool, zero: bool, up: bool, unsigned: bool)

  /** The stream, and dopr's count of what it has put there since `base` characters. */
  class Output {
    var text: string
    var currlen: nat
    ghost const base: nat

    ghost predicate Valid()
      reads this
    {
      |text| == base + currlen
    }

    constructor (before: string)
      ensures Valid() && text == before && currlen == 0
    {
      text, currlen, base := before, 0, |before|;
    }

    method Put(c: char)
      requires Valid()
      modifies this
      ensures Valid() && text == old(text) + [c] && currlen == old(currlen) + 1
    {
      currlen := currlen + 1;
      text := text + [c];
    }

    /** A loop that puts one character n times. */
    method PutMany(c: char, n: int)
      requires Valid()
      modifies this
      ensures Valid() && text == old(text) + Repeat(c, n) && currlen == old(currlen) + Max(n, 0)
    {
      var left := n;
      ghost var done: nat := 0;
      while left > 0
        invariant Valid() && text == old(text) + Repeat(c, done) && currlen == old(currlen) + done
        invariant done == (if n <= 0 then 0 else n - left) && (n > 0 ==> 0 <= left)
      {
        assert Repeat(c, done + 1) == Repeat(c, done) + [c];
        Put(c);
        left := left - 1;
        done := done + 1;
      }
      assert Repeat(c, done) == Repeat(c, n);
    }

    /** fmtint. */
    method FmtInt(value: int, radix: nat, min: int, max0: int, flags: Flags)
      requires Valid() && Negatable(value, flags) && 8 <= radix <= 16
      modifies this
      ensures Valid() && text == old(text) + IntText(value, radix, min, max0, flags)
      ensures currlen == old(currlen) + |IntText(value, radix, min, max0, flags)|
    {
      var sign, uvalue := SignOf(value, flags);
      var convert := new char[20];
      var place := Convert(uvalue, radix, flags.up, convert);
      var zpad, spad := Pads(place, sign, min, max0, flags);
      if flags.minus { spad := -spad; }
      PutField(spad, sign, zpad, convert, place);
    }

    /** The five loops that put a number: spaces, sign, zeros, digits, spaces. */
    method PutField(spad: int, sign: Option<char>, zpad: int, convert: array<char>, place: nat)
      requires Valid() && place <= convert.Length
      modifies this
      ensures var field := Field(spad, Text(sign), zpad, Reverse(convert[..place]));
        Valid() && text == old(text) + field && currlen == old(currlen) + |field|
    {
      ReverseLength(convert[..place]);
      ghost var signText := Text(sign);
      ghost var before := text;
      PutMany(' ', spad);
      if sign.Some? { Put(sign.value); }
      assert text == before + Repeat(' ', spad) + signText;
      PutMany('0', zpad);
      PutBackwards(convert, place);
      PutMany(' ', -spad);
      JoinField(before, Repeat(' ', spad), signText, Repeat('0', zpad), Reverse(convert[..place]), Repeat(' ', -spad));
    }

    /** The digits, last first in the array, first first in the stream. */
    method PutBackwards(convert: array<char>, n: nat)
      requires Valid() && n <= convert.Length
      modifies this
      ensures Valid() && text == old(text) + Reverse(convert[..n]) && currlen == old(currlen) + n
    {
      var place := n;
      while place > 0
        invariant 0 <= place <= n && Valid() && convert[..] == old(convert[..])
        invariant text + Reverse(convert[..place]) == old(text) + Reverse(convert[..n])
        invariant currlen == old(currlen) + (n - place)
      {
        place := place - 1;
        assert convert[..place + 1][..place] == convert[..place];
        Put(convert[place]);
      }
    }

    /** fmtstr's loops: `count` is what has been put so far, `max` its limit. */
    method PadUpTo(n: int, count: int, max: int) returns (now: int)
      requires Valid()
      modifies this
      ensures Valid() && now == count + Room(n, count, max)
      ensures text == old(text) + Repeat(' ', now - count) && currlen == old(currlen) + (now - count)
    {
      var left := n;
      now := count;
      while left > 0 && now < max
        invariant Valid() && count <= now && left == n - (now - count) && (now == count || (left >= 0 && now <= max))
        invariant text == old(text) + Repeat(' ', now - count) && currlen == old(currlen) + (now - count)
      {
        assert Repeat(' ', now - count + 1) == Repeat(' ', now - count) + [' '];
        Put(' ');
        left := left - 1;
        now := now + 1;
      }
    }

    method CopyUpTo(value: string, count: int, max: int) returns (now: int)
      requires Valid()
      modifies this
      ensures Valid() && now == count + Room(|value|, count, max)
      ensures text == old(text) + value[..now - count] && currlen == old(currlen) + (now - count)
    {
      var i := 0;
      now := count;
      while i < |value| && now < max
        invariant Valid() && 0 <= i <= |value| && now == count + i && (i == 0 || now <= max)
        invariant text == old(text) + value[..i] && currlen == old(currlen) + i
      {
        assert value[..i + 1] == value[..i] + [value[i]];
        Put(value[i]);
        i := i + 1;
        now := now + 1;
      }
    }

    /** fmtstr. */
    method FmtStr(value0: Option<string>, flags: Flags, min: int, max: int)
      requires Valid()
      modifies this
      ensures Valid() && text == old(text) + StrText(value0, flags, min, max)
      ensures currlen == old(currlen) + |StrText(value0, flags, min, max)|
    {
      var value := if value0.None? then "<NULL>" else value0.value;
      var padlen := min - |value|;
      if padlen < 0 { padlen := 0; }
      if flags.minus { padlen := -padlen; }
      var a := PadUpTo(padlen, 0, max);
      var b := CopyUpTo(value, a, max);
      var c := PadUpTo(-padlen, b, max);
      CutPadded(value, flags, min, max, a, b, c);
      JoinThree(old(text), Repeat(' ', a), value[..b - a], Repeat(' ', c - b));
    }
  }

  lemma JoinThree(t: string, a: string, b: string, c: string)
    ensures t + a + b + c == t + (a + b + c)
  {
  }

  lemma JoinField(t: string, a: string, b: string, c: string, d: string, e: string)
    ensures t + a + b + c + d + e == t + (a + b + c + d + e)
  {
    JoinThree(t, a, b, c);
    JoinThree(t, a + b + c, d, e);
  }

  /** How many of n characters fit before `max`. */
  function Room(n: int, count: int, max: int): int
  {
    Max(0, if n < max - count then n else max - count)
  }

  /** Cutting off each piece where the count reaches the limit cuts off the whole there. */
  lemma CutPadded(value: string, flags: Flags, min: int, max: int, a: int, b: int, c: int)
    requires var pad := Max(min - |value|, 0);
      a == Room(if flags.minus then -pad else pad, 0, max) && b == a + Room(|value|, a, max)
      && c == b + Room(if flags.minus then pad else -pad, b, max)
    ensures Repeat(' ', a) + value[..b - a] + Repeat(' ', c - b) == StrText(Some(value), flags, min, max)
  {
    if flags.minus {
      CutAfter(value, Max(min - |value|, 0), max, b, c);
      assert Repeat(' ', a) == "" && Repeat(' ', min - |value|) == Repeat(' ', Max(min - |value|, 0));
    } else {
      CutBefore(value, Max(min - |value|, 0), max, a, b);
      assert Repeat(' ', c - b) == "" && Repeat(' ', min - |value|) == Repeat(' ', Max(min - |value|, 0));
    }
  }

  function Cut(s: string, max: int): string
  {
    if max <= 0 then "" else if max >= |s| then s else s[..max]
  }

  /** Spaces, then as much of the string as there is room for. */
  lemma CutBefore(value: string, pad: nat, max: int, a: int, b: int)
    requires a == Room(pad, 0, max) && b == a + Room(|value|, a, max)
    ensures Repeat(' ', a) + value[..b - a] == Cut(Repeat(' ', pad) + value, max)
  {
    var x, y := Repeat(' ', a) + value[..b - a], Cut(Repeat(' ', pad) + value, max);
    assert |x| == |y|;
    forall k: nat | k < |x| ensures x[k] == y[k] {
      if k >= a { assert a == pad && x[k] == value[k - a]; }
    }
  }

  /** The string, then as many spaces as there is room for. */
  lemma CutAfter(value: string, pad: nat, max: int, b: int, c: int)
    requires b == Room(|value|, 0, max) && c == b + Room(pad, b, max)
    ensures value[..b] + Repeat(' ', c - b) == Cut(value + Repeat(' ', pad), max)
  {
    var x, y := value[..b] + Repeat(' ', c - b), Cut(value + Repeat(' ', pad), max);
    assert |x| == |y|;
    forall k: nat | k < |x| ensures x[k] == y[k] {
      if k >= b { assert b == |value|; }
    }
  }

  function Text(sign: Option<char>): string
  {
    if sign.Some? then [sign.value] else ""
  }

  method SignOf(value: int, flags: Flags) returns (sign: Option<char>, uvalue: nat)
    requires Negatable(value, flags)
    ensures Text(sign) == Sign(value, flags) && uvalue == Magnitude(value, flags) < WORD
  {
    sign, uvalue := None, value % WORD;
    if !flags.unsigned {
      if value < 0 {
        sign := Some('-');
        uvalue := -value;
      } else if flags.plus {
        sign := Some('+');
      } else if flags.space {
        sign := Some(' ');
      }
    }
  }

  method Pads(place: nat, sign: Option<char>, min: int, max0: int, flags: Flags) returns (zpad: int, spad: int)
    ensures zpad == ZeroPad(place, |Text(sign)|, min, max0, flags) && spad == SpacePad(place, |Text(sign)|, min, max0, flags)
  {
    var max := if max0 < 0 then 0 else max0;
    zpad := max - place;
    spad := min - Max(max, place) - (if sign.Some? then 1 else 0);
    if zpad < 0 { zpad := 0; }
    if spad < 0 { spad := 0; }
    if flags.zero {
      zpad := Max(zpad, spad);
      spad := 0;
    }
  }

  /** The digits of a number, the last one first, in a 20-character array that they never fill:
      the source's step back from 20 is never taken. */
  method Convert(value: nat, radix: nat, up: bool, convert: array<char>) returns (place: nat)
    requires value < WORD && 8 <= radix <= 16 && convert.Length == 20
    modifies convert
    ensures place < 20 && Reverse(convert[..place]) == Digits(value, radix, up) && place == |Digits(value, radix, up)|
  {
    DigitsAreFew(value, radix, up);
    var u := OneDigit(value, radix, up, convert, 0);
    place := 1;
    while u != 0 && place < 20
      invariant 1 <= place <= 20
      invariant Rest(u, radix, up) + Reverse(convert[..place]) == Digits(value, radix, up)
      decreases u
    {
      u := OneDigit(u, radix, up, convert, place);
      place := place + 1;
    }
    ReverseLength(convert[..place]);
    assert place <= 11;
  }

  /** The body of the loop: the last digit of u goes into the array. */
  method OneDigit(u: nat, radix: nat, up: bool, convert: array<char>, place: nat) returns (u': nat)
    requires 8 <= radix <= 16 && place < convert.Length
    modifies convert
    ensures Rest(u', radix, up) + Reverse(convert[..place + 1]) == Digits(u, radix, up) + Reverse(old(convert[..place]))
    ensures u' < u || u' == u == 0
  {
    ghost var was := convert[..place];
    RestStep(u, radix, up);
    QuotientOf(u, radix);
    if u > 0 { QuotientLess(u, radix); }
    OneMoreDigit(Rest(u / radix, radix, up), DigitChar(u % radix, up), was);
    convert[place] := DigitChar(u % radix, up);
    assert convert[..place + 1] == was + [convert[place]];
    u' := u / radix;
  }

  lemma OneMoreDigit(rest: string, c: char, was: string)
    ensures rest + [c] + Reverse(was) == rest + Reverse(was + [c])
  {
    assert (was + [c])[..|was|] == was;
  }

  lemma QuotientLess(u: nat, radix: nat)
    requires u > 0 && radix > 1
    ensures u / radix < u
  {
    assert u == radix * (u / radix) + u % radix;
    TwiceAtMost(radix, u / radix);
  }

  lemma TwiceAtMost(radix: nat, q: nat)
    requires radix > 1
    ensures 2 * q <= radix * q
  {
    assert (radix - 2) * q >= 0;
  }

  function Max(a: int, b: int): int { if a >= b then a else b }

  function Repeat(c: char, n: int): string
  {
    if n <= 0 then [] else seq(n, i => c)
  }

  function Reverse(s: string): string
  {
    if s == [] then [] else [s[|s| - 1]] + Reverse(s[..|s| - 1])
  }

  lemma {:induction false} ReverseLength(s: string)
    ensures |Reverse(s)| == |s|
  {
    if s != [] { ReverseLength(s[..|s| - 1]); }
  }

  function DigitChar(d: nat, up: bool): char
    requires d < 16
  {
    if up then "0123456789ABCDEF"[d] else "0123456789abcdef"[d]
  }

  /** The digits of u, most significant first. */
  function Digits(u: nat, radix: nat, up: bool): (s: string)
    requires 8 <= radix <= 16
    ensures s != []
  {
    if u < radix then [DigitChar(u, up)] else Digits(u / radix, radix, up) + [DigitChar(u % radix, up)]
  }

  /** The digits still to come when u is left. */
  function Rest(u: nat, radix: nat, up: bool): string
    requires 8 <= radix <= 16
  {
    if u == 0 then "" else Digits(u, radix, up)
  }

  lemma QuotientOf(u: nat, radix: nat)
    requires 0 < radix
    ensures u / radix == 0 <==> u < radix
    ensures u < radix ==> u % radix == u
  {
    if u >= radix { assert u == radix * (u / radix) + u % radix; }
  }

  lemma RestStep(u: nat, radix: nat, up: bool)
    requires 8 <= radix <= 16
    ensures Digits(u, radix, up) == Rest(u / radix, radix, up) + [DigitChar(u % radix, up)]
  {
    QuotientOf(u, radix);
  }

  /** The longs fmtint can be given: the least one has no negation. */
  predicate Negatable(value: int, flags: Flags)
  {
    -0x8000_0000 <= value < 0x8000_0000 && (value == -0x8000_0000 ==> flags.unsigned)
  }

  function Sign(value: int, flags: Flags): string
  {
    if flags.unsigned then ""
    else if value < 0 then "-"
    else if flags.plus then "+"
    else if flags.space then " "
    else ""
  }

  function Magnitude(value: int, flags: Flags): nat
  {
    if !flags.unsigned && value < 0 then -value else value % WORD
  }

  function ZeroPad(place: nat, sign: nat, min: int, max: int, flags: Flags): int
  {
    var zeros := Max(Max(max, 0) - place, 0);
    if flags.zero then Max(zeros, min - Max(Max(max, 0), place) - sign) else zeros
  }

  function SpacePad(place: nat, sign: nat, min: int, max: int, flags: Flags): int
  {
    if flags.zero then 0 else Max(min - Max(Max(max, 0), place) - sign, 0)
  }

  /** Spaces before (or, for a negative count, after), a sign, zeros and digits. */
  function Field(spaces: int, sign: string, zeros: int, digits: string): string
  {
    Repeat(' ', spaces) + sign + Repeat('0', zeros) + digits + Repeat(' ', -spaces)
  }

  /** What fmtint puts out. */
  function IntText(value: int, radix: nat, min: int, max: int, flags: Flags): string
    requires 8 <= radix <= 16
  {
    var sign, digits := Sign(value, flags), Digits(Magnitude(value, flags), radix, flags.up);
    var spaces := SpacePad(|digits|, |sign|, min, max, flags);
    Field(if flags.minus then -spaces else spaces, sign, ZeroPad(|digits|, |sign|, min, max, flags), digits)
  }

  /** What fmtstr puts out: the padded string, cut off at the precision, padding included. */
  function StrText(value: Option<string>, flags: Flags, min: int, max: int): string
  {
    Cut(Padded(if value.None? then "<NULL>" else value.value, flags, min), max)
  }

  function Padded(value: string, flags: Flags, min: int): string
  {
    if flags.minus then value + Repeat(' ', min - |value|) else Repeat(' ', min - |value|) + value
  }

  function Power(b: nat, n: nat): nat
  {
    if n == 0 then 1 else b * Power(b, n - 1)
  }

  lemma {:induction false} DigitsBound(u: nat, radix: nat, up: bool, n: nat)
    requires 8 <= radix <= 16 && 0 < n && u < Power(8, n)
    ensures |Digits(u, radix, up)| <= n
  {
    if u >= radix {
      assert Power(8, n) == 8 * Power(8, n - 1) && Power(8, 0) == 1;
      SmallerQuotient(u, radix);
      DigitsBound(u / radix, radix, up, n - 1);
    }
  }

  lemma SmallerQuotient(u: nat, radix: nat)
    requires 8 <= radix
    ensures 8 * (u / radix) <= u
  {
    assert u == radix * (u / radix) + u % radix;
    assert (radix - 8) * (u / radix) >= 0;
  }

  lemma DigitsAreFew(u: nat, radix: nat, up: bool)
    requires u < WORD && 8 <= radix <= 16
    ensures |Digits(u, radix, up)| <= 11
  {
    assert Power(8, 3) == 512;
    assert Power(8, 6) == 0x4_0000;
    assert Power(8, 9) == 0x800_0000;
    assert Power(8, 11) == 0x2_0000_0000;
    DigitsBound(u, radix, up, 11);
  }

  // ----- reading the output back -----

  predicate IsDigit(c: char, radix: nat)
  {
    DigitValue(c) < radix
  }

  /** The value of a digit of either case; 16 for any other character. */
  function DigitValue(c: char): nat
  {
    if '0' <= c <= '9' then c as int - '0' as int
    else if 'a' <= c <= 'f' then c as int - 'a' as int + 10
    else if 'A' <= c <= 'F' then c as int - 'A' as int + 10
    else 16
  }

  /** The number whose digits s begins with, after those already worth `acc`. */
  function ReadDigits(s: string, radix: nat, acc: nat): nat
  {
    if s == "" || !IsDigit(s[0], radix) then acc else ReadDigits(s[1..], radix, acc * radix + DigitValue(s[0]))
  }

  /** Skips spaces, takes a sign, reads digits. */
  function ReadInt(s: string, radix: nat): int
  {
    if s == "" then 0
    else if s[0] == ' ' then ReadInt(s[1..], radix)
    else if s[0] == '-' then 0 - ReadDigits(s[1..], radix, 0)
    else if s[0] == '+' then ReadDigits(s[1..], radix, 0)
    else ReadDigits(s, radix, 0)
  }

  lemma DigitCharValue(d: nat, up: bool)
    requires d < 16
    ensures DigitValue(DigitChar(d, up)) == d
  {
  }

  lemma {:induction false} DigitsAreRead(u: nat, radix: nat, up: bool, t: string)
    requires 8 <= radix <= 16
    ensures ReadDigits(Digits(u, radix, up) + t, radix, 0) == ReadDigits(t, radix, u)
  {
    if u < radix {
      LastDigitIsRead(u, u, radix, up, t, 0);
    } else {
      var q, d := SplitDigits(u, radix, up);
      var high := Digits(q, radix, up);
      assert Digits(u, radix, up) + t == high + ([DigitChar(d, up)] + t);
      DigitsAreRead(q, radix, up, [DigitChar(d, up)] + t);
      LastDigitIsRead(u, d, radix, up, t, q);
    }
  }

  lemma SplitDigits(u: nat, radix: nat, up: bool) returns (q: nat, d: nat)
    requires 8 <= radix <= 16 && u >= radix
    ensures u == q * radix + d && d < radix && q < u && Digits(u, radix, up) == Digits(q, radix, up) + [DigitChar(d, up)]
  {
    q, d := u / radix, u % radix;
    QuotientLess(u, radix);
  }

  lemma LastDigitIsRead(u: nat, d: nat, radix: nat, up: bool, t: string, acc: nat)
    requires 8 <= radix <= 16 && d < radix && u == acc * radix + d
    ensures ReadDigits([DigitChar(d, up)] + t, radix, acc) == ReadDigits(t, radix, u)
  {
    DigitCharValue(d, up);
    assert ([DigitChar(d, up)] + t)[1..] == t;
  }

  lemma {:induction false} ZerosAreRead(n: int, radix: nat, t: string)
    requires 8 <= radix <= 16
    ensures ReadDigits(Repeat('0', n) + t, radix, 0) == ReadDigits(t, radix, 0)
  {
    if n > 0 {
      var s := Repeat('0', n) + t;
      assert s[1..] == Repeat('0', n - 1) + t;
      ZerosAreRead(n - 1, radix, t);
    } else {
      assert Repeat('0', n) + t == t;
    }
  }

  lemma {:induction false} SpacesAreSkipped(n: int, radix: nat, t: string)
    ensures ReadInt(Repeat(' ', n) + t, radix) == ReadInt(t, radix)
  {
    if n > 0 {
      var s := Repeat(' ', n) + t;
      assert s[1..] == Repeat(' ', n - 1) + t;
      SpacesAreSkipped(n - 1, radix, t);
    } else {
      assert Repeat(' ', n) + t == t;
    }
  }

  lemma SpacesEndDigits(n: int, radix: nat, u: nat)
    requires 8 <= radix <= 16
    ensures ReadDigits(Repeat(' ', n), radix, u) == u
  {
  }

  /** Zeros, digits and trailing spaces are read as the digits. */
  lemma BodyIsRead(z: int, u: nat, radix: nat, up: bool, n: int)
    requires 8 <= radix <= 16
    ensures ReadDigits(Repeat('0', z) + (Digits(u, radix, up) + Repeat(' ', n)), radix, 0) == u
  {
    ZerosAreRead(z, radix, Digits(u, radix, up) + Repeat(' ', n));
    DigitsAreRead(u, radix, up, Repeat(' ', n));
    SpacesEndDigits(n, radix, u);
  }

  /** The first of the digits is a digit: not a space and not a sign. */
  lemma {:induction false} FirstDigit(u: nat, radix: nat, up: bool)
    requires 8 <= radix <= 16
    ensures DigitValue(Digits(u, radix, up)[0]) < radix
  {
    QuotientOf(u, radix);
    if u < radix { DigitCharValue(u, up); }
    else { QuotientLess(u, radix); FirstDigit(u / radix, radix, up); }
  }

  lemma BodyStarts(z: int, digits: string, n: int)
    requires digits != "" && DigitValue(digits[0]) < 16
    ensures var s := Repeat('0', z) + (digits + Repeat(' ', n)); s != "" && s[0] != ' ' && s[0] != '-' && s[0] != '+'
  {
  }

  /** Whatever the width, precision and flags: what fmtint puts out is read back as the value
      (as the unsigned word, for an unsigned conversion). */
  lemma IntIsReadBack(value: int, radix: nat, min: int, max: int, flags: Flags)
    requires 8 <= radix <= 16
    ensures ReadInt(IntText(value, radix, min, max, flags), radix)
            == if flags.unsigned then value % WORD else if value < 0 then value else value % WORD
  {
    var u, sign := Magnitude(value, flags), Sign(value, flags);
    var place := |Digits(u, radix, flags.up)|;
    var spaces := SpacePad(place, |sign|, min, max, flags);
    FieldIsRead(if flags.minus then -spaces else spaces, sign, ZeroPad(place, |sign|, min, max, flags), u, radix, flags.up);
  }

  lemma FieldIsRead(s: int, sign: string, z: int, u: nat, radix: nat, up: bool)
    requires 8 <= radix <= 16 && sign in {"", "-", "+", " "}
    ensures ReadInt(Field(s, sign, z, Digits(u, radix, up)), radix) == if sign == "-" then 0 - u else u
  {
    var body := Body(z, u, radix, up, -s);
    FieldIs(s, sign, z, Digits(u, radix, up));
    BodyFacts(z, u, radix, up, -s);
    SignedIsRead(s, sign, body, radix);
  }

  /** Zeros, digits and trailing spaces. */
  function Body(z: int, u: nat, radix: nat, up: bool, n: int): string
    requires 8 <= radix <= 16
  {
    Repeat('0', z) + (Digits(u, radix, up) + Repeat(' ', n))
  }

  lemma BodyFacts(z: int, u: nat, radix: nat, up: bool, n: int)
    requires 8 <= radix <= 16
    ensures var body := Body(z, u, radix, up, n);
      body != "" && body[0] != ' ' && body[0] != '-' && body[0] != '+' && ReadDigits(body, radix, 0) == u
  {
    BodyIsRead(z, u, radix, up, n);
    FirstDigit(u, radix, up);
    BodyStarts(z, Digits(u, radix, up), n);
  }

  lemma SignedIsRead(s: int, sign: string, body: string, radix: nat)
    requires sign in {"", "-", "+", " "} && body != "" && body[0] != ' ' && body[0] != '-' && body[0] != '+'
    ensures ReadInt(Repeat(' ', s) + (sign + body), radix)
            == if sign == "-" then 0 - ReadDigits(body, radix, 0) else ReadDigits(body, radix, 0)
  {
    SpacesAreSkipped(s, radix, sign + body);
    SignIsRead(sign, body, radix);
  }

  lemma FieldIs(s: int, sign: string, z: int, digits: string)
    ensures Field(s, sign, z, digits) == Repeat(' ', s) + (sign + (Repeat('0', z) + (digits + Repeat(' ', -s))))
  {
  }

  lemma SignIsRead(sign: string, body: string, radix: nat)
    requires sign in {"", "-", "+", " "} && body != "" && body[0] != ' ' && body[0] != '-' && body[0] != '+'
    ensures ReadInt(sign + body, radix) == if sign == "-" then 0 - ReadDigits(body, radix, 0) else ReadDigits(body, radix, 0)
  {
    if sign == "" {
      assert sign + body == body;
    } else {
      assert (sign + body)[1..] == body;
    }
  }

  /** The length of the output is the larger of the width and of sign and digits (at least as
      many as the precision), except that zero padding to a width counts the zeros of the
      precision twice. */
  lemma IntLength(value: int, radix: nat, min: int, max: int, flags: Flags)
    requires 8 <= radix <= 16
    ensures var sign, place := |Sign(value, flags)|, |Digits(Magnitude(value, flags), radix, flags.up)|;
      |IntText(value, radix, min, max, flags)| == Max(min, sign + Max(max, place))
      <==> !flags.zero || max <= place || min <= sign + max
  {
  }

  /** fmtstr never puts more than the precision, nor anything but the string and spaces. */
  lemma StrLength(value: string, flags: Flags, min: int, max: int)
    ensures var n := |StrText(Some(value), flags, min, max)|;
      n == if max <= 0 then 0 else if max < Max(min, |value|) then max else Max(min, |value|)
    ensures flags.minus && max >= |value| ==> value <= StrText(Some(value), flags, min, max)
    ensures min <= |value| <= max ==> StrText(Some(value), flags, min, max) == value
  {
  }
}
