/** Conversions as they are written in a format, read back by the grammar. */
module PrintfRoundTrip {
  import opened Common
  import opened PrintFields
  import opened Printf

  function FlagText(f: Flags): string
  {
    Optional(f.minus, '-') + (Optional(f.plus, '+') + (Optional(f.space, ' ') + Optional(f.zero, '0')))
  }

  function DecimalText(n: nat): string
  {
    Digits(n, 10, false)
  }

  function WidthText(min: int): string
  {
    if min <= 0 then "" else DecimalText(min)
  }

  function PrecisionText(max: int): string
  {
    if max < 0 then "" else "." + DecimalText(max)
  }

  function ModifierText(m: Modifier): string
  {
    match m
    case Plain => ""
    case Short => "h"
    case Long => "l"
    case LongDouble => "L"
  }

  /** The part of a conversion after its width. */
  function Tail(p: Pending, conv: char): string
  {
    PrecisionText(p.max) + (ModifierText(p.mod) + [conv])
  }

  /** A conversion without its `%`. */
  function Written(p: Pending, conv: char): string
  {
    FlagText(p.flags) + (WidthText(p.min) + Tail(p, conv))
  }

  /** What can be written: no negative width, and a precision or none. */
  predicate Writable(p: Pending)
  {
    p.min >= 0 && p.max >= -1 && !p.flags.up && !p.flags.unsigned
  }

  /** A conversion character that is not part of anything before it. */
  predicate Ordinary(c: char)
  {
    !IsFlag(c) && !IsDecimal(c) && c != '*' && c != '.' && c != 'h' && c != 'l' && c != 'L' && c != END
  }

  /** The format holds `s` at position i. */
  predicate Has(fmt: string, i: nat, s: string)
  {
    i + |s| <= |fmt| && forall k: nat {:trigger At(s, k)} | k < |s| :: At(fmt, i + k) == At(s, k)
  }

  lemma HasParts(fmt: string, i: nat, a: string, b: string)
    requires Has(fmt, i, a + b)
    ensures Has(fmt, i, a) && Has(fmt, i + |a|, b)
  {
    forall k: nat | k < |a| ensures At(fmt, i + k) == At(a, k) { assert At(a + b, k) == At(a, k); }
    forall k: nat | k < |b| ensures At(fmt, i + |a| + k) == At(b, k) { assert At(a + b, |a| + k) == At(b, k); }
  }

  lemma HasChar(fmt: string, i: nat, s: string)
    requires Has(fmt, i, s) && s != ""
    ensures At(fmt, i) == s[0]
  {
    assert At(s, 0) == s[0];
  }

  lemma DecimalChar(d: nat)
    requires d < 10
    ensures IsDecimal(DigitChar(d, false)) && Decimal(DigitChar(d, false)) == d
  {
    DigitCharValue(d, false);
  }

  predicate AllDecimal(s: string)
  {
    forall k | 0 <= k < |s| :: IsDecimal(s[k])
  }

  /** A run of digits is read as the number it stands for. */
  lemma {:induction false} RunIsRead(fmt: string, i: nat, s: string, acc: nat)
    requires Has(fmt, i, s) && AllDecimal(s)
    ensures Number(fmt, i, acc) == Number(fmt, i + |s|, ReadDigits(s, 10, acc))
    decreases |s|
  {
    if s != "" {
      HasChar(fmt, i, s);
      assert s == [s[0]] + s[1..];
      HasParts(fmt, i, [s[0]], s[1..]);
      assert IsDecimal(s[0]);
      RunIsRead(fmt, i + 1, s[1..], 10 * acc + Decimal(s[0]));
    }
  }

  lemma {:induction false} DecimalTextIsDecimal(n: nat)
    ensures AllDecimal(DecimalText(n))
  {
    if n < 10 { DecimalChar(n); }
    else {
      var q, d := SplitDigits(n, 10, false);
      DecimalTextIsDecimal(q);
      DecimalChar(d);
    }
  }

  /** A number written in decimal is read as itself, and reading goes on after it. */
  lemma NumberIsRead(fmt: string, i: nat, n: nat)
    requires Has(fmt, i, DecimalText(n))
    ensures Number(fmt, i, 0) == Number(fmt, i + |DecimalText(n)|, n)
  {
    var s := DecimalText(n);
    DecimalTextIsDecimal(n);
    RunIsRead(fmt, i, s, 0);
    DigitsAreRead(n, 10, false, "");
    assert s + "" == s;
  }

  function Optional(on: bool, c: char): string
  {
    if on then [c] else ""
  }

  /** The flags that a run of flag characters adds to `f`. */
  function WithFlags(f: Flags, s: string): Flags
    decreases |s|
  {
    if s == "" then f else WithFlags(WithFlag(f, s[0]), s[1..])
  }

  predicate AllFlags(s: string)
  {
    forall k | 0 <= k < |s| :: IsFlag(s[k])
  }

  /** A run of flag characters is read as the flags it stands for. */
  lemma {:induction false} FlagRunIsRead(fmt: string, i: nat, s: string, f: Flags)
    requires Has(fmt, i, s) && AllFlags(s)
    ensures FlagRun(fmt, i, f) == FlagRun(fmt, i + |s|, WithFlags(f, s))
    decreases |s|
  {
    if s != "" {
      HasChar(fmt, i, s);
      assert s == [s[0]] + s[1..];
      HasParts(fmt, i, [s[0]], s[1..]);
      FlagRunIsRead(fmt, i + 1, s[1..], WithFlag(f, s[0]));
    }
  }

  lemma OptionalThen(f: Flags, on: bool, c: char, s: string)
    ensures WithFlags(f, Optional(on, c) + s) == WithFlags(if on then WithFlag(f, c) else f, s)
  {
    if on { assert ([c] + s)[1..] == s; } else { assert "" + s == s; }
  }

  /** The four flags, written, stand for themselves. */
  lemma FlagTextMeans(f: Flags)
    requires !f.up && !f.unsigned
    ensures AllFlags(FlagText(f)) && WithFlags(NO_FLAGS, FlagText(f)) == f
  {
    var f1 := NO_FLAGS.(minus := f.minus);
    var f2 := f1.(plus := f.plus);
    var f3 := f2.(space := f.space);
    OptionalThen(NO_FLAGS, f.minus, '-', Optional(f.plus, '+') + (Optional(f.space, ' ') + Optional(f.zero, '0')));
    OptionalThen(f1, f.plus, '+', Optional(f.space, ' ') + Optional(f.zero, '0'));
    OptionalThen(f2, f.space, ' ', Optional(f.zero, '0'));
    OptionalThen(f3, f.zero, '0', "");
    assert Optional(f.zero, '0') + "" == Optional(f.zero, '0');
  }

  lemma FlagsAreRead(fmt: string, i: nat, f: Flags)
    requires Has(fmt, i, FlagText(f)) && !f.up && !f.unsigned
    ensures FlagRun(fmt, i, NO_FLAGS) == FlagRun(fmt, i + |FlagText(f)|, f)
  {
    FlagTextMeans(f);
    FlagRunIsRead(fmt, i, FlagText(f), NO_FLAGS);
  }

  lemma {:induction false} NoLeadingZero(n: nat)
    requires n > 0
    ensures IsDecimal(DecimalText(n)[0]) && DecimalText(n)[0] != '0'
  {
    if n < 10 { DecimalChar(n); }
    else {
      var q, d := SplitDigits(n, 10, false);
      NoLeadingZero(q);
    }
  }

  lemma ModifierIsRead(fmt: string, i: nat, p: Pending, args: seq<Arg>, m: Modifier, conv: char)
    requires Has(fmt, i, ModifierText(m) + [conv]) && Ordinary(conv)
    ensures ModifierThen(fmt, i, p.(mod := Plain), args) == Spec(p.(mod := m), conv, i + |ModifierText(m)| + 1, args)
  {
    HasParts(fmt, i, ModifierText(m), [conv]);
    HasChar(fmt, i + |ModifierText(m)|, [conv]);
    if m != Plain { HasChar(fmt, i, ModifierText(m)); }
    assert p.(mod := Plain).(mod := m) == p.(mod := m);
  }

  /** After the width: an optional precision, then the rest. */
  lemma DotIsRead(fmt: string, i: nat, p: Pending, args: seq<Arg>, conv: char)
    requires Has(fmt, i, Tail(p, conv)) && Ordinary(conv) && p.max >= -1
    ensures DotThen(fmt, i, p.(max := -1, mod := Plain), args)
            == Spec(p, conv, i + |Tail(p, conv)|, args)
  {
    var rest := ModifierText(p.mod) + [conv];
    var q := p.(max := -1, mod := Plain);
    var j := i + |PrecisionText(p.max)|;
    HasParts(fmt, i, PrecisionText(p.max), rest);
    ModifierIsRead(fmt, j, p, args, p.mod, conv);
    HasChar(fmt, j, rest);
    if p.max >= 0 {
      HasParts(fmt, i, ".", DecimalText(p.max));
      HasChar(fmt, i, ".");
      NumberIsRead(fmt, i + 1, p.max);
      assert Number(fmt, i + 1, 0) == (p.max, j);
      assert q.(max := p.max) == p.(mod := Plain);
    } else {
      assert q == p.(mod := Plain);
    }
  }

  /** The first character of what follows the flags is not a flag. */
  lemma AfterFlags(p: Pending, conv: char)
    requires Writable(p) && Ordinary(conv)
    ensures var s := WidthText(p.min) + Tail(p, conv); s != "" && !IsFlag(s[0])
    ensures var s := Tail(p, conv); s != "" && !IsDecimal(s[0]) && s[0] != '*'
  {
    if p.min > 0 { NoLeadingZero(p.min); }
  }

  /** A written conversion is read back: its flags, width, precision, modifier and conversion
      character, up to its last character. */
  lemma ConversionIsReadBack(fmt: string, i: nat, p: Pending, conv: char, args: seq<Arg>)
    requires Writable(p) && Ordinary(conv) && Has(fmt, i, Written(p, conv))
    ensures FlagsThen(fmt, i, FRESH, args) == Spec(p, conv, i + |Written(p, conv)|, args)
  {
    var j := ConversionParts(fmt, i, p, conv);
    FlagsEnd(fmt, i, j, p, conv);
    TailIsRead(fmt, j, i + |Written(p, conv)|, p, conv, args);
    FlagsMeetTail(fmt, i, j, p.flags, args, Spec(p, conv, i + |Written(p, conv)|, args));
  }

  lemma ConversionParts(fmt: string, i: nat, p: Pending, conv: char) returns (j: nat)
    requires Has(fmt, i, Written(p, conv))
    ensures j == i + |FlagText(p.flags)| && i + |Written(p, conv)| == j + |WidthText(p.min)| + |Tail(p, conv)|
    ensures Has(fmt, i, FlagText(p.flags)) && Has(fmt, j, WidthText(p.min) + Tail(p, conv))
  {
    j := i + |FlagText(p.flags)|;
    HasParts(fmt, i, FlagText(p.flags), WidthText(p.min) + Tail(p, conv));
  }

  lemma FlagsMeetTail(fmt: string, i: nat, j: nat, f: Flags, args: seq<Arg>, s: Spec)
    requires FlagRun(fmt, i, NO_FLAGS) == (f, j) && WidthThen(fmt, j, FRESH.(flags := f), args) == s
    ensures FlagsThen(fmt, i, FRESH, args) == s
  {
  }

  /** The flags are read up to the width. */
  lemma FlagsEnd(fmt: string, i: nat, j: nat, p: Pending, conv: char)
    requires Writable(p) && Ordinary(conv) && Has(fmt, i, FlagText(p.flags)) && j == i + |FlagText(p.flags)|
    requires Has(fmt, j, WidthText(p.min) + Tail(p, conv))
    ensures FlagRun(fmt, i, NO_FLAGS) == (p.flags, j)
  {
    FlagsAreRead(fmt, i, p.flags);
    NoFlagNext(fmt, j, p, conv);
    FlagsStop(fmt, i, j, p.flags);
  }

  lemma NoFlagNext(fmt: string, j: nat, p: Pending, conv: char)
    requires Writable(p) && Ordinary(conv) && Has(fmt, j, WidthText(p.min) + Tail(p, conv))
    ensures !IsFlag(At(fmt, j))
  {
    AfterFlags(p, conv);
    HasChar(fmt, j, WidthText(p.min) + Tail(p, conv));
  }

  lemma FlagsStop(fmt: string, i: nat, j: nat, f: Flags)
    requires FlagRun(fmt, i, NO_FLAGS) == FlagRun(fmt, j, f) && !IsFlag(At(fmt, j))
    ensures FlagRun(fmt, i, NO_FLAGS) == (f, j)
  {
  }

  /** After the flags: an optional width, then the rest. */
  lemma TailIsRead(fmt: string, i: nat, k: nat, p: Pending, conv: char, args: seq<Arg>)
    requires Writable(p) && Ordinary(conv) && Has(fmt, i, WidthText(p.min) + Tail(p, conv))
    requires k == i + |WidthText(p.min)| + |Tail(p, conv)|
    ensures WidthThen(fmt, i, FRESH.(flags := p.flags), args) == Spec(p, conv, k, args)
  {
    var j := i + |WidthText(p.min)|;
    HasParts(fmt, i, WidthText(p.min), Tail(p, conv));
    AfterFlags(p, conv);
    HasChar(fmt, j, Tail(p, conv));
    if p.min > 0 { NumberIsRead(fmt, i, p.min); }
    assert Number(fmt, i, 0) == (p.min, j);
    assert FRESH.(flags := p.flags).(min := p.min) == p.(max := -1, mod := Plain);
    DotIsRead(fmt, j, p, args, conv);
  }

  predicate IsSigned(conv: char)
  {
    conv == 'd' || conv == 'i' || conv == 'p'
  }

  predicate IsNumber(conv: char)
  {
    IsSigned(conv) || conv == 'u' || conv == 'o' || conv == 'x' || conv == 'X'
  }

  function Radix(conv: char): nat
  {
    if conv == 'o' then 8 else if conv == 'x' || conv == 'X' || conv == 'p' then 16 else 10
  }

  /** What an argument is worth to a conversion: %d, %i and %p take the word as signed. */
  function Worth(conv: char, v: int): int
  {
    if IsSigned(conv) then ToLong(v) else v % WORD
  }

  /** A whole printf: text without a `%`, then an integer conversion, come out as the text and
      a number that, in the radix of the conversion, reads back as the argument. */
  lemma TextAndNumber(text: string, p: Pending, conv: char, v: int, maxlen: int, fmt: string)
    requires Writable(p) && IsNumber(conv) && (IsSigned(conv) ==> v % WORD != 0x8000_0000)
    requires maxlen > |text| && fmt == text + "%" + Written(p, conv)
    requires forall k | 0 <= k < |text| :: text[k] != '%' && text[k] != END
    ensures exists t :: Format(fmt, 0, [Word(v)], maxlen, maxlen) == Some(text + t) && ReadInt(t, Radix(conv)) == Worth(conv, v)
  {
    ParsedNumber(fmt, text, p, conv, v);
    NumberAfterText(fmt, text, p, conv, v, maxlen);
  }

  lemma NumberAfterText(fmt: string, text: string, p: Pending, conv: char, v: int, maxlen: int)
    requires IsNumber(conv) && (IsSigned(conv) ==> v % WORD != 0x8000_0000) && !p.flags.unsigned && maxlen > |text|
    requires |text| < |fmt| && text <= fmt && forall k | 0 <= k < |text| :: text[k] != '%' && text[k] != END
    requires At(fmt, |text|) == '%' && FlagsThen(fmt, |text| + 1, FRESH, [Word(v)]) == Spec(p, conv, |fmt|, [Word(v)])
    ensures exists t :: Format(fmt, 0, [Word(v)], maxlen, maxlen) == Some(text + t) && ReadInt(t, Radix(conv)) == Worth(conv, v)
  {
    var t := ConvertedNumber(fmt, |text|, p, conv, v, maxlen - |text|, maxlen);
    TextThen(fmt, text, [Word(v)], maxlen, t);
  }

  lemma BeginsWith(fmt: string, text: string, w: string)
    requires fmt == text + "%" + w
    ensures |text| < |fmt| && text <= fmt && At(fmt, |text|) == '%' && Has(fmt, |text| + 1, w) && |fmt| == |text| + 1 + |w|
  {
  }

  lemma TextThen(fmt: string, text: string, args: seq<Arg>, maxlen: int, t: string)
    requires |text| < |fmt| && text <= fmt && maxlen > |text|
    requires forall k | 0 <= k < |text| :: text[k] != '%' && text[k] != END
    requires Format(fmt, |text|, args, maxlen - |text|, maxlen) == Some(t)
    ensures Format(fmt, 0, args, maxlen, maxlen) == Some(text + t)
  {
    LiteralText(fmt, text, 0, args, maxlen, maxlen);
    assert text[0..] == text;
  }

  lemma ParsedNumber(fmt: string, text: string, p: Pending, conv: char, v: int)
    requires Writable(p) && IsNumber(conv) && fmt == text + "%" + Written(p, conv)
    ensures |text| < |fmt| && text <= fmt && At(fmt, |text|) == '%'
    ensures FlagsThen(fmt, |text| + 1, FRESH, [Word(v)]) == Spec(p, conv, |fmt|, [Word(v)])
  {
    BeginsWith(fmt, text, Written(p, conv));
    ConversionIsReadBack(fmt, |text| + 1, p, conv, [Word(v)]);
  }

  lemma ConvertedNumber(fmt: string, i: nat, p: Pending, conv: char, v: int, room: int, maxlen: int) returns (t: string)
    requires IsNumber(conv) && (IsSigned(conv) ==> v % WORD != 0x8000_0000) && !p.flags.unsigned && room > 0
    requires At(fmt, i) == '%' && FlagsThen(fmt, i + 1, FRESH, [Word(v)]) == Spec(p, conv, |fmt|, [Word(v)])
    ensures Format(fmt, i, [Word(v)], room, maxlen) == Some(t) && ReadInt(t, Radix(conv)) == Worth(conv, v)
  {
    t := NumberText(p, conv, v, maxlen);
    LastConversion(fmt, p, conv, v, room, maxlen, t);
    SpecThen(fmt, i, [Word(v)], room, maxlen, Spec(p, conv, |fmt|, [Word(v)]));
  }

  lemma SpecThen(fmt: string, i: nat, args: seq<Arg>, room: int, maxlen: int, s: Spec)
    requires At(fmt, i) == '%' && room > 0 && FlagsThen(fmt, i + 1, FRESH, args) == s
    ensures Format(fmt, i, args, room, maxlen) == AfterSpec(fmt, s, room, maxlen)
  {
  }

  /** A conversion at the end of the format. */
  lemma LastConversion(fmt: string, p: Pending, conv: char, v: int, room: int, maxlen: int, t: string)
    requires Converted(p, conv, [Word(v)], maxlen) == Some((t, []))
    ensures AfterSpec(fmt, Spec(p, conv, |fmt|, [Word(v)]), room, maxlen) == Some(t)
  {
    assert t + "" == t;
    assert At(fmt, |fmt|) == END;
  }

  lemma NumberText(p: Pending, conv: char, v: int, maxlen: int) returns (t: string)
    requires IsNumber(conv) && (IsSigned(conv) ==> v % WORD != 0x8000_0000) && !p.flags.unsigned
    ensures Converted(p, conv, [Word(v)], maxlen) == Some((t, [])) && ReadInt(t, Radix(conv)) == Worth(conv, v)
  {
    var flags := if IsSigned(conv) then p.flags
                 else if conv == 'X' then p.flags.(unsigned := true, up := true)
                 else p.flags.(unsigned := true);
    SameWord(v);
    t := IntText(ToLong(v), Radix(conv), p.min, p.max, flags);
    assert [Word(v)][1..] == [];
    assert IntConverted(p, Radix(conv), flags, [Word(v)]) == Some((t, []));
    IntIsReadBack(ToLong(v), Radix(conv), p.min, p.max, flags);
  }

  /** %p prints an address that reads back as itself if and only if the address is below 2 GB:
      above, the word is taken as negative, and at 2 GB it has no negation. */
  lemma PointerReadsBack(p: Pending, address: nat, maxlen: int)
    requires address < WORD && !p.flags.unsigned
    ensures var r := Converted(p, 'p', [Word(address)], maxlen);
      (r.Some? && ReadInt(r.value.0, 16) == address) <==> address < 0x8000_0000
  {
    SameWord(address);
    if address != 0x8000_0000 {
      var t := NumberText(p, 'p', address, maxlen);
    } else {
      assert Converted(p, 'p', [Word(address)], maxlen) == None;
    }
  }

  lemma SameWord(v: int)
    ensures ToLong(v) % WORD == v % WORD && -0x8000_0000 <= ToLong(v) < 0x8000_0000
    ensures ToLong(v) == -0x8000_0000 <==> v % WORD == 0x8000_0000
    ensures 0 <= ToLong(v) ==> ToLong(v) % WORD == ToLong(v)
  {
  }

  lemma {:induction false} LiteralText(fmt: string, text: string, i: nat, args: seq<Arg>, room: int, maxlen: int)
    requires i <= |text| < |fmt| && text <= fmt && room > |text| - i
    requires forall k | 0 <= k < |text| :: text[k] != '%' && text[k] != END
    ensures Format(fmt, i, args, room, maxlen) == Prefixed(text[i..], Format(fmt, |text|, args, room - (|text| - i), maxlen))
    decreases |text| - i
  {
    var last := Format(fmt, |text|, args, room - (|text| - i), maxlen);
    if i < |text| {
      assert fmt[i] == text[i];
      LiteralText(fmt, text, i + 1, args, room - 1, maxlen);
      Prefixes([text[i]], text[i + 1..], last);
      assert [text[i]] + text[i + 1..] == text[i..];
    } else {
      Unprefixed(last);
      assert text[i..] == "";
    }
  }
}
