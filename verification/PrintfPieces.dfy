/** Whole formats: what a format written piece by piece puts out, and what each conversion looks
    like. */
module PrintfPieces {
  import opened Common
  import opened PrintFields
  import opened Printf
  import opened PrintfRoundTrip

  // ----- the shape of a number -----

  /** A digit of the case that the conversion asks for. */
  predicate InCase(c: char, up: bool)
  {
    '0' <= c <= '9' || (if up then 'A' <= c <= 'F' else 'a' <= c <= 'f')
  }

  predicate AllInCase(s: string, up: bool)
  {
    forall k | 0 <= k < |s| :: InCase(s[k], up)
  }

  lemma {:induction false} DigitsInCase(u: nat, radix: nat, up: bool)
    requires 8 <= radix <= 16
    ensures AllInCase(Digits(u, radix, up), up)
    ensures Digits(u, radix, up)[0] == '0' ==> u == 0
    decreases u
  {
    if u < radix {
      DigitCharInCase(u, up);
    } else {
      var q, d := SplitDigits(u, radix, up);
      DigitsInCase(q, radix, up);
      DigitCharInCase(d, up);
      MoreInCase(Digits(q, radix, up), DigitChar(d, up), up);
      QuotientNotZero(u, q, d, radix);
    }
  }

  lemma DigitCharInCase(d: nat, up: bool)
    requires d < 16
    ensures InCase(DigitChar(d, up), up) && (DigitChar(d, up) == '0' ==> d == 0)
  {
  }

  lemma MoreInCase(s: string, c: char, up: bool)
    requires s != "" && AllInCase(s, up) && InCase(c, up)
    ensures AllInCase(s + [c], up) && (s + [c])[0] == s[0]
  {
  }

  lemma QuotientNotZero(u: nat, q: nat, d: nat, radix: nat)
    requires u == q * radix + d && d < radix <= u
    ensures q > 0
  {
  }

  /** What fmtint puts out: spaces on the left, a sign, zeros, the digits, spaces on the right.
      The spaces are on the right exactly with the minus flag, and there are none with the zero
      flag; a number below 0 has `-`, another `+` or a space if the flag is set, and an unsigned
      conversion none; the digits have the case asked for and no zero in front. */
  lemma IntShape(value: int, radix: nat, min: int, max: int, flags: Flags)
    returns (left: nat, sign: string, zeros: nat, digits: string, right: nat)
    requires 8 <= radix <= 16 && Negatable(value, flags)
    ensures IntText(value, radix, min, max, flags)
         == Repeat(' ', left) + sign + Repeat('0', zeros) + digits + Repeat(' ', right)
    ensures (if flags.minus then left else right) == 0 && (flags.zero ==> left == right == 0)
    ensures !flags.unsigned && value < 0 ==> sign == "-"
    ensures !flags.unsigned && value >= 0 ==> sign == if flags.plus then "+" else if flags.space then " " else ""
    ensures flags.unsigned ==> sign == ""
    ensures digits != "" && AllInCase(digits, flags.up) && (digits[0] == '0' ==> value % WORD == 0)
    ensures ReadDigits(digits, radix, 0) == if flags.unsigned then value % WORD else if value < 0 then -value else value
    ensures !flags.zero ==> zeros == Max(max - |digits|, 0)
    ensures flags.zero ==> zeros == Max(Max(max - |digits|, 0), min - |sign| - Max(max, |digits|))
    ensures !flags.zero ==> left + right == Max(min - |sign| - Max(max, |digits|), 0)
  {
    sign, digits := Sign(value, flags), Digits(Magnitude(value, flags), radix, flags.up);
    var spaces := SpacePad(|digits|, |sign|, min, max, flags);
    zeros := ZeroPad(|digits|, |sign|, min, max, flags);
    left, right := if flags.minus then 0 else spaces, if flags.minus then spaces else 0;
    SignIs(value, flags);
    PadsAre(|digits|, |sign|, min, max, flags);
    NumberDigits(value, radix, flags);
    FieldSides(if flags.minus then -spaces else spaces, left, right, sign, zeros, digits);
  }

  lemma SignIs(value: int, flags: Flags)
    ensures !flags.unsigned && value < 0 ==> Sign(value, flags) == "-"
    ensures !flags.unsigned && value >= 0 ==> Sign(value, flags) == if flags.plus then "+" else if flags.space then " " else ""
    ensures flags.unsigned ==> Sign(value, flags) == ""
  {
  }

  lemma PadsAre(place: nat, sign: nat, min: int, max: int, flags: Flags)
    ensures var zeros, spaces := ZeroPad(place, sign, min, max, flags), SpacePad(place, sign, min, max, flags);
      && zeros >= 0 && spaces >= 0 && (flags.zero ==> spaces == 0)
      && (place > 0 && !flags.zero ==> zeros == Max(max - place, 0) && spaces == Max(min - sign - Max(max, place), 0))
      && (place > 0 && flags.zero ==> zeros == Max(Max(max - place, 0), min - sign - Max(max, place)))
  {
  }

  lemma NumberDigits(value: int, radix: nat, flags: Flags)
    requires 8 <= radix <= 16 && Negatable(value, flags)
    ensures var digits := Digits(Magnitude(value, flags), radix, flags.up);
      && AllInCase(digits, flags.up) && (digits[0] == '0' ==> value % WORD == 0)
      && ReadDigits(digits, radix, 0) == if flags.unsigned then value % WORD else if value < 0 then -value else value
  {
    DigitsInCase(Magnitude(value, flags), radix, flags.up);
    DigitsOf(Magnitude(value, flags), radix, flags.up);
  }

  lemma DigitsOf(u: nat, radix: nat, up: bool)
    requires 8 <= radix <= 16
    ensures ReadDigits(Digits(u, radix, up), radix, 0) == u
  {
    DigitsAreRead(u, radix, up, "");
    assert Digits(u, radix, up) + "" == Digits(u, radix, up);
  }

  lemma FieldSides(spaces: int, left: nat, right: nat, sign: string, zeros: nat, digits: string)
    requires if spaces < 0 then left == 0 && right == -spaces else left == spaces && right == 0
    ensures Field(spaces, sign, zeros, digits) == Repeat(' ', left) + sign + Repeat('0', zeros) + digits + Repeat(' ', right)
  {
  }

  // ----- the shape of a string -----

  /** What fmtstr puts out: the string (or `<NULL>`) with spaces on the left, or on the right with
      the minus flag, as far as the limit allows. */
  lemma StrShape(value: Option<string>, flags: Flags, min: int, max: int)
    ensures var s := if value.Some? then value.value else "<NULL>"; var pad := Repeat(' ', min - |s|);
      StrText(value, flags, min, max) <= (if flags.minus then s + pad else pad + s)
    ensures var s := if value.Some? then value.value else "<NULL>";
      |StrText(value, flags, min, max)| == Max(0, if max < Max(min, |s|) then max else Max(min, |s|))
  {
  }

  // ----- one conversion -----

  predicate TakesWord(conv: char)
  {
    IsNumber(conv) || conv == 'c'
  }

  lemma IntUndefined(p: Pending, radix: nat, flags: Flags, args: seq<Arg>)
    requires 8 <= radix <= 16
    ensures IntConverted(p, radix, flags, args) == None
      <==> args == [] || !args[0].Word? || (!flags.unsigned && args[0].v % WORD == 0x8000_0000)
  {
    if args != [] && args[0].Word? { SameWord(args[0].v); }
  }

  lemma NumberUndefined(p: Pending, conv: char, args: seq<Arg>, maxlen: int)
    requires !p.flags.unsigned && IsNumber(conv)
    ensures Converted(p, conv, args, maxlen) == None
      <==> args == [] || !args[0].Word? || (IsSigned(conv) && args[0].v % WORD == 0x8000_0000)
  {
    var flags := if IsSigned(conv) then p.flags
                 else if conv == 'X' then p.flags.(unsigned := true, up := true)
                 else p.flags.(unsigned := true);
    IntUndefined(p, Radix(conv), flags, args);
    assert Converted(p, conv, args, maxlen) == IntConverted(p, Radix(conv), flags, args);
  }

  /** A conversion is undefined exactly if its argument is missing or of the wrong kind, if it
      would negate the least number, or if it is one of those left out. */
  lemma WhenUndefined(p: Pending, conv: char, args: seq<Arg>, maxlen: int)
    requires !p.flags.unsigned
    ensures Converted(p, conv, args, maxlen) == None
      <==> LeftOut(conv)
           || (TakesWord(conv) && (args == [] || !args[0].Word?))
           || (conv == 's' && (args == [] || !args[0].Str?))
           || (IsSigned(conv) && args != [] && args[0].Word? && args[0].v % WORD == 0x8000_0000)
  {
    if IsNumber(conv) { NumberUndefined(p, conv, args, maxlen); } else { OtherUndefined(p, conv, args, maxlen); }
  }

  lemma OtherUndefined(p: Pending, conv: char, args: seq<Arg>, maxlen: int)
    requires !IsNumber(conv)
    ensures Converted(p, conv, args, maxlen) == None
      <==> LeftOut(conv) || (conv == 'c' && (args == [] || !args[0].Word?)) || (conv == 's' && (args == [] || !args[0].Str?))
  {
  }

  /** %c puts out the character of the low byte, %% a percent sign, and an unknown conversion
      nothing. */
  lemma OthersPut(p: Pending, conv: char, args: seq<Arg>, maxlen: int)
    ensures args != [] && args[0].Word? ==>
              var r := Converted(p, 'c', args, maxlen);
              r.Some? && r.value.1 == args[1..] && |r.value.0| == 1 && r.value.0[0] as int == args[0].v % 256
    ensures Converted(p, '%', args, maxlen) == Some(("%", args))
    ensures !TakesWord(conv) && conv != 's' && conv != '%' && !LeftOut(conv) ==> Converted(p, conv, args, maxlen) == Some(("", args))
  {
  }

  /** %s puts out its string, or `<NULL>`, when the width does not pad it and neither the precision
      nor the limit of the whole output cuts it; a precision cuts it off there. */
  lemma StringPut(p: Pending, args: seq<Arg>, maxlen: int)
    requires args != [] && args[0].Str?
    ensures var r, s := Converted(p, 's', args, maxlen), if args[0].s.Some? then args[0].s.value else "<NULL>";
      && r.Some? && r.value.1 == args[1..]
      && (p.min <= |s| && p.max < 0 && |s| <= maxlen ==> r.value.0 == s)
      && (p.min <= |s| && p.max >= 0 ==> r.value.0 == if p.max < |s| then s[..p.max] else s)
  {
    var s := if args[0].s.Some? then args[0].s.value else "<NULL>";
    if p.min <= |s| { assert Padded(s, p.flags, p.min) == s; }
  }

  // ----- conversions with widths and precisions taken from the arguments -----

  /** Text, or a conversion whose width or precision may be written as `*`. */
  datatype Piece = Literal(text: string) | Directive(p: Pending, conv: char, starWidth: bool, starPrecision: bool)

  predicate PieceOk(d: Piece)
  {
    match d
    case Literal(t) => forall k | 0 <= k < |t| :: t[k] != '%' && t[k] != END
    case Directive(p, conv, _, _) => Writable(p) && Ordinary(conv)
  }

  function WidthPart(d: Piece): string
    requires d.Directive?
  {
    if d.starWidth then "*" else WidthText(d.p.min)
  }

  function PrecisionPart(d: Piece): string
    requires d.Directive?
  {
    if d.starPrecision then ".*" else PrecisionText(d.p.max)
  }

  function EndPart(d: Piece): string
    requires d.Directive?
  {
    PrecisionPart(d) + (ModifierText(d.p.mod) + [d.conv])
  }

  function DirectiveText(d: Piece): string
    requires d.Directive?
  {
    FlagText(d.p.flags) + (WidthPart(d) + EndPart(d))
  }

  predicate NoWord(args: seq<Arg>)
  {
    args == [] || !args[0].Word?
  }

  /** The conversion once its precision is known. */
  function WithPrecision(d: Piece, p: Pending, args: seq<Arg>, end: nat): Spec
    requires d.Directive?
  {
    if !d.starPrecision then Spec(p.(max := d.p.max, mod := d.p.mod), d.conv, end, args)
    else if NoWord(args) then Bad
    else Spec(p.(max := ToLong(args[0].v), mod := d.p.mod), d.conv, end, args[1..])
  }

  /** The conversion that a directive stands for: each `*` takes an argument, the width's first. */
  function Meant(d: Piece, args: seq<Arg>, end: nat): Spec
    requires d.Directive?
  {
    var p := FRESH.(flags := d.p.flags);
    if !d.starWidth then WithPrecision(d, p.(min := d.p.min), args, end)
    else if NoWord(args) then Bad
    else WithPrecision(d, p.(min := ToLong(args[0].v)), args[1..], end)
  }

  lemma StarPrecisionIsRead(fmt: string, i: nat, d: Piece, p: Pending, args: seq<Arg>)
    requires d.Directive? && PieceOk(d) && d.starPrecision && Has(fmt, i, EndPart(d)) && p.max == -1 && p.mod == Plain
    ensures DotThen(fmt, i, p, args) == WithPrecision(d, p, args, i + |EndPart(d)|)
  {
    var rest := ModifierText(d.p.mod) + [d.conv];
    HasParts(fmt, i, ".*", rest);
    assert At(".*", 0) == '.' && At(".*", 1) == '*';
    assert At(fmt, i + 0) == '.' && At(fmt, i + 1) == '*';
    assert Number(fmt, i + 1, 0) == (0, i + 1);
    if !NoWord(args) {
      var q := p.(max := ToLong(args[0].v));
      assert q.(mod := Plain) == q;
      ModifierIsRead(fmt, i + 2, q, args[1..], d.p.mod, d.conv);
    }
  }

  lemma PrecisionIsRead(fmt: string, i: nat, d: Piece, p: Pending, args: seq<Arg>)
    requires d.Directive? && PieceOk(d) && Has(fmt, i, EndPart(d)) && p.max == -1 && p.mod == Plain
    ensures DotThen(fmt, i, p, args) == WithPrecision(d, p, args, i + |EndPart(d)|)
  {
    if d.starPrecision {
      StarPrecisionIsRead(fmt, i, d, p, args);
    } else {
      var q := p.(max := d.p.max, mod := d.p.mod);
      assert EndPart(d) == Tail(q, d.conv) && q.(max := -1, mod := Plain) == p;
      DotIsRead(fmt, i, q, args, d.conv);
    }
  }

  lemma WidthIsRead(fmt: string, i: nat, d: Piece, p: Pending, args: seq<Arg>)
    requires d.Directive? && PieceOk(d) && Has(fmt, i, WidthPart(d) + EndPart(d)) && p == FRESH.(flags := d.p.flags)
    ensures WidthThen(fmt, i, p, args) == Meant(d, args, i + |WidthPart(d) + EndPart(d)|)
    ensures !IsFlag(At(fmt, i))
  {
    var j := i + |WidthPart(d)|;
    HasParts(fmt, i, WidthPart(d), EndPart(d));
    EndStarts(d);
    HasChar(fmt, j, EndPart(d));
    if d.starWidth {
      HasChar(fmt, i, "*");
      assert Number(fmt, i, 0) == (0, i);
      if !NoWord(args) { PrecisionIsRead(fmt, j, d, p.(min := ToLong(args[0].v)), args[1..]); }
    } else {
      if d.p.min > 0 {
        NumberIsRead(fmt, i, d.p.min);
        NoLeadingZero(d.p.min);
        HasChar(fmt, i, DecimalText(d.p.min));
      }
      assert Number(fmt, i, 0) == (d.p.min, j);
      PrecisionIsRead(fmt, j, d, p.(min := d.p.min), args);
    }
  }

  lemma EndStarts(d: Piece)
    requires d.Directive? && PieceOk(d)
    ensures var s := EndPart(d); s != "" && !IsDecimal(s[0]) && s[0] != '*' && !IsFlag(s[0])
  {
  }

  /** A directive is read back as what it stands for, up to its last character. */
  lemma DirectiveIsRead(fmt: string, i: nat, d: Piece, args: seq<Arg>)
    requires d.Directive? && PieceOk(d) && Has(fmt, i, DirectiveText(d))
    ensures FlagsThen(fmt, i, FRESH, args) == Meant(d, args, i + |DirectiveText(d)|)
  {
    var f, t := FlagText(d.p.flags), WidthPart(d) + EndPart(d);
    HasParts(fmt, i, f, t);
    FlagsThenRest(fmt, i, i + |f|, d.p.flags, args, d, |t|);
  }

  lemma FlagsThenRest(fmt: string, i: nat, j: nat, f: Flags, args: seq<Arg>, d: Piece, n: nat)
    requires d.Directive? && PieceOk(d) && f == d.p.flags && Has(fmt, i, FlagText(f)) && j == i + |FlagText(f)|
    requires Has(fmt, j, WidthPart(d) + EndPart(d)) && n == |WidthPart(d) + EndPart(d)|
    ensures FlagsThen(fmt, i, FRESH, args) == Meant(d, args, j + n)
  {
    WidthIsRead(fmt, j, d, FRESH.(flags := f), args);
    FlagsAreRead(fmt, i, f);
    FlagsStop(fmt, i, j, f);
    FlagsMeetTail(fmt, i, j, f, args, Meant(d, args, j + n));
  }

  /** The flag `#` is read and means nothing. */
  lemma HashMeansNothing(fmt: string, i: nat, p: Pending, args: seq<Arg>)
    requires At(fmt, i) == '#'
    ensures FlagsThen(fmt, i, p, args) == FlagsThen(fmt, i + 1, p, args)
  {
  }

  // ----- whole formats -----

  function PieceText(d: Piece): string
  {
    if d.Literal? then d.text else "%" + DirectiveText(d)
  }

  function Join(texts: seq<string>): string
  {
    if texts == [] then "" else texts[0] + Join(texts[1..])
  }

  function Texts(pieces: seq<Piece>): seq<string>
  {
    seq(|pieces|, k requires 0 <= k < |pieces| => PieceText(pieces[k]))
  }

  function WriteAll(pieces: seq<Piece>): string
  {
    Join(Texts(pieces))
  }

  /** What the pieces put out, one after the other, while there is room: text is cut off at the
      limit, a conversion is not, and an undefined one ends it all. */
  function PutAll(pieces: seq<Piece>, args: seq<Arg>, room: int, maxlen: int): Option<string>
    decreases |pieces|
  {
    if pieces == [] || room <= 0 then Some("")
    else
      match pieces[0]
      case Literal(t) => if |t| >= room then Some(t[..room]) else Prefixed(t, PutAll(pieces[1..], args, room - |t|, maxlen))
      case Directive(_, conv, _, _) =>
        match Meant(pieces[0], args, 0)
        case Spec(p, _, _, more) =>
          (match Converted(p, conv, more, maxlen)
           case Some((u, rest)) => Prefixed(u, PutAll(pieces[1..], rest, room - |u|, maxlen))
           case None => None)
        case _ => None
  }

  /** Text is put out as it is, up to the limit. */
  lemma {:induction false} TextIsPut(fmt: string, i: nat, t: string, args: seq<Arg>, room: int, maxlen: int)
    requires Has(fmt, i, t) && PieceOk(Literal(t)) && room > 0
    ensures |t| < room ==> Format(fmt, i, args, room, maxlen) == Prefixed(t, Format(fmt, i + |t|, args, room - |t|, maxlen))
    ensures |t| >= room ==> Format(fmt, i, args, room, maxlen) == Some(t[..room])
    decreases |t|
  {
    if t == "" {
      Unprefixed(Format(fmt, i, args, room, maxlen));
    } else {
      HasChar(fmt, i, t);
      assert t == [t[0]] + t[1..];
      HasParts(fmt, i, [t[0]], t[1..]);
      if room > 1 {
        TextIsPut(fmt, i + 1, t[1..], args, room - 1, maxlen);
        Prefixes([t[0]], t[1..], Format(fmt, i + |t|, args, room - |t|, maxlen));
      }
      CharThenText(t, room);
    }
  }

  lemma CharThenText(t: string, room: int)
    requires t != "" && 0 < room
    ensures room <= |t| ==> t[..room] == [t[0]] + t[1..][..room - 1]
  {
  }

  lemma LiteralStep(fmt: string, i: nat, pieces: seq<Piece>, args: seq<Arg>, room: int, maxlen: int)
    requires pieces != [] && pieces[0].Literal? && PieceOk(pieces[0]) && room > 0 && Has(fmt, i, pieces[0].text)
    requires var n := |pieces[0].text|;
      Format(fmt, i + n, args, room - n, maxlen) == PutAll(pieces[1..], args, room - n, maxlen)
    ensures Format(fmt, i, args, room, maxlen) == PutAll(pieces, args, room, maxlen)
  {
    TextIsPut(fmt, i, pieces[0].text, args, room, maxlen);
  }

  /** A directive puts out its text `o` and what follows, or ends it all, in both readings. */
  lemma DirectiveIsPut(fmt: string, i: nat, next: nat, pieces: seq<Piece>, args: seq<Arg>, room: int, maxlen: int)
    returns (o: Option<(string, seq<Arg>)>)
    requires pieces != [] && pieces[0].Directive? && PieceOk(pieces[0]) && room > 0
    requires Has(fmt, i, PieceText(pieces[0])) && next == i + |PieceText(pieces[0])|
    ensures Format(fmt, i, args, room, maxlen)
         == if o.None? then None else Prefixed(o.value.0, Format(fmt, next, o.value.1, room - |o.value.0|, maxlen))
    ensures PutAll(pieces, args, room, maxlen)
         == if o.None? then None else Prefixed(o.value.0, PutAll(pieces[1..], o.value.1, room - |o.value.0|, maxlen))
  {
    var s := Meant(pieces[0], args, next);
    DirectiveMeans(fmt, i, next, pieces[0], args, room, maxlen, s);
    o := DirectiveOutcome(fmt, next, Format(fmt, i, args, room, maxlen), pieces, args, room, maxlen, s);
  }

  lemma DirectiveOutcome(fmt: string, next: nat, whole: Option<string>, pieces: seq<Piece>, args: seq<Arg>, room: int,
                         maxlen: int, s: Spec)
    returns (o: Option<(string, seq<Arg>)>)
    requires pieces != [] && pieces[0].Directive? && room > 0 && s == Meant(pieces[0], args, next)
    requires whole == AfterSpec(fmt, s, room, maxlen)
    ensures whole == if o.None? then None else Prefixed(o.value.0, Format(fmt, next, o.value.1, room - |o.value.0|, maxlen))
    ensures PutAll(pieces, args, room, maxlen)
         == if o.None? then None else Prefixed(o.value.0, PutAll(pieces[1..], o.value.1, room - |o.value.0|, maxlen))
  {
    PutDirective(pieces, args, room, maxlen, next);
    MeantEnds(pieces[0], args, next);
    o := if s.Spec? then Converted(s.p, s.conv, s.args, maxlen) else None;
    AfterSpecIs(fmt, s, room, maxlen);
  }

  lemma AfterSpecIs(fmt: string, s: Spec, room: int, maxlen: int)
    requires !s.End?
    ensures AfterSpec(fmt, s, room, maxlen)
         == if !s.Spec? || Converted(s.p, s.conv, s.args, maxlen).None? then None
            else var c := Converted(s.p, s.conv, s.args, maxlen).value; Prefixed(c.0, Format(fmt, s.next, c.1, room - |c.0|, maxlen))
  {
  }

  lemma MeantEnds(d: Piece, args: seq<Arg>, next: nat)
    requires d.Directive?
    ensures var s := Meant(d, args, next); !s.End? && (s.Spec? ==> s.next == next)
  {
  }

  /** What is put out from `next` on, whatever the arguments and the room, is what the pieces put. */
  ghost predicate PutFrom(fmt: string, next: nat, pieces: seq<Piece>, maxlen: int)
  {
    forall a: seq<Arg>, r: int {:trigger Format(fmt, next, a, r, maxlen)} ::
      Format(fmt, next, a, r, maxlen) == PutAll(pieces, a, r, maxlen)
  }

  lemma SameOutcome(fmt: string, next: nat, rest: seq<Piece>, o: Option<(string, seq<Arg>)>, room: int, maxlen: int,
                    whole: Option<string>, put: Option<string>)
    requires PutFrom(fmt, next, rest, maxlen)
    requires whole == if o.None? then None else Prefixed(o.value.0, Format(fmt, next, o.value.1, room - |o.value.0|, maxlen))
    requires put == if o.None? then None else Prefixed(o.value.0, PutAll(rest, o.value.1, room - |o.value.0|, maxlen))
    ensures whole == put
  {
  }

  lemma DirectiveStep(fmt: string, i: nat, next: nat, pieces: seq<Piece>, args: seq<Arg>, room: int, maxlen: int)
    requires pieces != [] && pieces[0].Directive? && PieceOk(pieces[0]) && room > 0
    requires Has(fmt, i, PieceText(pieces[0])) && next == i + |PieceText(pieces[0])|
    requires PutFrom(fmt, next, pieces[1..], maxlen)
    ensures Format(fmt, i, args, room, maxlen) == PutAll(pieces, args, room, maxlen)
  {
    var o := DirectiveIsPut(fmt, i, next, pieces, args, room, maxlen);
    SameOutcome(fmt, next, pieces[1..], o, room, maxlen, Format(fmt, i, args, room, maxlen), PutAll(pieces, args, room, maxlen));
  }

  lemma NoRoom(fmt: string, i: nat, pieces: seq<Piece>, args: seq<Arg>, room: int, maxlen: int)
    requires room <= 0
    ensures Format(fmt, i, args, room, maxlen) == PutAll(pieces, args, room, maxlen)
  {
  }

  /** Between `i` and `j` the piece `d` is put out, before whatever is put out from `j` on. */
  ghost predicate Advances(fmt: string, i: nat, j: nat, d: Piece, maxlen: int)
  {
    forall rest: seq<Piece> {:trigger PutFrom(fmt, j, rest, maxlen)} ::
      PutFrom(fmt, j, rest, maxlen) ==> PutFrom(fmt, i, [d] + rest, maxlen)
  }

  lemma PieceAdvances(fmt: string, i: nat, j: nat, d: Piece, maxlen: int)
    requires PieceOk(d) && Has(fmt, i, PieceText(d)) && j == i + |PieceText(d)|
    ensures Advances(fmt, i, j, d, maxlen)
  {
    forall rest: seq<Piece> | PutFrom(fmt, j, rest, maxlen) ensures PutFrom(fmt, i, [d] + rest, maxlen) {
      PieceThen(fmt, i, j, d, rest, maxlen);
    }
  }

  lemma PieceThen(fmt: string, i: nat, j: nat, d: Piece, rest: seq<Piece>, maxlen: int)
    requires PieceOk(d) && Has(fmt, i, PieceText(d)) && j == i + |PieceText(d)| && PutFrom(fmt, j, rest, maxlen)
    ensures PutFrom(fmt, i, [d] + rest, maxlen)
  {
    var pieces := [d] + rest;
    assert pieces[1..] == rest;
    forall a: seq<Arg>, r: int ensures Format(fmt, i, a, r, maxlen) == PutAll(pieces, a, r, maxlen) {
      if r <= 0 { NoRoom(fmt, i, pieces, a, r, maxlen); }
      else if d.Literal? { LiteralStep(fmt, i, pieces, a, r, maxlen); }
      else { DirectiveStep(fmt, i, j, pieces, a, r, maxlen); }
    }
  }

  /** The pieces of a format are put out in order, each as what it stands for, until the limit is
      reached. */
  lemma {:induction false} PiecesArePut(fmt: string, at: seq<nat>, pieces: seq<Piece>, maxlen: int)
    requires |at| == |pieces| + 1 && at[|pieces|] == |fmt|
    requires forall k | 0 <= k < |pieces| :: Advances(fmt, at[k], at[k + 1], pieces[k], maxlen)
    ensures PutFrom(fmt, at[0], pieces, maxlen)
    decreases |pieces|
  {
    if pieces == [] {
      AtTheEnd(fmt, maxlen);
    } else {
      PiecesArePut(fmt, at[1..], pieces[1..], maxlen);
      assert Advances(fmt, at[0], at[1], pieces[0], maxlen);
      assert [pieces[0]] + pieces[1..] == pieces;
    }
  }

  lemma AtTheEnd(fmt: string, maxlen: int)
    ensures PutFrom(fmt, |fmt|, [], maxlen)
  {
    forall a: seq<Arg>, r: int ensures Format(fmt, |fmt|, a, r, maxlen) == PutAll([], a, r, maxlen) {
      assert At(fmt, |fmt|) == END;
    }
  }

  /** Where the parts of a joined text begin, and where the last one ends. */
  lemma {:induction false} PartsBegin(fmt: string, i: nat, texts: seq<string>) returns (at: seq<nat>)
    requires Has(fmt, i, Join(texts))
    ensures |at| == |texts| + 1 && at[0] == i && at[|texts|] == i + |Join(texts)|
    ensures forall k | 0 <= k < |texts| :: Has(fmt, at[k], texts[k]) && at[k + 1] == at[k] + |texts[k]|
    decreases |texts|
  {
    if texts == [] {
      at := [i];
    } else {
      HasParts(fmt, i, texts[0], Join(texts[1..]));
      var later := PartsBegin(fmt, i + |texts[0]|, texts[1..]);
      at := [i] + later;
    }
  }

  /** printf on every format that can be written in pieces: it puts out what the pieces stand for,
      in order, until the limit is reached. */
  lemma FormatIsPut(pieces: seq<Piece>, args: seq<Arg>, maxlen: int)
    requires forall k | 0 <= k < |pieces| :: PieceOk(pieces[k])
    ensures Format(WriteAll(pieces), 0, args, maxlen, maxlen) == PutAll(pieces, args, maxlen, maxlen)
  {
    var fmt := WriteAll(pieces);
    var at := PartsBegin(fmt, 0, Texts(pieces));
    forall k | 0 <= k < |pieces| ensures Advances(fmt, at[k], at[k + 1], pieces[k], maxlen) {
      assert Texts(pieces)[k] == PieceText(pieces[k]);
      PieceAdvances(fmt, at[k], at[k + 1], pieces[k], maxlen);
    }
    PiecesArePut(fmt, at, pieces, maxlen);
  }

  lemma DirectiveMeans(fmt: string, i: nat, next: nat, d: Piece, args: seq<Arg>, room: int, maxlen: int, s: Spec)
    requires d.Directive? && PieceOk(d) && Has(fmt, i, PieceText(d)) && next == i + |PieceText(d)| && room > 0
    requires s == Meant(d, args, next)
    ensures Format(fmt, i, args, room, maxlen) == AfterSpec(fmt, s, room, maxlen)
  {
    HasParts(fmt, i, "%", DirectiveText(d));
    HasChar(fmt, i, "%");
    DirectiveIsRead(fmt, i + 1, d, args);
    SpecThen(fmt, i, args, room, maxlen, s);
  }

  /** Where the conversion ends in the format does not matter to what it puts out. */
  lemma PutDirective(pieces: seq<Piece>, args: seq<Arg>, room: int, maxlen: int, next: nat)
    requires pieces != [] && pieces[0].Directive? && room > 0
    ensures var s := Meant(pieces[0], args, next);
      PutAll(pieces, args, room, maxlen)
      == if !s.Spec? || Converted(s.p, s.conv, s.args, maxlen).None? then None
         else var c := Converted(s.p, s.conv, s.args, maxlen).value;
           Prefixed(c.0, PutAll(pieces[1..], c.1, room - |c.0|, maxlen))
  {
  }
}
