/** printf: the character-driven state machine and the grammar it recognises,
    `% flags width .precision modifier conversion`. */
module Printf {
  import opened Common
  import opened PrintFields

  /** One variadic argument: a machine word (an int, a long, a character or a pointer) or a
      string pointer. */
  datatype Arg = Word(v: int) | Str(s: Option<string>)

  datatype Modifier = Plain | Short | Long | LongDouble

  /** What has been read of a conversion. */
  datatype Pending = Pending(flags: Flags, min: int, max: int, mod: Modifier)

  datatype State = Default | InFlags | InMin | InDot | InMax | InMod | InConv

  const NO_FLAGS: Flags := Flags(false, false, false, false, false, false)
  const FRESH: Pending := Pending(NO_FLAGS, 0, -1, Plain)
  const END: char := 0 as char

  function At(fmt: string, i: nat): char
  {
    if i < |fmt| then fmt[i] else END
  }

  predicate IsDecimal(c: char)
  {
    '0' <= c <= '9'
  }

  function Decimal(c: char): nat
    requires IsDecimal(c)
  {
    c as int - '0' as int
  }

  // ----- the grammar -----

  /** A parsed conversion, where the format goes on, and the arguments left.  End: the format
      stops inside it.  Bad: an argument for a `*` is missing. */
  datatype Spec = End | Bad | Spec(p: Pending, conv: char, next: nat, args: seq<Arg>)

  predicate IsFlag(c: char)
  {
    c == '-' || c == '+' || c == ' ' || c == '#' || c == '0'
  }

  function WithFlag(f: Flags, c: char): Flags
  {
    if c == '-' then f.(minus := true)
    else if c == '+' then f.(plus := true)
    else if c == ' ' then f.(space := true)
    else if c == '0' then f.(zero := true)
    else f
  }

  function Conversion(fmt: string, i: nat, p: Pending, args: seq<Arg>): Spec
  {
    if At(fmt, i) == END then End else Spec(p, At(fmt, i), i + 1, args)
  }

  function ModifierThen(fmt: string, i: nat, p: Pending, args: seq<Arg>): Spec
  {
    var c := At(fmt, i);
    if c == 'h' then Conversion(fmt, i + 1, p.(mod := Short), args)
    else if c == 'l' then Conversion(fmt, i + 1, p.(mod := Long), args)
    else if c == 'L' then Conversion(fmt, i + 1, p.(mod := LongDouble), args)
    else Conversion(fmt, i, p, args)
  }

  /** A run of decimal digits read on top of `acc`, and where it ends. */
  function Number(fmt: string, i: nat, acc: int): (r: (int, nat))
    ensures i <= r.1
    decreases |fmt| - i
  {
    if IsDecimal(At(fmt, i)) then Number(fmt, i + 1, 10 * acc + Decimal(At(fmt, i))) else (acc, i)
  }

  function PrecisionThen(fmt: string, i: nat, p: Pending, args: seq<Arg>): Spec
  {
    var (max, j) := Number(fmt, i, Max(p.max, 0));
    var q := if j == i then p else p.(max := max);
    if At(fmt, j) != '*' then ModifierThen(fmt, j, q, args)
    else if args == [] || !args[0].Word? then Bad
    else ModifierThen(fmt, j + 1, q.(max := ToLong(args[0].v)), args[1..])
  }

  function DotThen(fmt: string, i: nat, p: Pending, args: seq<Arg>): Spec
  {
    if At(fmt, i) == '.' then PrecisionThen(fmt, i + 1, p, args) else ModifierThen(fmt, i, p, args)
  }

  function WidthThen(fmt: string, i: nat, p: Pending, args: seq<Arg>): Spec
  {
    var (min, j) := Number(fmt, i, p.min);
    if At(fmt, j) != '*' then DotThen(fmt, j, p.(min := min), args)
    else if args == [] || !args[0].Word? then Bad
    else DotThen(fmt, j + 1, p.(min := ToLong(args[0].v)), args[1..])
  }

  /** A run of flag characters on top of `f`, and where it ends. */
  function FlagRun(fmt: string, i: nat, f: Flags): (r: (Flags, nat))
    ensures i <= r.1
    decreases |fmt| - i
  {
    if IsFlag(At(fmt, i)) then FlagRun(fmt, i + 1, WithFlag(f, At(fmt, i))) else (f, i)
  }

  function FlagsThen(fmt: string, i: nat, p: Pending, args: seq<Arg>): Spec
  {
    var (f, j) := FlagRun(fmt, i, p.flags);
    WidthThen(fmt, j, p.(flags := f), args)
  }

  /** A 32-bit word taken as a signed long. */
  function ToLong(v: int): int
  {
    var w := v % WORD;
    if w < 0x8000_0000 then w else w - WORD
  }

  /** The floating-point conversions, %n and %w. */
  predicate LeftOut(c: char)
  {
    c == 'f' || c == 'E' || c == 'e' || c == 'G' || c == 'g' || c == 'n' || c == 'w'
  }

  /** The text of one conversion and the arguments left; None for an argument that is missing
      or of the wrong kind, for the one word with no negation, and for conversions left out. */
  function Converted(p: Pending, conv: char, args: seq<Arg>, maxlen: int): Option<(string, seq<Arg>)>
  {
    if conv == 'd' || conv == 'i' then IntConverted(p, 10, p.flags, args)
    else if conv == 'p' then IntConverted(p, 16, p.flags, args)
    else if conv == 'o' then IntConverted(p, 8, p.flags.(unsigned := true), args)
    else if conv == 'u' then IntConverted(p, 10, p.flags.(unsigned := true), args)
    else if conv == 'x' then IntConverted(p, 16, p.flags.(unsigned := true), args)
    else if conv == 'X' then IntConverted(p, 16, p.flags.(unsigned := true, up := true), args)
    else if conv == 'c' then
      if args == [] || !args[0].Word? then None else Some(([(args[0].v % 256) as char], args[1..]))
    else if conv == 's' then
      if args == [] || !args[0].Str? then None
      else Some((StrText(args[0].s, p.flags, p.min, if p.max < 0 then maxlen else p.max), args[1..]))
    else if conv == '%' then Some(("%", args))
    else if LeftOut(conv) then None
    else Some(("", args))
  }

  function IntConverted(p: Pending, radix: nat, flags: Flags, args: seq<Arg>): Option<(string, seq<Arg>)>
    requires 8 <= radix <= 16
  {
    if args == [] || !args[0].Word? || !Negatable(ToLong(args[0].v), flags) then None
    else Some((IntText(ToLong(args[0].v), radix, p.min, p.max, flags), args[1..]))
  }

  /** Every parsed conversion ends within the format and after `i`. */
  lemma FlagsGoOn(fmt: string, i: nat, p: Pending, args: seq<Arg>)
    ensures var s := FlagsThen(fmt, i, p, args); s.Spec? ==> i < s.next <= |fmt|
  {
  }

  /** What the format puts out from `i` on, while fewer than `room` characters have been put;
      None if it runs into something undefined. */
  function Format(fmt: string, i: nat, args: seq<Arg>, room: int, maxlen: int): Option<string>
    decreases |fmt| - i, 1
  {
    var c := At(fmt, i);
    if c == END || room <= 0 then Some("")
    else if c != '%' then Prefixed([c], Format(fmt, i + 1, args, room - 1, maxlen))
    else
      FlagsGoOn(fmt, i + 1, FRESH, args);
      AfterSpec(fmt, FlagsThen(fmt, i + 1, FRESH, args), room, maxlen)
  }

  function AfterSpec(fmt: string, s: Spec, room: int, maxlen: int): Option<string>
    decreases if s.Spec? then |fmt| - s.next else 0, 2
  {
    match s
    case End => Some("")
    case Bad => None
    case Spec(p, conv, next, args) =>
      match Converted(p, conv, args, maxlen)
      case None => None
      case Some((t, rest)) => Prefixed(t, Format(fmt, next, rest, room - |t|, maxlen))
  }

  function Prefixed(t: string, r: Option<string>): Option<string>
  {
    if r.None? then None else Some(t + r.value)
  }

  // ----- the limit -----

  /** From `i` on, a conversion `conv` that puts out `t` is reached with `left` characters of
      room. */
  predicate Reaches(fmt: string, i: nat, args: seq<Arg>, room: int, maxlen: int, conv: char, t: string, left: int)
    decreases |fmt| - i, 1
  {
    var c := At(fmt, i);
    if c == END || room <= 0 then false
    else if c != '%' then Reaches(fmt, i + 1, args, room - 1, maxlen, conv, t, left)
    else
      FlagsGoOn(fmt, i + 1, FRESH, args);
      SpecReaches(fmt, FlagsThen(fmt, i + 1, FRESH, args), room, maxlen, conv, t, left)
  }

  predicate SpecReaches(fmt: string, s: Spec, room: int, maxlen: int, conv: char, t: string, left: int)
    decreases if s.Spec? then |fmt| - s.next else 0, 2
  {
    s.Spec? &&
    match Converted(s.p, s.conv, s.args, maxlen)
    case None => false
    case Some((u, rest)) =>
      (conv == s.conv && t == u && left == room) || Reaches(fmt, s.next, rest, room - |u|, maxlen, conv, t, left)
  }

  ghost predicate Overruns(fmt: string, i: nat, args: seq<Arg>, room: int, maxlen: int)
  {
    exists conv, t, left :: Reaches(fmt, i, args, room, maxlen, conv, t, left) && |t| > left
  }

  ghost predicate SpecOverruns(fmt: string, s: Spec, room: int, maxlen: int)
  {
    exists conv, t, left :: SpecReaches(fmt, s, room, maxlen, conv, t, left) && |t| > left
  }

  /** The output passes the limit if and only if some conversion is reached that is longer than
      the room left: the limit is looked at between turns, not inside a conversion. */
  lemma {:induction false} PassesTheLimit(fmt: string, i: nat, args: seq<Arg>, room: int, maxlen: int)
    requires Format(fmt, i, args, room, maxlen).Some?
    ensures |Format(fmt, i, args, room, maxlen).value| > Max(room, 0) <==> Overruns(fmt, i, args, room, maxlen)
    decreases |fmt| - i, 1
  {
    var c := At(fmt, i);
    if c == END || room <= 0 {
    } else if c != '%' {
      PassesTheLimit(fmt, i + 1, args, room - 1, maxlen);
      LiteralOverruns(fmt, i, args, room, maxlen);
    } else {
      FlagsGoOn(fmt, i + 1, FRESH, args);
      var s := FlagsThen(fmt, i + 1, FRESH, args);
      SpecPasses(fmt, s, room, maxlen);
      ConversionOverruns(fmt, i, args, room, maxlen, s);
    }
  }

  lemma LiteralOverruns(fmt: string, i: nat, args: seq<Arg>, room: int, maxlen: int)
    requires At(fmt, i) != END && At(fmt, i) != '%' && room > 0
    ensures Overruns(fmt, i, args, room, maxlen) <==> Overruns(fmt, i + 1, args, room - 1, maxlen)
  {
    if Overruns(fmt, i, args, room, maxlen) {
      var conv, t, left :| Reaches(fmt, i, args, room, maxlen, conv, t, left) && |t| > left;
      assert Reaches(fmt, i + 1, args, room - 1, maxlen, conv, t, left);
    }
    if Overruns(fmt, i + 1, args, room - 1, maxlen) {
      var conv, t, left :| Reaches(fmt, i + 1, args, room - 1, maxlen, conv, t, left) && |t| > left;
      assert Reaches(fmt, i, args, room, maxlen, conv, t, left);
    }
  }

  lemma ConversionOverruns(fmt: string, i: nat, args: seq<Arg>, room: int, maxlen: int, s: Spec)
    requires At(fmt, i) == '%' && room > 0 && s == FlagsThen(fmt, i + 1, FRESH, args)
    ensures Overruns(fmt, i, args, room, maxlen) <==> SpecOverruns(fmt, s, room, maxlen)
  {
    if Overruns(fmt, i, args, room, maxlen) {
      var conv, t, left :| Reaches(fmt, i, args, room, maxlen, conv, t, left) && |t| > left;
      assert SpecReaches(fmt, s, room, maxlen, conv, t, left);
    }
    if SpecOverruns(fmt, s, room, maxlen) {
      var conv, t, left :| SpecReaches(fmt, s, room, maxlen, conv, t, left) && |t| > left;
      assert Reaches(fmt, i, args, room, maxlen, conv, t, left);
    }
  }

  lemma {:induction false} SpecPasses(fmt: string, s: Spec, room: int, maxlen: int)
    requires room > 0 && AfterSpec(fmt, s, room, maxlen).Some?
    ensures |AfterSpec(fmt, s, room, maxlen).value| > room <==> SpecOverruns(fmt, s, room, maxlen)
    decreases if s.Spec? then |fmt| - s.next else 0, 2
  {
    if s.Spec? {
      var (u, rest) := Converted(s.p, s.conv, s.args, maxlen).value;
      PassesTheLimit(fmt, s.next, rest, room - |u|, maxlen);
      if |u| > room {
        assert SpecReaches(fmt, s, room, maxlen, s.conv, u, room);
      } else if Overruns(fmt, s.next, rest, room - |u|, maxlen) {
        var conv, t, left :| Reaches(fmt, s.next, rest, room - |u|, maxlen, conv, t, left) && |t| > left;
        assert SpecReaches(fmt, s, room, maxlen, conv, t, left);
      } else {
        forall conv, t, left | SpecReaches(fmt, s, room, maxlen, conv, t, left) ensures |t| <= left {
          assert (conv == s.conv && t == u && left == room) || Reaches(fmt, s.next, rest, room - |u|, maxlen, conv, t, left);
        }
      }
    }
  }

  /** There is always room for one character where a conversion is reached, and %c and %% put
      out just one: only another conversion can pass the limit. */
  lemma {:induction false} RoomWhereReached(
      fmt: string, i: nat, args: seq<Arg>, room: int, maxlen: int, conv: char, t: string, left: int)
    requires Reaches(fmt, i, args, room, maxlen, conv, t, left)
    ensures left > 0
    ensures |t| > left ==> conv != 'c' && conv != '%'
    decreases |fmt| - i, 1
  {
    if At(fmt, i) != '%' {
      RoomWhereReached(fmt, i + 1, args, room - 1, maxlen, conv, t, left);
    } else {
      FlagsGoOn(fmt, i + 1, FRESH, args);
      SpecRoom(fmt, FlagsThen(fmt, i + 1, FRESH, args), room, maxlen, conv, t, left);
    }
  }

  lemma {:induction false} SpecRoom(fmt: string, s: Spec, room: int, maxlen: int, conv: char, t: string, left: int)
    requires room > 0 && SpecReaches(fmt, s, room, maxlen, conv, t, left)
    ensures left > 0
    ensures |t| > left ==> conv != 'c' && conv != '%'
    decreases if s.Spec? then |fmt| - s.next else 0, 2
  {
    var (u, rest) := Converted(s.p, s.conv, s.args, maxlen).value;
    if conv == s.conv && t == u && left == room {
      OneCharacter(s.p, s.conv, s.args, maxlen);
    } else {
      RoomWhereReached(fmt, s.next, rest, room - |u|, maxlen, conv, t, left);
    }
  }

  lemma OneCharacter(p: Pending, conv: char, args: seq<Arg>, maxlen: int)
    requires Converted(p, conv, args, maxlen).Some?
    ensures conv == 'c' || conv == '%' ==> |Converted(p, conv, args, maxlen).value.0| == 1
  {
  }

  /** Nine characters where the limit is one. */
  lemma NineForOne()
    ensures Format("%9d", 0, [Word(0)], 1, 1).Some? && |Format("%9d", 0, [Word(0)], 1, 1).value| == 9
  {
    var fmt, args := "%9d", [Word(0)];
    var p := FRESH.(min := 9);
    assert Number(fmt, 1, 0) == (9, 2);
    assert FlagsThen(fmt, 1, FRESH, args) == Spec(p, 'd', 3, args);
    var t := IntText(0, 10, 9, -1, NO_FLAGS);
    assert ToLong(0) == 0 && args[1..] == [] && p.flags == NO_FLAGS && p.max == -1;
    assert IntConverted(p, 10, NO_FLAGS, args) == Some((t, []));
    assert Converted(p, 'd', args, 1) == Some((t, []));
    assert |t| == 9;
    assert Format(fmt, 3, [], 1 - 9, 1) == Some("");
    assert Format(fmt, 0, args, 1, 1) == Some(t + "");
  }

  // ----- the state machine -----

  /** The rest of a conversion, when the machine is in a state inside it. */
  function ParseFrom(st: State, fmt: string, i: nat, p: Pending, args: seq<Arg>): Spec
  {
    match st
    case Default => End
    case InFlags => FlagsThen(fmt, i, p, args)
    case InMin => WidthThen(fmt, i, p, args)
    case InDot => DotThen(fmt, i, p, args)
    case InMax => PrecisionThen(fmt, i, p, args)
    case InMod => ModifierThen(fmt, i, p, args)
    case InConv => Conversion(fmt, i, p, args)
  }

  /** A format that ends inside a conversion puts out nothing for it. */
  lemma EndsInside(st: State, fmt: string, i: nat, p: Pending, args: seq<Arg>)
    requires At(fmt, i) == END
    ensures ParseFrom(st, fmt, i, p, args) == End
  {
  }

  /** What is still to come when the machine is in state `st` at character i. */
  function Remaining(st: State, fmt: string, i: nat, p: Pending, args: seq<Arg>, room: int, maxlen: int): Option<string>
  {
    if st == Default then Format(fmt, i, args, room, maxlen)
    else AfterSpec(fmt, ParseFrom(st, fmt, i, p, args), room, maxlen)
  }

  function Rank(st: State): nat
  {
    match st
    case InFlags => 6 case InMin => 5 case InDot => 4 case InMax => 3 case InMod => 2 case InConv => 1 case Default => 0
  }

  /** One turn of the loop in a state between the `%` and the conversion character. */
  method ReadMore(st: State, fmt: string, i: nat, p: Pending, args: seq<Arg>)
    returns (st': State, i': nat, p': Pending, args': seq<Arg>, ok: bool)
    requires st != Default && st != InConv && At(fmt, i) != END
    ensures !ok ==> ParseFrom(st, fmt, i, p, args) == Bad
    ensures ok ==> st' != Default && ParseFrom(st', fmt, i', p', args') == ParseFrom(st, fmt, i, p, args)
    ensures ok ==> (i' == i + 1 <= |fmt| || (i' == i && Rank(st') < Rank(st)))
  {
    var ch := At(fmt, i);
    st', i', p', args', ok := st, i, p, args, true;
    match st
    case InFlags =>
      if IsFlag(ch) {
        p' := p.(flags := WithFlag(p.flags, ch));
        i' := i + 1;
      } else {
        st' := InMin;
      }
    case InMin =>
      if IsDecimal(ch) {
        p' := p.(min := 10 * p.min + Decimal(ch));
        i' := i + 1;
      } else if ch == '*' {
        if args == [] || !args[0].Word? { ok := false; return; }
        p' := p.(min := ToLong(args[0].v));
        args' := args[1..];
        i' := i + 1;
        st' := InDot;
      } else {
        st' := InDot;
      }
    case InDot =>
      if ch == '.' {
        st' := InMax;
        i' := i + 1;
      } else {
        st' := InMod;
      }
    case InMax =>
      if IsDecimal(ch) {
        var max := if p.max < 0 then 0 else p.max;
        p' := p.(max := 10 * max + Decimal(ch));
        i' := i + 1;
      } else if ch == '*' {
        if args == [] || !args[0].Word? { ok := false; return; }
        p' := p.(max := ToLong(args[0].v));
        args' := args[1..];
        i' := i + 1;
        st' := InMod;
      } else {
        st' := InMod;
      }
    case InMod =>
      st' := InConv;
      if ch == 'h' || ch == 'l' || ch == 'L' {
        p' := p.(mod := if ch == 'h' then Short else if ch == 'l' then Long else LongDouble);
        i' := i + 1;
      }
  }

  /** The conversion itself. */
  method Convert(out: Output, p: Pending, conv: char, args: seq<Arg>, maxlen: int)
    returns (ok: bool, args': seq<Arg>, ghost t: string)
    requires out.Valid()
    modifies out
    ensures out.Valid()
    ensures ok ==> Converted(p, conv, args, maxlen) == Some((t, args'))
    ensures ok ==> out.text == old(out.text) + t && out.currlen == old(out.currlen) + |t|
    ensures !ok ==> Converted(p, conv, args, maxlen) == None
  {
    ok, args', t := true, args, "";
    match conv
    case 'd' => ok, args', t := ConvertInt(out, p, 10, p.flags, args);
    case 'i' => ok, args', t := ConvertInt(out, p, 10, p.flags, args);
    case 'o' => ok, args', t := ConvertInt(out, p, 8, p.flags.(unsigned := true), args);
    case 'u' => ok, args', t := ConvertInt(out, p, 10, p.flags.(unsigned := true), args);
    case 'X' => ok, args', t := ConvertInt(out, p, 16, p.flags.(unsigned := true, up := true), args);
    case 'x' => ok, args', t := ConvertInt(out, p, 16, p.flags.(unsigned := true), args);
    case 'p' => ok, args', t := ConvertInt(out, p, 16, p.flags, args);
    case 'c' =>
      if args == [] || !args[0].Word? { ok := false; return; }
      t := [(args[0].v % 256) as char];
      out.Put((args[0].v % 256) as char);
      args' := args[1..];
    case 's' =>
      if args == [] || !args[0].Str? { ok := false; return; }
      var max := if p.max < 0 then maxlen else p.max;
      t := StrText(args[0].s, p.flags, p.min, max);
      out.FmtStr(args[0].s, p.flags, p.min, max);
      args' := args[1..];
    case '%' =>
      t := "%";
      out.Put('%');
    case _ => ok := !LeftOut(conv);
  }

  method ConvertInt(out: Output, p: Pending, radix: nat, flags: Flags, args: seq<Arg>)
    returns (ok: bool, args': seq<Arg>, ghost t: string)
    requires out.Valid() && 8 <= radix <= 16
    modifies out
    ensures out.Valid()
    ensures ok ==> IntConverted(p, radix, flags, args) == Some((t, args'))
    ensures ok ==> out.text == old(out.text) + t && out.currlen == old(out.currlen) + |t|
    ensures !ok ==> IntConverted(p, radix, flags, args) == None
  {
    if args == [] || !args[0].Word? || !Negatable(ToLong(args[0].v), flags) { return false, args, ""; }
    t := IntText(ToLong(args[0].v), radix, p.min, p.max, flags);
    out.FmtInt(ToLong(args[0].v), radix, p.min, p.max, flags);
    return true, args[1..], t;
  }

  /** After a turn that put out `t`: `was`, what was to come before it, is `t` and what is to come
      now. */
  ghost predicate Turned(was: Option<string>, t: string, st: State, fmt: string, i: nat, p: Pending,
                         args: seq<Arg>, room: int, maxlen: int)
  {
    was == Prefixed(t, Remaining(st, fmt, i, p, args, room, maxlen)) && (st == Default ==> p == FRESH) && (st != Default ==> t == "")
  }

  /** One turn outside a conversion. */
  method TurnDefault(out: Output, fmt: string, i: nat, args: seq<Arg>, maxlen: int, ghost was: Option<string>)
    returns (st': State, ghost t: string)
    requires out.Valid() && At(fmt, i) != END && out.currlen < maxlen
    requires was == Remaining(Default, fmt, i, FRESH, args, maxlen - out.currlen, maxlen)
    modifies out
    ensures out.Valid() && out.text == old(out.text) + t && out.currlen == old(out.currlen) + |t|
    ensures Turned(was, t, st', fmt, i + 1, FRESH, args, maxlen - out.currlen, maxlen)
  {
    var ch := At(fmt, i);
    if ch == '%' {
      Unprefixed(Remaining(InFlags, fmt, i + 1, FRESH, args, maxlen - out.currlen, maxlen));
      return InFlags, "";
    } else {
      out.Put(ch);
      return Default, [ch];
    }
  }

  /** The turn that converts. */
  method TurnConvert(out: Output, fmt: string, i: nat, p: Pending, args: seq<Arg>, maxlen: int, ghost was: Option<string>)
    returns (ok: bool, args': seq<Arg>, ghost t: string)
    requires out.Valid() && At(fmt, i) != END
    requires was == Remaining(InConv, fmt, i, p, args, maxlen - out.currlen, maxlen)
    modifies out
    ensures out.Valid() && (!ok ==> was == None)
    ensures ok ==> out.text == old(out.text) + t && out.currlen == old(out.currlen) + |t|
    ensures ok ==> Turned(was, t, Default, fmt, i + 1, FRESH, args', maxlen - out.currlen, maxlen)
  {
    ghost var room := maxlen - out.currlen;
    ok, args', t := Convert(out, p, At(fmt, i), args, maxlen);
    ConversionRemains(fmt, i, p, args, room, maxlen);
  }

  lemma ConversionRemains(fmt: string, i: nat, p: Pending, args: seq<Arg>, room: int, maxlen: int)
    requires At(fmt, i) != END
    ensures var c := Converted(p, At(fmt, i), args, maxlen);
      Remaining(InConv, fmt, i, p, args, room, maxlen)
      == if c.None? then None else Prefixed(c.value.0, Remaining(Default, fmt, i + 1, FRESH, c.value.1, room - |c.value.0|, maxlen))
  {
  }

  /** A turn inside a conversion changes nothing that is to come. */
  method TurnInside(st: State, fmt: string, i: nat, p: Pending, args: seq<Arg>, ghost room: int, ghost maxlen: int,
                    ghost was: Option<string>)
    returns (ok: bool, st': State, i': nat, p': Pending, args': seq<Arg>)
    requires st != Default && st != InConv && At(fmt, i) != END && was == Remaining(st, fmt, i, p, args, room, maxlen)
    ensures !ok ==> was == None
    ensures ok ==> i' == i + 1 || (i' == i && Rank(st') < Rank(st))
    ensures ok ==> Turned(was, "", st', fmt, i', p', args', room, maxlen)
  {
    ghost var s := ParseFrom(st, fmt, i, p, args);
    SameSpec(st, fmt, i, p, args, room, maxlen, s);
    st', i', p', args', ok := ReadMore(st, fmt, i, p, args);
    if ok {
      SameSpec(st', fmt, i', p', args', room, maxlen, s);
      Unprefixed(AfterSpec(fmt, s, room, maxlen));
    }
  }

  /** One turn of the loop. */
  method Turn(out: Output, st: State, fmt: string, i: nat, p: Pending, args: seq<Arg>, maxlen: int, ghost was: Option<string>)
    returns (ok: bool, st': State, i': nat, p': Pending, args': seq<Arg>, ghost t: string)
    requires out.Valid() && At(fmt, i) != END && out.currlen < maxlen && (st == Default ==> p == FRESH)
    requires was == Remaining(st, fmt, i, p, args, maxlen - out.currlen, maxlen)
    modifies out
    ensures out.Valid() && (!ok ==> was == None)
    ensures ok ==> out.text == old(out.text) + t && out.currlen == old(out.currlen) + |t|
    ensures ok ==> i' == i + 1 || (i' == i && Rank(st') < Rank(st))
    ensures ok ==> Turned(was, t, st', fmt, i', p', args', maxlen - out.currlen, maxlen)
  {
    ok, st', i', p', args' := true, Default, i + 1, FRESH, args;
    if st == Default {
      st', t := TurnDefault(out, fmt, i, args, maxlen, was);
    } else if st == InConv {
      ok, args', t := TurnConvert(out, fmt, i, p, args, maxlen, was);
    } else {
      t := "";
      ok, st', i', p', args' := TurnInside(st, fmt, i, p, args, maxlen - out.currlen, maxlen, was);
    }
  }

  /** What holds before every turn: `done` has been put out, and with what remains it makes up
      `whole`. */
  ghost predicate Stands(out: Output, before: string, done: string, st: State, fmt: string, i: nat, p: Pending,
                         args: seq<Arg>, maxlen: int, whole: Option<string>)
    reads out
  {
    && out.Valid() && out.text == before + done && out.currlen == |done| && i <= |fmt|
    && (st == Default ==> p == FRESH) && (st != Default ==> out.currlen < maxlen)
    && Prefixed(done, Remaining(st, fmt, i, p, args, maxlen - |done|, maxlen)) == whole
  }

  /** The body of dopr's loop. */
  method Go(out: Output, st: State, fmt: string, i: nat, p: Pending, args: seq<Arg>, maxlen: int,
            ghost before: string, ghost done: string, ghost whole: Option<string>)
    returns (ok: bool, st': State, i': nat, p': Pending, args': seq<Arg>, ghost done': string)
    requires Stands(out, before, done, st, fmt, i, p, args, maxlen, whole) && At(fmt, i) != END && out.currlen < maxlen
    modifies out
    ensures !ok ==> out.Valid() && whole == None
    ensures ok ==> Stands(out, before, done', st', fmt, i', p', args', maxlen, whole)
    ensures ok ==> |fmt| - i' < |fmt| - i || (i' == i && Rank(st') < Rank(st))
  {
    ghost var t;
    ok, st', i', p', args', t := Turn(out, st, fmt, i, p, args, maxlen, Remaining(st, fmt, i, p, args, maxlen - |done|, maxlen));
    done' := done + t;
    if ok { Prefixes(done, t, Remaining(st', fmt, i', p', args', maxlen - |done'|, maxlen)); }
  }

  /** dopr: it puts out exactly what the grammar says the format means, counts it, and stops;
      the count passes the limit exactly when a conversion overruns the room it finds. */
  method Dopr(out: Output, maxlen: int, fmt: string, args0: seq<Arg>) returns (ok: bool)
    requires out.Valid() && out.currlen == 0
    modifies out
    ensures out.Valid()
    ensures ok <==> Format(fmt, 0, args0, maxlen, maxlen).Some?
    ensures ok ==>
              var t := Format(fmt, 0, args0, maxlen, maxlen).value;
              out.text == old(out.text) + t && out.currlen == |t|
    ensures ok ==> (out.currlen > Max(maxlen, 0) <==> Overruns(fmt, 0, args0, maxlen, maxlen))
  {
    var st, i, p, args := Default, 0, FRESH, args0;
    ghost var done: string := "";
    ghost var whole := Format(fmt, 0, args0, maxlen, maxlen);
    Unprefixed(whole);
    while true
      invariant Stands(out, old(out.text), done, st, fmt, i, p, args, maxlen, whole)
      decreases |fmt| - i, Rank(st)
    {
      if At(fmt, i) == END || out.currlen >= maxlen {
        Stopped(out, old(out.text), done, st, fmt, i, p, args, maxlen, whole);
        PassesTheLimit(fmt, 0, args0, maxlen, maxlen);
        return true;
      }
      ok, st, i, p, args, done := Go(out, st, fmt, i, p, args, maxlen, old(out.text), done, whole);
      if !ok { return; }
    }
  }

  lemma Stopped(out: Output, before: string, done: string, st: State, fmt: string, i: nat, p: Pending,
                args: seq<Arg>, maxlen: int, whole: Option<string>)
    requires Stands(out, before, done, st, fmt, i, p, args, maxlen, whole) && (At(fmt, i) == END || out.currlen >= maxlen)
    ensures out.Valid() && whole == Some(done) && out.text == before + done && out.currlen == |done|
  {
    NothingRemains(st, fmt, i, p, args, maxlen - |done|, maxlen);
    assert done + "" == done;
  }

  lemma SameSpec(st: State, fmt: string, i: nat, p: Pending, args: seq<Arg>, room: int, maxlen: int, s: Spec)
    requires st != Default && ParseFrom(st, fmt, i, p, args) == s
    ensures Remaining(st, fmt, i, p, args, room, maxlen) == AfterSpec(fmt, s, room, maxlen)
  {
  }

  lemma NothingRemains(st: State, fmt: string, i: nat, p: Pending, args: seq<Arg>, room: int, maxlen: int)
    requires At(fmt, i) == END || (st == Default && room <= 0)
    ensures Remaining(st, fmt, i, p, args, room, maxlen) == Some("")
  {
    if st != Default { EndsInside(st, fmt, i, p, args); }
  }

  lemma Unprefixed(r: Option<string>)
    ensures Prefixed("", r) == r
  {
    if r.Some? { assert "" + r.value == r.value; }
  }

  lemma Prefixes(a: string, b: string, r: Option<string>)
    ensures Prefixed(a, Prefixed(b, r)) == Prefixed(a + b, r)
  {
    if r.Some? { assert a + (b + r.value) == a + b + r.value; }
  }
}
