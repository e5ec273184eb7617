/** The format interpreter of lib/vsprintf.c. A C string is the characters before its NUL. */
module Vsprintf {
  import opened Words
  import opened Numerals

  // --------------------------------------------------------------- reference

  /** An argument as va_arg finds it: a 32-bit word, or a pointer to a string, null or not. */
  datatype Arg = WordArg(w: nat) | StrArg(s: Option<string>)

  datatype Directive =
    | Literal(c: char)
    | Conversion(zero: bool, width: int, conv: char)

  /** The end of the run of characters from i on that satisfy p. */
  function SkipZeros(s: string, i: nat): (j: nat)
    requires i <= |s|
    ensures i <= j <= |s|
    decreases |s| - i
  {
    if i < |s| && s[i] == '0' then SkipZeros(s, i + 1) else i
  }

  function SkipDigits(s: string, i: nat): (j: nat)
    requires i <= |s|
    ensures i <= j <= |s| && forall k :: i <= k < j ==> IsDigitChar(s[k])
    ensures j < |s| ==> !IsDigitChar(s[j])
    decreases |s| - i
  {
    if i < |s| && IsDigitChar(s[i]) then SkipDigits(s, i + 1) else i
  }

  predicate IsPrefix(c: char) { c == 'l' || c == 'L' || c == 'h' }

  /** The directives of fmt from i on; None when one of them is cut off by the end of the string. */
  function Parse(fmt: string, i: nat): Option<seq<Directive>>
    requires i <= |fmt|
    decreases |fmt| - i
  {
    if i == |fmt| then Some([])
    else if fmt[i] != '%' then Prepend(Literal(fmt[i]), Parse(fmt, i + 1))
    else
      var z := SkipZeros(fmt, i + 1);
      var d := SkipDigits(fmt, z);
      var p := if d < |fmt| && IsPrefix(fmt[d]) then d + 1 else d;
      if p == |fmt| then None else
      Prepend(Conversion(z > i + 1, ToInt32(Value(fmt[z..d], 10)), fmt[p]), Parse(fmt, p + 1))
  }

  function Prepend(d: Directive, rest: Option<seq<Directive>>): Option<seq<Directive>> {
    match rest
    case None => None
    case Some(ds) => Some([d] + ds)
  }

  predicate TakesWord(d: Directive) { d.Conversion? && d.conv in "cdiuoxXp" }

  predicate TakesString(d: Directive) { d.Conversion? && d.conv == 's' }

  /** The flags a directive leaves for itself and all that follow: both are only ever set. */
  function FlagsAfter(f: Flags, d: Directive): Flags {
    if d.Literal? then f else Flags(f.zeropad || d.zero, f.lowercase || d.conv == 'x')
  }

  /** A signed number: a sign and the digits of its absolute value as an unsigned word. */
  function Signed(w: nat, width: int, f: Flags): string {
    var n := ToInt32(w);
    if n < 0 then "-" + Number(Wrap(ToInt32(-n)), 10, width, f) else Number(Wrap(n), 10, width, f)
  }

  function RenderWord(conv: char, w: nat, width: int, f: Flags): string {
    if conv == 'c' then [(w % 256) as char]
    else if conv == 'd' || conv == 'i' then Signed(w, width, f)
    else if conv == 'u' then Number(Wrap(ToInt32(w)), 10, width, f)
    else if conv == 'o' then Number(Wrap(ToInt32(w)), 8, width, f)
    else if conv == 'p' then Number(Wrap(ToInt32(w)), 16, 8, f)
    else Number(Wrap(ToInt32(w)), 16, width, f)
  }

  /** Arguments a directive takes, and whether they are there and of the right kind. */
  function Takes(d: Directive): nat { if TakesWord(d) || TakesString(d) then 1 else 0 }

  predicate Fits(d: Directive, args: seq<Arg>) {
    if TakesWord(d) then args != [] && args[0].WordArg? && args[0].w < TWO32
    else if TakesString(d) then args != [] && args[0].StrArg?
    else true
  }

  predicate Matches(ds: seq<Directive>, args: seq<Arg>) {
    ds == [] || (Fits(ds[0], args) && Matches(ds[1..], args[Takes(ds[0])..]))
  }

  /** A null string pointer prints nothing: its strlen is 0. */
  function Text(s: Option<string>): string { if s.Some? then s.value else "" }

  /** What one directive prints; f are the flags after it. A conversion not known prints nothing. */
  function Rendering(d: Directive, f: Flags, args: seq<Arg>): string
    requires Fits(d, args)
  {
    if d.Literal? then [d.c]
    else if TakesWord(d) then RenderWord(d.conv, args[0].w, d.width, f)
    else if TakesString(d) then Text(args[0].s)
    else ""
  }

  /** The concatenation of the renderings, the flags carried along. */
  function Render(ds: seq<Directive>, f: Flags, args: seq<Arg>): string
    requires Matches(ds, args)
  {
    if ds == [] then "" else
    var f' := FlagsAfter(f, ds[0]);
    Rendering(ds[0], f', args) + Render(ds[1..], f', args[Takes(ds[0])..])
  }

  /** Flags and argument count after several directives. */
  function FlagsAfterAll(f: Flags, ds: seq<Directive>): Flags
    decreases |ds|
  {
    if ds == [] then f else FlagsAfterAll(FlagsAfter(f, ds[0]), ds[1..])
  }

  function TakesAll(ds: seq<Directive>): nat {
    if ds == [] then 0 else Takes(ds[0]) + TakesAll(ds[1..])
  }

  lemma FitsTakes(d: Directive, args: seq<Arg>)
    requires Fits(d, args)
    ensures Takes(d) <= |args|
  {
  }

  lemma Assoc(a: string, b: string, c: string)
    ensures a + (b + c) == a + b + c
  {
  }

  /** A format is rendered piece by piece, but not independently: the second piece starts with the
      arguments the first left over, one for every value directive, and with its flags. */
  lemma {:induction false} RenderConcat(a: seq<Directive>, b: seq<Directive>, f: Flags, args: seq<Arg>)
    requires Matches(a + b, args)
    ensures Matches(a, args) && TakesAll(a) <= |args| && Matches(b, args[TakesAll(a)..])
    ensures Render(a + b, f, args) == Render(a, f, args) + Render(b, FlagsAfterAll(f, a), args[TakesAll(a)..])
  {
    hide Fits, Rendering, FlagsAfter, Takes;
    if a == [] {
      assert a + b == b && args[0..] == args;
      assert "" + Render(b, f, args) == Render(b, f, args);
    } else {
      var f', n := FlagsAfter(f, a[0]), Takes(a[0]);
      assert (a + b)[1..] == a[1..] + b;
      FitsTakes(a[0], args);
      RenderConcat(a[1..], b, f', args[n..]);
      assert args[n..][TakesAll(a[1..])..] == args[TakesAll(a)..];
      Assoc(Rendering(a[0], f', args), Render(a[1..], f', args[n..]),
            Render(b, FlagsAfterAll(f', a[1..]), args[TakesAll(a)..]));
    }
  }

  /** Once set a flag stays: after any directive with a 0 flag every later number is padded to its
      width, and after any %x every later %X is printed in lower case. */
  lemma {:induction false} FlagsStay(ds: seq<Directive>, f: Flags)
    ensures FlagsAfterAll(f, ds).zeropad <==> f.zeropad || exists d :: d in ds && d.Conversion? && d.zero
    ensures FlagsAfterAll(f, ds).lowercase <==> f.lowercase || exists d :: d in ds && d.Conversion? && d.conv == 'x'
    decreases |ds|
  {
    if ds == [] {
    } else {
      FlagsStay(ds[1..], FlagsAfter(f, ds[0]));
      assert forall d :: d in ds <==> d == ds[0] || d in ds[1..];
    }
  }

  /** The unsigned conversions print the word in their base. */
  lemma UnsignedMeans(w: nat, width: int, f: Flags)
    requires w < TWO32 && 0 <= width <= INT32_MAX
    ensures Value(RenderWord('u', w, width, f), 10) == w && Value(RenderWord('o', w, width, f), 8) == w
    ensures Value(RenderWord('x', w, width, f), 16) == w && Value(RenderWord('p', w, width, f), 16) == w
  {
    hide Number, Value;
    assert Wrap(ToInt32(w)) == w;
    hide ToInt32, Wrap;
    NumberMeans(w, 10, width, f);
    NumberMeans(w, 8, width, f);
    NumberMeans(w, 16, width, f);
    NumberMeans(w, 16, 8, f);
  }

  /** The signed conversion prints a minus sign, if the word is negative as an int, and then the
      magnitude, also for INT_MIN. */
  lemma SignedMeans(w: nat, width: int, f: Flags)
    requires w < TWO32 && 0 <= width <= INT32_MAX
    ensures var n, s := ToInt32(w), RenderWord('d', w, width, f);
            if n < 0 then s != "" && s[0] == '-' && Value(s[1..], 10) == -n else Value(s, 10) == n
  {
    hide Number, Value;
    var n := ToInt32(w);
    assert n < 0 ==> Wrap(ToInt32(-n)) == -n;
    assert n >= 0 ==> Wrap(n) == n;
    hide ToInt32, Wrap;
    NumberMeans(if n < 0 then -n else n, 10, width, f);
    if n < 0 {
      var s := Number(-n, 10, width, f);
      assert ("-" + s)[1..] == s;
    }
  }

  /** A format without '%' prints itself. */
  lemma {:induction false} PlainText(fmt: string, i: nat, f: Flags)
    requires i <= |fmt| && forall k :: i <= k < |fmt| ==> fmt[k] != '%'
    ensures Parse(fmt, i).Some? && Matches(Parse(fmt, i).value, [])
    ensures Render(Parse(fmt, i).value, f, []) == fmt[i..]
    decreases |fmt| - i
  {
    if i < |fmt| {
      PlainText(fmt, i + 1, f);
      var rest := Parse(fmt, i + 1).value;
      var d := Literal(fmt[i]);
      assert Parse(fmt, i) == Some([d] + rest) && ([d] + rest)[1..] == rest;
      assert fmt[i..] == [fmt[i]] + fmt[i + 1..];
    }
  }

  // ----------------------------------------------------------------- reading

  lemma Int32Step(x: int, d: int)
    ensures ToInt32(ToInt32(x) * 10 + d) == ToInt32(x * 10 + d)
  {
    var k := (x - ToInt32(x)) / TWO32;
    assert x - ToInt32(x) == TWO32 * k;
    assert x * 10 + d == ToInt32(x) * 10 + d + TWO32 * (10 * k);
    Int32Shift(ToInt32(x) * 10 + d, 10 * k);
  }

  lemma Int32Shift(x: int, k: int)
    ensures ToInt32(x + TWO32 * k) == ToInt32(x)
  {
  }

  /** atoi_mod: reads the digits at pos and moves past them; the number wraps as an int does. */
  method AtoiMod(s: string, pos: nat) returns (res: int, pos': nat)
    requires pos <= |s|
    ensures pos' == SkipDigits(s, pos) && res == ToInt32(Value(s[pos..pos'], 10))
  {
    res, pos' := 0, pos;
    while pos' < |s| && IsDigitChar(s[pos'])
      invariant pos <= pos' <= |s| && SkipDigits(s, pos') == SkipDigits(s, pos)
      invariant res == ToInt32(Value(s[pos..pos'], 10))
    {
      ghost var t := s[pos..pos' + 1];
      assert t[..|t| - 1] == s[pos..pos'];
      Int32Step(Value(s[pos..pos'], 10), s[pos'] as int - '0' as int);
      res := ToInt32(res * 10 + s[pos'] as int - '0' as int);
      pos' := pos' + 1;
    }
  }

  lemma {:induction false} DigitsRun(s: string, i: nat, j: nat)
    requires i <= j <= |s| && (forall k :: i <= k < j ==> IsDigitChar(s[k])) && (j < |s| ==> !IsDigitChar(s[j]))
    ensures SkipDigits(s, i) == j
    decreases j - i
  {
    if i < j {
      DigitsRun(s, i + 1, j);
    }
  }

  lemma NumeralRead(d: string, rest: string)
    requires IsNumeral(d, 10) && (rest != "" ==> !IsDigitChar(rest[0]))
    ensures SkipDigits(d + rest, 0) == |d| && (d + rest)[0..|d|] == d
  {
    var s := d + rest;
    forall k | 0 <= k < |d| ensures IsDigitChar(s[k]) {
      assert DigitValue(d[k]) < 10;
    }
    DigitsRun(s, 0, |d|);
  }

  /** Reading back a number printed in base 10 gives the number as an int, so exactly the number
      up to INT32_MAX; padding does not matter. */
  lemma ReadBack(n: nat, width: int, f: Flags, rest: string)
    requires n < TWO32 && 0 <= width <= INT32_MAX && (rest != "" ==> !IsDigitChar(rest[0]))
    ensures var s := Number(n, 10, width, f) + rest;
            && SkipDigits(s, 0) == |s| - |rest|
            && ToInt32(Value(s[0..|s| - |rest|], 10)) == ToInt32(n)
            && (n <= INT32_MAX <==> ToInt32(n) == n)
  {
    hide Number, Value, Digits, SkipDigits;
    NumberMeans(n, 10, width, f);
    NumeralRead(Number(n, 10, width, f), rest);
  }

  // --------------------------------------------------- formats and directives

  /** A directive as a programmer writes it, perhaps with a length prefix. */
  datatype Written = Written(d: Directive, prefix: string)

  predicate CanWrite(w: Written) {
    match w.d
    case Literal(c) => c != '%'
    case Conversion(_, width, conv) =>
      && 0 <= width <= INT32_MAX && !('0' <= conv <= '9') && conv != 'l' && conv != 'L' && conv != 'h'
      && (w.prefix == "" || w.prefix == "l" || w.prefix == "L" || w.prefix == "h")
  }

  function Spelling(w: Written): string
    requires CanWrite(w)
  {
    match w.d
    case Literal(c) => [c]
    case Conversion(zero, width, conv) =>
      "%" + (if zero then "0" else "") + Raw(width, 10, false) + w.prefix + [conv]
  }

  function Spell(ws: seq<Written>): string
    requires forall w :: w in ws ==> CanWrite(w)
  {
    if ws == [] then "" else Spelling(ws[0]) + Spell(ws[1..])
  }

  function Meant(ws: seq<Written>): (ds: seq<Directive>)
    ensures |ds| == |ws|
  {
    seq(|ws|, (i: int) requires 0 <= i < |ws| => ws[i].d)
  }

  /** s has t at position i. */
  ghost predicate Has(s: string, i: nat, t: string) {
    i + |t| <= |s| && s[i..i + |t|] == t
  }

  lemma HasParts(s: string, i: nat, a: string, b: string)
    requires Has(s, i, a + b)
    ensures Has(s, i, a) && Has(s, i + |a|, b)
  {
    assert s[i..i + |a|] == (a + b)[..|a|];
    assert s[i + |a|..i + |a| + |b|] == (a + b)[|a|..];
  }

  lemma HasAt(s: string, i: nat, t: string, k: nat)
    requires Has(s, i, t) && k < |t|
    ensures s[i + k] == t[k]
  {
    assert s[i + k] == s[i..i + |t|][k];
  }

  lemma HasSlice(s: string, i: nat, t: string)
    requires Has(s, i, t)
    ensures i + |t| <= |s| && s[i..i + |t|] == t
  {
  }

  /** A width with no leading zero is read from its digits and nothing else. */
  lemma WidthParses(s: string, i: nat, width: nat, after: char)
    requires Has(s, i, Raw(width, 10, false)) && Has(s, i + |Raw(width, 10, false)|, [after]) && !IsDigitChar(after)
    ensures var d := i + |Raw(width, 10, false)|;
            SkipDigits(s, i) == d && i <= d < |s| && Value(s[i..d], 10) == width && s[i] != '0'
  {
    hide Raw, Value, Has;
    var digits := Raw(width, 10, false);
    RawFacts(width, 10, false);
    HasSlice(s, i, digits);
    HasAt(s, i + |digits|, [after], 0);
    HasSlice(s, i + |digits|, [after]);
    forall k | i <= k < i + |digits| ensures s[k] == digits[k - i] && IsDigitChar(s[k]) {
      HasAt(s, i, digits, k - i);
      assert DigitValue(digits[k - i]) < 10;
    }
    DigitsRun(s, i, i + |digits|);
  }

  lemma SpellingIs(w: Written)
    requires CanWrite(w) && w.d.Conversion?
    ensures w.d.width >= 0
    ensures var flag := if w.d.zero then "0" else "";
            Spelling(w) == "%" + flag + Raw(w.d.width, 10, false) + w.prefix + [w.d.conv]
  {
    hide Raw;
  }

  /** The pieces of a spelled conversion at position i. */
  lemma ConversionPieces(s: string, i: nat, w: Written)
    requires CanWrite(w) && w.d.Conversion? && Has(s, i, Spelling(w))
    ensures var z := i + 1 + if w.d.zero then 1 else 0;
            var d := z + |Raw(w.d.width, 10, false)|;
            && d + |w.prefix| + 1 == i + |Spelling(w)| <= |s|
            && s[i] == '%' && (w.d.zero ==> s[i + 1] == '0')
            && Has(s, z, Raw(w.d.width, 10, false))
            && (w.prefix != "" ==> s[d] == w.prefix[0]) && s[d + |w.prefix|] == w.d.conv
  {
    hide *;
    SpellingIs(w);
    var flag, digits := if w.d.zero then "0" else "", Raw(w.d.width, 10, false);
    HasSlice(s, i, Spelling(w));
    HasParts(s, i, "%" + flag + digits + w.prefix, [w.d.conv]);
    HasAt(s, i + 1 + |flag| + |digits| + |w.prefix|, [w.d.conv], 0);
    HasParts(s, i, "%" + flag + digits, w.prefix);
    if w.prefix != "" { HasAt(s, i + 1 + |flag| + |digits|, w.prefix, 0); }
    HasParts(s, i, "%" + flag, digits);
    HasParts(s, i, "%", flag);
    HasAt(s, i, "%", 0);
    if w.d.zero { HasAt(s, i + 1, "0", 0); }
  }

  /** One directive read back from its spelling. */
  lemma DirectiveParses(s: string, i: nat, w: Written)
    requires CanWrite(w) && Has(s, i, Spelling(w))
    ensures i + |Spelling(w)| <= |s| && Parse(s, i) == Prepend(w.d, Parse(s, i + |Spelling(w)|))
  {
    hide *;
    match w.d {
      case Literal(c) => LiteralParses(s, i, w);
      case Conversion(_, _, _) => ConversionParses(s, i, w);
    }
  }

  lemma LiteralParses(s: string, i: nat, w: Written)
    requires CanWrite(w) && w.d.Literal? && Has(s, i, Spelling(w))
    ensures i + |Spelling(w)| <= |s| && Parse(s, i) == Prepend(w.d, Parse(s, i + |Spelling(w)|))
  {
    hide Has;
    HasSlice(s, i, [w.d.c]);
    HasAt(s, i, [w.d.c], 0);
  }

  lemma ConversionParses(s: string, i: nat, w: Written)
    requires CanWrite(w) && w.d.Conversion? && Has(s, i, Spelling(w))
    ensures i + |Spelling(w)| <= |s| && Parse(s, i) == Prepend(w.d, Parse(s, i + |Spelling(w)|))
  {
    hide Raw, Has, Value, Parse, ToInt32, Spelling, SkipDigits;
    ConversionPieces(s, i, w);
    var z := i + 1 + if w.d.zero then 1 else 0;
    var d := z + |Raw(w.d.width, 10, false)|;
    HasChar(s, d);
    WidthParses(s, z, w.d.width, s[d]);
    assert SkipZeros(s, i + 1) == z;
    Int32Is(w.d.width);
    ParseSpec(s, i, z, d, w.d.width, w.d.conv);
  }

  lemma HasChar(s: string, d: nat)
    requires d < |s|
    ensures Has(s, d, [s[d]])
  {
  }

  lemma ParseSpec(s: string, i: nat, z: nat, d: nat, width: int, conv: char)
    requires i < |s| && s[i] == '%' && z == SkipZeros(s, i + 1) && d == SkipDigits(s, z)
    requires ToInt32(Value(s[z..d], 10)) == width
    requires var p := if d < |s| && IsPrefix(s[d]) then d + 1 else d;
             p < |s| && s[p] == conv
    ensures var p := if d < |s| && IsPrefix(s[d]) then d + 1 else d;
            Parse(s, i) == Prepend(Conversion(z > i + 1, width, conv), Parse(s, p + 1))
  {
  }

  lemma SuffixHas(s: string, i: nat, t: string, rest: string)
    requires i <= |s| && s[i..] == t + rest
    ensures Has(s, i, t) && i + |t| <= |s| && s[i + |t|..] == rest
  {
    assert s[i..i + |t|] == s[i..][..|t|];
    assert s[i + |t|..] == s[i..][|t|..];
  }

  /** The format string a programmer would write for any directives is read as those directives,
      length prefixes ignored. */
  lemma {:induction false} SpellingParses(s: string, i: nat, ws: seq<Written>)
    requires forall w :: w in ws ==> CanWrite(w)
    requires i <= |s| && s[i..] == Spell(ws)
    ensures Parse(s, i) == Some(Meant(ws))
    decreases |ws|
  {
    hide *;
    if ws == [] {
      SpellsNothing(s, i, ws);
    } else {
      SpellFirst(ws);
      var t, rest := Spelling(ws[0]), Spell(ws[1..]);
      SuffixHas(s, i, t, rest);
      DirectiveParses(s, i, ws[0]);
      SpellingParses(s, i + |t|, ws[1..]);
    }
  }

  lemma SpellsNothing(s: string, i: nat, ws: seq<Written>)
    requires ws == [] && i <= |s| && s[i..] == Spell(ws)
    ensures Parse(s, i) == Some(Meant(ws))
  {
  }

  lemma SpellFirst(ws: seq<Written>)
    requires ws != [] && forall w :: w in ws ==> CanWrite(w)
    ensures CanWrite(ws[0]) && (forall w :: w in ws[1..] ==> CanWrite(w))
    ensures Spell(ws) == Spelling(ws[0]) + Spell(ws[1..])
    ensures Prepend(ws[0].d, Some(Meant(ws[1..]))) == Some(Meant(ws))
  {
    hide Spelling, CanWrite;
    assert Meant(ws) == [ws[0].d] + Meant(ws[1..]);
  }

  // ----------------------------------------------------------------- writing

  /** buf holds what before held up to str, then out, then what before held. */
  ghost predicate Wrote(before: seq<char>, buf: seq<char>, str: nat, out: string) {
    |buf| == |before| && str + |out| <= |before| && buf == before[..str] + out + before[str + |out|..]
  }

  lemma WroteOne(before: seq<char>, buf: seq<char>, str: nat, out: string, c: char)
    requires Wrote(before, buf, str, out) && str + |out| < |before|
    ensures Wrote(before, buf[str + |out| := c], str, out + [c])
  {
  }

  function Reverse(s: string): (r: string)
    ensures |r| == |s|
  {
    if s == "" then "" else [s[|s| - 1]] + Reverse(s[..|s| - 1])
  }

  lemma Reversed(s: string, c: char)
    ensures Reverse(s + [c]) == [c] + Reverse(s)
  {
    assert (s + [c])[..|s|] == s;
  }

  lemma RawUnfold(n: nat, base: nat, lowercase: bool)
    requires 2 <= base <= 16 && n > 0
    ensures Quotient(n, base) < n
    ensures Raw(n, base, lowercase) ==
            Raw(Quotient(n, base), base, lowercase) + [DigitChar(Remainder(n, base), lowercase)]
  {
    hide Quotient, Remainder;
  }

  /** The text written so far and the text to come make up the whole. */
  ghost predicate Makes(out: string, rest: string, whole: string) { out + rest == whole }

  lemma MakesMore(out: string, text: string, rest: string, whole: string)
    requires Makes(out, rest, whole) && |text| <= |rest| && rest[..|text|] == text
    ensures Makes(out + text, rest[|text|..], whole) && |out + text| <= |whole|
  {
    assert out + text + rest[|text|..] == out + rest;
  }

  lemma MakesReversed(out: string, s: string, whole: string)
    requires Makes(out, Reverse(s), whole) && s != ""
    ensures Makes(out + [s[|s| - 1]], Reverse(s[..|s| - 1]), whole)
  {
    Assoc(out, [s[|s| - 1]], Reverse(s[..|s| - 1]));
  }

  lemma MakesShift(out: string, c: char, rest: string, whole: string)
    requires Makes(out + [c], rest, whole)
    ensures Makes(out, [c] + rest, whole)
  {
    Assoc(out, [c], rest);
  }

  lemma DigitsStep(n: nat, base: nat, lowercase: bool, t: string, whole: string)
    requires 2 <= base <= 16 && n > 0 && Makes(Raw(n, base, lowercase), Reverse(t), whole)
    ensures Quotient(n, base) < n
    ensures Makes(Raw(Quotient(n, base), base, lowercase), Reverse(t + [DigitChar(Remainder(n, base), lowercase)]),
                  whole)
  {
    hide Makes, Quotient, Remainder;
    RawUnfold(n, base, lowercase);
    Reversed(t, DigitChar(Remainder(n, base), lowercase));
    MakesShift(Raw(Quotient(n, base), base, lowercase), DigitChar(Remainder(n, base), lowercase), Reverse(t), whole);
  }

  lemma MakesLength(out: string, rest: string, whole: string)
    requires Makes(out, rest, whole)
    ensures |out| + |rest| == |whole|
  {
  }

  lemma MakesNothing(out: string, rest: string, whole: string)
    requires Makes(out, rest, whole) && out == ""
    ensures rest == whole
  {
    assert "" + rest == rest;
  }

  lemma MakesStart(whole: string, s: string)
    requires s == ""
    ensures Makes(whole, Reverse(s), whole)
  {
    assert whole + "" == whole;
  }

  lemma MakesFrom(whole: string)
    ensures Makes("", whole, whole) && Zeros(0) == ""
  {
    assert "" + whole == whole;
  }

  lemma MakesAll(out: string, rest: string, whole: string)
    requires Makes(out, rest, whole) && rest == ""
    ensures out == whole
  {
    assert out + "" == out;
  }

  /** The division loop of itoa_base. */
  method FillDigits(temp: array<char>, num: nat, base: nat, lowercase: bool) returns (numWidth: nat)
    requires temp.Length == 32 && num < TWO32 && 2 <= base <= 16
    modifies temp
    ensures numWidth <= 32 && Reverse(temp[..numWidth]) == Raw(num, base, lowercase)
  {
    hide *;
    numWidth := 0;
    ghost var whole := Raw(num, base, lowercase);
    RawFits(num, base, lowercase);
    MakesStart(whole, temp[..0]);
    var n: nat := num;
    while n != 0
      invariant numWidth <= 32
      invariant Makes(Raw(n, base, lowercase), Reverse(temp[..numWidth]), whole)
      decreases n
    {
      ghost var t := temp[..numWidth];
      DigitsStep(n, base, lowercase, t, whole);
      MakesLength(Raw(n, base, lowercase), Reverse(t), whole);
      temp[numWidth] := DigitChar(Remainder(n, base), lowercase);
      assert temp[..numWidth + 1] == t + [DigitChar(Remainder(n, base), lowercase)];
      numWidth, n := numWidth + 1, Quotient(n, base);
    }
    MakesNothing(Raw(n, base, lowercase), Reverse(temp[..numWidth]), whole);
  }

  /** The digits of num in temp_buf, least significant first; 32 slots are always enough. */
  method FillTemp(temp: array<char>, num: nat, base: nat, lowercase: bool) returns (numWidth: nat)
    requires temp.Length == 32 && num < TWO32 && 2 <= base <= 16
    modifies temp
    ensures 1 <= numWidth <= 32 && Reverse(temp[..numWidth]) == Digits(num, base, lowercase)
  {
    if num == 0 {
      temp[0] := '0';
      return 1;
    }
    numWidth := FillDigits(temp, num, base, lowercase);
  }

  lemma WroteMore(before: seq<char>, mid: seq<char>, after: seq<char>, str: nat, a: string, b: string)
    requires Wrote(before, mid, str, a) && Wrote(mid, after, str + |a|, b)
    ensures Wrote(before, after, str, a + b)
  {
  }

  lemma WroteNothing(before: seq<char>, str: nat)
    requires str <= |before|
    ensures Wrote(before, before, str, Zeros(0))
  {
  }

  lemma NumberForm(n: nat, base: nat, width: int, flags: Flags)
    requires 2 <= base <= 16
    ensures var digits := Digits(n, base, flags.lowercase);
            var zeros := ToInt32(width - |digits|);
            Number(n, base, width, flags) == Zeros(if flags.zeropad && zeros > 0 then zeros else 0) + digits
  {
    hide Digits, ToInt32;
    assert "" + Digits(n, base, flags.lowercase) == Digits(n, base, flags.lowercase);
  }

  lemma ZerosStep(n: nat)
    ensures Zeros(n + 1) == Zeros(n) + "0"
  {
  }

  /** The padding loop of itoa_base. */
  method WriteZeros(buf: array<char>, str: nat, zeros: int) returns (p: nat)
    requires str + (if zeros > 0 then zeros else 0) <= buf.Length
    modifies buf
    ensures p == str + (if zeros > 0 then zeros else 0)
    ensures Wrote(old(buf[..]), buf[..], str, Zeros(p - str))
  {
    hide *;
    ghost var before := buf[..];
    p := str;
    var i: nat := 0;
    WroteNothing(before, str);
    while i < zeros
      invariant p == str + i && (i <= zeros || i == 0)
      invariant Wrote(before, buf[..], str, Zeros(i))
    {
      WroteOne(before, buf[..], str, Zeros(i), '0');
      ZerosStep(i);
      buf[p] := '0';
      p, i := p + 1, i + 1;
    }
  }

  /** The loop of itoa_base that writes temp_buf backwards. */
  method WriteReversed(buf: array<char>, str: nat, temp: array<char>, numWidth: nat) returns (p: nat)
    requires numWidth <= temp.Length && str + numWidth <= buf.Length && buf != temp
    modifies buf
    ensures p == str + numWidth && Wrote(old(buf[..]), buf[..], str, Reverse(temp[..numWidth]))
  {
    hide *;
    ghost var before, all, out := buf[..], Reverse(temp[..numWidth]), "";
    var left := numWidth;
    p := str;
    WroteNothing(before, str);
    MakesFrom(all);
    while left > 0
      invariant left <= numWidth && p == str + |out| && |out| + left == numWidth
      invariant Makes(out, Reverse(temp[..left]), all) && Wrote(before, buf[..], str, out)
    {
      left := left - 1;
      var c := temp[left];
      MakesReversed(out, temp[..left + 1], all);
      assert temp[..left + 1][..left] == temp[..left];
      WroteOne(before, buf[..], str, out, c);
      buf[p] := c;
      p, out := p + 1, out + [c];
    }
    MakesAll(out, Reverse(temp[..left]), all);
  }

  /** The padding and the digits, already in temp, as itoa_base writes them. */
  method WritePadded(buf: array<char>, str: nat, temp: array<char>, numWidth: nat, width: int, zeropad: bool)
    returns (end: nat, ghost zeros: nat)
    requires buf != temp && numWidth <= temp.Length
    requires str + numWidth + (if zeropad && ToInt32(width - numWidth) > 0 then ToInt32(width - numWidth) else 0)
             <= buf.Length
    modifies buf
    ensures zeros == (if zeropad && ToInt32(width - numWidth) > 0 then ToInt32(width - numWidth) else 0)
    ensures end == str + zeros + numWidth
    ensures Wrote(old(buf[..]), buf[..], str, Zeros(zeros) + Reverse(temp[..numWidth]))
  {
    hide *;
    ghost var before, digits := buf[..], temp[..numWidth];
    var p := str;
    if zeropad {
      p := WriteZeros(buf, str, ToInt32(width - numWidth));
    } else {
      WroteNothing(before, str);
    }
    zeros := p - str;
    ghost var mid := buf[..];
    assert temp[..numWidth] == digits;
    end := WriteReversed(buf, p, temp, numWidth);
    WroteMore(before, mid, buf[..], str, Zeros(zeros), Reverse(digits));
  }

  /** itoa_base after the test of the base. */
  method WriteNumber(buf: array<char>, str: nat, num: nat, base: nat, width: int, flags: Flags) returns (end: nat)
    requires num < TWO32 && 2 <= base <= 16
    requires str + |Number(num, base, width, flags)| <= buf.Length
    modifies buf
    ensures end == str + |Number(num, base, width, flags)|
    ensures Wrote(old(buf[..]), buf[..], str, Number(num, base, width, flags))
  {
    hide *;
    var temp := new char[32];
    NumberForm(num, base, width, flags);
    var numWidth := FillTemp(temp, num, base, flags.lowercase);
    assert buf[..] == old(buf[..]);
    ghost var zeros: nat;
    end, zeros := WritePadded(buf, str, temp, numWidth, width, flags.zeropad);
  }

  /** itoa_base: None for a base out of range, otherwise the position after the number. */
  method ItoaBase(buf: array<char>, str: nat, num: nat, base: int, width: int, flags: Flags)
    returns (end: Option<nat>)
    requires num < TWO32
    requires 2 <= base <= 16 ==> str + |Number(num, base, width, flags)| <= buf.Length
    modifies buf
    ensures !(2 <= base <= 16) ==> end == None && buf[..] == old(buf[..])
    ensures 2 <= base <= 16 ==>
              var s := Number(num, base, width, flags);
              end == Some(str + |s|) && Wrote(old(buf[..]), buf[..], str, s)
  {
    if base < 2 || base > 16 {
      return None;
    }
    var e := WriteNumber(buf, str, num, base, width, flags);
    return Some(e);
  }

  /** Copying one string argument. */
  method CopyText(buf: array<char>, str: nat, s: string) returns (end: nat)
    requires str + |s| <= buf.Length
    modifies buf
    ensures end == str + |s| && Wrote(old(buf[..]), buf[..], str, s)
  {
    hide *;
    ghost var before := buf[..];
    end := str;
    WroteNothing(before, str);
    MakesFrom(s);
    assert s[..0] == "";
    for i := 0 to |s|
      invariant end == str + i && Wrote(before, buf[..], str, s[..i])
    {
      WroteOne(before, buf[..], str, s[..i], s[i]);
      buf[end] := s[i];
      end := end + 1;
      assert s[..i] + [s[i]] == s[..i + 1];
    }
    assert s[..|s|] == s;
  }

  /** Writing one character. */
  method PutChar(buf: array<char>, str: nat, c: char) returns (end: nat)
    requires str < buf.Length
    modifies buf
    ensures end == str + 1 && Wrote(old(buf[..]), buf[..], str, [c])
  {
    buf[str] := c;
    end := str + 1;
  }

  /** The case of the signed conversions. */
  method WriteSigned(buf: array<char>, str: nat, w: nat, width: int, flags: Flags) returns (end: nat)
    requires w < TWO32 && str + |Signed(w, width, flags)| <= buf.Length
    modifies buf
    ensures end == str + |Signed(w, width, flags)| && Wrote(old(buf[..]), buf[..], str, Signed(w, width, flags))
  {
    ghost var before := buf[..];
    var num := ToInt32(w);
    hide Number, ToInt32, Wrap, Wrote;
    if num < 0 {
      var p := PutChar(buf, str, '-');
      ghost var mid := buf[..];
      num := ToInt32(-num);
      end := WriteNumber(buf, p, Wrap(num), 10, width, flags);
      WroteMore(before, mid, buf[..], str, "-", Number(Wrap(num), 10, width, flags));
    } else {
      end := WriteNumber(buf, str, Wrap(num), 10, width, flags);
    }
  }

  /** The switch on the conversion character. */
  method Convert(buf: array<char>, str: nat, conv: char, width: int, f: Flags, args: seq<Arg>, ghost d: Directive)
    returns (end: nat, flags: Flags)
    requires d.Conversion? && d.conv == conv && d.width == width && Fits(d, args)
    requires str + |Rendering(d, Flags(f.zeropad, f.lowercase || conv == 'x'), args)| <= buf.Length
    modifies buf
    ensures flags == Flags(f.zeropad, f.lowercase || conv == 'x')
    ensures end == str + |Rendering(d, flags, args)|
    ensures Wrote(old(buf[..]), buf[..], str, Rendering(d, flags, args))
  {
    hide Number, ToInt32, Wrap;
    flags := f;
    end := str;
    match conv {
      case 'c' =>
        end := PutChar(buf, str, (args[0].w % 256) as char);
      case 's' =>
        end := CopyText(buf, str, Text(args[0].s));
      case 'd' =>
        end := WriteSigned(buf, str, args[0].w, width, flags);
      case 'i' =>
        end := WriteSigned(buf, str, args[0].w, width, flags);
      case 'u' =>
        end := WriteNumber(buf, str, Wrap(ToInt32(args[0].w)), 10, width, flags);
      case 'o' =>
        end := WriteNumber(buf, str, Wrap(ToInt32(args[0].w)), 8, width, flags);
      case 'x' =>
        flags := flags.(lowercase := true);
        end := WriteNumber(buf, str, Wrap(ToInt32(args[0].w)), 16, width, flags);
      case 'X' =>
        end := WriteNumber(buf, str, Wrap(ToInt32(args[0].w)), 16, width, flags);
      case 'p' =>
        end := WriteNumber(buf, str, Wrap(ToInt32(args[0].w)), 16, 8, flags);
      case _ =>
    }
  }

  /** The part of fmt between a '%' and the conversion character, starting after the '%'. */
  method ReadSpec(fmt: string, start: nat) returns (zero: bool, width: int, pos: nat)
    requires start <= |fmt|
    ensures var z := SkipZeros(fmt, start);
            var d := SkipDigits(fmt, z);
            && zero == (z > start) && width == ToInt32(Value(fmt[z..d], 10))
            && pos == if d < |fmt| && IsPrefix(fmt[d]) then d + 1 else d
  {
    zero, pos := false, start;
    while pos < |fmt| && fmt[pos] == '0'
      invariant start <= pos <= |fmt| && SkipZeros(fmt, pos) == SkipZeros(fmt, start) && zero == (pos > start)
    {
      zero, pos := true, pos + 1;
    }
    width, pos := AtoiMod(fmt, pos);
    if pos < |fmt| && IsPrefix(fmt[pos]) {
      pos := pos + 1;
    }
  }

  /** The rest of the work at one point of the format: what is still to be printed. */
  ghost predicate Pending(fmt: string, f: nat, flags: Flags, args: seq<Arg>, rest: string) {
    f <= |fmt| && Parse(fmt, f).Some? && Matches(Parse(fmt, f).value, args)
    && rest == Render(Parse(fmt, f).value, flags, args)
  }

  /** The directive d starts at f in fmt and the next one at `next`. */
  ghost predicate DirectiveAt(fmt: string, f: nat, d: Directive, next: nat) {
    f < next <= |fmt| &&
    if fmt[f] != '%' then d == Literal(fmt[f]) && next == f + 1
    else
      var z := SkipZeros(fmt, f + 1);
      var e := SkipDigits(fmt, z);
      var p := if e < |fmt| && IsPrefix(fmt[e]) then e + 1 else e;
      p < |fmt| && next == p + 1 && d == Conversion(z > f + 1, ToInt32(Value(fmt[z..e], 10)), fmt[p])
  }

  /** One directive is printed, the rest is still pending. */
  lemma PendingStep(fmt: string, f: nat, flags: Flags, args: seq<Arg>, rest: string) returns (d: Directive, next: nat)
    requires Pending(fmt, f, flags, args, rest) && f < |fmt|
    ensures DirectiveAt(fmt, f, d, next) && f < next <= |fmt| && Fits(d, args) && Takes(d) <= |args|
    ensures var f' := FlagsAfter(flags, d);
            |Rendering(d, f', args)| <= |rest| && rest[..|Rendering(d, f', args)|] == Rendering(d, f', args)
            && Pending(fmt, next, f', args[Takes(d)..], rest[|Rendering(d, f', args)|..])
  {
    hide *;
    d, next := ParseStep(fmt, f, flags, args, rest);
    RenderStep(Parse(fmt, f).value, d, Parse(fmt, next).value, flags, args);
    PendingRest(fmt, next, FlagsAfter(flags, d), args[Takes(d)..], rest, Rendering(d, FlagsAfter(flags, d), args));
  }

  /** The first directive and what is left to parse. */
  lemma ParseStep(fmt: string, f: nat, flags: Flags, args: seq<Arg>, rest: string) returns (d: Directive, next: nat)
    requires Pending(fmt, f, flags, args, rest) && f < |fmt|
    ensures DirectiveAt(fmt, f, d, next) && f < next <= |fmt|
    ensures Parse(fmt, f).Some? && Parse(fmt, next).Some?
    ensures Parse(fmt, f).value == [d] + Parse(fmt, next).value
    ensures Matches(Parse(fmt, f).value, args) && rest == Render(Parse(fmt, f).value, flags, args)
  {
    hide Matches, Render, Value, ToInt32;
    d := Parse(fmt, f).value[0];
    next := if fmt[f] != '%' then f + 1 else
      var z := SkipZeros(fmt, f + 1);
      var e := SkipDigits(fmt, z);
      if e < |fmt| && IsPrefix(fmt[e]) then e + 2 else e + 1;
    assert Parse(fmt, f) == Prepend(d, Parse(fmt, next));
  }

  lemma RenderStep(ds: seq<Directive>, d: Directive, rest: seq<Directive>, flags: Flags, args: seq<Arg>)
    requires ds == [d] + rest && Matches(ds, args)
    ensures Fits(d, args) && Takes(d) <= |args| && Matches(rest, args[Takes(d)..])
    ensures var f' := FlagsAfter(flags, d);
            Render(ds, flags, args) == Rendering(d, f', args) + Render(rest, f', args[Takes(d)..])
  {
    hide Fits, Rendering, FlagsAfter, Takes;
    assert ds[0] == d && ds[1..] == rest;
    FitsTakes(d, args);
  }

  lemma PendingRest(fmt: string, next: nat, flags: Flags, args: seq<Arg>, rest: string, text: string)
    requires next <= |fmt| && Parse(fmt, next).Some? && Matches(Parse(fmt, next).value, args)
    requires rest == text + Render(Parse(fmt, next).value, flags, args)
    ensures |text| <= |rest| && rest[..|text|] == text && Pending(fmt, next, flags, args, rest[|text|..])
  {
    hide Parse, Matches, Render;
    assert rest[|text|..] == Render(Parse(fmt, next).value, flags, args);
  }

  predicate TakesArg(conv: char) { conv in "cdiuoxXps" }

  /** The body of the loop over the format, on the arguments not used yet. */
  method OneDirective(buf: array<char>, str: nat, fmt: string, f: nat, fl: Flags, args: seq<Arg>,
                      ghost d: Directive, ghost next: nat)
    returns (end: nat, f': nat, flags: Flags, taken: nat)
    requires DirectiveAt(fmt, f, d, next) && Fits(d, args)
    requires str + |Rendering(d, FlagsAfter(fl, d), args)| <= buf.Length
    modifies buf
    ensures f' == next && flags == FlagsAfter(fl, d) && taken == Takes(d)
    ensures end == str + |Rendering(d, flags, args)|
    ensures Wrote(old(buf[..]), buf[..], str, Rendering(d, flags, args))
  {
    hide Wrote, RenderWord, Value, ToInt32;
    if fmt[f] != '%' {
      end := PutChar(buf, str, fmt[f]);
      return end, f + 1, fl, 0;
    }
    var zero, width, p := ReadSpec(fmt, f + 1);
    end, flags := Convert(buf, str, fmt[p], width, fl.(zeropad := fl.zeropad || zero), args, d);
    f', taken := p + 1, if TakesArg(fmt[p]) then 1 else 0;
  }

  lemma PendingStart(fmt: string, flags: Flags, args: seq<Arg>)
    requires Parse(fmt, 0).Some? && Matches(Parse(fmt, 0).value, args)
    ensures Pending(fmt, 0, flags, args, Render(Parse(fmt, 0).value, flags, args))
  {
  }

  lemma PendingEnd(fmt: string, flags: Flags, args: seq<Arg>, rest: string)
    requires Pending(fmt, |fmt|, flags, args, rest)
    ensures rest == ""
  {
  }

  /** The NUL at the end. */
  method Terminate(buf: array<char>, str: nat, ghost before: seq<char>, ghost out: string)
    requires str == |out| < buf.Length && Wrote(before, buf[..], 0, out)
    modifies buf
    ensures Wrote(before, buf[..], 0, out + [0 as char])
  {
    hide *;
    ghost var mid := buf[..];
    var _ := PutChar(buf, str, 0 as char);
    WroteMore(before, mid, buf[..], 0, out, [0 as char]);
  }

  /** vsprintf: on a format whose directives are complete, with arguments that match, it writes
      the concatenation of the renderings and a NUL, and returns the length. */
  method Vsprintf(buf: array<char>, fmt: string, args: seq<Arg>) returns (len: nat)
    requires Parse(fmt, 0).Some? && Matches(Parse(fmt, 0).value, args)
    requires |Render(Parse(fmt, 0).value, Flags(false, false), args)| < buf.Length
    modifies buf
    ensures var out := Render(Parse(fmt, 0).value, Flags(false, false), args);
            len == |out| && Wrote(old(buf[..]), buf[..], 0, out + [0 as char])
  {
    hide *;
    ghost var before, out, rest := buf[..], "", Render(Parse(fmt, 0).value, Flags(false, false), args);
    ghost var whole := rest;
    var str, f, left, flags := 0, 0, args, Flags(false, false);
    WroteNothing(before, 0);
    MakesFrom(whole);
    PendingStart(fmt, flags, args);
    while f < |fmt|
      invariant f <= |fmt| && str == |out| && Wrote(before, buf[..], 0, out)
      invariant Pending(fmt, f, flags, left, rest) && Makes(out, rest, whole)
      decreases |fmt| - f
    {
      ghost var mid := buf[..];
      ghost var d, next := PendingStep(fmt, f, flags, left, rest);
      ghost var text := Rendering(d, FlagsAfter(flags, d), left);
      MakesMore(out, text, rest, whole);
      var taken;
      str, f, flags, taken := OneDirective(buf, str, fmt, f, flags, left, d, next);
      left := left[taken..];
      WroteMore(before, mid, buf[..], 0, out, text);
      out, rest := out + text, rest[|text|..];
    }
    PendingEnd(fmt, flags, left, rest);
    MakesAll(out, rest, whole);
    Terminate(buf, str, before, out);
    len := str;
  }
}
