/** How the flags that vsprintf never clears show in the text: exactly when a directive prints
    something else than it would alone. */
module FormatFlags {
  import opened Words
  import opened Numerals
  import opened Vsprintf

  const NO_FLAGS := Flags(false, false)

  // ------------------------------------------------------------ digit counts

  function Pow(base: nat, k: nat): nat { if k == 0 then 1 else base * Pow(base, k - 1) }

  lemma {:induction false} RawAtMost(n: nat, base: nat, lowercase: bool, k: nat)
    requires 2 <= base <= 16 && n < Pow(base, k)
    ensures |Raw(n, base, lowercase)| <= k
  {
    if n == 0 {
    } else {
      DivlIs(n, base);
      var q, r := Quotient(n, base), Remainder(n, base);
      hide Quotient, Remainder;
      if q >= Pow(base, k - 1) {
        MulKeeps(Pow(base, k - 1), q, base);
        assert false;
      }
      RawAtMost(q, base, lowercase, k - 1);
    }
  }

  lemma MulKeeps(a: nat, b: nat, base: nat)
    requires a <= b
    ensures base * a <= b * base
  {
  }

  lemma QuotientAtLeast(q: nat, r: nat, p: nat, base: nat)
    requires q * base + r >= base * p && r < base
    ensures q >= p
  {
    if q < p {
      SplitLess(q, r, p, 0, base);
    }
  }

  lemma {:induction false} RawAtLeast(n: nat, base: nat, lowercase: bool, k: nat)
    requires 2 <= base <= 16 && n >= Pow(base, k)
    ensures |Raw(n, base, lowercase)| > k
    decreases k
  {
    if k > 0 {
      DivlIs(n, base);
      var q, r := Quotient(n, base), Remainder(n, base);
      hide Quotient, Remainder;
      QuotientAtLeast(q, r, Pow(base, k - 1), base);
      RawAtLeast(q, base, lowercase, k - 1);
    }
  }

  /** The most digits a 32-bit number has in the bases of the format directives. */
  function MostDigits(base: nat): nat {
    if base == 8 then 11 else if base == 10 then 10 else 8
  }

  lemma Powers()
    ensures Pow(8, 11) == 0x2_0000_0000 && Pow(8, 10) == 0x4000_0000
    ensures Pow(10, 10) == 10_000_000_000 && Pow(10, 9) == 1_000_000_000
    ensures Pow(16, 8) == TWO32 && Pow(16, 7) == 0x1000_0000
  {
    assert Pow(8, 5) == 0x8000 && Pow(10, 5) == 100_000 && Pow(16, 4) == 0x1_0000;
  }

  lemma DigitCount(n: nat, base: nat, lowercase: bool)
    requires base in {8, 10, 16} && n < TWO32
    ensures 1 <= |Digits(n, base, lowercase)| <= MostDigits(base)
    ensures n >= INT32_MAX ==> |Digits(n, base, lowercase)| == MostDigits(base) || base == 8
    ensures n == TWO32 - 1 ==> |Digits(n, base, lowercase)| == MostDigits(base)
    ensures n == 0 ==> |Digits(n, base, lowercase)| == 1
  {
    Powers();
    RawAtMost(n, base, lowercase, MostDigits(base));
    if n >= Pow(base, MostDigits(base) - 1) {
      RawAtLeast(n, base, lowercase, MostDigits(base) - 1);
    }
    hide Raw, Pow;
  }

  /** The case of the letters changes no length, and no text below base 11. */
  lemma {:induction false} CaseFacts(n: nat, base: nat)
    requires 2 <= base <= 16
    ensures |Raw(n, base, true)| == |Raw(n, base, false)|
    ensures base <= 10 ==> Raw(n, base, true) == Raw(n, base, false)
  {
    if n == 0 {
    } else {
      CaseFacts(Quotient(n, base), base);
      var r := Remainder(n, base);
      if r < 10 { DigitOf(r, true); DigitOf(r, false); }
    }
  }

  // ---------------------------------------------------------------- padding

  /** The zeros written in front of d digits, if any are. */
  function PadCount(width: int, d: nat): nat {
    var zeros := ToInt32(width - d);
    if zeros > 0 then zeros else 0
  }

  lemma NumberIsPadded(n: nat, base: nat, width: int, f: Flags)
    requires 2 <= base <= 16
    ensures var digits := Digits(n, base, f.lowercase);
            Number(n, base, width, f) == Zeros(if f.zeropad then PadCount(width, |digits|) else 0) + digits
  {
    hide Digits, ToInt32, Number;
    NumberForm(n, base, width, f);
  }

  /** Does a number of 1 to `most` digits ever get zeros in front at this width? The subtraction of the
      digit count wraps for the least widths. */
  predicate WidthPads(width: int, most: nat) { width > 1 || width < most - INT32_MAX - 1 }

  lemma WidthPadsIff(width: int, most: nat)
    requires InInt32(width) && 1 <= most <= 32
    ensures WidthPads(width, most) <==> exists d: nat :: 1 <= d <= most && PadCount(width, d) > 0
  {
    if width > 1 {
      assert PadCount(width, 1) > 0;
    } else if width < most - INT32_MAX - 1 {
      assert PadCount(width, most) > 0;
    }
  }

  lemma NumberSame(n: nat, base: nat, width: int, f: Flags, g: Flags)
    requires base in {8, 10, 16} && n < TWO32 && InInt32(width)
    requires f.zeropad == g.zeropad || !WidthPads(width, MostDigits(base))
    requires f.lowercase == g.lowercase || base <= 10
    ensures Number(n, base, width, f) == Number(n, base, width, g)
  {
    hide Raw, WidthPads, PadCount, Number, Zeros;
    CaseFacts(n, base);
    DigitCount(n, base, f.lowercase);
    WidthPadsIff(width, MostDigits(base));
    NumberIsPadded(n, base, width, f);
    NumberIsPadded(n, base, width, g);
    assert Digits(n, base, f.lowercase) == Digits(n, base, g.lowercase);
    assert f.zeropad != g.zeropad ==> PadCount(width, |Digits(n, base, f.lowercase)|) == 0;
  }

  // -------------------------------------------------------------- directives

  predicate IsNumber(d: Directive) { d.Conversion? && d.conv in "diuoxXp" }

  function BaseOf(conv: char): nat {
    if conv == 'o' then 8 else if conv in "xXp" then 16 else 10
  }

  /** %p has the width 8, whatever is written. */
  function WidthOf(d: Directive): int
    requires d.Conversion?
  {
    if d.conv == 'p' then 8 else d.width
  }

  /** A number without a 0 flag of its own, with a width that a 0 flag would make it fill. */
  predicate PadSensitive(d: Directive) {
    IsNumber(d) && !d.zero && WidthPads(WidthOf(d), MostDigits(BaseOf(d.conv)))
  }

  /** A hexadecimal number meant in upper case. */
  predicate CaseSensitive(d: Directive) { d.Conversion? && (d.conv == 'X' || d.conv == 'p') }

  /** d prints for all arguments what it prints alone, when the flags f are set before it. */
  ghost predicate PrintsAsAlone(d: Directive, f: Flags) {
    forall args: seq<Arg> :: Fits(d, args) ==>
      Rendering(d, FlagsAfter(f, d), args) == Rendering(d, FlagsAfter(NO_FLAGS, d), args)
  }

  lemma SignedSame(w: nat, width: int, f: Flags, g: Flags)
    requires w < TWO32 && InInt32(width) && (f.zeropad == g.zeropad || !WidthPads(width, MostDigits(10)))
    ensures Signed(w, width, f) == Signed(w, width, g)
  {
    hide Number, WidthPads;
    var n := ToInt32(w);
    NumberSame(Wrap(if n < 0 then ToInt32(-n) else n), 10, width, f, g);
  }

  lemma WordSame(d: Directive, w: nat, f: Flags, g: Flags)
    requires TakesWord(d) && w < TWO32 && InInt32(d.width)
    requires f.zeropad == g.zeropad || (IsNumber(d) ==> !WidthPads(WidthOf(d), MostDigits(BaseOf(d.conv))))
    requires f.lowercase == g.lowercase || !(d.conv in "xXp")
    ensures RenderWord(d.conv, w, d.width, f) == RenderWord(d.conv, w, d.width, g)
  {
    hide Number, WidthPads, Signed, ToInt32, Wrap;
    if d.conv == 'd' || d.conv == 'i' {
      SignedSame(w, d.width, f, g);
    } else if d.conv != 'c' {
      NumberSame(Wrap(ToInt32(w)), BaseOf(d.conv), WidthOf(d), f, g);
    }
  }

  /** Zeros that only one of the two texts has. */
  lemma PadShows(n: nat, base: nat, width: int, f: Flags, g: Flags)
    requires base in {8, 10, 16} && f.zeropad && !g.zeropad
    requires PadCount(width, |Digits(n, base, false)|) > 0
    ensures Number(n, base, width, f) != Number(n, base, width, g)
  {
    hide Raw, PadCount, Number;
    CaseFacts(n, base);
    NumberIsPadded(n, base, width, f);
    NumberIsPadded(n, base, width, g);
    assert |Digits(n, base, f.lowercase)| == |Digits(n, base, false)| == |Digits(n, base, g.lowercase)|;
  }

  /** Some argument shows the zeros. */
  lemma PadWitness(d: Directive, f: Flags, g: Flags) returns (w: nat)
    requires IsNumber(d) && InInt32(d.width) && WidthPads(WidthOf(d), MostDigits(BaseOf(d.conv)))
    requires f.zeropad && !g.zeropad
    ensures w < TWO32 && RenderWord(d.conv, w, d.width, f) != RenderWord(d.conv, w, d.width, g)
  {
    hide Number, RenderWord, Digits;
    var base, width := BaseOf(d.conv), WidthOf(d);
    w := if width > 1 then 0 else if d.conv == 'd' || d.conv == 'i' then INT32_MAX else TWO32 - 1;
    DigitCount(w, base, false);
    PadShows(w, base, width, f, g);
    RendersNumber(d, w, f);
    RendersNumber(d, w, g);
  }

  lemma RendersNumber(d: Directive, w: nat, f: Flags)
    requires IsNumber(d) && w < TWO32 && ((d.conv == 'd' || d.conv == 'i') ==> w <= INT32_MAX)
    ensures RenderWord(d.conv, w, d.width, f) == Number(w, BaseOf(d.conv), WidthOf(d), f)
  {
    hide Number;
    assert Wrap(ToInt32(w)) == w;
    assert w <= INT32_MAX ==> ToInt32(w) == w && Wrap(w) == w;
    hide ToInt32, Wrap;
  }

  /** The last digit of 10 shows the case. */
  lemma CaseWitness(d: Directive, f: Flags, g: Flags)
    requires CaseSensitive(d) && f.lowercase && !g.lowercase
    ensures RenderWord(d.conv, 10, d.width, f) != RenderWord(d.conv, 10, d.width, g)
  {
    hide Number;
    var width := WidthOf(d);
    LastDigitOfTen(width, f);
    LastDigitOfTen(width, g);
    RendersNumber(d, 10, f);
    RendersNumber(d, 10, g);
  }

  lemma LastDigitOfTen(width: int, f: Flags)
    ensures var s := Number(10, 16, width, f);
            s != "" && s[|s| - 1] == if f.lowercase then 'a' else 'A'
  {
    NumberIsPadded(10, 16, width, f);
    RawStep(0, 10, 16, f.lowercase);
    assert Raw(0, 16, f.lowercase) == "" && Digits(10, 16, f.lowercase) == [DigitChar(10, f.lowercase)];
    hide Number, PadCount, Zeros;
  }

  /** A directive prints what it would print alone, for all arguments, exactly when no 0 flag set before
      reaches a number that has none of its own and a width to fill, and no %x before reaches a %X
      or a %p. */
  lemma PrintsAsAloneIff(d: Directive, f: Flags)
    requires d.Conversion? ==> InInt32(d.width)
    ensures PrintsAsAlone(d, f) <==> !(f.zeropad && PadSensitive(d)) && !(f.lowercase && CaseSensitive(d))
  {
    hide Number, WidthPads, RenderWord;
    var f1, f2 := FlagsAfter(f, d), FlagsAfter(NO_FLAGS, d);
    if f.zeropad && PadSensitive(d) {
      var w := PadWitness(d, f1, f2);
      Differs(d, f, w);
    } else if f.lowercase && CaseSensitive(d) {
      CaseWitness(d, f1, f2);
      Differs(d, f, 10);
    } else {
      forall args: seq<Arg> | Fits(d, args) ensures Rendering(d, f1, args) == Rendering(d, f2, args) {
        if TakesWord(d) { WordSame(d, args[0].w, f1, f2); }
      }
    }
  }

  lemma Differs(d: Directive, f: Flags, w: nat)
    requires TakesWord(d) && w < TWO32
    requires RenderWord(d.conv, w, d.width, FlagsAfter(f, d)) != RenderWord(d.conv, w, d.width, FlagsAfter(NO_FLAGS, d))
    ensures !PrintsAsAlone(d, f)
  {
    hide RenderWord;
    var args := [WordArg(w)];
    assert Fits(d, args);
  }

  /** The same in a format: what matters of the directives before is whether one of them had a 0 flag
      and whether one of them was a %x. */
  lemma PrintsAsAloneAfter(before: seq<Directive>, d: Directive)
    requires d.Conversion? ==> InInt32(d.width)
    ensures PrintsAsAlone(d, FlagsAfterAll(NO_FLAGS, before)) <==>
            && !((exists e :: e in before && e.Conversion? && e.zero) && PadSensitive(d))
            && !((exists e :: e in before && e.Conversion? && e.conv == 'x') && CaseSensitive(d))
  {
    FlagsStay(before, NO_FLAGS);
    hide PrintsAsAlone, PadSensitive, CaseSensitive;
    PrintsAsAloneIff(d, FlagsAfterAll(NO_FLAGS, before));
  }

  // ---------------------------------------------------------- failing inputs

  lemma OneDigit(n: nat, base: nat, lowercase: bool)
    requires 0 < n < base <= 16 && 2 <= base
    ensures Raw(n, base, lowercase) == [DigitChar(n, lowercase)]
  {
    RawStep(0, n, base, lowercase);
    assert Raw(0, base, lowercase) == "";
  }

  /** A small number, padded or not. */
  lemma SmallNumber(n: nat, base: nat, width: int, f: Flags)
    requires 0 < n < base && base in {10, 16} && 0 <= width <= 3
    ensures Number(n, base, width, f) ==
            Zeros(if f.zeropad && width > 1 then width - 1 else 0) + [DigitChar(n, f.lowercase)]
  {
    hide Zeros, DigitChar;
    OneDigit(n, base, f.lowercase);
    NumberIs(n, base, width, f);
  }

  lemma PrintsSmall(d: Directive, n: nat, f: Flags)
    requires IsNumber(d) && d.conv != 'o' && d.conv != 'p' && 0 < n < BaseOf(d.conv) && 0 <= d.width <= 3
    ensures RenderWord(d.conv, n, d.width, f) ==
            Zeros(if f.zeropad && d.width > 1 then d.width - 1 else 0) + [DigitChar(n, f.lowercase)]
  {
    hide Number, RenderWord, Zeros, DigitChar;
    RendersNumber(d, n, f);
    SmallNumber(n, BaseOf(d.conv), d.width, f);
  }

  lemma SpelledParses(s: string, ws: seq<Written>)
    requires (forall w :: w in ws ==> CanWrite(w)) && s == Spell(ws)
    ensures Parse(s, 0) == Some(Meant(ws))
  {
    assert s[0..] == s;
    SpellingParses(s, 0, ws);
  }

  /** Two directives that take a word each. */
  lemma RenderTwo(d: Directive, e: Directive, x: nat, y: nat)
    requires TakesWord(d) && TakesWord(e) && x < TWO32 && y < TWO32
    ensures Matches([d, e], [WordArg(x), WordArg(y)])
    ensures var f := FlagsAfter(NO_FLAGS, d);
            Render([d, e], NO_FLAGS, [WordArg(x), WordArg(y)]) ==
            RenderWord(d.conv, x, d.width, f) + RenderWord(e.conv, y, e.width, FlagsAfter(f, e))
  {
    hide RenderWord, FlagsAfter;
    var f, ds, args := FlagsAfter(NO_FLAGS, d), [d, e], [WordArg(x), WordArg(y)];
    assert ds[1..] == [e] && args[1..] == [WordArg(y)];
    RenderOne(e, f, y);
  }

  lemma RenderOne(d: Directive, f: Flags, x: nat)
    requires TakesWord(d) && x < TWO32
    ensures Matches([d], [WordArg(x)])
    ensures Render([d], f, [WordArg(x)]) == RenderWord(d.conv, x, d.width, FlagsAfter(f, d))
  {
    hide RenderWord, FlagsAfter;
    var ds, args := [d], [WordArg(x)];
    assert ds[1..] == [] && args[1..] == [];
    assert Render([], FlagsAfter(f, d), []) == "";
    var s := RenderWord(d.conv, x, d.width, FlagsAfter(f, d));
    assert s + "" == s;
  }

  /** The 0 flag of the first directive pads the second, which has none; alone it prints no zero. */
  lemma ZeroFlagLeaks()
    ensures var d, e := Conversion(true, 2, 'd'), Conversion(false, 3, 'd');
            && Parse("%02d%3d", 0) == Some([d, e]) && Parse("%3d", 0) == Some([e])
            && Matches([d, e], [WordArg(5), WordArg(7)]) && Matches([e], [WordArg(7)])
            && Render([d, e], NO_FLAGS, [WordArg(5), WordArg(7)]) == "05007"
            && Render([e], NO_FLAGS, [WordArg(7)]) == "7"
  {
    hide Parse, Render, Matches, CanWrite, Spelling, Spell, Meant;
    var d, e := Conversion(true, 2, 'd'), Conversion(false, 3, 'd');
    var v, w := Written(d, ""), Written(e, "");
    DecimalSpelling(true, 2);
    DecimalSpelling(false, 3);
    SpellTwo(v, w);
    assert "%" + "0" + ['2'] + "d" + ("%" + "" + ['3'] + "d") == "%02d%3d";
    assert "%" + "" + ['3'] + "d" == "%3d";
    SpelledParses("%02d%3d", [v, w]);
    SpelledParses("%3d", [w]);
    LeakedText(d, e);
  }

  /** %d with a width of one digit. */
  lemma DecimalSpelling(zero: bool, width: nat)
    requires 0 < width < 10
    ensures var w := Written(Conversion(zero, width, 'd'), "");
            CanWrite(w) && Spelling(w) == "%" + (if zero then "0" else "") + [DigitChar(width, false)] + "d"
  {
    OneDigit(width, 10, false);
    var s := "%" + (if zero then "0" else "") + [DigitChar(width, false)];
    assert s + "" == s;
    hide Raw;
  }

  lemma SpellTwo(v: Written, w: Written)
    requires CanWrite(v) && CanWrite(w)
    ensures Spell([v, w]) == Spelling(v) + Spelling(w) && Spell([w]) == Spelling(w)
    ensures Meant([v, w]) == [v.d, w.d] && Meant([w]) == [w.d]
  {
    hide CanWrite, Spelling;
    var ws, last := [v, w], [w];
    assert ws[1..] == last && last[1..] == [];
    assert Spell(last) == Spelling(w) + Spell([]) && Spelling(w) + "" == Spelling(w);
    assert Spell(ws) == Spelling(v) + Spell(last);
  }

  lemma LeakedText(d: Directive, e: Directive)
    requires d == Conversion(true, 2, 'd') && e == Conversion(false, 3, 'd')
    ensures Matches([d, e], [WordArg(5), WordArg(7)]) && Matches([e], [WordArg(7)])
    ensures Render([d, e], NO_FLAGS, [WordArg(5), WordArg(7)]) == "05007"
    ensures Render([e], NO_FLAGS, [WordArg(7)]) == "7"
  {
    hide Render, RenderWord;
    RenderTwo(d, e, 5, 7);
    RenderOne(e, NO_FLAGS, 7);
    PrintsSmall(d, 5, Flags(true, false));
    PrintsSmall(e, 7, Flags(true, false));
    PrintsSmall(e, 7, NO_FLAGS);
    assert Zeros(1) == "0" && Zeros(2) == "00" && Zeros(0) == "";
    hide Zeros;
    assert "0" + ['5'] + ("00" + ['7']) == "05007";
  }

  /** After a %x a %X prints in lower case. */
  lemma LowerCaseLeaks()
    ensures var d, e := Conversion(false, 0, 'x'), Conversion(false, 0, 'X');
            && Matches([d, e], [WordArg(10), WordArg(10)]) && Matches([e], [WordArg(10)])
            && Render([d, e], NO_FLAGS, [WordArg(10), WordArg(10)]) == "aa"
            && Render([e], NO_FLAGS, [WordArg(10)]) == "A"
  {
    var d, e := Conversion(false, 0, 'x'), Conversion(false, 0, 'X');
    hide Render, RenderWord;
    RenderTwo(d, e, 10, 10);
    RenderOne(e, NO_FLAGS, 10);
    PrintsSmall(d, 10, Flags(false, true));
    PrintsSmall(e, 10, Flags(false, true));
    PrintsSmall(e, 10, NO_FLAGS);
    assert Zeros(0) == "";
  }
}
