/** The user-side formatter: a scanner over the format string and three digit printers. */
module Kprintf {

  import opened Machine

  const BUFF_SIZE := 512
  const INT_MIN := 0x8000_0000

  // ----- Numerals -----

  /** The digit d, as hex[d] and dec[d] give it. */
  function DigitChar(d: int): char
    requires 0 <= d < 16
  {
    "0123456789abcdef"[d]
  }

  function DigitValue(c: char): int {
    if '0' <= c <= '9' then c as int - '0' as int else c as int - 'a' as int + 10
  }

  /** n in the given base, most significant digit first. */
  function Numeral(n: nat, base: nat): (s: string)
    requires base == 10 || base == 16
    ensures |s| > 0
  {
    if n < base then [DigitChar(n)] else Numeral(n / base, base) + [DigitChar(n % base)]
  }

  function ValueOf(s: string, base: int): int {
    if s == [] then 0 else ValueOf(s[..|s| - 1], base) * base + DigitValue(s[|s| - 1])
  }

  lemma DivMod(n: nat, base: nat)
    requires base == 10 || base == 16
    ensures n / base * base + n % base == n && n / base <= n / 2
  {
    if base == 10 {
      assert n / 10 * 10 + n % 10 == n;
    } else {
      assert n / 16 * 16 + n % 16 == n;
    }
  }

  lemma DigitReads(d: int)
    requires 0 <= d < 16
    ensures DigitValue("0123456789abcdef"[d]) == d
    ensures DigitChar(d) == "0123456789abcdef"[d] && (d > 0 ==> DigitChar(d) != '0')
  {
  }

  /** A numeral reads back as its number, and has no leading zero. */
  lemma {:induction false} NumeralReads(n: nat, base: nat)
    requires base == 10 || base == 16
    ensures ValueOf(Numeral(n, base), base) == n
    ensures n > 0 ==> Numeral(n, base)[0] != '0'
  {
    var s := Numeral(n, base);
    DivMod(n, base);
    if n < base {
      DigitReads(n);
      assert s[..0] == [];
      assert ValueOf(s[..0], base) == 0;
    } else {
      DigitReads(n % base);
      NumeralReads(n / base, base);
      assert s[..|s| - 1] == Numeral(n / base, base);
    }
  }

  /** The digit before the last i, and the numeral before it. */
  lemma {:induction false} NumeralPeel(all: string, i: nat, rest: nat, base: nat)
    requires base == 10 || base == 16
    requires i < |all| && all[..|all| - i] == Numeral(rest, base)
    ensures rest % base < 16 && all[|all| - 1 - i] == DigitChar(rest % base)
    ensures rest / base == 0 ==> i + 1 == |all|
    ensures rest / base > 0 ==> i + 1 < |all| && all[..|all| - i - 1] == Numeral(rest / base, base)
    ensures rest > 0 ==> 0 <= rest / base < rest
  {
    var s := all[..|all| - i];
    DivMod(rest, base);
    assert all[|all| - 1 - i] == s[|s| - 1];
    if rest >= base {
      assert s[..|s| - 1] == Numeral(rest / base, base);
      assert all[..|all| - i - 1] == s[..|s| - 1];
    }
  }

  function Pow2(k: nat): nat {
    if k == 0 then 1 else 2 * Pow2(k - 1)
  }

  lemma {:induction false} NumeralShort(n: nat, base: nat, k: nat)
    requires (base == 10 || base == 16) && n < Pow2(k) && k > 0
    ensures |Numeral(n, base)| <= k
  {
    if n >= base {
      DivMod(n, base);
      NumeralShort(n / base, base, k - 1);
    }
  }

  lemma WordShort(n: Word, base: nat)
    requires base == 10 || base == 16
    ensures |Numeral(n, base)| <= 32
  {
    assert Pow2(8) == 256 && Pow2(16) == 256 * Pow2(8) && Pow2(24) == 256 * Pow2(16) && Pow2(32) == 256 * Pow2(24);
    NumeralShort(n, base, 32);
  }

  function Signed(w: Word): int {
    if w >= INT_MIN then w - 0x1_0000_0000 else w
  }

  function SignedNumeral(w: Word): string {
    if Signed(w) < 0 then "-" + Numeral(-Signed(w), 10) else Numeral(w, 10)
  }

  function SignedValue(s: string): int {
    if s != [] && s[0] == '-' then -ValueOf(s[1..], 10) else ValueOf(s, 10)
  }

  lemma {:induction false} NoSign(n: nat)
    ensures Numeral(n, 10)[0] != '-'
  {
    if n >= 10 { NoSign(n / 10); }
  }

  /** A signed numeral reads back as its number. */
  lemma SignedReads(w: Word)
    ensures SignedValue(SignedNumeral(w)) == Signed(w)
  {
    if Signed(w) < 0 {
      NumeralReads(-Signed(w), 10);
      assert SignedNumeral(w)[1..] == Numeral(-Signed(w), 10);
    } else {
      NumeralReads(w, 10);
      NoSign(w);
    }
  }

  // ----- What a format string means -----

  /** The characters of a string in memory, up to the zero character that ends it. */
  type CString = s: string | '\0' !in s

  predicate IsDigit(c: char) {
    '0' <= c <= '9'
  }

  /** The first index from k on that is no digit. */
  function AfterDigits(fmt: string, k: nat): (j: nat)
    requires k <= |fmt|
    ensures k <= j <= |fmt|
    ensures j < |fmt| ==> !IsDigit(fmt[j])
    decreases |fmt| - k
  {
    if k < |fmt| && IsDigit(fmt[k]) then AfterDigits(fmt, k + 1) else k
  }

  predicate TakesArgument(c: char) {
    c == 'c' || c == 'x' || c == 'i' || c == 'u' || c == 'p'
  }

  /** Every directive is complete, has its argument, and is not asked to negate INT_MIN. */
  predicate WellFormed(fmt: string, args: seq<Word>)
    decreases |fmt|
  {
    if fmt == [] then true
    else if fmt[0] != '%' then WellFormed(fmt[1..], args)
    else
      var k := AfterDigits(fmt, 1);
      && k < |fmt|
      && (TakesArgument(fmt[k]) ==> args != [] && (fmt[k] == 'i' ==> args[0] != INT_MIN))
      && WellFormed(fmt[k + 1..], if TakesArgument(fmt[k]) then args[1..] else args)
  }

  /** What one directive prints. A width is read over and has no effect. */
  function Directive(c: char, args: seq<Word>): string
    requires TakesArgument(c) ==> args != []
  {
    match c
    case 'c' => [(args[0] % 256) as char]
    case 'x' => Numeral(args[0], 16)
    case 'i' => SignedNumeral(args[0])
    case 'u' => Numeral(args[0], 10)
    case 'p' => "0x" + Numeral(args[0], 16)
    case '%' => "%"
    case _ => "%" + [c]
  }

  function Render(fmt: string, args: seq<Word>): string
    requires WellFormed(fmt, args)
    decreases |fmt|
  {
    if fmt == [] then ""
    else if fmt[0] != '%' then [fmt[0]] + Render(fmt[1..], args)
    else
      var k := AfterDigits(fmt, 1);
      Directive(fmt[k], args) + Render(fmt[k + 1..], if TakesArgument(fmt[k]) then args[1..] else args)
  }

  lemma {:induction false} DigitsShift(fmt: string, i: nat, k: nat)
    requires i + k <= |fmt|
    ensures AfterDigits(fmt[i..], k) + i == AfterDigits(fmt, i + k)
    decreases |fmt| - i - k
  {
    if i + k < |fmt| && IsDigit(fmt[i + k]) { DigitsShift(fmt, i, k + 1); }
  }

  // ----- What the reader of the output sees -----

  /** s is n in the given base: lower-case digits of that base, no leading zero, and n as its value. */
  predicate ReadsAs(s: string, base: int, n: int)
    requires base == 10 || base == 16
  {
    && s != [] && ValueOf(s, base) == n && (s[0] == '0' ==> |s| == 1)
    && forall k :: 0 <= k < |s| ==> s[k] in "0123456789abcdef"[..base]
  }

  /** s is what the letter c asks for. Letters with a meaning take their argument from the front of args. */
  predicate Spells(c: char, args: seq<Word>, s: string)
    requires c in "cxiup" ==> args != []
  {
    match c
    case 'x' => ReadsAs(s, 16, args[0])
    case 'u' => ReadsAs(s, 10, args[0])
    case 'i' =>
      if args[0] < 0x8000_0000 then ReadsAs(s, 10, args[0])
      else |s| > 1 && s[0] == '-' && ReadsAs(s[1..], 10, 0x1_0000_0000 - args[0])
    case 'p' => |s| > 2 && s[0] == '0' && s[1] == 'x' && ReadsAs(s[2..], 16, args[0])
    case 'c' => |s| == 1 && s[0] as int == args[0] % 256
    case '%' => s == "%"
    case _ => |s| == 2 && s[0] == '%' && s[1] == c
  }

  lemma {:induction false} NumeralDigits(n: nat, base: nat)
    requires base == 10 || base == 16
    ensures forall k :: 0 <= k < |Numeral(n, base)| ==> Numeral(n, base)[k] in "0123456789abcdef"[..base]
  {
    DivMod(n, base);
    var d := n % base;
    assert "0123456789abcdef"[..base][d] == DigitChar(d);
    if n >= base { NumeralDigits(n / base, base); }
  }

  lemma NumeralReadsAs(n: nat, base: nat)
    requires base == 10 || base == 16
    ensures ReadsAs(Numeral(n, base), base, n)
  {
    NumeralReads(n, base);
    NumeralDigits(n, base);
  }

  lemma LetterTakes(c: char)
    ensures c in "cxiup" <==> TakesArgument(c)
  {
  }

  lemma {:induction false} SignedSpells(w: Word)
    ensures Spells('i', [w], SignedNumeral(w))
  {
    var n := Signed(w);
    NumeralReadsAs(if n < 0 then -n else n, 10);
    if n < 0 { assert SignedNumeral(w)[1..] == Numeral(-n, 10); }
  }

  /** Every letter is rendered as what it asks for. */
  lemma {:induction false} DirectiveSpells(c: char, args: seq<Word>)
    requires c in "cxiup" ==> args != []
    ensures c in "cxiup" <==> TakesArgument(c)
    ensures Spells(c, args, Directive(c, args))
  {
    LetterTakes(c);
    if c == 'x' {
      NumeralReadsAs(args[0], 16);
    } else if c == 'u' {
      NumeralReadsAs(args[0], 10);
    } else if c == 'i' {
      SignedSpells(args[0]);
    } else if c == 'p' {
      NumeralReadsAs(args[0], 16);
      assert Directive(c, args)[2..] == Numeral(args[0], 16);
    }
  }

  /** A format without a percent sign renders as itself. */
  lemma {:induction false} PlainRenders(fmt: string, args: seq<Word>)
    requires '%' !in fmt
    ensures WellFormed(fmt, args) && Render(fmt, args) == fmt
  {
    if fmt != [] {
      PlainRenders(fmt[1..], args);
      assert fmt == [fmt[0]] + fmt[1..];
    }
  }

  /** How many arguments the directives of a format take. */
  function Uses(fmt: string, args: seq<Word>): (n: nat)
    requires WellFormed(fmt, args)
    ensures n <= |args|
    decreases |fmt|
  {
    if fmt == [] then 0
    else if fmt[0] != '%' then Uses(fmt[1..], args)
    else
      var k := AfterDigits(fmt, 1);
      if TakesArgument(fmt[k]) then 1 + Uses(fmt[k + 1..], args[1..]) else Uses(fmt[k + 1..], args)
  }

  lemma {:induction false} DigitsPrefix(fmt: string, rest: string, k: nat)
    requires k <= |fmt| && AfterDigits(fmt, k) < |fmt|
    ensures AfterDigits(fmt + rest, k) == AfterDigits(fmt, k)
    decreases |fmt| - k
  {
    if IsDigit(fmt[k]) { DigitsPrefix(fmt, rest, k + 1); }
  }

  lemma {:induction false} DigitsUpTo(fmt: string, i: nat, k: nat)
    requires i <= k < |fmt| && (forall j :: i <= j < k ==> IsDigit(fmt[j])) && !IsDigit(fmt[k])
    ensures AfterDigits(fmt, i) == k
    decreases k - i
  {
    if i < k { DigitsUpTo(fmt, i + 1, k); }
  }

  lemma {:induction false} DirectiveUnfolds(fmt: string, args: seq<Word>, k: nat, left: seq<Word>, tail: string)
    requires fmt != [] && fmt[0] == '%' && k == AfterDigits(fmt, 1) < |fmt| && tail == fmt[k + 1..]
    requires TakesArgument(fmt[k]) ==> args != [] && (fmt[k] == 'i' ==> args[0] != INT_MIN)
    requires left == if TakesArgument(fmt[k]) then args[1..] else args
    ensures WellFormed(fmt, args) <==> WellFormed(tail, left)
    ensures WellFormed(fmt, args) ==>
      && Render(fmt, args) == Directive(fmt[k], args) + Render(tail, left)
      && Uses(fmt, args) == Uses(tail, left) + if TakesArgument(fmt[k]) then 1 else 0
  {
  }

  /** fmt + rest, of which fmt is a complete part and the rest renders as r. */
  ghost predicate Joined(fmt: string, rest: string, args: seq<Word>, r: string)
    requires WellFormed(fmt, args)
  {
    WellFormed(fmt + rest, args) && Render(fmt + rest, args) == Render(fmt, args) + r
  }

  /** A format renders piece by piece: what stands behind a complete part gets the arguments that part leaves. */
  lemma {:induction false} RenderJoins(fmt: string, rest: string, args: seq<Word>)
    requires WellFormed(fmt, args) && WellFormed(rest, args[Uses(fmt, args)..])
    ensures Joined(fmt, rest, args, Render(rest, args[Uses(fmt, args)..]))
    decreases |fmt|
  {
    var r := Render(rest, args[Uses(fmt, args)..]);
    if fmt == [] {
      assert fmt + rest == rest && args[0..] == args;
    } else if fmt[0] != '%' {
      PlainUnfolds(fmt, args, fmt[1..]);
      RenderJoins(fmt[1..], rest, args);
      JoinPlain(fmt, rest, args, r);
    } else {
      var k := AfterDigits(fmt, 1);
      var left := if TakesArgument(fmt[k]) then args[1..] else args;
      DirectiveUnfolds(fmt, args, k, left, fmt[k + 1..]);
      assert left[Uses(fmt[k + 1..], left)..] == args[Uses(fmt, args)..];
      RenderJoins(fmt[k + 1..], rest, left);
      JoinDirective(fmt, rest, args, k, left, r);
    }
  }

  lemma {:induction false} PlainUnfolds(fmt: string, args: seq<Word>, tail: string)
    requires fmt != [] && fmt[0] != '%' && tail == fmt[1..]
    ensures WellFormed(fmt, args) <==> WellFormed(tail, args)
    ensures WellFormed(fmt, args) ==> Render(fmt, args) == [fmt[0]] + Render(tail, args)
  {
  }

  lemma {:induction false} JoinPlain(fmt: string, rest: string, args: seq<Word>, r: string)
    requires fmt != [] && fmt[0] != '%' && WellFormed(fmt, args)
    requires WellFormed(fmt[1..], args) && Joined(fmt[1..], rest, args, r)
    ensures Joined(fmt, rest, args, r)
  {
    assert (fmt + rest)[1..] == fmt[1..] + rest;
    PlainUnfolds(fmt, args, fmt[1..]);
    PlainUnfolds(fmt + rest, args, fmt[1..] + rest);
    Associates([fmt[0]], Render(fmt[1..], args), r);
  }

  lemma Associates(s: string, t: string, u: string)
    ensures (s + t) + u == s + (t + u)
  {
  }

  lemma {:induction false} JoinDirective(fmt: string, rest: string, args: seq<Word>, k: nat, left: seq<Word>, r: string)
    requires fmt != [] && fmt[0] == '%' && k == AfterDigits(fmt, 1) < |fmt| && WellFormed(fmt, args)
    requires left == if TakesArgument(fmt[k]) then args[1..] else args
    requires WellFormed(fmt[k + 1..], left) && Joined(fmt[k + 1..], rest, left, r)
    ensures Joined(fmt, rest, args, r)
  {
    DigitsPrefix(fmt, rest, 1);
    assert (fmt + rest)[k + 1..] == fmt[k + 1..] + rest && (fmt + rest)[k] == fmt[k];
    DirectiveUnfolds(fmt, args, k, left, fmt[k + 1..]);
    DirectiveUnfolds(fmt + rest, args, k, left, fmt[k + 1..] + rest);
    Associates(Directive(fmt[k], args), Render(fmt[k + 1..], left), r);
  }

  /** A percent sign, a width of any length and a letter. */
  function Single(width: string, c: char): string {
    "%" + width + [c]
  }

  lemma {:induction false} SingleRenders(width: string, c: char, args: seq<Word>)
    requires (forall k :: 0 <= k < |width| ==> '0' <= width[k] <= '9') && !('0' <= c <= '9')
    requires c in "cxiup" ==> args != [] && (c == 'i' ==> args[0] != 0x8000_0000)
    ensures WellFormed(Single(width, c), args)
    ensures Render(Single(width, c), args) == Directive(c, args)
    ensures Uses(Single(width, c), args) == if c in "cxiup" then 1 else 0
  {
    var fmt, k := Single(width, c), |width| + 1;
    assert forall j :: 1 <= j < k ==> fmt[j] == width[j - 1];
    DigitsUpTo(fmt, 1, k);
    assert fmt[k + 1..] == "" && fmt[k] == c;
    assert Directive(c, args) + "" == Directive(c, args);
  }

  /** A directive anywhere in a format, with or without a width, is rendered as what its letter asks for; what stands
      before and behind it is rendered on its own. */
  lemma {:induction false} DirectiveAnywhere(before: string, width: string, c: char, behind: string, args: seq<Word>)
      returns (s: string)
    requires WellFormed(before, args)
    requires (forall k :: 0 <= k < |width| ==> '0' <= width[k] <= '9') && !('0' <= c <= '9')
    requires var left := args[Uses(before, args)..];
      && (c in "cxiup" ==> left != [] && (c == 'i' ==> left[0] != 0x8000_0000))
      && WellFormed(behind, if c in "cxiup" then left[1..] else left)
    ensures WellFormed(before + (Single(width, c) + behind), args)
    ensures var left := args[Uses(before, args)..];
      && Spells(c, left, s)
      && Render(before + (Single(width, c) + behind), args) ==
        Render(before, args) + (s + Render(behind, if c in "cxiup" then left[1..] else left))
  {
    var left := args[Uses(before, args)..];
    s := Directive(c, left);
    DirectiveSpells(c, left);
    SingleRenders(width, c, left);
    RenderJoins(Single(width, c), behind, left);
    RenderJoins(before, Single(width, c) + behind, args);
  }

  /** s is what a whole format asks for: its plain characters, and for each directive what its letter asks for. */
  ghost predicate Means(fmt: string, args: seq<Word>, s: string)
    requires WellFormed(fmt, args)
    decreases |fmt|
  {
    if fmt == [] then s == []
    else if fmt[0] != '%' then s != [] && s[0] == fmt[0] && Means(fmt[1..], args, s[1..])
    else
      var k := AfterDigits(fmt, 1);
      LetterTakes(fmt[k]);
      exists n :: 0 <= n <= |s| && Spells(fmt[k], args, s[..n]) &&
        Means(fmt[k + 1..], if fmt[k] in "cxiup" then args[1..] else args, s[n..])
  }

  /** The rendering of a format is what the format asks for. */
  lemma {:induction false} RenderMeans(fmt: string, args: seq<Word>)
    requires WellFormed(fmt, args)
    ensures Means(fmt, args, Render(fmt, args))
    decreases |fmt|
  {
    if fmt != [] {
      if fmt[0] != '%' {
        PlainUnfolds(fmt, args, fmt[1..]);
        RenderMeans(fmt[1..], args);
        assert Render(fmt, args)[1..] == Render(fmt[1..], args);
      } else {
        var k := AfterDigits(fmt, 1);
        var left := if TakesArgument(fmt[k]) then args[1..] else args;
        DirectiveUnfolds(fmt, args, k, left, fmt[k + 1..]);
        RenderMeans(fmt[k + 1..], left);
        DirectiveMeans(fmt, args, k, left, Directive(fmt[k], args), Render(fmt[k + 1..], left));
      }
    }
  }

  lemma {:induction false} DirectiveMeans(fmt: string, args: seq<Word>, k: nat, left: seq<Word>, s: string, t: string)
    requires fmt != [] && fmt[0] == '%' && WellFormed(fmt, args) && k == AfterDigits(fmt, 1) < |fmt|
    requires left == if TakesArgument(fmt[k]) then args[1..] else args
    requires s == Directive(fmt[k], args) && WellFormed(fmt[k + 1..], left) && Means(fmt[k + 1..], left, t)
    ensures Means(fmt, args, s + t)
  {
    LetterTakes(fmt[k]);
    DirectiveSpells(fmt[k], args);
    assert (s + t)[..|s|] == s && (s + t)[|s|..] == t;
  }

  // ----- One turn of the scanner -----

  /** Where the directive that starts at i has its letter; i itself for a plain character. */
  function Ahead(fmt: string, i: nat): nat
    requires i < |fmt|
  {
    if fmt[i] == '%' then AfterDigits(fmt, i + 1) else i
  }

  predicate Complete(fmt: string, i: nat, args: seq<Word>, a: nat)
    requires i < |fmt| && a <= |args|
  {
    var k := Ahead(fmt, i);
    k < |fmt| && (fmt[i] == '%' && TakesArgument(fmt[k]) ==> a < |args| && (fmt[k] == 'i' ==> args[a] != INT_MIN))
  }

  function Used(fmt: string, i: nat, a: nat): nat
    requires i < |fmt| && Ahead(fmt, i) < |fmt|
  {
    if fmt[i] == '%' && TakesArgument(fmt[Ahead(fmt, i)]) then a + 1 else a
  }

  function Piece(fmt: string, i: nat, args: seq<Word>, a: nat): string
    requires i < |fmt| && a <= |args| && Complete(fmt, i, args, a)
  {
    if fmt[i] == '%' then Directive(fmt[Ahead(fmt, i)], args[a..]) else [fmt[i]]
  }

  lemma {:induction false} RenderStep(fmt: string, i: nat, args: seq<Word>, a: nat)
    requires i < |fmt| && a <= |args| && WellFormed(fmt[i..], args[a..])
    ensures Complete(fmt, i, args, a) && Used(fmt, i, a) <= |args|
    ensures var i', a' := Ahead(fmt, i) + 1, Used(fmt, i, a);
      && WellFormed(fmt[i'..], args[a'..])
      && Render(fmt[i..], args[a..]) == Piece(fmt, i, args, a) + Render(fmt[i'..], args[a'..])
  {
    if fmt[i] == '%' {
      RenderDirective(fmt, i, args, a);
    } else {
      RenderPlain(fmt, i, args, a);
    }
  }

  lemma {:induction false} RenderFrom(sent: string, fmt: string, i: nat, args: seq<Word>, a: nat)
    requires i < |fmt| && a <= |args| && WellFormed(fmt[i..], args[a..])
    ensures Complete(fmt, i, args, a) && Used(fmt, i, a) <= |args|
    ensures var i', a' := Ahead(fmt, i) + 1, Used(fmt, i, a);
      && WellFormed(fmt[i'..], args[a'..])
      && sent + Render(fmt[i..], args[a..]) == sent + Piece(fmt, i, args, a) + Render(fmt[i'..], args[a'..])
  {
    RenderStep(fmt, i, args, a);
  }

  lemma {:induction false} RenderPlain(fmt: string, i: nat, args: seq<Word>, a: nat)
    requires i < |fmt| && a <= |args| && fmt[i] != '%' && WellFormed(fmt[i..], args[a..])
    ensures Complete(fmt, i, args, a) && Used(fmt, i, a) <= |args|
    ensures var i', a' := Ahead(fmt, i) + 1, Used(fmt, i, a);
      && WellFormed(fmt[i'..], args[a'..])
      && Render(fmt[i..], args[a..]) == Piece(fmt, i, args, a) + Render(fmt[i'..], args[a'..])
  {
    assert Ahead(fmt, i) == i && Used(fmt, i, a) == a;
    assert fmt[i..][1..] == fmt[i + 1..];
  }

  lemma {:induction false} RenderDirective(fmt: string, i: nat, args: seq<Word>, a: nat)
    requires i < |fmt| && a <= |args| && fmt[i] == '%' && WellFormed(fmt[i..], args[a..])
    ensures Complete(fmt, i, args, a) && Used(fmt, i, a) <= |args|
    ensures var i', a' := Ahead(fmt, i) + 1, Used(fmt, i, a);
      && WellFormed(fmt[i'..], args[a'..])
      && Render(fmt[i..], args[a..]) == Piece(fmt, i, args, a) + Render(fmt[i'..], args[a'..])
  {
    var here, left := fmt[i..], args[a..];
    var k := AfterDigits(here, 1);
    DigitsShift(fmt, i, 1);
    assert Ahead(fmt, i) == i + k;
    assert here[k + 1..] == fmt[i + k + 1..] && here[k] == fmt[i + k];
    var rest := if TakesArgument(here[k]) then left[1..] else left;
    assert rest == args[if TakesArgument(here[k]) then a + 1 else a..];
    assert Render(here, left) == Directive(here[k], left) + Render(here[k + 1..], rest);
  }

  // ----- The printer -----

  class Printer {
    // What `syscall_putc` has sent.
    var out: string
    var j: int
    var offset: int
    var zeros: int

    method Putc(c: char)
      modifies this`out
      ensures out == old(out) + [c]
    {
      out := out + [c];
    }

    /** The lowest i characters of a numeral are in the buffer, the last one first. */
    ghost predicate Stored(res: array<char>, all: string, i: int)
      reads res
    {
      0 <= i <= |all| <= res.Length && forall k :: 0 <= k < i ==> res[k] == all[|all| - 1 - k]
    }

    /** Stores the digits, lowest first. */
    method StoreDigits(n: Word, base: int, res: array<char>) returns (i: int)
      requires (base == 10 || base == 16) && res.Length == BUFF_SIZE && |Numeral(n, base)| <= BUFF_SIZE
      modifies res
      ensures i == |Numeral(n, base)| && Stored(res, Numeral(n, base), i)
    {
      ghost var all := Numeral(n, base);
      assert all[..|all|] == all;
      var rest := StoreDigit(n, base, res, 0, all);
      i := 1;
      while rest > 0
        invariant Stored(res, all, i) && rest >= 0
        invariant if rest == 0 then i == |all| else i < |all| && all[..|all| - i] == Numeral(rest, base)
        decreases rest
      {
        rest := StoreDigit(rest, base, res, i, all);
        i := i + 1;
      }
    }

    /** Stores the lowest digit of what is left of the number. */
    method StoreDigit(left: int, base: int, res: array<char>, i: nat, ghost all: string) returns (rest: int)
      requires (base == 10 || base == 16) && i < |all| && Stored(res, all, i) && left >= 0
      requires all[..|all| - i] == Numeral(left, base)
      modifies res
      ensures rest == left / base && Stored(res, all, i + 1)
      ensures rest == 0 ==> i + 1 == |all|
      ensures rest > 0 ==> i + 1 < |all| && all[..|all| - i - 1] == Numeral(rest, base)
      ensures rest >= 0 && (left > 0 ==> rest < left)
    {
      NumeralPeel(all, i, left, base);
      res[i] := DigitChar(left % base);
      rest := left / base;
    }

    /** Stores the digits lowest first, and sends them highest first. */
    method PrintDigits(n: Word, base: int)
      requires base == 10 || base == 16
      modifies this`out
      ensures out == old(out) + Numeral(n, base)
    {
      var res := new char[BUFF_SIZE](_ => '\0');
      ghost var all := Numeral(n, base);
      WordShort(n, base);
      var i := StoreDigits(n, base, res);
      i := i - 1;
      while i >= 0
        invariant -1 <= i < |all|
        invariant forall k :: 0 <= k <= i ==> res[k] == all[|all| - 1 - k]
        invariant out == old(out) + all[..|all| - 1 - i]
      {
        Putc(res[i]);
        i := i - 1;
      }
      assert all[..|all|] == all;
    }

    /** Hexadecimal; a pointer gets its prefix, before or after the padding that is no longer done. */
    method DecToHexStr(n: Word, pointer: bool)
      modifies this
      ensures out == old(out) + (if pointer then "0x" else "") + Numeral(n, 16)
      ensures zeros == old(zeros)
    {
      if pointer && zeros != 0 {
        j := 2;
        Putc('0');
        Putc('x');
      }
      if pointer {
        offset := offset - 2;
      }
      if zeros == 0 && pointer {
        Putc('0');
        Putc('x');
      }
      PrintDigits(n, 16);
      offset := 0;
    }

    method IntToStr(w: Word)
      requires w != INT_MIN
      modifies this`out
      ensures out == old(out) + SignedNumeral(w)
    {
      var n := Signed(w);
      if n < 0 {
        n := -n;
        Putc('-');
      }
      PrintDigits(n, 10);
    }

    /** One directive, its width already read. */
    method PrintDirective(c: char, args: seq<Word>)
      requires TakesArgument(c) ==> args != []
      requires c == 'i' ==> args[0] != INT_MIN
      requires !IsDigit(c)
      modifies this
      ensures out == old(out) + Directive(c, args)
    {
      ghost var sent := out;
      match c {
        case 'c' => Putc((args[0] % 256) as char);
        case 'x' =>
          DecToHexStr(args[0], false);
          offset, zeros := 0, 0;
        case 'i' =>
          IntToStr(args[0]);
          offset, zeros := 0, 0;
        case 'u' =>
          PrintDigits(args[0], 10);
          offset, zeros := 0, 0;
        case 'p' =>
          DecToHexStr(args[0], true);
          offset, zeros := 0, 0;
          assert sent + "0x" + Numeral(args[0], 16) == sent + ("0x" + Numeral(args[0], 16));
        case '%' => Putc('%');
        case _ =>
          Putc('%');
          Putc(c);
          assert sent + "%" + [c] == sent + ("%" + [c]);
      }
    }

    /** Reads over the width at index i, if there is one. */
    method ReadWidth(fmt: string, i: nat) returns (k: nat)
      requires i <= |fmt| && AfterDigits(fmt, i) < |fmt|
      modifies this`offset, this`zeros
      ensures k == AfterDigits(fmt, i)
    {
      k := i;
      if IsDigit(fmt[k]) {
        if fmt[k] == '0' {
          zeros := 1;
        }
        while IsDigit(fmt[k])
          invariant i <= k < |fmt| && AfterDigits(fmt, k) == AfterDigits(fmt, i)
          decreases |fmt| - k
        {
          offset := offset * 10 + (fmt[k] as int - 48);
          k := k + 1;
        }
      }
    }

    /** One turn of the scanner at index i, with `a` arguments used up. */
    method Turn(fmt: string, i: nat, args: seq<Word>, a: nat) returns (i': nat, a': nat)
      requires i < |fmt| && a <= |args| && Complete(fmt, i, args, a)
      modifies this
      ensures out == old(out) + Piece(fmt, i, args, a)
      ensures i' == Ahead(fmt, i) + 1 && a' == Used(fmt, i, a)
    {
      a' := a;
      if fmt[i] == '%' {
        i' := ReadWidth(fmt, i + 1);
        PrintDirective(fmt[i'], args[a..]);
        if TakesArgument(fmt[i']) {
          a' := a + 1;
        }
      } else {
        Putc(fmt[i]);
        i' := i;
      }
      i' := i' + 1;
    }

    /** Prints the rendering of the format string, whatever earlier calls left in `offset` and `zeros`. */
    method UsrKprintf(fmt: CString, args: seq<Word>)
      requires WellFormed(fmt, args)
      modifies this
      ensures out == old(out) + Render(fmt, args)
      ensures Means(fmt, args, Render(fmt, args))
    {
      var i, a := 0, 0;
      RenderMeans(fmt, args);
      j := 0;
      assert fmt[0..] == fmt && args[0..] == args;
      while i < |fmt|
        invariant 0 <= i <= |fmt| && 0 <= a <= |args|
        invariant WellFormed(fmt[i..], args[a..])
        invariant old(out) + Render(fmt, args) == out + Render(fmt[i..], args[a..])
        decreases |fmt| - i
      {
        i, a := NextTurn(fmt, i, args, a);
      }
      assert fmt[i..] == [];
    }

    /** What a call sends for one of its directives, wherever that stands. */
    method PrintAround(before: string, width: string, c: char, behind: string, args: seq<Word>)
        returns (ghost s: string)
      requires WellFormed(before, args)
      requires (forall k :: 0 <= k < |width| ==> '0' <= width[k] <= '9') && !('0' <= c <= '9')
      requires '\0' !in before + (Single(width, c) + behind)
      requires var left := args[Uses(before, args)..];
        && (c in "cxiup" ==> left != [] && (c == 'i' ==> left[0] != 0x8000_0000))
        && WellFormed(behind, if c in "cxiup" then left[1..] else left)
      modifies this
      ensures var left := args[Uses(before, args)..];
        && Spells(c, left, s)
        && out == old(out) + (Render(before, args) + (s + Render(behind, if c in "cxiup" then left[1..] else left)))
    {
      s := DirectiveAnywhere(before, width, c, behind, args);
      UsrKprintf(before + (Single(width, c) + behind), args);
    }

    /** A turn, seen on the rendering of what is left. */
    method NextTurn(fmt: string, i: nat, args: seq<Word>, a: nat) returns (i': nat, a': nat)
      requires i < |fmt| && a <= |args| && WellFormed(fmt[i..], args[a..])
      modifies this
      ensures i < i' <= |fmt| && a' <= |args| && WellFormed(fmt[i'..], args[a'..])
      ensures old(out) + Render(fmt[i..], args[a..]) == out + Render(fmt[i'..], args[a'..])
    {
      RenderFrom(out, fmt, i, args, a);
      i', a' := Turn(fmt, i, args, a);
    }
  }
}
