/**
 What number literals and comments are (LANGUAGE.md:62-142), and that the lexer reads
 them so: every word that starts with a digit is the number the three bases give it or
 is refused, and a comment is nothing but a gap.
 */
module Lexemes {
  import opened Arith
  import opened FixedWidth
  import Ast
  import opened Tokens
  import opened Lex
  import opened Wrappers

  // -------------------------------------------------------------------- numbers

  function DigitOf(c: char): Option<nat> {
    match c
    case '0' => Some(0)
    case '1' => Some(1)
    case '2' => Some(2)
    case '3' => Some(3)
    case '4' => Some(4)
    case '5' => Some(5)
    case '6' => Some(6)
    case '7' => Some(7)
    case '8' => Some(8)
    case '9' => Some(9)
    case 'a' | 'A' => Some(10)
    case 'b' | 'B' => Some(11)
    case 'c' | 'C' => Some(12)
    case 'd' | 'D' => Some(13)
    case 'e' | 'E' => Some(14)
    case 'f' | 'F' => Some(15)
    case _ => None
  }

  predicate InBase(c: char, base: nat) {
    DigitOf(c).Some? && DigitOf(c).value < base
  }

  // Digits of a base, with single underscores between them.
  predicate Spaced(s: string, base: nat) {
    && s != [] && s[0] != '_' && s[|s| - 1] != '_'
    && (forall i | 0 <= i < |s| :: s[i] == '_' || InBase(s[i], base))
    && (forall i | 0 <= i < |s| - 1 :: s[i] != '_' || s[i + 1] != '_')
  }

  // Their number, the last digit counting once.
  function Denoted(s: string, base: nat): nat {
    if s == [] then 0
    else
      var init, last := Denoted(s[..|s| - 1], base), DigitOf(s[|s| - 1]);
      if last.None? then init else init * base + last.value
  }

  function Radix(s: string, base: nat): Option<nat> {
    if Spaced(s, base) && Denoted(s, base) < Pow2(128) then Some(Denoted(s, base)) else None
  }

  // The number a whole word denotes, if it is one.
  function NumberWord(w: string): Option<nat> {
    if |w| >= 2 && w[0] == '0' && (w[1] == 'x' || w[1] == 'X') then Radix(w[2..], 16)
    else if |w| >= 2 && w[0] == '0' && (w[1] == 'b' || w[1] == 'B') then Radix(w[2..], 2)
    else Radix(w, 10)
  }

  lemma TableIs(c: char)
    ensures DigitValue(c) == match DigitOf(c) case Some(d) => d case None => 16
  {
  }

  lemma SpacedIs(s: string, base: nat)
    requires 0 < base <= 16
    ensures Spaced(s, base) <==> WellFormed(s, base)
  {
    forall c ensures InBase(c, base) <==> DigitValue(c) < base {
      TableIs(c);
    }
    hide DigitOf, DigitValue;
    if WellFormed(s, base) {
      assert s[|s| - 1] != '_';
    }
    if Spaced(s, base) {
      forall i | 0 <= i < |s| && s[i] == '_' ensures i + 1 < |s| && s[i + 1] != '_' {
        assert i != |s| - 1;
      }
    }
  }

  lemma {:induction false} DenotedIs(s: string, base: nat)
    requires forall i | 0 <= i < |s| :: s[i] == '_' || InBase(s[i], base)
    ensures Positional(s, base, 0) == Denoted(s, base)
    decreases |s|
  {
    if s != [] {
      var init, last := s[..|s| - 1], s[|s| - 1];
      DenotedIs(init, base);
      TableIs(last);
      assert s == init + [last];
      LastDigit(init, last, base, 0);
    }
  }

  lemma {:induction false} LastDigit(s: string, c: char, base: nat, v: nat)
    ensures Positional(s + [c], base, v) ==
            if c == '_' then Positional(s, base, v) else Positional(s, base, v) * base + DigitValue(c)
    decreases |s|
  {
    hide DigitValue;
    if s == [] {
      assert s + [c] == [c];
      assert [c][1..] == [];
    } else {
      assert (s + [c])[1..] == s[1..] + [c];
      LastDigit(s[1..], c, base, if s[0] == '_' then v else v * base + DigitValue(s[0]));
    }
  }

  lemma {:induction false} InvalidStays(s: string, base: nat, a: Scan)
    requires 0 < base <= 16 && a.invalid
    ensures ScanDigits(s, base, a).a.invalid
    decreases |s|
  {
    hide DigitValue, AddDigit;
    if s != [] {
      if s[0] == '_' {
        InvalidStays(s[1..], base, AddUnderscore(a, s[1..], base));
      } else if DigitValue(s[0]) < base {
        KeepsInvalid(a, DigitValue(s[0]), base);
        InvalidStays(s[1..], base, AddDigit(a, DigitValue(s[0]), base));
      }
    }
  }

  lemma KeepsInvalid(a: Scan, d: nat, base: nat)
    requires base > 0
    ensures AddDigit(a, d, base).invalid == a.invalid && AddDigit(a, d, base).hasDigit
  {
    hide Pow2;
  }

  // The rest of a word continues a number.
  predicate Goes(s: string, base: nat, a: Scan) {
    Continues(s, base) && (s == [] || s[0] != '_' || a.hasDigit)
  }

  // A word that does not is scanned to something invalid, or not to its end.
  lemma {:induction false} ScanRefuses(s: string, tail: string, base: nat, a: Scan)
    requires 0 < base <= 16 && (forall i | 0 <= i < |s| :: IdentChar(s[i])) && Breaks(tail)
    requires !Goes(s, base, a)
    ensures var r := ScanDigits(s + tail, base, a); r.a.invalid || WordLength(r.rest) > 0
    decreases |s|
  {
    hide DigitValue, AddDigit, Continues;
    if s != [] {
      assert (s + tail)[1..] == s[1..] + tail && (s + tail)[0] == s[0];
      ContinuesFrom(s, base);
      if s[0] == '_' {
        var b := AddUnderscore(a, s[1..] + tail, base);
        if b.invalid {
          InvalidStays(s[1..] + tail, base, b);
        } else {
          UnderscoreOk(s, tail, base, a);
          ScanRefuses(s[1..], tail, base, a);
        }
      } else if DigitValue(s[0]) < base {
        KeepsInvalid(a, DigitValue(s[0]), base);
        ScanRefuses(s[1..], tail, base, AddDigit(a, DigitValue(s[0]), base));
      }
    } else {
      NothingContinues(base);
    }
  }

  lemma NothingContinues(base: nat)
    ensures Continues([], base)
  {
  }

  lemma ContinuesFrom(s: string, base: nat)
    requires s != []
    ensures s[0] != '_' && DigitValue(s[0]) < base ==> (Continues(s, base) <==> Continues(s[1..], base))
    ensures s[0] == '_' && |s| > 1 && s[1] != '_' ==> (Continues(s, base) <==> Continues(s[1..], base))
  {
    hide DigitValue;
    if Continues(s[1..], base) && (s[0] == '_' || DigitValue(s[0]) < base) && (s[0] == '_' ==> |s| > 1 && s[1] != '_') {
      forall i | 0 <= i < |s| ensures s[i] == '_' || DigitValue(s[i]) < base {
        assert i > 0 ==> s[i] == s[1..][i - 1];
      }
      forall i | 0 <= i < |s| && s[i] == '_' ensures i + 1 < |s| && s[i + 1] != '_' {
        if i > 0 {
          assert s[1..][i - 1] == '_' && s[1..][i] != '_';
        }
      }
    }
    if Continues(s, base) {
      forall i | 0 <= i < |s[1..]| ensures s[1..][i] == '_' || DigitValue(s[1..][i]) < base {
        assert s[1..][i] == s[i + 1];
      }
      forall i | 0 <= i < |s[1..]| && s[1..][i] == '_' ensures i + 1 < |s[1..]| && s[1..][i + 1] != '_' {
        assert s[i + 1] == '_' && s[i + 2] != '_';
      }
    }
  }

  // An underscore that passes is followed by a digit of the word.
  lemma UnderscoreOk(s: string, tail: string, base: nat, a: Scan)
    requires 0 < base <= 16 && s != [] && s[0] == '_' && Breaks(tail) && !AddUnderscore(a, s[1..] + tail, base).invalid
    ensures a.hasDigit && |s| > 1 && s[1] != '_' && AddUnderscore(a, s[1..] + tail, base) == a
  {
    assert |s[1..]| == |s| - 1;
    assert |s| > 1 ==> (s[1..] + tail)[0] == s[1];
  }

  // Digits of a base after its prefix.
  lemma RadixRead(s: string, rest: string, base: nat)
    requires 0 < base <= 16 && (forall i | 0 <= i < |s| :: IdentChar(s[i])) && Breaks(rest)
    ensures var n := ScanDigits(s + rest, base, START);
            (if WordLength(n.rest) > 0 || !n.a.hasDigit || n.a.invalid || n.a.overflow then None
             else Some(Lexed(Literal(n.a.value), n.rest))) ==
            match Radix(s, base) case Some(v) => Some(Lexed(Literal(v), rest)) case None => None
  {
    hide DigitValue, Pow2, DigitOf;
    SpacedIs(s, base);
    if Goes(s, base, START) {
      BreakIsNoDigit(rest, base);
      ScanExact(s, rest, base, START);
      if s != [] {
        DenotedIs(s, base);
      }
    } else {
      ScanRefuses(s, rest, base, START);
    }
  }

  lemma BreakIsNoDigit(rest: string, base: nat)
    requires Breaks(rest) && base <= 16
    ensures rest == [] || (rest[0] != '_' && DigitValue(rest[0]) >= base)
    ensures WordLength(rest) == 0
  {
  }

  // A word that starts with a digit is read as the number it denotes, and refused
  // exactly when it denotes none below 2^128.
  lemma LiteralIff(w: string, rest: string)
    requires w != [] && Digit(w[0]) && (forall i | 0 <= i < |w| :: IdentChar(w[i])) && Breaks(rest)
    ensures Digit((w + rest)[0])
    ensures LexNumber(w + rest) == match NumberWord(w) case Some(v) => Some(Lexed(Literal(v), rest)) case None => None
  {
    hide ScanDigits, Radix;
    var all := w + rest;
    assert all[0] == w[0];
    if |w| >= 2 {
      assert all[1] == w[1] && all[2..] == w[2..] + rest;
      if Prefixed(w, 'x', 'X') {
        RadixRead(w[2..], rest, 16);
      } else if Prefixed(w, 'b', 'B') {
        RadixRead(w[2..], rest, 2);
      } else {
        RadixRead(w, rest, 10);
      }
    } else {
      assert |all| >= 2 ==> all[1] == rest[0];
      RadixRead(w, rest, 10);
    }
  }

  // -------------------------------------------------------- types and operators

  // A word of the shape of a type is one exactly for widths up to 64.
  lemma TypeWordIff(w: string)
    requires TypeShape(w)
    ensures var n := Denoted(w[1..], 10);
            WordToken(w) == if n <= 64 then Some(TypeName(Ast.Type(n, w[0] == 'i'))) else None
  {
    var digits := w[1..];
    forall i | 0 <= i < |digits| ensures Digit(digits[i]) {
      assert digits[i] == w[i + 1];
    }
    DecimalDenoted(digits);
    NoKeyword(w);
  }

  lemma NoKeyword(w: string)
    requires |w| >= 2 && Digit(w[1])
    ensures KeywordOf(w) == None
  {
  }

  lemma {:induction false} DecimalDenoted(s: string)
    requires forall i | 0 <= i < |s| :: Digit(s[i])
    ensures Decimal(s) == Denoted(s, 10)
    decreases |s|
  {
    if s != [] {
      TableIs(s[|s| - 1]);
      DecimalDenoted(s[..|s| - 1]);
    }
  }

  // How each operator is written (LANGUAGE.md:136-139).
  function Written(x: Symbol): (s: string)
    ensures 1 <= |s| <= 2
  {
    match x
    case PlusT => "+"
    case MinusT => "-"
    case StarT => "*"
    case SlashT => "/"
    case PercentT => "%"
    case TildeT => "~"
    case AmpT => "&"
    case PipeT => "|"
    case CaretT => "^"
    case ShlT => "<<"
    case ShrT => ">>"
    case BangT => "!"
    case AmpAmpT => "&&"
    case PipePipeT => "||"
    case EqEqT => "=="
    case BangEqT => "!="
    case LtT => "<"
    case LeT => "<="
    case GtT => ">"
    case GeT => ">="
    case AssignT => "="
    case Question => "?"
    case Colon => ":"
    case LParen => "("
    case RParen => ")"
    case LBrace => "{"
    case RBrace => "}"
    case LBracket => "["
    case RBracket => "]"
    case Comma => ","
    case Semi => ";"
  }

  predicate Starts(t: string, p: string) {
    |p| <= |t| && t[..|p|] == p
  }

  // The longest operator the text starts with is the one that is read.
  lemma OperatorRead(t: string, x: Symbol)
    requires t != [] && Starts(t, Written(x))
    requires forall y :: Starts(t, Written(y)) ==> |Written(y)| <= |Written(x)|
    ensures LexOperator(t) == Some(Lexed(Sym(x), t[|Written(x)|..]))
  {
    First(t, x);
    if |t| >= 2 && TwoChars(t[0], t[1]).Some? {
      TwoWritten(t, TwoChars(t[0], t[1]).value);
    }
  }

  // And nothing is read where none starts.
  lemma OperatorRefused(t: string)
    requires t != [] && forall y :: !Starts(t, Written(y))
    ensures LexOperator(t) == None
  {
    if LexOperator(t).Some? {
      if |t| >= 2 && TwoChars(t[0], t[1]).Some? {
        TwoWritten(t, TwoChars(t[0], t[1]).value);
      } else {
        OneWritten(t, OneChar(t[0]).value);
      }
    }
  }

  lemma OneWritten(t: string, y: Symbol)
    requires t != [] && OneChar(t[0]) == Some(y)
    ensures Starts(t, Written(y))
  {
    assert t[..1] == [t[0]];
  }

  lemma First(t: string, x: Symbol)
    requires Starts(t, Written(x))
    ensures t[0] == Written(x)[0] && (|Written(x)| == 2 ==> t[1] == Written(x)[1])
  {
    assert t[..|Written(x)|][0] == t[0];
    if |Written(x)| == 2 {
      assert t[..2][1] == t[1];
    }
  }

  lemma TwoWritten(t: string, y: Symbol)
    requires |t| >= 2 && TwoChars(t[0], t[1]) == Some(y)
    ensures |Written(y)| == 2 && Starts(t, Written(y))
  {
    assert t[..2] == [t[0], t[1]];
  }

  // ------------------------------------------------------------------- comments

  predicate NoNewLine(c: string) {
    forall i | 0 <= i < |c| :: c[i] != '\n'
  }

  predicate NoEnd(c: string) {
    forall i | 0 <= i < |c| - 1 :: c[i] != '*' || c[i + 1] != '/'
  }

  lemma {:induction false} LineEnds(c: string, b: string)
    requires NoNewLine(c) && (b == [] || b[0] == '\n')
    ensures AfterLine(c + b) == b
    decreases |c|
  {
    if c == [] {
      assert c + b == b;
    } else {
      assert (c + b)[1..] == c[1..] + b;
      LineEnds(c[1..], b);
    }
  }

  lemma {:induction false} CommentEnds(c: string, b: string)
    requires NoEnd(c)
    ensures AfterComment(c + "*/" + b) == Some(b)
    decreases |c|
  {
    var s := c + "*/" + b;
    if c == [] {
      assert s[2..] == b;
    } else {
      assert s[1..] == c[1..] + "*/" + b;
      CommentEnds(c[1..], b);
      assert s[0] == c[0] && s[1] == if |c| > 1 then c[1] else '*';
    }
  }

  // A comment before what is left to read changes nothing.
  lemma LineCommentIsGap(c: string, b: string)
    requires NoNewLine(c) && (b == [] || b[0] == '\n')
    ensures Tokenize("//" + c + b) == Tokenize(b)
  {
    hide LexToken, AfterLine;
    var s := "//" + c + b;
    assert s[2..] == c + b && s[0] == '/' && s[1] == '/';
    LineEnds(c, b);
    assert SkipTrivia(s) == SkipTrivia(b);
  }

  lemma BlockCommentIsGap(c: string, b: string)
    requires NoEnd(c)
    ensures Tokenize("/*" + c + "*/" + b) == Tokenize(b)
  {
    hide LexToken, AfterComment;
    var s := "/*" + c + "*/" + b;
    assert s[2..] == c + "*/" + b && s[0] == '/' && s[1] == '*';
    CommentEnds(c, b);
    assert SkipTrivia(s) == SkipTrivia(b);
  }

  // Text that a blank cannot be drawn into: no pragma or line comment is open at its
  // end.
  predicate Plain(a: string) {
    (forall i | 0 <= i < |a| :: a[i] != '#') && forall i | 0 <= i < |a| - 1 :: a[i] != '/' || a[i + 1] != '/'
  }

  // Where one text ends and a blank follows, the next is read on its own.
  predicate Parted(a: string, sep: char) {
    sep == '\n' || (Space(sep) && Plain(a))
  }

  lemma PartedFrom(a: string, sep: char, i: nat)
    requires Parted(a, sep) && i <= |a|
    ensures Parted(a[i..], sep)
  {
    var t := a[i..];
    forall j | 0 <= j < |t| && sep != '\n' ensures t[j] != '#' {
      assert t[j] == a[i + j];
    }
    forall j | 0 <= j < |t| - 1 && sep != '\n' ensures t[j] != '/' || t[j + 1] != '/' {
      assert t[j] == a[i + j] && t[j + 1] == a[i + j + 1];
    }
  }

  lemma {:induction false} LineApart(a: string, s: string)
    ensures var r := AfterLine(a); |r| <= |a| && r == a[|a| - |r|..] && AfterLine(a + "\n" + s) == r + "\n" + s
    decreases |a|
  {
    if a == [] {
      assert a + "\n" + s == "\n" + s;
    } else {
      assert (a + "\n" + s)[1..] == a[1..] + "\n" + s;
      LineApart(a[1..], s);
      var r := AfterLine(a);
      assert a[0] != '\n' ==> a[1..][|a[1..]| - |r|..] == a[|a| - |r|..];
    }
  }

  lemma {:induction false} CommentApart(a: string, t: string)
    requires AfterComment(a).Some?
    ensures var r := AfterComment(a).value; |r| <= |a| && r == a[|a| - |r|..] && AfterComment(a + t) == Some(r + t)
    decreases |a|
  {
    var r := AfterComment(a).value;
    if a[0] == '*' && a[1] == '/' {
      assert (a + t)[2..] == a[2..] + t;
    } else {
      assert (a + t)[1..] == a[1..] + t;
      CommentApart(a[1..], t);
      assert a[1..][|a[1..]| - |r|..] == a[|a| - |r|..];
    }
  }

  // Skipping goes past the separator exactly when nothing else was left.
  predicate Skips(a: string, sep: char, s: string)
    requires SkipTrivia(a).Some?
  {
    var r := SkipTrivia(a).value;
    && |r| <= |a| && r == a[|a| - |r|..]
    && SkipTrivia(a + [sep] + s) == if r == [] then SkipTrivia(s) else Some(r + [sep] + s)
  }

  lemma {:induction false} TriviaApart(a: string, sep: char, s: string)
    requires Parted(a, sep) && SkipTrivia(a).Some?
    ensures Skips(a, sep, s)
    decreases |a|
  {
    hide Skips, SkipTrivia, Space, Plain;
    Leads(a, sep, s);
    if a == [] {
      SkipEmpty(sep, s);
    } else if Space(a[0]) {
      SkipSpace(a, sep, s);
      TriviaApart(a[1..], sep, s);
      SkipsFrom(a, a[1..], sep, s);
    } else if a[0] == '/' && |a| > 1 && a[1] == '/' {
      var b := SkipLine(a, sep, s);
      TriviaApart(b, sep, s);
      SkipsFrom(a, b, sep, s);
    } else if a[0] == '/' && |a| > 1 && a[1] == '*' {
      var b := SkipBlock(a, sep, s);
      TriviaApart(b, sep, s);
      SkipsFrom(a, b, sep, s);
    } else {
      SkipNone(a, sep, s);
    }
  }

  lemma Leads(a: string, sep: char, s: string)
    requires Parted(a, sep)
    ensures Space(sep)
  {
  }

  lemma SkipEmpty(sep: char, s: string)
    requires Space(sep)
    ensures SkipTrivia([]).Some? && Skips([], sep, s)
  {
    var t := [] + [sep] + s;
    assert t[1..] == s && t[0] == sep;
  }

  lemma SkipSpace(a: string, sep: char, s: string)
    requires a != [] && Space(a[0]) && Parted(a, sep) && SkipTrivia(a).Some?
    ensures SkipTrivia(a) == SkipTrivia(a[1..]) && SkipTrivia(a + [sep] + s) == SkipTrivia(a[1..] + [sep] + s)
    ensures Parted(a[1..], sep) && a[1..] == a[|a| - |a[1..]|..]
  {
    var t := a + [sep] + s;
    assert t[0] == a[0] && t[1..] == a[1..] + [sep] + s;
    PartedFrom(a, sep, 1);
  }

  lemma SkipLine(a: string, sep: char, s: string) returns (b: string)
    requires |a| > 1 && a[0] == '/' && a[1] == '/' && Parted(a, sep) && SkipTrivia(a).Some?
    ensures SkipTrivia(a) == SkipTrivia(b) && SkipTrivia(a + [sep] + s) == SkipTrivia(b + [sep] + s)
    ensures Parted(b, sep) && |b| < |a| && b == a[|a| - |b|..]
  {
    hide AfterLine;
    var t := a + [sep] + s;
    assert sep == '\n';
    assert t[0] == '/' && t[1] == '/' && t[2..] == a[2..] + "\n" + s;
    LineApart(a[2..], s);
    b := AfterLine(a[2..]);
    TailOf(a, 2, b);
    PartedFrom(a, sep, |a| - |b|);
  }

  lemma SkipBlock(a: string, sep: char, s: string) returns (b: string)
    requires |a| > 1 && a[0] == '/' && a[1] == '*' && Parted(a, sep) && SkipTrivia(a).Some?
    ensures SkipTrivia(a) == SkipTrivia(b) && SkipTrivia(a + [sep] + s) == SkipTrivia(b + [sep] + s)
    ensures Parted(b, sep) && |b| < |a| && b == a[|a| - |b|..]
  {
    hide AfterComment;
    var t := a + [sep] + s;
    assert t[0] == '/' && t[1] == '*' && t[2..] == a[2..] + ([sep] + s);
    CommentApart(a[2..], [sep] + s);
    b := AfterComment(a[2..]).value;
    assert b + ([sep] + s) == b + [sep] + s;
    TailOf(a, 2, b);
    PartedFrom(a, sep, |a| - |b|);
  }

  lemma SkipNone(a: string, sep: char, s: string)
    requires a != [] && Space(sep) && SkipTrivia(a).Some? && !Space(a[0])
    requires !(a[0] == '/' && |a| > 1 && (a[1] == '/' || a[1] == '*'))
    ensures Skips(a, sep, s)
  {
    var t := a + [sep] + s;
    assert t[0] == a[0] && t[1] == if |a| > 1 then a[1] else sep;
    assert a == a[0..];
  }

  lemma SkipsFrom(a: string, b: string, sep: char, s: string)
    requires SkipTrivia(a).Some? && SkipTrivia(a) == SkipTrivia(b) && Skips(b, sep, s)
    requires SkipTrivia(a + [sep] + s) == SkipTrivia(b + [sep] + s)
    requires |b| <= |a| && b == a[|a| - |b|..]
    ensures Skips(a, sep, s)
  {
    hide SkipTrivia;
    TailOf(a, |a| - |b|, SkipTrivia(a).value);
  }

  lemma TailOf(a: string, i: nat, r: string)
    requires i <= |a| && |r| <= |a[i..]| && r == a[i..][|a[i..]| - |r|..]
    ensures |r| <= |a| && r == a[|a| - |r|..]
  {
  }

  lemma {:induction false} WordApart(a: string, t: string)
    requires t != [] && !IdentChar(t[0])
    ensures WordLength(a + t) == WordLength(a)
    decreases |a|
  {
    if a == [] {
      assert a + t == t;
    } else {
      assert (a + t)[1..] == a[1..] + t;
      WordApart(a[1..], t);
    }
  }

  lemma {:induction false} PragmaApart(a: string, s: string)
    ensures LineLength(a + ("\n" + s)) == LineLength(a)
    decreases |a|
  {
    var t := a + ("\n" + s);
    if a == [] {
      assert t == "\n" + s;
    } else {
      assert t[1..] == a[1..] + ("\n" + s);
      PragmaApart(a[1..], s);
    }
  }

  lemma {:induction false} DigitsApart(a: string, t: string, base: nat, n: Scan)
    requires 0 < base <= 16 && t != [] && !IdentChar(t[0])
    ensures var r := ScanDigits(a, base, n);
            && |r.rest| <= |a| && r.rest == a[|a| - |r.rest|..]
            && ScanDigits(a + t, base, n) == Scanned(r.a, r.rest + t)
    decreases |a|
  {
    hide DigitValue, AddDigit;
    BreakIsNoDigit(t, base);
    if a == [] {
      assert a + t == t;
    } else {
      assert (a + t)[1..] == a[1..] + t;
      if a[0] == '_' {
        UnderscoreApart(a[1..], t, base, n);
        DigitsApart(a[1..], t, base, AddUnderscore(n, a[1..], base));
        TailOf(a, 1, ScanDigits(a, base, n).rest);
      } else if DigitValue(a[0]) < base {
        DigitsApart(a[1..], t, base, AddDigit(n, DigitValue(a[0]), base));
        TailOf(a, 1, ScanDigits(a, base, n).rest);
      }
    }
  }

  lemma UnderscoreApart(a: string, t: string, base: nat, n: Scan)
    requires t != [] && DigitValue(t[0]) >= base
    ensures AddUnderscore(n, a + t, base) == AddUnderscore(n, a, base)
  {
    hide DigitValue;
    assert a == [] ==> a + t == t;
  }

  lemma NumberApart(a: string, t: string)
    requires a != [] && Digit(a[0]) && t != [] && !IdentChar(t[0]) && LexNumber(a).Some?
    ensures Digit((a + t)[0])
    ensures LexNumber(a + t) == Some(Lexed(LexNumber(a).value.tok, LexNumber(a).value.rest + t))
    ensures var r := LexNumber(a).value.rest; |r| <= |a| && r == a[|a| - |r|..]
  {
    hide ScanDigits;
    var all := a + t;
    assert |a| >= 2 ==> all[1] == a[1] && all[2..] == a[2..] + t;
    assert |a| == 1 ==> all[1] == t[0];
    if Prefixed(a, 'x', 'X') {
      DigitsApart(a[2..], t, 16, START);
      WordApart(ScanDigits(a[2..], 16, START).rest, t);
      TailOf(a, 2, ScanDigits(a[2..], 16, START).rest);
    } else if Prefixed(a, 'b', 'B') {
      DigitsApart(a[2..], t, 2, START);
      WordApart(ScanDigits(a[2..], 2, START).rest, t);
      TailOf(a, 2, ScanDigits(a[2..], 2, START).rest);
    } else {
      DigitsApart(a, t, 10, START);
      WordApart(ScanDigits(a, 10, START).rest, t);
    }
  }

  // A token ends where it did when a blank follows the text.
  predicate Ends(a: string, sep: char, s: string, l: Option<Lexed>, all: Option<Lexed>) {
    && l.Some? && |l.value.rest| <= |a| && l.value.rest == a[|a| - |l.value.rest|..]
    && all == Some(Lexed(l.value.tok, l.value.rest + [sep] + s))
  }

  lemma TokenApart(a: string, sep: char, s: string)
    requires a != [] && Parted(a, sep) && LexToken(a).Some?
    ensures Ends(a, sep, s, LexToken(a), LexToken(a + [sep] + s))
  {
    hide LexNumber, LexWord, LexPragma, LexOperator, Ends;
    Leads(a, sep, s);
    var all := a + [sep] + s;
    assert all[0] == a[0];
    if IdentStart(a[0]) {
      WordEndsApart(a, sep, s);
    } else if Digit(a[0]) {
      NumberEndsApart(a, sep, s);
    } else if a[0] == '#' {
      PragmaEndsApart(a, sep, s);
    } else {
      OperatorApart(a, sep, s);
    }
  }

  lemma WordEndsApart(a: string, sep: char, s: string)
    requires a != [] && IdentStart(a[0]) && Space(sep) && LexWord(a).Some?
    ensures IdentStart((a + [sep] + s)[0]) && Ends(a, sep, s, LexWord(a), LexWord(a + [sep] + s))
  {
    hide WordToken, WordLength;
    var t := [sep] + s;
    var all := a + [sep] + s;
    assert a + t == all && all[0] == a[0];
    WordApart(a, t);
    var n := WordLength(a);
    assert all[..n] == a[..n] && all[n..] == a[n..] + [sep] + s;
  }

  lemma NumberEndsApart(a: string, sep: char, s: string)
    requires a != [] && Digit(a[0]) && Space(sep) && LexNumber(a).Some?
    ensures Digit((a + [sep] + s)[0]) && Ends(a, sep, s, LexNumber(a), LexNumber(a + [sep] + s))
  {
    hide LexNumber;
    var t := [sep] + s;
    assert a + t == a + [sep] + s && (a + [sep] + s)[0] == a[0];
    NumberApart(a, t);
    var r := LexNumber(a).value.rest;
    assert r + t == r + [sep] + s;
  }

  lemma PragmaEndsApart(a: string, sep: char, s: string)
    requires a != [] && a[0] == '#' && Parted(a, sep) && LexPragma(a).Some?
    ensures (a + [sep] + s)[0] == '#' && Ends(a, sep, s, LexPragma(a), LexPragma(a + [sep] + s))
  {
    hide LineLength;
    assert sep == '\n';
    var t := "\n" + s;
    var all := a + [sep] + s;
    assert a + t == all && all[0] == '#';
    PragmaApart(a, s);
    var n := LineLength(a);
    assert all[..n] == a[..n] && all[n..] == a[n..] + [sep] + s;
  }

  lemma OperatorApart(a: string, sep: char, s: string)
    requires a != [] && Space(sep) && LexOperator(a).Some?
    ensures Ends(a, sep, s, LexOperator(a), LexOperator(a + [sep] + s))
  {
    var all := a + [sep] + s;
    assert all[0] == a[0] && all[1..] == a[1..] + [sep] + s;
    if |a| >= 2 {
      assert all[1] == a[1] && all[2..] == a[2..] + [sep] + s;
    } else {
      assert all[1] == sep;
    }
  }

  // Text that can be read, then a blank, then more: the tokens of one and the other.
  lemma {:induction false} TextsApart(a: string, sep: char, s: string)
    requires Parted(a, sep) && Tokenize(a).Some?
    ensures Tokenize(a + [sep] + s) == match Tokenize(s) case None => None case Some(ts) => Some(Tokenize(a).value + ts)
    decreases |a|
  {
    hide LexToken, SkipTrivia;
    TriviaApart(a, sep, s);
    var r := SkipTrivia(a).value;
    if r == [] {
      TokenizeSkips(a + [sep] + s, s);
      assert Tokenize(a).value == [];
      if Tokenize(s).Some? {
        assert [] + Tokenize(s).value == Tokenize(s).value;
      }
    } else {
      PartedFrom(a, sep, |a| - |r|);
      TokenApart(r, sep, s);
      var l := LexToken(r).value;
      PartedFrom(r, sep, |r| - |l.rest|);
      TextsApart(l.rest, sep, s);
      assert Tokenize(a).value == [l.tok] + Tokenize(l.rest).value;
      if Tokenize(s).Some? {
        var ts := Tokenize(s).value;
        assert [l.tok] + (Tokenize(l.rest).value + ts) == Tokenize(a).value + ts;
      }
    }
  }

  lemma TokenizeSkips(t: string, s: string)
    requires SkipTrivia(t) == SkipTrivia(s)
    ensures Tokenize(t) == Tokenize(s)
  {
  }

  // A comment between readable text and anything else is a gap and no more.
  lemma LineCommentInvisible(a: string, sep: char, c: string, b: string)
    requires Parted(a, sep) && Tokenize(a).Some? && NoNewLine(c) && (b == [] || b[0] == '\n')
    ensures Tokenize(a + [sep] + ("//" + c + b)) == Tokenize(a + [sep] + b)
  {
    hide Tokenize;
    TextsApart(a, sep, "//" + c + b);
    TextsApart(a, sep, b);
    LineCommentIsGap(c, b);
  }

  lemma BlockCommentInvisible(a: string, sep: char, c: string, b: string)
    requires Parted(a, sep) && Tokenize(a).Some? && NoEnd(c)
    ensures Tokenize(a + [sep] + ("/*" + c + "*/" + b)) == Tokenize(a + [sep] + b)
  {
    hide Tokenize;
    TextsApart(a, sep, "/*" + c + "*/" + b);
    TextsApart(a, sep, b);
    BlockCommentIsGap(c, b);
  }
}
