/**
 Lexing (src/frontend/lexer.cpp) as functions on the text still to be read.  A
 diagnostic is a plain refusal.  The class in Lexer.dfy takes the same steps by
 moving a position, and is proved equal to these.
 */
module Lex {
  import opened Arith
  import opened FixedWidth
  import opened Syntax
  import opened Tokens
  import opened Wrappers

  predicate IdentStart(c: char) {
    'a' <= c <= 'z' || 'A' <= c <= 'Z' || c == '_'
  }

  predicate Digit(c: char) {
    '0' <= c <= '9'
  }

  predicate IdentChar(c: char) {
    IdentStart(c) || Digit(c)
  }

  predicate Space(c: char) {
    c == ' ' || c == '\t' || c == '\n' || c == '\r'
  }

  // A token and the text after it.
  datatype Lexed = Lexed(tok: Token, rest: string)

  // --------------------------------------------------------------------- trivia

  function AfterLine(s: string): (r: string)
    ensures |r| <= |s|
  {
    if s == [] || s[0] == '\n' then s else AfterLine(s[1..])
  }

  function AfterComment(s: string): (r: Option<string>)
    ensures r.Some? ==> |r.value| < |s|
  {
    if |s| < 2 then None
    else if s[0] == '*' && s[1] == '/' then Some(s[2..])
    else AfterComment(s[1..])
  }

  // skipTrivia, src/frontend/lexer.cpp:56-96
  function SkipTrivia(s: string): (r: Option<string>)
    ensures r.Some? ==> |r.value| <= |s|
    decreases |s|
  {
    if s == [] then Some(s)
    else if Space(s[0]) then SkipTrivia(s[1..])
    else if s[0] == '/' && |s| > 1 && s[1] == '/' then SkipTrivia(AfterLine(s[2..]))
    else if s[0] == '/' && |s| > 1 && s[1] == '*' then
      var rest :- AfterComment(s[2..]);
      SkipTrivia(rest)
    else Some(s)
  }

  // ---------------------------------------------------------------------- words

  // The length of the run of identifier characters s starts with.
  function WordLength(s: string): (n: nat)
    ensures n <= |s|
    ensures forall i | 0 <= i < n :: IdentChar(s[i])
    ensures n < |s| ==> !IdentChar(s[n])
  {
    if s == [] || !IdentChar(s[0]) then 0 else 1 + WordLength(s[1..])
  }

  function KeywordOf(w: string): Option<Keyword> {
    if w == "const" then Some(KwConst)
    else if w == "else" then Some(KwElse)
    else if w == "for" then Some(KwFor)
    else if w == "if" then Some(KwIf)
    else if w == "in" then Some(KwIn)
    else if w == "out" then Some(KwOut)
    else if w == "read" then Some(KwRead)
    else if w == "return" then Some(KwReturn)
    else if w == "stream" then Some(KwStream)
    else if w == "write" then Some(KwWrite)
    else None
  }

  // [iu][1-9][0-9]*
  predicate TypeShape(w: string) {
    && |w| >= 2 && (w[0] == 'i' || w[0] == 'u') && '1' <= w[1] <= '9'
    && forall i | 2 <= i < |w| :: Digit(w[i])
  }

  function DecimalDigit(c: char): (d: nat)
    requires Digit(c)
    ensures d < 10
  {
    (c - '0') as nat
  }

  // The number decimal digits denote.
  function Decimal(s: string): nat
    requires forall i | 0 <= i < |s| :: Digit(s[i])
  {
    if s == [] then 0 else Decimal(s[..|s| - 1]) * 10 + DecimalDigit(s[|s| - 1])
  }

  const MAX_TYPE_WIDTH: nat := 64

  // The classification in lexWord, src/frontend/lexer.cpp:107-148
  function WordToken(w: string): Option<Token> {
    var key := KeywordOf(w);
    if key.Some? then Some(Key(key.value))
    else if TypeShape(w) then
      var width := Decimal(w[1..]);
      if width <= MAX_TYPE_WIDTH then Some(TypeName(Ast.Type(width, w[0] == 'i'))) else None
    else Some(Identifier(w))
  }

  function LexWord(s: string): (r: Option<Lexed>)
    requires s != [] && IdentStart(s[0])
    ensures r.Some? ==> |r.value.rest| < |s|
  {
    var n := WordLength(s);
    var t :- WordToken(s[..n]);
    Some(Lexed(t, s[n..]))
  }

  // -------------------------------------------------------------------- numbers

  // digitValue: 16 stands for "no digit in any base".
  function DigitValue(c: char): nat {
    if Digit(c) then (c - '0') as nat
    else if 'a' <= c <= 'f' then (c - 'a') as nat + 10
    else if 'A' <= c <= 'F' then (c - 'A') as nat + 10
    else 16
  }

  // The scan's variables.
  datatype Scan = Scan(value: nat, hasDigit: bool, invalid: bool, overflow: bool)

  const MAX_LITERAL: nat := Pow2(WORD) - 1

  function AddDigit(a: Scan, d: nat, base: nat): Scan
    requires base > 0
  {
    hide Pow2;
    if d > MAX_LITERAL || a.value > (MAX_LITERAL - d) / base then a.(hasDigit := true, overflow := true)
    else a.(hasDigit := true, value := a.value * base + d)
  }

  function AddUnderscore(a: Scan, next: string, base: nat): Scan {
    if a.hasDigit && next != [] && DigitValue(next[0]) < base then a else a.(invalid := true)
  }

  datatype Scanned = Scanned(a: Scan, rest: string)

  // The loop of lexNumber.
  function ScanDigits(s: string, base: nat, a: Scan): (r: Scanned)
    requires 0 < base <= 16
    ensures |r.rest| <= |s|
  {
    if s == [] then Scanned(a, s)
    else if s[0] == '_' then ScanDigits(s[1..], base, AddUnderscore(a, s[1..], base))
    else if DigitValue(s[0]) >= base then Scanned(a, s)
    else ScanDigits(s[1..], base, AddDigit(a, DigitValue(s[0]), base))
  }

  predicate Prefixed(s: string, low: char, high: char) {
    |s| >= 2 && s[0] == '0' && (s[1] == low || s[1] == high)
  }

  const START := Scan(0, false, false, false)

  // lexNumber, src/frontend/lexer.cpp:155-213
  function LexNumber(s: string): (r: Option<Lexed>)
    requires s != [] && Digit(s[0])
    ensures r.Some? ==> |r.value.rest| < |s|
  {
    FirstDigit(s, 10);
    var n :=
      if Prefixed(s, 'x', 'X') then ScanDigits(s[2..], 16, START)
      else if Prefixed(s, 'b', 'B') then ScanDigits(s[2..], 2, START)
      else ScanDigits(s, 10, START);
    if WordLength(n.rest) > 0 || !n.a.hasDigit || n.a.invalid || n.a.overflow then None
    else Some(Lexed(Literal(n.a.value), n.rest))
  }

  lemma FirstDigit(s: string, base: nat)
    requires s != [] && Digit(s[0]) && 10 <= base <= 16
    ensures |ScanDigits(s, base, START).rest| < |s|
  {
  }

  // -------------------------------------------------------------------- pragmas

  const PRAGMA := "#pragma"

  function LineLength(s: string): (n: nat)
    ensures n <= |s|
    ensures forall i | 0 <= i < n :: s[i] != '\n'
    ensures n < |s| ==> s[n] == '\n'
  {
    if s == [] || s[0] == '\n' then 0 else 1 + LineLength(s[1..])
  }

  // lexPragma, src/frontend/lexer.cpp:219-227: the rest of the line.
  function LexPragma(s: string): (r: Option<Lexed>)
    requires s != [] && s[0] == '#'
    ensures r.Some? ==> |r.value.rest| < |s|
  {
    var n := LineLength(s);
    var text := s[..n];
    if |text| >= 7 && text[..7] == PRAGMA && (|text| == 7 || text[7] == ' ' || text[7] == '\t' || text[7] == '\r') then
      Some(Lexed(PragmaLine(text), s[n..]))
    else None
  }

  // ------------------------------------------------------------------ operators

  function TwoChars(a: char, b: char): Option<Symbol> {
    if a == '<' && b == '<' then Some(ShlT)
    else if a == '>' && b == '>' then Some(ShrT)
    else if a == '<' && b == '=' then Some(LeT)
    else if a == '>' && b == '=' then Some(GeT)
    else if a == '=' && b == '=' then Some(EqEqT)
    else if a == '!' && b == '=' then Some(BangEqT)
    else if a == '&' && b == '&' then Some(AmpAmpT)
    else if a == '|' && b == '|' then Some(PipePipeT)
    else None
  }

  function OneChar(c: char): Option<Symbol> {
    match c
    case '+' => Some(PlusT)
    case '-' => Some(MinusT)
    case '*' => Some(StarT)
    case '/' => Some(SlashT)
    case '%' => Some(PercentT)
    case '~' => Some(TildeT)
    case '&' => Some(AmpT)
    case '|' => Some(PipeT)
    case '^' => Some(CaretT)
    case '!' => Some(BangT)
    case '<' => Some(LtT)
    case '>' => Some(GtT)
    case '=' => Some(AssignT)
    case '?' => Some(Question)
    case ':' => Some(Colon)
    case '(' => Some(LParen)
    case ')' => Some(RParen)
    case '{' => Some(LBrace)
    case '}' => Some(RBrace)
    case '[' => Some(LBracket)
    case ']' => Some(RBracket)
    case ',' => Some(Comma)
    case ';' => Some(Semi)
    case _ => None
  }

  // lexOperator, src/frontend/lexer.cpp:235-272: the longest match.
  function LexOperator(s: string): (r: Option<Lexed>)
    requires s != []
    ensures r.Some? ==> |r.value.rest| < |s|
  {
    if |s| >= 2 && TwoChars(s[0], s[1]).Some? then Some(Lexed(Sym(TwoChars(s[0], s[1]).value), s[2..]))
    else
      var t :- OneChar(s[0]);
      Some(Lexed(Sym(t), s[1..]))
  }

  // --------------------------------------------------------------------- tokens

  function LexToken(s: string): (r: Option<Lexed>)
    requires s != []
    ensures r.Some? ==> |r.value.rest| < |s|
  {
    if IdentStart(s[0]) then LexWord(s)
    else if Digit(s[0]) then LexNumber(s)
    else if s[0] == '#' then LexPragma(s)
    else LexOperator(s)
  }

  // tokenize, src/frontend/lexer.cpp:17-24
  function Tokenize(s: string): Option<seq<Token>>
    decreases |s|
  {
    var t :- SkipTrivia(s);
    if t == [] then Some([])
    else
      var l :- LexToken(t);
      var rest :- Tokenize(l.rest);
      Some([l.tok] + rest)
  }

  // ------------------------------------------------------ what a number literal is

  // One step of the accumulation is exact: it overflows exactly when the number
  // does not fit.
  lemma AddDigitIff(a: Scan, d: nat, base: nat)
    requires 0 < base <= 16 && d < base && a.value <= MAX_LITERAL
    ensures AddDigit(a, d, base).overflow <==> a.overflow || a.value * base + d > MAX_LITERAL
    ensures AddDigit(a, d, base).value <= MAX_LITERAL
    ensures AddDigit(a, d, base).hasDigit && AddDigit(a, d, base).invalid == a.invalid
    ensures !AddDigit(a, d, base).overflow ==> AddDigit(a, d, base).value == a.value * base + d
  {
    Pow2Mono(5, WORD);
    assert Pow2(5) == 32;
    QuotientBound(a.value, MAX_LITERAL - d, base);
  }

  lemma QuotientBound(x: nat, m: nat, b: nat)
    requires b > 0
    ensures x > m / b <==> x * b > m
  {
    var q, r := m / b, m % b;
    assert m == b * q + r;
    if x > q {
      assert x * b >= (q + 1) * b;
    } else {
      assert x * b <= q * b;
    }
  }

  // The rest of a number whose beginning was read.
  predicate Continues(s: string, base: nat) {
    && (forall i | 0 <= i < |s| :: s[i] == '_' || DigitValue(s[i]) < base)
    && (forall i | 0 <= i < |s| && s[i] == '_' :: i + 1 < |s| && s[i + 1] != '_')
  }

  // Digits of a base, with underscores only between digits.
  predicate WellFormed(s: string, base: nat) {
    s != [] && s[0] != '_' && Continues(s, base)
  }

  // The number such digits denote.
  function Positional(s: string, base: nat, v: nat): nat {
    if s == [] then v
    else if s[0] == '_' then Positional(s[1..], base, v)
    else Positional(s[1..], base, v * base + DigitValue(s[0]))
  }

  lemma {:induction false} PositionalGrows(s: string, base: nat, v: nat)
    requires base > 0
    ensures Positional(s, base, v) >= v
  {
    if s != [] {
      if s[0] != '_' {
        Times(v, base);
        PositionalGrows(s[1..], base, v * base + DigitValue(s[0]));
      } else {
        PositionalGrows(s[1..], base, v);
      }
    }
  }

  lemma Times(v: nat, base: nat)
    requires base > 0
    ensures v * base >= v
  {
  }

  lemma {:induction false} ScanExact(s: string, tail: string, base: nat, a: Scan)
    requires 0 < base <= 16 && Continues(s, base) && (s == [] || s[0] != '_' || a.hasDigit)
    requires tail == [] || (tail[0] != '_' && DigitValue(tail[0]) >= base)
    requires a.value <= MAX_LITERAL
    ensures var r := ScanDigits(s + tail, base, a);
            && r.rest == tail && r.a.invalid == a.invalid && r.a.hasDigit == (a.hasDigit || s != [])
            && (!a.overflow ==>
                  && (r.a.overflow <==> Positional(s, base, a.value) > MAX_LITERAL)
                  && (!r.a.overflow ==> r.a.value == Positional(s, base, a.value)))
            && (a.overflow ==> r.a.overflow)
    decreases |s|
  {
    hide AddDigit, Pow2, Continues, DigitValue;
    if s == [] {
      assert s + tail == tail;
    } else {
      assert (s + tail)[1..] == s[1..] + tail;
      ContinuesTail(s, tail, base);
      if s[0] == '_' {
        ScanExact(s[1..], tail, base, a);
      } else {
        var d := DigitValue(s[0]);
        AddDigitIff(a, d, base);
        ScanExact(s[1..], tail, base, AddDigit(a, d, base));
        PositionalGrows(s[1..], base, a.value * base + d);
      }
    }
  }

  lemma ContinuesTail(s: string, tail: string, base: nat)
    requires s != [] && Continues(s, base)
    ensures Continues(s[1..], base)
    ensures s[0] == '_' ==> s[1..] != [] && s[1..][0] != '_' && DigitValue((s + tail)[1..][0]) < base
    ensures s[0] != '_' ==> DigitValue(s[0]) < base
  {
    if s[0] == '_' {
      assert s[0 + 1] != '_' && (s + tail)[1..][0] == s[1];
      assert s[1] == '_' || DigitValue(s[1]) < base;
    }
  }

  // The character after a number or a word.
  predicate Breaks(rest: string) {
    rest == [] || !IdentChar(rest[0])
  }

  // A decimal literal is read as its number exactly when that is below 2^128.
  lemma DecimalIff(s: string, rest: string)
    requires WellFormed(s, 10) && Breaks(rest)
    ensures Digit((s + rest)[0])
    ensures LexNumber(s + rest) ==
            if Positional(s, 10, 0) <= MAX_LITERAL then Some(Lexed(Literal(Positional(s, 10, 0)), rest)) else None
  {
    var all := s + rest;
    assert DigitValue(s[0]) < 10 && all[0] == s[0];
    if |all| >= 2 {
      if |s| >= 2 {
        assert all[1] == s[1] && (s[1] == '_' || DigitValue(s[1]) < 10);
      } else {
        assert all[1] == rest[0];
      }
    }
    ScanExact(s, rest, 10, START);
  }
}
