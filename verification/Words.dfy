/**
 Characters, words and lines (LANGUAGE.md:62-110, 746-750): which characters make a word,
 what each word is, what a blank and an open comment do, and that every token read is one
 the language has.
 */
module Words {
  import opened Arith
  import opened FixedWidth
  import Ast
  import opened Tokens
  import opened Lex
  import Lexemes
  import LexPrinted
  import opened Printer
  import opened Wrappers

  // ----------------------------------------------------------------------- characters

  predicate Letter(c: char) {
    c in "abcdefghijklmnopqrstuvwxyz" || c in "ABCDEFGHIJKLMNOPQRSTUVWXYZ" || c == '_'
  }

  predicate Figure(c: char) {
    c in "0123456789"
  }

  predicate Blank(c: char) {
    c in " \t\r\n"
  }

  lemma SmallIff(c: char)
    ensures c in "abcdefghijklmnopqrstuvwxyz" <==> 'a' <= c <= 'z'
  {
    var s := "abcdefghijklmnopqrstuvwxyz";
    if 'a' <= c <= 'z' {
      assert s[(c - 'a') as int] == c;
    }
  }

  lemma CapitalIff(c: char)
    ensures c in "ABCDEFGHIJKLMNOPQRSTUVWXYZ" <==> 'A' <= c <= 'Z'
  {
    var s := "ABCDEFGHIJKLMNOPQRSTUVWXYZ";
    if 'A' <= c <= 'Z' {
      assert s[(c - 'A') as int] == c;
    }
  }

  lemma LetterIff(c: char)
    ensures IdentStart(c) <==> Letter(c)
  {
    SmallIff(c);
    CapitalIff(c);
  }

  lemma FigureIff(c: char)
    ensures Digit(c) <==> Figure(c)
  {
    var s := "0123456789";
    if Digit(c) {
      assert s[(c - '0') as int] == c;
    }
  }

  lemma BlankIff(c: char)
    ensures Space(c) <==> Blank(c)
  {
    var s := " \t\r\n";
    assert s[0] == ' ' && s[1] == '\t' && s[2] == '\r' && s[3] == '\n';
  }

  // Letters and figures, a letter first.
  predicate IsWord(w: string) {
    w != [] && Letter(w[0]) && forall i | 0 <= i < |w| :: Letter(w[i]) || Figure(w[i])
  }

  // The text after a word goes on with something else.
  predicate Apart(rest: string) {
    rest == [] || !(Letter(rest[0]) || Figure(rest[0]))
  }

  // [iu][1-9][0-9]*
  predicate TypeLike(w: string) {
    |w| >= 2 && w[0] in "iu" && w[1] in "123456789" && forall i | 2 <= i < |w| :: Figure(w[i])
  }

  // ---------------------------------------------------------------------------- words

  // A whole word is a keyword, or else a type of at most 64 bits if it looks like one, or
  // else a name.
  lemma WordIs(w: string)
    ensures forall k: Keyword | w == KeywordText(k) :: WordToken(w) == Some(Key(k))
    ensures TypeLike(w) ==>
            var n := Lexemes.Denoted(w[1..], 10);
            WordToken(w) == if n <= 64 then Some(TypeName(Ast.Type(n, w[0] == 'i'))) else None
    ensures !TypeLike(w) && (forall k: Keyword :: w != KeywordText(k)) ==> WordToken(w) == Some(Identifier(w))
  {
    hide Lexemes.Denoted, Figure, Digit, Decimal;
    TypeLikeIff(w);
    NoOther(w);
    if TypeLike(w) {
      Lexemes.TypeWordIff(w);
    }
  }

  lemma TypeLikeIff(w: string)
    ensures TypeLike(w) <==> TypeShape(w)
  {
    hide Figure, Digit;
    forall i | 0 <= i < |w| ensures Figure(w[i]) <==> Digit(w[i]) {
      FigureIff(w[i]);
    }
    if |w| >= 2 {
      Signs(w[0]);
      FirstFigure(w[1]);
    }
  }

  lemma Signs(c: char)
    ensures c in "iu" <==> c == 'i' || c == 'u'
  {
    assert "iu"[0] == 'i' && "iu"[1] == 'u';
  }

  lemma FirstFigure(c: char)
    ensures c in "123456789" <==> '1' <= c <= '9'
  {
    var s := "123456789";
    if '1' <= c <= '9' {
      assert s[(c - '1') as int] == c;
    }
  }

  lemma NoOther(w: string)
    ensures KeywordOf(w) == None <==> forall k: Keyword :: w != KeywordText(k)
    ensures forall k: Keyword :: KeywordOf(w) == Some(k) <==> w == KeywordText(k)
  {
    if forall k: Keyword :: w != KeywordText(k) {
      assert w != KeywordText(KwConst) && w != KeywordText(KwElse) && w != KeywordText(KwFor) && w != KeywordText(KwIf);
      assert w != KeywordText(KwIn) && w != KeywordText(KwOut) && w != KeywordText(KwRead) && w != KeywordText(KwReturn);
      assert w != KeywordText(KwStream) && w != KeywordText(KwWrite);
    }
  }

  lemma WordCharacters(w: string)
    ensures IsWord(w) <==> LexPrinted.Word(w)
  {
    hide Letter, Figure, IdentStart, Digit;
    forall i | 0 <= i < |w| ensures (Letter(w[i]) <==> IdentStart(w[i])) && (Figure(w[i]) <==> Digit(w[i])) {
      LetterIff(w[i]);
      FigureIff(w[i]);
    }
  }

  lemma ApartIs(rest: string)
    ensures Apart(rest) <==> Breaks(rest)
  {
    hide Letter, Figure, IdentStart, Digit;
    if rest != [] {
      LetterIff(rest[0]);
      FigureIff(rest[0]);
    }
  }

  // The longest word is taken, whatever it is.
  lemma WordRead(w: string, rest: string)
    requires IsWord(w) && Apart(rest)
    ensures LexToken(w + rest) == match WordToken(w) case Some(t) => Some(Lexed(t, rest)) case None => None
  {
    hide Letter, Figure, WordToken;
    WordCharacters(w);
    ApartIs(rest);
    LexPrinted.WordEnds(w, rest);
    var s := w + rest;
    assert s[0] == w[0] && s[..|w|] == w && s[|w|..] == rest;
  }

  // --------------------------------------------------------------------------- blanks

  lemma BlankIsGap(c: char, s: string)
    requires Blank(c)
    ensures Tokenize([c] + s) == Tokenize(s)
  {
    hide Blank, LexToken;
    BlankIff(c);
    var t := [c] + s;
    assert t[0] == c && t[1..] == s;
    assert SkipTrivia(t) == SkipTrivia(s);
  }

  // A comment that is never closed is refused.
  lemma {:induction false} NeverCloses(c: string)
    requires Lexemes.NoEnd(c)
    ensures AfterComment(c) == None
    decreases |c|
  {
    if |c| >= 2 {
      NeverCloses(c[1..]);
    }
  }

  lemma OpenComment(c: string)
    requires Lexemes.NoEnd(c)
    ensures Tokenize("/*" + c) == None
  {
    hide AfterComment, LexToken;
    NeverCloses(c);
    var s := "/*" + c;
    assert s[0] == '/' && s[1] == '*' && s[2..] == c;
  }

  // -------------------------------------------------------------------------- pragmas

  lemma {:induction false} LineTaken(line: string, rest: string)
    requires Lexemes.NoNewLine(line) && (rest == [] || rest[0] == '\n')
    ensures LineLength(line + rest) == |line|
    decreases |line|
  {
    if line == [] {
      assert line + rest == rest;
    } else {
      assert (line + rest)[1..] == line[1..] + rest;
      LineTaken(line[1..], rest);
    }
  }

  // A line that starts with `#` is a pragma line if it starts with that word, and is
  // refused otherwise.
  lemma PragmaRead(line: string, rest: string)
    requires line != [] && line[0] == '#' && Lexemes.NoNewLine(line) && (rest == [] || rest[0] == '\n')
    ensures LexToken(line + rest) ==
            if Lexemes.Starts(line, "#pragma") && (|line| == 7 || Blank(line[7])) then Some(Lexed(PragmaLine(line), rest)) else None
  {
    hide LineLength, Blank;
    var s := line + rest;
    LineTaken(line, rest);
    assert s[0] == '#' && s[..|line|] == line && s[|line|..] == rest;
    if |line| > 7 {
      BlankIff(line[7]);
    }
  }

  // ------------------------------------------------------------------------ all tokens

  // A token a text can hold.
  predicate LegalToken(t: Token) {
    match t
    case Identifier(w) => LexPrinted.LegalName(w)
    case Literal(v) => v <= MAX_LITERAL
    case TypeName(ty) => LexPrinted.LegalType(ty)
    case Eof => false
    case _ => true
  }

  predicate LegalTokens(ts: seq<Token>) {
    forall i | 0 <= i < |ts| :: LegalToken(ts[i])
  }

  lemma WordLegal(s: string)
    requires s != [] && IdentStart(s[0]) && LexWord(s).Some?
    ensures LegalToken(LexWord(s).value.tok)
  {
    hide Decimal, IdentStart, Digit;
    var w := s[..WordLength(s)];
    assert w != [] && w[0] == s[0];
    assert LexPrinted.Word(w);
    if KeywordOf(w).None? && TypeShape(w) {
      TypeLegal(w);
    }
  }

  lemma TypeLegal(w: string)
    requires TypeShape(w)
    ensures forall i | 0 <= i < |w[1..]| :: Digit(w[1..][i])
    ensures Decimal(w[1..]) >= 1
  {
    var d := w[1..];
    assert d[0] == w[1];
    FirstCounts(d);
  }

  lemma {:induction false} FirstCounts(s: string)
    requires s != [] && (forall i | 0 <= i < |s| :: Digit(s[i])) && s[0] != '0'
    ensures Decimal(s) >= 1
    decreases |s|
  {
    if |s| > 1 {
      FirstCounts(s[..|s| - 1]);
    }
  }

  lemma {:induction false} ScanSmall(s: string, base: nat, a: Scan)
    requires 0 < base <= 16 && a.value <= MAX_LITERAL
    ensures ScanDigits(s, base, a).a.value <= MAX_LITERAL
    decreases |s|
  {
    hide Pow2, DigitValue;
    if s != [] {
      if s[0] == '_' {
        ScanSmall(s[1..], base, AddUnderscore(a, s[1..], base));
      } else if DigitValue(s[0]) < base {
        AddDigitIff(a, DigitValue(s[0]), base);
        ScanSmall(s[1..], base, AddDigit(a, DigitValue(s[0]), base));
      }
    }
  }

  lemma NumberLegal(s: string)
    requires s != [] && Digit(s[0]) && LexNumber(s).Some?
    ensures LegalToken(LexNumber(s).value.tok)
  {
    hide ScanDigits;
    ScanSmall(s, 10, START);
    if |s| >= 2 {
      ScanSmall(s[2..], 16, START);
      ScanSmall(s[2..], 2, START);
    }
  }

  // Every token of a text is one the language has: names that are no keyword and no
  // type, types of 1 to 64 bits, literals below 2^128.
  lemma {:induction false} TokensLegal(s: string)
    requires Tokenize(s).Some?
    ensures LegalTokens(Tokenize(s).value)
    decreases |s|
  {
    hide LexToken, SkipTrivia, LegalToken;
    var t := SkipTrivia(s).value;
    if t != [] {
      TokenLegal(t);
      TokensLegal(LexToken(t).value.rest);
    }
  }

  lemma TokenLegal(s: string)
    requires s != [] && LexToken(s).Some?
    ensures LegalToken(LexToken(s).value.tok)
  {
    hide LexWord, LexNumber, LegalToken;
    if IdentStart(s[0]) {
      WordLegal(s);
    } else if Digit(s[0]) {
      NumberLegal(s);
    } else {
      OtherLegal(s);
    }
  }

  lemma OtherLegal(s: string)
    requires s != [] && !IdentStart(s[0]) && !Digit(s[0]) && LexToken(s).Some?
    ensures LegalToken(LexToken(s).value.tok)
  {
  }
}
