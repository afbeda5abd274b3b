/**
 The lexer as the source has it (src/frontend/lexer.cpp): one object whose methods
 move a position through the text.  It stops at its first diagnostic.
 */
module Lexer {
  import opened Arith
  import opened FixedWidth
  import opened Syntax
  import opened Tokens
  import L = Lex
  import Ast
  import opened Wrappers

  class Lexer {
    const text: string
    var pos: nat
    var failed: bool

    constructor (source: string)
      ensures text == source && Valid() && Rest() == source && !failed
    {
      text := source;
      pos, failed := 0, false;
      new;
      assert text[0..] == text;
    }

    predicate Valid()
      reads this
    {
      pos <= |text|
    }

    // What is still to be read.
    function Rest(): string
      reads this
      requires Valid()
    {
      text[pos..]
    }

    method Skip(n: nat)
      requires Valid() && n <= |Rest()|
      modifies `pos
      ensures Valid() && Rest() == old(Rest())[n..]
    {
      pos := pos + n;
    }

    // Blanks and comments.
    method SkipTrivia()
      requires Valid() && !failed
      modifies this
      ensures Valid()
      ensures var spec := L.SkipTrivia(old(Rest()));
              if spec.None? then failed else !failed && Rest() == spec.value
    {
      while pos < |text|
        invariant Valid() && !failed && L.SkipTrivia(Rest()) == L.SkipTrivia(old(Rest()))
        decreases |text| - pos
      {
        var c := text[pos];
        if L.Space(c) {
          Skip(1);
        } else if c == '/' && pos + 1 < |text| && text[pos + 1] == '/' {
          Skip(2);
          SkipLine();
        } else if c == '/' && pos + 1 < |text| && text[pos + 1] == '*' {
          Skip(2);
          SkipComment();
          if failed { return; }
        } else {
          return;
        }
      }
    }

    method SkipLine()
      requires Valid()
      modifies `pos
      ensures Valid() && pos >= old(pos) && Rest() == L.AfterLine(old(Rest()))
    {
      while pos < |text| && text[pos] != '\n'
        invariant Valid() && pos >= old(pos) && L.AfterLine(Rest()) == L.AfterLine(old(Rest()))
      {
        Skip(1);
      }
    }

    method SkipComment()
      requires Valid() && !failed
      modifies this
      ensures Valid() && pos >= old(pos)
      ensures var spec := L.AfterComment(old(Rest()));
              if spec.None? then failed else !failed && Rest() == spec.value
    {
      while pos + 1 < |text|
        invariant Valid() && pos >= old(pos) && !failed && L.AfterComment(Rest()) == L.AfterComment(old(Rest()))
      {
        if text[pos] == '*' && text[pos + 1] == '/' {
          Skip(2);
          return;
        }
        Skip(1);
      }
      failed := true;
    }

    // The maximal run of identifier characters, then its class.
    method LexWord() returns (t: Token)
      requires Valid() && !failed && Rest() != [] && L.IdentStart(Rest()[0])
      modifies this
      ensures Valid() && Reached(L.LexWord(old(Rest())), t)
    {
      var start := pos;
      while pos < |text| && L.IdentChar(text[pos])
        invariant start <= pos <= |text| && !failed
        invariant L.WordLength(text[start..]) == pos - start + L.WordLength(Rest())
      {
        Skip(1);
      }
      var w := text[start..pos];
      assert text[start..][..pos - start] == w;
      t := Classify(w);
    }

    predicate Reached(spec: Option<L.Lexed>, t: Token)
      reads this
      requires Valid()
    {
      match spec
      case None => failed
      case Some(l) => !failed && t == l.tok && Rest() == l.rest
    }

    method Classify(w: string) returns (t: Token)
      requires Valid() && !failed && w != []
      modifies `failed
      ensures var spec := L.WordToken(w); if spec.None? then failed else !failed && t == spec.value
    {
      var key := L.KeywordOf(w);
      if key.Some? {
        return Key(key.value);
      }
      if !L.TypeShape(w) {
        return Identifier(w);
      }
      var width := TypeWidth(w);
      if width > L.MAX_TYPE_WIDTH {
        failed := true;
      }
      t := TypeName(Ast.Type(width, w[0] == 'i'));
    }

    // The width, in 32 bits; the largest number stands for anything larger.
    method TypeWidth(w: string) returns (width: nat)
      requires L.TypeShape(w)
      ensures width == if L.Decimal(w[1..]) > MAX_U32 then MAX_U32 else L.Decimal(w[1..])
    {
      var overflow := false;
      width := 0;
      var i := 1;
      while i < |w|
        invariant 1 <= i <= |w| && width <= MAX_U32
        invariant overflow <==> L.Decimal(w[1..i]) > MAX_U32
        invariant !overflow ==> width == L.Decimal(w[1..i])
      {
        var digit := L.DecimalDigit(w[i]);
        assert w[1..i + 1][..i - 1] == w[1..i];
        L.QuotientBound(width, MAX_U32 - digit, 10);
        if width > (MAX_U32 - digit) / 10 {
          overflow := true;
        } else if !overflow {
          width := width * 10 + digit;
        }
        i := i + 1;
      }
      assert w[1..i] == w[1..];
      if overflow {
        width := MAX_U32;
      }
    }

    method LexNumber() returns (t: Token)
      requires Valid() && !failed && Rest() != [] && L.Digit(Rest()[0])
      modifies this
      ensures Valid() && Reached(L.LexNumber(old(Rest())), t)
    {
      var base := 10;
      if L.Prefixed(Rest(), 'x', 'X') {
        base := 16;
        Skip(2);
      } else if L.Prefixed(Rest(), 'b', 'B') {
        base := 2;
        Skip(2);
      }
      var a := ScanDigits(base);
      ghost var after := Rest();
      var junk := pos < |text| && L.IdentChar(text[pos]);
      while pos < |text| && L.IdentChar(text[pos])
        invariant Valid() && !failed && (!junk ==> Rest() == after)
        invariant !junk ==> pos == |text| || !L.IdentChar(text[pos])
      {
        Skip(1);
      }
      if a.overflow || a.invalid || junk || !a.hasDigit {
        failed := true;
      }
      t := Literal(a.value);
    }

    // The digits, their value, and what is wrong with them.
    method ScanDigits(base: nat) returns (a: L.Scan)
      requires Valid() && !failed && 0 < base <= 16
      modifies `pos
      ensures Valid() && L.Scanned(a, Rest()) == L.ScanDigits(old(Rest()), base, L.START)
    {
      a := L.START;
      while pos < |text|
        invariant Valid() && L.ScanDigits(Rest(), base, a) == L.ScanDigits(old(Rest()), base, L.START)
        decreases |text| - pos
      {
        var c := text[pos];
        if c == '_' {
          a := L.AddUnderscore(a, text[pos + 1..], base);
        } else {
          if L.DigitValue(c) >= base { return; }
          a := L.AddDigit(a, L.DigitValue(c), base);
        }
        Skip(1);
      }
    }

    method LexPragma() returns (t: Token)
      requires Valid() && !failed && Rest() != [] && Rest()[0] == '#'
      modifies this
      ensures Valid() && Reached(L.LexPragma(old(Rest())), t)
    {
      var start := pos;
      while pos < |text| && text[pos] != '\n'
        invariant start <= pos <= |text| && !failed
        invariant L.LineLength(text[start..]) == pos - start + L.LineLength(Rest())
      {
        Skip(1);
      }
      var line := text[start..pos];
      assert text[start..][..pos - start] == line;
      var valid := |line| >= 7 && line[..7] == L.PRAGMA
                   && (|line| == 7 || line[7] == ' ' || line[7] == '\t' || line[7] == '\r');
      if !valid {
        failed := true;
      }
      t := PragmaLine(line);
    }

    // The longest match.
    method LexOperator() returns (t: Token)
      requires Valid() && !failed && Rest() != []
      modifies this
      ensures Valid() && Reached(L.LexOperator(old(Rest())), t)
    {
      if pos + 1 < |text| && L.TwoChars(text[pos], text[pos + 1]).Some? {
        t := Sym(L.TwoChars(text[pos], text[pos + 1]).value);
        Skip(2);
        return;
      }
      var one := L.OneChar(text[pos]);
      if one.None? {
        failed := true;
        return Eof;
      }
      t := Sym(one.value);
      Skip(1);
    }

    method Next() returns (t: Token)
      requires Valid() && !failed
      modifies this
      ensures Valid()
      ensures var s := L.SkipTrivia(old(Rest()));
              if s.None? then failed
              else if s.value == [] then !failed && t == Eof && Rest() == []
              else Reached(L.LexToken(s.value), t)
    {
      SkipTrivia();
      if failed { return Eof; }
      if pos == |text| { return Eof; }
      var c := text[pos];
      if L.IdentStart(c) {
        t := LexWord();
      } else if L.Digit(c) {
        t := LexNumber();
      } else if c == '#' {
        t := LexPragma();
      } else {
        t := LexOperator();
      }
    }

    method Tokenize() returns (ts: seq<Token>)
      requires Valid() && !failed
      modifies this
      ensures Valid()
      ensures var spec := L.Tokenize(old(Rest())); if spec.None? then failed else !failed && ts == spec.value
    {
      ts := [];
      ghost var start := Rest();
      OntoNone(L.Tokenize(start));
      while true
        invariant Valid() && !failed && L.Tokenize(start) == Onto(ts, L.Tokenize(Rest()))
        decreases |text| - pos
      {
        ghost var before := Rest();
        var t := Next();
        if failed { return; }
        if t == Eof {
          NoEof(before);
          assert L.Tokenize(before) == Some([]);
          assert ts + [] == ts;
          return;
        }
        OntoOne(ts, t, L.Tokenize(Rest()));
        ts := ts + [t];
      }
    }
  }

  const MAX_U32: nat := 0xffff_ffff

  // Tokens already read, in front of the others.
  function Onto(done: seq<Token>, rest: Option<seq<Token>>): Option<seq<Token>> {
    var r :- rest;
    Some(done + r)
  }

  lemma OntoNone(rest: Option<seq<Token>>)
    ensures Onto([], rest) == rest
  {
    if rest.Some? {
      assert [] + rest.value == rest.value;
    }
  }

  lemma OntoOne(done: seq<Token>, t: Token, rest: Option<seq<Token>>)
    ensures Onto(done + [t], rest) == Onto(done, Onto([t], rest))
  {
    if rest.Some? {
      assert done + [t] + rest.value == done + ([t] + rest.value);
    }
  }

  // No token read is the end.
  lemma NoEof(s: string)
    ensures var t := L.SkipTrivia(s);
            t.Some? && t.value != [] && L.LexToken(t.value).Some? ==> L.LexToken(t.value).value.tok != Eof
  {
  }
}
