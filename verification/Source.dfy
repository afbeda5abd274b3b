/**
 Offsets to lines and columns (src/frontend/source.cpp) and back
 (src/hwgen/hwgen.cpp:64-76).
 */
module Source {
  import opened Wrappers

  // The offset of each line's first character, by counting line ends.
  function LineStarts(text: string): (r: seq<nat>)
    ensures |r| > 0 && r[0] == 0
  {
    if text == [] then [0]
    else
      var n := |text| - 1;
      LineStarts(text[..n]) + if text[n] == '\n' then [n + 1] else []
  }

  datatype Position = Position(line: nat, column: nat)

  // The position reached by reading the first `off` characters.
  function Walk(text: string, off: nat): Position
    requires off <= |text|
  {
    if off == 0 then Position(1, 1)
    else
      var p := Walk(text, off - 1);
      if text[off - 1] == '\n' then Position(p.line + 1, 1) else Position(p.line, p.column + 1)
  }

  predicate Before(p: Position, q: Position) {
    p.line < q.line || (p.line == q.line && p.column < q.column)
  }

  predicate Sorted(s: seq<nat>) {
    forall i, j | 0 <= i < j < |s| :: s[i] < s[j]
  }

  // Reading on never revisits a position.
  lemma {:induction false} WalkRises(text: string, i: nat, j: nat)
    requires i < j <= |text|
    ensures Before(Walk(text, i), Walk(text, j))
    decreases j
  {
    if i < j - 1 {
      WalkRises(text, i, j - 1);
    }
  }

  lemma {:induction false} WalkPrefix(text: string, n: nat, off: nat)
    requires off <= n <= |text|
    ensures Walk(text[..n], off) == Walk(text, off)
  {
    if off > 0 {
      WalkPrefix(text, n, off - 1);
    }
  }

  lemma {:induction false} StartsSorted(text: string)
    ensures Sorted(LineStarts(text)) && forall i | 0 <= i < |LineStarts(text)| :: LineStarts(text)[i] <= |text|
  {
    if text != [] {
      StartsSorted(text[..|text| - 1]);
    }
  }

  // The line of an offset is the number of line starts up to it, its column the
  // distance from the last of them.
  predicate Located(text: string, off: nat, line: nat)
    requires off <= |text|
  {
    var s := LineStarts(text);
    && 0 < line <= |s|
    && s[line - 1] <= off && (line < |s| ==> off < s[line])
    && Walk(text, off) == Position(line, off - s[line - 1] + 1)
  }

  // The whole text ends on its last line.
  lemma {:induction false} EndLocated(text: string)
    ensures Located(text, |text|, |LineStarts(text)|)
  {
    if text != [] {
      var n := |text| - 1;
      EndLocated(text[..n]);
      WalkPrefix(text, n, n);
      StartsSorted(text);
    }
  }

  lemma {:induction false} OffsetLocated(text: string, off: nat) returns (line: nat)
    requires off <= |text|
    ensures Located(text, off, line)
  {
    if off == |text| {
      EndLocated(text);
      line := |LineStarts(text)|;
    } else {
      var n := |text| - 1;
      line := OffsetLocated(text[..n], off);
      WalkPrefix(text, n, off);
    }
  }

  class SourceFile {
    const text: string
    var lineStarts: seq<nat>

    constructor (content: string)
      ensures text == content && Valid()
    {
      text := content;
      var starts := [0];
      var i := 0;
      while i < |content|
        invariant 0 <= i <= |content| && starts == LineStarts(content[..i])
      {
        assert content[..i + 1][..i] == content[..i];
        if content[i] == '\n' {
          starts := starts + [i + 1];
        }
        i := i + 1;
      }
      assert content[..i] == content;
      lineStarts := starts;
    }

    predicate Valid()
      reads this
    {
      lineStarts == LineStarts(text)
    }

    // The first line start beyond the offset, by bisection.
    method Line(off: nat) returns (line: nat)
      requires Valid() && off <= |text|
      ensures line == Walk(text, off).line
    {
      StartsSorted(text);
      var low, high := 0, |lineStarts|;
      while low < high
        invariant 0 <= low <= high <= |lineStarts|
        invariant forall i | 0 <= i < low :: lineStarts[i] <= off
        invariant forall i | high <= i < |lineStarts| :: off < lineStarts[i]
        decreases high - low
      {
        var mid := (low + high) / 2;
        if off < lineStarts[mid] {
          high := mid;
        } else {
          low := mid + 1;
        }
      }
      ghost var at := OffsetLocated(text, off);
      OneLine(lineStarts, off, low, at);
      return low;
    }

    method Column(off: nat) returns (column: nat)
      requires Valid() && off <= |text|
      ensures column == Walk(text, off).column
    {
      var line := Line(off);
      ghost var at := OffsetLocated(text, off);
      return off - lineStarts[line - 1] + 1;
    }
  }

  lemma OneLine(starts: seq<nat>, off: nat, a: nat, b: nat)
    requires Sorted(starts) && a <= |starts| && 0 < b <= |starts|
    requires forall i | 0 <= i < a :: starts[i] <= off
    requires forall i | a <= i < |starts| :: off < starts[i]
    requires starts[b - 1] <= off && (b < |starts| ==> off < starts[b])
    ensures a == b
  {
  }

  // rangeOf, src/hwgen/hwgen.cpp:64-76: walk the text until the position is met;
  // offset 0 when it never is.
  method RangeOf(text: string, want: Position) returns (off: nat)
    ensures (exists i | 0 <= i < |text| :: Walk(text, i) == want) ==> off < |text| && Walk(text, off) == want
    ensures (forall i | 0 <= i < |text| :: Walk(text, i) != want) ==> off == 0
  {
    var line, col := 1, 1;
    off := 0;
    while off < |text|
      invariant 0 <= off <= |text| && Position(line, col) == Walk(text, off)
      invariant forall i | 0 <= i < off :: Walk(text, i) != want
    {
      if line == want.line && col == want.column { return; }
      if text[off] == '\n' {
        line, col := line + 1, 1;
      } else {
        col := col + 1;
      }
      off := off + 1;
    }
    off := 0;
  }

  // The offset a position came from is the only one it can name.
  lemma WalkInjective(text: string, i: nat, j: nat)
    requires i <= |text| && j <= |text| && Walk(text, i) == Walk(text, j)
    ensures i == j
  {
    if i < j {
      WalkRises(text, i, j);
    } else if j < i {
      WalkRises(text, j, i);
    }
  }

  // Line and column of an offset inside the text lead back to it; the end of a
  // non-empty text leads to its start.
  method RoundTrip(file: SourceFile, off: nat) returns (back: nat)
    requires file.Valid() && off <= |file.text|
    ensures back == if off < |file.text| then off else 0
  {
    var line := file.Line(off);
    var column := file.Column(off);
    back := RangeOf(file.text, Position(line, column));
    if off < |file.text| {
      WalkInjective(file.text, back, off);
    } else {
      forall i | 0 <= i < |file.text| ensures Walk(file.text, i) != Walk(file.text, off) {
        WalkRises(file.text, i, off);
      }
    }
  }
}
