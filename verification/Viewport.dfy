// fill_window of linux_dev/show/show.c: one pass over a file shows a rectangle of its lines, each
// with its number.  The curses window is the sequence of what is drawn.
module Viewport {
  datatype Drawn = Number(n: int) | Glyph(c: char)

  // ---------- the rectangle ----------

  // The lines of a file; the last one has no newline and may be empty.
  function Lines(s: string): (ls: seq<string>)
    ensures ls != []
  {
    if s == [] then [[]]
    else
      Extend(Lines(s[..|s| - 1]), s[|s| - 1])
  }

  function Extend(ls: seq<string>, c: char): (ls': seq<string>)
    requires ls != []
    ensures ls' != []
  {
    if c == '\n' then ls + [[]] else ls[..|ls| - 1] + [ls[|ls| - 1] + [c]]
  }

  function Join(ls: seq<string>): string
    requires ls != []
  {
    if |ls| == 1 then ls[0] else Join(ls[..|ls| - 1]) + ['\n'] + ls[|ls| - 1]
  }

  // At most width characters of a line from an offset on.
  function Slice(line: string, offset: nat, width: int): string {
    var from := if offset <= |line| then line[offset..] else [];
    if width <= 0 then [] else if |from| <= width then from else from[..width]
  }

  function Glyphs(s: string): (g: seq<Drawn>)
    ensures |g| == |s| && forall i :: 0 <= i < |s| ==> g[i] == Glyph(s[i])
  {
    seq(|s|, i requires 0 <= i < |s| => Glyph(s[i]))
  }

  // What is drawn for one line: its slice, and, if a newline ends it, the newline and the next
  // line's number.
  function DrawLine(ls: seq<string>, k: nat, offset: nat, width: int): seq<Drawn>
    requires k < |ls|
  {
    Glyphs(Slice(ls[k], offset, width)) + if k + 1 < |ls| then [Glyph('\n'), Number(k + 2)] else []
  }

  // Lines k up to but not including end.
  function DrawLines(ls: seq<string>, k: nat, end: nat, offset: nat, width: int): seq<Drawn>
    requires end <= |ls|
  {
    if end <= k then [] else DrawLines(ls, k, end - 1, offset, width) + DrawLine(ls, end - 1, offset, width)
  }

  // The whole window: the first visible line's number, then at most height lines from vert on.
  function Window(ls: seq<string>, vert: nat, height: nat, offset: nat, width: int): seq<Drawn> {
    [Number(vert + 1)] + DrawLines(ls, vert, if vert + height <= |ls| then vert + height else |ls|, offset, width)
  }

  // ---------- lines ----------

  lemma {:induction false} LinesJoin(s: string)
    ensures Join(Lines(s)) == s
    ensures forall k :: 0 <= k < |Lines(s)| ==> '\n' !in Lines(s)[k]
  {
    if s != [] {
      var t, c := s[..|s| - 1], s[|s| - 1];
      LinesJoin(t);
      var ls := Lines(t);
      assert s == t + [c];
      if c == '\n' {
        assert (ls + [[]])[..|ls|] == ls;
      } else {
        AppendToLast(ls, c);
      }
    }
  }

  lemma AppendToLast(ls: seq<string>, c: char)
    requires ls != []
    ensures Join(ls[..|ls| - 1] + [ls[|ls| - 1] + [c]]) == Join(ls) + [c]
  {
    var init, last := ls[..|ls| - 1], ls[|ls| - 1];
    var r := init + [last + [c]];
    assert r[|r| - 1] == last + [c];
    if |ls| > 1 {
      assert r[..|r| - 1] == init;
      AppendString(Join(init) + ['\n'], last, [c]);
    }
  }

  lemma AppendString(a: string, b: string, c: string)
    ensures a + (b + c) == a + b + c
  {
  }

  // ---------- what the window shows ----------

  // The characters and the line numbers in a window, each in order.
  function Text(out: seq<Drawn>): string {
    if out == [] then [] else Text(out[..|out| - 1]) + Char(out[|out| - 1])
  }

  function Numbers(out: seq<Drawn>): seq<int> {
    if out == [] then [] else Numbers(out[..|out| - 1]) + Label(out[|out| - 1])
  }

  function Char(d: Drawn): string {
    match d
    case Glyph(c) => [c]
    case Number(_) => []
  }

  function Label(d: Drawn): seq<int> {
    match d
    case Glyph(_) => []
    case Number(n) => [n]
  }

  // The slices of lines k up to but not including end.
  function Slices(ls: seq<string>, k: nat, end: nat, offset: nat, width: int): (r: seq<string>)
    requires k <= end <= |ls|
    ensures |r| == end - k && forall i :: 0 <= i < |r| ==> r[i] == Slice(ls[k + i], offset, width)
  {
    seq(end - k, i requires 0 <= i < end - k => Slice(ls[k + i], offset, width))
  }

  // A slice holds the characters of the line from the offset on, as many as there are room for.
  lemma SliceAt(line: string, offset: nat, width: int, i: nat)
    ensures i < |Slice(line, offset, width)| <==> offset + i < |line| && i < width
    ensures i < |Slice(line, offset, width)| ==> Slice(line, offset, width)[i] == line[offset + i]
  {
  }

  lemma {:induction false} ReadSum(a: seq<Drawn>, b: seq<Drawn>)
    ensures Text(a + b) == Text(a) + Text(b) && Numbers(a + b) == Numbers(a) + Numbers(b)
  {
    if b == [] {
      assert a + b == a;
    } else {
      assert (a + b)[..|a + b| - 1] == a + b[..|b| - 1];
      ReadSum(a, b[..|b| - 1]);
    }
  }

  lemma {:induction false} ReadGlyphs(s: string)
    ensures Text(Glyphs(s)) == s && Numbers(Glyphs(s)) == []
  {
    if s != [] {
      ReadGlyphs(s[..|s| - 1]);
      assert Glyphs(s)[..|s| - 1] == Glyphs(s[..|s| - 1]);
    }
  }

  lemma ReadLineEnd(n: int)
    ensures Text([Glyph('\n'), Number(n)]) == ['\n'] && Numbers([Glyph('\n'), Number(n)]) == [n]
  {
    ReadSum([Glyph('\n')], [Number(n)]);
    assert [Glyph('\n'), Number(n)] == [Glyph('\n')] + [Number(n)];
    ReadOne(Glyph('\n'));
    ReadOne(Number(n));
  }

  lemma ReadDrawnLine(ls: seq<string>, k: nat, offset: nat, width: int)
    requires k < |ls|
    ensures Text(DrawLine(ls, k, offset, width)) ==
            Slice(ls[k], offset, width) + if k + 1 < |ls| then ['\n'] else []
    ensures Numbers(DrawLine(ls, k, offset, width)) == NumberBehind(ls, k)
  {
    var slice := Slice(ls[k], offset, width);
    ReadGlyphs(slice);
    ReadLineEnd(k + 2);
    ReadSum(Glyphs(slice), [Glyph('\n'), Number(k + 2)]);
    ReadSum(Glyphs(slice), []);
  }

  lemma ReadOne(d: Drawn)
    ensures Text([d]) == Char(d) && Numbers([d]) == Label(d)
  {
    assert [d][..0] == [];
  }

  lemma JoinLast(ls: seq<string>, last: string)
    ensures Join(ls + [last]) == Join(ls + [[]]) + last
    ensures Join(ls + [last] + [[]]) == Join(ls + [last]) + ['\n']
  {
    assert (ls + [last])[..|ls|] == ls && (ls + [[]])[..|ls|] == ls;
    assert (ls + [last] + [[]])[..|ls| + 1] == ls + [last];
  }

  lemma SlicesNext(ls: seq<string>, k: nat, end: nat, offset: nat, width: int)
    requires k < end <= |ls|
    ensures Slices(ls, k, end, offset, width) ==
            Slices(ls, k, end - 1, offset, width) + [Slice(ls[end - 1], offset, width)]
  {
  }

  // count numbers, counted up from the first.
  ghost predicate Counts(ns: seq<int>, first: int, count: int) {
    |ns| == count && forall i :: 0 <= i < count ==> ns[i] == first + i
  }

  lemma CountNext(front: seq<int>, first: int, count: int, last: int, ns: seq<int>, more: int)
    requires Counts(front, first, count) && last == first + count && ns == front + [last] && more == count + 1
    ensures Counts(ns, first, more)
  {
  }

  lemma CountFirst(rest: seq<int>, second: int, count: int, first: int, ns: seq<int>, more: int)
    requires Counts(rest, second, count) && second == first + 1 && ns == [first] + rest && more == count + 1
    ensures Counts(ns, first, more)
  {
  }

  lemma DrawNext(ls: seq<string>, k: nat, end: nat, offset: nat, width: int)
    requires k < end <= |ls|
    ensures DrawLines(ls, k, end, offset, width) ==
            DrawLines(ls, k, end - 1, offset, width) + DrawLine(ls, end - 1, offset, width)
  {
  }

  // What one more line adds.
  lemma ReadNext(ls: seq<string>, k: nat, n: nat, offset: nat, width: int)
    requires k <= n < |ls|
    ensures Text(DrawLines(ls, k, n + 1, offset, width)) ==
            Text(DrawLines(ls, k, n, offset, width)) + Slice(ls[n], offset, width) +
            (if n + 1 < |ls| then ['\n'] else [])
  {
    var all, front := DrawLines(ls, k, n + 1, offset, width), DrawLines(ls, k, n, offset, width);
    var line := DrawLine(ls, n, offset, width);
    ReadDrawnLine(ls, n, offset, width);
    DrawNext(ls, k, n + 1, offset, width);
    ReadAppended(all, front, line, Slice(ls[n], offset, width), if n + 1 < |ls| then ['\n'] else []);
  }

  lemma ReadAppended(all: seq<Drawn>, front: seq<Drawn>, line: seq<Drawn>, slice: string, end: string)
    requires all == front + line && Text(line) == slice + end
    ensures Text(all) == Text(front) + slice + end
  {
    ReadSum(front, line);
    AppendText(Text(front), slice, end);
  }

  // The number drawn behind a line.
  function NumberBehind(ls: seq<string>, k: nat): seq<int> {
    if k + 1 < |ls| then [k + 2] else []
  }

  lemma NumberNext(ls: seq<string>, k: nat, n: nat, end: nat, offset: nat, width: int)
    requires k <= n < end <= |ls| && end == n + 1
    ensures Numbers(DrawLines(ls, k, end, offset, width)) ==
            Numbers(DrawLines(ls, k, n, offset, width)) + NumberBehind(ls, n)
  {
    var line, ns := DrawLine(ls, n, offset, width), NumberBehind(ls, n);
    assert Numbers(line) == ns by {
      ReadDrawnLine(ls, n, offset, width);
    }
    DrawNext(ls, k, end, offset, width);
    NumbersAppended(DrawLines(ls, k, end, offset, width), DrawLines(ls, k, n, offset, width), line, ns);
  }

  lemma NumbersAppended(all: seq<Drawn>, front: seq<Drawn>, line: seq<Drawn>, ns: seq<int>)
    requires all == front + line && Numbers(line) == ns
    ensures Numbers(all) == Numbers(front) + ns
  {
    ReadSum(front, line);
  }

  lemma AppendText(a: string, b: string, c: string)
    ensures a + (b + c) == a + b + c
  {
  }

  // Lines that all have a newline behind them show as their slices, each with its newline.
  lemma {:induction false} ReadLines(ls: seq<string>, k: nat, end: nat, offset: nat, width: int)
    requires k <= end < |ls|
    ensures Text(DrawLines(ls, k, end, offset, width)) == Join(Slices(ls, k, end, offset, width) + [[]])
  {
    if end == k {
      assert Slices(ls, k, end, offset, width) + [[]] == [[]];
    } else {
      var n := end - 1;
      var shown, last := Slices(ls, k, n, offset, width), Slice(ls[n], offset, width);
      ReadLines(ls, k, n, offset, width);
      ReadNext(ls, k, n, offset, width);
      JoinLast(shown, last);
      SlicesNext(ls, k, end, offset, width);
    }
  }

  // In front of every line after the first stands its number.
  lemma {:induction false} ReadNumbers(ls: seq<string>, k: nat, n: nat, offset: nat, width: int) returns (ns: seq<int>)
    requires k <= n < |ls|
    ensures ns == Numbers(DrawLines(ls, k, n, offset, width))
    ensures Counts(ns, k + 2, n - k)
  {
    ns := [];
    if n > k {
      var front := ReadNumbers(ls, k, n - 1, offset, width);
      ns := front + NumberBehind(ls, n - 1);
      NumberNext(ls, k, n - 1, n, offset, width);
      CountNext(front, k + 2, n - 1 - k, n + 1, ns, n - k);
    }
  }

  // The window shows exactly the slices of its lines, joined by newlines, and ends with a newline
  // when lines follow behind it.
  lemma WindowShows(ls: seq<string>, vert: nat, height: nat, offset: nat, width: int)
    requires vert < |ls| && height > 0
    ensures var end := if vert + height <= |ls| then vert + height else |ls|;
            var shown := Slices(ls, vert, end, offset, width);
            Text(Window(ls, vert, height, offset, width)) == Join(if end < |ls| then shown + [[]] else shown)
  {
    var end := if vert + height <= |ls| then vert + height else |ls|;
    ReadOne(Number(vert + 1));
    ReadSum([Number(vert + 1)], DrawLines(ls, vert, end, offset, width));
    if end < |ls| {
      ReadLines(ls, vert, end, offset, width);
    } else {
      ReadToEnd(ls, vert, offset, width);
    }
  }

  lemma ReadToEnd(ls: seq<string>, k: nat, offset: nat, width: int)
    requires k < |ls|
    ensures Text(DrawLines(ls, k, |ls|, offset, width)) == Join(Slices(ls, k, |ls|, offset, width))
  {
    var n := |ls| - 1;
    var shown, last := Slices(ls, k, n, offset, width), Slice(ls[n], offset, width);
    ReadLines(ls, k, n, offset, width);
    ReadNext(ls, k, n, offset, width);
    JoinLast(shown, last);
    SlicesNext(ls, k, |ls|, offset, width);
  }

  // In front of each line of the window stands its number, counted from one in the file, and so does
  // the number of the line behind the window if there is one.
  lemma WindowNumbers(ls: seq<string>, vert: nat, height: nat, offset: nat, width: int) returns (ns: seq<int>)
    requires vert < |ls| && height > 0
    ensures ns == Numbers(Window(ls, vert, height, offset, width))
    ensures Counts(ns, vert + 1, if vert + height < |ls| then height + 1 else |ls| - vert)
  {
    var n := if vert + height < |ls| then vert + height else |ls| - 1;
    var behind := ReadNumbers(ls, vert, n, offset, width);
    ns := [vert + 1] + behind;
    CountFirst(behind, vert + 2, n - vert, vert + 1, ns, n - vert + 1);
    if vert + height < |ls| {
      NumberFirst(ls, vert, height, offset, width, n, behind);
    } else {
      NumberNext(ls, vert, n, |ls|, offset, width);
      NumberFirst(ls, vert, height, offset, width, |ls|, behind);
    }
  }

  lemma NumberFirst(ls: seq<string>, vert: nat, height: nat, offset: nat, width: int, end: nat, ns: seq<int>)
    requires vert < |ls| && end == if vert + height <= |ls| then vert + height else |ls|
    requires ns == Numbers(DrawLines(ls, vert, end, offset, width))
    ensures Numbers(Window(ls, vert, height, offset, width)) == [vert + 1] + ns
  {
    var out := DrawLines(ls, vert, end, offset, width);
    assert Window(ls, vert, height, offset, width) == [Number(vert + 1)] + out;
    ReadOne(Number(vert + 1));
    ReadSum([Number(vert + 1)], out);
  }

  // ---------- drawing one more character ----------

  lemma {:induction false} DrawLinesPrefix(ls: seq<string>, ls': seq<string>, k: nat, end: nat, offset: nat, width: int)
    requires end < |ls| && end < |ls'| && forall j :: 0 <= j < end ==> ls[j] == ls'[j]
    ensures DrawLines(ls, k, end, offset, width) == DrawLines(ls', k, end, offset, width)
  {
    if end > k {
      DrawLinesPrefix(ls, ls', k, end - 1, offset, width);
      assert DrawLine(ls, end - 1, offset, width) == DrawLine(ls', end - 1, offset, width);
    }
  }

  lemma SliceNext(line: string, c: char, offset: nat, width: int)
    ensures Slice(line + [c], offset, width) ==
            Slice(line, offset, width) + if offset <= |line| && |line| - offset < width then [c] else []
    ensures |Slice(line, offset, width)| ==
            if width <= 0 || |line| <= offset then 0 else if |line| - offset <= width then |line| - offset else width
  {
    if offset <= |line| {
      assert (line + [c])[offset..] == line[offset..] + [c];
    }
  }

  lemma GlyphsNext(s: string, c: char)
    ensures Glyphs(s + [c]) == Glyphs(s) + [Glyph(c)]
  {
  }

  lemma LinesNext(s: string, i: nat)
    requires i < |s|
    ensures Lines(s[..i + 1]) == Extend(Lines(s[..i]), s[i])
  {
    assert s[..i + 1][..i] == s[..i];
  }

  // A line that is still above the window draws nothing.
  lemma NextAbove(ls: seq<string>, ls': seq<string>, vert: nat, height: nat, offset: nat, width: int)
    requires ls != [] && |ls| <= vert
    requires ls' != [] && |ls'| <= vert + 1 && ls'[|ls'| - 1] == if |ls'| == vert + 1 then [] else ls'[|ls'| - 1]
    ensures Window(ls', vert, height, offset, width) == Window(ls, vert, height, offset, width)
  {
    var end := if vert + height <= |ls'| then vert + height else |ls'|;
    if end > vert {
      assert DrawLines(ls', vert, vert, offset, width) == [];
      assert Slice([], offset, width) == [];
    }
  }

  // The window while its last line is being drawn: finished lines, then a slice.
  lemma WindowLast(ls: seq<string>, vert: nat, height: nat, offset: nat, width: int)
    requires vert < |ls| <= vert + height
    ensures Window(ls, vert, height, offset, width) ==
            [Number(vert + 1)] + DrawLines(ls, vert, |ls| - 1, offset, width) +
            Glyphs(Slice(ls[|ls| - 1], offset, width))
  {
    var k := |ls| - 1;
    DrawLast(ls, vert, offset, width);
    Append([Number(vert + 1)], DrawLines(ls, vert, k, offset, width), Glyphs(Slice(ls[k], offset, width)));
  }

  lemma DrawLast(ls: seq<string>, vert: nat, offset: nat, width: int)
    requires vert < |ls|
    ensures DrawLines(ls, vert, |ls|, offset, width) ==
            DrawLines(ls, vert, |ls| - 1, offset, width) + Glyphs(Slice(ls[|ls| - 1], offset, width))
  {
    assert DrawLine(ls, |ls| - 1, offset, width) == Glyphs(Slice(ls[|ls| - 1], offset, width));
  }

  // A character of a visible line.
  lemma NextGlyph(ls: seq<string>, c: char, vert: nat, height: nat, offset: nat, width: int)
    requires vert < |ls| <= vert + height
    ensures var line := ls[|ls| - 1];
            Window(ls[..|ls| - 1] + [line + [c]], vert, height, offset, width) ==
            Window(ls, vert, height, offset, width)
            + if offset <= |line| && |line| - offset < width then [Glyph(c)] else []
  {
    var k, line := |ls| - 1, ls[|ls| - 1];
    var ls' := ls[..k] + [line + [c]];
    WindowLast(ls, vert, height, offset, width);
    WindowLast(ls', vert, height, offset, width);
    DrawLinesPrefix(ls, ls', vert, k, offset, width);
    GlyphsSliceNext(line, c, offset, width);
    assert ls'[|ls'| - 1] == line + [c];
    Append([Number(vert + 1)] + DrawLines(ls, vert, k, offset, width), Glyphs(Slice(line, offset, width)),
           if offset <= |line| && |line| - offset < width then [Glyph(c)] else []);
  }

  lemma GlyphsSliceNext(line: string, c: char, offset: nat, width: int)
    ensures Glyphs(Slice(line + [c], offset, width)) ==
            Glyphs(Slice(line, offset, width)) + if offset <= |line| && |line| - offset < width then [Glyph(c)] else []
  {
    SliceNext(line, c, offset, width);
    GlyphsNext(Slice(line, offset, width), c);
  }

  lemma Append(a: seq<Drawn>, b: seq<Drawn>, c: seq<Drawn>)
    ensures a + (b + c) == a + b + c
  {
  }

  // The newline of a visible line.
  lemma NextNewline(ls: seq<string>, vert: nat, height: nat, offset: nat, width: int)
    requires vert < |ls| <= vert + height
    ensures Window(ls + [[]], vert, height, offset, width) ==
            Window(ls, vert, height, offset, width) + [Glyph('\n'), Number(|ls| + 1)]
  {
    WindowLast(ls, vert, height, offset, width);
    LineEnds(ls, vert, offset, width);
    WindowEmptyLast(ls, vert, height, offset, width);
    Append3([Number(vert + 1)], DrawLines(ls, vert, |ls| - 1, offset, width),
            Glyphs(Slice(ls[|ls| - 1], offset, width)),
            [Glyph('\n'), Number(|ls| + 1)]);
  }

  lemma Append3(a: seq<Drawn>, b: seq<Drawn>, c: seq<Drawn>, d: seq<Drawn>)
    ensures a + (b + c + d) == a + b + c + d
  {
  }

  lemma WindowEmptyLast(ls: seq<string>, vert: nat, height: nat, offset: nat, width: int)
    requires vert < |ls| <= vert + height
    ensures Window(ls + [[]], vert, height, offset, width) ==
            [Number(vert + 1)] + DrawLines(ls + [[]], vert, |ls|, offset, width)
  {
    if |ls| < vert + height {
      EmptyLast(ls, vert, offset, width);
    }
  }

  // An empty last line draws nothing.
  lemma EmptyLast(ls: seq<string>, vert: nat, offset: nat, width: int)
    requires vert < |ls|
    ensures DrawLines(ls + [[]], vert, |ls| + 1, offset, width) == DrawLines(ls + [[]], vert, |ls|, offset, width)
  {
    var ls' := ls + [[]];
    assert ls'[|ls|] == [];
    EmptySlice(offset, width);
    assert DrawLine(ls', |ls|, offset, width) == [];
  }

  lemma LineEnds(ls: seq<string>, vert: nat, offset: nat, width: int)
    requires vert < |ls|
    ensures DrawLines(ls + [[]], vert, |ls|, offset, width) ==
            DrawLines(ls, vert, |ls| - 1, offset, width) + Glyphs(Slice(ls[|ls| - 1], offset, width)) +
            [Glyph('\n'), Number(|ls| + 1)]
  {
    var k, ls' := |ls| - 1, ls + [[]];
    DrawLinesPrefix(ls, ls', vert, k, offset, width);
    assert DrawLine(ls', k, offset, width) == Glyphs(Slice(ls[k], offset, width)) + [Glyph('\n'), Number(|ls| + 1)];
  }

  lemma EmptySlice(offset: nat, width: int)
    ensures Glyphs(Slice([], offset, width)) == []
  {
  }

  lemma EmptyWindow(vert: nat, height: nat, offset: nat, width: int)
    ensures Window([[]], vert, height, offset, width) == [Number(vert + 1)]
  {
    EmptySlice(offset, width);
    if vert < 1 <= vert + height {
      WindowLast([[]], vert, height, offset, width);
    }
  }

  // Once the line after the window has begun, nothing more is drawn.
  lemma FullNext(ls: seq<string>, c: char, vert: nat, height: nat, offset: nat, width: int)
    requires |ls| > vert + height
    ensures |Extend(ls, c)| >= |ls|
    ensures Window(Extend(ls, c), vert, height, offset, width) == Window(ls, vert, height, offset, width)
  {
    DrawLinesPrefix(ls, Extend(ls, c), vert, vert + height, offset, width);
  }

  lemma {:induction false} WindowFull(s: string, i: nat, vert: nat, height: nat, offset: nat, width: int)
    requires i <= |s| && |Lines(s[..i])| > vert + height
    ensures |Lines(s)| > vert + height
    ensures Window(Lines(s), vert, height, offset, width) == Window(Lines(s[..i]), vert, height, offset, width)
  {
    if i == |s| {
      assert s[..i] == s;
    } else {
      var t := s[..|s| - 1];
      assert t[..i] == s[..i];
      WindowFull(t, i, vert, height, offset, width);
      FullNext(Lines(t), s[|s| - 1], vert, height, offset, width);
    }
  }

  lemma WindowAtEnd(s: string, i: nat, vert: nat, height: nat, offset: nat, width: int)
    requires i == |s| || (i < |s| && |Lines(s[..i])| > vert + height)
    ensures Window(Lines(s), vert, height, offset, width) == Window(Lines(s[..i]), vert, height, offset, width)
  {
    if i < |s| {
      WindowFull(s, i, vert, height, offset, width);
    } else {
      assert s[..i] == s;
    }
  }

  // ---------- the loop ----------

  // The loop after a piece of text whose lines are ls: what the counters and the window hold.
  ghost predicate Passed(ls: seq<string>, vert: nat, height: nat, offset: nat, width: int,
                         countLines: int, countW: int, countHoffset: int, countVoffset: int, out: seq<Drawn>)
  {
    && ls != [] && |ls| <= vert + height + 1 && countLines == |ls| && countVoffset == |ls| - 1
    && (var line := if |ls| > vert then ls[|ls| - 1] else [];
        countHoffset == |line| && countW == |Slice(line, offset, width)|)
    && out == Window(ls, vert, height, offset, width)
  }

  lemma PassedNothing(s: string, vert: nat, height: nat, offset: nat, width: int)
    ensures Passed(Lines(s[..0]), vert, height, offset, width, 1, 0, 0, 0, [Number(vert + 1)])
  {
    assert s[..0] == [];
    EmptyWindow(vert, height, offset, width);
  }

  // One character of a visible line.
  lemma VisibleStep(ls: seq<string>, c: char, vert: nat, height: nat, offset: nat, width: int,
                    countLines: int, countW: int, countHoffset: int, countVoffset: int, out: seq<Drawn>)
    requires Passed(ls, vert, height, offset, width, countLines, countW, countHoffset, countVoffset, out)
    requires vert <= countVoffset < vert + height
    ensures c == '\n' ==>
              Passed(Extend(ls, c), vert, height, offset, width, countLines + 1, 0, 0, countVoffset + 1,
                     out + [Glyph(c)] + [Number(countLines + 1)])
    ensures c != '\n' && countHoffset >= offset && countW < width ==>
              Passed(Extend(ls, c), vert, height, offset, width, countLines, countW + 1, countHoffset + 1, countVoffset,
                     out + [Glyph(c)])
    ensures c != '\n' && !(countHoffset >= offset && countW < width) ==>
              Passed(Extend(ls, c), vert, height, offset, width, countLines, countW, countHoffset + 1, countVoffset,
                     out)
  {
    var line := ls[|ls| - 1];
    SliceNext(line, c, offset, width);
    if c != '\n' {
      NextGlyph(ls, c, vert, height, offset, width);
    } else {
      NextNewline(ls, vert, height, offset, width);
      SliceNext([], c, offset, width);
      Append(out, [Glyph(c)], [Number(countLines + 1)]);
    }
  }

  // One character above the window.
  lemma SkippedStep(ls: seq<string>, c: char, vert: nat, height: nat, offset: nat, width: int,
                    countLines: int, countW: int, countHoffset: int, countVoffset: int, out: seq<Drawn>)
    requires Passed(ls, vert, height, offset, width, countLines, countW, countHoffset, countVoffset, out)
    requires countVoffset < vert
    ensures var n := if c == '\n' then 1 else 0;
            Passed(Extend(ls, c), vert, height, offset, width, countLines + n, countW, countHoffset,
                   countVoffset + n, out)
  {
    SliceNext([], c, offset, width);
    NextAbove(ls, Extend(ls, c), vert, height, offset, width);
  }

  // fill_window: for every file and every window position the single pass draws exactly the
  // rectangle.  height and width are what the screen leaves, LINES - 2 * DX and
  // COLS - 2 * DX - (number_space + 1).
  method FillWindow(buf: string, vert: nat, horiz: nat, height: nat, width: int) returns (out: seq<Drawn>)
    ensures out == Window(Lines(buf), vert, height, horiz, width - 3)
  {
    out := [Number(1 + vert)];
    PassedNothing(buf, vert, height, horiz, width - 3);
    var countLines, countW, countHoffset, countVoffset, i := 1, 0, 0, 0, 0;
    ghost var ls := Lines(buf[..0]);
    while i < |buf|
      invariant 0 <= i <= |buf|
      invariant ls == Lines(buf[..i])
      invariant Passed(ls, vert, height, horiz, width - 3, countLines, countW, countHoffset, countVoffset, out)
    {
      if countVoffset - vert >= height {
        break;
      }
      LinesNext(buf, i);
      countLines, countW, countHoffset, countVoffset, out :=
        PassChar(ls, buf[i], vert, horiz, height, width, countLines, countW, countHoffset, countVoffset, out);
      ls := Extend(ls, buf[i]);
      i := i + 1;
    }
    WindowAtEnd(buf, i, vert, height, horiz, width - 3);
  }

  // The loop's body for one character inside or above the window.
  method PassChar(ghost ls: seq<string>, c: char, vert: nat, horiz: nat, height: nat, width: int,
                  lines: int, w: int, hoffset: int, voffset: int, drawn: seq<Drawn>)
    returns (countLines: int, countW: int, countHoffset: int, countVoffset: int, out: seq<Drawn>)
    requires Passed(ls, vert, height, horiz, width - 3, lines, w, hoffset, voffset, drawn)
    requires voffset - vert < height
    ensures Passed(Extend(ls, c), vert, height, horiz, width - 3, countLines, countW, countHoffset, countVoffset, out)
  {
    if voffset < vert {
      SkippedStep(ls, c, vert, height, horiz, width - 3, lines, w, hoffset, voffset, drawn);
      countLines, countW, countHoffset, countVoffset, out := lines, w, hoffset, voffset, drawn;
      if c == '\n' {
        countLines := countLines + 1;
        countVoffset := countVoffset + 1;
      }
    } else {
      VisibleStep(ls, c, vert, height, horiz, width - 3, lines, w, hoffset, voffset, drawn);
      countLines, countW, countHoffset, countVoffset, out :=
        DrawChar(c, horiz, width, lines, w, hoffset, voffset, drawn);
    }
  }

  // The part of fill_window's loop body that handles a character of a visible line.
  method DrawChar(c: char, horiz: nat, width: int, lines: int, w: int, hoffset: int, voffset: int, drawn: seq<Drawn>)
    returns (countLines: int, countW: int, countHoffset: int, countVoffset: int, out: seq<Drawn>)
    ensures c == '\n' ==> countLines == lines + 1 && countW == 0 && countHoffset == 0 && countVoffset == voffset + 1 &&
                          out == drawn + [Glyph(c)] + [Number(lines + 1)]
    ensures c != '\n' ==> countLines == lines && countHoffset == hoffset + 1 && countVoffset == voffset
    ensures c != '\n' && hoffset >= horiz && w < width - 3 ==> countW == w + 1 && out == drawn + [Glyph(c)]
    ensures c != '\n' && !(hoffset >= horiz && w < width - 3) ==> countW == w && out == drawn
  {
    countLines, countW, countHoffset, countVoffset, out := lines, w, hoffset + 1, voffset, drawn;
    if hoffset < horiz && c != '\n' {
      return;
    }
    if countW >= width - 3 && c != '\n' {
      return;
    }
    out := out + [Glyph(c)];
    countW := countW + 1;
    if c == '\n' {
      countLines := countLines + 1;
      out := out + [Number(countLines)];
      countW := 0;
      countHoffset := 0;
      countVoffset := countVoffset + 1;
    }
  }
}
