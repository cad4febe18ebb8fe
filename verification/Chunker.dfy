/** How a source file becomes chunks: overlapping windows of lines inside symbol regions. */
module Chunker {
  import opened Prelude
  import opened Segments

  /** A symbol and the line, counted from 1, where it starts. */
  type Marker = (nat, string)

  datatype Window = Window(start: nat, end: nat, symbol: string, content: string)

  function JoinLines(lines: seq<string>): string {
    if lines == [] then ""
    else if |lines| == 1 then lines[0]
    else JoinLines(lines[..|lines| - 1]) + "\n" + lines[|lines| - 1]
  }

  /** Lines `first` to `last`, as far as they exist. */
  function LinesBetween(lines: seq<string>, first: nat, last: nat): seq<string>
    requires 1 <= first <= last
  {
    lines[Min(first - 1, |lines|)..Min(last, |lines|)]
  }

  function ContentOf(lines: seq<string>, first: nat, last: nat): string
    requires 1 <= first <= last
  {
    JoinLines(LinesBetween(lines, first, last))
  }

  predicate Blank(text: string, isSpace: char -> bool) {
    Strip(text, isSpace) == ""
  }

  /** Which is to say that it is all white space. */
  lemma BlankIffAllSpace(text: string, isSpace: char -> bool)
    ensures Blank(text, isSpace) <==> forall c <- text :: isSpace(c)
  {
    StripTakesEnds(text, isSpace);
    var r := Strip(text, isSpace);
    var a, b :| text == a + r + b && (forall c <- a :: isSpace(c)) && forall c <- b :: isSpace(c);
    if r != "" {
      assert text[|a|] == r[0];
    }
  }

  /** A line with anything on it but white space. */
  ghost predicate Visible(lines: seq<string>, line: nat, isSpace: char -> bool) {
    1 <= line <= |lines| && Ink(lines[line - 1], isSpace) != ""
  }

  lemma InkOfLastLine(lines: seq<string>, isSpace: char -> bool)
    requires |lines| > 1
    ensures Ink(JoinLines(lines), isSpace)
            == Ink(JoinLines(lines[..|lines| - 1]), isSpace) + Ink("\n", isSpace) + Ink(lines[|lines| - 1], isSpace)
  {
    var front := JoinLines(lines[..|lines| - 1]);
    InkOfSum(front + "\n", lines[|lines| - 1], isSpace);
    InkOfSum(front, "\n", isSpace);
  }

  lemma {:induction false} InkOfLine(lines: seq<string>, i: nat, isSpace: char -> bool)
    requires i < |lines| && Ink(lines[i], isSpace) != ""
    ensures Ink(JoinLines(lines), isSpace) != ""
  {
    if |lines| > 1 {
      InkOfLastLine(lines, isSpace);
      if i < |lines| - 1 {
        InkOfLine(lines[..|lines| - 1], i, isSpace);
      }
    }
  }

  lemma VisibleIsNotBlank(lines: seq<string>, first: nat, last: nat, line: nat, isSpace: char -> bool)
    requires 1 <= first <= line <= last && Visible(lines, line, isSpace)
    ensures !Blank(ContentOf(lines, first, last), isSpace)
  {
    var inside := LinesBetween(lines, first, last);
    assert inside[line - first] == lines[line - 1];
    InkOfLine(inside, line - first, isSpace);
    StripKeepsInk(ContentOf(lines, first, last), isSpace);
  }

  // ----- regions -----

  /** The symbol the last marker of a line gives it. */
  function SymbolAt(markers: seq<Marker>, line: nat): string {
    if markers == [] then ""
    else if markers[|markers| - 1].0 == line then markers[|markers| - 1].1
    else SymbolAt(markers[..|markers| - 1], line)
  }

  ghost predicate Marked(markers: seq<Marker>, line: nat) {
    exists m <- markers :: m.0 == line
  }

  predicate Less(a: nat, b: nat) { a < b }

  ghost predicate StartsAt(starts: seq<Marker>, line: nat) {
    exists s <- starts :: s.0 == line
  }

  /** Where regions start: line 1 and every marked line, in order, each with its symbol. */
  ghost predicate Starts(markers: seq<Marker>, starts: seq<Marker>) {
    && starts != [] && starts[0].0 == 1
    && (forall i, j :: 0 <= i < j < |starts| ==> starts[i].0 < starts[j].0)
    && (forall i :: 0 <= i < |starts| ==> (starts[i].0 == 1 || Marked(markers, starts[i].0)) && starts[i].1 == SymbolAt(markers, starts[i].0))
    && (forall m <- markers :: StartsAt(starts, m.0))
  }

  ghost predicate Listed(markers: seq<Marker>, order: seq<nat>, symbols: map<nat, string>) {
    && Unique(order) && symbols.Keys == (set line | line in order)
    && (forall line :: line in order <==> line == 1 || Marked(markers, line))
    && (forall line <- order :: symbols[line] == SymbolAt(markers, line))
  }

  lemma ListedOneMore(markers: seq<Marker>, i: nat, order: seq<nat>, symbols: map<nat, string>)
    requires i < |markers| && Listed(markers[..i], order, symbols)
    ensures var m := markers[i];
            Listed(markers[..i + 1], if m.0 in order then order else order + [m.0], symbols[m.0 := m.1])
  {
    var m := markers[i];
    assert markers[..i + 1] == markers[..i] + [m];
    forall line ensures Marked(markers[..i + 1], line) <==> Marked(markers[..i], line) || line == m.0 {
    }
  }

  lemma SortedLinesIncrease(order: seq<nat>)
    requires Unique(order)
    ensures forall i, j :: 0 <= i < j < |order| ==> Sort(order, Less)[i] < Sort(order, Less)[j]
    ensures forall line :: line in Sort(order, Less) <==> line in order
  {
    var sorted := Sort(order, Less);
    SortSorts(order, Less);
    SortedMembers(order, Less);
    UniquePermutation(order, sorted);
    forall i, j | 0 <= i < j < |order| ensures sorted[i] < sorted[j] {
      assert !Less(sorted[j], sorted[i]);
    }
  }

  ghost predicate Paired(lines: seq<nat>, symbols: map<nat, string>, starts: seq<Marker>) {
    |starts| == |lines| && forall i :: 0 <= i < |starts| ==> lines[i] in symbols && starts[i] == (lines[i], symbols[lines[i]])
  }

  lemma StartsAtAll(sorted: seq<nat>, symbols: map<nat, string>, starts: seq<Marker>)
    requires Paired(sorted, symbols, starts)
    ensures forall line <- sorted :: StartsAt(starts, line)
  {
    forall line | line in sorted ensures StartsAt(starts, line) {
      var i :| 0 <= i < |sorted| && sorted[i] == line;
      assert starts[i] in starts;
    }
  }

  lemma InOrder(markers: seq<Marker>, order: seq<nat>, symbols: map<nat, string>, sorted: seq<nat>, starts: seq<Marker>)
    requires Listed(markers, order, symbols) && forall m <- markers :: m.0 >= 1
    requires sorted == Sort(order, Less) && Paired(sorted, symbols, starts)
    ensures Starts(markers, starts)
  {
    SortedLinesIncrease(order);
    StartsAtAll(sorted, symbols, starts);
    assert 1 in sorted;
    assert sorted[0] in order;
    forall i | 0 <= i < |starts|
      ensures (starts[i].0 == 1 || Marked(markers, starts[i].0)) && starts[i].1 == SymbolAt(markers, starts[i].0)
    {
      assert sorted[i] in order;
    }
    forall m | m in markers ensures StartsAt(starts, m.0) {
      assert Marked(markers, m.0);
    }
  }

  method RegionStarts(markers: seq<Marker>) returns (starts: seq<Marker>)
    requires forall m <- markers :: m.0 >= 1
    ensures Starts(markers, starts)
  {
    var order, symbols: map<nat, string> := [1], map[1 := ""];
    for i := 0 to |markers|
      invariant Listed(markers[..i], order, symbols)
    {
      ListedOneMore(markers, i, order, symbols);
      var (line, symbol) := markers[i];
      order, symbols := if line in order then order else order + [line], symbols[line := symbol];
    }
    assert markers[..|markers|] == markers;
    var sorted := Sort(order, Less);
    SortedMembers(order, Less);
    starts := [];
    for i := 0 to |sorted|
      invariant Paired(sorted[..i], symbols, starts)
    {
      starts := starts + [(sorted[i], symbols[sorted[i]])];
    }
    assert sorted[..|sorted|] == sorted;
    InOrder(markers, order, symbols, sorted, starts);
  }

  // ----- where windows are cut -----

  /** From one cut of a region to the next: the lines of a window less those shared, and at least one. */
  function Stride(maxLines: nat, overlap: nat): nat {
    if overlap < maxLines then maxLines - overlap else 1
  }

  function CutStart(first: nat, stride: nat, k: nat): nat {
    if k == 0 then first else CutStart(first, stride, k - 1) + stride
  }

  /** The k-th cut of a region: there is a next one until one reaches the region's end, and all but that one have maxLines lines. */
  ghost predicate Cut(first: nat, last: nat, maxLines: nat, overlap: nat, k: nat, start: nat, end: nat) {
    var stride := Stride(maxLines, overlap);
    && start == CutStart(first, stride, k) && start <= last
    && (k > 0 ==> CutStart(first, stride, k - 1) + maxLines - 1 < last)
    && end == if last < start + maxLines - 1 then last else start + maxLines - 1
  }

  ghost predicate HasWindow(windows: seq<Window>, start: nat, end: nat) {
    exists w <- windows :: w.start == start && w.end == end
  }

  /** Unless the stretch is blank, there is a window of just that stretch. */
  ghost predicate WindowUnlessBlank(lines: seq<string>, isSpace: char -> bool, windows: seq<Window>, start: nat, end: nat) {
    1 <= start <= end && !Blank(ContentOf(lines, start, end), isSpace) ==> HasWindow(windows, start, end)
  }

  ghost predicate IsCut(first: nat, last: nat, maxLines: nat, overlap: nat, start: nat, end: nat) {
    exists k: nat :: Cut(first, last, maxLines, overlap, k, start, end)
  }

  /** The windows are those of the first n cuts that are not blank. */
  ghost predicate CutSoFar(lines: seq<string>, first: nat, last: nat, maxLines: nat, overlap: nat, isSpace: char -> bool, windows: seq<Window>, n: nat) {
    && (forall w <- windows :: IsCut(first, last, maxLines, overlap, w.start, w.end))
    && forall k: nat, start: nat, end: nat ::
         k < n && Cut(first, last, maxLines, overlap, k, start, end) ==> WindowUnlessBlank(lines, isSpace, windows, start, end)
  }

  /** The windows are those of all cuts of the region that are not blank. */
  ghost predicate CutAll(lines: seq<string>, first: nat, last: nat, maxLines: nat, overlap: nat, isSpace: char -> bool, windows: seq<Window>) {
    && (forall w <- windows :: IsCut(first, last, maxLines, overlap, w.start, w.end))
    && forall start: nat, end: nat ::
         IsCut(first, last, maxLines, overlap, start, end) ==> WindowUnlessBlank(lines, isSpace, windows, start, end)
  }

  lemma {:induction false} CutsAdvance(first: nat, stride: nat, j: nat, k: nat)
    requires j <= k
    ensures CutStart(first, stride, j) <= CutStart(first, stride, k)
  {
    if j < k {
      CutsAdvance(first, stride, j, k - 1);
    }
  }

  /**
   Consecutive cuts: the next starts behind the start of this one and, if that is further, so many lines
   before its end that the two share `overlap` lines.
   */
  lemma ConsecutiveCuts(first: nat, last: nat, maxLines: nat, overlap: nat, k: nat, start: nat, end: nat, start': nat, end': nat)
    requires maxLines >= 1 && Cut(first, last, maxLines, overlap, k, start, end) && Cut(first, last, maxLines, overlap, k + 1, start', end')
    ensures start' == (if start + 1 < end - overlap + 1 then end - overlap + 1 else start + 1) && end' > end == start + maxLines - 1
    ensures overlap < maxLines ==> end - start' + 1 == overlap
  {
  }

  lemma NextWindowHas(windows: seq<Window>, w: Window, start: nat, end: nat)
    requires HasWindow(windows, start, end) || (w.start == start && w.end == end)
    ensures HasWindow(windows + [w], start, end)
  {
    assert w in windows + [w];
    if HasWindow(windows, start, end) {
      var v :| v in windows && v.start == start && v.end == end;
      assert v in windows + [w];
    }
  }

  lemma OneCutMore(lines: seq<string>, first: nat, last: nat, maxLines: nat, overlap: nat, isSpace: char -> bool, windows: seq<Window>, n: nat, w: Window)
    requires CutSoFar(lines, first, last, maxLines, overlap, isSpace, windows, n) && Cut(first, last, maxLines, overlap, n, w.start, w.end)
    ensures CutSoFar(lines, first, last, maxLines, overlap, isSpace, windows + [w], n + 1)
  {
    assert IsCut(first, last, maxLines, overlap, w.start, w.end);
    forall k: nat, start: nat, end: nat |
      k < n + 1 && Cut(first, last, maxLines, overlap, k, start, end)
      ensures WindowUnlessBlank(lines, isSpace, windows + [w], start, end)
    {
      if HasWindow(windows, start, end) || k == n {
        NextWindowHas(windows, w, start, end);
      }
    }
  }

  lemma BlankCutMore(lines: seq<string>, first: nat, last: nat, maxLines: nat, overlap: nat, isSpace: char -> bool, windows: seq<Window>, n: nat,
                     start: nat, end: nat)
    requires CutSoFar(lines, first, last, maxLines, overlap, isSpace, windows, n) && Cut(first, last, maxLines, overlap, n, start, end)
    requires 1 <= start <= end && Blank(ContentOf(lines, start, end), isSpace)
    ensures CutSoFar(lines, first, last, maxLines, overlap, isSpace, windows, n + 1)
  {
  }

  lemma AllAreCut(lines: seq<string>, first: nat, last: nat, maxLines: nat, overlap: nat, isSpace: char -> bool, windows: seq<Window>, n: nat)
    requires CutSoFar(lines, first, last, maxLines, overlap, isSpace, windows, n)
    requires if n == 0 then first > last else CutStart(first, Stride(maxLines, overlap), n - 1) + maxLines - 1 >= last
    ensures CutAll(lines, first, last, maxLines, overlap, isSpace, windows)
  {
    forall k: nat, start: nat, end: nat | Cut(first, last, maxLines, overlap, k, start, end) ensures k < n {
      if k >= n {
        if n == 0 {
          CutsAdvance(first, Stride(maxLines, overlap), 0, k);
        } else {
          CutsAdvance(first, Stride(maxLines, overlap), n - 1, k - 1);
        }
      }
    }
  }

  // ----- windows -----

  ghost predicate Covered(windows: seq<Window>, line: nat) {
    exists w <- windows :: w.start <= line <= w.end
  }

  /** A window of a region: some of its lines, not too many, not all blank. */
  ghost predicate InRegion(lines: seq<string>, first: nat, last: nat, symbol: string, maxLines: nat, isSpace: char -> bool, w: Window) {
    && 1 <= first <= w.start <= w.end <= last && w.end - w.start < maxLines && w.symbol == symbol
    && w.content == ContentOf(lines, w.start, w.end) && !Blank(w.content, isSpace)
  }

  ghost predicate Advancing(windows: seq<Window>) {
    forall i, j :: 0 <= i < j < |windows| ==> windows[i].start < windows[j].start && windows[i].end < windows[j].end
  }

  /** The windows of one region, as far as the cursor has come. */
  ghost predicate Scanned(lines: seq<string>, first: nat, last: nat, symbol: string, maxLines: nat, isSpace: char -> bool,
                          windows: seq<Window>, done: nat) {
    && (forall w <- windows :: InRegion(lines, first, last, symbol, maxLines, isSpace, w) && w.end <= done)
    && Advancing(windows)
    && (forall line :: first <= line <= done && Visible(lines, line, isSpace) ==> Covered(windows, line))
  }

  lemma CoveredStays(windows: seq<Window>, w: Window, line: nat)
    requires Covered(windows, line)
    ensures Covered(windows + [w], line)
  {
    var v :| v in windows && v.start <= line <= v.end;
    assert v in windows + [w];
  }

  lemma OneWindowMore(lines: seq<string>, first: nat, last: nat, symbol: string, maxLines: nat, isSpace: char -> bool,
                      windows: seq<Window>, done: nat, w: Window)
    requires Scanned(lines, first, last, symbol, maxLines, isSpace, windows, done)
    requires InRegion(lines, first, last, symbol, maxLines, isSpace, w) && w.start <= done + 1 && done < w.end
    requires forall v <- windows :: v.start < w.start
    ensures Scanned(lines, first, last, symbol, maxLines, isSpace, windows + [w], w.end)
  {
    forall line | first <= line <= w.end && Visible(lines, line, isSpace) ensures Covered(windows + [w], line) {
      if line <= done {
        CoveredStays(windows, w, line);
      } else {
        assert w in windows + [w];
      }
    }
  }

  lemma BlankWindow(lines: seq<string>, first: nat, last: nat, symbol: string, maxLines: nat, isSpace: char -> bool,
                    windows: seq<Window>, done: nat, cursor: nat, end: nat)
    requires Scanned(lines, first, last, symbol, maxLines, isSpace, windows, done)
    requires 1 <= first <= cursor <= done + 1 && cursor <= end && done <= end && Blank(ContentOf(lines, cursor, end), isSpace)
    ensures Scanned(lines, first, last, symbol, maxLines, isSpace, windows, end)
  {
    forall line | first <= line <= end && Visible(lines, line, isSpace) ensures Covered(windows, line) {
      if line > done {
        VisibleIsNotBlank(lines, cursor, end, line, isSpace);
      }
    }
  }

  /** The overlapping windows of one region. */
  method RegionWindows(lines: seq<string>, first: nat, last: nat, symbol: string, maxLines: nat, overlap: nat, isSpace: char -> bool)
    returns (windows: seq<Window>)
    requires first >= 1 && maxLines >= 1
    ensures Scanned(lines, first, last, symbol, maxLines, isSpace, windows, last)
    ensures CutAll(lines, first, last, maxLines, overlap, isSpace, windows)
  {
    windows := [];
    var cursor := first;
    ghost var done := first - 1;
    ghost var n: nat := 0;
    ghost var stride := Stride(maxLines, overlap);
    while cursor <= last
      invariant first <= cursor <= done + 1 && (cursor > last ==> windows == [])
      invariant Scanned(lines, first, last, symbol, maxLines, isSpace, windows, done)
      invariant forall w <- windows :: w.start < cursor
      invariant cursor <= last ==> done < last && done < cursor + maxLines - 1
      invariant cursor == CutStart(first, stride, n) && CutSoFar(lines, first, last, maxLines, overlap, isSpace, windows, n)
      invariant n > 0 ==> cursor <= last && CutStart(first, stride, n - 1) + maxLines - 1 < last
      decreases last + 1 - cursor
    {
      var end := if last < cursor + maxLines - 1 then last else cursor + maxLines - 1;
      var content := ContentOf(lines, cursor, end);
      if !Blank(content, isSpace) {
        OneWindowMore(lines, first, last, symbol, maxLines, isSpace, windows, done, Window(cursor, end, symbol, content));
        OneCutMore(lines, first, last, maxLines, overlap, isSpace, windows, n, Window(cursor, end, symbol, content));
        windows := windows + [Window(cursor, end, symbol, content)];
      } else {
        BlankCutMore(lines, first, last, maxLines, overlap, isSpace, windows, n, cursor, end);
        BlankWindow(lines, first, last, symbol, maxLines, isSpace, windows, done, cursor, end);
      }
      done := end;
      n := n + 1;
      if end >= last {
        break;
      }
      cursor := if cursor + 1 < end - overlap + 1 then end - overlap + 1 else cursor + 1;
    }
    AllAreCut(lines, first, last, maxLines, overlap, isSpace, windows, n);
  }

  /** No symbol starts inside the window, behind its first line. */
  ghost predicate CrossesNone(markers: seq<Marker>, w: Window) {
    forall m <- markers :: !(w.start < m.0 <= w.end)
  }

  /** The window carries the symbol of the last region that starts at or before it. */
  ghost predicate Named(markers: seq<Marker>, w: Window) {
    exists line :: 1 <= line <= w.start && (line == 1 || Marked(markers, line)) && w.symbol == SymbolAt(markers, line)
                   && forall m <- markers :: !(line < m.0 <= w.start)
  }

  /** What the windows of a file promise up to a line. */
  ghost predicate Windows(lines: seq<string>, markers: seq<Marker>, maxLines: nat, isSpace: char -> bool, windows: seq<Window>, done: nat) {
    && (forall w <- windows ::
          && 1 <= w.start <= w.end && w.end - w.start < maxLines
          && w.content == ContentOf(lines, w.start, w.end) && !Blank(w.content, isSpace)
          && CrossesNone(markers, w) && Named(markers, w))
    && Advancing(windows)
    && (forall line :: 1 <= line <= done && Visible(lines, line, isSpace) ==> Covered(windows, line))
  }

  function RegionEnd(starts: seq<Marker>, i: nat, n: nat): int
    requires i < |starts|
  {
    if i + 1 < |starts| then starts[i + 1].0 - 1 else n
  }

  lemma InsideRegion(markers: seq<Marker>, starts: seq<Marker>, i: nat, n: nat, w: Window)
    requires Starts(markers, starts) && i < |starts|
    requires starts[i].0 <= w.start <= w.end <= RegionEnd(starts, i, n) && w.symbol == starts[i].1
    ensures CrossesNone(markers, w) && Named(markers, w)
  {
    forall m | m in markers ensures m.0 <= starts[i].0 || m.0 > w.end {
      assert StartsAt(starts, m.0);
      var s :| s in starts && s.0 == m.0;
      var k :| 0 <= k < |starts| && starts[k] == s;
    }
  }

  lemma CoveredInEither(a: seq<Window>, b: seq<Window>, line: nat)
    requires Covered(a, line) || Covered(b, line)
    ensures Covered(a + b, line)
  {
    var w :| (w in a || w in b) && w.start <= line <= w.end;
    assert w in a + b;
  }

  lemma OneRegionMore(lines: seq<string>, markers: seq<Marker>, maxLines: nat, isSpace: char -> bool, starts: seq<Marker>, i: nat,
                      windows: seq<Window>, region: seq<Window>, end: nat)
    requires Starts(markers, starts) && i < |starts| && end == RegionEnd(starts, i, |lines|)
    requires Windows(lines, markers, maxLines, isSpace, windows, starts[i].0 - 1) && forall w <- windows :: w.end < starts[i].0
    requires Scanned(lines, starts[i].0, end, starts[i].1, maxLines, isSpace, region, end)
    ensures Windows(lines, markers, maxLines, isSpace, windows + region, end)
  {
    forall w | w in region ensures CrossesNone(markers, w) && Named(markers, w) {
      InsideRegion(markers, starts, i, |lines|, w);
    }
    forall line | 1 <= line <= end && Visible(lines, line, isSpace) ensures Covered(windows + region, line) {
      CoveredInEither(windows, region, line);
    }
    var all := windows + region;
    forall j, k | 0 <= j < k < |all| ensures all[j].start < all[k].start && all[j].end < all[k].end {
      assert k >= |windows| ==> region[k - |windows|] in region;
      assert j < |windows| ==> windows[j] in windows;
    }
  }

  /** A region of a file: from line 1 or a marked line to the next marked line or the end of the file. */
  ghost predicate Region(markers: seq<Marker>, n: nat, first: nat, last: nat) {
    && (first == 1 || Marked(markers, first))
    && (forall m <- markers :: !(first < m.0 <= last))
    && ((first <= last && Marked(markers, last + 1)) || (last == n && forall m <- markers :: m.0 <= first))
  }

  /** The windows are those of all cuts of all regions of the file that are not blank. */
  ghost predicate CutRegions(lines: seq<string>, markers: seq<Marker>, maxLines: nat, overlap: nat, isSpace: char -> bool, windows: seq<Window>) {
    && (forall w <- windows :: exists first: nat, last: nat ::
          Region(markers, |lines|, first, last) && IsCut(first, last, maxLines, overlap, w.start, w.end))
    && forall first: nat, last: nat, start: nat, end: nat ::
         Region(markers, |lines|, first, last) && IsCut(first, last, maxLines, overlap, start, end) ==>
           WindowUnlessBlank(lines, isSpace, windows, start, end)
  }

  /** The same for the regions before the i-th start. */
  ghost predicate CutBefore(lines: seq<string>, starts: seq<Marker>, maxLines: nat, overlap: nat, isSpace: char -> bool, windows: seq<Window>, i: nat)
    requires i <= |starts|
  {
    && (forall w <- windows :: exists j: nat ::
          j < i && RegionEnd(starts, j, |lines|) >= 0 && IsCut(starts[j].0, RegionEnd(starts, j, |lines|), maxLines, overlap, w.start, w.end))
    && forall j: nat, start: nat, end: nat ::
         j < i && RegionEnd(starts, j, |lines|) >= 0 && IsCut(starts[j].0, RegionEnd(starts, j, |lines|), maxLines, overlap, start, end) ==>
           WindowUnlessBlank(lines, isSpace, windows, start, end)
  }

  lemma OneRegionCut(lines: seq<string>, starts: seq<Marker>, maxLines: nat, overlap: nat, isSpace: char -> bool, windows: seq<Window>, i: nat,
                     region: seq<Window>, end: nat)
    requires i < |starts| && end == RegionEnd(starts, i, |lines|)
    requires CutBefore(lines, starts, maxLines, overlap, isSpace, windows, i)
    requires CutAll(lines, starts[i].0, end, maxLines, overlap, isSpace, region)
    ensures CutBefore(lines, starts, maxLines, overlap, isSpace, windows + region, i + 1)
  {
    forall j: nat, s: nat, e: nat |
      j < i + 1 && RegionEnd(starts, j, |lines|) >= 0 && IsCut(starts[j].0, RegionEnd(starts, j, |lines|), maxLines, overlap, s, e)
      ensures WindowUnlessBlank(lines, isSpace, windows + region, s, e)
    {
      var part := if j < i then windows else region;
      assert WindowUnlessBlank(lines, isSpace, part, s, e);
      if HasWindow(part, s, e) {
        var w :| w in part && w.start == s && w.end == e;
        assert w in windows + region;
      }
    }
  }

  lemma RegionOfStart(markers: seq<Marker>, starts: seq<Marker>, n: nat, i: nat)
    requires Starts(markers, starts) && i < |starts| && (forall m <- markers :: m.0 >= 1) && RegionEnd(starts, i, n) >= 0
    ensures Region(markers, n, starts[i].0, RegionEnd(starts, i, n))
  {
    forall m | m in markers ensures m.0 <= starts[i].0 || (i + 1 < |starts| && m.0 >= starts[i + 1].0) {
      assert StartsAt(starts, m.0);
      var s :| s in starts && s.0 == m.0;
      var k :| 0 <= k < |starts| && starts[k] == s;
    }
    if i + 1 < |starts| {
      assert starts[0].0 < starts[i + 1].0;
    }
  }

  lemma StartOfRegion(markers: seq<Marker>, starts: seq<Marker>, n: nat, first: nat, last: nat) returns (i: nat)
    requires Starts(markers, starts) && (forall m <- markers :: m.0 >= 1) && Region(markers, n, first, last)
    ensures i < |starts| && starts[i].0 == first && RegionEnd(starts, i, n) == last
  {
    StartOf(markers, starts, first);
    i :| i < |starts| && starts[i].0 == first;
    if i + 1 < |starts| {
      assert Marked(markers, starts[i + 1].0);
    }
    if first <= last && Marked(markers, last + 1) {
      StartOf(markers, starts, last + 1);
      var k :| 0 <= k < |starts| && starts[k].0 == last + 1;
    }
  }

  lemma StartOf(markers: seq<Marker>, starts: seq<Marker>, line: nat)
    requires Starts(markers, starts) && (line == 1 || Marked(markers, line))
    ensures exists i: nat :: i < |starts| && starts[i].0 == line
  {
    if line != 1 {
      var m :| m in markers && m.0 == line;
      assert StartsAt(starts, m.0);
      var s :| s in starts && s.0 == line;
      var k: nat :| k < |starts| && starts[k] == s;
    } else {
      assert starts[0].0 == line;
    }
  }

  lemma AllRegionsCut(lines: seq<string>, markers: seq<Marker>, starts: seq<Marker>, maxLines: nat, overlap: nat, isSpace: char -> bool,
                      windows: seq<Window>)
    requires Starts(markers, starts) && forall m <- markers :: m.0 >= 1
    requires CutBefore(lines, starts, maxLines, overlap, isSpace, windows, |starts|)
    ensures CutRegions(lines, markers, maxLines, overlap, isSpace, windows)
  {
    forall w | w in windows
      ensures exists first: nat, last: nat :: Region(markers, |lines|, first, last) && IsCut(first, last, maxLines, overlap, w.start, w.end)
    {
      var j: nat :| j < |starts| && RegionEnd(starts, j, |lines|) >= 0
                    && IsCut(starts[j].0, RegionEnd(starts, j, |lines|), maxLines, overlap, w.start, w.end);
      RegionOfStart(markers, starts, |lines|, j);
    }
    forall first: nat, last: nat, start: nat, end: nat |
      Region(markers, |lines|, first, last) && IsCut(first, last, maxLines, overlap, start, end)
      ensures WindowUnlessBlank(lines, isSpace, windows, start, end)
    {
      var j := StartOfRegion(markers, starts, |lines|, first, last);
    }
  }

  /** The chunk windows of a file. */
  method ChunkRegions(lines: seq<string>, markers: seq<Marker>, maxLines: nat, overlap: nat, isSpace: char -> bool) returns (windows: seq<Window>)
    requires maxLines >= 1 && forall m <- markers :: m.0 >= 1
    ensures Windows(lines, markers, maxLines, isSpace, windows, |lines|)
    ensures CutRegions(lines, markers, maxLines, overlap, isSpace, windows)
  {
    var starts := RegionStarts(markers);
    windows := [];
    for i := 0 to |starts|
      invariant Windows(lines, markers, maxLines, isSpace, windows, if i < |starts| then starts[i].0 - 1 else |lines|)
      invariant i < |starts| ==> forall w <- windows :: w.end < starts[i].0
      invariant CutBefore(lines, starts, maxLines, overlap, isSpace, windows, i)
    {
      var end := if i + 1 < |starts| then starts[i + 1].0 - 1 else |lines|;
      var region := RegionWindows(lines, starts[i].0, end, starts[i].1, maxLines, overlap, isSpace);
      OneRegionMore(lines, markers, maxLines, isSpace, starts, i, windows, region, end);
      OneRegionCut(lines, starts, maxLines, overlap, isSpace, windows, i, region, end);
      windows := windows + region;
    }
    AllRegionsCut(lines, markers, starts, maxLines, overlap, isSpace, windows);
  }

  lemma NotCoveredBetween(windows: seq<Window>, i: nat, line: nat)
    requires Advancing(windows) && i + 1 < |windows| && windows[i].end < line < windows[i + 1].start
    ensures !Covered(windows, line)
  {
    forall w | w in windows ensures !(w.start <= line <= w.end) {
      var k :| 0 <= k < |windows| && windows[k] == w;
      assert k < i ==> windows[k].end < windows[i].end;
      assert k > i + 1 ==> windows[k].start > windows[i + 1].start;
    }
  }

  /** Between consecutive windows there is nothing but blank lines. */
  lemma NothingBetweenWindows(lines: seq<string>, markers: seq<Marker>, maxLines: nat, isSpace: char -> bool, windows: seq<Window>, i: nat, line: nat)
    requires Windows(lines, markers, maxLines, isSpace, windows, |lines|) && i + 1 < |windows|
    requires windows[i].end < line < windows[i + 1].start
    ensures !Visible(lines, line, isSpace)
  {
    NotCoveredBetween(windows, i, line);
  }
}
