/** The chunks of a file: each window cut into pieces of bounded size, each piece numbered by the lines it touches. */
module ChunkLines {
  import opened Prelude
  import opened Segments
  import opened Chunker
  import opened Utf8

  datatype Chunk = Chunk(lineStart: nat, lineEnd: nat, symbol: string, content: string)

  function Newlines(s: string): nat {
    if s == "" then 0 else Newlines(s[..|s| - 1]) + (if s[|s| - 1] == '\n' then 1 else 0)
  }

  lemma {:induction false} NewlinesSum(a: string, b: string)
    ensures Newlines(a + b) == Newlines(a) + Newlines(b)
  {
    if b == "" {
      assert a + b == a;
    } else {
      assert (a + b)[..|a + b| - 1] == a + b[..|b| - 1];
      NewlinesSum(a, b[..|b| - 1]);
    }
  }

  /** The line of character p, when the text starts on line `first`. */
  function LineOf(first: nat, content: string, p: nat): nat
    requires p <= |content|
  {
    first + Newlines(content[..p])
  }

  /** Where segment i starts in the joined text. */
  function Place(segments: seq<string>, i: nat): nat
    requires i <= |segments|
  {
    |Joined(segments[..i])|
  }

  lemma {:induction false} JoinedPrefix(segments: seq<string>, i: nat)
    requires i <= |segments|
    ensures Place(segments, i) <= |Joined(segments)| && Joined(segments)[..Place(segments, i)] == Joined(segments[..i])
  {
    if i == |segments| {
      assert segments[..i] == segments;
    } else {
      var front := segments[..|segments| - 1];
      JoinedPrefix(front, i);
      assert front[..i] == segments[..i];
    }
  }

  lemma PlaceStep(segments: seq<string>, i: nat)
    requires i < |segments|
    ensures Joined(segments[..i + 1]) == Joined(segments[..i]) + segments[i]
    ensures Place(segments, i + 1) == Place(segments, i) + |segments[i]|
  {
    assert segments[..i + 1] == segments[..i] + [segments[i]];
    JoinedOneMore(segments[..i], segments[i]);
  }

  /** The lines a piece is filed under: that of its first character and that of its last. */
  function LinesTouched(first: nat, segments: seq<string>, i: nat): (nat, nat)
    requires i < |segments| && segments[i] != ""
  {
    PlaceStep(segments, i);
    JoinedPrefix(segments, i + 1);
    (LineOf(first, Joined(segments), Place(segments, i)), LineOf(first, Joined(segments), Place(segments, i + 1) - 1))
  }

  lemma {:induction false} LinesTouchedBySize(first: nat, segments: seq<string>, i: nat)
    requires i < |segments| && segments[i] != ""
    ensures var here := first + Newlines(Joined(segments[..i]));
            LinesTouched(first, segments, i) == (here, here + Newlines(segments[i]) - (if segments[i][|segments[i]| - 1] == '\n' then 1 else 0))
  {
    var segment, content := segments[i], Joined(segments);
    JoinedPrefix(segments, i);
    JoinedPrefix(segments, i + 1);
    PlaceStep(segments, i);
    assert content[..Place(segments, i + 1) - 1] == Joined(segments[..i]) + segment[..|segment| - 1];
    NewlinesSum(Joined(segments[..i]), segment[..|segment| - 1]);
  }

  lemma {:induction false} NewlinesOfPrefix(segments: seq<string>, i: nat)
    requires i <= |segments|
    ensures Newlines(Joined(segments[..i])) <= Newlines(Joined(segments))
  {
    JoinedPrefix(segments, i);
    var content := Joined(segments);
    assert content == content[..Place(segments, i)] + content[Place(segments, i)..];
    NewlinesSum(content[..Place(segments, i)], content[Place(segments, i)..]);
  }

  ghost predicate NoneEmpty(segments: seq<string>) {
    forall i :: 0 <= i < |segments| ==> segments[i] != ""
  }

  lemma RangeByCount(first: nat, last: nat, segments: seq<string>, i: nat)
    requires first + Newlines(Joined(segments)) <= last && i < |segments| && segments[i] != ""
    ensures var here, count := first + Newlines(Joined(segments[..i])), Newlines(segments[i]);
            var ends := segments[i][|segments[i]| - 1] == '\n';
            && LinesTouched(first, segments, i) == (here, here + count - (if ends then 1 else 0))
            && first + Newlines(Joined(segments[..i + 1])) == here + count <= last && (ends ==> count >= 1)
  {
    LinesTouchedBySize(first, segments, i);
    PlaceStep(segments, i);
    NewlinesSum(Joined(segments[..i]), segments[i]);
    NewlinesOfPrefix(segments, i + 1);
  }

  /** Numbers the pieces of a window by counting newlines. */
  method NumberSegments(lineStart: nat, lineEnd: nat, segments: seq<string>) returns (ranges: seq<(nat, nat)>)
    requires lineStart + Newlines(Joined(segments)) <= lineEnd && NoneEmpty(segments)
    ensures |ranges| == |segments| && forall i :: 0 <= i < |segments| ==> ranges[i] == LinesTouched(lineStart, segments, i)
  {
    ranges := [];
    var currentLine := lineStart;
    for i := 0 to |segments|
      invariant currentLine == lineStart + Newlines(Joined(segments[..i]))
      invariant |ranges| == i && forall j :: 0 <= j < i ==> ranges[j] == LinesTouched(lineStart, segments, j)
    {
      var segment := segments[i];
      var newlineCount := Newlines(segment);
      var segmentEnd := if lineEnd < currentLine + newlineCount then lineEnd else currentLine + newlineCount;
      if segment[|segment| - 1] == '\n' && newlineCount > 0 {
        segmentEnd := if segmentEnd - 1 < currentLine then currentLine else segmentEnd - 1;
      }
      RangeByCount(lineStart, lineEnd, segments, i);
      ranges := ranges + [(currentLine, segmentEnd)];
      currentLine := currentLine + newlineCount;
    }
  }

  // ----- what the ranges mean -----

  lemma {:induction false} LinesAscend(first: nat, content: string, p: nat, q: nat)
    requires p <= q <= |content|
    ensures LineOf(first, content, p) <= LineOf(first, content, q) <= LineOf(first, content, p) + (q - p)
  {
    if p < q {
      LinesAscend(first, content, p, q - 1);
      assert content[..q][..q - 1] == content[..q - 1];
    }
  }

  /** Every line between those of two characters has a character between them. */
  lemma {:induction false} NoLineSkipped(first: nat, content: string, p: nat, q: nat, line: nat) returns (r: nat)
    requires p <= q < |content| && LineOf(first, content, p) <= line <= LineOf(first, content, q)
    ensures p <= r <= q && LineOf(first, content, r) == line
    decreases q - p
  {
    if LineOf(first, content, q) == line {
      r := q;
    } else {
      LinesAscend(first, content, q - 1, q);
      r := NoLineSkipped(first, content, p, q - 1, line);
    }
  }

  ghost predicate Touches(first: nat, segments: seq<string>, i: nat, line: nat)
    requires i < |segments|
  {
    exists p :: Place(segments, i) <= p < Place(segments, i + 1) && p <= |Joined(segments)| && LineOf(first, Joined(segments), p) == line
  }

  /** The range of a piece is exactly the lines that have a character in it. */
  lemma RangesAreTheLinesTouched(first: nat, segments: seq<string>, i: nat, line: nat)
    requires i < |segments| && segments[i] != ""
    ensures LinesTouched(first, segments, i).0 <= line <= LinesTouched(first, segments, i).1 <==> Touches(first, segments, i, line)
  {
    PlaceStep(segments, i);
    JoinedPrefix(segments, i + 1);
    var content, a, b := Joined(segments), Place(segments, i), Place(segments, i + 1);
    if LineOf(first, content, a) <= line <= LineOf(first, content, b - 1) {
      var p := NoLineSkipped(first, content, a, b - 1, line);
    } else {
      forall p | a <= p < b ensures LineOf(first, content, p) != line {
        LinesAscend(first, content, a, p);
        LinesAscend(first, content, p, b - 1);
      }
    }
  }

  // ----- what a window's lines are -----

  ghost predicate PlainLines(lines: seq<string>) {
    forall i :: 0 <= i < |lines| ==> '\n' !in lines[i]
  }

  lemma {:induction false} NoNewlines(s: string)
    requires '\n' !in s
    ensures Newlines(s) == 0
  {
    if s != "" {
      NoNewlines(s[..|s| - 1]);
    }
  }

  lemma {:induction false} NewlinesOfLines(lines: seq<string>)
    requires PlainLines(lines)
    ensures Newlines(JoinLines(lines)) == if lines == [] then 0 else |lines| - 1
  {
    if lines != [] {
      var n := |lines| - 1;
      NoNewlines(lines[n]);
      if n > 0 {
        NewlinesOfLines(lines[..n]);
        NewlinesSum(JoinLines(lines[..n]) + "\n", lines[n]);
        NewlinesSum(JoinLines(lines[..n]), "\n");
        OneNewline();
      }
    }
  }

  lemma OneNewline()
    ensures Newlines("\n") == 1
  {
    assert "\n"[..0] == "";
  }

  /** Line i of a joined text starts behind i newlines; unless it is empty and last it has a character there. */
  lemma {:induction false} LineStart(lines: seq<string>, i: nat) returns (p: nat)
    requires PlainLines(lines) && i < |lines|
    ensures p <= |JoinLines(lines)| && Newlines(JoinLines(lines)[..p]) == i && (i < |lines| - 1 || lines[i] != "" ==> p < |JoinLines(lines)|)
  {
    var n := |lines| - 1;
    if i < n {
      p := LineStart(lines[..n], i);
      assert JoinLines(lines)[..p] == JoinLines(lines[..n])[..p];
    } else if n == 0 {
      p := 0;
    } else {
      p := |JoinLines(lines[..n])| + 1;
      assert JoinLines(lines)[..p] == JoinLines(lines[..n]) + "\n";
      NewlinesSum(JoinLines(lines[..n]), "\n");
      OneNewline();
      NewlinesOfLines(lines[..n]);
    }
  }

  lemma {:induction false} PieceOf(segments: seq<string>, p: nat) returns (i: nat)
    requires p < |Joined(segments)|
    ensures i < |segments| && Place(segments, i) <= p < Place(segments, i + 1)
  {
    var n := |segments| - 1;
    assert segments[..n + 1] == segments;
    if p >= |Joined(segments[..n])| {
      i := n;
    } else {
      i := PieceOf(segments[..n], p);
      assert segments[..n][..i] == segments[..i] && segments[..n][..i + 1] == segments[..i + 1];
    }
  }

  ghost predicate InRange(ranges: seq<(nat, nat)>, line: nat) {
    exists r <- ranges :: r.0 <= line <= r.1
  }

  ghost predicate Numbered(first: nat, segments: seq<string>, ranges: seq<(nat, nat)>) {
    && |ranges| == |segments| && NoneEmpty(segments)
    && forall i :: 0 <= i < |segments| ==> ranges[i] == LinesTouched(first, segments, i)
  }

  /** Every line of a window is in the range of one of its pieces, unless it is empty and the last. */
  lemma LinesAreInRange(lines: seq<string>, first: nat, segments: seq<string>, ranges: seq<(nat, nat)>, i: nat)
    requires PlainLines(lines) && i < |lines| && (i < |lines| - 1 || lines[i] != "")
    requires Numbered(first, segments, ranges) && Joined(segments) == JoinLines(lines)
    ensures InRange(ranges, first + i)
  {
    var p := LineStart(lines, i);
    var k := PieceOf(segments, p);
    assert LineOf(first, Joined(segments), p) == first + i;
    assert Touches(first, segments, k, first + i);
    RangesAreTheLinesTouched(first, segments, k, first + i);
    assert ranges[k] in ranges;
  }

  /** Every range lies inside the window. */
  lemma RangesStayInside(lines: seq<string>, first: nat, segments: seq<string>, ranges: seq<(nat, nat)>, i: nat)
    requires PlainLines(lines) && lines != [] && i < |segments|
    requires Numbered(first, segments, ranges) && Joined(segments) == JoinLines(lines)
    ensures first <= ranges[i].0 <= ranges[i].1 <= first + |lines| - 1
  {
    LinesTouchedBySize(first, segments, i);
    PlaceStep(segments, i);
    NewlinesSum(Joined(segments[..i]), segments[i]);
    NewlinesOfPrefix(segments, i + 1);
    NewlinesOfLines(lines);
  }

  lemma LineBeforeLastNewline(first: nat, content: string, q: nat)
    requires content != "" && content[|content| - 1] == '\n' && q < |content|
    ensures LineOf(first, content, q) < first + Newlines(content)
  {
    LinesAscend(first, content, q, |content| - 1);
  }

  lemma EndsInNewline(lines: seq<string>)
    requires lines != [] && lines[|lines| - 1] == "" && JoinLines(lines) != ""
    ensures JoinLines(lines)[|JoinLines(lines)| - 1] == '\n'
  {
  }

  lemma RangeEnd(first: nat, segments: seq<string>, i: nat)
    requires i < |segments| && segments[i] != ""
    ensures 0 < Place(segments, i + 1) <= |Joined(segments)|
    ensures LinesTouched(first, segments, i).1 == LineOf(first, Joined(segments), Place(segments, i + 1) - 1)
  {
    PlaceStep(segments, i);
    JoinedPrefix(segments, i + 1);
  }

  lemma EmptyLastLineIsInNoRange(lines: seq<string>, first: nat, segments: seq<string>, ranges: seq<(nat, nat)>, i: nat)
    requires PlainLines(lines) && lines != [] && lines[|lines| - 1] == "" && i < |segments|
    requires Numbered(first, segments, ranges) && Joined(segments) == JoinLines(lines)
    ensures ranges[i].1 < first + |lines| - 1
  {
    NewlinesOfLines(lines);
    RangeEnd(first, segments, i);
    EndsInNewline(lines);
    LineBeforeLastNewline(first, JoinLines(lines), Place(segments, i + 1) - 1);
  }

  /** The ranges of a window's pieces cover all of its lines exactly when the last of them is not empty. */
  lemma RangesCoverWindowIffLastLineNotEmpty(lines: seq<string>, first: nat, segments: seq<string>, ranges: seq<(nat, nat)>)
    requires PlainLines(lines) && lines != []
    requires Numbered(first, segments, ranges) && Joined(segments) == JoinLines(lines)
    ensures (forall line :: first <= line < first + |lines| ==> InRange(ranges, line)) <==> lines[|lines| - 1] != ""
  {
    if lines[|lines| - 1] != "" {
      forall line | first <= line < first + |lines| ensures InRange(ranges, line) {
        LinesAreInRange(lines, first, segments, ranges, line - first);
      }
    } else {
      LastLineNotInRange(lines, first, segments, ranges);
    }
  }

  lemma LastLineNotInRange(lines: seq<string>, first: nat, segments: seq<string>, ranges: seq<(nat, nat)>)
    requires PlainLines(lines) && lines != [] && lines[|lines| - 1] == ""
    requires Numbered(first, segments, ranges) && Joined(segments) == JoinLines(lines)
    ensures !InRange(ranges, first + |lines| - 1)
  {
    forall r | r in ranges ensures r.1 < first + |lines| - 1 {
      var i :| 0 <= i < |ranges| && ranges[i] == r;
      EmptyLastLineIsInNoRange(lines, first, segments, ranges, i);
    }
  }

  // ----- the chunks of a file -----

  /** A chunk lies inside one region, is small enough and stands for lines of the file. */
  ghost predicate GoodChunk(lines: seq<string>, markers: seq<Marker>, maxLines: nat, maxBytes: nat, c: Chunk) {
    && 1 <= c.lineStart <= c.lineEnd && c.lineEnd - c.lineStart < maxLines && c.content != "" && |Encode(c.content)| <= maxBytes
    && CrossesNone(markers, Window(c.lineStart, c.lineEnd, c.symbol, c.content))
  }

  ghost predicate Chunked(chunks: seq<Chunk>, line: nat) {
    exists c <- chunks :: c.lineStart <= line <= c.lineEnd
  }

  lemma PiecesAreNotEmpty(content: string, maxBytes: nat, segments: seq<string>)
    requires Pieces(content, maxBytes, segments) && content != ""
    ensures NoneEmpty(segments)
  {
    forall i | 0 <= i < |segments| ensures segments[i] != "" {
      assert segments[i] in segments;
    }
  }

  lemma WindowLines(lines: seq<string>, first: nat, last: nat)
    requires 1 <= first <= last && PlainLines(lines) && ContentOf(lines, first, last) != ""
    ensures var inside := LinesBetween(lines, first, last);
            PlainLines(inside) && inside != [] && first + Newlines(JoinLines(inside)) == first + |inside| - 1 <= last
  {
    NewlinesOfLines(LinesBetween(lines, first, last));
  }

  /** The chunks of one window. */
  ghost predicate ChunksOf(lines: seq<string>, w: Window, maxBytes: nat, isSpace: char -> bool, chunks: seq<Chunk>) {
    && Joined(Mapped((c: Chunk) => c.content, chunks)) == w.content
    && (forall c <- chunks ::
          w.start <= c.lineStart <= c.lineEnd <= w.end && c.symbol == w.symbol && c.content != "" && |Encode(c.content)| <= maxBytes)
    && (forall line :: w.start <= line <= w.end && Visible(lines, line, isSpace) ==> Chunked(chunks, line))
  }

  function PairUp(symbol: string, ranges: seq<(nat, nat)>, segments: seq<string>): (chunks: seq<Chunk>)
    requires |ranges| == |segments|
    ensures |chunks| == |segments|
  {
    seq(|segments|, i requires 0 <= i < |segments| => Chunk(ranges[i].0, ranges[i].1, symbol, segments[i]))
  }

  lemma VisibleIsNotEmpty(lines: seq<string>, line: nat, isSpace: char -> bool)
    requires Visible(lines, line, isSpace)
    ensures lines[line - 1] != ""
  {
  }

  lemma VisibleIsChunked(lines: seq<string>, w: Window, segments: seq<string>, ranges: seq<(nat, nat)>, line: nat, isSpace: char -> bool)
    requires 1 <= w.start <= line <= w.end && w.content == ContentOf(lines, w.start, w.end) && PlainLines(lines)
    requires Visible(lines, line, isSpace) && Numbered(w.start, segments, ranges) && Joined(segments) == w.content
    ensures Chunked(PairUp(w.symbol, ranges, segments), line)
  {
    var inside := LinesBetween(lines, w.start, w.end);
    assert inside[line - w.start] == lines[line - 1];
    VisibleIsNotEmpty(lines, line, isSpace);
    LinesAreInRange(inside, w.start, segments, ranges, line - w.start);
    var r :| r in ranges && r.0 <= line <= r.1;
    var i :| 0 <= i < |ranges| && ranges[i] == r;
    assert PairUp(w.symbol, ranges, segments)[i] in PairUp(w.symbol, ranges, segments);
  }

  lemma WindowIsChunked(lines: seq<string>, w: Window, maxBytes: nat, isSpace: char -> bool, segments: seq<string>, ranges: seq<(nat, nat)>)
    requires 1 <= w.start <= w.end && w.content == ContentOf(lines, w.start, w.end) != "" && PlainLines(lines)
    requires Pieces(w.content, maxBytes, segments) && Numbered(w.start, segments, ranges)
    ensures ChunksOf(lines, w, maxBytes, isSpace, PairUp(w.symbol, ranges, segments))
  {
    var chunks, inside := PairUp(w.symbol, ranges, segments), LinesBetween(lines, w.start, w.end);
    WindowLines(lines, w.start, w.end);
    forall line | w.start <= line <= w.end && Visible(lines, line, isSpace) ensures Chunked(chunks, line) {
      VisibleIsChunked(lines, w, segments, ranges, line, isSpace);
    }
    forall c | c in chunks
      ensures w.start <= c.lineStart <= c.lineEnd <= w.end && c.symbol == w.symbol && c.content != "" && |Encode(c.content)| <= maxBytes
    {
      var i :| 0 <= i < |chunks| && chunks[i] == c;
      RangesStayInside(inside, w.start, segments, ranges, i);
      assert segments[i] in segments;
    }
    assert Mapped((c: Chunk) => c.content, chunks) == segments;
  }

  method ChunkWindow(lines: seq<string>, w: Window, maxBytes: nat, isSpace: char -> bool) returns (chunks: seq<Chunk>)
    requires 1 <= w.start <= w.end && w.content == ContentOf(lines, w.start, w.end) != "" && PlainLines(lines) && maxBytes >= 4
    ensures ChunksOf(lines, w, maxBytes, isSpace, chunks)
  {
    var pieces := SplitUtf8Chunks(w.content, maxBytes);
    var segments := pieces.value;
    PiecesAreNotEmpty(w.content, maxBytes, segments);
    WindowLines(lines, w.start, w.end);
    var ranges := NumberSegments(w.start, w.end, segments);
    WindowIsChunked(lines, w, maxBytes, isSpace, segments, ranges);
    chunks := PairUp(w.symbol, ranges, segments);
  }

  ghost predicate FileChunks(lines: seq<string>, markers: seq<Marker>, maxLines: nat, maxBytes: nat, isSpace: char -> bool, chunks: seq<Chunk>) {
    && (forall c <- chunks :: GoodChunk(lines, markers, maxLines, maxBytes, c))
    && (forall line :: Visible(lines, line, isSpace) ==> Chunked(chunks, line))
  }

  lemma WindowsChunksAreGood(lines: seq<string>, markers: seq<Marker>, maxLines: nat, maxBytes: nat, isSpace: char -> bool, w: Window, chunks: seq<Chunk>)
    requires ChunksOf(lines, w, maxBytes, isSpace, chunks) && 1 <= w.start && w.end - w.start < maxLines && CrossesNone(markers, w)
    ensures forall c <- chunks :: GoodChunk(lines, markers, maxLines, maxBytes, c)
  {
  }

  lemma ChunkedStays(a: seq<Chunk>, b: seq<Chunk>, line: nat)
    requires Chunked(a, line) || Chunked(b, line)
    ensures Chunked(a + b, line)
  {
    var c :| (c in a || c in b) && c.lineStart <= line <= c.lineEnd;
    assert c in a + b;
  }

  /** Every line of the file with anything on it is in the range of a chunk, and every chunk is a good one. */
  method BuildChunks(lines: seq<string>, markers: seq<Marker>, maxLines: nat, overlap: nat, maxBytes: nat, isSpace: char -> bool)
    returns (chunks: seq<Chunk>)
    requires maxLines >= 1 && maxBytes >= 4 && PlainLines(lines) && forall m <- markers :: m.0 >= 1
    ensures FileChunks(lines, markers, maxLines, maxBytes, isSpace, chunks)
  {
    var windows := ChunkRegions(lines, markers, maxLines, overlap, isSpace);
    chunks := [];
    for i := 0 to |windows|
      invariant forall c <- chunks :: GoodChunk(lines, markers, maxLines, maxBytes, c)
      invariant forall line :: Covered(windows[..i], line) && Visible(lines, line, isSpace) ==> Chunked(chunks, line)
    {
      var w := windows[i];
      assert w in windows;
      NotBlankIsNotEmpty(w.content, isSpace);
      var more := ChunkWindow(lines, w, maxBytes, isSpace);
      WindowsChunksAreGood(lines, markers, maxLines, maxBytes, isSpace, w, more);
      forall line | Covered(windows[..i + 1], line) && Visible(lines, line, isSpace) ensures Chunked(chunks + more, line) {
        CoveredByLast(windows, i, line);
        ChunkedStays(chunks, more, line);
      }
      chunks := chunks + more;
    }
    assert windows[..|windows|] == windows;
  }

  lemma NotBlankIsNotEmpty(content: string, isSpace: char -> bool)
    requires !Blank(content, isSpace)
    ensures content != ""
  {
  }

  lemma CoveredByLast(windows: seq<Window>, i: nat, line: nat)
    requires i < |windows| && Covered(windows[..i + 1], line)
    ensures Covered(windows[..i], line) || windows[i].start <= line <= windows[i].end
  {
    assert windows[..i + 1] == windows[..i] + [windows[i]];
  }
}
