/** How a long text is cut into segments that fit the embedding model. */
module Segments {
  import opened Prelude

  /** The last place in text[lo..hi] where c stands, or -1. */
  function LastPlace(text: string, c: char, lo: nat, hi: nat): (r: int)
    requires lo <= hi <= |text|
    ensures r == -1 || (lo <= r < hi && text[r] == c)
    ensures forall i :: lo <= i < hi && r < i ==> text[i] != c
    decreases hi - lo
  {
    if lo == hi then -1 else if text[hi - 1] == c then hi - 1 else LastPlace(text, c, lo, hi - 1)
  }

  predicate IsBreak(c: char) { c == '\n' || c == ' ' }

  /** Where the segment that starts at `start` ends: behind the last break of its second half, if there is one. */
  function Stop(text: string, start: nat, maxChars: nat): (stop: nat)
    requires start < |text| && maxChars >= 2
    ensures start < stop <= |text| && stop - start <= maxChars
    ensures stop < |text| ==> stop - start > maxChars / 2
    ensures stop < |text| ==>
              || IsBreak(text[stop - 1])
              || (stop == start + maxChars && forall i :: start + maxChars / 2 < i < stop ==> !IsBreak(text[i]))
    ensures stop < |text| ==> forall i :: stop <= i < |text| && i < start + maxChars ==> !IsBreak(text[i])
    ensures |text| <= start + maxChars ==> stop == |text|
  {
    var limit := if |text| < start + maxChars then |text| else start + maxChars;
    if limit < |text| then
      var newline, space := LastPlace(text, '\n', start, limit), LastPlace(text, ' ', start, limit);
      var boundary := if newline < space then space else newline;
      if boundary > start + maxChars / 2 then boundary + 1 else limit
    else limit
  }

  function StripLeft(text: string, isSpace: char -> bool): string {
    if text != [] && isSpace(text[0]) then StripLeft(text[1..], isSpace) else text
  }

  function StripRight(text: string, isSpace: char -> bool): string {
    if text != [] && isSpace(text[|text| - 1]) then StripRight(text[..|text| - 1], isSpace) else text
  }

  function Strip(text: string, isSpace: char -> bool): string {
    StripRight(StripLeft(text, isSpace), isSpace)
  }

  lemma {:induction false} StripLeftShape(text: string, isSpace: char -> bool)
    ensures var r := StripLeft(text, isSpace);
            && |r| <= |text| && r == text[|text| - |r|..] && (r != "" ==> !isSpace(r[0]))
            && forall i :: 0 <= i < |text| - |r| ==> isSpace(text[i])
  {
    if text != [] && isSpace(text[0]) {
      StripLeftShape(text[1..], isSpace);
      var r := StripLeft(text, isSpace);
      assert text[|text| - |r|..] == text[1..][|text| - 1 - |r|..];
      forall i | 0 <= i < |text| - |r| ensures isSpace(text[i]) {
        assert i > 0 ==> text[i] == text[1..][i - 1];
      }
    }
  }

  lemma {:induction false} StripRightShape(text: string, isSpace: char -> bool)
    ensures var r := StripRight(text, isSpace);
            && |r| <= |text| && r == text[..|r|] && (r != "" ==> !isSpace(r[|r| - 1]))
            && forall i :: |r| <= i < |text| ==> isSpace(text[i])
  {
    if text != [] && isSpace(text[|text| - 1]) {
      StripRightShape(text[..|text| - 1], isSpace);
    }
  }

  /** Stripping takes white space off both ends, all of it and nothing else. */
  lemma StripTakesEnds(text: string, isSpace: char -> bool)
    ensures var r := Strip(text, isSpace);
            && (r != "" ==> !isSpace(r[0]) && !isSpace(r[|r| - 1]))
            && exists a, b :: text == a + r + b && (forall c <- a :: isSpace(c)) && (forall c <- b :: isSpace(c))
  {
    var left, r := StripLeft(text, isSpace), Strip(text, isSpace);
    StripLeftShape(text, isSpace);
    StripRightShape(left, isSpace);
    var a, b := text[..|text| - |left|], left[|r|..];
    assert text == a + r + b;
  }

  /** The segments from `start` on: each piece stripped, the blank ones dropped. */
  function Parts(text: string, start: nat, maxChars: nat, isSpace: char -> bool): seq<string>
    requires start <= |text| && maxChars >= 2
    decreases |text| - start
  {
    if start == |text| then []
    else
      var stop := Stop(text, start, maxChars);
      var part := Strip(text[start..stop], isSpace);
      (if part != [] then [part] else []) + Parts(text, stop, maxChars, isSpace)
  }

  function MaxChars(segmentTokens: int): (chars: nat)
    ensures chars >= 64 && chars >= 4 * segmentTokens && (chars > 64 ==> chars == 4 * segmentTokens)
  {
    if segmentTokens * 4 < 64 then 64 else segmentTokens * 4
  }

  function Segmented(text: string, segmentTokens: int, isSpace: char -> bool): seq<string> {
    var maxChars := MaxChars(segmentTokens);
    if |text| <= maxChars then [text]
    else
      var parts := Parts(text, 0, maxChars, isSpace);
      if parts != [] then parts else [text[..maxChars]]
  }

  lemma Joining<T>(a: seq<T>, b: seq<T>, c: seq<T>)
    ensures a + (b + c) == (a + b) + c && a + [] == a
  {
  }

  method SplitTextForEmbedding(text: string, segmentTokens: int, isSpace: char -> bool) returns (parts: seq<string>)
    ensures parts == Segmented(text, segmentTokens, isSpace)
  {
    var maxChars := MaxChars(segmentTokens);
    if |text| <= maxChars {
      return [text];
    }
    parts := [];
    var start := 0;
    while start < |text|
      invariant start <= |text|
      invariant parts + Parts(text, start, maxChars, isSpace) == Parts(text, 0, maxChars, isSpace)
    {
      var stop := Stop(text, start, maxChars);
      var part := Strip(text[start..stop], isSpace);
      Joining(parts, if part != [] then [part] else [], Parts(text, stop, maxChars, isSpace));
      if part != [] {
        parts := parts + [part];
      }
      start := if stop < start + 1 then start + 1 else stop;
    }
    assert parts + [] == parts;
    if parts == [] {
      parts := [text[..maxChars]];
    }
  }

  // ----- nothing but white space is lost -----

  /** What a reader would call the content of a text: everything that is not white space, in order. */
  function Ink(text: string, isSpace: char -> bool): string {
    if text == [] then [] else Ink(text[..|text| - 1], isSpace) + (if isSpace(text[|text| - 1]) then [] else [text[|text| - 1]])
  }

  lemma {:induction false} NoInkIffAllSpace(text: string, isSpace: char -> bool)
    ensures Ink(text, isSpace) == "" <==> forall c <- text :: isSpace(c)
  {
    if text != "" {
      NoInkIffAllSpace(text[..|text| - 1], isSpace);
      assert text == text[..|text| - 1] + [text[|text| - 1]];
    }
  }

  lemma {:induction false} InkOfSum(a: string, b: string, isSpace: char -> bool)
    ensures Ink(a + b, isSpace) == Ink(a, isSpace) + Ink(b, isSpace)
  {
    if b == [] {
      assert a + b == a;
    } else {
      assert (a + b)[..|a + b| - 1] == a + b[..|b| - 1];
      InkOfSum(a, b[..|b| - 1], isSpace);
    }
  }

  lemma {:induction false} StripLeftKeepsInk(text: string, isSpace: char -> bool)
    ensures Ink(StripLeft(text, isSpace), isSpace) == Ink(text, isSpace) && |StripLeft(text, isSpace)| <= |text|
  {
    if text != [] && isSpace(text[0]) {
      StripLeftKeepsInk(text[1..], isSpace);
      assert text == text[..1] + text[1..];
      InkOfSum(text[..1], text[1..], isSpace);
      assert text[..1][..0] == [];
      assert Ink(text[..1], isSpace) == [];
    }
  }

  lemma {:induction false} StripRightKeepsInk(text: string, isSpace: char -> bool)
    ensures Ink(StripRight(text, isSpace), isSpace) == Ink(text, isSpace) && |StripRight(text, isSpace)| <= |text|
  {
    if text != [] && isSpace(text[|text| - 1]) {
      StripRightKeepsInk(text[..|text| - 1], isSpace);
    }
  }

  lemma StripKeepsInk(text: string, isSpace: char -> bool)
    ensures Ink(Strip(text, isSpace), isSpace) == Ink(text, isSpace) && |Strip(text, isSpace)| <= |text|
  {
    StripLeftKeepsInk(text, isSpace);
    StripRightKeepsInk(StripLeft(text, isSpace), isSpace);
  }

  /** One piece of the text and the segments of what follows it. */
  lemma PieceKeepsInk(piece: string, rest: seq<string>, isSpace: char -> bool)
    ensures var part := Strip(piece, isSpace);
            Ink(Joined((if part != [] then [part] else []) + rest), isSpace) == Ink(piece, isSpace) + Ink(Joined(rest), isSpace)
  {
    var part := Strip(piece, isSpace);
    StripKeepsInk(piece, isSpace);
    if part != [] {
      JoinedSum([part], rest);
      JoinedOne(part);
      InkOfSum(part, Joined(rest), isSpace);
    } else {
      assert [] + rest == rest;
    }
  }

  lemma InkOfTail(text: string, start: nat, stop: nat, isSpace: char -> bool)
    requires start <= stop <= |text|
    ensures Ink(text[start..], isSpace) == Ink(text[start..stop], isSpace) + Ink(text[stop..], isSpace)
  {
    assert text[start..] == text[start..stop] + text[stop..];
    InkOfSum(text[start..stop], text[stop..], isSpace);
  }

  lemma {:induction false} PartsKeepInk(text: string, start: nat, maxChars: nat, isSpace: char -> bool)
    requires start <= |text| && maxChars >= 2
    ensures Ink(Joined(Parts(text, start, maxChars, isSpace)), isSpace) == Ink(text[start..], isSpace)
    decreases |text| - start
  {
    if start < |text| {
      var stop := Stop(text, start, maxChars);
      PartsKeepInk(text, stop, maxChars, isSpace);
      PieceKeepsInk(text[start..stop], Parts(text, stop, maxChars, isSpace), isSpace);
      InkOfTail(text, start, stop, isSpace);
    }
  }

  lemma {:induction false} PartsAreShort(text: string, start: nat, maxChars: nat, isSpace: char -> bool)
    requires start <= |text| && maxChars >= 2
    ensures forall part <- Parts(text, start, maxChars, isSpace) :: 0 < |part| <= maxChars
    decreases |text| - start
  {
    if start < |text| {
      var stop := Stop(text, start, maxChars);
      PartsAreShort(text, stop, maxChars, isSpace);
      StripKeepsInk(text[start..stop], isSpace);
    }
  }

  lemma HeadKeepsInk(text: string, maxChars: nat, isSpace: char -> bool)
    requires maxChars <= |text| && Ink(text, isSpace) == []
    ensures Ink(text[..maxChars], isSpace) == []
  {
    InkOfSum(text[..maxChars], text[maxChars..], isSpace);
    assert text == text[..maxChars] + text[maxChars..];
  }

  lemma LongTextKeepsInk(text: string, maxChars: nat, isSpace: char -> bool)
    requires 2 <= maxChars < |text|
    ensures var parts := Parts(text, 0, maxChars, isSpace);
            var segments := if parts != [] then parts else [text[..maxChars]];
            && Ink(Joined(segments), isSpace) == Ink(text, isSpace)
            && forall segment <- segments :: |segment| <= maxChars
  {
    PartsKeepInk(text, 0, maxChars, isSpace);
    PartsAreShort(text, 0, maxChars, isSpace);
    assert text[0..] == text;
    if Parts(text, 0, maxChars, isSpace) == [] {
      HeadKeepsInk(text, maxChars, isSpace);
      JoinedOne(text[..maxChars]);
    }
  }

  /** Every text becomes at least one segment, none too long, and together they hold all of its content in order. */
  lemma SegmentsLoseOnlyWhiteSpace(text: string, segmentTokens: int, isSpace: char -> bool)
    ensures var segments := Segmented(text, segmentTokens, isSpace);
            && segments != []
            && (forall segment <- segments :: |segment| <= MaxChars(segmentTokens))
            && Ink(Joined(segments), isSpace) == Ink(text, isSpace)
  {
    if |text| <= MaxChars(segmentTokens) {
      JoinedOne(text);
    } else {
      LongTextKeepsInk(text, MaxChars(segmentTokens), isSpace);
    }
  }
}
