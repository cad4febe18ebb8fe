/** Making evidence fit a token budget: shorten the longest excerpt again and again, and only then drop items from the end. */
module EvidenceTrim {
  import opened Prelude
  import opened Segments

  const MinimumExcerptChars: nat := 96

  /** `rest` stands for everything about an item but its excerpt. */
  datatype Item = Item(excerpt: string, rest: string)

  function EstimateTokens(value: string): nat {
    if (|value| + 2) / 3 < 1 then 1 else (|value| + 2) / 3
  }

  /** A pack fits a target exactly when its text has at most three characters per token, and never fits a target of zero. */
  lemma FitsIffThreeCharsPerToken(value: string, target: nat)
    ensures EstimateTokens(value) <= target <==> target >= 1 && |value| <= 3 * target
  {
  }

  function Target(budget: int, reserve: int): (target: nat)
    ensures reserve <= 0 && budget >= 0 ==> target == budget
    ensures reserve > 0 && budget >= reserve ==> target + reserve == budget
    ensures budget < 0 || budget < reserve ==> target == 0
  {
    var left := budget - (if reserve < 0 then 0 else reserve);
    if left < 0 then 0 else left
  }

  function TotalLength(items: seq<Item>): nat {
    if items == [] then 0 else TotalLength(items[..|items| - 1]) + |items[|items| - 1].excerpt|
  }

  predicate Reducible(item: Item) {
    |item.excerpt| > MinimumExcerptChars
  }

  /** A shortened excerpt: a prefix, stripped on the right, and three dots. */
  ghost predicate Shortened(original: string, excerpt: string, isSpace: char -> bool) {
    exists n :: 0 <= n < |original| && excerpt == StripRight(original[..n], isSpace) + "..."
  }

  ghost predicate Trimmed(original: Item, item: Item, isSpace: char -> bool) {
    item == original || (item.rest == original.rest && Reducible(original) && Shortened(original.excerpt, item.excerpt, isSpace))
  }

  /** The items from the front, each as it was or shortened. */
  ghost predicate TrimmedFront(evidence: seq<Item>, kept: seq<Item>, isSpace: char -> bool) {
    |kept| <= |evidence| && forall i :: 0 <= i < |kept| ==> Trimmed(evidence[i], kept[i], isSpace)
  }

  lemma {:induction false} StripRightIsPrefix(text: string, isSpace: char -> bool)
    ensures StripRight(text, isSpace) <= text
  {
    if text != [] && isSpace(text[|text| - 1]) {
      StripRightIsPrefix(text[..|text| - 1], isSpace);
    }
  }

  /** Shortening a second time is shortening the original further: the first dots are cut off again. */
  lemma ShortenedAgain(original: string, excerpt: string, n: nat, isSpace: char -> bool)
    requires Shortened(original, excerpt, isSpace) && n + 3 <= |excerpt|
    ensures Shortened(original, StripRight(excerpt[..n], isSpace) + "...", isSpace)
  {
    var m :| 0 <= m < |original| && excerpt == StripRight(original[..m], isSpace) + "...";
    StripRightIsPrefix(original[..m], isSpace);
    assert excerpt[..n] == original[..n];
  }

  lemma {:induction false} TotalLengthUpdate(items: seq<Item>, i: nat, item: Item)
    requires i < |items|
    ensures TotalLength(items[i := item]) == TotalLength(items) - |items[i].excerpt| + |item.excerpt|
  {
    var n := |items| - 1;
    if i < n {
      TotalLengthUpdate(items[..n], i, item);
      assert items[i := item][..n] == items[..n][i := item];
    } else {
      assert items[i := item][..n] == items[..n];
    }
  }

  /** The longest excerpt over the minimum, the last of them if there are several. */
  method LongestReducible(kept: seq<Item>) returns (at: Option<nat>)
    ensures at.None? <==> forall i :: 0 <= i < |kept| ==> !Reducible(kept[i])
    ensures at.Some? ==> at.value < |kept| && Reducible(kept[at.value])
    ensures at.Some? ==> forall i :: 0 <= i < |kept| ==> |kept[i].excerpt| <= |kept[at.value].excerpt| && (|kept[i].excerpt| == |kept[at.value].excerpt| ==> i <= at.value)
  {
    at := None;
    for i := 0 to |kept|
      invariant at.None? <==> forall j :: 0 <= j < i ==> !Reducible(kept[j])
      invariant at.Some? ==> at.value < i && Reducible(kept[at.value])
      invariant at.Some? ==> forall j :: 0 <= j < i ==> |kept[j].excerpt| <= |kept[at.value].excerpt| && (|kept[j].excerpt| == |kept[at.value].excerpt| ==> j <= at.value)
    {
      if Reducible(kept[i]) && (at.None? || |kept[i].excerpt| >= |kept[at.value].excerpt|) {
        at := Some(i);
      }
    }
  }

  /** At least 32 characters; else no more than the excess calls for and than leaves the minimum, and one of the two in full. */
  ghost predicate CutsBy(length: nat, excess: int, r: nat) {
    && r >= 32 && (r >= length - 96 || r >= excess * 4 + 16)
    && (r > 32 ==> r <= length - 96 && r <= excess * 4 + 16)
  }

  ghost predicate IsLongest(kept: seq<Item>, at: nat) {
    && at < |kept| && Reducible(kept[at])
    && forall i :: 0 <= i < |kept| ==>
         |kept[i].excerpt| <= |kept[at].excerpt| && (|kept[i].excerpt| == |kept[at].excerpt| ==> i <= at)
  }

  /** The excerpt cut by so many characters, stripped on the right and followed by three dots; the rest of the item as it was. */
  ghost predicate IsCutBy(before: Item, after: Item, r: nat, isSpace: char -> bool) {
    && r <= |before.excerpt| && after.rest == before.rest
    && exists n :: 0 <= n <= |before.excerpt| - r && after.excerpt == before.excerpt[..n] + "..."
                   && (n > 0 ==> !isSpace(before.excerpt[n - 1])) && forall i :: n <= i < |before.excerpt| - r ==> isSpace(before.excerpt[i])
  }

  /** One round: the longest excerpt over the minimum is cut by what the excess calls for or, if there is none, the last item goes. */
  ghost predicate Round(before: seq<Item>, after: seq<Item>, excess: int, isSpace: char -> bool) {
    if forall i :: 0 <= i < |before| ==> !Reducible(before[i]) then before != [] && after == before[..|before| - 1]
    else exists at: nat, r: nat ::
      && IsLongest(before, at) && |after| == |before| && (forall i :: 0 <= i < |before| && i != at ==> after[i] == before[i])
      && CutsBy(|before[at].excerpt|, excess, r) && IsCutBy(before[at], after[at], r, isSpace)
  }

  /** Rounds from the evidence on, each because the pack did not fit, until it does or nothing is left. */
  ghost predicate Rounds(trace: seq<seq<Item>>, encode: seq<Item> -> string, target: nat, isSpace: char -> bool) {
    forall i :: 0 <= i < |trace| - 1 ==>
      && trace[i] != [] && EstimateTokens(encode(trace[i])) > target
      && Round(trace[i], trace[i + 1], EstimateTokens(encode(trace[i])) - target, isSpace)
  }

  lemma ShortenIsRound(kept: seq<Item>, at: nat, excess: int, isSpace: char -> bool)
    requires IsLongest(kept, at)
    ensures Round(kept, kept[at := kept[at].(excerpt := Shorten(kept[at].excerpt, excess, isSpace))], excess, isSpace)
  {
    var r := Reduction(|kept[at].excerpt|, excess);
    var cut := kept[at].excerpt[..|kept[at].excerpt| - r];
    var n := |StripRight(cut, isSpace)|;
    StripRightShape(cut, isSpace);
    assert kept[at].excerpt[..n] == cut[..n];
    assert IsCutBy(kept[at], kept[at].(excerpt := Shorten(kept[at].excerpt, excess, isSpace)), r, isSpace);
  }

  /** The rounds lead from the evidence to what is kept. */
  ghost predicate Traced(trace: seq<seq<Item>>, evidence: seq<Item>, kept: seq<Item>, encode: seq<Item> -> string, target: nat, isSpace: char -> bool) {
    trace != [] && trace[0] == evidence && trace[|trace| - 1] == kept && Rounds(trace, encode, target, isSpace)
  }

  lemma OneRoundMore(trace: seq<seq<Item>>, evidence: seq<Item>, kept: seq<Item>, next: seq<Item>, encode: seq<Item> -> string, target: nat,
                     isSpace: char -> bool)
    requires Traced(trace, evidence, kept, encode, target, isSpace) && kept != [] && EstimateTokens(encode(kept)) > target
    requires Round(kept, next, EstimateTokens(encode(kept)) - target, isSpace)
    ensures Traced(trace + [next], evidence, next, encode, target, isSpace)
  {
  }

  /** How much to cut: enough for the excess, but at least 32 characters and, if that allows, not below the minimum. */
  function Reduction(length: nat, excess: int): (r: nat)
    requires length > MinimumExcerptChars
    ensures r <= length && CutsBy(length, excess, r)
  {
    var wanted := if length - MinimumExcerptChars < excess * 4 + 16 then length - MinimumExcerptChars else excess * 4 + 16;
    if wanted < 32 then 32 else wanted
  }

  function Shorten(excerpt: string, excess: int, isSpace: char -> bool): string
    requires |excerpt| > MinimumExcerptChars
  {
    StripRight(excerpt[..|excerpt| - Reduction(|excerpt|, excess)], isSpace) + "..."
  }

  lemma ShortenShortens(original: Item, item: Item, excess: int, isSpace: char -> bool)
    requires Trimmed(original, item, isSpace) && Reducible(item)
    ensures var shorter := item.(excerpt := Shorten(item.excerpt, excess, isSpace));
            Trimmed(original, shorter, isSpace) && |shorter.excerpt| < |item.excerpt|
  {
    var n := |item.excerpt| - Reduction(|item.excerpt|, excess);
    StripRightIsPrefix(item.excerpt[..n], isSpace);
    if item == original {
      assert Shortened(original.excerpt, Shorten(item.excerpt, excess, isSpace), isSpace);
    } else {
      ShortenedAgain(original.excerpt, item.excerpt, n, isSpace);
    }
  }

  /** Items after the first dropped one may not be shortened any more. */
  ghost predicate DropsLast(evidence: seq<Item>, kept: seq<Item>) {
    |kept| < |evidence| ==> forall i :: 0 <= i < |kept| ==> !Reducible(kept[i])
  }

  /** One round of the loop. */
  method TrimOnce(ghost evidence: seq<Item>, kept: seq<Item>, excess: int, isSpace: char -> bool) returns (next: seq<Item>)
    requires kept != [] && TrimmedFront(evidence, kept, isSpace) && DropsLast(evidence, kept)
    ensures Round(kept, next, excess, isSpace)
    ensures TrimmedFront(evidence, next, isSpace) && DropsLast(evidence, next)
    ensures |next| < |kept| || (|next| == |kept| && TotalLength(next) < TotalLength(kept))
  {
    var longest := LongestReducible(kept);
    if longest.Some? {
      var index := longest.value;
      var item := kept[index].(excerpt := Shorten(kept[index].excerpt, excess, isSpace));
      ShortenShortens(evidence[index], kept[index], excess, isSpace);
      TotalLengthUpdate(kept, index, item);
      ShortenIsRound(kept, index, excess, isSpace);
      return kept[index := item];
    }
    return kept[..|kept| - 1];
  }

  /** `encode` is the released pack with the given evidence in it, as text. */
  method TrimEvidence(evidence: seq<Item>, encode: seq<Item> -> string, budget: int, reserve: int, isSpace: char -> bool)
    returns (kept: seq<Item>, changed: bool, ghost trace: seq<seq<Item>>)
    ensures kept == [] || EstimateTokens(encode(kept)) <= Target(budget, reserve)
    ensures TrimmedFront(evidence, kept, isSpace)
    ensures |kept| < |evidence| ==> forall i :: 0 <= i < |kept| ==> !Reducible(kept[i])
    ensures budget <= reserve || budget <= 0 ==> kept == []
    ensures changed <==> kept != evidence
    ensures changed <==> evidence != [] && EstimateTokens(encode(evidence)) > Target(budget, reserve)
    ensures Traced(trace, evidence, kept, encode, Target(budget, reserve), isSpace)
  {
    kept := evidence;
    trace := [evidence];
    var target := Target(budget, reserve);
    while kept != [] && EstimateTokens(encode(kept)) > target
      invariant TrimmedFront(evidence, kept, isSpace) && DropsLast(evidence, kept)
      invariant kept == evidence || (evidence != [] && EstimateTokens(encode(evidence)) > target)
      invariant kept == evidence || |kept| < |evidence| || TotalLength(kept) < TotalLength(evidence)
      invariant Traced(trace, evidence, kept, encode, target, isSpace)
      decreases |kept|, TotalLength(kept)
    {
      var next := TrimOnce(evidence, kept, EstimateTokens(encode(kept)) - target, isSpace);
      OneRoundMore(trace, evidence, kept, next, encode, target, isSpace);
      kept, trace := next, trace + [next];
    }
    changed := |kept| != |evidence| || kept != evidence;
  }
}
