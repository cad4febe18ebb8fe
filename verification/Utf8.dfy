/** Cutting a text into pieces of bounded UTF-8 size without cutting a character; encoding as in section 3 of RFC 3629. */
module Utf8 {
  import opened Prelude

  type Byte = b: int | 0 <= b < 256

  function EncodeChar(c: char): (bytes: seq<Byte>)
    ensures 1 <= |bytes| <= 4
  {
    var n := c as int;
    if n < 0x80 then [n]
    else if n < 0x800 then [0xC0 + n / 64, 0x80 + n % 64]
    else if n < 0x10000 then [0xE0 + n / 64 / 64, 0x80 + n / 64 % 64, 0x80 + n % 64]
    else [0xF0 + n / 64 / 64 / 64, 0x80 + n / 64 / 64 % 64, 0x80 + n / 64 % 64, 0x80 + n % 64]
  }

  /** Bits of a byte: what is left when it starts with the given marker. */
  function Payload(b: Byte, marker: int): int {
    var value: int := b;
    value - marker
  }

  /**
   The table of section 3 of RFC 3629: how many bytes by the character number, what they start with, and
   the number put together from the bits they carry, most significant first.
   */
  lemma EncodedByTable(c: char)
    ensures var bytes, n := EncodeChar(c), c as int;
            && (|bytes| == 1 <==> n < 0x80) && (|bytes| == 2 <==> 0x80 <= n < 0x800) && (|bytes| == 3 <==> 0x800 <= n < 0x10000)
            && (|bytes| == 1 ==> n == Payload(bytes[0], 0) && bytes[0] < 0x80)
            && (|bytes| == 2 ==> 0xC2 <= bytes[0] < 0xE0 && n == Payload(bytes[0], 0xC0) * 0x40 + Payload(bytes[1], 0x80))
            && (|bytes| == 3 ==>
                  && 0xE0 <= bytes[0] < 0xF0
                  && n == Payload(bytes[0], 0xE0) * 0x1000 + Payload(bytes[1], 0x80) * 0x40 + Payload(bytes[2], 0x80))
            && (|bytes| == 4 ==>
                  && 0xF0 <= bytes[0] < 0xF5
                  && n == Payload(bytes[0], 0xF0) * 0x40000 + Payload(bytes[1], 0x80) * 0x1000 + Payload(bytes[2], 0x80) * 0x40 + Payload(bytes[3], 0x80))
            && forall i :: 1 <= i < |bytes| ==> 0x80 <= bytes[i] < 0xC0
  {
  }

  function Encode(s: string): seq<Byte> {
    if s == "" then [] else Encode(s[..|s| - 1]) + EncodeChar(s[|s| - 1])
  }

  /** The bytes that never start a character: those of the form 10xxxxxx. */
  predicate Continues(b: Byte) {
    b / 64 == 2
  }

  lemma CharBytes(c: char)
    ensures var bytes := EncodeChar(c); !Continues(bytes[0]) && forall i :: 1 <= i < |bytes| ==> Continues(bytes[i])
  {
  }

  /** Encoding n characters takes this many bytes: where the character behind them starts. */
  function Offset(s: string, k: nat): nat
    requires k <= |s|
  {
    |Encode(s[..k])|
  }

  lemma {:induction false} EncodeSum(a: string, b: string)
    ensures Encode(a + b) == Encode(a) + Encode(b)
  {
    if b == "" {
      assert a + b == a;
    } else {
      assert (a + b)[..|a + b| - 1] == a + b[..|b| - 1];
      EncodeSum(a, b[..|b| - 1]);
    }
  }

  lemma EncodeOne(c: char)
    ensures Encode([c]) == EncodeChar(c)
  {
    assert [c][..0] == "";
  }

  lemma OffsetStep(s: string, k: nat)
    requires k < |s|
    ensures Offset(s, k + 1) == Offset(s, k) + |EncodeChar(s[k])|
  {
    assert s[..k + 1][..k] == s[..k];
  }

  lemma {:induction false} OffsetGrows(s: string, j: nat, k: nat)
    requires j <= k <= |s|
    ensures Offset(s, j) + (k - j) <= Offset(s, k) <= Offset(s, j) + 4 * (k - j)
  {
    if j < k {
      OffsetGrows(s, j, k - 1);
      OffsetStep(s, k - 1);
    }
  }

  /** The bytes of characters j up to k stand between their offsets. */
  lemma EncodeSlice(s: string, j: nat, k: nat)
    requires j <= k <= |s|
    ensures Offset(s, j) <= Offset(s, k) <= |Encode(s)| && Encode(s)[Offset(s, j)..Offset(s, k)] == Encode(s[j..k])
  {
    assert s[..k] == s[..j] + s[j..k] && s == s[..k] + s[k..];
    EncodeSum(s[..j], s[j..k]);
    EncodeSum(s[..k], s[k..]);
  }

  /** The character whose bytes include byte p. */
  function CharAt(s: string, p: nat): (k: nat)
    requires p < |Encode(s)|
    ensures k < |s| && Offset(s, k) <= p < Offset(s, k) + |EncodeChar(s[k])|
  {
    var n := |s| - 1;
    if p >= |Encode(s[..n])| then n
    else
      var k := CharAt(s[..n], p);
      assert s[..n][..k] == s[..k];
      k
  }

  /** The bytes of one character. */
  lemma CharSlice(s: string, k: nat)
    requires k < |s|
    ensures Offset(s, k) + |EncodeChar(s[k])| <= |Encode(s)|
    ensures Encode(s)[Offset(s, k)..Offset(s, k) + |EncodeChar(s[k])|] == EncodeChar(s[k])
  {
    EncodeSlice(s, k, k + 1);
    OffsetStep(s, k);
    EncodeOne(s[k]);
    assert s[k..k + 1] == [s[k]];
  }

  lemma ByteAt(s: string, p: nat)
    requires p < |Encode(s)|
    ensures Encode(s)[p] == EncodeChar(s[CharAt(s, p)])[p - Offset(s, CharAt(s, p))]
  {
    var k := CharAt(s, p);
    CharSlice(s, k);
    SliceElement(Encode(s), Offset(s, k), Offset(s, k) + |EncodeChar(s[k])|, p);
  }

  lemma SliceElement<T>(xs: seq<T>, from: nat, to: nat, p: nat)
    requires from <= p < to <= |xs|
    ensures xs[from..to][p - from] == xs[p]
  {
  }

  lemma SlicePrefix<T>(xs: seq<T>, from: nat, to: nat, m: nat)
    requires from + m <= to <= |xs|
    ensures xs[from..from + m] == xs[from..to][..m]
  {
  }

  /** A byte starts a character exactly when it is not a continuation byte. */
  lemma StartsChar(s: string, p: nat)
    requires p < |Encode(s)|
    ensures Continues(Encode(s)[p]) <==> p != Offset(s, CharAt(s, p))
  {
    ByteAt(s, p);
    CharBytes(s[CharAt(s, p)]);
  }

  // ----- strict decoding -----

  function CharLength(lead: Byte): nat {
    if lead < 0x80 then 1 else if lead < 0xE0 then 2 else if lead < 0xF0 then 3 else 4
  }

  /** The number a group of bytes stands for, by its length alone. */
  function Number(bytes: seq<Byte>): int
    requires 1 <= |bytes| <= 4
  {
    var lead: int := bytes[0];
    if |bytes| == 1 then lead
    else if |bytes| == 2 then Shifted(lead - 0xC0, bytes[1])
    else if |bytes| == 3 then Shifted(Shifted(lead - 0xE0, bytes[1]), bytes[2])
    else Shifted(Shifted(Shifted(lead - 0xF0, bytes[1]), bytes[2]), bytes[3])
  }

  function Shifted(high: int, b: Byte): int {
    var low: int := b;
    high * 64 + low - 0x80
  }

  predicate Scalar(n: int) {
    0 <= n < 0xD800 || 0xE000 <= n < 0x110000
  }

  /** A group is accepted only as the one shortest encoding of a character; overlong forms, surrogates and stray bytes raise. */
  function DecodeChar(bytes: seq<Byte>): (c: Option<char>)
    requires 1 <= |bytes| <= 4
    ensures c.Some? ==> EncodeChar(c.value) == bytes
  {
    var n := Number(bytes);
    if Scalar(n) && EncodeChar(n as char) == bytes then Some(n as char) else None
  }

  function Decode(bytes: seq<Byte>): (s: Option<string>)
    decreases |bytes|
  {
    if bytes == [] then Some("")
    else
      var n := CharLength(bytes[0]);
      if n > |bytes| then None
      else
        var c := DecodeChar(bytes[..n]);
        var rest := Decode(bytes[n..]);
        if c.None? || rest.None? then None else Some([c.value] + rest.value)
  }

  lemma CharRoundTrip(c: char)
    ensures CharLength(EncodeChar(c)[0]) == |EncodeChar(c)| && DecodeChar(EncodeChar(c)) == Some(c)
  {
    var n := c as int;
    assert Number(EncodeChar(c)) == n;
  }

  lemma {:induction false} DecodeEncode(s: string)
    ensures Decode(Encode(s)) == Some(s)
  {
    if s != "" {
      assert s == [s[0]] + s[1..];
      EncodeCons(s[0], s[1..]);
      CharRoundTrip(s[0]);
      DecodeEncode(s[1..]);
      var bytes := Encode(s);
      var n := |EncodeChar(s[0])|;
      assert bytes[..n] == EncodeChar(s[0]) && bytes[n..] == Encode(s[1..]);
    }
  }

  lemma EncodeCons(c: char, rest: string)
    ensures Encode([c] + rest) == EncodeChar(c) + Encode(rest)
  {
    EncodeSum([c], rest);
    EncodeOne(c);
  }

  lemma Halves<T>(xs: seq<T>, n: nat)
    requires n <= |xs|
    ensures xs == xs[..n] + xs[n..]
  {
  }

  /** Decoding is strict: what it accepts is the encoding of what it returns. */
  lemma {:induction false} DecodeIsStrict(bytes: seq<Byte>)
    ensures Decode(bytes).Some? ==> Encode(Decode(bytes).value) == bytes
    decreases |bytes|
  {
    if bytes != [] && Decode(bytes).Some? {
      var n := CharLength(bytes[0]);
      DecodeIsStrict(bytes[n..]);
      var c, rest := DecodeChar(bytes[..n]), Decode(bytes[n..]);
      EncodeCons(c.value, rest.value);
      Halves(bytes, n);
    }
  }

  // ----- cutting into pieces -----

  /** The pieces in order make the text; each fits the limit and each but the last comes within three bytes of it. */
  ghost predicate Pieces(content: string, maxBytes: nat, chunks: seq<string>) {
    && Joined(chunks) == content && (content != "" ==> forall chunk <- chunks :: chunk != "")
    && (forall chunk <- chunks :: |Encode(chunk)| <= maxBytes)
    && (forall i :: 0 <= i < |chunks| - 1 ==> |Encode(chunks[i])| + 3 >= maxBytes)
  }

  lemma OffsetInOrder(s: string, j: nat, k: nat)
    requires j <= |s| && k <= |s|
    ensures Offset(s, j) < Offset(s, k) <==> j < k
  {
    if j <= k {
      OffsetGrows(s, j, k);
    } else {
      OffsetGrows(s, k, j);
    }
  }

  lemma ByteAtOffset(s: string, q: nat)
    requires q < |s|
    ensures Offset(s, q) < |Encode(s)| && !Continues(Encode(s)[Offset(s, q)])
  {
    CharSlice(s, q);
    CharBytes(s[q]);
    assert Encode(s)[Offset(s, q)] == EncodeChar(s[q])[0];
  }

  /** A character that starts at or before byte p is at or before the character of byte p. */
  lemma CharBounds(s: string, k: nat, p: nat)
    requires k <= |s| && p < |Encode(s)| && Offset(s, k) <= p
    ensures k <= CharAt(s, p)
  {
    var q := CharAt(s, p);
    OffsetStep(s, q);
    OffsetInOrder(s, k, q + 1);
  }

  lemma StartNotBehind(s: string, k: nat, p: nat)
    requires k <= |s| && p < |Encode(s)| && Offset(s, k) <= p
    ensures Offset(s, k) <= Offset(s, CharAt(s, p))
  {
    CharBounds(s, k, p);
    OffsetGrows(s, k, CharAt(s, p));
  }

  /** Backing off from a limit over continuation bytes ends where the limit's character starts. */
  lemma BackedOff(s: string, k: nat, end: nat, limit: nat)
    requires k <= |s| && Offset(s, k) <= end <= limit < |Encode(s)|
    requires forall p :: end < p <= limit ==> Continues(Encode(s)[p])
    requires end == Offset(s, k) || !Continues(Encode(s)[end])
    ensures end == Offset(s, CharAt(s, limit)) && k <= CharAt(s, limit)
  {
    ByteAtOffset(s, CharAt(s, limit));
    CharBounds(s, k, limit);
    StartNotBehind(s, k, limit);
    if end != Offset(s, k) {
      StartsChar(s, end);
      StartNotBehind(s, CharAt(s, end), limit);
    }
  }

  lemma HalfCharFails(c: char, m: nat)
    requires 0 < m < |EncodeChar(c)|
    ensures Decode(EncodeChar(c)[..m]).None?
  {
    CharRoundTrip(c);
  }

  /** Half a character is not decoded. */
  lemma CutCharFails(s: string, k: nat, m: nat)
    requires k < |s| && 0 < m < |EncodeChar(s[k])|
    ensures Offset(s, k) + m <= |Encode(s)| && Decode(Encode(s)[Offset(s, k)..Offset(s, k) + m]).None?
  {
    CharSlice(s, k);
    HalfCharFails(s[k], m);
    SlicePrefix(Encode(s), Offset(s, k), Offset(s, k) + |EncodeChar(s[k])|, m);
  }

  lemma CharsFit(s: string, j: nat, k: nat, maxBytes: nat)
    requires j <= k <= |s| && Offset(s, k) - Offset(s, j) <= maxBytes
    ensures forall i :: j <= i < k ==> |EncodeChar(s[i])| <= maxBytes
  {
    forall i | j <= i < k ensures |EncodeChar(s[i])| <= maxBytes {
      OffsetStep(s, i);
      OffsetGrows(s, j, i);
      OffsetGrows(s, i + 1, k);
    }
  }

  lemma PieceDecodes(s: string, j: nat, k: nat)
    requires j <= k <= |s|
    ensures Offset(s, j) <= Offset(s, k) <= |Encode(s)|
    ensures Decode(Encode(s)[Offset(s, j)..Offset(s, k)]) == Some(s[j..k])
    ensures |Encode(s[j..k])| == Offset(s, k) - Offset(s, j)
  {
    EncodeSlice(s, j, k);
    DecodeEncode(s[j..k]);
  }

  method BackOff(encoded: seq<Byte>, start: nat, limit: nat) returns (end: nat)
    requires start <= limit < |encoded|
    ensures start <= end <= limit && (end == start || !Continues(encoded[end]))
    ensures forall p :: end < p <= limit ==> Continues(encoded[p])
  {
    end := limit;
    while end > start && Continues(encoded[end])
      invariant start <= end <= limit
      invariant forall p :: end < p <= limit ==> Continues(encoded[p])
    {
      end := end - 1;
    }
  }

  /** Where the piece that starts with character k ends. */
  method PieceEnd(content: string, encoded: seq<Byte>, ghost k: nat, start: nat, maxBytes: nat) returns (end: nat, ghost next: nat)
    requires encoded == Encode(content) && k < |content| && start == Offset(content, k) < |encoded| && maxBytes >= 1
    ensures start < end <= |encoded| && end - start <= maxBytes
    ensures k <= next <= |content| && (next > k ==> end == Offset(content, next))
    ensures next == k ==> end - start == maxBytes < |EncodeChar(content[k])|
    ensures next < |content| ==> end - start + 3 >= maxBytes
  {
    var limit := if start + maxBytes < |encoded| then start + maxBytes else |encoded|;
    end, next := limit, |content|;
    assert content[..|content|] == content;
    if end < |encoded| {
      end := BackOff(encoded, start, limit);
      BackedOff(content, k, end, limit);
      next := CharAt(content, limit);
    }
    if end <= start {
      OffsetInOrder(content, k, next);
      end := limit;
    }
  }

  /** The first k characters are cut; when characters follow, every piece so far is nearly full. */
  ghost predicate CutUpTo(content: string, maxBytes: nat, k: nat, pieces: seq<string>) {
    && k <= |content| && Joined(pieces) == content[..k]
    && (forall piece <- pieces :: piece != "" && |Encode(piece)| <= maxBytes)
    && (forall i :: 0 <= i < |pieces| && (i < |pieces| - 1 || k < |content|) ==> |Encode(pieces[i])| + 3 >= maxBytes)
    && (forall i :: 0 <= i < k ==> |EncodeChar(content[i])| <= maxBytes)
  }

  lemma OnePieceMore(content: string, maxBytes: nat, k: nat, next: nat, pieces: seq<string>)
    requires CutUpTo(content, maxBytes, k, pieces) && k < next <= |content|
    requires Offset(content, next) - Offset(content, k) <= maxBytes
    requires next < |content| ==> Offset(content, next) - Offset(content, k) + 3 >= maxBytes
    ensures CutUpTo(content, maxBytes, next, pieces + [content[k..next]])
  {
    PieceDecodes(content, k, next);
    CharsFit(content, k, next, maxBytes);
    assert content[..next] == content[..k] + content[k..next];
    JoinedOneMore(pieces, content[k..next]);
  }

  lemma MoreToCut(content: string, k: nat)
    requires k <= |content| && Offset(content, k) < |Encode(content)|
    ensures k < |content|
  {
    assert content[..|content|] == content;
  }

  /** Decodes one piece; it fails only where a single character is longer than the limit. */
  method NextPiece(content: string, encoded: seq<Byte>, ghost k: nat, start: nat, maxBytes: nat, ghost pieces: seq<string>)
    returns (piece: Option<string>, end: nat, ghost next: nat)
    requires encoded == Encode(content) && CutUpTo(content, maxBytes, k, pieces) && start == Offset(content, k) < |encoded| && maxBytes >= 1
    ensures piece.None? ==> k < |content| && |EncodeChar(content[k])| > maxBytes
    ensures piece.Some? ==> k < next <= |content| && end == Offset(content, next) <= |encoded|
    ensures piece.Some? ==> CutUpTo(content, maxBytes, next, pieces + [piece.value])
  {
    MoreToCut(content, k);
    end, next := PieceEnd(content, encoded, k, start, maxBytes);
    piece := Decode(encoded[start..end]);
    if next == k {
      CutCharFails(content, k, maxBytes);
    } else {
      PieceDecodes(content, k, next);
      OnePieceMore(content, maxBytes, k, next, pieces);
    }
  }

  method SplitUtf8Chunks(content: string, maxBytes: nat) returns (chunks: Option<seq<string>>)
    requires maxBytes >= 1
    ensures chunks.Some? <==> |Encode(content)| <= maxBytes || forall c <- content :: |EncodeChar(c)| <= maxBytes
    ensures chunks.Some? ==> Pieces(content, maxBytes, chunks.value)
  {
    var encoded := Encode(content);
    if |encoded| <= maxBytes {
      assert [content][..0] == [];
      return Some([content]);
    }
    var pieces: seq<string> := [];
    var start := 0;
    ghost var k := 0;
    assert content[..|content|] == content;
    while start < |encoded|
      invariant CutUpTo(content, maxBytes, k, pieces) && start == Offset(content, k) <= |encoded|
      decreases |content| - k
    {
      var piece, end, next := NextPiece(content, encoded, k, start, maxBytes, pieces);
      if piece.None? {
        return None;
      }
      pieces, start, k := pieces + [piece.value], end, next;
    }
    OffsetInOrder(content, k, |content|);
    return Some(pieces);
  }
}
