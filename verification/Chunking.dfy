/** The two chunkers of kaizen_components/evidence.py. */
module Chunking {
  import opened Text
  import opened Orders

  /** The widest stored chunk, so that no chunk can exceed the word limit of a text field. */
  const CHUNK_BOUND := 1999
  const WORD_LIMIT := 1000

  datatype Chunk = Chunk(body: string, start: nat, end: nat)

  function Cap(maxChars: int): int {
    if maxChars < CHUNK_BOUND then maxChars else CHUNK_BOUND
  }

  // ---- the character-window chunker ------------------------------------------------------------------

  /** Where the window that starts at `i` ends. */
  function WindowEnd(text: string, i: nat, m: nat): (end: nat)
    requires i < |text|
    ensures i <= end <= |text| && end - i <= m && (m >= 1 ==> i < end)
    ensures end < |text| && m >= 1 ==> 2 * (end - i) > m
  {
    if i + m >= |text| then |text|
    else
      var window := text[i..i + m];
      var paragraph := RFind(window, "\n\n");
      var cut := if paragraph == -1 then RFind(window, ". ") else paragraph;
      if 2 * cut > m then i + cut + 1 else i + m
  }

  ghost predicate LastAt(s: string, pattern: string, k: nat) {
    OccursAt(s, pattern, k) && forall j: nat | j > k :: !OccursAt(s, pattern, j)
  }

  /** The break a window is cut at: its last paragraph break, or, if it holds none, its last sentence break. */
  ghost predicate BreaksAt(window: string, k: nat) {
    || LastAt(window, "\n\n", k)
    || ((forall j: nat :: !OccursAt(window, "\n\n", j)) && LastAt(window, ". ", k))
  }

  /** A window that does not reach the end of the text ends just inside its break if that lies past the
      middle, and otherwise is full. */
  lemma WindowBreaks(text: string, i: nat, m: nat, k: nat)
    requires i < |text| && i + m < |text|
    ensures var end, window := WindowEnd(text, i, m), text[i..i + m];
      && (BreaksAt(window, k) ==> end == if 2 * k > m then i + k + 1 else i + m)
      && ((forall j: nat :: !BreaksAt(window, j)) ==> end == i + m)
  {
    var window := text[i..i + m];
    var paragraph, sentence := RFind(window, "\n\n"), RFind(window, ". ");
    if paragraph >= 0 {
      assert LastAt(window, "\n\n", paragraph) && BreaksAt(window, paragraph);
    } else {
      NoneFound(window, "\n\n");
      if sentence >= 0 {
        assert LastAt(window, ". ", sentence) && BreaksAt(window, sentence);
      } else {
        NoneFound(window, ". ");
      }
    }
    if BreaksAt(window, k) {
      OneBreak(window, k);
    }
  }

  lemma NoneFound(window: string, pattern: string)
    requires RFind(window, pattern) < 0
    ensures forall j: nat :: !OccursAt(window, pattern, j)
  {
  }

  lemma OneBreak(window: string, k: nat)
    requires BreaksAt(window, k)
    ensures RFind(window, "\n\n") == k || (RFind(window, "\n\n") == -1 && RFind(window, ". ") == k)
  {
    var paragraph, sentence := RFind(window, "\n\n"), RFind(window, ". ");
    if LastAt(window, "\n\n", k) {
      assert paragraph >= k;
    } else {
      assert paragraph == -1 && sentence >= k;
    }
  }

  /** A window that reaches the end of the text ends there, unshortened. */
  lemma FinalWindow(text: string, i: nat, m: nat)
    requires i < |text| && i + m >= |text|
    ensures WindowEnd(text, i, m) == |text|
  {
  }

  /** Where the window from `i` may end. */
  ghost predicate WindowRule(text: string, i: nat, m: nat, end: nat) {
    if i + m >= |text| then end == |text|
    else
      || (end == i + m && forall k: nat | BreaksAt(text[i..i + m], k) :: 2 * k <= m)
      || exists k: nat | BreaksAt(text[i..i + m], k) :: 2 * k > m && end == i + k + 1
  }

  /** The chunks are the stripped windows that the rule allows, one after the other, and it allows one. */
  lemma ChunksFollowRule(text: string, i: nat, m: nat, end: nat)
    requires i < |text| && m >= 1
    ensures WindowRule(text, i, m, end) <==> end == WindowEnd(text, i, m)
    ensures WindowRule(text, i, m, end) ==>
              i < end <= |text| && Chunks(text, i, m) == Piece(text, i, end) + Chunks(text, end, m)
  {
    hide Piece, WindowEnd;
    if i + m >= |text| {
      FinalWindow(text, i, m);
    } else {
      WindowAllowed(text, i, m);
      if WindowRule(text, i, m, end) {
        WindowForced(text, i, m, end);
      }
    }
  }

  lemma WindowAllowed(text: string, i: nat, m: nat)
    requires i < |text| && i + m < |text|
    ensures WindowRule(text, i, m, WindowEnd(text, i, m))
  {
    hide WindowEnd, BreaksAt;
    var window := text[i..i + m];
    if exists k: nat :: BreaksAt(window, k) {
      var k: nat :| BreaksAt(window, k);
      WindowBreaks(text, i, m, k);
      forall j: nat | BreaksAt(window, j)
        ensures j == k
      {
        BreakUnique(window, j, k);
      }
    } else {
      WindowBreaks(text, i, m, 0);
    }
  }

  lemma BreakUnique(window: string, j: nat, k: nat)
    requires BreaksAt(window, j) && BreaksAt(window, k)
    ensures j == k
  {
    OneBreak(window, j);
    OneBreak(window, k);
  }

  lemma WindowForced(text: string, i: nat, m: nat, end: nat)
    requires i < |text| && i + m < |text| && WindowRule(text, i, m, end)
    ensures end == WindowEnd(text, i, m)
  {
    hide WindowEnd, BreaksAt;
    var window := text[i..i + m];
    if exists k: nat :: BreaksAt(window, k) {
      var k: nat :| BreaksAt(window, k);
      WindowBreaks(text, i, m, k);
      forall j: nat | BreaksAt(window, j)
        ensures j == k
      {
        BreakUnique(window, j, k);
      }
    } else {
      WindowBreaks(text, i, m, 0);
    }
  }

  lemma CapMeaning(maxChars: int)
    ensures Cap(maxChars) <= maxChars && Cap(maxChars) <= CHUNK_BOUND
    ensures Cap(maxChars) == maxChars || Cap(maxChars) == CHUNK_BOUND
    ensures CHUNK_BOUND == 2 * WORD_LIMIT - 1
  {
  }

  /** A text within the cap that is not all whitespace is one chunk: itself, stripped, at its offsets. */
  lemma ShortTextOneChunk(text: string, maxChars: int)
    requires 1 <= maxChars && |text| <= Cap(maxChars) && exists p | 0 <= p < |text| :: !IsSpace(text[p])
    ensures var chunks := Chunks(text, 0, Cap(maxChars));
            && |chunks| == 1 && chunks[0].body == Strip(text) && Strip(text) != []
            && chunks[0].end == chunks[0].start + |Strip(text)| && chunks[0].end <= |text|
            && text[chunks[0].start..chunks[0].end] == Strip(text)
            && Blank(text, 0, chunks[0].start) && Blank(text, chunks[0].end, |text|)
  {
    var m: nat := Cap(maxChars);
    FinalWindow(text, 0, m);
    StripIsSlice(text);
    assert text[0..|text|] == text;
    hide WindowEnd, Strip, IsSpace, LeadingSpace;
    assert Chunks(text, |text|, m) == [];
    assert Chunks(text, 0, m) == Piece(text, 0, |text|) + [];
  }

  /** At a cap of zero the window is empty wherever it starts, so the loop would stay where it is. */
  lemma ZeroCapStalls(text: string, i: nat)
    requires i < |text|
    ensures WindowEnd(text, i, 0) == i
  {
    assert text[i..i] == [];
  }

  /** The stored piece of one window: its text without outer whitespace, with exact offsets. */
  function Piece(text: string, i: nat, end: nat): seq<Chunk>
    requires i <= end <= |text|
  {
    var raw := text[i..end];
    var body := Strip(raw);
    if body == [] then [] else [Chunk(body, i + LeadingSpace(raw), i + LeadingSpace(raw) + |body|)]
  }

  function Chunks(text: string, i: nat, m: nat): seq<Chunk>
    requires i <= |text| && m >= 1
    decreases |text| - i
  {
    if i == |text| then []
    else
      var end := WindowEnd(text, i, m);
      Piece(text, i, end) + Chunks(text, end, m)
  }

  method NextEnd(text: string, i: nat, m: nat) returns (end: nat)
    requires i < |text|
    ensures end == WindowEnd(text, i, m)
  {
    end := if i + m < |text| then i + m else |text|;
    if end < |text| {
      var window := text[i..end];
      var cut := RFind(window, "\n\n");
      if cut == -1 {
        cut := RFind(window, ". ");
      }
      if 2 * cut > m {
        end := i + cut + 1;
      }
    }
  }

  /** The window's text without its outer whitespace, with the offsets of what is left. */
  method Stripped(text: string, i: nat, end: nat) returns (piece: seq<Chunk>)
    requires i <= end <= |text|
    ensures piece == Piece(text, i, end)
  {
    hide Strip, LeadingSpace;
    var raw := text[i..end];
    var body := Strip(raw);
    piece := [];
    if body != [] {
      var start := i + (|raw| - |LStrip(raw)|);
      piece := [Chunk(body, start, start + |body|)];
    }
  }

  /** `_recursive_chunk`. On a text that is not empty, a cap of zero would never advance. */
  method RecursiveChunk(text: string, maxChars: int) returns (chunks: seq<Chunk>)
    requires maxChars >= 1 || text == []
    ensures chunks == if text == [] then [] else Chunks(text, 0, Cap(maxChars))
    ensures forall c | c in chunks :: |c.body| <= maxChars
  {
    if text == [] {
      return [];
    }
    ChunksWithinCap(text, maxChars);
    hide Piece, WindowEnd;
    var m := Cap(maxChars);
    chunks := [];
    var i: nat := 0;
    while i < |text|
      invariant i <= |text|
      invariant Chunks(text, 0, m) == chunks + Chunks(text, i, m)
      decreases |text| - i
    {
      var end := NextEnd(text, i, m);
      var piece := Stripped(text, i, end);
      assert (chunks + piece) + Chunks(text, end, m) == chunks + (piece + Chunks(text, end, m));
      chunks := chunks + piece;
      i := end;
    }
  }

  /** A chunk restores itself from the text, holds no outer whitespace and respects the cap. */
  ghost predicate ExactChunk(text: string, m: nat, c: Chunk) {
    && c.start < c.end <= |text| && text[c.start..c.end] == c.body
    && Trimmed(c.body) && |c.body| <= m
  }

  /** Either nothing but whitespace, or one exact chunk with only whitespace around it. */
  ghost predicate PieceOk(text: string, i: nat, end: nat, piece: seq<Chunk>)
    requires i <= end <= |text|
  {
    || (piece == [] && Blank(text, i, end))
    || (|piece| == 1 && ExactChunk(text, end - i, piece[0]) && i <= piece[0].start && piece[0].end <= end
        && Blank(text, i, piece[0].start) && Blank(text, piece[0].end, end))
  }

  lemma BlankWindow(text: string, i: nat, end: nat, lo: nat, hi: nat)
    requires i <= end <= |text| && lo <= hi <= end - i
    requires Blank(text[i..end], lo, hi)
    ensures Blank(text, i + lo, i + hi)
  {
    forall k | i + lo <= k < i + hi
      ensures IsSpace(text[k])
    {
      assert text[i..end][k - i] == text[k];
    }
  }

  lemma SliceOfSlice(text: string, i: nat, end: nat, a: nat, b: nat)
    requires i <= end <= |text| && a <= b <= end - i
    ensures text[i..end][a..b] == text[i + a..i + b]
  {
    var raw := text[i..end];
    var x, y := raw[a..b], text[i + a..i + b];
    assert |x| == |y|;
    forall k | 0 <= k < |x|
      ensures x[k] == y[k]
    {
      assert x[k] == raw[a + k] == text[i + a + k];
    }
  }

  lemma PieceBetween(text: string, i: nat, end: nat, start: nat, body: string)
    requires i <= start && start + |body| <= end <= |text|
    requires body == text[start..start + |body|] && Trimmed(body)
    requires Blank(text, i, start) && Blank(text, start + |body|, end)
    ensures PieceOk(text, i, end, if body == [] then [] else [Chunk(body, start, start + |body|)])
  {
    hide Blank, Trimmed;
    if body == [] {
      BlankJoin(text, i, start, end);
    }
  }

  lemma PieceExact(text: string, i: nat, end: nat)
    requires i <= end <= |text|
    ensures PieceOk(text, i, end, Piece(text, i, end))
  {
    hide Strip, LeadingSpace, Blank, Trimmed, PieceOk;
    var raw := text[i..end];
    StripIsSlice(raw);
    var left, body := LeadingSpace(raw), Strip(raw);
    BlankWindow(text, i, end, 0, left);
    BlankWindow(text, i, end, left + |body|, |raw|);
    SliceOfSlice(text, i, end, left, left + |body|);
    PieceBetween(text, i, end, i + left, body);
  }

  lemma BlankJoin(text: string, lo: nat, mid: nat, hi: nat)
    requires lo <= mid <= hi <= |text| && Blank(text, lo, mid) && Blank(text, mid, hi)
    ensures Blank(text, lo, hi)
  {
  }

  /** Ordered and disjoint, exact, within the cap, and missing no character that is not whitespace. */
  ghost predicate GoodChunks(text: string, i: nat, m: nat, chunks: seq<Chunk>)
    requires i <= |text|
  {
    && (forall k | 0 <= k < |chunks| :: ExactChunk(text, m, chunks[k]) && i <= chunks[k].start)
    && (forall j, k | 0 <= j < k < |chunks| :: chunks[j].end <= chunks[k].start)
    && (forall p: nat | i <= p < |text| && !IsSpace(text[p]) :: Holder(chunks, p))
  }

  ghost predicate Holder(chunks: seq<Chunk>, p: nat) {
    exists k: nat :: k < |chunks| && chunks[k].start <= p < chunks[k].end
  }

  /** A good first window in front of good chunks. */
  lemma PrependGood(text: string, i: nat, end: nat, m: nat, piece: seq<Chunk>, rest: seq<Chunk>)
    requires i <= end <= |text| && end - i <= m
    requires PieceOk(text, i, end, piece) && GoodChunks(text, end, m, rest)
    ensures GoodChunks(text, i, m, piece + rest)
  {
    hide IsSpace;
    PrependOrdered(text, i, end, m, piece, rest);
    hide ExactChunk;
    forall p: nat | i <= p < |text| && !IsSpace(text[p])
      ensures Holder(piece + rest, p)
    {
      PrependHolds(text, i, end, m, piece, rest, p);
    }
  }

  lemma PrependOrdered(text: string, i: nat, end: nat, m: nat, piece: seq<Chunk>, rest: seq<Chunk>)
    requires i <= end <= |text| && end - i <= m
    requires PieceOk(text, i, end, piece) && GoodChunks(text, end, m, rest)
    ensures forall k | 0 <= k < |piece + rest| :: ExactChunk(text, m, (piece + rest)[k]) && i <= (piece + rest)[k].start
    ensures forall j, k | 0 <= j < k < |piece + rest| :: (piece + rest)[j].end <= (piece + rest)[k].start
  {
    hide IsSpace, Holder;
  }

  lemma PrependHolds(text: string, i: nat, end: nat, m: nat, piece: seq<Chunk>, rest: seq<Chunk>, p: nat)
    requires i <= end <= |text| && PieceOk(text, i, end, piece) && GoodChunks(text, end, m, rest)
    requires i <= p < |text| && !IsSpace(text[p])
    ensures Holder(piece + rest, p)
  {
    hide IsSpace, ExactChunk;
    var all := piece + rest;
    if p >= end {
      assert Holder(rest, p);
      var k: nat :| k < |rest| && rest[k].start <= p < rest[k].end;
      assert all[|piece| + k] == rest[k];
    } else {
      assert piece != [] && all[0] == piece[0];
    }
  }

  lemma {:induction false} ChunksGood(text: string, i: nat, m: nat)
    requires i <= |text| && m >= 1
    ensures GoodChunks(text, i, m, Chunks(text, i, m))
    decreases |text| - i
  {
    hide Piece, GoodChunks, PieceOk, IsSpace;
    if i == |text| {
      EmptyGood(text, m);
    } else {
      var end := WindowEnd(text, i, m);
      PieceExact(text, i, end);
      ChunksGood(text, end, m);
      PrependGood(text, i, end, m, Piece(text, i, end), Chunks(text, end, m));
    }
  }

  lemma EmptyGood(text: string, m: nat)
    ensures GoodChunks(text, |text|, m, [])
  {
  }

  lemma ChunksWithinCap(text: string, maxChars: int)
    requires maxChars >= 1
    ensures forall c | c in Chunks(text, 0, Cap(maxChars)) :: |c.body| <= maxChars
  {
    hide Chunks;
    CapMeaning(maxChars);
    ChunksGood(text, 0, Cap(maxChars));
  }

  /** Exactly one chunk holds each character that is not whitespace. */
  lemma OneHolder(text: string, m: nat, p: nat, a: nat, b: nat)
    requires m >= 1 && p < |text| && !IsSpace(text[p])
    ensures Holder(Chunks(text, 0, m), p)
    ensures var chunks := Chunks(text, 0, m);
            (a < |chunks| && b < |chunks| && chunks[a].start <= p < chunks[a].end
             && chunks[b].start <= p < chunks[b].end) ==> a == b
  {
    ChunksGood(text, 0, m);
  }

  /** At most 2 * length / m + 1 chunks: every window but the last is longer than half the cap. */
  lemma {:induction false} ChunkCount(text: string, i: nat, m: nat)
    requires i <= |text| && m >= 1
    ensures |Chunks(text, i, m)| * m <= 2 * (|text| - i) + m
    ensures i == |text| ==> |Chunks(text, i, m)| == 0
    decreases |text| - i
  {
    hide Piece, WindowEnd;
    if i < |text| {
      var end := WindowEnd(text, i, m);
      PieceExact(text, i, end);
      ChunkCount(text, end, m);
      CountStep(|Chunks(text, i, m)|, |Chunks(text, end, m)|, m, end - i, |text| - end);
    }
  }

  lemma CountStep(n: nat, rest: nat, m: nat, window: nat, left: nat)
    requires n <= rest + 1 && rest * m <= 2 * left + m && window >= 1
    requires left > 0 ==> 2 * window > m
    requires left == 0 ==> rest == 0
    ensures n * m <= 2 * (window + left) + m
  {
    if left > 0 {
      TimesMonotone(n, rest + 1, m);
      assert (rest + 1) * m == rest * m + m;
    } else {
      TimesMonotone(n, 1, m);
    }
  }

  lemma TimesMonotone(a: nat, b: nat, m: nat)
    requires a <= b
    ensures a * m <= b * m
  {
    assert b * m == a * m + (b - a) * m;
  }

  // ---- the cap keeps every chunk under the word limit ------------------------------------------------

  lemma {:induction false} WordCount(s: string)
    ensures 2 * |Words(s)| <= |s| + 1
    decreases |s|
  {
    if s != [] {
      if IsSpace(s[0]) {
        WordCount(s[1..]);
      } else {
        var w := FirstWord(s);
        assert w != [];
        var rest := s[|w|..];
        if rest != [] {
          assert IsSpace(rest[0]);
          WordCount(rest[1..]);
          assert Words(rest) == Words(rest[1..]);
        }
      }
    }
  }

  lemma ChunksWithinWordLimit(text: string, maxChars: int, c: Chunk)
    requires maxChars >= 1 && c in Chunks(text, 0, Cap(maxChars))
    ensures |Words(c.body)| <= WORD_LIMIT
  {
    ChunksGood(text, 0, Cap(maxChars));
    WordCount(c.body);
  }

  // ---- the semantic chunker ----------------------------------------------------------------------------

  datatype Segment = Segment(text: string, start: nat)

  /** Consecutive segments with a blank line between. */
  function Merged(segments: seq<Segment>): string {
    if segments == [] then []
    else if |segments| == 1 then segments[0].text
    else Merged(segments[..|segments| - 1]) + "\n\n" + segments[|segments| - 1].text
  }

  /** Groups join with one blank line between them. */
  lemma {:induction false} MergedJoins(a: seq<Segment>, b: seq<Segment>)
    requires a != [] && b != []
    ensures Merged(a + b) == Merged(a) + ("\n\n" + Merged(b))
    decreases |b|
  {
    var last := b[|b| - 1].text;
    assert (a + b)[..|a + b| - 1] == a + b[..|b| - 1];
    if |b| == 1 {
      assert a + b[..0] == a;
      Regroup(Merged(a), "\n\n", last);
    } else {
      MergedJoins(a, b[..|b| - 1]);
      var front := Merged(b[..|b| - 1]);
      assert Merged(a) + ("\n\n" + front) + "\n\n" + last == Merged(a) + ("\n\n" + (front + "\n\n" + last));
    }
  }

  /** A group starts where its first segment does and ends where its last one does. */
  lemma GroupSpan(group: seq<Segment>)
    requires group != []
    ensures |group| == 1 ==> GroupChunk(group).body == group[0].text
    ensures GroupChunk(group).body == Merged(group) && GroupChunk(group).start == group[0].start
    ensures var last := group[|group| - 1]; last.text != [] ==> GroupChunk(group).end == last.start + |last.text|
  {
    hide Merged;
    if |group| == 1 {
      MergedOne(group);
    }
  }

  lemma MergedOne(group: seq<Segment>)
    requires |group| == 1
    ensures Merged(group) == group[0].text
  {
  }

  function SegmentEnd(s: Segment): nat {
    s.start + |s.text|
  }

  /** The chunk of one group. An end of zero reads as absent in the source. */
  function GroupChunk(group: seq<Segment>): Chunk
    requires group != []
  {
    var last := SegmentEnd(group[|group| - 1]);
    Chunk(Merged(group), group[0].start, if last != 0 then last else group[0].start + |Merged(group)|)
  }

  /** Segment `at` may not join the group that starts at `from`: it is too far from its predecessor,
      or the merged text would exceed the cap. */
  predicate MustBreak(segments: seq<Segment>, distance: nat -> real, threshold: real, m: int, from: nat, at: nat)
    requires from < at < |segments|
  {
    distance(at) > threshold || |Merged(segments[from..at])| + |segments[at].text| + 2 > m
  }

  /** `bounds` cuts the segments into groups: a new one starts exactly where the current group must
      break. */
  ghost predicate Greedy(segments: seq<Segment>, distance: nat -> real, threshold: real, m: int,
                         bounds: seq<nat>, upTo: nat)
    requires upTo <= |segments|
  {
    && OrderedBounds(bounds, upTo) && bounds[0] == 0
    && (forall k | 0 <= k < |bounds| - 1 ::
          MustBreak(segments, distance, threshold, m, bounds[k], GroupEnd(bounds, k, upTo)))
    && (forall k, at | 0 <= k < |bounds| && bounds[k] < at < GroupEnd(bounds, k, upTo) ::
          !MustBreak(segments, distance, threshold, m, bounds[k], at))
  }

  ghost function GroupEnd(bounds: seq<nat>, k: nat, upTo: nat): nat
    requires k < |bounds|
  {
    if k + 1 < |bounds| then bounds[k + 1] else upTo
  }

  /** The chunks of the groups that `bounds` cuts, the last group ending at `upTo`. */
  ghost function GroupChunks(segments: seq<Segment>, bounds: seq<nat>, upTo: nat): (r: seq<Chunk>)
    requires upTo <= |segments|
    requires OrderedBounds(bounds, upTo)
    ensures |r| == |bounds|
  {
    seq(|bounds|, k requires 0 <= k < |bounds| => GroupChunk(segments[bounds[k]..GroupEnd(bounds, k, upTo)]))
  }

  ghost predicate OrderedBounds(bounds: seq<nat>, upTo: nat) {
    && bounds != []
    && forall k | 0 <= k < |bounds| :: bounds[k] < GroupEnd(bounds, k, upTo) <= upTo
  }

  lemma OpenGroup(segments: seq<Segment>, bounds: seq<nat>, i: nat)
    requires i < |segments| && OrderedBounds(bounds, i)
    ensures OrderedBounds(bounds + [i], i + 1)
    ensures GroupChunks(segments, bounds + [i], i + 1) ==
            GroupChunks(segments, bounds, i) + [GroupChunk(segments[i..i + 1])]
  {
    hide GroupChunk;
    var more := bounds + [i];
    forall k | 0 <= k < |more|
      ensures more[k] < GroupEnd(more, k, i + 1) <= i + 1
      ensures k < |bounds| ==> GroupEnd(more, k, i + 1) == GroupEnd(bounds, k, i)
    {
      if k < |bounds| {
        assert more[k] == bounds[k] < GroupEnd(bounds, k, i);
      }
    }
  }

  lemma JoinGroup(segments: seq<Segment>, bounds: seq<nat>, i: nat)
    requires i < |segments| && OrderedBounds(bounds, i)
    ensures OrderedBounds(bounds, i + 1)
    ensures var last := |bounds| - 1;
            GroupChunks(segments, bounds, i + 1) ==
            GroupChunks(segments, bounds, i)[..last] + [GroupChunk(segments[bounds[last]..i + 1])]
  {
    hide GroupChunk;
    forall k | 0 <= k < |bounds|
      ensures bounds[k] < GroupEnd(bounds, k, i + 1) <= i + 1
      ensures k < |bounds| - 1 ==> GroupEnd(bounds, k, i + 1) == GroupEnd(bounds, k, i)
    {
      assert bounds[k] < GroupEnd(bounds, k, i);
    }
  }

  /** One more segment: it either opens a group or joins the last one. */
  lemma GreedyStep(segments: seq<Segment>, distance: nat -> real, threshold: real, m: int, bounds: seq<nat>, i: nat)
    requires i < |segments| && Greedy(segments, distance, threshold, m, bounds, i)
    ensures var from := bounds[|bounds| - 1];
            from < i && Greedy(segments, distance, threshold, m,
                   if MustBreak(segments, distance, threshold, m, from, i) then bounds + [i] else bounds, i + 1)
  {
    hide MustBreak;
    var from := bounds[|bounds| - 1];
    assert from < GroupEnd(bounds, |bounds| - 1, i) == i;
    if MustBreak(segments, distance, threshold, m, from, i) {
      GreedyOpens(segments, distance, threshold, m, bounds, i);
    } else {
      GreedyJoins(segments, distance, threshold, m, bounds, i);
    }
  }

  lemma GreedyOpens(segments: seq<Segment>, distance: nat -> real, threshold: real, m: int, bounds: seq<nat>, i: nat)
    requires i < |segments| && Greedy(segments, distance, threshold, m, bounds, i)
    requires MustBreak(segments, distance, threshold, m, bounds[|bounds| - 1], i)
    ensures Greedy(segments, distance, threshold, m, bounds + [i], i + 1)
  {
    hide MustBreak;
    OpenGroup(segments, bounds, i);
    hide OrderedBounds;
    var more := bounds + [i];
    forall k | 0 <= k < |bounds|
      ensures more[k] == bounds[k] && GroupEnd(more, k, i + 1) == GroupEnd(bounds, k, i)
    {
    }
    assert more[|bounds|] == i && GroupEnd(more, |bounds|, i + 1) == i + 1;
    hide GroupEnd;
  }

  lemma GreedyJoins(segments: seq<Segment>, distance: nat -> real, threshold: real, m: int, bounds: seq<nat>, i: nat)
    requires i < |segments| && Greedy(segments, distance, threshold, m, bounds, i)
    requires !MustBreak(segments, distance, threshold, m, bounds[|bounds| - 1], i)
    ensures Greedy(segments, distance, threshold, m, bounds, i + 1)
  {
    hide MustBreak;
    JoinGroup(segments, bounds, i);
    hide OrderedBounds;
    forall k, at | 0 <= k < |bounds| && bounds[k] < at < GroupEnd(bounds, k, i + 1)
      ensures !MustBreak(segments, distance, threshold, m, bounds[k], at)
    {
      assert at < GroupEnd(bounds, k, i) || (k == |bounds| - 1 && at == i);
    }
  }

  lemma MergedStep(segments: seq<Segment>, from: nat, i: nat)
    requires from < i < |segments|
    ensures Merged(segments[from..i + 1]) == Merged(segments[from..i]) + "\n\n" + segments[i].text
  {
    assert segments[from..i + 1][..i - from] == segments[from..i];
  }

  /** `_semantic_chunk`, with the adjacent-segment distance as a function of the later index. */
  method SemanticChunk(segments: seq<Segment>, distance: nat -> real, maxChars: int, threshold: real)
    returns (chunks: seq<Chunk>, ghost bounds: seq<nat>)
    ensures segments == [] ==> chunks == []
    ensures segments != [] ==> Greedy(segments, distance, threshold, Cap(maxChars), bounds, |segments|)
                               && chunks == GroupChunks(segments, bounds, |segments|)
  {
    hide Greedy, GroupChunks, Merged, Current, OrderedBounds, MustBreak;
    var m := Cap(maxChars);
    chunks, bounds := [], [];
    if segments == [] {
      return;
    }
    var text: string, start: nat, end: nat := segments[0].text, segments[0].start, SegmentEnd(segments[0]);
    bounds := [0];
    FirstGroup(segments, distance, threshold, m);
    for i := 1 to |segments|
      invariant |bounds| > 0 && OrderedBounds(bounds, i) && Greedy(segments, distance, threshold, m, bounds, i)
      invariant chunks == GroupChunks(segments, bounds, i)[..|bounds| - 1]
      invariant Current(segments, bounds[|bounds| - 1], i, text, start, end)
    {
      ghost var from := bounds[|bounds| - 1];
      GreedyStep(segments, distance, threshold, m, bounds, i);
      BreakTest(segments, distance, threshold, m, from, i, text, start, end);
      var s := segments[i];
      if distance(i) > threshold || |text| + |s.text| + 2 > m {
        CloseGroup(segments, bounds, i, text, start, end);
        OpenGroup(segments, bounds, i);
        chunks := chunks + [Chunk(text, start, if end != 0 then end else start + |text|)];
        bounds := bounds + [i];
        text, start, end := s.text, s.start, SegmentEnd(s);
        SingleGroup(segments, i);
      } else {
        JoinGroup(segments, bounds, i);
        ContinueGroup(segments, from, i, text, start, end);
        text, end := text + "\n\n" + s.text, SegmentEnd(s);
      }
    }
    CloseGroup(segments, bounds, |segments|, text, start, end);
    chunks := chunks + [Chunk(text, start, if end != 0 then end else start + |text|)];
  }

  /** The running chunk: the text and offsets of the segments from `from` up to `i`. */
  ghost predicate Current(segments: seq<Segment>, from: nat, i: nat, text: string, start: nat, end: nat) {
    && from < i <= |segments|
    && text == Merged(segments[from..i]) && start == segments[from].start && end == SegmentEnd(segments[i - 1])
  }

  lemma BreakTest(segments: seq<Segment>, distance: nat -> real, threshold: real, m: int, from: nat, i: nat,
                  text: string, start: nat, end: nat)
    requires i < |segments| && Current(segments, from, i, text, start, end)
    ensures MustBreak(segments, distance, threshold, m, from, i) <==>
            distance(i) > threshold || |text| + |segments[i].text| + 2 > m
  {
  }

  lemma ContinueGroup(segments: seq<Segment>, from: nat, i: nat, text: string, start: nat, end: nat)
    requires i < |segments| && Current(segments, from, i, text, start, end)
    ensures Current(segments, from, i + 1, text + "\n\n" + segments[i].text, start, SegmentEnd(segments[i]))
  {
    MergedStep(segments, from, i);
    hide Merged;
  }

  lemma SingleGroup(segments: seq<Segment>, i: nat)
    requires i < |segments|
    ensures Current(segments, i, i + 1, segments[i].text, segments[i].start, SegmentEnd(segments[i]))
  {
    assert segments[i..i + 1] == [segments[i]];
  }

  lemma FirstGroup(segments: seq<Segment>, distance: nat -> real, threshold: real, m: int)
    requires segments != []
    ensures OrderedBounds([0], 1) && Greedy(segments, distance, threshold, m, [0], 1)
    ensures GroupChunks(segments, [0], 1)[..0] == []
    ensures Current(segments, 0, 1, segments[0].text, segments[0].start, SegmentEnd(segments[0]))
  {
    SingleGroup(segments, 0);
  }

  lemma CloseGroup(segments: seq<Segment>, bounds: seq<nat>, i: nat, text: string, start: nat, end: nat)
    requires OrderedBounds(bounds, i) && i <= |segments|
    requires Current(segments, bounds[|bounds| - 1], i, text, start, end)
    ensures GroupChunks(segments, bounds, i) ==
            GroupChunks(segments, bounds, i)[..|bounds| - 1]
              + [Chunk(text, start, if end != 0 then end else start + |text|)]
  {
  }

  // ---- what greedy grouping means ------------------------------------------------------------------

  lemma {:induction false} BoundsAgree(segments: seq<Segment>, distance: nat -> real, threshold: real, m: int,
                                       a: seq<nat>, b: seq<nat>, upTo: nat, k: nat)
    requires upTo <= |segments| && k < |a| && k < |b|
    requires Greedy(segments, distance, threshold, m, a, upTo) && Greedy(segments, distance, threshold, m, b, upTo)
    ensures a[k] == b[k]
  {
    hide MustBreak, OrderedBounds;
    if k > 0 {
      BoundsAgree(segments, distance, threshold, m, a, b, upTo, k - 1);
      NextBound(segments, distance, threshold, m, a, upTo, k);
      NextBound(segments, distance, threshold, m, b, upTo, k);
      hide Greedy;
    }
  }

  ghost predicate NoBreakBetween(segments: seq<Segment>, distance: nat -> real, threshold: real, m: int, from: nat,
                                 end: nat)
  {
    end <= |segments| && forall at: nat | from < at && at < end :: !MustBreak(segments, distance, threshold, m, from, at)
  }

  /** The k-th bound is the first break behind the bound before it. */
  lemma NextBound(segments: seq<Segment>, distance: nat -> real, threshold: real, m: int, a: seq<nat>, upTo: nat,
                  k: nat)
    requires upTo <= |segments| && 0 < k < |a| && Greedy(segments, distance, threshold, m, a, upTo)
    ensures a[k - 1] < a[k] < |segments| && MustBreak(segments, distance, threshold, m, a[k - 1], a[k])
    ensures NoBreakBetween(segments, distance, threshold, m, a[k - 1], a[k])
  {
    hide MustBreak;
    assert GroupEnd(a, k - 1, upTo) == a[k];
    assert a[k] < GroupEnd(a, k, upTo);
  }

  lemma NoLonger(segments: seq<Segment>, distance: nat -> real, threshold: real, m: int,
                 a: seq<nat>, b: seq<nat>, upTo: nat)
    requires upTo <= |segments|
    requires Greedy(segments, distance, threshold, m, a, upTo) && Greedy(segments, distance, threshold, m, b, upTo)
    ensures |a| <= |b|
  {
    hide MustBreak;
    var k := |b| - 1;
    if k < |a| {
      BoundsAgree(segments, distance, threshold, m, a, b, upTo, k);
      assert GroupEnd(b, k, upTo) == upTo;
    }
  }

  /** The grouping is forced: the break rule leaves one way to cut the segments. */
  lemma GreedyUnique(segments: seq<Segment>, distance: nat -> real, threshold: real, m: int,
                     a: seq<nat>, b: seq<nat>, upTo: nat)
    requires upTo <= |segments|
    requires Greedy(segments, distance, threshold, m, a, upTo) && Greedy(segments, distance, threshold, m, b, upTo)
    ensures a == b
  {
    NoLonger(segments, distance, threshold, m, a, b, upTo);
    NoLonger(segments, distance, threshold, m, b, a, upTo);
    forall k | 0 <= k < |a|
      ensures a[k] == b[k]
    {
      BoundsAgree(segments, distance, threshold, m, a, b, upTo, k);
    }
  }

  /** A chunk exceeds the cap only when it is a single segment that does. */
  lemma {:induction false} GroupWithinCap(segments: seq<Segment>, distance: nat -> real, threshold: real, m: int,
                                          from: nat, end: nat)
    requires from < end <= |segments|
    requires forall at | from < at < end :: !MustBreak(segments, distance, threshold, m, from, at)
    ensures |Merged(segments[from..end])| <= m || end == from + 1
  {
    if end > from + 1 {
      MergedStep(segments, from, end - 1);
      assert !MustBreak(segments, distance, threshold, m, from, end - 1);
    }
  }
}
