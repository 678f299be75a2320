/**
 * The token census of a file read in chunks: a count of matches carried across chunk edges, the first
 * and the last 64 code units. Counts depend on how the file is split exactly for tokens that can
 * overlap themselves.
 */
module Census {
  import opened Basics
  import opened Utf16

  predicate At(t: Text, w: Text, p: nat) {
    p + |w| <= |t| && t[p..p + |w|] == w
  }

  /** All matches that start in [p, end). */
  function Starts(t: Text, w: Text, p: nat, end: nat): nat
    decreases end - p
  {
    if p >= end then 0 else (if At(t, w, p) then 1 else 0) + Starts(t, w, p + 1, end)
  }

  /** The matches a left-to-right scan without overlaps finds in [p, end). */
  function Scan(t: Text, w: Text, p: nat, end: nat): nat
    requires w != []
    decreases end - p
  {
    if p >= end then 0
    else if At(t, w, p) then 1 + Scan(t, w, p + |w|, end)
    else Scan(t, w, p + 1, end)
  }

  /** Every match in the text, overlapping or not. */
  function Matches(t: Text, w: Text): nat {
    Starts(t, w, 0, |t|)
  }

  function Concat(chunks: seq<Text>): Text {
    if chunks == [] then [] else Concat(chunks[..|chunks| - 1]) + chunks[|chunks| - 1]
  }

  /** How far a stream of n units is counted before its end is known. */
  function Edge(n: nat, overlap: nat): nat {
    if n > overlap then n - overlap else 0
  }

  /** What the chunks alone have counted. */
  function Counted(chunks: seq<Text>, w: Text, overlap: nat): nat
    requires w != []
  {
    if chunks == [] then 0
    else
      var before := chunks[..|chunks| - 1];
      Counted(before, w, overlap)
      + Scan(Concat(chunks), w, Edge(|Concat(before)|, overlap), Edge(|Concat(chunks)|, overlap))
  }

  /** The count of the whole stream, with the text its decoder ends with. */
  function Total(chunks: seq<Text>, final: Text, w: Text, overlap: nat): nat
    requires w != []
  {
    var body := Concat(chunks);
    Counted(chunks, w, overlap) + Scan(body + final, w, Edge(|body|, overlap), |body + final|)
  }

  // ---------------------------------------------------------------------------------------------
  // Scanning a window

  /** No two matches that start in [lo, hi) overlap. */
  ghost predicate Apart(t: Text, w: Text, lo: nat, hi: nat) {
    forall p, q | lo <= p < q < hi && At(t, w, p) && At(t, w, q) :: p + |w| <= q
  }

  lemma {:induction false} StartsSplit(t: Text, w: Text, p: nat, mid: nat, end: nat)
    requires p <= mid <= end
    ensures Starts(t, w, p, end) == Starts(t, w, p, mid) + Starts(t, w, mid, end)
    decreases end - p
  {
    if p < mid {
      StartsSplit(t, w, p + 1, mid, end);
    }
  }

  /** A scan never counts too many, and it counts all exactly when none of the window's matches overlap. */
  lemma {:induction false} ScanExact(t: Text, w: Text, p: nat, end: nat)
    requires w != []
    ensures Scan(t, w, p, end) <= Starts(t, w, p, end)
    ensures Scan(t, w, p, end) == Starts(t, w, p, end) <==> Apart(t, w, p, end)
    decreases end - p
  {
    if p < end {
      if At(t, w, p) {
        ScanExact(t, w, p + |w|, end);
        ScanExactAt(t, w, p, end);
      } else {
        ScanExact(t, w, p + 1, end);
        ApartStep(t, w, p, end);
      }
    }
  }

  lemma ScanExactAt(t: Text, w: Text, p: nat, end: nat)
    requires w != [] && p < end && At(t, w, p)
    requires Scan(t, w, p + |w|, end) <= Starts(t, w, p + |w|, end)
    requires Scan(t, w, p + |w|, end) == Starts(t, w, p + |w|, end) <==> Apart(t, w, p + |w|, end)
    ensures Scan(t, w, p, end) <= Starts(t, w, p, end)
    ensures Scan(t, w, p, end) == Starts(t, w, p, end) <==> Apart(t, w, p, end)
  {
    var mid := if p + |w| < end then p + |w| else end;
    StartsJump(t, w, p, end);
    StartsPositive(t, w, p + 1, mid);
    ApartSplit(t, w, p, mid, end);
  }

  lemma StartsJump(t: Text, w: Text, p: nat, end: nat)
    requires w != [] && p < end && At(t, w, p)
    ensures Starts(t, w, p, end) ==
      1 + Starts(t, w, p + 1, if p + |w| < end then p + |w| else end) + Starts(t, w, p + |w|, end)
  {
    if p + |w| < end {
      StartsSplit(t, w, p + 1, p + |w|, end);
    }
  }

  lemma {:induction false} StartsPositive(t: Text, w: Text, p: nat, end: nat)
    ensures Starts(t, w, p, end) == 0 <==> forall q | p <= q < end :: !At(t, w, q)
    decreases end - p
  {
    if p < end {
      StartsPositive(t, w, p + 1, end);
    }
  }

  lemma ApartStep(t: Text, w: Text, p: nat, end: nat)
    requires !At(t, w, p)
    ensures Apart(t, w, p, end) <==> Apart(t, w, p + 1, end)
  {
  }

  lemma ApartSplit(t: Text, w: Text, p: nat, mid: nat, end: nat)
    requires w != [] && At(t, w, p) && p < end && mid == (if p + |w| < end then p + |w| else end)
    ensures Apart(t, w, p, end) <==>
      Apart(t, w, p + |w|, end) && forall q | p + 1 <= q < mid :: !At(t, w, q)
  {
  }

  /** A match is seen in a part of the text exactly when it lies in that part. */
  lemma AtShift(t: Text, a: nat, b: nat, w: Text, p: nat)
    requires a <= b <= |t| && a + p + |w| <= b
    ensures At(t[a..b], w, p) <==> At(t, w, a + p)
  {
    var x, y := t[a..b][p..p + |w|], t[a + p..a + p + |w|];
    assert |x| == |y| && forall i | 0 <= i < |x| :: x[i] == y[i];
    assert x == y;
  }

  /** The scan of a window sees only the window and one token less one unit behind it. */
  lemma {:induction false} ScanShift(t: Text, a: nat, b: nat, w: Text, p: nat, end: nat)
    requires w != [] && a <= b <= |t| && (end == 0 || a + end + |w| <= b + 1 || b == |t|)
    ensures Scan(t[a..b], w, p, end) == Scan(t, w, a + p, a + end)
    decreases end - p
  {
    if p < end {
      if a + p + |w| <= b {
        AtShift(t, a, b, w, p);
      }
      if At(t[a..b], w, p) {
        ScanShift(t, a, b, w, p + |w|, end);
      } else {
        ScanShift(t, a, b, w, p + 1, end);
      }
    }
  }

  // ---------------------------------------------------------------------------------------------
  // Any split

  lemma ConcatSnoc(chunks: seq<Text>, last: Text)
    ensures Concat(chunks + [last]) == Concat(chunks) + last
  {
    assert (chunks + [last])[..|chunks|] == chunks;
  }

  lemma CountedSnoc(chunks: seq<Text>, last: Text, w: Text, overlap: nat)
    requires w != []
    ensures var body := Concat(chunks) + last;
      Counted(chunks + [last], w, overlap) ==
      Counted(chunks, w, overlap) + Scan(body, w, Edge(|Concat(chunks)|, overlap), Edge(|body|, overlap))
  {
    ConcatSnoc(chunks, last);
    assert (chunks + [last])[..|chunks|] == chunks;
  }

  lemma ScanTail(t: Text, w: Text, edge: nat, end: nat)
    requires w != [] && edge <= |t|
    ensures Scan(t[edge..], w, 0, end) == Scan(t, w, edge, edge + end)
  {
    assert t[edge..|t|] == t[edge..];
    ScanShift(t, edge, |t|, w, 0, end);
  }

  /** What comes after a body does not change the scan of the body up to its edge. */
  lemma ScanBody(body: Text, more: Text, w: Text, a: nat, overlap: nat)
    requires w != [] && |w| <= overlap + 1
    ensures Scan(body, w, a, Edge(|body|, overlap)) == Scan(body + more, w, a, Edge(|body|, overlap))
  {
    assert (body + more)[0..|body|] == body;
    ScanShift(body + more, 0, |body|, w, a, Edge(|body|, overlap));
  }

  /** The windows of the chunks lie end to end: each count is that of the whole text. */
  lemma {:induction false} CountedBounds(chunks: seq<Text>, more: Text, w: Text, overlap: nat)
    requires w != [] && |w| <= overlap + 1
    ensures var t := Concat(chunks) + more;
      var edge := Edge(|Concat(chunks)|, overlap);
      && Counted(chunks, w, overlap) <= Starts(t, w, 0, edge)
      && (Apart(t, w, 0, edge) ==> Counted(chunks, w, overlap) == Starts(t, w, 0, edge))
    decreases |chunks|
  {
    if chunks != [] {
      var before, last := chunks[..|chunks| - 1], chunks[|chunks| - 1];
      assert chunks == before + [last];
      ConcatSnoc(before, last);
      CountedSnoc(before, last, w, overlap);
      var body := Concat(before) + last;
      Assoc(Concat(before), last, more);
      CountedBounds(before, last + more, w, overlap);
      var a := Edge(|Concat(before)|, overlap);
      ScanBody(body, more, w, a, overlap);
      OneMoreWindow(body + more, w, a, Edge(|body|, overlap), Counted(before, w, overlap));
    }
  }

  lemma OneMoreWindow(t: Text, w: Text, a: nat, b: nat, count: nat)
    requires w != [] && a <= b && count <= Starts(t, w, 0, a)
    requires Apart(t, w, 0, a) ==> count == Starts(t, w, 0, a)
    ensures count + Scan(t, w, a, b) <= Starts(t, w, 0, b)
    ensures Apart(t, w, 0, b) ==> count + Scan(t, w, a, b) == Starts(t, w, 0, b)
  {
    ScanExact(t, w, a, b);
    StartsSplit(t, w, 0, a, b);
  }

  /** Where the last window of a body starts, and what no split may hide. */
  ghost predicate Countable(body: Text, final: Text, w: Text, overlap: nat) {
    var edge := Edge(|body|, overlap);
    Apart(body + final, w, 0, edge) && Apart(body + final, w, edge, |body + final|)
  }

  /** For every split the census counts every match, if no two in one window can overlap. */
  lemma EverySplitCounts(chunks: seq<Text>, final: Text, w: Text, overlap: nat)
    requires w != [] && |w| <= overlap + 1
    ensures Total(chunks, final, w, overlap) <= Matches(Concat(chunks) + final, w)
    ensures Countable(Concat(chunks), final, w, overlap) ==>
      Total(chunks, final, w, overlap) == Matches(Concat(chunks) + final, w)
  {
    var t := Concat(chunks) + final;
    var edge := Edge(|Concat(chunks)|, overlap);
    CountedBounds(chunks, final, w, overlap);
    ScanExact(t, w, edge, |t|);
    StartsSplit(t, w, 0, edge, |t|);
  }

  lemma OneChunk(body: Text, final: Text, w: Text, overlap: nat)
    requires w != [] && |w| <= overlap + 1
    ensures Concat([body]) == body
    ensures var edge := Edge(|body|, overlap);
      Total([body], final, w, overlap) ==
      Scan(body + final, w, 0, edge) + Scan(body + final, w, edge, |body + final|)
  {
    var none: seq<Text> := [];
    OnlyChunk(none, body, w, overlap);
    ScanBody(body, final, w, 0, overlap);
  }

  lemma OnlyChunk(none: seq<Text>, body: Text, w: Text, overlap: nat)
    requires none == [] && w != []
    ensures Concat([body]) == body
    ensures Counted([body], w, overlap) == Scan(body, w, 0, Edge(|body|, overlap))
  {
    ConcatSnoc(none, body);
    CountedSnoc(none, body, w, overlap);
    assert none + [body] == [body];
    assert Concat(none) + body == body;
  }

  /**
   * Exactly when the count is right however the body is split: no two overlapping matches start on the
   * same side of the last window's start.
   */
  lemma EverySplitExactly(body: Text, final: Text, w: Text, overlap: nat)
    requires w != [] && |w| <= overlap + 1
    ensures Countable(body, final, w, overlap) <==>
      forall chunks | Concat(chunks) == body ::
        Total(chunks, final, w, overlap) == Matches(body + final, w)
  {
    var t := body + final;
    var edge := Edge(|body|, overlap);
    if Countable(body, final, w, overlap) {
      forall chunks | Concat(chunks) == body
        ensures Total(chunks, final, w, overlap) == Matches(t, w)
      {
        EverySplitCounts(chunks, final, w, overlap);
      }
    } else {
      OneChunk(body, final, w, overlap);
      ScanExact(t, w, 0, edge);
      ScanExact(t, w, edge, |t|);
      StartsSplit(t, w, 0, edge, |t|);
      assert Total([body], final, w, overlap) != Matches(t, w);
    }
  }

  // ---------------------------------------------------------------------------------------------
  // Which tokens are safe

  /** Some proper beginning of the token is also its ending. */
  ghost predicate Bordered(w: Text) {
    exists b :: 0 < b < |w| && w[..b] == w[|w| - b..]
  }

  lemma OverlapIsBorder(t: Text, w: Text, p: nat, q: nat)
    requires At(t, w, p) && At(t, w, q) && p < q < p + |w|
    ensures Bordered(w)
  {
    var b := p + |w| - q;
    assert w[..b] == t[q..q + |w|][..b] == t[q..q + b];
    assert w[|w| - b..] == t[p..p + |w|][q - p..] == t[q..q + b];
  }

  /** A bordered token beside itself, with room behind it. */
  function Doubled(w: Text, b: nat, overlap: nat): Text
    requires 0 < b < |w|
  {
    w + w[b..] + seq(overlap, i => w[0])
  }

  lemma DoubledOverlaps(w: Text, b: nat, overlap: nat)
    requires 0 < b < |w| && w[..b] == w[|w| - b..] && |w| <= overlap + 1
    ensures !Countable(Doubled(w, b, overlap), [], w, overlap)
  {
    var t := Doubled(w, b, overlap);
    var q := |w| - b;
    assert t[0..|w|] == w;
    assert t[q..|w|] == w[q..] == w[..b];
    assert t[|w|..q + |w|] == w[b..];
    assert t[q..q + |w|] == t[q..|w|] + t[|w|..q + |w|];
    assert w[..b] + w[b..] == w;
    assert At(t, w, 0) && At(t, w, q);
    assert t + [] == t;
    assert q < Edge(|t|, overlap);
  }

  /** A token is counted exactly in every split of every text if and only if it has no border. */
  lemma SafeTokens(w: Text, overlap: nat)
    requires w != [] && |w| <= overlap + 1
    ensures !Bordered(w) <==> forall chunks: seq<Text>, final: Text ::
      Total(chunks, final, w, overlap) == Matches(Concat(chunks) + final, w)
  {
    if Bordered(w) {
      var b :| 0 < b < |w| && w[..b] == w[|w| - b..];
      var body := Doubled(w, b, overlap);
      DoubledOverlaps(w, b, overlap);
      EverySplitExactly(body, [], w, overlap);
      var chunks :| Concat(chunks) == body && Total(chunks, [], w, overlap) != Matches(body + [], w);
    } else {
      forall chunks: seq<Text>, final: Text
        ensures Total(chunks, final, w, overlap) == Matches(Concat(chunks) + final, w)
      {
        var t := Concat(chunks) + final;
        forall p, q | 0 <= p < q && At(t, w, p) && At(t, w, q)
          ensures p + |w| <= q
        {
          if q < p + |w| {
            OverlapIsBorder(t, w, p, q);
          }
        }
        EverySplitCounts(chunks, final, w, overlap);
      }
    }
  }

  const SOURCE: string := "\"Source\":{\"Text\":"
  const TRANSLATION: string := "\"Translation\":{\"Text\":"
  const KEY: string := "\"Key\":"
  const CONTEXT: string := "\r\nmsgctxt "
  const ID: string := "\r\nmsgid "
  const TRANSLATED: string := "\r\nmsgstr "
  const OCCURRENCE: string := "{\"event\":\"text_occurrence\""
  const GAP: string := "{\"event\":\"text_coverage_gap\""
  const PACKAGE: string := "{\"event\":\"text_package\""
  const SUMMARY: string := "{\"event\":\"text_summary\""
  const PARTIAL: string := "\"status\":\"partial\""
  const LINE_END: string := "\n"

  /** Every token the validation has counted. */
  const TOKENS: seq<string> := [
    SOURCE, TRANSLATION, KEY, CONTEXT, ID, TRANSLATED, OCCURRENCE, GAP, PACKAGE, SUMMARY, PARTIAL, LINE_END]

  /** A token whose first unit it holds nowhere else has no border. */
  lemma UniqueFirstUnit(w: Text)
    requires w != [] && forall i | 0 < i < |w| :: w[i] != w[0]
    ensures !Bordered(w)
  {
    forall b | 0 < b < |w|
      ensures w[..b] != w[|w| - b..]
    {
      assert w[|w| - b..][0] == w[|w| - b];
    }
  }

  /** Where a token goes on unlike its beginning: in the next unit, or the one after. */
  predicate GoesOnUnlike(w: Text, p: nat)
    requires |w| > 2
  {
    p + 1 < |w| && (w[p + 1] != w[1] || (p + 2 < |w| && w[p + 2] != w[2]))
  }

  /** A token that goes on unlike its beginning wherever it holds its first unit again has no border. */
  lemma UniqueStart(w: Text)
    requires |w| > 2 && forall p | 0 < p < |w| && w[p] == w[0] :: GoesOnUnlike(w, p)
    ensures !Bordered(w)
  {
    forall b | 0 < b < |w|
      ensures w[..b] != w[|w| - b..]
    {
      var p := |w| - b;
      if w[p] == w[0] {
        assert GoesOnUnlike(w, p);
        assert w[p..][1] == w[p + 1] && w[..b][1] == w[1];
        if w[p + 1] == w[1] {
          assert w[p..][2] == w[p + 2] && w[..b][2] == w[2];
        }
      } else {
        assert w[p..][0] == w[p] && w[..b][0] == w[0];
      }
    }
  }

  lemma QuotesOf(w: Text, quotes: set<nat>)
    requires |w| > 2 && w[0] == QUOTE && forall p | 0 <= p < |w| && w[p] == QUOTE :: p in quotes
    requires forall p | p in quotes && p > 0 :: GoesOnUnlike(w, p)
    ensures !Bordered(w)
  {
    UniqueStart(w);
  }

  lemma SourceToken()
    ensures !Bordered(Ascii(SOURCE))
  {
    QuotesOf(Ascii(SOURCE), {0, 7, 10, 15});
  }

  lemma TranslationToken()
    ensures !Bordered(Ascii(TRANSLATION))
  {
    QuotesOf(Ascii(TRANSLATION), {0, 12, 15, 20});
  }

  lemma KeyToken()
    ensures !Bordered(Ascii(KEY))
  {
    QuotesOf(Ascii(KEY), {0, 4});
  }

  /** The lemma above for a literal. */
  lemma UniqueFirstChar(t: string)
    requires t != "" && forall i | 0 <= i < |t| :: t[i] < 128 as char && (i > 0 ==> t[i] != t[0])
    ensures !Bordered(Ascii(t))
  {
    UniqueFirstUnit(Ascii(t));
  }

  lemma PlainTokens()
    ensures !Bordered(Ascii(CONTEXT)) && !Bordered(Ascii(ID)) && !Bordered(Ascii(TRANSLATED))
    ensures !Bordered(Ascii(LINE_END))
  {
    UniqueFirstChar(CONTEXT);
    UniqueFirstChar(ID);
    UniqueFirstChar(TRANSLATED);
    UniqueFirstChar(LINE_END);
  }

  lemma OccurrenceToken()
    ensures !Bordered(Ascii(OCCURRENCE))
  {
    UniqueFirstChar(OCCURRENCE);
  }

  lemma GapToken()
    ensures !Bordered(Ascii(GAP))
  {
    UniqueFirstChar(GAP);
  }

  lemma PackageToken()
    ensures !Bordered(Ascii(PACKAGE))
  {
    UniqueFirstChar(PACKAGE);
  }

  lemma SummaryToken()
    ensures !Bordered(Ascii(SUMMARY))
  {
    UniqueFirstChar(SUMMARY);
  }

  lemma PartialIsBordered()
    ensures Bordered(Ascii(PARTIAL))
  {
    var w := Ascii(PARTIAL);
    assert w[0] == QUOTE && w[|w| - 1] == QUOTE;
    assert w[..1] == w[|w| - 1..];
  }

  /** Of all tokens counted, exactly one can overlap itself: the one that starts and ends with a quote. */
  lemma OnlyPartialIsBordered(i: nat)
    requires i < |TOKENS|
    ensures Bordered(Ascii(TOKENS[i])) <==> TOKENS[i] == PARTIAL
  {
    SourceToken();
    TranslationToken();
    KeyToken();
    PlainTokens();
    OccurrenceToken();
    GapToken();
    PackageToken();
    SummaryToken();
    PartialIsBordered();
    if i < 6 {
      assert TOKENS[i] in [SOURCE, TRANSLATION, KEY, CONTEXT, ID, TRANSLATED];
    } else {
      assert TOKENS[i] in [OCCURRENCE, GAP, PACKAGE, SUMMARY, PARTIAL, LINE_END];
    }
    assert PARTIAL[1] == 's';
  }

  // ---------------------------------------------------------------------------------------------
  // The counter itself

  const FRAME: nat := 64

  function First(t: Text): Text {
    if |t| <= FRAME then t else t[..FRAME]
  }

  function Last(t: Text): Text {
    if |t| <= FRAME then t else t[|t| - FRAME..]
  }

  lemma FirstMore(t: Text, more: Text)
    ensures First(t + more) == if |First(t)| < FRAME then First(First(t) + more) else First(t)
  {
  }

  lemma LastMore(t: Text, more: Text)
    ensures Last(t + more) == Last(Last(t) + Last(more))
  {
    var n := |t + more|;
    var short := Last(t) + Last(more);
    if |more| >= FRAME {
      assert short[|short| - FRAME..] == more[|more| - FRAME..] == (t + more)[n - FRAME..];
    } else if n > FRAME {
      assert short[|short| - FRAME..] == (t + more)[n - FRAME..];
    }
  }

  function IndexOf(t: Text, w: Text, p: nat): (q: int)
    ensures q == -1 || (p <= q <= |t| && At(t, w, q))
    ensures forall k | p <= k && (q == -1 || k < q) :: !At(t, w, k)
    decreases |t| - p
  {
    if p > |t| then -1 else if At(t, w, p) then p else IndexOf(t, w, p + 1)
  }

  lemma {:induction false} ScanSkip(t: Text, w: Text, p: nat, q: nat, end: nat)
    requires w != [] && p <= q && forall k | p <= k < q :: !At(t, w, k)
    ensures Scan(t, w, p, end) == Scan(t, w, q, end)
    decreases q - p
  {
    if p < q {
      ScanSkip(t, w, p + 1, q, end);
    }
  }

  /** One token's loop over one window. */
  method CountIn(text: Text, token: Text, end: nat) returns (count: nat)
    requires token != []
    ensures count == Scan(text, token, 0, end)
  {
    count := 0;
    var position := IndexOf(text, token, 0);
    ScanSkip(text, token, 0, if position < 0 then |text| + end else position, end);
    while position >= 0 && position < end
      invariant position == -1 || (0 <= position <= |text| && At(text, token, position))
      invariant position == -1 ==> count == Scan(text, token, 0, end)
      invariant position >= 0 ==> count + Scan(text, token, position, end) == Scan(text, token, 0, end)
      decreases if position < 0 then 0 else |text| + 1 - position
    {
      count := count + 1;
      var from := position + |token|;
      position := IndexOf(text, token, from);
      ScanSkip(text, token, from, if position < 0 then |text| + from + end else position, end);
    }
  }

  /** What a window leaves for the next one, and what it counts, in terms of the whole stream. */
  lemma WindowCarries(read: seq<Text>, chunk: Text, overlap: nat)
    ensures var text := Concat(read)[Edge(|Concat(read)|, overlap)..] + chunk;
      var body := Concat(read + [chunk]);
      text[Edge(|text|, overlap)..] == body[Edge(|body|, overlap)..]
  {
    ConcatSnoc(read, chunk);
    var edge := Edge(|Concat(read)|, overlap);
    DropBoth(Concat(read), chunk, edge, Edge(|Concat(read)| - edge + |chunk|, overlap));
  }

  lemma DropBoth(a: Text, b: Text, m: nat, n: nat)
    requires m <= |a| && m + n <= |a + b|
    ensures (a[m..] + b)[n..] == (a + b)[m + n..]
  {
  }

  lemma WindowCounts(read: seq<Text>, chunk: Text, w: Text, overlap: nat)
    requires w != []
    ensures var text := Concat(read)[Edge(|Concat(read)|, overlap)..] + chunk;
      Counted(read + [chunk], w, overlap) ==
      Counted(read, w, overlap) + Scan(text, w, 0, Edge(|text|, overlap))
  {
    var edge := Edge(|Concat(read)|, overlap);
    var text := Concat(read)[edge..] + chunk;
    CountedSnoc(read, chunk, w, overlap);
    DropFront(Concat(read), chunk, edge);
    ScanTail(Concat(read) + chunk, w, edge, Edge(|text|, overlap));
  }

  lemma DropFront(a: Text, b: Text, m: nat)
    requires m <= |a|
    ensures a[m..] + b == (a + b)[m..]
  {
  }

  lemma EmptyDrop(t: Text)
    ensures t[0..] == t
  {
  }

  lemma LastWindowCounts(read: seq<Text>, final: Text, w: Text, overlap: nat)
    requires w != []
    ensures var text := Concat(read)[Edge(|Concat(read)|, overlap)..] + final;
      Total(read, final, w, overlap) == Counted(read, w, overlap) + Scan(text, w, 0, |text|)
  {
    var edge := Edge(|Concat(read)|, overlap);
    var text := Concat(read)[edge..] + final;
    DropBoth(Concat(read), final, edge, 0);
    ScanTail(Concat(read) + final, w, edge, |text|);
    EmptyDrop(text);
  }

  function Sum(sizes: seq<nat>): nat {
    if sizes == [] then 0 else Sum(sizes[..|sizes| - 1]) + sizes[|sizes| - 1]
  }

  lemma SumSnoc(sizes: seq<nat>, i: nat)
    requires i < |sizes|
    ensures Sum(sizes[..i + 1]) == Sum(sizes[..i]) + sizes[i]
  {
    assert sizes[..i + 1][..i] == sizes[..i];
  }

  ghost predicate Distinct(tokens: seq<Text>) {
    forall i, j | 0 <= i < j < |tokens| :: tokens[i] != tokens[j]
  }

  ghost predicate Fits(tokens: seq<Text>, overlap: nat) {
    forall w | w in tokens :: w != [] && |w| <= overlap + 1
  }

  /** One window's counts on top of those before. */
  ghost predicate Added(tokens: seq<Text>, before: map<Text, nat>, after: map<Text, nat>, text: Text, end: nat) {
    forall w | w in tokens && w != [] ::
      w in before && w in after && after[w] == before[w] + Scan(text, w, 0, end)
  }

  ghost predicate Tallied(tokens: seq<Text>, counts: map<Text, nat>, read: seq<Text>, overlap: nat) {
    forall w | w in tokens && w != [] :: w in counts && counts[w] == Counted(read, w, overlap)
  }

  ghost predicate Totalled(tokens: seq<Text>, counts: map<Text, nat>, read: seq<Text>, final: Text, overlap: nat) {
    forall w | w in tokens && w != [] :: w in counts && counts[w] == Total(read, final, w, overlap)
  }

  lemma TallyMore(tokens: seq<Text>, before: map<Text, nat>, after: map<Text, nat>, read: seq<Text>, chunk: Text,
                  overlap: nat)
    requires Fits(tokens, overlap) && Tallied(tokens, before, read, overlap)
    requires var text := Concat(read)[Edge(|Concat(read)|, overlap)..] + chunk;
      Added(tokens, before, after, text, Edge(|text|, overlap))
    ensures Tallied(tokens, after, read + [chunk], overlap)
  {
    forall w | w in tokens && w != []
      ensures w in after && after[w] == Counted(read + [chunk], w, overlap)
    {
      WindowCounts(read, chunk, w, overlap);
    }
  }

  lemma TallyLast(tokens: seq<Text>, before: map<Text, nat>, after: map<Text, nat>, read: seq<Text>, final: Text,
                  overlap: nat)
    requires Tallied(tokens, before, read, overlap)
    requires var text := Concat(read)[Edge(|Concat(read)|, overlap)..] + final;
      Added(tokens, before, after, text, |text|)
    ensures Totalled(tokens, after, read, final, overlap)
  {
    forall w | w in tokens && w != []
      ensures w in after && after[w] == Total(read, final, w, overlap)
    {
      LastWindowCounts(read, final, w, overlap);
    }
  }

  datatype Tally = Tally(bytes: nat, counts: map<Text, nat>, prefix: Text, suffix: Text)

  /** What a census says: size and edges of what was read, and a count for each token. */
  ghost predicate Describes(r: Tally, chunks: seq<Text>, sizes: seq<nat>, final: Text, tokens: seq<Text>,
                            overlap: nat) {
    && r.bytes == Sum(sizes) && r.prefix == First(Concat(chunks)) && r.suffix == Last(Concat(chunks))
    && Totalled(tokens, r.counts, chunks, final, overlap)
  }

  /** The census of one file: its fields are what the source's closure updates. */
  class Counter {
    const tokens: seq<Text>
    const overlap: nat
    var counts: map<Text, nat>
    var carry: Text
    var bytes: nat
    var prefix: Text
    var suffix: Text
    ghost var read: seq<Text>

    ghost predicate Valid()
      reads this
    {
      && Fits(tokens, overlap) && Distinct(tokens)
      && Tallied(tokens, counts, read, overlap)
      && carry == Concat(read)[Edge(|Concat(read)|, overlap)..]
      && prefix == First(Concat(read)) && suffix == Last(Concat(read))
    }

    constructor (tokens: seq<Text>, overlap: nat)
      requires Fits(tokens, overlap) && Distinct(tokens)
      ensures Valid() && this.tokens == tokens && this.overlap == overlap && read == [] && bytes == 0
    {
      this.tokens := tokens;
      this.overlap := overlap;
      counts := map w | w in tokens :: 0;
      carry, bytes, prefix, suffix, read := [], 0, [], [], [];
    }

    /** Counts one window and keeps what the next one needs. */
    method Consume(chunk: Text, final: bool)
      requires Fits(tokens, overlap) && Distinct(tokens) && forall w | w in tokens :: w in counts
      modifies `counts, `carry
      ensures var text := old(carry) + chunk;
        var end := if final then |text| else Edge(|text|, overlap);
        carry == text[end..] && Added(tokens, old(counts), counts, text, end)
    {
      var text := carry + chunk;
      var end := if final then |text| else Edge(|text|, overlap);
      ghost var before := counts;
      for i := 0 to |tokens|
        invariant carry == old(carry)
        invariant forall w | w in tokens :: w in counts
        invariant forall k | 0 <= k < i :: counts[tokens[k]] == before[tokens[k]] + Scan(text, tokens[k], 0, end)
        invariant forall k | i <= k < |tokens| :: counts[tokens[k]] == before[tokens[k]]
      {
        var found := CountIn(text, tokens[i], end);
        counts := counts[tokens[i] := counts[tokens[i]] + found];
      }
      carry := text[end..];
    }

    /** The first and the last units of what was read. */
    method Frame(decoded: Text)
      requires prefix == First(Concat(read)) && suffix == Last(Concat(read))
      modifies `prefix, `suffix
      ensures prefix == First(Concat(read + [decoded])) && suffix == Last(Concat(read + [decoded]))
    {
      FirstMore(Concat(read), decoded);
      LastMore(Concat(read), decoded);
      ConcatSnoc(read, decoded);
      if |prefix| < FRAME {
        prefix := First(prefix + decoded);
      }
      suffix := Last(suffix + Last(decoded));
    }

    /** One read of the file. */
    method Feed(size: nat, decoded: Text)
      requires Valid()
      modifies this
      ensures Valid() && read == old(read) + [decoded] && bytes == old(bytes) + size
    {
      bytes := bytes + size;
      Frame(decoded);
      ghost var before := counts;
      WindowCarries(read, decoded, overlap);
      Consume(decoded, false);
      TallyMore(tokens, before, counts, read, decoded, overlap);
      read := read + [decoded];
    }

    /** The reads in turn. */
    method FeedAll(chunks: seq<Text>, sizes: seq<nat>)
      requires Valid() && read == [] && bytes == 0 && |chunks| == |sizes|
      modifies this
      ensures Valid() && read == chunks && bytes == Sum(sizes)
    {
      for i := 0 to |chunks|
        invariant Valid() && read == chunks[..i] && bytes == Sum(sizes[..i])
      {
        TakeSnoc(chunks, i);
        SumSnoc(sizes, i);
        Feed(sizes[i], chunks[i]);
      }
      assert chunks[..|chunks|] == chunks && sizes[..|sizes|] == sizes;
    }

    /** The end of the file, with the text the decoder still held. */
    method Finish(final: Text)
      requires Valid()
      modifies `counts, `carry
      ensures Totalled(tokens, counts, read, final, overlap) && carry == []
    {
      ghost var before := counts;
      Consume(final, true);
      TallyLast(tokens, before, counts, read, final, overlap);
    }

    /** Reads as the stream delivers them, then what the decoder held back. */
    method Count(chunks: seq<Text>, sizes: seq<nat>, final: Text) returns (r: Tally)
      requires Valid() && read == [] && bytes == 0 && |chunks| == |sizes|
      modifies this
      ensures Describes(r, chunks, sizes, final, tokens, overlap)
    {
      FeedAll(chunks, sizes);
      Finish(final);
      r := Tally(bytes, counts, prefix, suffix);
    }
  }

  function Longest(tokens: seq<Text>): nat
    requires tokens != []
  {
    var n := |tokens| - 1;
    if n == 0 then |tokens[0]| else Max(Longest(tokens[..n]), |tokens[n]|)
  }

  /** How much is carried: one unit less than the longest token. */
  function Overlap(tokens: seq<Text>): nat
    requires tokens != []
  {
    if Longest(tokens) == 0 then 0 else Longest(tokens) - 1
  }

  lemma {:induction false} LongestFits(tokens: seq<Text>)
    requires tokens != [] && [] !in tokens
    ensures Longest(tokens) > 0 && Fits(tokens, Overlap(tokens))
  {
    var n := |tokens| - 1;
    assert tokens[n] != [];
    if n > 0 {
      LongestFits(tokens[..n]);
      forall w | w in tokens
        ensures w != [] && |w| <= Longest(tokens)
      {
        assert w == tokens[n] || w in tokens[..n];
      }
    }
  }

  /** Every token without a border is counted as often as it occurs in the text. */
  ghost predicate CountsMatches(tokens: seq<Text>, counts: map<Text, nat>, t: Text) {
    forall w | w in tokens && !Bordered(w) :: w in counts && counts[w] == Matches(t, w)
  }

  /** What a census says is true of the file however it was split. */
  lemma CensusIsTrue(r: Tally, chunks: seq<Text>, sizes: seq<nat>, final: Text, tokens: seq<Text>, overlap: nat)
    requires Fits(tokens, overlap) && Describes(r, chunks, sizes, final, tokens, overlap)
    ensures CountsMatches(tokens, r.counts, Concat(chunks) + final)
  {
    forall w | w in tokens && !Bordered(w)
      ensures w in r.counts && r.counts[w] == Matches(Concat(chunks) + final, w)
    {
      SafeTokens(w, overlap);
    }
  }

  /** The census of one file: reads as the stream delivers them, then what the decoder held back. */
  method CountFile(chunks: seq<Text>, sizes: seq<nat>, final: Text, tokens: seq<Text>) returns (r: Tally)
    requires |chunks| == |sizes| && tokens != [] && [] !in tokens && Distinct(tokens)
    ensures Describes(r, chunks, sizes, final, tokens, Overlap(tokens))
  {
    LongestFits(tokens);
    var counter := new Counter(tokens, Overlap(tokens));
    r := counter.Count(chunks, sizes, final);
  }
}
