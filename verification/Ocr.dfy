/** Finding a phrase among recognised words. */
module Ocr {
  import opened Decimal
  import opened Boxes
  import opened Text

  datatype Word = Word(text: string, bbox: BBox, confidence: int)

  datatype TextMatch = TextMatch(text: string, bbox: BBox, confidence: int)

  function Normalize(s: string, caseSensitive: bool): string {
    if caseSensitive then s else Lower(s)
  }

  function NormalizeAll(tokens: seq<string>, caseSensitive: bool): (r: seq<string>)
    ensures |r| == |tokens|
    ensures forall k | 0 <= k < |tokens| :: r[k] == Normalize(tokens[k], caseSensitive)
  {
    if tokens == [] then [] else [Normalize(tokens[0], caseSensitive)] + NormalizeAll(tokens[1..], caseSensitive)
  }

  /** The same letter up to ASCII case, or the same character. */
  predicate SameLetter(c: char, d: char) {
    c == d
    || ('a' <= c <= 'z' && d as int == c as int - 32)
    || ('A' <= c <= 'Z' && d as int == c as int + 32)
  }

  predicate ReadsAs(text: string, token: string, caseSensitive: bool) {
    if caseSensitive then text == token
    else |text| == |token| && forall k | 0 <= k < |text| :: SameLetter(text[k], token[k])
  }

  lemma NormalizedEqual(text: string, token: string, caseSensitive: bool)
    ensures Normalize(text, caseSensitive) == Normalize(token, caseSensitive) <==> ReadsAs(text, token, caseSensitive)
  {
    if !caseSensitive {
      forall k | 0 <= k < |text| && k < |token|
        ensures Lower(text)[k] == Lower(token)[k] <==> SameLetter(text[k], token[k])
      {
        LowerSame(text[k], token[k]);
      }
    }
  }

  lemma LowerSame(c: char, d: char)
    ensures LowerChar(c) == LowerChar(d) <==> SameLetter(c, d)
  {
  }

  /** Word `i + k` reads as token `k`, and stands on the row of the word before it in the run. */
  predicate TokenAt(words: seq<Word>, want: seq<string>, caseSensitive: bool, i: nat, k: nat)
    requires k < |want| && i + k < |words|
  {
    Normalize(words[i + k].text, caseSensitive) == want[k]
    && (k > 0 ==> SameRow(words[i + k - 1].bbox, words[i + k].bbox))
  }

  /** The words from `i` on read as the tokens, each on the row of the one before. */
  predicate RunAt(words: seq<Word>, want: seq<string>, caseSensitive: bool, i: nat) {
    i + |want| <= |words| && forall k | 0 <= k < |want| :: TokenAt(words, want, caseSensitive, i, k)
  }

  /** The boxes of the run, merged from left to right. */
  function UnionAll(run: seq<Word>): BBox
    requires run != []
  {
    var last := |run| - 1;
    if last == 0 then run[0].bbox else Union(UnionAll(run[..last]), run[last].bbox)
  }

  function MinConfidence(run: seq<Word>): int
    requires run != []
  {
    var last := |run| - 1;
    if last == 0 then run[0].confidence
    else
      var rest := MinConfidence(run[..last]);
      if run[last].confidence < rest then run[last].confidence else rest
  }

  function Texts(run: seq<Word>): (r: seq<string>)
    ensures |r| == |run|
    ensures forall k | 0 <= k < |run| :: r[k] == run[k].text
  {
    if run == [] then [] else [run[0].text] + Texts(run[1..])
  }

  function MatchOf(run: seq<Word>): TextMatch
    requires run != []
  {
    TextMatch(Join(Texts(run), ' '), UnionAll(run), MinConfidence(run))
  }

  /** One match for each start of a run, in order. */
  predicate AreTheRuns(matches: seq<TextMatch>, starts: seq<nat>, words: seq<Word>, want: seq<string>,
                       caseSensitive: bool)
    requires want != []
  {
    && |matches| == |starts|
    && (forall m | 0 <= m < |starts| :: RunAt(words, want, caseSensitive, starts[m])
          && matches[m] == MatchOf(words[starts[m]..starts[m] + |want|]))
    && (forall m, n | 0 <= m < n < |starts| :: starts[m] < starts[n])
  }

  method CheckRun(words: seq<Word>, want: seq<string>, caseSensitive: bool, i: nat) returns (ok: bool)
    requires i + |want| <= |words|
    ensures ok <==> RunAt(words, want, caseSensitive, i)
  {
    ok := true;
    for k := 0 to |want|
      invariant ok && forall l | 0 <= l < k :: TokenAt(words, want, caseSensitive, i, l)
    {
      if Normalize(words[i + k].text, caseSensitive) != want[k] {
        assert !TokenAt(words, want, caseSensitive, i, k);
        ok := false;
        break;
      }
      if k > 0 && !SameRow(words[i + k - 1].bbox, words[i + k].bbox) {
        assert !TokenAt(words, want, caseSensitive, i, k);
        ok := false;
        break;
      }
    }
  }

  /** `starts` lists exactly the run positions below `bound`. */
  ghost predicate ListsStarts(starts: seq<nat>, bound: nat, words: seq<Word>, want: seq<string>, caseSensitive: bool) {
    forall i: nat :: i in starts <==> i < bound && RunAt(words, want, caseSensitive, i)
  }

  lemma OneMoreRun(matches: seq<TextMatch>, starts: seq<nat>, words: seq<Word>, want: seq<string>,
                   caseSensitive: bool, i: nat)
    requires want != [] && RunAt(words, want, caseSensitive, i)
    requires AreTheRuns(matches, starts, words, want, caseSensitive)
      && ListsStarts(starts, i, words, want, caseSensitive)
    ensures AreTheRuns(matches + [MatchOf(words[i..i + |want|])], starts + [i], words, want, caseSensitive)
    ensures ListsStarts(starts + [i], i + 1, words, want, caseSensitive)
  {
    hide RunAt, MatchOf;
    forall m | 0 <= m < |starts| ensures starts[m] < i { assert starts[m] in starts; }
  }

  lemma NoMoreRoom(starts: seq<nat>, bound: nat, words: seq<Word>, want: seq<string>, caseSensitive: bool)
    requires bound + |want| > |words| && ListsStarts(starts, bound, words, want, caseSensitive)
    ensures forall i: nat :: i in starts <==> RunAt(words, want, caseSensitive, i)
  {
  }

  /**
   * `tokens` is the query split on whitespace. The matches are those of exactly the positions where the words
   * read as the tokens along one row, in order of position; `starts` lists the positions.
   */
  method FindWordRuns(words: seq<Word>, tokens: seq<string>, caseSensitive: bool)
    returns (matches: seq<TextMatch>, starts: seq<nat>)
    ensures tokens == [] ==> matches == []
    ensures tokens != [] ==>
      && AreTheRuns(matches, starts, words, NormalizeAll(tokens, caseSensitive), caseSensitive)
      && forall i: nat :: i in starts <==> RunAt(words, NormalizeAll(tokens, caseSensitive), caseSensitive, i)
  {
    matches, starts := [], [];
    var want := NormalizeAll(tokens, caseSensitive);
    if tokens == [] || |words| < |tokens| {
      return;
    }
    hide RunAt, MatchOf;
    var last := |words| - |want|;
    for i := 0 to last + 1
      invariant AreTheRuns(matches, starts, words, want, caseSensitive)
      invariant ListsStarts(starts, i, words, want, caseSensitive)
    {
      var ok := CheckRun(words, want, caseSensitive, i);
      if !ok {
        continue;
      }
      OneMoreRun(matches, starts, words, want, caseSensitive, i);
      matches := matches + [MatchOf(words[i..i + |want|])];
      starts := starts + [i];
    }
    NoMoreRoom(starts, last + 1, words, want, caseSensitive);
  }

  /** What the run positions are, in the words and tokens themselves. */
  lemma RunMeaning(words: seq<Word>, tokens: seq<string>, caseSensitive: bool, i: nat)
    ensures RunAt(words, NormalizeAll(tokens, caseSensitive), caseSensitive, i)
      <==> i + |tokens| <= |words| && forall k | 0 <= k < |tokens| ::
        && ReadsAs(words[i + k].text, tokens[k], caseSensitive)
        && (k > 0 ==> SameRow(words[i + k - 1].bbox, words[i + k].bbox))
  {
    hide Normalize, ReadsAs, SameRow;
    var want := NormalizeAll(tokens, caseSensitive);
    if i + |tokens| <= |words| {
      forall k | 0 <= k < |tokens|
        ensures TokenAt(words, want, caseSensitive, i, k)
          <==> && ReadsAs(words[i + k].text, tokens[k], caseSensitive)
               && (k > 0 ==> SameRow(words[i + k - 1].bbox, words[i + k].bbox))
      {
        NormalizedEqual(words[i + k].text, tokens[k], caseSensitive);
      }
    }
  }

  /** The text of a case-sensitive match is the query, its tokens one space apart. */
  lemma MatchText(words: seq<Word>, tokens: seq<string>, i: nat)
    requires tokens != [] && RunAt(words, NormalizeAll(tokens, true), true, i)
    ensures MatchOf(words[i..i + |tokens|]).text == Join(tokens, ' ')
  {
    hide RunAt, UnionAll, MinConfidence, Join, SameRow;
    RunMeaning(words, tokens, true, i);
    var run := words[i..i + |tokens|];
    forall k | 0 <= k < |tokens| ensures Texts(run)[k] == tokens[k] {
      assert ReadsAs(words[i + k].text, tokens[k], true) && run[k] == words[i + k];
    }
    SameTexts(Texts(run), tokens);
  }

  lemma SameTexts(a: seq<string>, b: seq<string>)
    requires |a| == |b| && forall k | 0 <= k < |a| :: a[k] == b[k]
    ensures a == b
  {
  }

  // ---- what a match covers -----------------------------------------------------------------------

  /** The nearest edge of the run on an axis. */
  function LowOf(run: seq<Word>, across: bool): (r: int)
    requires run != []
    ensures forall k | 0 <= k < |run| :: r <= Low(run[k].bbox, across)
    ensures exists k | 0 <= k < |run| :: r == Low(run[k].bbox, across)
  {
    var last := |run| - 1;
    var own := Low(run[last].bbox, across);
    if last == 0 then own
    else
      var rest := LowOf(run[..last], across);
      assert forall k | 0 <= k < last :: run[..last][k] == run[k];
      if own < rest then own else rest
  }

  /** The farthest edge of the run on an axis. */
  function HighOf(run: seq<Word>, across: bool): (r: int)
    requires run != []
    ensures forall k | 0 <= k < |run| :: High(run[k].bbox, across) <= r
    ensures exists k | 0 <= k < |run| :: r == High(run[k].bbox, across)
  {
    var last := |run| - 1;
    var own := High(run[last].bbox, across);
    if last == 0 then own
    else
      var rest := HighOf(run[..last], across);
      assert forall k | 0 <= k < last :: run[..last][k] == run[k];
      if own > rest then own else rest
  }

  /** On this axis the far edge of the run and its whole extent are 32-bit numbers. */
  predicate RunFits(run: seq<Word>, across: bool)
    requires run != []
  {
    I32_MIN <= HighOf(run, across) <= I32_MAX && HighOf(run, across) - LowOf(run, across) <= I32_MAX
  }

  /**
   * The merged box starts at the nearest edge. It never reaches past the farthest one, unless that is no 32-bit
   * number, and reaches it whenever it is one and the extent is one too.
   */
  lemma {:induction false} RunEdges(run: seq<Word>, across: bool)
    requires run != []
    ensures var u, low, high := UnionAll(run), LowOf(run, across), HighOf(run, across);
      && Low(u, across) == low
      && (|run| == 1 ==> High(u, across) == high)
      && (|run| > 1 ==> High(u, across) <= I32_MAX)
      && (High(u, across) <= high || High(u, across) <= I32_MIN)
      && (|run| > 1 && high <= I32_MAX && high - low <= I32_MAX ==>
            High(u, across) == if high >= I32_MIN then high else I32_MIN)
  {
    hide Union, Low, High;
    var last := |run| - 1;
    if last > 0 {
      LastEdges(run, across);
      hide LowOf, HighOf;
      RunEdges(run[..last], across);
      UnionEdges(UnionAll(run[..last]), run[last].bbox, across);
    }
  }

  ghost predicate SmallestAround(u: BBox, run: seq<Word>) {
    && (forall k | 0 <= k < |run| :: Contains(u, run[k].bbox))
    && forall c | (forall k | 0 <= k < |run| :: Contains(c, run[k].bbox)) :: Contains(c, u)
  }

  predicate Within(c: BBox, run: seq<Word>, across: bool)
    requires run != []
  {
    Low(c, across) <= LowOf(run, across) && HighOf(run, across) <= High(c, across)
  }

  lemma WithinAll(c: BBox, run: seq<Word>, across: bool)
    requires run != []
    ensures Within(c, run, across) <==> forall k | 0 <= k < |run| ::
      Low(c, across) <= Low(run[k].bbox, across) && High(run[k].bbox, across) <= High(c, across)
  {
    hide LowOf, HighOf, Low, High;
    var near :| 0 <= near < |run| && LowOf(run, across) == Low(run[near].bbox, across);
    var far :| 0 <= far < |run| && HighOf(run, across) == High(run[far].bbox, across);
    if Within(c, run, across) {
      forall k | 0 <= k < |run|
        ensures Low(c, across) <= Low(run[k].bbox, across) && High(run[k].bbox, across) <= High(c, across)
      {
        assert LowOf(run, across) <= Low(run[k].bbox, across) && High(run[k].bbox, across) <= HighOf(run, across);
      }
    }
  }

  /** A box contains a run when it does so on both axes. */
  lemma ContainsRun(c: BBox, run: seq<Word>)
    requires run != []
    ensures (forall k | 0 <= k < |run| :: Contains(c, run[k].bbox)) <==> Within(c, run, true) && Within(c, run, false)
  {
    hide Within;
    WithinAll(c, run, true);
    WithinAll(c, run, false);
    if forall k | 0 <= k < |run| :: Contains(c, run[k].bbox) {
      forall k | 0 <= k < |run|
        ensures Low(c, true) <= Low(run[k].bbox, true) && High(run[k].bbox, true) <= High(c, true)
        ensures Low(c, false) <= Low(run[k].bbox, false) && High(run[k].bbox, false) <= High(c, false)
      {
        assert Contains(c, run[k].bbox);
      }
    }
  }

  /** The whole extent of a run is not below the 32-bit range: no word's own size is. */
  lemma ExtentAbove(run: seq<Word>, across: bool)
    requires run != []
    ensures HighOf(run, across) - LowOf(run, across) >= I32_MIN
  {
    hide LowOf, HighOf;
    var near :| 0 <= near < |run| && LowOf(run, across) == Low(run[near].bbox, across);
    assert High(run[near].bbox, across) <= HighOf(run, across);
  }

  /** When all far edges are below the 32-bit range the merged box stops at its end, and a smaller one would do. */
  lemma TighterAround(run: seq<Word>, across: bool) returns (c: BBox)
    requires |run| > 1 && HighOf(run, across) < I32_MIN
    requires Within(UnionAll(run), run, true) && Within(UnionAll(run), run, false)
    ensures Within(c, run, true) && Within(c, run, false)
    ensures !Contains(c, UnionAll(run))
  {
    hide UnionAll, LowOf, HighOf;
    var u, extent := UnionAll(run), HighOf(run, across) - LowOf(run, across);
    RunEdges(run, across);
    ExtentAbove(run, across);
    c := if across then u.(w := extent) else u.(h := extent);
  }

  /**
   * The box of a match is the smallest that contains every word of the run, exactly when there is only one word or
   * the far edges and the extents of the run are 32-bit numbers.
   */
  lemma MatchBoxIsSmallest(run: seq<Word>)
    requires run != []
    ensures SmallestAround(UnionAll(run), run) <==> |run| == 1 || (RunFits(run, true) && RunFits(run, false))
  {
    hide UnionAll, LowOf, HighOf, Contains;
    var u := UnionAll(run);
    RunEdges(run, true);
    RunEdges(run, false);
    ContainsRun(u, run);
    if |run| == 1 || (RunFits(run, true) && RunFits(run, false)) {
      forall c | (forall k | 0 <= k < |run| :: Contains(c, run[k].bbox)) ensures Contains(c, u) {
        ContainsRun(c, run);
        EdgesContain(c, u);
      }
    } else if SmallestAround(u, run) && HighOf(run, true) < I32_MIN {
      var c := TighterAround(run, true);
      ContainsRun(c, run);
    } else if SmallestAround(u, run) && HighOf(run, false) < I32_MIN {
      var c := TighterAround(run, false);
      ContainsRun(c, run);
    }
  }

  lemma EdgesContain(c: BBox, u: BBox)
    requires Low(c, true) <= Low(u, true) && High(u, true) <= High(c, true)
    requires Low(c, false) <= Low(u, false) && High(u, false) <= High(c, false)
    ensures Contains(c, u)
  {
  }

  predicate Chained(run: seq<Word>) {
    forall k | 0 < k < |run| :: SameRow(run[k - 1].bbox, run[k].bbox)
  }

  lemma LastEdges(run: seq<Word>, across: bool)
    requires |run| > 1
    ensures var rest, b := run[..|run| - 1], run[|run| - 1].bbox;
      && (LowOf(run, across) == LowOf(rest, across) || LowOf(run, across) == Low(b, across))
      && (HighOf(run, across) == HighOf(rest, across) || HighOf(run, across) == High(b, across))
      && LowOf(run, across) <= LowOf(rest, across) && HighOf(rest, across) <= HighOf(run, across)
      && LowOf(run, across) <= Low(b, across) && High(b, across) <= HighOf(run, across)
  {
  }

  lemma RowBetween(b: BBox, y: int)
    ensures RowHas(b, y) <==> Low(b, false) <= y < High(b, false)
  {
  }

  /** A row just outside some rows that `a` belongs to, and inside with `b` added, is one of `b`'s. */
  lemma Bridged(a: BBox, b: BBox, low: int, high: int, y: int)
    requires SameRow(a, b) && low <= Low(a, false) && High(a, false) <= high
    requires !(low <= y < high)
    requires (low <= y || Low(b, false) <= y) && (y < high || y < High(b, false))
    ensures RowHas(b, y)
  {
  }

  /** Chained rows leave no gap between the topmost and the bottommost edge. */
  lemma {:induction false} NoGapInRun(run: seq<Word>, y: int)
    requires run != [] && Chained(run) && LowOf(run, false) <= y < HighOf(run, false)
    ensures exists k | 0 <= k < |run| :: RowHas(run[k].bbox, y)
  {
    hide LowOf, HighOf, SameRow, RowHas;
    var last := |run| - 1;
    if last == 0 {
      RowBetween(run[0].bbox, y);
    } else {
      var rest, a, b := run[..last], run[last - 1].bbox, run[last].bbox;
      forall k | 0 <= k < last ensures rest[k] == run[k] {}
      LastEdges(run, false);
      if LowOf(rest, false) <= y < HighOf(rest, false) {
        NoGapInRun(rest, y);
        var k :| 0 <= k < last && RowHas(rest[k].bbox, y);
        assert RowHas(run[k].bbox, y);
      } else {
        assert rest[last - 1].bbox == a;
        Bridged(a, b, LowOf(rest, false), HighOf(rest, false), y);
      }
    }
  }

  /** Every line of a match's box crosses some word, for words of any sizes and positions along one row. */
  lemma NoVerticalGap(run: seq<Word>, y: int)
    requires run != [] && Chained(run)
    requires RowHas(UnionAll(run), y)
    ensures exists k | 0 <= k < |run| :: RowHas(run[k].bbox, y)
  {
    hide UnionAll;
    RunEdges(run, false);
    NoGapInRun(run, y);
  }

  /**
   * On an axis where all words have positive size, the centre of a match lies between the outermost edges of the
   * run exactly when the match's own size has not wrapped below -1, or it starts at the least number. The size is
   * positive for a single word, and when the far edge and the extent are 32-bit numbers; then the centre is within
   * a pixel of the middle.
   */
  lemma ClickInSpan(run: seq<Word>, across: bool)
    requires run != []
    requires forall k | 0 <= k < |run| :: High(run[k].bbox, across) > Low(run[k].bbox, across)
    ensures var u, c := UnionAll(run), CenterOn(UnionAll(run), across);
      && (LowOf(run, across) <= c < HighOf(run, across)
          <==> High(u, across) - Low(u, across) >= -1 || Low(u, across) == I32_MIN)
      && (|run| == 1 || RunFits(run, across) ==> High(u, across) > Low(u, across))
      && (RunFits(run, across) ==> 0 <= (HighOf(run, across) - c) - (c - LowOf(run, across)) <= 1)
  {
    hide UnionAll, LowOf, HighOf, Center;
    var u := UnionAll(run);
    RunEdges(run, across);
    var first :| 0 <= first < |run| && LowOf(run, across) == Low(run[first].bbox, across);
    assert High(run[first].bbox, across) <= HighOf(run, across);
    CenterAgainstEdges(u, across);
    if RunFits(run, across) { CenterInMiddle(u, across); }
  }

  /** With chained rows the centre then lies in the row of one of the words. */
  lemma ClickHitsARow(run: seq<Word>)
    requires run != [] && Chained(run)
    requires forall k | 0 <= k < |run| :: run[k].bbox.h > 0
    ensures var u := UnionAll(run);
      && ((exists k | 0 <= k < |run| :: RowHas(run[k].bbox, Center(u).1)) <==> u.h >= -1 || u.y == I32_MIN)
      && (|run| == 1 || RunFits(run, false) ==> u.h > 0)
  {
    hide UnionAll, LowOf, HighOf;
    var u := UnionAll(run);
    var y := Center(u).1;
    ClickInSpan(run, false);
    if u.h >= -1 || u.y == I32_MIN {
      NoGapInRun(run, y);
    } else {
      assert forall k | 0 <= k < |run| :: LowOf(run, false) <= Low(run[k].bbox, false);
      assert forall k | 0 <= k < |run| :: High(run[k].bbox, false) <= HighOf(run, false);
    }
  }

  /** The confidence of a match is the lowest of its words. */
  lemma {:induction false} LowestConfidence(run: seq<Word>)
    requires run != []
    ensures forall k | 0 <= k < |run| :: MinConfidence(run) <= run[k].confidence
    ensures exists k | 0 <= k < |run| :: MinConfidence(run) == run[k].confidence
  {
    var last := |run| - 1;
    if last > 0 {
      var rest := run[..last];
      LowestConfidence(rest);
      var k :| 0 <= k < |rest| && MinConfidence(rest) == rest[k].confidence;
      assert run[k] == rest[k];
      var lowest := if run[last].confidence < MinConfidence(rest) then last else k;
      assert MinConfidence(run) == run[lowest].confidence;
      forall k | 0 <= k < |run| ensures MinConfidence(run) <= run[k].confidence {
        if k < last { assert rest[k] == run[k]; }
      }
    } else {
      assert MinConfidence(run) == run[0].confidence;
    }
  }

  /** A run's matches carry over: every match found comes from words chained along one row. */
  lemma RunIsChained(words: seq<Word>, want: seq<string>, caseSensitive: bool, i: nat)
    requires RunAt(words, want, caseSensitive, i)
    ensures Chained(words[i..i + |want|])
  {
    var run := words[i..i + |want|];
    forall k | 0 < k < |run| ensures SameRow(run[k - 1].bbox, run[k].bbox) {
      assert TokenAt(words, want, caseSensitive, i, k);
    }
  }
}
