/**
 The lattice that the Unigram tokenizer walks, its dynamic program as a recurrence,
 and the proof that the recurrence computes the best segmentation.

 Scores are reals; `NegInf` is the array's initial negative infinity.
 */
module Viterbi {
  import opened Utf16

  const UNKNOWN_SCORE := -10.0

  /** The tokenizer's tables, as `encode` reads them. */
  datatype Model = Model(vocab: map<Text, nat>, scores: seq<real>, unkId: nat, maxPieceLength: nat)

  datatype Score = NegInf | At(value: real)

  datatype Edge = NoEdge | Edge(id: nat, weight: real)

  /** What the three arrays hold at one position. */
  datatype Cell = Cell(score: Score, id: int, start: nat)

  datatype Span = Span(id: nat, start: nat, end: nat, weight: real)

  predicate Beats(a: real, b: Score) {
    b.NegInf? || a > b.value
  }

  /** A vocabulary lookup that the walk performs and that succeeds. */
  predicate Matches(m: Model, text: Text, i: nat, j: nat)
    requires i < j <= |text|
  {
    j - i <= m.maxPieceLength && text[i..j] in m.vocab
  }

  ghost predicate NoMatch(m: Model, text: Text, i: nat) {
    forall j :: i < j <= |text| ==> !Matches(m, text, i, j)
  }

  /** The edge the walk sees from i to j. An id past the end of `scores` reads as
      undefined, the sum is NaN, and no comparison with NaN succeeds: no edge. */
  ghost function EdgeOf(m: Model, text: Text, i: nat, j: nat): Edge
    requires i < j <= |text|
  {
    if Matches(m, text, i, j) then
      var id := m.vocab[text[i..j]];
      if id < |m.scores| then Edge(id, m.scores[id]) else NoEdge
    else if j == i + 1 && NoMatch(m, text, i) then Edge(m.unkId, UNKNOWN_SCORE)
    else NoEdge
  }

  ghost function Relax(m: Model, text: Text, from: Score, i: nat, j: nat, cell: Cell): Cell
    requires i < j <= |text|
  {
    var e := EdgeOf(m, text, i, j);
    if from.At? && e.Edge? && Beats(from.value + e.weight, cell.score)
    then Cell(At(from.value + e.weight), e.id, i)
    else cell
  }

  /** The cell of position j once every start below s has been expanded. */
  ghost function Dp(m: Model, text: Text, j: nat, s: nat): Cell
    requires s <= j <= |text|
    decreases j, s
  {
    if s == 0 then Cell(if j == 0 then At(0.0) else NegInf, -1, 0)
    else Relax(m, text, Dp(m, text, s - 1, s - 1).score, s - 1, j, Dp(m, text, j, s - 1))
  }

  /** The finished cell of position j. */
  ghost function Best(m: Model, text: Text, j: nat): Cell
    requires j <= |text|
  {
    Dp(m, text, j, j)
  }

  // ----- segmentations: the reference the recurrence is measured against

  /** The spans cover 0..n of the text in order, each along an edge of the lattice. */
  ghost predicate Tiling(m: Model, text: Text, p: seq<Span>, n: nat)
    decreases |p|
  {
    if p == [] then n == 0
    else
      var l := p[|p| - 1];
      && l.end == n
      && l.start < l.end <= |text|
      && EdgeOf(m, text, l.start, l.end) == Edge(l.id, l.weight)
      && Tiling(m, text, p[..|p| - 1], l.start)
  }

  ghost function Total(p: seq<Span>): real
    decreases |p|
  {
    if p == [] then 0.0 else Total(p[..|p| - 1]) + p[|p| - 1].weight
  }

  ghost predicate Segmented(m: Model, text: Text, n: nat) {
    exists p :: Tiling(m, text, p, n)
  }

  /** No segmentation of 0..n scores higher. */
  ghost predicate Optimal(m: Model, text: Text, p: seq<Span>, n: nat) {
    && Tiling(m, text, p, n)
    && forall q :: Tiling(m, text, q, n) ==> Total(q) <= Total(p)
  }

  lemma {:induction false} ScoreGrows(m: Model, text: Text, j: nat, s: nat, s': nat)
    requires s <= s' <= j <= |text|
    requires Dp(m, text, j, s).score.At?
    ensures Dp(m, text, j, s').score.At?
    ensures Dp(m, text, j, s).score.value <= Dp(m, text, j, s').score.value
    decreases s'
  {
    if s < s' {
      ScoreGrows(m, text, j, s, s' - 1);
    }
  }

  /** Upper bound: no segmentation beats the recurrence. */
  lemma {:induction false} BestBounds(m: Model, text: Text, p: seq<Span>, n: nat)
    requires n <= |text| && Tiling(m, text, p, n)
    ensures Best(m, text, n).score.At? && Total(p) <= Best(m, text, n).score.value
    decreases |p|
  {
    if p != [] {
      var l := p[|p| - 1];
      BestBounds(m, text, p[..|p| - 1], l.start);
      assert Dp(m, text, n, l.start + 1)
          == Relax(m, text, Best(m, text, l.start).score, l.start, n, Dp(m, text, n, l.start));
      ScoreGrows(m, text, n, l.start + 1, n);
    }
  }

  /** A reached cell came along an edge from a reached cell. */
  lemma {:induction false} CellOrigin(m: Model, text: Text, j: nat, s: nat)
    requires 0 < j <= |text| && s <= j
    requires Dp(m, text, j, s).score.At?
    ensures var c := Dp(m, text, j, s);
      && c.start < s && c.id >= 0
      && Best(m, text, c.start).score.At?
      && EdgeOf(m, text, c.start, j).Edge?
      && EdgeOf(m, text, c.start, j).id == c.id
      && c.score.value == Best(m, text, c.start).score.value + EdgeOf(m, text, c.start, j).weight
    decreases s
  {
    var prev := Dp(m, text, j, s - 1);
    if Dp(m, text, j, s) == prev {
      CellOrigin(m, text, j, s - 1);
    }
  }

  lemma {:induction false} UnreachedCell(m: Model, text: Text, j: nat, s: nat)
    requires s <= j <= |text|
    ensures Dp(m, text, j, s).score.NegInf? ==> Dp(m, text, j, s).id == -1
    decreases s
  {
    if s != 0 {
      UnreachedCell(m, text, j, s - 1);
    }
  }

  /** The path that the backtrace reads off the arrays, first span first. */
  ghost function BackPath(m: Model, text: Text, n: nat): seq<Span>
    requires n <= |text| && Best(m, text, n).score.At?
    decreases n
  {
    if n == 0 then []
    else
      CellOrigin(m, text, n, n);
      var c := Best(m, text, n);
      BackPath(m, text, c.start) + [Span(c.id, c.start, n, EdgeOf(m, text, c.start, n).weight)]
  }

  lemma LastStep(m: Model, text: Text, n: nat) returns (step: Span)
    requires 0 < n <= |text| && Best(m, text, n).score.At?
    ensures var c := Best(m, text, n);
      && 0 <= c.id == step.id && c.start < n && Best(m, text, c.start).score.At?
      && BackPath(m, text, n) == BackPath(m, text, c.start) + [step]
  {
    CellOrigin(m, text, n, n);
    var path := BackPath(m, text, n);
    step := path[|path| - 1];
  }

  /** One step of the backtrace moves a span from the path still to be walked to the walked one. */
  lemma StepBack(m: Model, text: Text, n: nat, walked: seq<Span>) returns (step: Span)
    requires 0 < n <= |text| && Best(m, text, n).score.At?
    ensures var c := Best(m, text, n);
      && 0 <= c.id == step.id && c.start < n && Best(m, text, c.start).score.At?
      && BackPath(m, text, n) + walked == BackPath(m, text, c.start) + ([step] + walked)
  {
    step := LastStep(m, text, n);
    var before := BackPath(m, text, Best(m, text, n).start);
    assert (before + [step]) + walked == before + ([step] + walked);
  }

  lemma {:induction false} BackPathAttains(m: Model, text: Text, n: nat)
    requires n <= |text| && Best(m, text, n).score.At?
    ensures Tiling(m, text, BackPath(m, text, n), n)
    ensures Total(BackPath(m, text, n)) == Best(m, text, n).score.value
    decreases n
  {
    if n != 0 {
      CellOrigin(m, text, n, n);
      var c := Best(m, text, n);
      BackPathAttains(m, text, c.start);
      var p := BackPath(m, text, n);
      assert p[..|p| - 1] == BackPath(m, text, c.start);
    }
  }

  /** Viterbi optimality: a position is reached exactly when some segmentation ends there,
      and then the backtraced path is a best one, with the array's score as its total. */
  lemma ViterbiOptimal(m: Model, text: Text, n: nat)
    requires n <= |text|
    ensures Best(m, text, n).score.At? <==> Segmented(m, text, n)
    ensures Best(m, text, n).score.At? ==>
      && Optimal(m, text, BackPath(m, text, n), n)
      && Total(BackPath(m, text, n)) == Best(m, text, n).score.value
  {
    forall p | Tiling(m, text, p, n)
      ensures Best(m, text, n).score.At? && Total(p) <= Best(m, text, n).score.value
    {
      BestBounds(m, text, p, n);
    }
    if Best(m, text, n).score.At? {
      BackPathAttains(m, text, n);
      assert Segmented(m, text, n);
    }
  }

  /** Among equally good segmentations the strict comparison keeps the earliest last start. */
  lemma {:induction false} TieBreak(m: Model, text: Text, j: nat, s: nat, i: nat)
    requires i < s <= j <= |text|
    requires Best(m, text, i).score.At? && EdgeOf(m, text, i, j).Edge?
    requires i < Dp(m, text, j, s).start
    ensures Dp(m, text, j, s).score.At?
    ensures Best(m, text, i).score.value + EdgeOf(m, text, i, j).weight < Dp(m, text, j, s).score.value
    decreases s
  {
    var prev := Dp(m, text, j, s - 1);
    if Dp(m, text, j, s) == prev {
      if i < s - 1 {
        TieBreak(m, text, j, s - 1, i);
      } else {
        StartBelow(m, text, j, s - 1);
      }
    } else if i < s - 1 {
      assert Dp(m, text, j, i + 1)
          == Relax(m, text, Best(m, text, i).score, i, j, Dp(m, text, j, i));
      ScoreGrows(m, text, j, i + 1, s - 1);
    }
  }

  lemma {:induction false} StartBelow(m: Model, text: Text, j: nat, s: nat)
    requires s <= j <= |text|
    ensures Dp(m, text, j, s).start <= (if s == 0 then 0 else s - 1)
    decreases s
  {
    if s != 0 {
      StartBelow(m, text, j, s - 1);
    }
  }

  /** Every optimal segmentation starts its last span no earlier than the backtraced one. */
  lemma EarliestLastStart(m: Model, text: Text, p: seq<Span>, n: nat)
    requires 0 < n <= |text| && Optimal(m, text, p, n)
    ensures Best(m, text, n).score.At?
    ensures Best(m, text, n).start <= p[|p| - 1].start
  {
    BestBounds(m, text, p, n);
    ViterbiOptimal(m, text, n);
    assert Total(BackPath(m, text, n)) <= Total(p);
    var l := p[|p| - 1];
    BestBounds(m, text, p[..|p| - 1], l.start);
    if l.start < Best(m, text, n).start {
      TieBreak(m, text, n, n, l.start);
    }
  }

  // ----- which texts have no segmentation

  /** A piece that the walk can find and that some scored piece starts, if only itself. */
  ghost predicate Started(m: Model, piece: Text) {
    exists k :: 0 < k <= |piece| && piece[..k] in m.vocab && m.vocab[piece[..k]] < |m.scores|
  }

  /** No piece that a lookup can find blocks the way on: it switches the unknown character off
      at its start, so a scored piece has to lead away from there. */
  ghost predicate NoStrandingPiece(m: Model) {
    forall piece :: piece in m.vocab && 0 < |piece| <= m.maxPieceLength ==> Started(m, piece)
  }

  /** A match starts a scored match at the same place. */
  lemma ScoredStart(m: Model, text: Text, i: nat, end: nat) returns (j: nat)
    requires NoStrandingPiece(m) && i < end <= |text| && Matches(m, text, i, end)
    ensures i < j <= end && Matches(m, text, i, j) && m.vocab[text[i..j]] < |m.scores|
  {
    var piece := text[i..end];
    assert Started(m, piece);
    var k :| 0 < k <= |piece| && piece[..k] in m.vocab && m.vocab[piece[..k]] < |m.scores|;
    j := i + k;
    assert text[i..j] == piece[..k];
  }

  /** From any position some edge leads on. */
  lemma WayOn(m: Model, text: Text, i: nat) returns (j: nat)
    requires NoStrandingPiece(m) && i < |text|
    ensures i < j <= |text| && EdgeOf(m, text, i, j).Edge?
  {
    if NoMatch(m, text, i) {
      j := i + 1;
    } else {
      var end :| i < end <= |text| && Matches(m, text, i, end);
      j := ScoredStart(m, text, i, end);
    }
  }

  lemma {:induction false} Reaches(m: Model, text: Text, i: nat)
    requires NoStrandingPiece(m) && i <= |text| && Best(m, text, i).score.At?
    ensures Best(m, text, |text|).score.At?
    decreases |text| - i
  {
    if i < |text| {
      var j := WayOn(m, text, i);
      assert Dp(m, text, j, i + 1) == Relax(m, text, Best(m, text, i).score, i, j, Dp(m, text, j, i));
      ScoreGrows(m, text, j, i + 1, j);
      Reaches(m, text, j);
    }
  }

  lemma {:induction false} FirstEdge(m: Model, text: Text, p: seq<Span>, n: nat) returns (j: nat)
    requires Tiling(m, text, p, n) && p != []
    ensures 0 < j <= |text| && EdgeOf(m, text, 0, j).Edge?
    decreases |p|
  {
    var front, l := p[..|p| - 1], p[|p| - 1];
    if front == [] {
      j := l.end;
    } else {
      j := FirstEdge(m, text, front, l.start);
    }
  }

  /** A piece that nothing scored starts strands the text that it is: no segmentation. */
  lemma PieceStrands(m: Model, piece: Text)
    requires piece in m.vocab && 0 < |piece| <= m.maxPieceLength
    ensures !Started(m, piece) ==> !Segmented(m, piece, |piece|)
  {
    if p :| Tiling(m, piece, p, |piece|) {
      var j := FirstEdge(m, piece, p, |piece|);
      assert piece[0..|piece|] == piece && piece[0..j] == piece[..j];
      assert Matches(m, piece, 0, |piece|);
    }
  }

  /** Every text has a segmentation exactly when no piece in the tables is stranding. */
  lemma SegmentedIff(m: Model)
    ensures NoStrandingPiece(m) <==> forall text :: Segmented(m, text, |text|)
  {
    if NoStrandingPiece(m) {
      forall text ensures Segmented(m, text, |text|) {
        Reaches(m, text, 0);
        ViterbiOptimal(m, text, |text|);
      }
    } else {
      var piece :| piece in m.vocab && 0 < |piece| <= m.maxPieceLength && !Started(m, piece);
      PieceStrands(m, piece);
    }
  }

  // ----- when the tables are complete: every piece scored, none longer than the window

  ghost predicate AllScored(m: Model) {
    forall piece :: piece in m.vocab ==> m.vocab[piece] < |m.scores|
  }

  ghost predicate WindowCovers(m: Model) {
    forall piece :: piece in m.vocab ==> |piece| <= m.maxPieceLength
  }

  /** The lattice without the window: any vocabulary piece, or one unknown character
      where no piece starts. */
  ghost predicate IsSpan(m: Model, text: Text, sp: Span) {
    && sp.start < sp.end <= |text|
    && if text[sp.start..sp.end] in m.vocab then
         sp.id == m.vocab[text[sp.start..sp.end]] && sp.id < |m.scores| && sp.weight == m.scores[sp.id]
       else
         && sp.end == sp.start + 1 && sp.id == m.unkId && sp.weight == -10.0
         && forall j :: sp.start < j <= |text| ==> text[sp.start..j] !in m.vocab
  }

  ghost predicate WindowExact(m: Model, text: Text) {
    forall i, j, id, w :: 0 <= i < j <= |text| ==>
      (EdgeOf(m, text, i, j) == Edge(id, w) <==> IsSpan(m, text, Span(id, i, j, w)))
  }

  /** A piece longer than the window is never looked up. That is harmless only if it has no
      score, so that it is no edge anyway, and some piece the window admits starts it, so that
      its first character is not taken for unknown. */
  ghost predicate WindowSuffices(m: Model) {
    forall piece :: piece in m.vocab && |piece| > m.maxPieceLength ==>
      m.vocab[piece] >= |m.scores| && exists k :: 0 < k <= m.maxPieceLength && piece[..k] in m.vocab
  }

  /** The window loses nothing, on any text, exactly when no piece beyond it matters. */
  lemma WindowLosesNothing(m: Model)
    requires m.maxPieceLength >= 1
    ensures WindowSuffices(m) <==> forall text :: WindowExact(m, text)
    ensures AllScored(m) ==> (WindowSuffices(m) <==> WindowCovers(m))
  {
    if WindowSuffices(m) {
      forall text ensures WindowExact(m, text) {
        WindowExactOn(m, text);
      }
    } else {
      var piece :| piece in m.vocab && |piece| > m.maxPieceLength &&
        (m.vocab[piece] < |m.scores| || forall k :: 0 < k <= m.maxPieceLength ==> piece[..k] !in m.vocab);
      LostPiece(m, piece);
    }
  }

  lemma LostPiece(m: Model, piece: Text)
    requires m.maxPieceLength >= 1 && piece in m.vocab && |piece| > m.maxPieceLength
    requires m.vocab[piece] < |m.scores| || forall k :: 0 < k <= m.maxPieceLength ==> piece[..k] !in m.vocab
    ensures !WindowExact(m, piece)
  {
    var id := m.vocab[piece];
    assert piece[0..|piece|] == piece;
    if id < |m.scores| {
      assert IsSpan(m, piece, Span(id, 0, |piece|, m.scores[id]));
      assert EdgeOf(m, piece, 0, |piece|) == NoEdge;
    } else {
      forall j | 0 < j <= |piece| ensures !Matches(m, piece, 0, j) {
        assert piece[0..j] == piece[..j];
      }
      assert EdgeOf(m, piece, 0, 1) == Edge(m.unkId, UNKNOWN_SCORE);
      assert !IsSpan(m, piece, Span(m.unkId, 0, 1, UNKNOWN_SCORE)) by {
        assert piece[0..1] == piece[..1];
      }
    }
  }

  /** Under that condition a start has no match in the window only if no piece starts there. */
  lemma NoneStarts(m: Model, text: Text, i: nat)
    requires WindowSuffices(m) && NoMatch(m, text, i)
    ensures forall j :: i < j <= |text| ==> text[i..j] !in m.vocab
  {
    forall j | i < j <= |text| ensures text[i..j] !in m.vocab {
      if text[i..j] in m.vocab {
        assert !Matches(m, text, i, j);
        var k :| 0 < k <= m.maxPieceLength && text[i..j][..k] in m.vocab;
        assert text[i..j][..k] == text[i..i + k];
        assert Matches(m, text, i, i + k);
      }
    }
  }

  lemma WindowExactOn(m: Model, text: Text)
    requires m.maxPieceLength >= 1 && WindowSuffices(m)
    ensures WindowExact(m, text)
  {
    forall i, j, id, w | 0 <= i < j <= |text|
      ensures EdgeOf(m, text, i, j) == Edge(id, w) <==> IsSpan(m, text, Span(id, i, j, w))
    {
      if !Matches(m, text, i, j) && text[i..j] !in m.vocab {
        if NoMatch(m, text, i) {
          NoneStarts(m, text, i);
        } else {
          var k :| i < k <= |text| && Matches(m, text, i, k);
        }
      }
    }
  }

  /** A start that was never reached relaxes nothing. */
  lemma SkipUnreached(m: Model, text: Text, s: nat)
    requires s < |text| && Best(m, text, s).score.NegInf?
    ensures forall j :: s < j <= |text| ==> Dp(m, text, j, s + 1) == Dp(m, text, j, s)
  {
  }
}
