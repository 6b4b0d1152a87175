/**
 The SentencePiece Unigram tokenizer: its tables, filled from the model file, and
 `encode`, the in-place dynamic program with its backtrace.
 */
module Unigram {
  import opened Utf16
  import opened Viterbi

  const SPACE: CodeUnit := 0x20

  datatype AddedToken = AddedToken(id: nat, content: Text, special: bool)

  datatype EncodedIds = EncodedIds(ids: seq<nat>, pieces: seq<Text>)

  // ----- the tables as functions of the model file

  /** piece -> index of its last occurrence in the vocabulary list. */
  function ListedIds(list: seq<(Text, real)>): (vocab: map<Text, nat>)
    ensures forall piece :: piece in vocab ==> vocab[piece] < |list| && list[vocab[piece]].0 == piece
  {
    if list == [] then map[]
    else
      var n := |list| - 1;
      assert forall i :: 0 <= i < n ==> list[..n][i] == list[i];
      ListedIds(list[..n])[list[n].0 := n]
  }

  ghost predicate LastListings(vocab: map<Text, nat>, list: seq<(Text, real)>) {
    forall piece :: piece in vocab ==>
      && vocab[piece] < |list| && list[vocab[piece]].0 == piece
      && forall i :: vocab[piece] < i < |list| ==> list[i].0 != piece
  }

  /** Each id is the place where its piece is listed last. */
  lemma {:induction false} ListedLast(list: seq<(Text, real)>)
    ensures LastListings(ListedIds(list), list)
    decreases |list|
  {
    if list != [] {
      var n := |list| - 1;
      ListedLast(list[..n]);
      assert forall i :: 0 <= i < n ==> list[..n][i] == list[i];
    }
  }

  /** Every listed piece has an id. */
  lemma {:induction false} ListedAll(list: seq<(Text, real)>, i: nat)
    requires i < |list|
    ensures list[i].0 in ListedIds(list)
    decreases |list|
  {
    var n := |list| - 1;
    if i < n {
      assert list[..n][i] == list[i];
      ListedAll(list[..n], i);
    }
  }

  function ListedPieces(list: seq<(Text, real)>): seq<Text> {
    seq(|list|, i requires 0 <= i < |list| => list[i].0)
  }

  function Padded(pieces: seq<Text>, n: nat): seq<Text> {
    if |pieces| >= n then pieces else pieces + seq(n - |pieces|, _ => [])
  }

  function WithPlain(vocab: map<Text, nat>, added: seq<AddedToken>): map<Text, nat> {
    if added == [] then vocab
    else
      var last := added[|added| - 1];
      var before := WithPlain(vocab, added[..|added| - 1]);
      if last.special then before else before[last.content := last.id]
  }

  function WithPlainPieces(pieces: seq<Text>, added: seq<AddedToken>): seq<Text> {
    if added == [] then pieces
    else
      var last := added[|added| - 1];
      var before := WithPlainPieces(pieces, added[..|added| - 1]);
      if last.special then before else Padded(before, last.id + 1)[last.id := last.content]
  }

  function Specials(added: seq<AddedToken>): map<Text, nat> {
    if added == [] then map[]
    else
      var last := added[|added| - 1];
      var before := Specials(added[..|added| - 1]);
      if last.special then before[last.content := last.id] else before
  }

  ghost predicate NoPlainAdded(added: seq<AddedToken>) {
    forall i :: 0 <= i < |added| ==> added[i].special
  }

  lemma {:induction false} OnlySpecials(vocab: map<Text, nat>, pieces: seq<Text>, added: seq<AddedToken>)
    requires NoPlainAdded(added)
    ensures WithPlain(vocab, added) == vocab && WithPlainPieces(pieces, added) == pieces
    decreases |added|
  {
    if added != [] {
      OnlySpecials(vocab, pieces, added[..|added| - 1]);
    }
  }

  lemma OnlyIfPlain(vocab: map<Text, nat>, pieces: seq<Text>, list: seq<(Text, real)>, added: seq<AddedToken>)
    requires vocab == ListedIds(list)
    ensures NoPlainAdded(added) ==>
      && WithPlain(vocab, added) == vocab
      && WithPlainPieces(ListedPieces(list), added) == ListedPieces(list)
  {
    if NoPlainAdded(added) {
      OnlySpecials(vocab, ListedPieces(list), added);
    }
  }

  // ----- what the tables hold

  /** No token of this kind from place k on has this content. */
  ghost predicate NoneFrom(added: seq<AddedToken>, content: Text, special: bool, k: nat) {
    forall j :: k <= j < |added| ==> added[j].content != content || added[j].special != special
  }

  /** The special tokens' table: a special content has the id of its last token. */
  lemma {:induction false} SpecialAt(added: seq<AddedToken>, k: nat)
    requires k < |added| && added[k].special && NoneFrom(added, added[k].content, true, k + 1)
    ensures added[k].content in Specials(added) && Specials(added)[added[k].content] == added[k].id
    decreases |added|
  {
    var n := |added| - 1;
    if k < n {
      assert added[..n][k] == added[k];
      SpecialAt(added[..n], k);
      assert added[n].content != added[k].content || !added[n].special;
    }
  }

  /** And it has no other contents. */
  lemma {:induction false} OnlySpecial(added: seq<AddedToken>, content: Text)
    requires NoneFrom(added, content, true, 0)
    ensures content !in Specials(added)
    decreases |added|
  {
    if added != [] {
      OnlySpecial(added[..|added| - 1], content);
      assert added[|added| - 1].content != content || !added[|added| - 1].special;
    }
  }

  /** Plain tokens extend the vocabulary: a plain content gets the id of its last token. */
  lemma {:induction false} PlainAt(vocab: map<Text, nat>, added: seq<AddedToken>, k: nat)
    requires k < |added| && !added[k].special && NoneFrom(added, added[k].content, false, k + 1)
    ensures added[k].content in WithPlain(vocab, added) && WithPlain(vocab, added)[added[k].content] == added[k].id
    decreases |added|
  {
    var n := |added| - 1;
    if k < n {
      assert added[..n][k] == added[k];
      PlainAt(vocab, added[..n], k);
      assert added[n].content != added[k].content || added[n].special;
    }
  }

  /** And every other piece keeps what it had. */
  lemma {:induction false} OthersKept(vocab: map<Text, nat>, added: seq<AddedToken>, content: Text)
    requires NoneFrom(added, content, false, 0)
    ensures content in WithPlain(vocab, added) <==> content in vocab
    ensures content in vocab ==> WithPlain(vocab, added)[content] == vocab[content]
    decreases |added|
  {
    if added != [] {
      OthersKept(vocab, added[..|added| - 1], content);
      assert added[|added| - 1].content != content || added[|added| - 1].special;
    }
  }

  /** Place k is the last plain token with this id. */
  ghost predicate LastWithId(added: seq<AddedToken>, id: nat, k: nat) {
    && k < |added| && added[k].id == id && !added[k].special
    && forall j :: k < j < |added| ==> added[j].id != id || added[j].special
  }

  /** And the piece list: the last plain token with an id names it, other listed pieces stay, and
      the places between are empty. */
  lemma {:induction false} PiecesExact(pieces: seq<Text>, added: seq<AddedToken>, id: nat)
    ensures var r := WithPlainPieces(pieces, added);
      && |r| >= |pieces|
      && (id < |r| <==> id < |pieces| || exists k :: 0 <= k < |added| && !added[k].special && id <= added[k].id)
      && (forall k: nat :: LastWithId(added, id, k) ==> id < |r| && r[id] == added[k].content)
      && ((forall k :: 0 <= k < |added| ==> added[k].id != id || added[k].special) && id < |r| ==>
           r[id] == if id < |pieces| then pieces[id] else [])
    decreases |added|
  {
    if added != [] {
      var front := added[..|added| - 1];
      PiecesExact(pieces, front, id);
      assert forall k :: 0 <= k < |front| ==> added[k] == front[k];
      forall k: nat | LastWithId(added, id, k) && k < |front| ensures LastWithId(front, id, k) {
      }
    }
  }

  function Reverse<T>(s: seq<T>): (r: seq<T>)
    ensures |r| == |s| && forall i :: 0 <= i < |s| ==> r[i] == s[|s| - 1 - i]
  {
    seq(|s|, i requires 0 <= i < |s| => s[|s| - 1 - i])
  }

  function ReplaceSpaces(t: Text, replacement: Text): Text {
    if t == [] then []
    else (if t[0] == SPACE then replacement else [t[0]]) + ReplaceSpaces(t[1..], replacement)
  }

  class SentencePieceUnigram {
    var vocab: map<Text, nat>
    var scores: array<real>
    var pieces: seq<Text>
    var specialIds: map<Text, nat>
    var unkId: nat
    var maxPieceLength: nat
    const replacement: Text
    const prependAlways: bool
    /** Unicode NFKC, or the identity where the platform refuses the input. */
    const nfkc: Text -> Text

    ghost predicate Valid()
      reads this
    {
      maxPieceLength >= 1
    }

    ghost function Tables(): Model
      reads this, scores
    {
      Model(vocab, scores[..], unkId, maxPieceLength)
    }

    constructor (list: seq<(Text, real)>, unkId: nat, added: seq<AddedToken>,
                 replacement: Text, prependAlways: bool, nfkc: Text -> Text)
      ensures Valid() && fresh(scores)
      ensures this.unkId == unkId && this.replacement == replacement
      ensures this.prependAlways == prependAlways && this.nfkc == nfkc
      ensures vocab == WithPlain(ListedIds(list), added)
      ensures pieces == WithPlainPieces(ListedPieces(list), added)
      ensures specialIds == Specials(added)
      ensures scores.Length == |list|
      ensures forall piece :: piece in ListedIds(list) ==>
        scores[ListedIds(list)[piece]] == list[ListedIds(list)[piece]].1
      ensures forall i :: 0 <= i < |list| ==> |list[i].0| <= maxPieceLength
      ensures maxPieceLength == 1 || exists i :: 0 <= i < |list| && |list[i].0| == maxPieceLength
      ensures NoPlainAdded(added) ==>
        && AllScored(Tables()) && WindowCovers(Tables())
        && forall piece :: piece in vocab ==> vocab[piece] < |pieces| && pieces[vocab[piece]] == piece
    {
      this.unkId := unkId;
      this.replacement := replacement;
      this.prependAlways := prependAlways;
      this.nfkc := nfkc;
      vocab := map[];
      pieces := [];
      specialIds := map[];
      maxPieceLength := 1;
      new;
      LoadPieces(list);
      ghost var ids := vocab;
      scores := new real[|pieces|](_ => 0.0);
      ListedLast(list);
      LoadScores(list);
      LoadAdded(added);
      OnlyIfPlain(ids, pieces, list, added);
    }

    method LoadPieces(list: seq<(Text, real)>)
      requires vocab == map[] && pieces == []
      modifies this`vocab, this`pieces, this`maxPieceLength
      ensures vocab == ListedIds(list) && pieces == ListedPieces(list)
      ensures maxPieceLength >= 1
      ensures forall i :: 0 <= i < |list| ==> |list[i].0| <= maxPieceLength
      ensures maxPieceLength == 1 || exists i :: 0 <= i < |list| && |list[i].0| == maxPieceLength
    {
      var maxLength := 0;
      for i := 0 to |list|
        invariant vocab == ListedIds(list[..i]) && pieces == ListedPieces(list[..i])
        invariant forall k :: 0 <= k < i ==> |list[k].0| <= maxLength
        invariant maxLength == 0 || exists k :: 0 <= k < i && |list[k].0| == maxLength
      {
        assert list[..i + 1][..i] == list[..i];
        var piece := list[i].0;
        var id := |pieces|;
        pieces := pieces + [piece];
        vocab := vocab[piece := id];
        if |piece| > maxLength {
          maxLength := |piece|;
        }
      }
      assert list[..|list|] == list;
      maxPieceLength := if maxLength > 1 then maxLength else 1;
    }

    method LoadScores(list: seq<(Text, real)>)
      requires LastListings(vocab, list) && scores.Length == |list|
      modifies scores
      ensures forall piece :: piece in vocab ==> scores[vocab[piece]] == list[vocab[piece]].1
    {
      for i := 0 to |list|
        invariant forall piece :: piece in vocab && vocab[piece] < i ==> scores[vocab[piece]] == list[vocab[piece]].1
      {
        if list[i].0 in vocab {
          scores[vocab[list[i].0]] := list[i].1;
        }
      }
    }

    method LoadAdded(added: seq<AddedToken>)
      requires specialIds == map[]
      modifies this`vocab, this`pieces, this`specialIds
      ensures vocab == WithPlain(old(vocab), added)
      ensures pieces == WithPlainPieces(old(pieces), added)
      ensures specialIds == Specials(added)
    {
      for k := 0 to |added|
        invariant vocab == WithPlain(old(vocab), added[..k])
        invariant pieces == WithPlainPieces(old(pieces), added[..k])
        invariant specialIds == Specials(added[..k])
      {
        assert added[..k + 1][..k] == added[..k];
        var token := added[k];
        if token.special {
          specialIds := specialIds[token.content := token.id];
        } else {
          Pad(token.id + 1);
          pieces := pieces[token.id := token.content];
          vocab := vocab[token.content := token.id];
        }
      }
      assert added[..|added|] == added;
    }

    method Pad(n: nat)
      modifies this`pieces
      ensures pieces == Padded(old(pieces), n)
    {
      ghost var before := pieces;
      while |pieces| < n
        invariant |before| <= |pieces| && (|pieces| <= n || pieces == before)
        invariant pieces == before + seq(|pieces| - |before|, _ => [])
      {
        pieces := pieces + [[]];
      }
    }

    function Normalize(input: Text): Text {
      ReplaceSpaces(nfkc(input), replacement)
    }

    function Prepared(text: Text): Text {
      var normalized := Normalize(text);
      if prependAlways && !(replacement <= normalized) then replacement + normalized else normalized
    }

    /** The text the lattice is walked over: NFKC with its spaces replaced, and, where the
        scheme is to prepend, with one replacement in front unless it starts with one. */
    lemma PreparedExact(text: Text)
      ensures var base, prepared := ReplaceSpaces(nfkc(text), replacement), Prepared(text);
        && (prependAlways ==> replacement <= prepared)
        && (!prependAlways || replacement <= base ==> prepared == base)
        && (prependAlways && !(replacement <= base) ==> prepared == replacement + base)
    {
    }

    /** `pieces[id] ?? otherwise` */
    function PieceOr(id: nat, otherwise: Text): Text
      reads this
    {
      if id < |pieces| then pieces[id] else otherwise
    }

    /** The answer lists the ids of a path's spans in their order, each with its piece, which is
        empty for an id past the end of the list. */
    ghost predicate Lists(r: EncodedIds, p: seq<Span>)
      reads this
    {
      && |r.ids| == |r.pieces| == |p|
      && forall k :: 0 <= k < |p| ==>
        && r.ids[k] == p[k].id
        && r.pieces[k] == if p[k].id < |pieces| then pieces[p[k].id] else []
    }

    /** The answer where the end was not reached: one unknown. */
    ghost predicate ListsUnknown(r: EncodedIds)
      reads this
    {
      r.ids == [unkId] && r.pieces == [if unkId < |pieces| then pieces[unkId] else Lit("<unk>")]
    }

    /** The three arrays hold, at every position, the recurrence's cell after `s` starts,
        and at positions the scan of start `s` has passed (those above `done`), the cell
        that a matching piece gives. */
    static ghost predicate Scanned(m: Model, t: Text, best: array<Score>, bestId: array<int>, bestStart: array<int>,
                                   s: nat, done: nat)
      reads best, bestId, bestStart
    {
      && best.Length == bestId.Length == bestStart.Length == |t| + 1 && bestId != bestStart
      && forall j :: 0 <= j <= |t| ==>
        var c := if j <= s then Best(m, t, j)
                 else if done < j && Matches(m, t, s, j) then Dp(m, t, j, s + 1)
                 else Dp(m, t, j, s);
        best[j] == c.score && bestId[j] == c.id && bestStart[j] == c.start
    }

    /** Returns the ids of a best segmentation of the prepared text, or one unknown when
        the lattice has no segmentation at all. */
    method Encode(text: Text) returns (r: EncodedIds)
      requires Valid()
      ensures text in specialIds ==> r == EncodedIds([specialIds[text]], [text])
      ensures text !in specialIds ==>
        var t, m := Prepared(text), Tables();
        if Segmented(m, t, |t|) then
          && Best(m, t, |t|).score.At?
          && Optimal(m, t, BackPath(m, t, |t|), |t|)
          && Lists(r, BackPath(m, t, |t|))
        else
          ListsUnknown(r)
    {
      if text in specialIds {
        return EncodedIds([specialIds[text]], [text]);
      }
      var t := Prepared(text);
      ghost var m := Tables();
      var bestId, bestStart := FillLattice(m, t);
      ViterbiOptimal(m, t, |t|);
      r := Backtrace(m, t, bestId, bestStart);
    }

    /** The forward pass over the lattice. */
    method FillLattice(ghost m: Model, t: Text) returns (bestId: array<int>, bestStart: array<int>)
      requires Valid() && m == Tables()
      ensures fresh(bestId) && fresh(bestStart) && Tables() == m
      ensures bestId.Length == bestStart.Length == |t| + 1
      ensures forall j :: 0 <= j <= |t| ==> bestId[j] == Best(m, t, j).id && bestStart[j] == Best(m, t, j).start
    {
      var length := |t|;
      var best := new Score[length + 1](_ => NegInf);
      bestId := new int[length + 1](_ => -1);
      bestStart := new int[length + 1](_ => 0);
      best[0] := At(0.0);
      for start := 0 to length
        invariant fresh(best) && fresh(bestId) && fresh(bestStart) && Tables() == m
        invariant Scanned(m, t, best, bestId, bestStart, start, length)
      {
        if best[start].NegInf? {
          SkipUnreached(m, t, start);
          continue;
        }
        Expand(m, t, best, bestId, bestStart, start);
      }
    }

    /** One round of the outer loop: relax along every piece that starts at `start`, or along
        the unknown character if none does. */
    method Expand(ghost m: Model, t: Text, best: array<Score>, bestId: array<int>, bestStart: array<int>, start: nat)
      requires Valid() && m == Tables() && start < |t|
      requires Scanned(m, t, best, bestId, bestStart, start, |t|) && best[start].At?
      modifies best, bestId, bestStart
      ensures Tables() == m
      ensures Scanned(m, t, best, bestId, bestStart, start + 1, |t|)
    {
      var matched := ExpandPieces(m, t, best, bestId, bestStart, start);
      if !matched {
        var score := best[start].value + UNKNOWN_SCORE;
        if Beats(score, best[start + 1]) {
          best[start + 1] := At(score);
          bestId[start + 1] := unkId;
          bestStart[start + 1] := start;
        }
      }
    }

    /** The inner loop, longest piece first. */
    method ExpandPieces(ghost m: Model, t: Text, best: array<Score>, bestId: array<int>, bestStart: array<int>,
        start: nat)
        returns (matched: bool)
      requires Valid() && m == Tables() && start < |t|
      requires Scanned(m, t, best, bestId, bestStart, start, |t|) && best[start].At?
      modifies best, bestId, bestStart
      ensures Tables() == m && best[start] == old(best[start])
      ensures Scanned(m, t, best, bestId, bestStart, start, start)
      ensures matched <==> !NoMatch(m, t, start)
    {
      matched := false;
      var limit := if |t| < start + maxPieceLength then |t| else start + maxPieceLength;
      var end := limit;
      while end > start
        invariant start <= end <= limit
        invariant Tables() == m
        invariant Scanned(m, t, best, bestId, bestStart, start, end)
        invariant matched <==> exists j :: end < j <= limit && Matches(m, t, start, j)
      {
        var candidate := t[start..end];
        if candidate in vocab {
          matched := true;
          var id := vocab[candidate];
          assert Matches(m, t, start, end);
          if id < scores.Length {
            var score := best[start].value + scores[id];
            if Beats(score, best[end]) {
              best[end] := At(score);
              bestId[end] := id;
              bestStart[end] := start;
            }
          }
        }
        end := end - 1;
      }
    }

    /** The ids and pieces of a path, last span first. */
    ghost predicate ListsBackwards(ids: seq<nat>, names: seq<Text>, p: seq<Span>)
      reads this
    {
      && |ids| == |names| == |p|
      && forall k :: 0 <= k < |p| ==> ids[|p| - 1 - k] == p[k].id && names[|p| - 1 - k] == PieceOr(p[k].id, [])
    }

    lemma ListedOneMore(ids: seq<nat>, names: seq<Text>, p: seq<Span>, step: Span)
      requires ListsBackwards(ids, names, p)
      ensures ListsBackwards(ids + [step.id], names + [PieceOr(step.id, [])], [step] + p)
    {
    }

    method Backtrace(ghost m: Model, t: Text, bestId: array<int>, bestStart: array<int>) returns (r: EncodedIds)
      requires bestId.Length == bestStart.Length == |t| + 1
      requires forall j :: 0 <= j <= |t| ==>
        bestId[j] == Best(m, t, j).id && bestStart[j] == Best(m, t, j).start
      ensures if Best(m, t, |t|).score.At?
        then Lists(r, BackPath(m, t, |t|))
        else ListsUnknown(r)
    {
      var ids: seq<nat>, names: seq<Text> := [], [];
      var cursor: nat := |t|;
      ghost var reached := Best(m, t, |t|).score.At?;
      ghost var walked: seq<Span> := [];
      UnreachedCell(m, t, |t|, |t|);
      while cursor > 0
        invariant cursor <= |t|
        invariant !reached ==> cursor == |t| && ids == []
        invariant reached ==> Best(m, t, cursor).score.At?
        invariant reached ==> BackPath(m, t, |t|) == BackPath(m, t, cursor) + walked
        invariant ListsBackwards(ids, names, walked)
      {
        var id := bestId[cursor];
        var start := bestStart[cursor];
        if id < 0 {
          if reached {
            ghost var _ := LastStep(m, t, cursor);
            assert false;
          }
          ids := ids + [unkId];
          names := names + [PieceOr(unkId, Lit("<unk>"))];
          break;
        }
        assert reached;
        ghost var step := StepBack(m, t, cursor, walked);
        ListedOneMore(ids, names, walked, step);
        walked := [step] + walked;
        ids := ids + [id];
        names := names + [PieceOr(id, [])];
        cursor := start;
      }
      r := EncodedIds(Reverse(ids), Reverse(names));
    }
  }

  // ----- the prepared text

  /** Every space and nothing else is replaced, whatever the replacement is. */
  lemma {:induction false} ReplacedAt(before: Text, after: Text, replacement: Text)
    ensures ReplaceSpaces(before + [0x20] + after, replacement)
         == ReplaceSpaces(before, replacement) + replacement + ReplaceSpaces(after, replacement)
    ensures 0x20 !in before ==> ReplaceSpaces(before, replacement) == before
  {
    var t := before + [SPACE] + after;
    if before == [] {
      assert t[1..] == after;
    } else {
      assert t[0] == before[0] && t[1..] == before[1..] + [SPACE] + after;
      ReplacedAt(before[1..], after, replacement);
      var one := if before[0] == SPACE then replacement else [before[0]];
      Grouped(one, ReplaceSpaces(before[1..], replacement), replacement, ReplaceSpaces(after, replacement));
      assert before == [before[0]] + before[1..];
    }
  }

  lemma Grouped(a: Text, b: Text, c: Text, d: Text)
    ensures a + (b + c + d) == a + b + c + d
  {
  }

  // ----- what a complete table guarantees

  lemma ScoredIsFine(m: Model)
    requires AllScored(m)
    ensures NoStrandingPiece(m)
  {
    forall piece | piece in m.vocab && 0 < |piece| <= m.maxPieceLength ensures Started(m, piece) {
      assert piece[..|piece|] == piece;
    }
  }

  /** The branch for an unreached end is never taken, on any text, exactly when no vocabulary
      piece within the window lacks a scored piece at its start; a score for every id, as a
      model file without plain added tokens gives, is enough. */
  lemma AlwaysSegmented(m: Model)
    ensures NoStrandingPiece(m) <==> forall t :: Best(m, t, |t|).score.At?
    ensures AllScored(m) ==> NoStrandingPiece(m)
  {
    SegmentedIff(m);
    forall t ensures Best(m, t, |t|).score.At? <==> Segmented(m, t, |t|) {
      ViterbiOptimal(m, t, |t|);
    }
    if AllScored(m) {
      ScoredIsFine(m);
    }
  }

  /** A plain added token whose id has no score, on top of a fully scored listing, strands
      texts exactly when no listed piece starts it; the text that it is, for one. */
  lemma UnscoredTokenStrands(m: Model, content: Text, id: nat)
    requires AllScored(m) && content != [] && |content| <= m.maxPieceLength && id >= |m.scores|
    ensures var m' := m.(vocab := WithPlain(m.vocab, [AddedToken(id, content, false)]));
      var startless := forall k :: 0 < k < |content| ==> content[..k] !in m.vocab;
      && (NoStrandingPiece(m') <==> !startless)
      && (Best(m', content, |content|).score.NegInf? <==> startless)
  {
    var added := [AddedToken(id, content, false)];
    assert added[..|added| - 1] == [] && WithPlain(m.vocab, []) == m.vocab;
    var m' := m.(vocab := WithPlain(m.vocab, added));
    assert m'.vocab == m.vocab[content := id];
    assert content[..|content|] == content;
    forall k | 0 < k < |content| ensures content[..k] in m'.vocab <==> content[..k] in m.vocab {
      assert |content[..k]| != |content|;
    }
    assert Started(m', content) <==> exists k :: 0 < k < |content| && content[..k] in m.vocab;
    forall piece | piece in m'.vocab && 0 < |piece| <= m.maxPieceLength && piece != content ensures Started(m', piece) {
      assert piece[..|piece|] == piece;
    }
    SegmentedIff(m');
    PieceStrands(m', content);
    ViterbiOptimal(m', content, |content|);
  }

  /** The spans cut 0..n into consecutive stretches, each a vocabulary piece with its id and
      score, or one unknown character where no piece starts. No window, no recurrence. */
  ghost predicate Cuts(m: Model, t: Text, p: seq<Span>, n: nat) {
    Contiguous(p, n) && forall sp :: sp in p ==> IsSpan(m, t, sp)
  }

  ghost predicate Contiguous(p: seq<Span>, n: nat) {
    && (if p == [] then n == 0 else p[|p| - 1].end == n)
    && forall k :: 0 <= k < |p| ==> p[k].start == EndBefore(p, k)
  }

  ghost function EndBefore(p: seq<Span>, k: nat): nat
    requires k < |p|
  {
    if k == 0 then 0 else p[k - 1].end
  }

  lemma ContiguousLast(p: seq<Span>, n: nat)
    requires p != [] && p[|p| - 1].end == n
    ensures Contiguous(p, n) <==> Contiguous(p[..|p| - 1], p[|p| - 1].start)
  {
    var front := p[..|p| - 1];
    assert forall k :: 0 <= k < |front| ==> p[k] == front[k] && EndBefore(p, k) == EndBefore(front, k);
    assert EndBefore(p, |p| - 1) == if front == [] then 0 else front[|front| - 1].end;
  }

  lemma {:induction false} CutsAreTilings(m: Model, t: Text, p: seq<Span>, n: nat)
    requires WindowExact(m, t) && n <= |t|
    ensures Tiling(m, t, p, n) <==> Cuts(m, t, p, n)
    decreases |p|
  {
    if p != [] {
      var front, l := p[..|p| - 1], p[|p| - 1];
      assert l in p;
      if l.start < l.end == n {
        CutsAreTilings(m, t, front, l.start);
        assert EdgeOf(m, t, l.start, l.end) == Edge(l.id, l.weight) <==>
          IsSpan(m, t, Span(l.id, l.start, l.end, l.weight));
        ContiguousLast(p, n);
        assert p == front + [l];
      }
    }
  }

  /** The tokenizer's promise. Where no piece is stranding and none beyond the window matters,
      every prepared text is cut into consecutive pieces, and no other way to cut it, with
      pieces of any length, has a higher total. A stranding piece always costs some text. The
      constructor rules both out for a model file whose added tokens are all special. */
  lemma BestSegmentation(m: Model)
    requires m.maxPieceLength >= 1
    ensures NoStrandingPiece(m) && WindowSuffices(m) ==> forall t :: BestCut(m, t)
    ensures !NoStrandingPiece(m) ==> exists t :: Best(m, t, |t|).score.NegInf?
    ensures AllScored(m) && WindowCovers(m) ==> NoStrandingPiece(m) && WindowSuffices(m)
  {
    AlwaysSegmented(m);
    WindowLosesNothing(m);
    if NoStrandingPiece(m) && WindowSuffices(m) {
      forall t ensures BestCut(m, t) {
        BestCutOf(m, t);
      }
    }
  }

  /** The backtraced path is a cut of the text, with the array's score, that no cut beats. */
  ghost predicate BestCut(m: Model, t: Text) {
    && Best(m, t, |t|).score.At?
    && var p := BackPath(m, t, |t|);
       && Cuts(m, t, p, |t|) && Total(p) == Best(m, t, |t|).score.value
       && forall q :: Cuts(m, t, q, |t|) ==> Total(q) <= Total(p)
  }

  lemma BestCutOf(m: Model, t: Text)
    requires m.maxPieceLength >= 1 && NoStrandingPiece(m) && WindowSuffices(m)
    ensures BestCut(m, t)
  {
    AlwaysSegmented(m);
    ViterbiOptimal(m, t, |t|);
    WindowExactOn(m, t);
    CutsAreTilings(m, t, BackPath(m, t, |t|), |t|);
    forall q | Cuts(m, t, q, |t|) ensures Total(q) <= Total(BackPath(m, t, |t|)) {
      CutsAreTilings(m, t, q, |t|);
    }
  }

  function Spelled(pieces: seq<Text>, p: seq<Span>): Text {
    if p == [] then []
    else Spelled(pieces, p[..|p| - 1]) + (if p[|p| - 1].id < |pieces| then pieces[p[|p| - 1].id] else [])
  }

  ghost predicate KnownSpan(m: Model, t: Text, sp: Span) {
    sp.start < sp.end <= |t| && t[sp.start..sp.end] in m.vocab
  }

  /** Each id names exactly its span: where no character was unknown, the returned pieces
      spell the prepared text. */
  lemma {:induction false} PiecesSpellText(m: Model, t: Text, p: seq<Span>, n: nat, pieces: seq<Text>)
    requires n <= |t| && Cuts(m, t, p, n)
    requires forall piece :: piece in m.vocab ==> m.vocab[piece] < |pieces| && pieces[m.vocab[piece]] == piece
    requires forall sp :: sp in p ==> KnownSpan(m, t, sp)
    ensures Spelled(pieces, p) == t[..n]
    decreases |p|
  {
    if p != [] {
      var front, l := p[..|p| - 1], p[|p| - 1];
      assert l in p && IsSpan(m, t, l) && KnownSpan(m, t, l);
      ContiguousLast(p, n);
      assert p == front + [l];
      PiecesSpellText(m, t, front, l.start, pieces);
      assert t[..n] == t[..l.start] + t[l.start..n];
    }
  }
}
