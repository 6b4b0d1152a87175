/**
 `verifyChain`: the walk over a stream's rows, and exactly what its verdict says.
 */
module ChainCheck {
  import opened Utf16
  import opened JsonText
  import opened Chain

  datatype Reason = LinkMismatch | PrevMismatch

  datatype Report = Report(ok: bool, checked: nat, brokenAtSeq: Option<nat>, reason: Option<Reason>)

  predicate LinkHolds(sha: Text -> Text, row: Event) {
    row.linkHash == Some(Link(sha, row))
  }

  /** The predecessor hash the walk demands of row i. Started beyond sequence 1 it takes the
      first row's own `prev_hash`, not its content hash, as what the second must carry. */
  ghost function ExpectedPrev(fromSeq: nat, rows: seq<Event>, i: nat): Option<Text>
    requires i < |rows|
  {
    if i == 0 then None
    else if i == 1 && fromSeq > 1 then rows[0].prevHash
    else Some(rows[i - 1].contentHash)
  }

  ghost predicate RowHolds(sha: Text -> Text, fromSeq: nat, rows: seq<Event>, i: nat)
    requires i < |rows|
  {
    || (fromSeq > 1 && i == 0)
    || !rows[i].chained
    || (LinkHolds(sha, rows[i]) && rows[i].prevHash == ExpectedPrev(fromSeq, rows, i))
  }

  ghost predicate ChainHolds(sha: Text -> Text, fromSeq: nat, rows: seq<Event>) {
    forall i :: 0 <= i < |rows| ==> RowHolds(sha, fromSeq, rows, i)
  }

  ghost predicate FirstBroken(sha: Text -> Text, fromSeq: nat, rows: seq<Event>, k: nat) {
    && k < |rows| && !RowHolds(sha, fromSeq, rows, k)
    && forall i :: 0 <= i < k ==> RowHolds(sha, fromSeq, rows, i)
  }

  /** ok exactly when every row holds; otherwise the least failing row is named. */
  method VerifyChain(sha: Text -> Text, rows: seq<Event>, fromSeq: nat) returns (r: Report)
    ensures r.ok <==> ChainHolds(sha, fromSeq, rows)
    ensures r.ok ==> r == Report(true, |rows|, None, None)
    ensures !r.ok ==> exists k: nat ::
      FirstBroken(sha, fromSeq, rows, k)
      && r.checked == k + 1 && r.brokenAtSeq == Some(rows[k].seqNo)
      && r.reason == Some(if rows[k].linkHash == Some(Link(sha, rows[k])) then PrevMismatch else LinkMismatch)
  {
    var checked: nat := 0;
    var expectedPrev: Option<Text> := None;
    var first := true;
    for k := 0 to |rows|
      invariant checked == k && (first <==> k == 0)
      invariant k < |rows| ==> expectedPrev == ExpectedPrev(fromSeq, rows, k)
      invariant forall i :: 0 <= i < k ==> RowHolds(sha, fromSeq, rows, i)
    {
      var row := rows[k];
      checked := checked + 1;
      if first && fromSeq > 1 {
        expectedPrev := row.prevHash;
        first := false;
        continue;
      }
      first := false;
      if !row.chained {
        expectedPrev := Some(row.contentHash);
        continue;
      }
      var recomputed := Link(sha, row);
      if row.linkHash.None? || recomputed != row.linkHash.value {
        assert FirstBroken(sha, fromSeq, rows, k);
        return Report(false, checked, Some(row.seqNo), Some(LinkMismatch));
      }
      var prevMatches :=
        (expectedPrev.None? && row.prevHash.None?) ||
        (expectedPrev.Some? && row.prevHash.Some? && expectedPrev.value == row.prevHash.value);
      if !prevMatches {
        assert FirstBroken(sha, fromSeq, rows, k);
        return Report(false, checked, Some(row.seqNo), Some(PrevMismatch));
      }
      expectedPrev := Some(row.contentHash);
    }
    r := Report(true, checked, None, None);
  }

  // ----- what is always reported

  /** Change any field a link commits to in a chained row and leave its `link_hash`: the walk
      breaks at that row. */
  lemma ChangedFieldReported(sha: Text -> Text, fromSeq: nat, rows: seq<Event>, k: nat, row: Event)
    requires Injective(sha) && ChainHolds(sha, fromSeq, rows)
    requires k < |rows| && rows[k].chained && !(fromSeq > 1 && k == 0)
    requires row.chained && row.linkHash == rows[k].linkHash && !SameCommitment(row, rows[k])
    ensures FirstBroken(sha, fromSeq, rows[k := row], k)
  {
    var changed := rows[k := row];
    assert RowHolds(sha, fromSeq, rows, k);
    LinkCommits(sha, row, rows[k]);
    assert !RowHolds(sha, fromSeq, changed, k);
    forall i | 0 <= i < k ensures RowHolds(sha, fromSeq, changed, i) {
      assert RowHolds(sha, fromSeq, rows, i);
    }
  }

  /** Take a row that has a successor out of a sound chained stream: the walk from the start
      passes only if the row's content hash repeats its predecessor's. */
  lemma RemovedRowReported(sha: Text -> Text, rows: seq<Event>, k: nat)
    requires ChainHolds(sha, 1, rows) && forall i :: 0 <= i < |rows| ==> rows[i].chained
    requires k + 1 < |rows|
    ensures ChainHolds(sha, 1, rows[..k] + rows[k + 1..]) <==> k > 0 && rows[k].contentHash == rows[k - 1].contentHash
  {
    var cut := rows[..k] + rows[k + 1..];
    assert RowHolds(sha, 1, rows, k + 1);
    assert cut[k] == rows[k + 1];
    forall i | 0 <= i < |cut| && i != k ensures RowHolds(sha, 1, cut, i) {
      if i < k {
        assert RowHolds(sha, 1, rows, i);
      } else {
        assert RowHolds(sha, 1, rows, i + 1);
        assert cut[i] == rows[i + 1] && cut[i - 1] == rows[i];
      }
    }
    assert ChainHolds(sha, 1, cut) <==> RowHolds(sha, 1, cut, k);
  }

  // ----- a range that starts later

  /** A sound stretch of rows: each chained to the one before it. */
  ghost predicate SoundRange(sha: Text -> Text, rows: seq<Event>) {
    && (forall i :: 0 <= i < |rows| ==> rows[i].chained && LinkHolds(sha, rows[i]))
    && (forall i :: 1 <= i < |rows| ==> rows[i].prevHash == Some(rows[i - 1].contentHash))
  }

  /** A sound range of two or more rows that starts beyond sequence 1 is reported ok exactly
      when its first row repeats the content of the row before the range. */
  lemma LaterStart(sha: Text -> Text, fromSeq: nat, rows: seq<Event>)
    requires fromSeq > 1 && SoundRange(sha, rows) && |rows| >= 2
    ensures ChainHolds(sha, fromSeq, rows) <==> rows[0].prevHash == Some(rows[0].contentHash)
    ensures !ChainHolds(sha, fromSeq, rows) ==> FirstBroken(sha, fromSeq, rows, 1)
  {
    forall i | 0 <= i < |rows| && i != 1 ensures RowHolds(sha, fromSeq, rows, i) {
    }
    assert ChainHolds(sha, fromSeq, rows) <==> RowHolds(sha, fromSeq, rows, 1);
  }

  // ----- rows as `append` writes them

  /** `SELECT ... WHERE tenant, stream, seq between`, in table order. */
  function StreamRows(events: seq<Event>, tenant: Text, stream: Text, fromSeq: nat, upTo: Option<nat>):
      (rows: seq<Event>)
    ensures forall e :: e in rows <==>
      && e in events && e.tenant == tenant && e.stream == stream
      && fromSeq <= e.seqNo && (upTo.None? || e.seqNo <= upTo.value)
  {
    if events == [] then []
    else
      var n := |events| - 1;
      var e, before := events[n], StreamRows(events[..n], tenant, stream, fromSeq, upTo);
      assert events == events[..n] + [e];
      if e.tenant == tenant && e.stream == stream && Within(e, fromSeq, upTo) then before + [e] else before
  }

  predicate Within(e: Event, fromSeq: nat, upTo: Option<nat>) {
    fromSeq <= e.seqNo && (upTo.None? || e.seqNo <= upTo.value)
  }

  ghost predicate Ascending(rows: seq<Event>) {
    forall i, j :: 0 <= i < j < |rows| ==> rows[i].seqNo < rows[j].seqNo
  }

  /** What an append wrote: a chained row with its link, whose `prev_hash` is the content hash
      of the row just before it in the stream if there is one, and null otherwise. */
  ghost predicate Linked(sha: Text -> Text, rows: seq<Event>, e: Event) {
    && e.chained && LinkHolds(sha, e)
    && (forall p :: p in rows && p.seqNo + 1 == e.seqNo ==> e.prevHash == Some(p.contentHash))
    && ((forall p :: p in rows ==> p.seqNo + 1 != e.seqNo) ==> e.prevHash == None)
  }

  ghost predicate Adjacent(rows: seq<Event>, i: nat)
    requires 0 < i < |rows|
  {
    rows[i].seqNo == rows[i - 1].seqNo + 1
  }

  lemma RowAfterGap(sha: Text -> Text, rows: seq<Event>, i: nat)
    requires Ascending(rows) && i < |rows| && Linked(sha, rows, rows[i])
    requires i == 0 || !Adjacent(rows, i)
    ensures rows[i].prevHash == None
  {
    forall p | p in rows ensures p.seqNo + 1 != rows[i].seqNo {
      var j :| 0 <= j < |rows| && rows[j] == p;
      if j < i - 1 {
        assert rows[j].seqNo < rows[i - 1].seqNo < rows[i].seqNo;
      } else if j > i {
        assert rows[i].seqNo < rows[j].seqNo;
      }
    }
  }

  /** On rows that appends wrote, the walk from the start passes exactly when no sequence
      number is missing between two of them, and otherwise breaks at the first row after a
      missing number. */
  lemma GapsAreTheOnlyBreaks(sha: Text -> Text, rows: seq<Event>)
    requires Ascending(rows) && forall i :: 0 <= i < |rows| ==> Linked(sha, rows, rows[i])
    ensures forall i :: 0 <= i < |rows| ==> (RowHolds(sha, 1, rows, i) <==> i == 0 || Adjacent(rows, i))
    ensures ChainHolds(sha, 1, rows) <==> forall i :: 0 < i < |rows| ==> Adjacent(rows, i)
  {
    forall i | 0 <= i < |rows| ensures RowHolds(sha, 1, rows, i) <==> i == 0 || Adjacent(rows, i) {
      assert Linked(sha, rows, rows[i]);
      if i > 0 && Adjacent(rows, i) {
        assert rows[i - 1] in rows;
      } else {
        RowAfterGap(sha, rows, i);
      }
    }
  }
}
