/**
 `readAll`: a tenant's events in ledger order, fetched in keyset batches.
 */
module Replay {
  import opened Utf16
  import opened JsonText
  import opened Chain

  /** `(a.stream_id, a.seq) < (b.stream_id, b.seq)` as SQL compares rows. */
  predicate KeyLess(stream: Text, seqNo: nat, other: Text, otherSeq: nat) {
    Less(stream, other) || (stream == other && seqNo < otherSeq)
  }

  predicate Before(a: Event, b: Event) {
    KeyLess(a.stream, a.seqNo, b.stream, b.seqNo)
  }

  predicate Wanted(e: Event, tenant: Text, upToSeq: Option<nat>, lastStream: Text, lastSeq: nat) {
    && e.tenant == tenant && (upToSeq.None? || e.seqNo <= upToSeq.value)
    && KeyLess(lastStream, lastSeq, e.stream, e.seqNo)
  }

  function Select(table: seq<Event>, tenant: Text, upToSeq: Option<nat>, lastStream: Text, lastSeq: nat):
      (r: seq<Event>)
    ensures forall e :: e in r <==> e in table && Wanted(e, tenant, upToSeq, lastStream, lastSeq)
  {
    if table == [] then []
    else
      assert table == [table[0]] + table[1..];
      var rest := Select(table[1..], tenant, upToSeq, lastStream, lastSeq);
      if Wanted(table[0], tenant, upToSeq, lastStream, lastSeq) then [table[0]] + rest else rest
  }

  function InsertInOrder(e: Event, s: seq<Event>): (r: seq<Event>)
    ensures multiset(r) == multiset(s) + multiset{e}
  {
    if s == [] || Before(e, s[0]) then
      assert [e] + s == [e] + s;
      [e] + s
    else
      assert s == [s[0]] + s[1..];
      [s[0]] + InsertInOrder(e, s[1..])
  }

  /** `ORDER BY stream_id ASC, seq ASC` */
  function InOrder(s: seq<Event>): (r: seq<Event>)
    ensures multiset(r) == multiset(s)
  {
    if s == [] then []
    else
      assert s == [s[0]] + s[1..];
      InsertInOrder(s[0], InOrder(s[1..]))
  }

  function Take(s: seq<Event>, limit: nat): seq<Event> {
    if |s| <= limit then s else s[..limit]
  }

  /** One query of the loop. */
  function Batch(table: seq<Event>, tenant: Text, upToSeq: Option<nat>, lastStream: Text, lastSeq: nat,
      limit: nat): seq<Event> {
    Take(InOrder(Select(table, tenant, upToSeq, lastStream, lastSeq)), limit)
  }

  /** Everything a single scan would return. */
  function Scan(table: seq<Event>, tenant: Text, upToSeq: Option<nat>): seq<Event> {
    InOrder(Select(table, tenant, upToSeq, [], 0))
  }

  // ----- the order

  ghost predicate InLedgerOrder(s: seq<Event>) {
    forall i, j :: 0 <= i < j < |s| ==> Before(s[i], s[j])
  }

  /** UNIQUE (tenant_id, stream_id, seq), and every sequence number at least 1. */
  ghost predicate TableOk(table: seq<Event>) {
    && (forall i, j :: 0 <= i < j < |table| ==>
         !(table[i].tenant == table[j].tenant && table[i].stream == table[j].stream &&
           table[i].seqNo == table[j].seqNo))
    && forall e :: e in table ==> e.seqNo >= 1
  }

  ghost predicate KeysDiffer(s: seq<Event>) {
    forall i, j :: 0 <= i < j < |s| ==> s[i].stream != s[j].stream || s[i].seqNo != s[j].seqNo
  }

  lemma KeyLessTransitive(a: Text, m: nat, b: Text, n: nat, c: Text, k: nat)
    requires KeyLess(a, m, b, n) && KeyLess(b, n, c, k)
    ensures KeyLess(a, m, c, k)
  {
    if Less(a, b) && Less(b, c) {
      LessTransitive(a, b, c);
    }
  }

  lemma KeyLessIrreflexive(a: Text, m: nat)
    ensures !KeyLess(a, m, a, m)
  {
    LessIrreflexive(a);
  }

  lemma KeyLessTotal(a: Text, m: nat, b: Text, n: nat)
    ensures (a == b && m == n) || KeyLess(a, m, b, n) || KeyLess(b, n, a, m)
  {
    LessTotal(a, b);
  }

  lemma {:induction false} InsertOrders(e: Event, s: seq<Event>)
    requires InLedgerOrder(s) && forall x :: x in s ==> x.stream != e.stream || x.seqNo != e.seqNo
    ensures InLedgerOrder(InsertInOrder(e, s))
  {
    if s != [] {
      KeyLessTotal(e.stream, e.seqNo, s[0].stream, s[0].seqNo);
      assert s[0] in s;
      if Before(e, s[0]) {
        forall j | 0 <= j < |s| ensures Before(e, s[j]) {
          if j > 0 {
            KeyLessTransitive(e.stream, e.seqNo, s[0].stream, s[0].seqNo, s[j].stream, s[j].seqNo);
          }
        }
      } else {
        InsertOrders(e, s[1..]);
        var r := InsertInOrder(e, s[1..]);
        forall j | 0 <= j < |r| ensures Before(s[0], r[j]) {
          assert r[j] in multiset(r);
          assert r[j] == e || r[j] in s[1..];
        }
      }
    }
  }

  lemma {:induction false} OrderOrders(s: seq<Event>)
    requires KeysDiffer(s)
    ensures InLedgerOrder(InOrder(s))
  {
    if s != [] {
      OrderOrders(s[1..]);
      forall x | x in InOrder(s[1..]) ensures x.stream != s[0].stream || x.seqNo != s[0].seqNo {
        assert x in multiset(InOrder(s[1..]));
        assert x in s[1..];
        var i :| 1 <= i < |s| && s[i] == x;
      }
      InsertOrders(s[0], InOrder(s[1..]));
    }
  }

  lemma {:induction false} SelectDiffers(table: seq<Event>, tenant: Text, upToSeq: Option<nat>, lastStream: Text,
      lastSeq: nat)
    requires TableOk(table)
    ensures KeysDiffer(Select(table, tenant, upToSeq, lastStream, lastSeq))
  {
    if table != [] {
      SelectDiffers(table[1..], tenant, upToSeq, lastStream, lastSeq);
      var rest := Select(table[1..], tenant, upToSeq, lastStream, lastSeq);
      if Wanted(table[0], tenant, upToSeq, lastStream, lastSeq) {
        forall j | 0 <= j < |rest| ensures rest[j].stream != table[0].stream || rest[j].seqNo != table[0].seqNo {
          assert rest[j] in rest;
          var i :| 1 <= i < |table| && table[i] == rest[j];
        }
      }
    }
  }

  /** Ordered lists with the same members are the same list. */
  lemma {:induction false} OrderUnique(a: seq<Event>, b: seq<Event>)
    requires InLedgerOrder(a) && InLedgerOrder(b) && forall e :: e in a <==> e in b
    ensures a == b
    decreases |a|
  {
    if b != [] {
      assert b[0] in a;
    }
    if a != [] {
      assert a[0] in b;
      if a[0] != b[0] {
        MemberAfter(a, b[0]);
        MemberAfter(b, a[0]);
        KeyLessTransitive(a[0].stream, a[0].seqNo, b[0].stream, b[0].seqNo, a[0].stream, a[0].seqNo);
        KeyLessIrreflexive(a[0].stream, a[0].seqNo);
      }
      forall e ensures e in a[1..] <==> e in b[1..] {
        TailMember(a, e);
        TailMember(b, e);
      }
      OrderUnique(a[1..], b[1..]);
      assert a == [a[0]] + a[1..] && b == [b[0]] + b[1..];
    }
  }

  lemma MemberAfter(a: seq<Event>, e: Event)
    requires InLedgerOrder(a) && e in a && e != a[0]
    ensures Before(a[0], e)
  {
    var i :| 0 <= i < |a| && a[i] == e;
  }

  lemma TailMember(a: seq<Event>, e: Event)
    requires InLedgerOrder(a) && a != []
    ensures e in a[1..] <==> e in a && e != a[0]
  {
    KeyLessIrreflexive(a[0].stream, a[0].seqNo);
    if e in a[1..] {
      var i :| 1 <= i < |a| && a[i] == e;
      assert Before(a[0], a[i]);
    }
  }

  // ----- a batch continues the scan

  /** Where the reader stands after k events. */
  function LastStream(all: seq<Event>, k: nat): Text
    requires k <= |all|
  {
    if k == 0 then [] else all[k - 1].stream
  }

  function LastSeqRead(all: seq<Event>, k: nat): nat
    requires k <= |all|
  {
    if k == 0 then 0 else all[k - 1].seqNo
  }

  lemma ScanOrdered(table: seq<Event>, tenant: Text, upToSeq: Option<nat>, lastStream: Text, lastSeq: nat)
    requires TableOk(table)
    ensures var r := InOrder(Select(table, tenant, upToSeq, lastStream, lastSeq));
      && InLedgerOrder(r)
      && forall e :: e in r <==> e in table && Wanted(e, tenant, upToSeq, lastStream, lastSeq)
  {
    var picked := Select(table, tenant, upToSeq, lastStream, lastSeq);
    SelectDiffers(table, tenant, upToSeq, lastStream, lastSeq);
    OrderOrders(picked);
    forall e ensures e in InOrder(picked) <==> e in picked {
      assert e in InOrder(picked) <==> e in multiset(InOrder(picked));
      assert e in picked <==> e in multiset(picked);
    }
  }

  lemma BatchContinues(table: seq<Event>, tenant: Text, upToSeq: Option<nat>, k: nat)
    requires TableOk(table) && k <= |Scan(table, tenant, upToSeq)|
    ensures var all := Scan(table, tenant, upToSeq);
      InOrder(Select(table, tenant, upToSeq, LastStream(all, k), LastSeqRead(all, k))) == all[k..]
  {
    var all := Scan(table, tenant, upToSeq);
    ScanOrdered(table, tenant, upToSeq, [], 0);
    if k == 0 {
      assert all[0..] == all;
    } else {
      var last := all[k - 1];
      var rest := InOrder(Select(table, tenant, upToSeq, last.stream, last.seqNo));
      ScanOrdered(table, tenant, upToSeq, last.stream, last.seqNo);
      assert last in all;
      forall e ensures e in rest <==> e in all[k..] {
        AfterLast(all, k, e);
        if e in rest {
          KeyLessTransitive([], 0, last.stream, last.seqNo, e.stream, e.seqNo);
        }
      }
      OrderUnique(rest, all[k..]);
    }
  }

  lemma AfterLast(all: seq<Event>, k: nat, e: Event)
    requires InLedgerOrder(all) && 0 < k <= |all|
    ensures e in all[k..] <==> e in all && Before(all[k - 1], e)
  {
    if e in all[k..] {
      var i :| k <= i < |all| && all[i] == e;
    }
    if e in all && Before(all[k - 1], e) {
      var i :| 0 <= i < |all| && all[i] == e;
      if i < k {
        if i < k - 1 {
          assert Before(all[i], all[k - 1]);
          KeyLessTransitive(e.stream, e.seqNo, all[k - 1].stream, all[k - 1].seqNo, e.stream, e.seqNo);
        }
        KeyLessIrreflexive(e.stream, e.seqNo);
        assert false;
      }
      assert all[k..][i - k] == e;
    }
  }

  lemma TakeExtends(all: seq<Event>, k: nat, rows: seq<Event>, limit: nat)
    requires k <= |all| && rows == Take(all[k..], limit)
    ensures k + |rows| <= |all| && all[..k] + rows == all[..k + |rows|]
    ensures |rows| < limit ==> k + |rows| == |all|
    ensures rows != [] ==> all[k + |rows| - 1] == rows[|rows| - 1]
  {
    assert rows == all[k..k + |rows|];
  }

  lemma BatchStep(table: seq<Event>, tenant: Text, upToSeq: Option<nat>, limit: nat, all: seq<Event>, k: nat,
      rows: seq<Event>)
    requires TableOk(table) && all == Scan(table, tenant, upToSeq) && k <= |all|
    requires rows == Batch(table, tenant, upToSeq, LastStream(all, k), LastSeqRead(all, k), limit)
    ensures k + |rows| <= |all| && all[..k] + rows == all[..k + |rows|]
    ensures |rows| < limit ==> k + |rows| == |all|
    ensures limit == 0 ==> rows == []
    ensures rows != [] ==>
      LastStream(all, k + |rows|) == rows[|rows| - 1].stream && LastSeqRead(all, k + |rows|) == rows[|rows| - 1].seqNo
  {
    BatchContinues(table, tenant, upToSeq, k);
    TakeExtends(all, k, rows, limit);
  }

  /** Hands a batch to the consumer, row by row, and remembers the last key. */
  method Deliver(read: seq<Event>, rows: seq<Event>) returns (out: seq<Event>, lastStream: Text, lastSeq: nat)
    requires rows != []
    ensures out == read + rows
    ensures lastStream == rows[|rows| - 1].stream && lastSeq == rows[|rows| - 1].seqNo
  {
    out, lastStream, lastSeq := read, [], 0;
    for i := 0 to |rows|
      invariant out == read + rows[..i]
      invariant i > 0 ==> lastStream == rows[i - 1].stream && lastSeq == rows[i - 1].seqNo
    {
      lastStream := rows[i].stream;
      lastSeq := rows[i].seqNo;
      out := out + [rows[i]];
    }
    assert rows[..|rows|] == rows;
  }

  /** Keyset replay is one scan, whatever the batch size, provided it is not zero; with zero
      the first query is empty and nothing is read. */
  method ReadAll(table: seq<Event>, tenant: Text, upToSeq: Option<nat>, batchSize: nat) returns (out: seq<Event>)
    requires TableOk(table)
    ensures out == if batchSize == 0 then [] else Scan(table, tenant, upToSeq)
  {
    out := [];
    var lastStream: Text, lastSeq: nat := [], 0;
    ghost var all := Scan(table, tenant, upToSeq);
    ghost var k: nat := 0;
    while true
      invariant k <= |all| && out == all[..k]
      invariant lastStream == LastStream(all, k) && lastSeq == LastSeqRead(all, k)
      invariant batchSize == 0 ==> out == []
      decreases |all| - k
    {
      var rows := Batch(table, tenant, upToSeq, lastStream, lastSeq, batchSize);
      BatchStep(table, tenant, upToSeq, batchSize, all, k, rows);
      if |rows| == 0 {
        return;
      }
      out, lastStream, lastSeq := Deliver(out, rows);
      k := k + |rows|;
      if |rows| < batchSize {
        return;
      }
    }
  }

  /** What that one scan contains: every event of the tenant up to the number, once, the streams
      ascending at their first different code unit and each stream's events by their number. */
  lemma ScanComplete(table: seq<Event>, tenant: Text, upToSeq: Option<nat>)
    requires TableOk(table)
    ensures var all := Scan(table, tenant, upToSeq);
      && (forall i, j :: 0 <= i < j < |all| ==>
           Precedes(all[i].stream, all[j].stream)
           || (all[i].stream == all[j].stream && all[i].seqNo < all[j].seqNo))
      && (forall e :: e in all <==> e in table && e.tenant == tenant && (upToSeq.None? || e.seqNo <= upToSeq.value))
      && forall i, j :: 0 <= i < j < |all| ==> all[i] != all[j]
  {
    ScanOrdered(table, tenant, upToSeq, [], 0);
    var all := Scan(table, tenant, upToSeq);
    forall i, j | 0 <= i < j < |all|
      ensures all[i] != all[j]
      ensures Precedes(all[i].stream, all[j].stream) || (all[i].stream == all[j].stream && all[i].seqNo < all[j].seqNo)
    {
      assert Before(all[i], all[j]);
      LessExact(all[i].stream, all[j].stream);
      KeyLessIrreflexive(all[i].stream, all[i].seqNo);
    }
    forall e | e in table ensures KeyLess([], 0, e.stream, e.seqNo) {
      assert e.stream == [] || Less([], e.stream);
    }
  }
}
