/** What the two guardian stores share: the application record, the `Map` that holds the
    records keyed by applicant id (a JavaScript `Map` iterates in key insertion order, and `set`
    on a present key keeps its place), the status filter of a listing, and the newest-first
    order a listing is sorted into. */
module Guardians {
  import opened JsSemantics

  datatype Status = Pending | Approved | Rejected

  /** The status as stored and as given in a listing filter. */
  function StatusName(s: Status): string {
    match s
    case Pending => "pending"
    case Approved => "approved"
    case Rejected => "rejected"
  }

  /** One application: an absent field (never written, or written as `undefined`) is None. */
  datatype Record = Record(wallet: string, note: Option<string>, status: Status, createdAt: Option<int>,
                           decidedBy: Option<string>, decidedAt: Option<int>, reason: Option<string>)

  /** A listed application: the record with its applicant id added. */
  datatype Row = Row(discordId: string, rec: Record)

  /** The sort key of a listing: the creation time, 0 when absent. */
  function Stamp(r: Row): int {
    if r.rec.createdAt.Some? then r.rec.createdAt.value else 0
  }

  /** An empty filter lists every record; any other lists the records with that status. */
  predicate Wanted(rec: Record, filter: string) {
    filter == "" || StatusName(rec.status) == filter
  }

  /** The store: `order` lists each key once, in insertion order, and exactly the keys. */
  ghost predicate MapShape(order: seq<string>, records: map<string, Record>) {
    && (forall i, j :: 0 <= i < j < |order| ==> order[i] != order[j])
    && (forall id :: id in records <==> id in order)
  }

  /** The key order after `set(id, ...)`: a new key goes last, a present one stays. */
  function SetOrder(order: seq<string>, records: map<string, Record>, id: string): seq<string> {
    if id in records then order else order + [id]
  }

  lemma SetKeepsShape(order: seq<string>, records: map<string, Record>, id: string, rec: Record)
    requires MapShape(order, records)
    ensures MapShape(SetOrder(order, records, id), records[id := rec])
    ensures forall k :: k in order ==> k in SetOrder(order, records, id)
  {
  }

  /** The rows the listing loop pushes: each key in insertion order whose record is wanted. */
  function Selected(order: seq<string>, records: map<string, Record>, filter: string): seq<Row>
    requires forall i :: 0 <= i < |order| ==> order[i] in records
    decreases |order|
  {
    if order == [] then []
    else
      var id := order[|order| - 1];
      Selected(order[..|order| - 1], records, filter)
        + (if Wanted(records[id], filter) then [Row(id, records[id])] else [])
  }

  lemma {:induction false} SelectedFrom(order: seq<string>, records: map<string, Record>, filter: string, row: Row)
    requires forall i :: 0 <= i < |order| ==> order[i] in records
    ensures row in Selected(order, records, filter) <==>
              row.discordId in order && row.rec == records[row.discordId] && Wanted(row.rec, filter)
    decreases |order|
  {
    if order != [] {
      var init := order[..|order| - 1];
      SelectedFrom(init, records, filter, row);
      assert order == init + [order[|order| - 1]];
    }
  }

  /** A row is listed exactly when it is a stored record, tagged with its own key, that the
      filter wants. */
  lemma SelectedMembers(order: seq<string>, records: map<string, Record>, filter: string, row: Row)
    requires MapShape(order, records)
    ensures row in Selected(order, records, filter) <==>
              row.discordId in records && row.rec == records[row.discordId] && Wanted(row.rec, filter)
  {
    SelectedFrom(order, records, filter, row);
  }

  predicate NewestFirstOrder(rows: seq<Row>) {
    forall i, j :: 0 <= i < j < |rows| ==> Stamp(rows[i]) >= Stamp(rows[j])
  }

  /** Insert `r` into rows sorted newest first, after every row at least as new. */
  function Place(rows: seq<Row>, r: Row): (out: seq<Row>)
    ensures multiset(out) == multiset(rows) + multiset{r}
    decreases |rows|
  {
    if rows == [] then [r]
    else if Stamp(rows[0]) < Stamp(r) then [r] + rows
    else
      assert rows == [rows[0]] + rows[1..];
      [rows[0]] + Place(rows[1..], r)
  }

  /** `sort((a, b) => (b.createdAt ?? 0) - (a.createdAt ?? 0))`: a stable sort, newest first. */
  function NewestFirst(rows: seq<Row>): (out: seq<Row>)
    decreases |rows|
  {
    if rows == [] then [] else Place(NewestFirst(rows[..|rows| - 1]), rows[|rows| - 1])
  }

  lemma {:induction false} PlaceSorted(rows: seq<Row>, r: Row)
    requires NewestFirstOrder(rows)
    ensures NewestFirstOrder(Place(rows, r))
    decreases |rows|
  {
    if rows != [] && Stamp(rows[0]) >= Stamp(r) {
      var tail := Place(rows[1..], r);
      PlaceSorted(rows[1..], r);
      forall x | x in tail ensures Stamp(rows[0]) >= Stamp(x) {
        assert x in multiset(tail);
        if x != r {
          assert x in multiset(rows[1..]);
        }
      }
    }
  }

  /** The listing is sorted newest first. */
  lemma {:induction false} NewestFirstSorts(rows: seq<Row>)
    ensures NewestFirstOrder(NewestFirst(rows))
    decreases |rows|
  {
    if rows != [] {
      var init := rows[..|rows| - 1];
      NewestFirstSorts(init);
      PlaceSorted(NewestFirst(init), rows[|rows| - 1]);
    }
  }

  /** The listing holds exactly the rows it was given. */
  lemma {:induction false} NewestFirstPermutes(rows: seq<Row>)
    ensures multiset(NewestFirst(rows)) == multiset(rows)
    decreases |rows|
  {
    if rows != [] {
      var init := rows[..|rows| - 1];
      NewestFirstPermutes(init);
      assert rows == init + [rows[|rows| - 1]];
    }
  }

  /** The rows with a given sort key, in their order. */
  function WithStamp(rows: seq<Row>, k: int): seq<Row>
    decreases |rows|
  {
    if rows == [] then [] else (if Stamp(rows[0]) == k then [rows[0]] else []) + WithStamp(rows[1..], k)
  }

  lemma WithStampCons(x: Row, ys: seq<Row>, k: int)
    ensures WithStamp([x] + ys, k) == (if Stamp(x) == k then [x] else []) + WithStamp(ys, k)
  {
    assert ([x] + ys)[1..] == ys;
  }

  lemma {:induction false} WithStampAppend(a: seq<Row>, b: seq<Row>, k: int)
    ensures WithStamp(a + b, k) == WithStamp(a, k) + WithStamp(b, k)
    decreases |a|
  {
    if a == [] {
      assert a + b == b;
    } else {
      assert a + b == [a[0]] + (a[1..] + b);
      WithStampCons(a[0], a[1..] + b, k);
      WithStampAppend(a[1..], b, k);
      assert a == [a[0]] + a[1..];
      WithStampCons(a[0], a[1..], k);
    }
  }

  lemma {:induction false} PlaceStable(rows: seq<Row>, r: Row, k: int)
    requires NewestFirstOrder(rows)
    ensures WithStamp(Place(rows, r), k) == WithStamp(rows, k) + (if Stamp(r) == k then [r] else [])
    decreases |rows|
  {
    if rows == [] {
      WithStampCons(r, [], k);
    } else if Stamp(rows[0]) < Stamp(r) {
      WithStampCons(r, rows, k);
      if Stamp(r) == k {
        OlderMissKey(rows, k);
      }
    } else {
      var tail := rows[1..];
      assert NewestFirstOrder(tail);
      PlaceStable(tail, r, k);
      WithStampCons(rows[0], Place(tail, r), k);
      assert rows == [rows[0]] + tail;
      WithStampCons(rows[0], tail, k);
    }
  }

  /** In rows sorted newest first whose first row is older than `k`, no row has key `k`. */
  lemma {:induction false} OlderMissKey(rows: seq<Row>, k: int)
    requires NewestFirstOrder(rows) && rows != [] && Stamp(rows[0]) < k
    ensures WithStamp(rows, k) == []
    decreases |rows|
  {
    if |rows| > 1 {
      OlderMissKey(rows[1..], k);
    }
  }

  /** The sort is stable: the rows sharing a key keep their relative order. */
  lemma {:induction false} NewestFirstStable(rows: seq<Row>, k: int)
    ensures WithStamp(NewestFirst(rows), k) == WithStamp(rows, k)
    decreases |rows|
  {
    if rows != [] {
      var init := rows[..|rows| - 1];
      var r := rows[|rows| - 1];
      var extra := if Stamp(r) == k then [r] else [];
      NewestFirstStable(init, k);
      SortedPrefix(rows);
      PlaceStable(NewestFirst(init), r, k);
      assert WithStamp(NewestFirst(rows), k) == WithStamp(init, k) + extra;
      assert rows == init + [r];
      WithStampAppend(init, [r], k);
      WithStampCons(r, [], k);
      assert [r] + [] == [r];
    }
  }

  lemma SortedPrefix(rows: seq<Row>)
    requires rows != []
    ensures NewestFirstOrder(NewestFirst(rows[..|rows| - 1]))
    ensures NewestFirst(rows) == Place(NewestFirst(rows[..|rows| - 1]), rows[|rows| - 1])
  {
    NewestFirstSorts(rows[..|rows| - 1]);
  }

  /** The listing loop: push the wanted rows in key order, then sort them newest first. */
  method List(order: seq<string>, records: map<string, Record>, filter: string) returns (rows: seq<Row>)
    requires MapShape(order, records)
    ensures rows == NewestFirst(Selected(order, records, filter))
    ensures NewestFirstOrder(rows)
    ensures forall row :: row in rows <==>
              row.discordId in records && row.rec == records[row.discordId] && Wanted(row.rec, filter)
  {
    var arr := [];
    for i := 0 to |order|
      invariant arr == Selected(order[..i], records, filter)
    {
      var id := order[i];
      assert order[..i + 1][..i] == order[..i];
      if Wanted(records[id], filter) {
        arr := arr + [Row(id, records[id])];
      }
    }
    assert order[..|order|] == order;
    rows := NewestFirst(arr);
    NewestFirstSorts(arr);
    NewestFirstPermutes(arr);
    forall row ensures row in rows <==>
                 row.discordId in records && row.rec == records[row.discordId] && Wanted(row.rec, filter)
    {
      assert row in rows <==> row in multiset(rows);
      SelectedMembers(order, records, filter, row);
    }
  }
}
