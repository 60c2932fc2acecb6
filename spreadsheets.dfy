/**
 * The `spreadsheets` table and its repository
 * (src/postgres/repositories/spreadsheets.repository.ts): the list of
 * active target spreadsheets, oldest first, and the update that stamps a
 * spreadsheet's last synchronisation time.
 */
module Spreadsheets {
  import opened Wrappers
  import opened TariffTypes

  /** A row of the `spreadsheets` table; `lastSyncedAt` is NULL until the first synchronisation. */
  datatype StoredSpreadsheet = StoredSpreadsheet(
    spreadsheetId: string,
    sheetName: string,
    isActive: bool,
    lastSyncedAt: Option<Instant>,
    createdAt: Instant,
    updatedAt: Instant)

  /** `SpreadsheetRow`: what the repository hands to its callers (`null` is `None`). */
  datatype SpreadsheetRow = SpreadsheetRow(
    spreadsheetId: string,
    sheetName: string,
    isActive: bool,
    lastSyncedAt: Option<Instant>,
    createdAt: Instant,
    updatedAt: Instant)

  function ToRow(s: StoredSpreadsheet): (r: SpreadsheetRow)
    ensures r.lastSyncedAt.None? <==> s.lastSyncedAt.None?
    ensures r.spreadsheetId == s.spreadsheetId && r.createdAt == s.createdAt && r.isActive == s.isActive
    ensures r.sheetName == s.sheetName && r.updatedAt == s.updatedAt
    ensures r.lastSyncedAt.Some? ==> r.lastSyncedAt.value == s.lastSyncedAt.value
  {
    SpreadsheetRow(s.spreadsheetId, s.sheetName, s.isActive,
                   if s.lastSyncedAt.Some? then Some(s.lastSyncedAt.value) else None,
                   s.createdAt, s.updatedAt)
  }

  /** `where("is_active", true)`. */
  function FilterActive(rows: seq<StoredSpreadsheet>): (r: seq<StoredSpreadsheet>)
    ensures forall x :: x in r ==> x.isActive
    ensures multiset(r) <= multiset(rows)
    ensures forall x :: x in rows && x.isActive ==> multiset(r)[x] == multiset(rows)[x]
  {
    if rows == [] then []
    else
      var rest := FilterActive(rows[1..]);
      assert rows == [rows[0]] + rows[1..];
      if rows[0].isActive then [rows[0]] + rest else rest
  }

  predicate SortedByCreated(s: seq<StoredSpreadsheet>) {
    forall i, j :: 0 <= i < j < |s| ==> s[i].createdAt <= s[j].createdAt
  }

  /** Puts `x` before the first row created no earlier than it. */
  function Insert(x: StoredSpreadsheet, s: seq<StoredSpreadsheet>): seq<StoredSpreadsheet> {
    if s == [] || x.createdAt <= s[0].createdAt then [x] + s
    else [s[0]] + Insert(x, s[1..])
  }

  /** `orderBy("created_at", "asc")`, rows with equal `created_at` keeping table order. */
  function SortByCreated(s: seq<StoredSpreadsheet>): seq<StoredSpreadsheet> {
    if s == [] then [] else Insert(s[0], SortByCreated(s[1..]))
  }

  lemma {:induction false} InsertKeepsRows(x: StoredSpreadsheet, s: seq<StoredSpreadsheet>)
    ensures multiset(Insert(x, s)) == multiset(s) + multiset{x}
  {
    if s != [] && x.createdAt > s[0].createdAt {
      InsertKeepsRows(x, s[1..]);
      assert s == [s[0]] + s[1..];
    }
  }

  lemma {:induction false} InsertSorted(x: StoredSpreadsheet, s: seq<StoredSpreadsheet>)
    requires SortedByCreated(s)
    ensures SortedByCreated(Insert(x, s))
  {
    if s != [] && x.createdAt > s[0].createdAt {
      var rest := Insert(x, s[1..]);
      InsertSorted(x, s[1..]);
      InsertKeepsRows(x, s[1..]);
      forall j | 0 <= j < |rest| ensures s[0].createdAt <= rest[j].createdAt {
        assert rest[j] in multiset(rest);
        if rest[j] != x {
          assert rest[j] in multiset(s[1..]);
          var k :| 0 <= k < |s[1..]| && s[1..][k] == rest[j];
          assert s[k + 1] == rest[j];
        }
      }
      assert Insert(x, s) == [s[0]] + rest;
    }
  }

  /** The sort orders the rows by creation time and keeps every row, as often as it occurs. */
  lemma {:induction false} SortByCreatedSorts(s: seq<StoredSpreadsheet>)
    ensures SortedByCreated(SortByCreated(s))
    ensures multiset(SortByCreated(s)) == multiset(s)
  {
    if s != [] {
      SortByCreatedSorts(s[1..]);
      InsertSorted(s[0], SortByCreated(s[1..]));
      InsertKeepsRows(s[0], SortByCreated(s[1..]));
      assert s == [s[0]] + s[1..];
    }
  }

  function MapRows(s: seq<StoredSpreadsheet>): (r: seq<SpreadsheetRow>)
    ensures |r| == |s|
    ensures forall i :: 0 <= i < |s| ==> r[i] == ToRow(s[i])
  {
    seq(|s|, i requires 0 <= i < |s| => ToRow(s[i]))
  }

  /** `getActiveSpreadsheets()`. */
  function ActiveSpreadsheets(rows: seq<StoredSpreadsheet>): seq<SpreadsheetRow> {
    MapRows(SortByCreated(FilterActive(rows)))
  }

  /**
   * `r` is a possible answer of `getActiveSpreadsheets()`: the active rows,
   * each as often as stored, mapped one for one, oldest first (rows created
   * at the same instant in any order).
   */
  ghost predicate IsActiveListing(rows: seq<StoredSpreadsheet>, r: seq<SpreadsheetRow>) {
    && (exists s: seq<StoredSpreadsheet> {:trigger MapRows(s)} ::
          && multiset(s) == multiset(FilterActive(rows))
          && r == MapRows(s))
    && (forall i, j :: 0 <= i < j < |r| ==> r[i].createdAt <= r[j].createdAt)
  }

  /** The listing is a possible answer of the query. */
  lemma ActiveSpreadsheetsIsListing(rows: seq<StoredSpreadsheet>)
    ensures IsActiveListing(rows, ActiveSpreadsheets(rows))
  {
    var s := SortByCreated(FilterActive(rows));
    var r := MapRows(s);
    SortByCreatedSorts(FilterActive(rows));
    assert ActiveSpreadsheets(rows) == r;
    forall i, j | 0 <= i < j < |r| ensures r[i].createdAt <= r[j].createdAt {
      assert r[i] == ToRow(s[i]) && r[j] == ToRow(s[j]);
    }
  }

  /** A stored row is listed exactly when it is active. */
  lemma ListedIffActive(rows: seq<StoredSpreadsheet>, x: StoredSpreadsheet)
    requires x in rows
    ensures x.isActive <==> ToRow(x) in ActiveSpreadsheets(rows)
  {
    var s := SortByCreated(FilterActive(rows));
    var r := MapRows(s);
    SortByCreatedSorts(FilterActive(rows));
    if x.isActive {
      assert x in multiset(s);
      var i :| 0 <= i < |s| && s[i] == x;
      assert r[i] == ToRow(x);
    }
    if ToRow(x) in r {
      var i :| 0 <= i < |r| && r[i] == ToRow(x);
      assert s[i] in multiset(FilterActive(rows));
    }
  }

  // updateLastSyncedAt

  /** The row after the update at server time `now`: two columns change, and only for the matching id. */
  function Touch(x: StoredSpreadsheet, id: string, now: Instant): StoredSpreadsheet {
    if x.spreadsheetId == id then x.(lastSyncedAt := Some(now), updatedAt := now) else x
  }

  /** `update(...).where("spreadsheet_id", id)` over the whole table. */
  function Touched(rows: seq<StoredSpreadsheet>, id: string, now: Instant): (r: seq<StoredSpreadsheet>)
    ensures |r| == |rows|
    ensures forall i :: 0 <= i < |rows| ==> r[i] == Touch(rows[i], id, now)
  {
    if rows == [] then [] else [Touch(rows[0], id, now)] + Touched(rows[1..], id, now)
  }

  /** Rows with another id are untouched; a matching row changes in its two time columns and nowhere else. */
  lemma TouchedChangesOnlyMatching(rows: seq<StoredSpreadsheet>, id: string, now: Instant, i: nat)
    requires i < |rows|
    ensures rows[i].spreadsheetId != id ==> Touched(rows, id, now)[i] == rows[i]
    ensures rows[i].spreadsheetId == id ==>
      && Touched(rows, id, now)[i].lastSyncedAt == Some(now) && Touched(rows, id, now)[i].updatedAt == now
      && Touched(rows, id, now)[i].(lastSyncedAt := rows[i].lastSyncedAt, updatedAt := rows[i].updatedAt) == rows[i]
  {
  }

  /** Stamping twice is stamping once with the later time. */
  lemma TouchedTwice(rows: seq<StoredSpreadsheet>, id: string, t1: Instant, t2: Instant)
    ensures Touched(Touched(rows, id, t1), id, t2) == Touched(rows, id, t2)
  {
  }

  lemma {:induction false} FilterTouched(rows: seq<StoredSpreadsheet>, id: string, now: Instant)
    ensures FilterActive(Touched(rows, id, now)) == Touched(FilterActive(rows), id, now)
  {
    if rows != [] {
      FilterTouched(rows[1..], id, now);
      assert Touched(rows, id, now)[1..] == Touched(rows[1..], id, now);
    }
  }

  lemma ConsTouched(x: StoredSpreadsheet, s: seq<StoredSpreadsheet>, id: string, now: Instant)
    ensures Touched([x] + s, id, now) == [Touch(x, id, now)] + Touched(s, id, now)
  {
    assert ([x] + s)[1..] == s;
  }

  lemma {:induction false} InsertTouched(x: StoredSpreadsheet, s: seq<StoredSpreadsheet>, id: string, now: Instant)
    ensures Insert(Touch(x, id, now), Touched(s, id, now)) == Touched(Insert(x, s), id, now)
  {
    var ts := Touched(s, id, now);
    if s != [] && x.createdAt > s[0].createdAt {
      assert ts[1..] == Touched(s[1..], id, now);
      InsertTouched(x, s[1..], id, now);
      ConsTouched(s[0], Insert(x, s[1..]), id, now);
    } else {
      ConsTouched(x, s, id, now);
    }
  }

  lemma {:induction false} SortTouched(s: seq<StoredSpreadsheet>, id: string, now: Instant)
    ensures SortByCreated(Touched(s, id, now)) == Touched(SortByCreated(s), id, now)
  {
    if s != [] {
      SortTouched(s[1..], id, now);
      assert Touched(s, id, now)[1..] == Touched(s[1..], id, now);
      InsertTouched(s[0], SortByCreated(s[1..]), id, now);
    }
  }

  function Ids(r: seq<SpreadsheetRow>): (ids: seq<string>)
    ensures |ids| == |r|
    ensures forall i :: 0 <= i < |r| ==> ids[i] == r[i].spreadsheetId
  {
    seq(|r|, i requires 0 <= i < |r| => r[i].spreadsheetId)
  }

  /** Recording a synchronisation changes neither which spreadsheets are targets nor their order. */
  lemma TouchKeepsTargets(rows: seq<StoredSpreadsheet>, id: string, now: Instant)
    ensures Ids(ActiveSpreadsheets(Touched(rows, id, now))) == Ids(ActiveSpreadsheets(rows))
  {
    FilterTouched(rows, id, now);
    SortTouched(FilterActive(rows), id, now);
  }

  /** The repository's view of the table. */
  class SpreadsheetRegistry {
    var rows: seq<StoredSpreadsheet>

    constructor (initial: seq<StoredSpreadsheet>)
      ensures rows == initial
    {
      rows := initial;
    }

    /** `getActiveSpreadsheets()`, answered with ties in table order. */
    method GetActiveSpreadsheets() returns (r: seq<SpreadsheetRow>)
      ensures IsActiveListing(rows, r)
      ensures forall x :: x in rows ==> (x.isActive <==> ToRow(x) in r)
    {
      r := ActiveSpreadsheets(rows);
      ActiveSpreadsheetsIsListing(rows);
      forall x | x in rows ensures x.isActive <==> ToRow(x) in r {
        ListedIffActive(rows, x);
      }
    }

    /** `updateLastSyncedAt(id)` at server time `now`. */
    method UpdateLastSyncedAt(id: string, now: Instant)
      modifies this
      ensures rows == Touched(old(rows), id, now)
    {
      rows := Touched(rows, id, now);
    }
  }
}
