/**
 * The table `wb_tariffs_box_daily` and its repository
 * (src/postgres/repositories/wbTariffs.repository.ts): `upsertTariffs`
 * inserts or merges on the unique key `(tariff_date, warehouse_name)`, and
 * `getLatestTariffsForDate` selects one day's rows ordered by
 * `box_delivery_coef_expr`.
 */
module TariffStore {
  import opened TariffTypes

  /** The unique key `(tariff_date, warehouse_name)`. */
  type TariffKey = (Day, string)

  /** The other columns of a stored row (the serial `id` is left out). */
  datatype StoredTariff = StoredTariff(
    geoName: string,
    rates: BoxRates,
    fetchedAt: Instant,
    createdAt: Instant,
    updatedAt: Instant)

  type TariffTable = map<TariffKey, StoredTariff>

  /** One element of the insert payload; `updatedAt` is the client clock read by `new Date()`. */
  datatype PayloadRow = PayloadRow(
    tariffDate: Day,
    warehouseName: string,
    geoName: string,
    rates: BoxRates,
    fetchedAt: Instant,
    updatedAt: Instant)

  function Key(p: PayloadRow): TariffKey {
    (p.tariffDate, p.warehouseName)
  }

  function RowKey(r: WarehouseRow): TariffKey {
    (r.tariffDate, r.warehouseName)
  }

  /** `rows.map(...)`: one payload element per row, all stamped with the same client time. */
  function ToPayload(rows: seq<WarehouseRow>, clientNow: Instant): (p: seq<PayloadRow>)
    ensures |p| == |rows|
    ensures forall i :: 0 <= i < |rows| ==>
      && Key(p[i]) == RowKey(rows[i])
      && p[i].geoName == rows[i].geoName && p[i].rates == rows[i].rates
      && p[i].fetchedAt == rows[i].fetchedAt && p[i].updatedAt == clientNow
  {
    seq(|rows|, i requires 0 <= i < |rows| =>
      PayloadRow(rows[i].tariffDate, rows[i].warehouseName, rows[i].geoName, rows[i].rates,
                 rows[i].fetchedAt, clientNow))
  }

  predicate DistinctKeys(p: seq<PayloadRow>) {
    forall i, j :: 0 <= i < j < |p| ==> Key(p[i]) != Key(p[j])
  }

  predicate DistinctRowKeys(rows: seq<WarehouseRow>) {
    forall i, j :: 0 <= i < j < |rows| ==> RowKey(rows[i]) != RowKey(rows[j])
  }

  function KeysOf(p: seq<PayloadRow>): set<TariffKey> {
    set i | 0 <= i < |p| :: Key(p[i])
  }

  /**
   * The row stored under `Key(p)` after the statement: on conflict every
   * non-key column takes the incoming value and `updated_at` the server's
   * `now()`, `created_at` staying; on insert `created_at` takes its default
   * `now()` and `updated_at` the payload's client time.
   */
  function Upserted(t: TariffTable, p: PayloadRow, serverNow: Instant): StoredTariff {
    var k := Key(p);
    if k in t then t[k].(geoName := p.geoName, rates := p.rates, fetchedAt := p.fetchedAt, updatedAt := serverNow)
    else StoredTariff(p.geoName, p.rates, p.fetchedAt, serverNow, p.updatedAt)
  }

  /** `insert(payload).onConflict(["tariff_date", "warehouse_name"]).merge(...)`. */
  function ApplyUpsert(t: TariffTable, p: seq<PayloadRow>, serverNow: Instant): (r: TariffTable)
    ensures r.Keys == t.Keys + KeysOf(p)
    ensures forall k :: k in t && k !in KeysOf(p) ==> r[k] == t[k]
    decreases |p|
  {
    if p == [] then t
    else
      KeysOfCons(p);
      ApplyUpsert(t[Key(p[0]) := Upserted(t, p[0], serverNow)], p[1..], serverNow)
  }

  lemma KeysOfCons(p: seq<PayloadRow>)
    requires p != []
    ensures KeysOf(p) == {Key(p[0])} + KeysOf(p[1..])
  {
    forall k | k in KeysOf(p) ensures k in {Key(p[0])} + KeysOf(p[1..]) {
      var i :| 0 <= i < |p| && Key(p[i]) == k;
      if i > 0 { assert Key(p[1..][i - 1]) == k; }
    }
  }

  /** With distinct keys, every key of the input holds what `Upserted` gives for its row. */
  lemma {:induction false} UpsertAt(t: TariffTable, p: seq<PayloadRow>, serverNow: Instant, i: nat)
    requires DistinctKeys(p) && i < |p|
    ensures ApplyUpsert(t, p, serverNow)[Key(p[i])] == Upserted(t, p[i], serverNow)
    decreases |p|
  {
    var t' := t[Key(p[0]) := Upserted(t, p[0], serverNow)];
    assert ApplyUpsert(t, p, serverNow) == ApplyUpsert(t', p[1..], serverNow);
    assert DistinctKeys(p[1..]);
    KeysOfCons(p);
    if i == 0 {
      assert Key(p[0]) !in KeysOf(p[1..]);
    } else {
      assert p[1..][i - 1] == p[i];
      assert Key(p[i]) != Key(p[0]);
      UpsertAt(t', p[1..], serverNow, i - 1);
    }
  }

  /** Every input key ends up with the incoming fields; `updated_at` is a fresh clock reading on both paths. */
  lemma UpsertStoresIncoming(t: TariffTable, p: seq<PayloadRow>, serverNow: Instant, i: nat)
    requires DistinctKeys(p) && i < |p|
    ensures var row := ApplyUpsert(t, p, serverNow)[Key(p[i])];
      && row.geoName == p[i].geoName && row.rates == p[i].rates && row.fetchedAt == p[i].fetchedAt
      && row.updatedAt == (if Key(p[i]) in t then serverNow else p[i].updatedAt)
      && row.createdAt == (if Key(p[i]) in t then t[Key(p[i])].createdAt else serverNow)
  {
    UpsertAt(t, p, serverNow, i);
  }

  /** Two tables that agree on every row in every column except `updated_at`. */
  predicate SameExceptUpdatedAt(a: TariffTable, b: TariffTable) {
    a.Keys == b.Keys && forall k :: k in a ==> a[k].(updatedAt := 0) == b[k].(updatedAt := 0)
  }

  /** Replaying the same input changes nothing but `updated_at`. */
  lemma UpsertIsIdempotent(t: TariffTable, p: seq<PayloadRow>, now1: Instant, now2: Instant)
    requires DistinctKeys(p)
    ensures SameExceptUpdatedAt(ApplyUpsert(t, p, now1), ApplyUpsert(ApplyUpsert(t, p, now1), p, now2))
  {
    var once := ApplyUpsert(t, p, now1);
    var twice := ApplyUpsert(once, p, now2);
    forall k | k in once ensures once[k].(updatedAt := 0) == twice[k].(updatedAt := 0) {
      if k in KeysOf(p) {
        var i :| 0 <= i < |p| && Key(p[i]) == k;
        UpsertAt(t, p, now1, i);
        UpsertAt(once, p, now2, i);
      }
    }
  }

  /** The consecutive chunks of at most `size` rows, in order. */
  function Chunks(p: seq<PayloadRow>, size: nat): (c: seq<seq<PayloadRow>>)
    requires size > 0
    decreases |p|
  {
    if |p| <= size then (if p == [] then [] else [p])
    else [p[..size]] + Chunks(p[size..], size)
  }

  function UpsertChunks(t: TariffTable, chunks: seq<seq<PayloadRow>>, serverNow: Instant): TariffTable
    decreases |chunks|
  {
    if chunks == [] then t else UpsertChunks(ApplyUpsert(t, chunks[0], serverNow), chunks[1..], serverNow)
  }

  /** Dropping a prefix keeps the keys distinct. */
  lemma DistinctKeysSuffix(p: seq<PayloadRow>, k: nat)
    requires DistinctKeys(p) && k <= |p|
    ensures DistinctKeys(p[k..])
  {
    forall i, j | 0 <= i < j < |p| - k ensures Key(p[k..][i]) != Key(p[k..][j]) {
      assert p[k..][i] == p[k + i] && p[k..][j] == p[k + j];
    }
  }

  /** Upserting `a + b` in one statement equals upserting `a`, then `b`. */
  lemma {:induction false} UpsertAppend(t: TariffTable, a: seq<PayloadRow>, b: seq<PayloadRow>, serverNow: Instant)
    requires DistinctKeys(a + b)
    ensures ApplyUpsert(t, a + b, serverNow) == ApplyUpsert(ApplyUpsert(t, a, serverNow), b, serverNow)
    decreases |a|
  {
    if a != [] {
      assert (a + b)[0] == a[0] && (a + b)[1..] == a[1..] + b;
      DistinctKeysSuffix(a + b, 1);
      UpsertAppend(t[Key(a[0]) := Upserted(t, a[0], serverNow)], a[1..], b, serverNow);
    } else {
      assert a + b == b;
    }
  }

  /**
   * Applying the chunks one after another, as a transaction that commits
   * all of them, leaves the same table as one upsert of the whole input.
   */
  lemma {:induction false} ChunkedUpsertIsOneUpsert(t: TariffTable, p: seq<PayloadRow>, size: nat, serverNow: Instant)
    requires size > 0 && DistinctKeys(p)
    ensures UpsertChunks(t, Chunks(p, size), serverNow) == ApplyUpsert(t, p, serverNow)
    decreases |p|
  {
    if |p| > size {
      assert p == p[..size] + p[size..];
      DistinctKeysSuffix(p, size);
      UpsertAppend(t, p[..size], p[size..], serverNow);
      ChunkedUpsertIsOneUpsert(ApplyUpsert(t, p[..size], serverNow), p[size..], size, serverNow);
    }
  }

  // getLatestTariffsForDate

  function Coef(w: WarehouseTariff): real {
    w.rates.boxDeliveryCoefExpr
  }

  predicate SortedByCoef(s: seq<WarehouseTariff>) {
    forall i, j :: 0 <= i < j < |s| ==> Coef(s[i]) <= Coef(s[j])
  }

  /** The selected columns of a stored row. */
  function Project(k: TariffKey, row: StoredTariff): WarehouseTariff {
    WarehouseTariff(k.1, row.geoName, row.rates)
  }

  /**
   * `r` is a possible answer of the query for `day`: exactly the day's rows,
   * each once, ascending by `box_delivery_coef_expr` (rows with equal
   * coefficients may come in any order).
   */
  ghost predicate IsLatestFor(t: TariffTable, day: Day, r: seq<WarehouseTariff>) {
    && (forall i :: 0 <= i < |r| ==>
          (day, r[i].warehouseName) in t && r[i] == Project((day, r[i].warehouseName), t[(day, r[i].warehouseName)]))
    && (forall k :: k in t && k.0 == day ==> Project(k, t[k]) in r)
    && (forall i, j :: 0 <= i < j < |r| ==> r[i].warehouseName != r[j].warehouseName)
    && SortedByCoef(r)
  }

  ghost function ForDate(t: TariffTable, day: Day): set<WarehouseTariff> {
    set k | k in t && k.0 == day :: Project(k, t[k])
  }

  lemma {:induction false} MinCoefExists(s: set<WarehouseTariff>)
    requires s != {}
    ensures exists x :: x in s && forall y :: y in s ==> Coef(x) <= Coef(y)
    decreases |s|
  {
    var x :| x in s;
    if s != {x} {
      MinCoefExists(s - {x});
      var m :| m in s - {x} && forall y :: y in s - {x} ==> Coef(m) <= Coef(y);
      if Coef(x) <= Coef(m) {
        assert forall y :: y in s ==> Coef(x) <= Coef(y);
      } else {
        assert forall y :: y in s ==> Coef(m) <= Coef(y);
      }
    }
  }

  /** The elements of `s` by ascending coefficient, ties in any order. */
  ghost function SortByCoef(s: set<WarehouseTariff>): (r: seq<WarehouseTariff>)
    ensures multiset(r) == multiset(s)
    ensures SortedByCoef(r)
    decreases |s|
  {
    if s == {} then []
    else
      MinCoefExists(s);
      var x :| x in s && forall y :: y in s ==> Coef(x) <= Coef(y);
      var rest := SortByCoef(s - {x});
      assert forall j :: 0 <= j < |rest| ==> rest[j] in multiset(rest);
      assert multiset(s - {x}) + multiset{x} == multiset(s);
      [x] + rest
  }

  /** A sequence with the multiset of a set holds each element once. */
  lemma NoRepeats<T>(r: seq<T>, s: set<T>)
    requires multiset(r) == multiset(s)
    ensures forall i, j :: 0 <= i < j < |r| ==> r[i] != r[j]
  {
    forall i, j | 0 <= i < j < |r| ensures r[i] != r[j] {
      assert r == r[..j] + r[j..];
      assert multiset(r) == multiset(r[..j]) + multiset(r[j..]);
      assert r[i] in multiset(r[..j]) && r[j] in multiset(r[j..]);
      assert multiset(r)[r[i]] <= 1;
    }
  }

  /** A day's rows are told apart by their warehouse name. */
  lemma NameDeterminesRow(t: TariffTable, day: Day, x: WarehouseTariff)
    requires x in ForDate(t, day)
    ensures (day, x.warehouseName) in t && x == Project((day, x.warehouseName), t[(day, x.warehouseName)])
  {
  }

  /** `getLatestTariffsForDate(day)`: one answer the query may give. */
  ghost function LatestTariffsForDate(t: TariffTable, day: Day): (r: seq<WarehouseTariff>)
    ensures IsLatestFor(t, day, r)
  {
    var s := ForDate(t, day);
    var r := SortByCoef(s);
    assert forall i :: 0 <= i < |r| ==> r[i] in multiset(r);
    forall i | 0 <= i < |r|
      ensures (day, r[i].warehouseName) in t && r[i] == Project((day, r[i].warehouseName), t[(day, r[i].warehouseName)])
    {
      NameDeterminesRow(t, day, r[i]);
    }
    forall k | k in t && k.0 == day ensures Project(k, t[k]) in r {
      assert Project(k, t[k]) in s;
      assert Project(k, t[k]) in multiset(r);
    }
    NoRepeats(r, s);
    r
  }

  /** The repository's view of the table. */
  class TariffRepository {
    var table: TariffTable

    constructor ()
      ensures table == map[]
    {
      table := map[];
    }

    /**
     * `upsertTariffs(rows)`, at client time `clientNow` and server time
     * `serverNow`. PostgreSQL rejects a statement that touches one key twice,
     * so the rows' keys are distinct.
     */
    method UpsertTariffs(rows: seq<WarehouseRow>, clientNow: Instant, serverNow: Instant)
      requires DistinctRowKeys(rows)
      modifies this
      ensures rows == [] ==> table == old(table)
      ensures table == ApplyUpsert(old(table), ToPayload(rows, clientNow), serverNow)
    {
      if |rows| == 0 {
        return;
      }
      var payload := ToPayload(rows, clientNow);
      table := ApplyUpsert(table, payload, serverNow);
    }
  }
}
