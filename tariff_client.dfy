/**
 * `mapWarehouseRows` of src/services/wbTariffs/wbTariffs.client.ts: the
 * validated warehouse list of one response becomes the rows to store, each
 * stamped with the requested day and the fetch time.
 */
module TariffClient {
  import opened TariffTypes
  import TariffStore

  /** The warehouse fields of a row. */
  function Warehouse(r: WarehouseRow): WarehouseTariff {
    WarehouseTariff(r.warehouseName, r.geoName, r.rates)
  }

  function ToRow(w: WarehouseTariff, tariffDate: Day, fetchedAt: Instant): WarehouseRow {
    WarehouseRow(tariffDate, w.warehouseName, w.geoName, w.rates, fetchedAt)
  }

  /** `mapWarehouseRows(data, tariffDate, fetchedAt)` over `data.response.data.warehouseList`. */
  function MapWarehouseRows(list: seq<WarehouseTariff>, tariffDate: Day, fetchedAt: Instant): (rows: seq<WarehouseRow>)
    ensures |rows| == |list|
    ensures forall i :: 0 <= i < |list| ==> rows[i].tariffDate == tariffDate && rows[i].fetchedAt == fetchedAt
    ensures forall i :: 0 <= i < |list| ==> Warehouse(rows[i]) == list[i]
  {
    seq(|list|, i requires 0 <= i < |list| => ToRow(list[i], tariffDate, fetchedAt))
  }

  predicate DistinctNames(list: seq<WarehouseTariff>) {
    forall i, j :: 0 <= i < j < |list| ==> list[i].warehouseName != list[j].warehouseName
  }

  /** A list naming each warehouse once yields rows the store accepts in one statement. */
  lemma DistinctNamesGiveDistinctKeys(list: seq<WarehouseTariff>, tariffDate: Day, fetchedAt: Instant)
    requires DistinctNames(list)
    ensures TariffStore.DistinctRowKeys(MapWarehouseRows(list, tariffDate, fetchedAt))
  {
  }

  /**
   * Storing one day's list into a table with no rows for that day, then
   * querying that day, gives back exactly the warehouses of the list.
   */
  lemma StoredListIsQueried(t: TariffStore.TariffTable, list: seq<WarehouseTariff>, day: Day, fetchedAt: Instant,
                            clientNow: Instant, serverNow: Instant, r: seq<WarehouseTariff>)
    requires DistinctNames(list)
    requires forall k :: k in t ==> k.0 != day
    requires TariffStore.IsLatestFor(
      TariffStore.ApplyUpsert(t, TariffStore.ToPayload(MapWarehouseRows(list, day, fetchedAt), clientNow), serverNow), day, r)
    ensures forall w :: w in r <==> w in list
  {
    var p := TariffStore.ToPayload(MapWarehouseRows(list, day, fetchedAt), clientNow);
    var after := TariffStore.ApplyUpsert(t, p, serverNow);
    assert TariffStore.DistinctKeys(p) by {
      forall i, j | 0 <= i < j < |p| ensures TariffStore.Key(p[i]) != TariffStore.Key(p[j]) {
        assert list[i].warehouseName != list[j].warehouseName;
      }
    }
    forall w | w in r ensures w in list {
      var i :| 0 <= i < |r| && r[i] == w;
      var k := (day, w.warehouseName);
      assert k in after && k !in t;
      var j :| 0 <= j < |p| && TariffStore.Key(p[j]) == k;
      TariffStore.UpsertAt(t, p, serverNow, j);
      assert w == list[j];
    }
    forall w | w in list ensures w in r {
      var j :| 0 <= j < |list| && list[j] == w;
      var k := TariffStore.Key(p[j]);
      TariffStore.UpsertAt(t, p, serverNow, j);
      assert TariffStore.Project(k, after[k]) == w;
    }
  }
}
