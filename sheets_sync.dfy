/**
 * src/services/googleSheets/googleSheets.service.ts: the tariffs of a day
 * laid out as a sheet (a header row and one eleven-cell row per warehouse)
 * and the synchronisation that writes that sheet into every active target,
 * isolating each target's failure and stamping the targets it reached.
 * The Google Sheets call and the stamping statement are given by their
 * outcomes; the text of a number in a cell is given by `show`.
 */
module SheetsSync {
  import opened TariffTypes
  import TariffStore
  import Spreadsheets

  type Sheet = seq<seq<string>>

  /** The fixed header row. */
  const Headers: seq<string> := [
    "Склад",
    "Регион",
    "Доставка (базовая)",
    "Доставка (коэффициент)",
    "Доставка (литр)",
    "Доставка маркетплейс (базовая)",
    "Доставка маркетплейс (коэффициент)",
    "Доставка маркетплейс (литр)",
    "Хранение (базовая)",
    "Хранение (коэффициент)",
    "Хранение (литр)"]

  /** The row of one warehouse: its name, its region, then the nine rates in header order. */
  function DataRow(t: WarehouseTariff, show: real -> string): (row: seq<string>)
    ensures |row| == |Headers| == 11
    ensures row[0] == t.warehouseName && row[1] == t.geoName
    ensures forall k :: 0 <= k < 9 ==> row[k + 2] == show(RatesInOrder(t.rates)[k])
  {
    var r := t.rates;
    [t.warehouseName, t.geoName,
     show(r.boxDeliveryBase), show(r.boxDeliveryCoefExpr), show(r.boxDeliveryLiter),
     show(r.boxDeliveryMarketplaceBase), show(r.boxDeliveryMarketplaceCoefExpr), show(r.boxDeliveryMarketplaceLiter),
     show(r.boxStorageBase), show(r.boxStorageCoefExpr), show(r.boxStorageLiter)]
  }

  /** The sheet for a list of tariffs: the header, then one row per tariff in list order. */
  function SheetOf(tariffs: seq<WarehouseTariff>, show: real -> string): (s: Sheet)
    ensures |s| == |tariffs| + 1 && s[0] == Headers
    ensures forall i :: 0 <= i < |tariffs| ==> s[i + 1] == DataRow(tariffs[i], show)
  {
    [Headers] + seq(|tariffs|, i requires 0 <= i < |tariffs| => DataRow(tariffs[i], show))
  }

  /** `formatTariffsForSheets(tariffs)`: `rows.push` of one row per tariff after the header. */
  method FormatTariffsForSheets(tariffs: seq<WarehouseTariff>, show: real -> string) returns (rows: Sheet)
    ensures rows == SheetOf(tariffs, show)
  {
    rows := [Headers];
    for i := 0 to |tariffs|
      invariant |rows| == i + 1 && rows[0] == Headers
      invariant forall j :: 0 <= j < i ==> rows[j + 1] == DataRow(tariffs[j], show)
    {
      rows := rows + [DataRow(tariffs[i], show)];
    }
  }

  /** Every row of a sheet, the header included, is exactly as wide as the header. */
  lemma SheetIsRectangular(tariffs: seq<WarehouseTariff>, show: real -> string)
    ensures forall row :: row in SheetOf(tariffs, show) ==> |row| == |Headers|
  {
    var s := SheetOf(tariffs, show);
    forall row | row in s ensures |row| == |Headers| {
      var i :| 0 <= i < |s| && s[i] == row;
      if i > 0 {
        assert s[i] == DataRow(tariffs[i - 1], show);
      }
    }
  }

  /**
   * Nothing is lost in the layout: when `show` tells different numbers
   * apart, the sheet determines the tariffs it was made from.
   */
  lemma SheetDeterminesTariffs(a: seq<WarehouseTariff>, b: seq<WarehouseTariff>, show: real -> string)
    requires forall x: real, y: real :: show(x) == show(y) ==> x == y
    requires SheetOf(a, show) == SheetOf(b, show)
    ensures a == b
  {
    assert |a| == |b|;
    forall i | 0 <= i < |a| ensures a[i] == b[i] {
      var ra := DataRow(a[i], show);
      var rb := DataRow(b[i], show);
      assert ra == SheetOf(a, show)[i + 1] == rb;
      forall k | 0 <= k < 9 ensures RatesInOrder(a[i].rates)[k] == RatesInOrder(b[i].rates)[k] {
        assert ra[k + 2] == rb[k + 2];
      }
      var va, vb := RatesInOrder(a[i].rates), RatesInOrder(b[i].rates);
      assert va == vb;
      assert a[i].rates == RatesFrom(va) && b[i].rates == RatesFrom(vb);
    }
  }

  // syncAllSpreadsheets

  /** What happened at one target: the sheet handed to `updateSheet`, whether it was written and whether the target was stamped. */
  datatype Attempt = Attempt(spreadsheetId: string, sheetName: string, data: Sheet, written: bool, stamped: bool)

  datatype SyncOutcome =
    | NoSpreadsheets
    | NoTariffs
    | Synced(attempts: seq<Attempt>)

  /**
   * The registry after the first `n` targets: target `i` is stamped at
   * `stampTime(i)` when its sheet was written (`sheetOk(i)`) and the
   * stamping statement went through (`stampOk(i)`).
   */
  function StampedRows(rows: seq<Spreadsheets.StoredSpreadsheet>, targets: seq<Spreadsheets.SpreadsheetRow>, n: nat,
                       sheetOk: nat -> bool, stampOk: nat -> bool, stampTime: nat -> Instant): (r: seq<Spreadsheets.StoredSpreadsheet>)
    requires n <= |targets|
    ensures |r| == |rows|
  {
    if n == 0 then rows
    else
      var before := StampedRows(rows, targets, n - 1, sheetOk, stampOk, stampTime);
      if sheetOk(n - 1) && stampOk(n - 1) then Spreadsheets.Touched(before, targets[n - 1].spreadsheetId, stampTime(n - 1))
      else before
  }

  /** Target `i` was reached: its sheet was written and it was stamped. */
  predicate Reached(i: nat, sheetOk: nat -> bool, stampOk: nat -> bool) {
    sheetOk(i) && stampOk(i)
  }

  /**
   * A synchronisation changes a registry row only when some target with
   * its id was reached, and such a row ends up with a last-sync time; every
   * other column keeps its value.
   */
  lemma {:induction false} StampedRowsMeaning(rows: seq<Spreadsheets.StoredSpreadsheet>, targets: seq<Spreadsheets.SpreadsheetRow>,
                                              n: nat, sheetOk: nat -> bool, stampOk: nat -> bool, stampTime: nat -> Instant, j: nat)
    requires n <= |targets| && j < |rows|
    ensures var after := StampedRows(rows, targets, n, sheetOk, stampOk, stampTime)[j];
      && (after != rows[j] ==> exists i :: 0 <= i < n && Reached(i, sheetOk, stampOk) && targets[i].spreadsheetId == rows[j].spreadsheetId)
      && ((exists i :: 0 <= i < n && Reached(i, sheetOk, stampOk) && targets[i].spreadsheetId == rows[j].spreadsheetId) ==> after.lastSyncedAt.Some?)
      && after.(lastSyncedAt := rows[j].lastSyncedAt, updatedAt := rows[j].updatedAt) == rows[j]
  {
    if n > 0 {
      StampedRowsMeaning(rows, targets, n - 1, sheetOk, stampOk, stampTime, j);
      var before := StampedRows(rows, targets, n - 1, sheetOk, stampOk, stampTime);
      if Reached(n - 1, sheetOk, stampOk) {
        Spreadsheets.TouchedChangesOnlyMatching(before, targets[n - 1].spreadsheetId, stampTime(n - 1), j);
      }
      if exists i :: 0 <= i < n && Reached(i, sheetOk, stampOk) && targets[i].spreadsheetId == rows[j].spreadsheetId {
        var i :| 0 <= i < n && Reached(i, sheetOk, stampOk) && targets[i].spreadsheetId == rows[j].spreadsheetId;
        if i < n - 1 && !(Reached(n - 1, sheetOk, stampOk) && targets[n - 1].spreadsheetId == rows[j].spreadsheetId) {
          assert exists i' :: 0 <= i' < n - 1 && Reached(i', sheetOk, stampOk) && targets[i'].spreadsheetId == rows[j].spreadsheetId;
        }
      }
    }
  }

  /** The attempts recorded for the first `n` targets, in target order. */
  ghost predicate AttemptsSoFar(attempts: seq<Attempt>, targets: seq<Spreadsheets.SpreadsheetRow>, n: nat,
                                data: Sheet, sheetOk: nat -> bool, stampOk: nat -> bool)
  {
    && n <= |targets| && |attempts| == n
    && forall k :: 0 <= k < n ==>
      && attempts[k].spreadsheetId == targets[k].spreadsheetId
      && attempts[k].sheetName == targets[k].sheetName
      && attempts[k].data == data
      && attempts[k].written == sheetOk(k)
      && attempts[k].stamped == Reached(k, sheetOk, stampOk)
  }

  lemma AttemptsGrow(attempts: seq<Attempt>, attempt: Attempt, targets: seq<Spreadsheets.SpreadsheetRow>, n: nat,
                     data: Sheet, sheetOk: nat -> bool, stampOk: nat -> bool)
    requires AttemptsSoFar(attempts, targets, n, data, sheetOk, stampOk) && n < |targets|
    requires attempt == Attempt(targets[n].spreadsheetId, targets[n].sheetName, data, sheetOk(n), Reached(n, sheetOk, stampOk))
    ensures AttemptsSoFar(attempts + [attempt], targets, n + 1, data, sheetOk, stampOk)
  {
    var a := attempts + [attempt];
    assert forall k :: 0 <= k < n ==> a[k] == attempts[k];
    assert a[n] == attempt;
  }

  /**
   * The loop of `syncAllSpreadsheets` over the targets: write the sheet,
   * then stamp the target; a failure at one target is logged and the loop
   * goes on with the next.
   */
  method WriteEach(registry: Spreadsheets.SpreadsheetRegistry, targets: seq<Spreadsheets.SpreadsheetRow>, data: Sheet,
                   sheetOk: nat -> bool, stampOk: nat -> bool, stampTime: nat -> Instant)
      returns (attempts: seq<Attempt>)
    modifies registry
    ensures AttemptsSoFar(attempts, targets, |targets|, data, sheetOk, stampOk)
    ensures registry.rows == StampedRows(old(registry.rows), targets, |targets|, sheetOk, stampOk, stampTime)
  {
    attempts := [];
    for i := 0 to |targets|
      invariant AttemptsSoFar(attempts, targets, i, data, sheetOk, stampOk)
      invariant registry.rows == StampedRows(old(registry.rows), targets, i, sheetOk, stampOk, stampTime)
    {
      var target := targets[i];
      ghost var before := registry.rows;
      var stamped := false;
      if sheetOk(i) {
        // the sheet was written; now the stamp, whose failure is caught like the sheet's
        if stampOk(i) {
          registry.UpdateLastSyncedAt(target.spreadsheetId, stampTime(i));
          stamped := true;
        }
      }
      assert registry.rows == StampedRows(old(registry.rows), targets, i + 1, sheetOk, stampOk, stampTime) by {
        assert StampedRows(old(registry.rows), targets, i, sheetOk, stampOk, stampTime) == before;
      }
      var attempt := Attempt(target.spreadsheetId, target.sheetName, data, sheetOk(i), stamped);
      AttemptsGrow(attempts, attempt, targets, i, data, sheetOk, stampOk);
      attempts := attempts + [attempt];
    }
  }

  /**
   * `syncAllSpreadsheets(date)`. `targets` is the answer of
   * `getActiveSpreadsheets()` and `tariffs` that of
   * `getLatestTariffsForDate(date)` (read only when there are targets);
   * `sheetOk(i)` and `stampOk(i)` say whether `updateSheet` and
   * `updateLastSyncedAt` succeed for the `i`-th target, the latter at
   * server time `stampTime(i)`.
   */
  method SyncAllSpreadsheets(registry: Spreadsheets.SpreadsheetRegistry, targets: seq<Spreadsheets.SpreadsheetRow>,
                             table: TariffStore.TariffTable, day: Day, tariffs: seq<WarehouseTariff>,
                             show: real -> string, sheetOk: nat -> bool, stampOk: nat -> bool, stampTime: nat -> Instant)
      returns (outcome: SyncOutcome)
    requires Spreadsheets.IsActiveListing(registry.rows, targets)
    requires TariffStore.IsLatestFor(table, day, tariffs)
    modifies registry
    ensures targets == [] ==> outcome == NoSpreadsheets
    ensures targets != [] && tariffs == [] ==> outcome == NoTariffs
    ensures !outcome.Synced? ==> registry.rows == old(registry.rows)
    ensures targets != [] && tariffs != [] ==>
      && outcome.Synced? && |outcome.attempts| == |targets|
      && forall i :: 0 <= i < |targets| ==>
           && outcome.attempts[i].spreadsheetId == targets[i].spreadsheetId
           && outcome.attempts[i].sheetName == targets[i].sheetName
           && outcome.attempts[i].data == SheetOf(tariffs, show)
           && outcome.attempts[i].written == sheetOk(i)
           && outcome.attempts[i].stamped == Reached(i, sheetOk, stampOk)
    ensures outcome.Synced? ==> registry.rows == StampedRows(old(registry.rows), targets, |targets|, sheetOk, stampOk, stampTime)
  {
    if |targets| == 0 {
      return NoSpreadsheets;
    }
    if |tariffs| == 0 {
      return NoTariffs;
    }
    var sheetData := FormatTariffsForSheets(tariffs, show);
    var attempts := WriteEach(registry, targets, sheetData, sheetOk, stampOk, stampTime);
    return Synced(attempts);
  }
}
