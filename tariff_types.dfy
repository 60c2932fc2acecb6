/**
 * The records of src/services/wbTariffs/wbTariffs.types.ts. Calendar days and
 * instants are opaque numbers; the nine box tariffs, which every record
 * carries under the same names, are grouped in `Rates`.
 */
module TariffTypes {

  /** A UTC calendar day. */
  type Day = int

  /** A point in time. */
  type Instant = int

  /** The nine box tariff fields, each of type `T`. */
  datatype Rates<T> = Rates(
    boxDeliveryBase: T,
    boxDeliveryCoefExpr: T,
    boxDeliveryLiter: T,
    boxDeliveryMarketplaceBase: T,
    boxDeliveryMarketplaceCoefExpr: T,
    boxDeliveryMarketplaceLiter: T,
    boxStorageBase: T,
    boxStorageCoefExpr: T,
    boxStorageLiter: T)

  /** The tariffs as numbers. */
  type BoxRates = Rates<real>

  /** `WbTariffsWarehouseResponse`, and also the query result `TariffRowForSheets`, which has the same fields. */
  datatype WarehouseTariff = WarehouseTariff(warehouseName: string, geoName: string, rates: BoxRates)

  /** `WbTariffWarehouseRow`. */
  datatype WarehouseRow = WarehouseRow(
    tariffDate: Day,
    warehouseName: string,
    geoName: string,
    rates: BoxRates,
    fetchedAt: Instant)

  /** The nine fields in spreadsheet column order, which is also the schema's field order. */
  function RatesInOrder<T>(b: Rates<T>): (cells: seq<T>)
    ensures |cells| == 9
  {
    [b.boxDeliveryBase, b.boxDeliveryCoefExpr, b.boxDeliveryLiter,
     b.boxDeliveryMarketplaceBase, b.boxDeliveryMarketplaceCoefExpr, b.boxDeliveryMarketplaceLiter,
     b.boxStorageBase, b.boxStorageCoefExpr, b.boxStorageLiter]
  }

  /** Rebuilds the record from the nine fields in column order. */
  function RatesFrom<T>(v: seq<T>): (b: Rates<T>)
    requires |v| == 9
    ensures RatesInOrder(b) == v
  {
    Rates(v[0], v[1], v[2], v[3], v[4], v[5], v[6], v[7], v[8])
  }
}
