/** The customer registry and the selection of the customer a budget is converted for. */
module Customers {
  import opened Cells

  const CustomerIdColumn := "ID"
  const NameColumn := "Nome"

  /** The `CLIENTES` sheet and whether pandas inferred a numeric type for its `ID` column. */
  datatype Registry = Registry(table: Table, numericIds: bool)

  /** The caller's id in the type of the `ID` column: parsed as a number when the column is
      numeric (None when that parse raises), kept as text otherwise. */
  function CoercedId(numericIds: bool, customerId: string, parseNumber: string -> Option<Cell>): (r: Option<Cell>)
    ensures !numericIds ==> r == Some(Str(customerId))
    ensures numericIds ==> r == parseNumber(customerId)
  {
    if numericIds then parseNumber(customerId) else Some(Str(customerId))
  }

  /** The index of the selected customer: the first record whose `ID` equals the coerced id.
      None when the registry is empty, has no `ID` column, the id cannot be coerced, or no
      record matches. */
  function SelectCustomer(registry: Registry, customerId: string, parseNumber: string -> Option<Cell>): (r: Option<nat>)
    ensures r.Some? ==>
      && r.value < |registry.table.rows|
      && CustomerIdColumn in registry.table.columns
      && CoercedId(registry.numericIds, customerId, parseNumber).Some?
      && CellEq(Lookup(registry.table.rows[r.value], CustomerIdColumn),
                CoercedId(registry.numericIds, customerId, parseNumber).value)
      && forall j :: 0 <= j < r.value ==>
           !CellEq(Lookup(registry.table.rows[j], CustomerIdColumn),
                   CoercedId(registry.numericIds, customerId, parseNumber).value)
    ensures r.None? <==>
      || registry.table.rows == []
      || CustomerIdColumn !in registry.table.columns
      || CoercedId(registry.numericIds, customerId, parseNumber).None?
      || forall j :: 0 <= j < |registry.table.rows| ==>
           !CellEq(Lookup(registry.table.rows[j], CustomerIdColumn),
                   CoercedId(registry.numericIds, customerId, parseNumber).value)
  {
    if registry.table.rows == [] || CustomerIdColumn !in registry.table.columns then None
    else
      match CoercedId(registry.numericIds, customerId, parseNumber)
      case None => None
      case Some(v) => FirstRowWith(registry.table.rows, CustomerIdColumn, v)
  }
}
