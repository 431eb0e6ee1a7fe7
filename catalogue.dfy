/** The product catalogue: its normalised search column and the resolution of product names. */
module Catalogue {
  import opened Cells
  import opened Text

  const ModelColumn := "MODELO"
  const SearchColumn := "MODELO_NORMALIZADO_BUSCA"
  const ProductIdColumn := "ID"
  const DescriptionColumn := "MODELO OLIST"

  /** The search key of a catalogue record: its normalised `MODELO`. */
  function SearchKey(row: Row): string {
    Normalize(Lookup(row, ModelColumn))
  }

  /** A record with its search key stored under `MODELO_NORMALIZADO_BUSCA`. */
  function WithSearchKey(row: Row): Row {
    row[SearchColumn := Str(SearchKey(row))]
  }

  /** The outcome of looking one product up. */
  datatype ProductLookup =
    | NotSearched                              // empty name or empty catalogue: nothing is looked up
    | Found(id: Cell, description: Cell)       // the first record whose search key matched
    | NotFound                                 // looked up and missed: an unmapped product

  /** What a lookup needs of one catalogue record: its search key, `ID` and `MODELO OLIST`. */
  datatype Entry = Entry(key: string, id: Cell, description: Cell)

  /** The catalogue as the lookup sees it: one entry per record, in record order. */
  function Index(catalogue: seq<Row>): (entries: seq<Entry>)
    ensures |entries| == |catalogue|
    ensures forall i :: 0 <= i < |catalogue| ==>
      entries[i] == Entry(SearchKey(catalogue[i]), Lookup(catalogue[i], ProductIdColumn), Lookup(catalogue[i], DescriptionColumn))
  {
    seq(|catalogue|, i requires 0 <= i < |catalogue| =>
      Entry(SearchKey(catalogue[i]), Lookup(catalogue[i], ProductIdColumn), Lookup(catalogue[i], DescriptionColumn)))
  }

  /** The position of the first entry whose search key is `key`. */
  function FirstEntry(entries: seq<Entry>, key: string): Option<nat> {
    FirstFrom(entries, (e: Entry) => e.key == key, 0)
  }

  /** Resolution of a normalised product name: nothing is looked up for an empty name or an
      empty catalogue; otherwise the first entry with that key, if any. */
  function LookupProduct(entries: seq<Entry>, key: string): (r: ProductLookup)
    ensures r.NotSearched? <==> key == "" || entries == []
    ensures r.NotFound? <==>
      key != "" && entries != [] && forall j :: 0 <= j < |entries| ==> entries[j].key != key
    ensures r.Found? ==>
      exists i :: && 0 <= i < |entries| && entries[i].key == key
                  && (forall j :: 0 <= j < i ==> entries[j].key != key)
                  && r == Found(entries[i].id, entries[i].description)
  {
    if key == "" || entries == [] then NotSearched
    else
      match FirstEntry(entries, key)
      case None => NotFound
      case Some(i) => Found(entries[i].id, entries[i].description)
  }

  /** Only the first entry with the key decides: a lookup returns its `ID` and `MODELO OLIST`. */
  lemma FirstEntryWins(entries: seq<Entry>, key: string, i: nat)
    requires i < |entries| && key != "" && entries[i].key == key
    requires forall j :: 0 <= j < i ==> entries[j].key != key
    ensures LookupProduct(entries, key) == Found(entries[i].id, entries[i].description)
  {
    var w := FirstEntry(entries, key);
    assert w.Some? && w.value == i;
  }

  /** The frame with its search column holds the catalogue's entries. */
  lemma IndexedFrame(raw: seq<Row>, indexed: seq<Row>)
    requires |indexed| == |raw|
    requires forall k :: 0 <= k < |raw| ==> indexed[k] == WithSearchKey(raw[k])
    ensures forall k :: 0 <= k < |indexed| ==> SearchColumn in indexed[k] && indexed[k][SearchColumn].Str?
    ensures forall k :: 0 <= k < |indexed| ==>
      Index(raw)[k] == Entry(indexed[k][SearchColumn].s, Lookup(indexed[k], ProductIdColumn), Lookup(indexed[k], DescriptionColumn))
  {
    forall k | 0 <= k < |indexed|
      ensures SearchColumn in indexed[k] && indexed[k][SearchColumn].Str?
      ensures Index(raw)[k] == Entry(indexed[k][SearchColumn].s, Lookup(indexed[k], ProductIdColumn), Lookup(indexed[k], DescriptionColumn))
    {
      assert indexed[k][SearchColumn] == Str(SearchKey(raw[k]));
    }
  }

  /** Querying the search column of the indexed frame, as the conversion does, finds the
      first entry with the key. */
  lemma FrameLookup(entries: seq<Entry>, indexed: seq<Row>, key: string)
    requires |indexed| == |entries|
    requires forall k :: 0 <= k < |indexed| ==> SearchColumn in indexed[k] && indexed[k][SearchColumn].Str?
    requires forall k :: 0 <= k < |indexed| ==> entries[k].key == indexed[k][SearchColumn].s
    ensures FirstRowWith(indexed, SearchColumn, Str(key)) == FirstEntry(entries, key)
  {
    var a := FirstRowWith(indexed, SearchColumn, Str(key));
    var b := FirstEntry(entries, key);
    forall k | 0 <= k < |indexed|
      ensures CellEq(Lookup(indexed[k], SearchColumn), Str(key)) <==> entries[k].key == key
    {
    }
    if a.None? {
      assert b.None?;
    } else {
      assert b.Some?;
      assert b.value == a.value;
    }
  }

  /** The catalogue frame, which gains its search column in place. */
  class Frame {
    var columns: seq<string>
    var rows: seq<Row>

    constructor (t: Table)
      ensures columns == t.columns && rows == t.rows
    {
      columns := t.columns;
      rows := t.rows;
    }

    /** Adds the search column: every record gets its normalised `MODELO` stored under
        `MODELO_NORMALIZADO_BUSCA`, and the column is listed once. */
    method AddSearchColumn()
      modifies this
      ensures columns == if SearchColumn in old(columns) then old(columns) else old(columns) + [SearchColumn]
      ensures |rows| == |old(rows)|
      ensures forall i :: 0 <= i < |rows| ==> rows[i] == WithSearchKey(old(rows)[i])
    {
      var before := rows;
      rows := seq(|before|, i requires 0 <= i < |before| => WithSearchKey(before[i]));
      if SearchColumn !in columns {
        columns := columns + [SearchColumn];
      }
    }
  }
}
