/** What the conversion of a budget into Olist rows computes, stated as functions, and the
    properties of that result. The imperative conversion (module Converter) is proved equal
    to `ConversionOf`. */
module Pipeline {
  import opened Cells
  import opened Text
  import opened Header
  import opened Report
  import opened Catalogue
  import opened Customers

  /** The item table of the budget as read below its header: raw column labels and
      positional rows. */
  datatype ItemSheet = ItemSheet(labels: seq<Cell>, rows: seq<seq<Cell>>)

  /** The parsed budget sheet: its first rows read without a header, and its item table. */
  datatype Budget = Budget(preview: Preview, items: ItemSheet)

  /** Exceptions that escape the conversion. */
  datatype Fault =
    | AmbiguousItemColumn   // two item columns normalise to a label that is read, so the read yields several cells
    | MissingNameColumn     // the registry has no `Nome` column: reading the customer's name raises

  datatype Outcome =
    | Output(table: Table, unmapped: seq<string>, summary: seq<string>)
    | Raised(fault: Fault)

  // Labels searched for, in normalised form.
  const ProposalLabel := "or\U{e7}amento #"
  const DateLabel := "data"
  const ProductLabel := "produto"
  const QuantityLabel := "quantidade"
  const PriceLabel := "valor unit\U{e1}rio"

  // The eight fields every output record is built from.
  const ProposalKey := "N\U{fa}mero da proposta"
  const DateKey := "Data"
  const ContactIdKey := "ID contato"
  const ContactNameKey := "Nome do contato"
  const ProductIdKey := "ID produto"
  const DescriptionKey := "Descri\U{e7}\U{e3}o"
  const QuantityKey := "Quantidade"
  const PriceKey := "Valor unit\U{e1}rio"

  const ComputedKeys: set<string> :=
    {ProposalKey, DateKey, ContactIdKey, ContactNameKey, ProductIdKey, DescriptionKey, QuantityKey, PriceKey}

  // ---------------------------------------------------------------- metadata

  /** The normalised first cell of every preview row. */
  function Heads(rows: seq<seq<Cell>>): (h: seq<string>)
    ensures |h| == |rows|
    ensures forall i :: 0 <= i < |rows| ==> h[i] == Normalize(At(rows[i], 0))
  {
    seq(|rows|, i requires 0 <= i < |rows| => Normalize(At(rows[i], 0)))
  }

  /** The second cell of every preview row. */
  function Seconds(rows: seq<seq<Cell>>): (v: seq<Cell>)
    ensures |v| == |rows|
    ensures forall i :: 0 <= i < |rows| ==> v[i] == At(rows[i], 1)
  {
    seq(|rows|, i requires 0 <= i < |rows| => At(rows[i], 1))
  }

  /** Among the first `n` rows, the value of the last one whose head is `caption`. */
  function LastLabelled(heads: seq<string>, values: seq<Cell>, caption: string, n: nat): Option<Cell>
    requires n <= |heads| && n <= |values|
    decreases n
  {
    if n == 0 then None
    else if heads[n - 1] == caption then Some(values[n - 1])
    else LastLabelled(heads, values, caption, n - 1)
  }

  /** A label that no row carries yields nothing, and only then. */
  lemma {:induction false} LastLabelledNone(heads: seq<string>, values: seq<Cell>, caption: string, n: nat)
    requires n <= |heads| && n <= |values|
    ensures LastLabelled(heads, values, caption, n).None? <==> forall i :: 0 <= i < n ==> heads[i] != caption
    decreases n
  {
    if n > 0 {
      LastLabelledNone(heads, values, caption, n - 1);
    }
  }

  /** The last labelled row supplies the value: earlier matches are overwritten. */
  lemma {:induction false} LastLabelledWins(heads: seq<string>, values: seq<Cell>, caption: string, n: nat, i: nat)
    requires n <= |heads| && n <= |values|
    requires i < n && heads[i] == caption
    requires forall j :: i < j < n ==> heads[j] != caption
    ensures LastLabelled(heads, values, caption, n) == Some(values[i])
    decreases n
  {
    if i < n - 1 {
      LastLabelledWins(heads, values, caption, n - 1, i);
    }
  }

  datatype Metadata = Metadata(proposal: Option<Cell>, date: Option<Cell>)

  /** The proposal number and date of the budget: scanned only when the preview has rows and
      more than one column. */
  function ScanMetadata(p: Preview): Metadata {
    if |p.rows| > 0 && p.width > 1 then
      var heads := Heads(p.rows);
      var values := Seconds(p.rows);
      Metadata(LastLabelled(heads, values, ProposalLabel, |p.rows|), LastLabelled(heads, values, DateLabel, |p.rows|))
    else
      Metadata(None, None)
  }

  // ---------------------------------------------------------------- item rows

  /** An empty preview leaves the item table empty; otherwise it is the parsed one. */
  function ItemsRead(b: Budget): ItemSheet {
    if |b.preview.rows| == 0 then ItemSheet([], []) else b.items
  }

  function LabelCount(labels: seq<string>, name: string): nat
    decreases |labels|
  {
    if labels == [] then 0 else (if labels[0] == name then 1 else 0) + LabelCount(labels[1..], name)
  }

  /** The position of the first column labelled `name`. */
  function LabelIndex(labels: seq<string>, name: string): (r: Option<nat>)
    ensures r.Some? ==> r.value < |labels| && labels[r.value] == name
    ensures r.Some? ==> forall j :: 0 <= j < r.value ==> labels[j] != name
    ensures r.None? <==> forall j :: 0 <= j < |labels| ==> labels[j] != name
  {
    FirstFrom(labels, (l: string) => l == name, 0)
  }

  /** The cell of an item row under a normalised label: missing when no column has the label. */
  function Field(labels: seq<string>, row: seq<Cell>, name: string): Cell {
    match LabelIndex(labels, name)
    case None => Missing
    case Some(k) => At(row, k)
  }

  /** A label that item fields are read by names more than one column. */
  predicate Ambiguous(labels: seq<string>) {
    LabelCount(labels, ProductLabel) > 1 || LabelCount(labels, QuantityLabel) > 1 || LabelCount(labels, PriceLabel) > 1
  }

  /** A separator row: product, quantity and unit price all missing. */
  predicate IsBlank(labels: seq<string>, row: seq<Cell>) {
    && Field(labels, row, ProductLabel).Missing?
    && Field(labels, row, QuantityLabel).Missing?
    && Field(labels, row, PriceLabel).Missing?
  }

  /** The item rows that are not blank, in order. */
  function Kept(labels: seq<string>, rows: seq<seq<Cell>>): (r: seq<seq<Cell>>)
    decreases |rows|
  {
    if rows == [] then []
    else Kept(labels, rows[..|rows| - 1]) + (if IsBlank(labels, rows[|rows| - 1]) then [] else [rows[|rows| - 1]])
  }

  /** Keeping rows is a filter: it distributes over concatenation, so it keeps their order. */
  lemma {:induction false} KeptAppend(labels: seq<string>, a: seq<seq<Cell>>, b: seq<seq<Cell>>)
    ensures Kept(labels, a + b) == Kept(labels, a) + Kept(labels, b)
    decreases |b|
  {
    if b == [] {
      assert a + b == a;
    } else {
      var init := b[..|b| - 1];
      assert (a + b)[..|a + b| - 1] == a + init;
      assert (a + b)[|a + b| - 1] == b[|b| - 1];
      KeptAppend(labels, a, init);
    }
  }

  /** A row is kept exactly when it is not blank. */
  lemma {:induction false} KeptMembers(labels: seq<string>, rows: seq<seq<Cell>>)
    ensures forall x :: x in Kept(labels, rows) <==> x in rows && !IsBlank(labels, x)
    decreases |rows|
  {
    if rows != [] {
      var init := rows[..|rows| - 1];
      KeptMembers(labels, init);
      assert rows == init + [rows[|rows| - 1]];
    }
  }

  // ---------------------------------------------------------------- one output record

  /** What stays the same for every item of one conversion. */
  datatype Context = Context(
    labels: seq<string>,        // normalised item labels
    catalogue: seq<Entry>,      // the catalogue's lookup entries
    meta: Metadata,
    contactId: Cell,
    contactName: Cell,
    columns: seq<string>)       // the template's columns

  function OrNA(o: Option<Cell>): Cell {
    match o
    case None => Missing
    case Some(c) => c
  }

  function ProductOf(ctx: Context, row: seq<Cell>): ProductLookup {
    LookupProduct(ctx.catalogue, Normalize(Field(ctx.labels, row, ProductLabel)))
  }

  /** The eight computed fields of an item row. */
  function Computed(ctx: Context, row: seq<Cell>): map<string, Cell> {
    var found := ProductOf(ctx, row);
    map[ProposalKey := OrNA(ctx.meta.proposal),
        DateKey := OrNA(ctx.meta.date),
        ContactIdKey := ctx.contactId,
        ContactNameKey := ctx.contactName,
        ProductIdKey := if found.Found? then found.id else Missing,
        DescriptionKey := if found.Found? then found.description else Missing,
        QuantityKey := Field(ctx.labels, row, QuantityLabel),
        PriceKey := Field(ctx.labels, row, PriceLabel)]
  }

  /** A record completed with a missing value for every listed column it lacks. */
  function Padded(m: map<string, Cell>, columns: seq<string>): (r: map<string, Cell>)
    ensures forall c :: c in r <==> c in m || c in columns
    ensures forall c :: c in m ==> r[c] == m[c]
    ensures forall c :: c in r && c !in m ==> r[c] == Missing
  {
    m + map c | c in columns && c !in m :: Missing
  }

  /** Padding with one more column adds it as NA when the record lacks it. */
  lemma PaddedStep(m: map<string, Cell>, columns: seq<string>, c: string)
    ensures Padded(m, columns + [c]) ==
      if c in Padded(m, columns) then Padded(m, columns) else Padded(m, columns)[c := Missing]
  {
    var before := Padded(m, columns);
    var after := Padded(m, columns + [c]);
    var expected := if c in before then before else before[c := Missing];
    assert forall d :: d in after <==> d in expected;
    assert forall d :: d in after ==> after[d] == expected[d];
  }

  /** A record restricted to the template's columns, NA where the record lacks one. */
  function Project(m: map<string, Cell>, columns: seq<string>): (r: map<string, Cell>)
    ensures forall c :: c in r <==> c in columns
    ensures forall c :: c in r ==> r[c] == Lookup(m, c)
  {
    map c | c in columns :: if c in m then m[c] else Missing
  }

  /** Padding before projecting changes nothing: the padded cells are the ones a projection
      fills in anyway. */
  lemma ProjectPadded(m: map<string, Cell>, columns: seq<string>)
    ensures Project(Padded(m, columns), columns) == Project(m, columns)
  {
  }

  function ProjectAll(lines: seq<map<string, Cell>>, columns: seq<string>): (r: seq<map<string, Cell>>)
    ensures |r| == |lines|
    ensures forall k :: 0 <= k < |lines| ==> r[k] == Project(lines[k], columns)
  {
    seq(|lines|, k requires 0 <= k < |lines| => Project(lines[k], columns))
  }

  /** The log entry of an unmapped product. */
  function MissEntry(key: string, original: Cell): string {
    "'" + key + "' (Original: '" + Stringify(original) + "')"
  }

  /** The records an item row contributes: none for a blank row, else its padded record. */
  function RowLines(ctx: Context, row: seq<Cell>): seq<map<string, Cell>> {
    if IsBlank(ctx.labels, row) then [] else [Padded(Computed(ctx, row), ctx.columns)]
  }

  /** The log entries an item row contributes: one when it was looked up and missed. */
  function RowMisses(ctx: Context, row: seq<Cell>): seq<string> {
    if IsBlank(ctx.labels, row) || !ProductOf(ctx, row).NotFound? then []
    else [MissEntry(Normalize(Field(ctx.labels, row, ProductLabel)), Field(ctx.labels, row, ProductLabel))]
  }

  function Emitted(ctx: Context, rows: seq<seq<Cell>>): seq<map<string, Cell>>
    decreases |rows|
  {
    if rows == [] then [] else Emitted(ctx, rows[..|rows| - 1]) + RowLines(ctx, rows[|rows| - 1])
  }

  function Misses(ctx: Context, rows: seq<seq<Cell>>): seq<string>
    decreases |rows|
  {
    if rows == [] then [] else Misses(ctx, rows[..|rows| - 1]) + RowMisses(ctx, rows[|rows| - 1])
  }

  // ---------------------------------------------------------------- the whole conversion

  function ContextOf(budget: Budget, catalogue: Table, contact: Row, template: seq<string>): Context {
    Context(NormalizeAll(ItemsRead(budget).labels), Index(catalogue.rows), ScanMetadata(budget.preview),
            Lookup(contact, CustomerIdColumn), Lookup(contact, NameColumn), template)
  }

  /** The result of `converter_orcamento_para_olist` on parsed inputs. */
  function ConversionOf(budget: Budget, catalogue: Table, registry: Registry, template: seq<string>,
                        customerId: string, parseNumber: string -> Option<Cell>): Outcome
  {
    if ModelColumn !in catalogue.columns then Output(Table([], []), [], [])
    else match SelectCustomer(registry, customerId, parseNumber)
      case None => Output(Table(template, []), [], [])
      case Some(k) =>
        if NameColumn !in registry.table.columns then Raised(MissingNameColumn)
        else
          var items := ItemsRead(budget);
          var ctx := ContextOf(budget, catalogue, registry.table.rows[k], template);
          if |items.rows| > 0 && Ambiguous(ctx.labels) then Raised(AmbiguousItemColumn)
          else
            var log := Misses(ctx, items.rows);
            Output(Table(template, ProjectAll(Emitted(ctx, items.rows), template)), log, SortedUnique(log))
  }

  // ---------------------------------------------------------------- properties of one record

  /** The emitted records are the padded records of the kept rows, one each, in order. */
  lemma {:induction false} EmittedRows(ctx: Context, rows: seq<seq<Cell>>)
    ensures |Emitted(ctx, rows)| == |Kept(ctx.labels, rows)|
    ensures forall k :: 0 <= k < |Kept(ctx.labels, rows)| ==>
      Emitted(ctx, rows)[k] == Padded(Computed(ctx, Kept(ctx.labels, rows)[k]), ctx.columns)
    decreases |rows|
  {
    if rows != [] {
      EmittedRows(ctx, rows[..|rows| - 1]);
    }
  }

  /** Log entries of consecutive parts of the item table follow one another. */
  lemma {:induction false} MissesAppend(ctx: Context, a: seq<seq<Cell>>, b: seq<seq<Cell>>)
    ensures Misses(ctx, a + b) == Misses(ctx, a) + Misses(ctx, b)
    decreases |b|
  {
    if b == [] {
      assert a + b == a;
    } else {
      var init := b[..|b| - 1];
      assert (a + b)[..|a + b| - 1] == a + init;
      assert (a + b)[|a + b| - 1] == b[|b| - 1];
      MissesAppend(ctx, a, init);
    }
  }

  /** What an output record holds: exactly the template's columns; the contact, the scanned
      metadata, quantity and unit price where the template has their columns, and NA in
      every column that is not one of the eight computed ones. */
  lemma RecordFields(ctx: Context, row: seq<Cell>)
    ensures var r := Project(Computed(ctx, row), ctx.columns);
      && (forall c :: c in r <==> c in ctx.columns)
      && (forall c :: c in r && c !in ComputedKeys ==> r[c] == Missing)
      && (ProposalKey in r ==> r[ProposalKey] == OrNA(ctx.meta.proposal))
      && (DateKey in r ==> r[DateKey] == OrNA(ctx.meta.date))
      && (ContactIdKey in r ==> r[ContactIdKey] == ctx.contactId)
      && (ContactNameKey in r ==> r[ContactNameKey] == ctx.contactName)
      && (QuantityKey in r ==> r[QuantityKey] == Field(ctx.labels, row, QuantityLabel))
      && (PriceKey in r ==> r[PriceKey] == Field(ctx.labels, row, PriceLabel))
  {
  }

  /** How the product of an item row is resolved and what it adds to the unmapped log: an
      empty name, or an empty catalogue, leaves both product fields NA and logs nothing; the
      first entry whose key equals the name supplies `ID` and `MODELO OLIST`; a name no entry
      has leaves both NA and logs exactly one entry. */
  lemma ProductResolution(ctx: Context, row: seq<Cell>)
    requires !IsBlank(ctx.labels, row)
    ensures var product := Field(ctx.labels, row, ProductLabel);
      var key := Normalize(product);
      var m := Computed(ctx, row);
      && ((key == "" || ctx.catalogue == []) ==>
            m[ProductIdKey] == Missing && m[DescriptionKey] == Missing && RowMisses(ctx, row) == [])
      && (forall i :: 0 <= i < |ctx.catalogue| && key != "" && ctx.catalogue[i].key == key
                      && (forall j :: 0 <= j < i ==> ctx.catalogue[j].key != key) ==>
            && m[ProductIdKey] == ctx.catalogue[i].id
            && m[DescriptionKey] == ctx.catalogue[i].description
            && RowMisses(ctx, row) == [])
      && ((key != "" && ctx.catalogue != [] && forall j :: 0 <= j < |ctx.catalogue| ==> ctx.catalogue[j].key != key) ==>
            && m[ProductIdKey] == Missing && m[DescriptionKey] == Missing
            && RowMisses(ctx, row) == [MissEntry(key, product)])
  {
    var product := Field(ctx.labels, row, ProductLabel);
    var key := Normalize(product);
    var found := ProductOf(ctx, row);
    assert found == LookupProduct(ctx.catalogue, key);
    var m := Computed(ctx, row);
    assert m[ProductIdKey] == (if found.Found? then found.id else Missing);
    assert m[DescriptionKey] == (if found.Found? then found.description else Missing);
    assert RowMisses(ctx, row) == (if found.NotFound? then [MissEntry(key, product)] else []);
    forall i | 0 <= i < |ctx.catalogue| && key != "" && ctx.catalogue[i].key == key
               && (forall j :: 0 <= j < i ==> ctx.catalogue[j].key != key)
      ensures LookupProduct(ctx.catalogue, key) == Found(ctx.catalogue[i].id, ctx.catalogue[i].description)
    {
      FirstEntryWins(ctx.catalogue, key, i);
    }
  }

  // ---------------------------------------------------------------- properties of the scan

  /** A label is found only when the preview is scanned and some row carries it. */
  lemma ScanMetadataNone(p: Preview)
    ensures ScanMetadata(p).proposal.None? <==>
      (|p.rows| == 0 || p.width <= 1 || forall i :: 0 <= i < |p.rows| ==> Normalize(At(p.rows[i], 0)) != ProposalLabel)
    ensures ScanMetadata(p).date.None? <==>
      (|p.rows| == 0 || p.width <= 1 || forall i :: 0 <= i < |p.rows| ==> Normalize(At(p.rows[i], 0)) != DateLabel)
  {
    LastLabelledNone(Heads(p.rows), Seconds(p.rows), ProposalLabel, |p.rows|);
    LastLabelledNone(Heads(p.rows), Seconds(p.rows), DateLabel, |p.rows|);
  }

  /** The last row labelled with the proposal label supplies the proposal number, and the last row
      labelled with the date label the date, both from the second column. */
  lemma ScanMetadataLast(p: Preview, i: nat, caption: string)
    requires p.width > 1 && i < |p.rows|
    requires caption == ProposalLabel || caption == DateLabel
    requires Normalize(At(p.rows[i], 0)) == caption
    requires forall j :: i < j < |p.rows| ==> Normalize(At(p.rows[j], 0)) != caption
    ensures caption == ProposalLabel ==> ScanMetadata(p).proposal == Some(At(p.rows[i], 1))
    ensures caption == DateLabel ==> ScanMetadata(p).date == Some(At(p.rows[i], 1))
  {
    LastLabelledWins(Heads(p.rows), Seconds(p.rows), caption, |p.rows|, i);
  }

  // ---------------------------------------------------------------- properties of the conversion

  /** The inputs on which the item rows are processed: the catalogue has `MODELO`, record `k`
      of the registry is the selected customer, the registry has `Nome`, and reading the item
      fields does not raise. */
  predicate Proceeds(budget: Budget, catalogue: Table, registry: Registry, template: seq<string>,
                     customerId: string, parseNumber: string -> Option<Cell>, k: nat)
  {
    && ModelColumn in catalogue.columns
    && SelectCustomer(registry, customerId, parseNumber) == Some(k)
    && NameColumn in registry.table.columns
    && !(|ItemsRead(budget).rows| > 0 && Ambiguous(NormalizeAll(ItemsRead(budget).labels)))
  }

  /** The early exits: no `MODELO` column gives an empty table without columns; no matching
      customer gives an empty table with the template's columns and an empty log; a registry
      without `Nome` raises once the customer is found. */
  lemma EarlyExits(budget: Budget, catalogue: Table, registry: Registry, template: seq<string>,
                   customerId: string, parseNumber: string -> Option<Cell>)
    ensures ModelColumn !in catalogue.columns ==>
      ConversionOf(budget, catalogue, registry, template, customerId, parseNumber) == Output(Table([], []), [], [])
    ensures ModelColumn in catalogue.columns && SelectCustomer(registry, customerId, parseNumber).None? ==>
      ConversionOf(budget, catalogue, registry, template, customerId, parseNumber) == Output(Table(template, []), [], [])
    ensures ModelColumn in catalogue.columns && SelectCustomer(registry, customerId, parseNumber).Some?
            && NameColumn !in registry.table.columns ==>
      ConversionOf(budget, catalogue, registry, template, customerId, parseNumber) == Raised(MissingNameColumn)
  {
  }

  /** On the main path the table has the template's columns and one record per kept item
      row, in order: the row's computed fields projected onto the template. The log is the
      misses of the item rows and the summary its sorted distinct entries. */
  lemma ConversionRecords(budget: Budget, catalogue: Table, registry: Registry, template: seq<string>,
                          customerId: string, parseNumber: string -> Option<Cell>, k: nat)
    requires Proceeds(budget, catalogue, registry, template, customerId, parseNumber, k)
    ensures k < |registry.table.rows|
    ensures var ctx := ContextOf(budget, catalogue, registry.table.rows[k], template);
      var kept := Kept(ctx.labels, ItemsRead(budget).rows);
      var log := Misses(ctx, ItemsRead(budget).rows);
      var out := ConversionOf(budget, catalogue, registry, template, customerId, parseNumber);
      && out.Output? && out.unmapped == log && out.summary == SortedUnique(log)
      && out.table.columns == template
      && |out.table.rows| == |kept|
      && forall j :: 0 <= j < |kept| ==> out.table.rows[j] == Project(Computed(ctx, kept[j]), template)
  {
    var ctx := ContextOf(budget, catalogue, registry.table.rows[k], template);
    var rows := ItemsRead(budget).rows;
    var kept := Kept(ctx.labels, rows);
    EmittedRows(ctx, rows);
    forall j | 0 <= j < |kept|
      ensures Project(Emitted(ctx, rows)[j], template) == Project(Computed(ctx, kept[j]), template)
    {
      ProjectPadded(Computed(ctx, kept[j]), template);
    }
  }

  /** Every output record carries the selected customer's `ID` and `Nome` and the scanned
      proposal number and date wherever the template has their columns, has exactly the
      template's columns, and is NA in every column that is not computed. */
  lemma EveryRecordCarriesContext(budget: Budget, catalogue: Table, registry: Registry, template: seq<string>,
                                  customerId: string, parseNumber: string -> Option<Cell>, k: nat)
    requires Proceeds(budget, catalogue, registry, template, customerId, parseNumber, k)
    ensures k < |registry.table.rows|
    ensures var out := ConversionOf(budget, catalogue, registry, template, customerId, parseNumber);
      var contact := registry.table.rows[k];
      var meta := ScanMetadata(budget.preview);
      && out.Output?
      && forall r :: r in out.table.rows ==>
           && (forall c :: c in r <==> c in template)
           && (forall c :: c in r && c !in ComputedKeys ==> r[c] == Missing)
           && (ContactIdKey in r ==> r[ContactIdKey] == Lookup(contact, CustomerIdColumn))
           && (ContactNameKey in r ==> r[ContactNameKey] == Lookup(contact, NameColumn))
           && (ProposalKey in r ==> r[ProposalKey] == OrNA(meta.proposal))
           && (DateKey in r ==> r[DateKey] == OrNA(meta.date))
  {
    ConversionRecords(budget, catalogue, registry, template, customerId, parseNumber, k);
    var ctx := ContextOf(budget, catalogue, registry.table.rows[k], template);
    var out := ConversionOf(budget, catalogue, registry, template, customerId, parseNumber);
    RecordsCarryContext(ctx, Kept(ctx.labels, ItemsRead(budget).rows), out.table.rows);
  }

  /** Records projected from rows of one context all carry that context. */
  lemma RecordsCarryContext(ctx: Context, kept: seq<seq<Cell>>, records: seq<map<string, Cell>>)
    requires |records| == |kept|
    requires forall j :: 0 <= j < |kept| ==> records[j] == Project(Computed(ctx, kept[j]), ctx.columns)
    ensures forall r :: r in records ==>
      && (forall c :: c in r <==> c in ctx.columns)
      && (forall c :: c in r && c !in ComputedKeys ==> r[c] == Missing)
      && (ContactIdKey in r ==> r[ContactIdKey] == ctx.contactId)
      && (ContactNameKey in r ==> r[ContactNameKey] == ctx.contactName)
      && (ProposalKey in r ==> r[ProposalKey] == OrNA(ctx.meta.proposal))
      && (DateKey in r ==> r[DateKey] == OrNA(ctx.meta.date))
  {
    forall r | r in records
      ensures && (forall c :: c in r <==> c in ctx.columns)
              && (forall c :: c in r && c !in ComputedKeys ==> r[c] == Missing)
              && (ContactIdKey in r ==> r[ContactIdKey] == ctx.contactId)
              && (ContactNameKey in r ==> r[ContactNameKey] == ctx.contactName)
              && (ProposalKey in r ==> r[ProposalKey] == OrNA(ctx.meta.proposal))
              && (DateKey in r ==> r[DateKey] == OrNA(ctx.meta.date))
    {
      var j :| 0 <= j < |records| && records[j] == r;
      RecordFields(ctx, kept[j]);
    }
  }

  /** Quantity and unit price of each kept item row reach its output record unchanged, a
      missing one as NA. */
  lemma ItemsPassThrough(budget: Budget, catalogue: Table, registry: Registry, template: seq<string>,
                         customerId: string, parseNumber: string -> Option<Cell>, k: nat)
    requires Proceeds(budget, catalogue, registry, template, customerId, parseNumber, k)
    ensures k < |registry.table.rows|
    ensures var ctx := ContextOf(budget, catalogue, registry.table.rows[k], template);
      var kept := Kept(ctx.labels, ItemsRead(budget).rows);
      var out := ConversionOf(budget, catalogue, registry, template, customerId, parseNumber);
      && out.Output? && |out.table.rows| == |kept|
      && forall j :: 0 <= j < |kept| ==>
           && (QuantityKey in template ==> out.table.rows[j][QuantityKey] == Field(ctx.labels, kept[j], QuantityLabel))
           && (PriceKey in template ==> out.table.rows[j][PriceKey] == Field(ctx.labels, kept[j], PriceLabel))
  {
    ConversionRecords(budget, catalogue, registry, template, customerId, parseNumber, k);
    var ctx := ContextOf(budget, catalogue, registry.table.rows[k], template);
    var kept := Kept(ctx.labels, ItemsRead(budget).rows);
    forall j | 0 <= j < |kept| {
      RecordFields(ctx, kept[j]);
    }
  }

  /** Whatever path the conversion takes, a table it returns has the template's columns (none
      when the catalogue lacks `MODELO`) and every record has exactly those columns. */
  lemma OutputSchema(budget: Budget, catalogue: Table, registry: Registry, template: seq<string>,
                     customerId: string, parseNumber: string -> Option<Cell>)
    ensures var out := ConversionOf(budget, catalogue, registry, template, customerId, parseNumber);
      out.Output? ==>
        && out.table.columns == (if ModelColumn in catalogue.columns then template else [])
        && forall r :: r in out.table.rows ==> forall c :: c in r <==> c in out.table.columns
  {
    var selected := SelectCustomer(registry, customerId, parseNumber);
    if ModelColumn in catalogue.columns && selected.Some? && NameColumn in registry.table.columns
       && !(|ItemsRead(budget).rows| > 0 && Ambiguous(NormalizeAll(ItemsRead(budget).labels))) {
      EveryRecordCarriesContext(budget, catalogue, registry, template, customerId, parseNumber, selected.value);
    }
  }

  /** The summary lists every logged entry once, in ascending order. */
  lemma SummaryOfLog(budget: Budget, catalogue: Table, registry: Registry, template: seq<string>,
                     customerId: string, parseNumber: string -> Option<Cell>)
    ensures var out := ConversionOf(budget, catalogue, registry, template, customerId, parseNumber);
      out.Output? ==>
        && StrictlySorted(out.summary)
        && (forall y :: y in out.summary <==> y in out.unmapped)
        && (forall i, j :: 0 <= i < |out.summary| && 0 <= j < |out.summary| && i != j ==> out.summary[i] != out.summary[j])
  {
    var out := ConversionOf(budget, catalogue, registry, template, customerId, parseNumber);
    if out.Output? {
      StrictlySortedDistinct(out.summary);
    }
  }
}
