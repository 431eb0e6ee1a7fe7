/** `converter_orcamento_para_olist` on parsed inputs, step by step as the program runs it:
    the catalogue frame gains its search column, the preview is scanned for metadata, and
    the item rows are assembled one by one. Each method is proved to compute what module
    Pipeline defines. */
module Converter {
  import opened Cells
  import opened Text
  import opened Header
  import opened Report
  import opened Catalogue
  import opened Customers
  import opened Pipeline

  /** The metadata scan: every preview row is visited, and a later labelled row overwrites
      an earlier one. The first cells are normalised before the loop rather than inside it;
      normalising has no effects, so the values compared are the same. */
  method ScanPreview(p: Preview) returns (meta: Metadata)
    ensures meta == ScanMetadata(p)
  {
    var proposal: Option<Cell> := None;
    var date: Option<Cell> := None;
    if |p.rows| > 0 && p.width > 1 {
      proposal, date := ScanLabels(Heads(p.rows), Seconds(p.rows));
    }
    meta := Metadata(proposal, date);
  }

  /** The metadata loop over the rows' normalised first cells and their second cells. */
  method ScanLabels(heads: seq<string>, values: seq<Cell>) returns (proposal: Option<Cell>, date: Option<Cell>)
    requires |heads| == |values|
    ensures proposal == LastLabelled(heads, values, ProposalLabel, |heads|)
    ensures date == LastLabelled(heads, values, DateLabel, |heads|)
  {
    proposal := None;
    date := None;
    for i := 0 to |heads|
      invariant proposal == LastLabelled(heads, values, ProposalLabel, i)
      invariant date == LastLabelled(heads, values, DateLabel, i)
    {
      if heads[i] == ProposalLabel {
        proposal := Some(values[i]);
      }
      if heads[i] == DateLabel {
        date := Some(values[i]);
      }
    }
  }

  /** The padding loop: every template column the record lacks is set to NA. */
  method PadRecord(m: map<string, Cell>, columns: seq<string>) returns (line: map<string, Cell>)
    ensures line == Padded(m, columns)
  {
    line := m;
    for j := 0 to |columns|
      invariant line == Padded(m, columns[..j])
    {
      assert columns[..j + 1] == columns[..j] + [columns[j]];
      PaddedStep(m, columns[..j], columns[j]);
      if columns[j] !in line {
        line := line[columns[j] := Missing];
      }
    }
    assert columns[..|columns|] == columns;
  }

  /** The item loop over rows whose labels are not ambiguous: blank rows are skipped, every
      other row's product is resolved, and its padded record is appended. */
  method AssembleRows(ctx: Context, frame: Frame, rows: seq<seq<Cell>>)
    returns (lines: seq<map<string, Cell>>, unmapped: seq<string>)
    requires SearchColumn in frame.columns
    requires |frame.rows| == |ctx.catalogue|
    requires forall k :: 0 <= k < |frame.rows| ==> SearchColumn in frame.rows[k] && frame.rows[k][SearchColumn].Str?
    requires forall k :: 0 <= k < |frame.rows| ==>
      ctx.catalogue[k] == Entry(frame.rows[k][SearchColumn].s, Lookup(frame.rows[k], ProductIdColumn), Lookup(frame.rows[k], DescriptionColumn))
    ensures lines == Emitted(ctx, rows)
    ensures unmapped == Misses(ctx, rows)
  {
    lines := [];
    unmapped := [];
    for i := 0 to |rows|
      invariant lines == Emitted(ctx, rows[..i])
      invariant unmapped == Misses(ctx, rows[..i])
    {
      assert rows[..i + 1][..i] == rows[..i];
      var row := rows[i];
      var product := Field(ctx.labels, row, ProductLabel);
      var quantity := Field(ctx.labels, row, QuantityLabel);
      var price := Field(ctx.labels, row, PriceLabel);
      if product.Missing? && quantity.Missing? && price.Missing? {
        continue;
      }
      var found, miss := ResolveProduct(ctx, frame, product);
      unmapped := unmapped + miss;
      var computed := map[ProposalKey := OrNA(ctx.meta.proposal),
                          DateKey := OrNA(ctx.meta.date),
                          ContactIdKey := ctx.contactId,
                          ContactNameKey := ctx.contactName,
                          ProductIdKey := if found.Found? then found.id else Missing,
                          DescriptionKey := if found.Found? then found.description else Missing,
                          QuantityKey := quantity,
                          PriceKey := price];
      var line := PadRecord(computed, ctx.columns);
      lines := lines + [line];
    }
    assert rows[..|rows|] == rows;
  }

  /** The lookup of one item's product in the indexed frame: only a non-empty name against a
      non-empty catalogue is looked up, and a miss gives one log entry. */
  method ResolveProduct(ctx: Context, frame: Frame, product: Cell) returns (found: ProductLookup, miss: seq<string>)
    requires SearchColumn in frame.columns
    requires |frame.rows| == |ctx.catalogue|
    requires forall k :: 0 <= k < |frame.rows| ==> SearchColumn in frame.rows[k] && frame.rows[k][SearchColumn].Str?
    requires forall k :: 0 <= k < |frame.rows| ==>
      ctx.catalogue[k] == Entry(frame.rows[k][SearchColumn].s, Lookup(frame.rows[k], ProductIdColumn), Lookup(frame.rows[k], DescriptionColumn))
    ensures found == LookupProduct(ctx.catalogue, Normalize(product))
    ensures miss == if found.NotFound? then [MissEntry(Normalize(product), product)] else []
  {
    var key := Normalize(product);
    found := NotSearched;
    miss := [];
    if key != "" && |frame.rows| > 0 && SearchColumn in frame.columns {
      var hit := FirstRowWith(frame.rows, SearchColumn, Str(key));
      FrameLookup(ctx.catalogue, frame.rows, key);
      match hit {
        case Some(k) =>
          found := Found(Lookup(frame.rows[k], ProductIdColumn), Lookup(frame.rows[k], DescriptionColumn));
        case None =>
          found := NotFound;
          miss := [MissEntry(key, product)];
      }
    }
  }

  /** The whole conversion. */
  method Convert(budget: Budget, catalogue: Table, registry: Registry, template: seq<string>,
                 customerId: string, parseNumber: string -> Option<Cell>) returns (out: Outcome)
    ensures out == ConversionOf(budget, catalogue, registry, template, customerId, parseNumber)
  {
    var frame := new Frame(catalogue);
    if ModelColumn !in frame.columns {
      return Output(Table([], []), [], []);
    }
    frame.AddSearchColumn();

    var meta := Metadata(None, None);
    var items := ItemSheet([], []);
    if |budget.preview.rows| > 0 {
      meta := ScanPreview(budget.preview);
      // The header row only chooses how the sheet is read again; `budget.items` is that read.
      var _ := FindHeaderRow(budget.preview, ItemKeywords);
      items := budget.items;
    }
    var labels := NormalizeAll(items.labels);

    var selected := SelectCustomer(registry, customerId, parseNumber);
    if selected.None? {
      return Output(Table(template, []), [], []);
    }
    var contact := registry.table.rows[selected.value];
    if NameColumn !in registry.table.columns {
      return Raised(MissingNameColumn);
    }
    var ctx := Context(labels, Index(catalogue.rows), meta,
                       Lookup(contact, CustomerIdColumn), Lookup(contact, NameColumn), template);
    assert ctx == ContextOf(budget, catalogue, contact, template);
    // With two item columns under one label, reading the first row raises.
    if |items.rows| > 0 && Ambiguous(labels) {
      return Raised(AmbiguousItemColumn);
    }

    IndexedFrame(catalogue.rows, frame.rows);
    var lines, unmapped := AssembleRows(ctx, frame, items.rows);
    var summary := SortedUnique(unmapped);
    var table := Table(template, []);
    if |lines| > 0 {
      table := Table(template, ProjectAll(lines, template));
    }
    out := Output(table, unmapped, summary);
  }
}
