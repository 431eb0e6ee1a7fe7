/** `encontrar_linha_cabecalho`: finding the item header inside the first rows of a budget sheet. */
module Header {
  import opened Cells
  import opened Text

  /** The first rows of a sheet read without a header: its column count and its rows. */
  datatype Preview = Preview(width: nat, rows: seq<seq<Cell>>)

  /** The labels whose presence marks the header of the item table. */
  const ItemKeywords: seq<string> :=
    ["Produto", "Cor", "Qualidade", "Valor Unit\U{e1}rio", "Quantidade", "Subtotal"]

  /** A preview row as pandas holds it: exactly `width` cells, padded with missing ones. */
  function RowCells(width: nat, row: seq<Cell>): (cells: seq<Cell>)
    ensures |cells| == width
    ensures forall k :: 0 <= k < width ==> cells[k] == At(row, k)
  {
    seq(width, k requires 0 <= k < width => At(row, k))
  }

  function NormalizeAll(cells: seq<Cell>): (r: seq<string>)
    ensures |r| == |cells|
    ensures forall k :: 0 <= k < |cells| ==> r[k] == Normalize(cells[k])
  {
    seq(|cells|, k requires 0 <= k < |cells| => Normalize(cells[k]))
  }

  /** The keywords in normalised form, computed once. */
  function NormalizedKeywords(keywords: seq<string>): (r: seq<string>)
    ensures |r| == |keywords|
    ensures forall k :: 0 <= k < |keywords| ==> r[k] == Normalize(Str(keywords[k]))
  {
    seq(|keywords|, k requires 0 <= k < |keywords| => Normalize(Str(keywords[k])))
  }

  /** Every (normalised) keyword is among the row's normalised cells. */
  predicate HasKeywords(cells: seq<Cell>, normalized: seq<string>) {
    forall k :: 0 <= k < |normalized| ==> normalized[k] in NormalizeAll(cells)
  }

  predicate IsHeaderRow(p: Preview, i: nat, keywords: seq<string>)
    requires i < |p.rows|
  {
    HasKeywords(RowCells(p.width, p.rows[i]), NormalizedKeywords(keywords))
  }

  /** The index of the first preview row that carries every keyword, or None when no row does. */
  function FindHeaderRow(p: Preview, keywords: seq<string>): (r: Option<nat>)
    ensures r.Some? ==> r.value < |p.rows| && IsHeaderRow(p, r.value, keywords)
    ensures r.Some? ==> forall j :: 0 <= j < r.value ==> !IsHeaderRow(p, j, keywords)
    ensures r.None? <==> forall j :: 0 <= j < |p.rows| ==> !IsHeaderRow(p, j, keywords)
  {
    var normalized := NormalizedKeywords(keywords);
    var qualifies := (row: seq<Cell>) => HasKeywords(RowCells(p.width, row), normalized);
    assert forall j :: 0 <= j < |p.rows| ==> (IsHeaderRow(p, j, keywords) <==> qualifies(p.rows[j]));
    FirstFrom(p.rows, qualifies, 0)
  }

  /** Whether a row carries the keywords depends only on which values it holds: reordering
      its cells or adding cells never loses a match. */
  lemma MatchIgnoresOrderAndExtras(a: seq<Cell>, b: seq<Cell>, normalized: seq<string>)
    requires multiset(a) <= multiset(b)
    requires HasKeywords(a, normalized)
    ensures HasKeywords(b, normalized)
  {
    forall k | 0 <= k < |normalized| ensures normalized[k] in NormalizeAll(b) {
      var na := NormalizeAll(a);
      var j :| 0 <= j < |a| && na[j] == normalized[k];
      assert a[j] in multiset(a);
      assert a[j] in b;
      var m :| 0 <= m < |b| && b[m] == a[j];
      assert NormalizeAll(b)[m] == normalized[k];
    }
  }
}
