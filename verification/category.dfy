/** Category backfill and allow-list (cleaner.py, lines 101-118): a category
    still null after the gap-fill is taken from the category table, keyed by
    "<manufacturer> <model>", and only the fixed-wing categories A1 to A5 are
    kept. */
module CategoryFilter {
  import opened Rows

  /** `str(x)` of a possibly null cell: pandas renders a null as "nan". */
  function CellText(v: Option<string>): string {
    if v.Some? then v.value else "nan"
  }

  /** The join key `Fabricant_Modele` of lines 103-105. */
  function CategoryKey(r: Row): string {
    CellText(r.maker) + " " + CellText(r.model)
  }

  /** The category the table gives a row, if any (the left join of line 108). */
  function TableCategory(r: Row, table: map<string, string>): Option<string> {
    if CategoryKey(r) in table then Some(table[CategoryKey(r)]) else None
  }

  /** Line 111: the row's own category wins; the table fills it only when it
      is null, and a null stays null when the table has no entry. */
  function ResolveCategory(r: Row, table: map<string, string>): (c: Option<string>)
    ensures r.category.Some? ==> c == r.category
    ensures r.category.None? && CategoryKey(r) in table ==> c == Some(table[CategoryKey(r)])
    ensures r.category.None? && CategoryKey(r) !in table ==> c.None?
  {
    match r.category
    case Some(_) => r.category
    case None => TableCategory(r, table)
  }

  /** Lines 103-111 over the table: the manufacturer and model columns become
      text ("nan" for a null), the category is resolved, and nothing else
      changes. */
  function BackfillCategories(rows: seq<Row>, table: map<string, string>): (out: seq<Row>)
    ensures |out| == |rows|
    ensures forall i :: 0 <= i < |rows| ==>
      out[i] == rows[i].(maker := Some(CellText(rows[i].maker)), model := Some(CellText(rows[i].model)),
                         category := ResolveCategory(rows[i], table))
  {
    seq(|rows|, i requires 0 <= i < |rows| =>
      rows[i].(maker := Some(CellText(rows[i].maker)), model := Some(CellText(rows[i].model)),
               category := ResolveCategory(rows[i], table)))
  }

  /** Backfilling twice is backfilling once: the text names read the same, a
      category the first pass set is kept, and one it left null finds no table
      entry the second time either. */
  lemma BackfillIdempotent(rows: seq<Row>, table: map<string, string>)
    ensures BackfillCategories(BackfillCategories(rows, table), table) == BackfillCategories(rows, table)
  {
    var once := BackfillCategories(rows, table);
    forall i | 0 <= i < |rows|
      ensures ResolveCategory(once[i], table) == once[i].category
    {
      assert CategoryKey(once[i]) == CategoryKey(rows[i]);
    }
  }

  /** The allow-list of line 118 (A4 included). */
  const AllowedCategories: set<string> := {"A1", "A2", "A3", "A4", "A5"}

  predicate Allowed(r: Row) {
    r.category.Some? && r.category.value in AllowedCategories
  }

  /** Line 118: exactly the rows whose category is one of A1-A5 survive,
      in order; a null category is dropped. */
  function KeepAllowed(rows: seq<Row>): (out: seq<Row>)
    ensures out == Filter(rows, Allowed)
    ensures forall r :: r in out <==> r in rows && Allowed(r)
  {
    Filter(rows, Allowed)
  }

  /** After backfill and allow-list, each surviving row's category is its own
      category if that was known and the table's otherwise, and lies in A1-A5. */
  lemma ResolvedSurvivors(rows: seq<Row>, table: map<string, string>)
    ensures forall r :: r in KeepAllowed(BackfillCategories(rows, table)) ==>
      r.category.Some? && r.category.value in AllowedCategories
    ensures forall i :: 0 <= i < |rows| ==>
      (BackfillCategories(rows, table)[i] in KeepAllowed(BackfillCategories(rows, table)) <==>
       (rows[i].category.Some? && rows[i].category.value in AllowedCategories) ||
       (rows[i].category.None? && CategoryKey(rows[i]) in table && table[CategoryKey(rows[i])] in AllowedCategories))
  {
    var filled := BackfillCategories(rows, table);
    forall i | 0 <= i < |rows|
      ensures filled[i] in filled
    {
    }
  }
}
