/** Flattening of the raw telemetry documents (cleaner.py, lines 35-43): each
    nested document becomes one flat row whose columns are `ts` and one
    prefixed column per key of its `meta` and `value` sub-documents. */
module Flatten {
  import opened Rows

  /** A raw telemetry document. A sub-document that is absent is `None`; a
      field whose value is null is `None` inside the sub-document. */
  datatype Document = Document(
    ts: int,
    meta: Option<map<string, Option<string>>>,
    value: Option<map<string, Option<string>>>)

  /** A flattened row: the copied timestamp and the prefixed columns. */
  datatype FlatRow = FlatRow(ts: int, columns: map<string, Option<string>>)

  const MetaPrefix := "meta."
  const ValuePrefix := "value."

  /** An empty string stands for a missing value. */
  function Blank(v: Option<string>): (r: Option<string>)
    ensures r.None? <==> v.None? || v.value == ""
    ensures r.Some? ==> r == v
  {
    if v.Some? && v.value == "" then None else v
  }

  /** `doc.get(key, {})`: an absent sub-document reads as empty. */
  function Fields(m: Option<map<string, Option<string>>>): map<string, Option<string>> {
    if m.Some? then m.value else map[]
  }

  lemma PrefixInjective(p: string, a: string, b: string)
    requires p + a == p + b
    ensures a == b
  {
    assert a == (p + a)[|p|..];
    assert b == (p + b)[|p|..];
  }

  /** The columns `<p><key>` for the keys of `m`, each holding the blanked value. */
  function Prefixed(p: string, m: map<string, Option<string>>): (cols: map<string, Option<string>>)
    ensures forall k :: k in m ==> p + k in cols && cols[p + k] == Blank(m[k])
    ensures forall c :: c in cols ==> |p| <= |c| && c[..|p|] == p && c[|p|..] in m
  {
    forall a, b | a in m && b in m && p + a == p + b
      ensures Blank(m[a]) == Blank(m[b])
    {
      PrefixInjective(p, a, b);
    }
    map k | k in m :: p + k := Blank(m[k])
  }

  /** The columns of a flattened document: the `meta.` ones and the `value.` ones. */
  function Columns(d: Document): map<string, Option<string>> {
    Prefixed(MetaPrefix, Fields(d.meta)) + Prefixed(ValuePrefix, Fields(d.value))
  }

  /** No column name starts with both prefixes. */
  lemma PrefixesDisjoint(d: Document)
    ensures forall c :: c in Prefixed(MetaPrefix, Fields(d.meta)) ==>
      c[0] == 'm' && c !in Prefixed(ValuePrefix, Fields(d.value))
    ensures forall c :: c in Prefixed(ValuePrefix, Fields(d.value)) ==> c[0] == 'v'
  {
  }

  /** Flattens one document: `ts` copied verbatim, every `meta` key under
      `meta.<key>`, every `value` key under `value.<key>`, an empty string
      turned into null, and no other column. */
  function FlattenDocument(d: Document): (r: FlatRow)
    ensures r.ts == d.ts
    ensures forall k :: k in Fields(d.meta) ==>
      MetaPrefix + k in r.columns && r.columns[MetaPrefix + k] == Blank(Fields(d.meta)[k])
    ensures forall k :: k in Fields(d.value) ==>
      ValuePrefix + k in r.columns && r.columns[ValuePrefix + k] == Blank(Fields(d.value)[k])
    ensures forall c :: c in r.columns ==>
      (|MetaPrefix| <= |c| && c[..|MetaPrefix|] == MetaPrefix && c[|MetaPrefix|..] in Fields(d.meta)) ||
      (|ValuePrefix| <= |c| && c[..|ValuePrefix|] == ValuePrefix && c[|ValuePrefix|..] in Fields(d.value))
  {
    PrefixesDisjoint(d);
    FlatRow(d.ts, Columns(d))
  }

  /** The loop of lines 36-43: one flat row per document, in order. */
  function FlattenAll(docs: seq<Document>): (rows: seq<FlatRow>)
    ensures |rows| == |docs|
    ensures forall i :: 0 <= i < |docs| ==> rows[i] == FlattenDocument(docs[i])
  {
    seq(|docs|, i requires 0 <= i < |docs| => FlattenDocument(docs[i]))
  }

  /** Every field of a sub-document, blanked. */
  function BlankAll(m: map<string, Option<string>>): map<string, Option<string>> {
    map k | k in m :: Blank(m[k])
  }

  /** Reads back the sub-document stored under prefix `p`: the inverse of
      `Prefixed`. */
  function Unprefixed(p: string, cols: map<string, Option<string>>): (m: map<string, Option<string>>)
    ensures forall k :: k in m <==> p + k in cols
    ensures forall k :: k in m ==> m[k] == cols[p + k]
  {
    forall c1, c2 | c1 in cols && c2 in cols && |p| <= |c1| && c1[..|p|] == p &&
                    |p| <= |c2| && c2[..|p|] == p && c1[|p|..] == c2[|p|..]
      ensures cols[c1] == cols[c2]
    {
      assert c1 == c1[..|p|] + c1[|p|..];
      assert c2 == c2[..|p|] + c2[|p|..];
    }
    var m := map c | c in cols && |p| <= |c| && c[..|p|] == p :: c[|p|..] := cols[c];
    forall k | p + k in cols
      ensures k in m
    {
      var c := p + k;
      assert c[..|p|] == p && c[|p|..] == k;
    }
    forall k | k in m
      ensures p + k in cols && m[k] == cols[p + k]
    {
      var c :| c in cols && |p| <= |c| && c[..|p|] == p && c[|p|..] == k;
      assert c == p + k;
    }
    m
  }

  /** Reading prefix `p` back from a column map that holds the prefixed
      columns of `m` and no other column with that prefix gives `m`, blanked. */
  lemma ReadBack(p: string, m: map<string, Option<string>>, cols: map<string, Option<string>>)
    requires forall c :: c in Prefixed(p, m) ==> c in cols && cols[c] == Prefixed(p, m)[c]
    requires forall c :: c in cols && |p| <= |c| && c[..|p|] == p ==> c in Prefixed(p, m)
    ensures Unprefixed(p, cols) == BlankAll(m)
  {
    var back := Unprefixed(p, cols);
    forall k | k in back
      ensures k in m
    {
      var c := p + k;
      assert c[..|p|] == p;
      assert c[|p|..] == k;
    }
  }

  /** The columns of a flattened document that carry the `meta.` prefix are
      exactly its `meta.` columns, and likewise for `value.`. */
  lemma ColumnsByPrefix(d: Document)
    ensures forall c :: c in Columns(d) && |MetaPrefix| <= |c| && c[..|MetaPrefix|] == MetaPrefix ==>
      c in Prefixed(MetaPrefix, Fields(d.meta))
    ensures forall c :: c in Columns(d) && |ValuePrefix| <= |c| && c[..|ValuePrefix|] == ValuePrefix ==>
      c in Prefixed(ValuePrefix, Fields(d.value))
  {
    var metaCols := Prefixed(MetaPrefix, Fields(d.meta));
    var valueCols := Prefixed(ValuePrefix, Fields(d.value));
    PrefixesDisjoint(d);
    forall c | c in Columns(d) && |MetaPrefix| <= |c| && c[..|MetaPrefix|] == MetaPrefix
      ensures c in metaCols
    {
      assert c[..|MetaPrefix|][0] == c[0] == 'm';
    }
    forall c | c in Columns(d) && |ValuePrefix| <= |c| && c[..|ValuePrefix|] == ValuePrefix
      ensures c in valueCols
    {
      assert c[..|ValuePrefix|][0] == c[0] == 'v';
    }
  }

  /** Round trip: reading the `meta.` and `value.` columns of a flattened row
      back gives the document's sub-documents with empty strings turned into
      nulls, so flattening neither loses, invents nor alters a field. */
  lemma FlattenRoundTrip(d: Document)
    ensures Unprefixed(MetaPrefix, FlattenDocument(d).columns) == BlankAll(Fields(d.meta))
    ensures Unprefixed(ValuePrefix, FlattenDocument(d).columns) == BlankAll(Fields(d.value))
  {
    assert FlattenDocument(d).columns == Columns(d);
    PrefixesDisjoint(d);
    ColumnsByPrefix(d);
    ReadBack(MetaPrefix, Fields(d.meta), Columns(d));
    ReadBack(ValuePrefix, Fields(d.value), Columns(d));
  }
}
