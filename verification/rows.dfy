/** The working table of the cleaning script: one typed row per telemetry
    observation, plus the generic row filter (pandas boolean indexing) that
    every dropping stage of the pipeline is built from. */
module Rows {

  /** A nullable value: pandas' NaN/None is `None`. */
  datatype Option<T> = None | Some(value: T)

  /** The entry of `m` at `k`, if there is one. */
  function Get<K, V>(m: map<K, V>, k: K): (r: Option<V>)
    ensures r.Some? <==> k in m
    ensures r.Some? ==> r.value == m[k]
  {
    if k in m then Some(m[k]) else None
  }

  /** One row of the working table. Columns the script derives later
      (manufacturer and model from the aircraft registry, operator name, time
      slot, session tag) are `None` until the stage that computes them runs.
      Distance to the reference point and the hour and calendar date of the
      localized timestamp are taken as given inputs. */
  datatype Row = Row(
    ts: int,                  // observation instant, seconds since the epoch (UTC)
    hex: string,              // meta.hex, the transponder address
    flight: Option<string>,   // meta.flight, the call-sign
    category: Option<string>, // meta.category, the emitter category
    altitude: int,            // value.alt_geom, geometric altitude in feet
    distance: real,           // value.distance, km to the reference point
    hour: int,                // hour of ts in Europe/Paris
    date: int,                // calendar date of ts in Europe/Paris, as a day number
    maker: Option<string>,    // Fabricant, from the aircraft registry
    model: Option<string>,    // Modele, from the aircraft registry
    operator: Option<string>, // Nom_compagnie, from the operator registry
    slot: Option<string>,     // meta.creneaux
    tag: Option<nat>          // session tag
  )

  /** The rows are in timestamp order (ties in any order). */
  ghost predicate SortedByTs(rows: seq<Row>) {
    forall i, j :: 0 <= i < j < |rows| ==> rows[i].ts <= rows[j].ts
  }

  /** The rows of `s` that satisfy `keep`, in their original order. */
  function Filter<T(!new)>(s: seq<T>, keep: T -> bool): (r: seq<T>)
    ensures |r| <= |s|
    ensures forall x :: x in r <==> x in s && keep(x)
  {
    if |s| == 0 then []
    else
      var n := |s| - 1;
      assert s == s[..n] + [s[n]];
      Filter(s[..n], keep) + (if keep(s[n]) then [s[n]] else [])
  }

  /** The positions of `s` whose element satisfies `keep`, in increasing order. */
  function KeptIndices<T(!new)>(s: seq<T>, keep: T -> bool): (idx: seq<nat>)
    ensures |idx| <= |s|
    ensures forall k :: 0 <= k < |idx| ==> idx[k] < |s|
  {
    if |s| == 0 then []
    else
      var n := |s| - 1;
      KeptIndices(s[..n], keep) + (if keep(s[n]) then [n] else [])
  }

  /** The positions `Filter` keeps are strictly increasing and the filter's
      output is the input read at those positions. */
  lemma {:induction false} FilterReadsKept<T(!new)>(s: seq<T>, keep: T -> bool)
    ensures |KeptIndices(s, keep)| == |Filter(s, keep)|
    ensures forall k :: 0 <= k < |KeptIndices(s, keep)| ==>
      KeptIndices(s, keep)[k] < |s| && Filter(s, keep)[k] == s[KeptIndices(s, keep)[k]]
    ensures forall k, l :: 0 <= k < l < |KeptIndices(s, keep)| ==>
      KeptIndices(s, keep)[k] < KeptIndices(s, keep)[l]
  {
    if |s| > 0 {
      var n := |s| - 1;
      var front := s[..n];
      FilterReadsKept(front, keep);
      var idx := KeptIndices(s, keep);
      var pidx := KeptIndices(front, keep);
      var out := Filter(s, keep);
      var pout := Filter(front, keep);
      assert forall k :: 0 <= k < |pidx| ==> idx[k] == pidx[k] && out[k] == pout[k];
      if keep(s[n]) {
        assert idx[|pidx|] == n && out[|pidx|] == s[n];
      }
    }
  }

  /** The positions `Filter` keeps are exactly those whose element satisfies
      `keep`. With `FilterReadsKept` this pins the output down: a filter drops
      exactly the rejected rows and keeps the rest, in order. */
  lemma {:induction false} KeptIndicesExact<T(!new)>(s: seq<T>, keep: T -> bool)
    ensures forall i :: 0 <= i < |s| ==> (i in KeptIndices(s, keep) <==> keep(s[i]))
  {
    if |s| > 0 {
      var n := |s| - 1;
      var front := s[..n];
      KeptIndicesExact(front, keep);
      var pidx := KeptIndices(front, keep);
      assert KeptIndices(s, keep) == pidx + (if keep(s[n]) then [n] else []);
      assert forall i :: 0 <= i < n ==> front[i] == s[i];
      assert n !in pidx;
    }
  }

  /** Both facts about the kept positions at once. */
  lemma FilterSelects<T(!new)>(s: seq<T>, keep: T -> bool)
    ensures |KeptIndices(s, keep)| == |Filter(s, keep)|
    ensures forall k :: 0 <= k < |KeptIndices(s, keep)| ==>
      KeptIndices(s, keep)[k] < |s| && Filter(s, keep)[k] == s[KeptIndices(s, keep)[k]]
    ensures forall k, l :: 0 <= k < l < |KeptIndices(s, keep)| ==>
      KeptIndices(s, keep)[k] < KeptIndices(s, keep)[l]
    ensures forall i :: 0 <= i < |s| ==> (i in KeptIndices(s, keep) <==> keep(s[i]))
  {
    FilterReadsKept(s, keep);
    KeptIndicesExact(s, keep);
  }

  /** Filtering a table that is in timestamp order leaves it in timestamp order. */
  lemma FilterKeepsSorted(rows: seq<Row>, keep: Row -> bool)
    requires SortedByTs(rows)
    ensures SortedByTs(Filter(rows, keep))
  {
    FilterSelects(rows, keep);
    var idx := KeptIndices(rows, keep);
    var out := Filter(rows, keep);
    forall k, l | 0 <= k < l < |out|
      ensures out[k].ts <= out[l].ts
    {
      assert out[k] == rows[idx[k]] && out[l] == rows[idx[l]];
    }
  }

  /** Two filters applied one after the other are one filter by the
      conjunction: dropping rows in several steps is dropping them at once. */
  lemma {:induction false} FilterTwice<T(!new)>(s: seq<T>, p: T -> bool, q: T -> bool, both: T -> bool)
    requires forall x :: both(x) == (p(x) && q(x))
    ensures Filter(Filter(s, p), q) == Filter(s, both)
  {
    if |s| > 0 {
      var n := |s| - 1;
      FilterTwice(s[..n], p, q, both);
      var mid := Filter(s[..n], p);
      if p(s[n]) {
        assert Filter(s, p) == mid + [s[n]];
        assert (mid + [s[n]])[..|mid|] == mid;
      } else {
        assert Filter(s, p) == mid;
      }
    }
  }
}
