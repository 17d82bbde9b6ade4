/** Gap-fill of the call-sign and category (cleaner.py, lines 49-57): within
    each aircraft (`meta.hex`) group, taken in timestamp order, a null is
    replaced by the next known value of the group (backward fill), and a null
    still left is replaced by the last known value before it (forward fill).
    The two columns are filled independently.

    The fill is stated over two parallel sequences, the group keys and the
    values, so that one definition serves both columns. `NextKnown`,
    `PrevKnown` and `FillAt` are the declarative definition; `BackwardFill`
    and `ForwardFill` are the two explicit scans, each carrying per-key state,
    and `FillByKey` is proved to compute the declarative result. */
module GapFill {
  import opened Rows

  /** Group `k` has no known value at positions `lo` to `hi - 1`. */
  ghost predicate UnknownBetween<V>(keys: seq<string>, vals: seq<Option<V>>, lo: int, hi: int, k: string)
    requires |keys| == |vals|
  {
    forall m :: 0 <= lo <= m < hi <= |keys| && keys[m] == k ==> vals[m].None?
  }

  /** The first known value of group `k` at or after position `i`: the value
      at the nearest position from `i` on where the group has one, and null
      when there is none. */
  function NextKnown<V>(keys: seq<string>, vals: seq<Option<V>>, i: nat, k: string): (r: Option<V>)
    requires |keys| == |vals| && i <= |keys|
    ensures r.Some? ==> exists j :: i <= j < |keys| && keys[j] == k && vals[j] == r
    ensures r.None? <==> forall j :: i <= j < |keys| && keys[j] == k ==> vals[j].None?
    decreases |keys| - i
  {
    if i == |keys| then None
    else if keys[i] == k && vals[i].Some? then vals[i]
    else NextKnown(keys, vals, i + 1, k)
  }

  /** The last known value of group `k` strictly before position `i`: the
      value at the nearest earlier position where the group has one, and null
      when there is none. */
  function PrevKnown<V>(keys: seq<string>, vals: seq<Option<V>>, i: nat, k: string): (r: Option<V>)
    requires |keys| == |vals| && i <= |keys|
    ensures r.Some? ==> exists j :: 0 <= j < i && keys[j] == k && vals[j] == r
    ensures r.None? <==> forall j :: 0 <= j < i && keys[j] == k ==> vals[j].None?
  {
    if i == 0 then None
    else if keys[i - 1] == k && vals[i - 1].Some? then vals[i - 1]
    else PrevKnown(keys, vals, i - 1, k)
  }

  /** `NextKnown` takes the nearest known value: if position `j` holds a value
      of group `k` and the group has none from `i` up to `j`, that value is
      the next known one at `i`. */
  lemma {:induction false} NextKnownNearest<V>(keys: seq<string>, vals: seq<Option<V>>, i: nat, j: nat, k: string)
    requires |keys| == |vals| && i <= j < |keys|
    requires keys[j] == k && vals[j].Some? && UnknownBetween(keys, vals, i, j, k)
    ensures NextKnown(keys, vals, i, k) == vals[j]
    decreases j - i
  {
    if i < j {
      assert !(keys[i] == k && vals[i].Some?);
      NextKnownNearest(keys, vals, i + 1, j, k);
    }
  }

  /** `PrevKnown` takes the nearest known value: if position `j < i` holds a
      value of group `k` and the group has none after `j` and before `i`,
      that value is the last known one before `i`. */
  lemma {:induction false} PrevKnownNearest<V>(keys: seq<string>, vals: seq<Option<V>>, i: nat, j: nat, k: string)
    requires |keys| == |vals| && j < i <= |keys|
    requires keys[j] == k && vals[j].Some? && UnknownBetween(keys, vals, j + 1, i, k)
    ensures PrevKnown(keys, vals, i, k) == vals[j]
    decreases i - j
  {
    if j < i - 1 {
      assert !(keys[i - 1] == k && vals[i - 1].Some?);
      PrevKnownNearest(keys, vals, i - 1, j, k);
    }
  }

  /** The value position `i` holds after backward fill then forward fill. A
      known value is never changed; a filled value comes from the same group;
      a group with any known value ends with no null at all; and a null takes
      the nearest later known value of its group, or, when the group has none
      later, the nearest earlier one. */
  function FillAt<V>(keys: seq<string>, vals: seq<Option<V>>, i: nat): (r: Option<V>)
    requires |keys| == |vals| && i < |keys|
    ensures vals[i].Some? ==> r == vals[i]
    ensures r.Some? ==> exists j :: 0 <= j < |keys| && keys[j] == keys[i] && vals[j] == r
    ensures (exists j :: 0 <= j < |keys| && keys[j] == keys[i] && vals[j].Some?) ==> r.Some?
    ensures forall j :: i < j < |keys| && keys[j] == keys[i] && vals[j].Some? &&
                        UnknownBetween(keys, vals, i, j, keys[i])
                        ==> r == vals[j]
    ensures UnknownBetween(keys, vals, i, |keys|, keys[i]) ==>
      forall j :: 0 <= j < i && keys[j] == keys[i] && vals[j].Some? &&
                  UnknownBetween(keys, vals, j + 1, i, keys[i])
                  ==> r == vals[j]
  {
    forall j | i < j < |keys| && keys[j] == keys[i] && vals[j].Some? && UnknownBetween(keys, vals, i, j, keys[i])
      ensures NextKnown(keys, vals, i, keys[i]) == vals[j]
    {
      NextKnownNearest(keys, vals, i, j, keys[i]);
    }
    forall j | 0 <= j < i && keys[j] == keys[i] && vals[j].Some? && UnknownBetween(keys, vals, j + 1, i, keys[i])
      ensures PrevKnown(keys, vals, i, keys[i]) == vals[j]
    {
      PrevKnownNearest(keys, vals, i, j, keys[i]);
    }
    var next := NextKnown(keys, vals, i, keys[i]);
    if next.Some? then next else PrevKnown(keys, vals, i, keys[i])
  }

  /** The whole column after the fill. */
  function Filled<V>(keys: seq<string>, vals: seq<Option<V>>): (r: seq<Option<V>>)
    requires |keys| == |vals|
    ensures |r| == |vals|
    ensures forall i :: 0 <= i < |vals| ==> r[i] == FillAt(keys, vals, i)
  {
    seq(|vals|, i requires 0 <= i < |vals| => FillAt(keys, vals, i))
  }

  /** A null with a known value later in its group, and none in between,
      takes that value. */
  lemma FillFromLater<V>(keys: seq<string>, vals: seq<Option<V>>, i: nat, j: nat)
    requires |keys| == |vals| && i < j < |keys|
    requires keys[j] == keys[i] && vals[j].Some?
    requires forall m :: i <= m < j && keys[m] == keys[i] ==> vals[m].None?
    ensures FillAt(keys, vals, i) == vals[j]
  {
    assert UnknownBetween(keys, vals, i, j, keys[i]);
  }

  /** A position after the last known value of its group takes that value. */
  lemma FillFromEarlier<V>(keys: seq<string>, vals: seq<Option<V>>, i: nat, j: nat)
    requires |keys| == |vals| && j < i < |keys|
    requires keys[j] == keys[i] && vals[j].Some?
    requires forall m :: j < m < |keys| && keys[m] == keys[i] ==> vals[m].None?
    ensures FillAt(keys, vals, i) == vals[j]
  {
    assert UnknownBetween(keys, vals, i, |keys|, keys[i]);
    assert UnknownBetween(keys, vals, j + 1, i, keys[i]);
  }

  /** Between two known values of one group, a null takes the later one:
      backward fill runs first. */
  lemma LaterValueWins()
    ensures Filled(["3C6444", "3C6444", "3C6444"], [Some("A"), None, Some("B")]) ==
            [Some("A"), Some("B"), Some("B")]
  {
    FillFromLater(["3C6444", "3C6444", "3C6444"], [Some("A"), None, Some("B")], 1, 2);
  }

  /** Filling an already filled column changes nothing. */
  lemma FillIdempotent<V>(keys: seq<string>, vals: seq<Option<V>>)
    requires |keys| == |vals|
    ensures Filled(keys, Filled(keys, vals)) == Filled(keys, vals)
  {
    var once := Filled(keys, vals);
    var twice := Filled(keys, once);
    forall i | 0 <= i < |vals|
      ensures twice[i] == once[i]
    {
      if once[i].None? {
        // The group has no known value, so the first fill left all of it null.
        assert forall j :: 0 <= j < |keys| && keys[j] == keys[i] ==> once[j].None?;
      }
    }
  }

  /** The backward scan's state at position `i`: for every group, the first
      known value at or after `i`. */
  ghost predicate NextState<V>(keys: seq<string>, vals: seq<Option<V>>, i: nat, next: map<string, V>)
    requires |keys| == |vals| && i <= |keys|
  {
    forall k :: NextKnown(keys, vals, i, k) == Get(next, k)
  }

  /** Stepping the backward scan from position `j` to `j - 1`: the value
      written at `j - 1` is the next known value of its group, and recording
      a known value there gives the state at `j - 1`. */
  lemma BackStep<V>(keys: seq<string>, vals: seq<Option<V>>, j: nat, next: map<string, V>, next': map<string, V>)
    requires |keys| == |vals| && 0 < j <= |keys|
    requires NextState(keys, vals, j, next)
    requires next' == if vals[j - 1].Some? then next[keys[j - 1] := vals[j - 1].value] else next
    ensures NextKnown(keys, vals, j - 1, keys[j - 1]) ==
            (if vals[j - 1].Some? then vals[j - 1] else Get(next, keys[j - 1]))
    ensures NextState(keys, vals, j - 1, next')
  {
    assert NextKnown(keys, vals, j, keys[j - 1]) == Get(next, keys[j - 1]);
    forall k ensures NextKnown(keys, vals, j - 1, k) == Get(next', k) {
      assert NextKnown(keys, vals, j, k) == Get(next, k);
    }
  }

  /** Position `j` of `b` holds the backward fill. */
  ghost predicate BackFilledAt<V>(keys: seq<string>, vals: seq<Option<V>>, b: seq<Option<V>>, j: nat)
    requires |keys| == |vals| == |b| && j < |b|
  {
    b[j] == NextKnown(keys, vals, j, keys[j])
  }

  /** Positions `i` onwards of `b` hold the backward fill. */
  ghost predicate BackFilledFrom<V>(keys: seq<string>, vals: seq<Option<V>>, b: seq<Option<V>>, i: nat)
    requires |keys| == |vals| == |b|
  {
    forall j :: i <= j < |vals| ==> BackFilledAt(keys, vals, b, j)
  }

  /** Writing the next known value at `j - 1` extends the filled suffix. */
  lemma BackFilledStep<V>(keys: seq<string>, vals: seq<Option<V>>, b: seq<Option<V>>, j: nat, here: Option<V>)
    requires |keys| == |vals| == |b| && 0 < j <= |keys|
    requires BackFilledFrom(keys, vals, b, j)
    requires here == NextKnown(keys, vals, j - 1, keys[j - 1])
    ensures BackFilledFrom(keys, vals, b[j - 1 := here], j - 1)
  {
    var b' := b[j - 1 := here];
    forall m | j - 1 <= m < |vals|
      ensures BackFilledAt(keys, vals, b', m)
    {
      if m >= j {
        assert BackFilledAt(keys, vals, b, m);
      }
    }
  }

  /** The backward pass (`bfill`): a scan from the end of the column that
      remembers, per key, the value most recently seen. */
  method BackwardFill<V>(keys: seq<string>, vals: seq<Option<V>>) returns (b: seq<Option<V>>)
    requires |keys| == |vals|
    ensures |b| == |vals|
    ensures forall j :: 0 <= j < |vals| ==> BackFilledAt(keys, vals, b, j)
  {
    var next: map<string, V> := map[];
    b := seq(|vals|, _ => None);
    assert BackFilledFrom(keys, vals, b, |vals|);
    assert NextState(keys, vals, |vals|, next);
    var i := |vals|;
    while i > 0
      invariant 0 <= i <= |vals| && |b| == |vals|
      invariant BackFilledFrom(keys, vals, b, i)
      invariant NextState(keys, vals, i, next)
    {
      var here := if vals[i - 1].Some? then vals[i - 1] else Get(next, keys[i - 1]);
      var next' := if vals[i - 1].Some? then next[keys[i - 1] := vals[i - 1].value] else next;
      BackStep(keys, vals, i, next, next');
      BackFilledStep(keys, vals, b, i, here);
      b := b[i - 1 := here];
      next := next';
      i := i - 1;
    }
  }

  /** The forward scan's state at position `i`: for every group, the last
      known value before `i`. */
  ghost predicate PrevState<V>(keys: seq<string>, vals: seq<Option<V>>, i: nat, last: map<string, V>)
    requires |keys| == |vals| && i <= |keys|
  {
    forall k :: PrevKnown(keys, vals, i, k) == Get(last, k)
  }

  /** Stepping the forward scan from position `i` to `i + 1`: the state gives
      the last known value before `i`, and recording a known value at `i`
      gives the state at `i + 1`. */
  lemma ForwardStep<V>(keys: seq<string>, vals: seq<Option<V>>, i: nat, last: map<string, V>, last': map<string, V>)
    requires |keys| == |vals| && i < |keys|
    requires PrevState(keys, vals, i, last)
    requires last' == if vals[i].Some? then last[keys[i] := vals[i].value] else last
    ensures PrevKnown(keys, vals, i, keys[i]) == Get(last, keys[i])
    ensures PrevState(keys, vals, i + 1, last')
  {
    forall k ensures PrevKnown(keys, vals, i + 1, k) == Get(last', k) {
      assert PrevKnown(keys, vals, i, k) == Get(last, k);
    }
  }

  /** Position `j` of `f` holds the forward fill of `vals`. */
  ghost predicate ForwardFilledAt<V>(keys: seq<string>, vals: seq<Option<V>>, f: seq<Option<V>>, j: nat)
    requires |keys| == |vals| && j < |vals| && j < |f|
  {
    f[j] == if vals[j].Some? then vals[j] else PrevKnown(keys, vals, j, keys[j])
  }

  /** Appending the forward fill of the next position extends the filled
      prefix. */
  lemma ForwardFilledStep<V>(keys: seq<string>, vals: seq<Option<V>>, f: seq<Option<V>>, here: Option<V>)
    requires |keys| == |vals| && |f| < |vals|
    requires forall j :: 0 <= j < |f| ==> ForwardFilledAt(keys, vals, f, j)
    requires here == if vals[|f|].Some? then vals[|f|] else PrevKnown(keys, vals, |f|, keys[|f|])
    ensures forall j :: 0 <= j < |f| + 1 ==> ForwardFilledAt(keys, vals, f + [here], j)
  {
    forall j | 0 <= j < |f| + 1
      ensures ForwardFilledAt(keys, vals, f + [here], j)
    {
      if j < |f| {
        assert ForwardFilledAt(keys, vals, f, j);
      }
    }
  }

  /** The forward pass (`ffill`): a scan from the start of the column that
      remembers, per key, the last value seen. */
  method ForwardFill<V>(keys: seq<string>, vals: seq<Option<V>>) returns (f: seq<Option<V>>)
    requires |keys| == |vals|
    ensures |f| == |vals|
    ensures forall j :: 0 <= j < |vals| ==> ForwardFilledAt(keys, vals, f, j)
  {
    var last: map<string, V> := map[];
    f := [];
    var i := 0;
    assert PrevState(keys, vals, 0, last);
    while i < |vals|
      invariant 0 <= i <= |vals|
      invariant |f| == i
      invariant forall j :: 0 <= j < i ==> ForwardFilledAt(keys, vals, f, j)
      invariant PrevState(keys, vals, i, last)
    {
      var here := if vals[i].Some? then vals[i] else Get(last, keys[i]);
      var last' := if vals[i].Some? then last[keys[i] := vals[i].value] else last;
      ForwardStep(keys, vals, i, last, last');
      ForwardFilledStep(keys, vals, f, here);
      f := f + [here];
      last := last';
      i := i + 1;
    }
  }

  /** After the backward pass a null survives only where the group has no
      known value from there on, and then the last value before it in the
      backward-filled column is the last known value before it originally. */
  lemma {:induction false} PrevAfterBackward<V>(keys: seq<string>, vals: seq<Option<V>>, b: seq<Option<V>>, i: nat, k: string)
    requires |keys| == |vals| == |b| && i <= |keys|
    requires forall j :: 0 <= j < i ==> BackFilledAt(keys, vals, b, j)
    requires NextKnown(keys, vals, i, k).None?
    ensures PrevKnown(keys, b, i, k) == PrevKnown(keys, vals, i, k)
    decreases i
  {
    if i > 0 {
      var j := i - 1;
      assert BackFilledAt(keys, vals, b, j);
      if keys[j] != k || vals[j].None? {
        assert NextKnown(keys, vals, j, k) == NextKnown(keys, vals, i, k);
        PrevAfterBackward(keys, vals, b, j, k);
      }
    }
  }

  /** Both passes over one column: the result is the declarative fill. */
  method FillByKey<V>(keys: seq<string>, vals: seq<Option<V>>) returns (f: seq<Option<V>>)
    requires |keys| == |vals|
    ensures f == Filled(keys, vals)
  {
    var b := BackwardFill(keys, vals);
    f := ForwardFill(keys, b);
    forall i | 0 <= i < |vals|
      ensures f[i] == FillAt(keys, vals, i)
    {
      assert BackFilledAt(keys, vals, b, i);
      assert ForwardFilledAt(keys, b, f, i);
      if b[i].None? {
        PrevAfterBackward(keys, vals, b, i, keys[i]);
      }
    }
  }

  function Hexes(rows: seq<Row>): (r: seq<string>)
    ensures |r| == |rows| && forall i :: 0 <= i < |rows| ==> r[i] == rows[i].hex
  {
    seq(|rows|, i requires 0 <= i < |rows| => rows[i].hex)
  }

  function Flights(rows: seq<Row>): (r: seq<Option<string>>)
    ensures |r| == |rows| && forall i :: 0 <= i < |rows| ==> r[i] == rows[i].flight
  {
    seq(|rows|, i requires 0 <= i < |rows| => rows[i].flight)
  }

  function Categories(rows: seq<Row>): (r: seq<Option<string>>)
    ensures |r| == |rows| && forall i :: 0 <= i < |rows| ==> r[i] == rows[i].category
  {
    seq(|rows|, i requires 0 <= i < |rows| => rows[i].category)
  }

  /** The table after lines 50-57: call-sign and category filled per hex,
      every other column untouched. */
  function FillRows(rows: seq<Row>): (out: seq<Row>)
    ensures |out| == |rows|
    ensures forall i :: 0 <= i < |rows| ==>
      out[i] == rows[i].(flight := out[i].flight, category := out[i].category)
    ensures Flights(out) == Filled(Hexes(rows), Flights(rows))
    ensures Categories(out) == Filled(Hexes(rows), Categories(rows))
  {
    var hexes := Hexes(rows);
    var flights := Filled(hexes, Flights(rows));
    var categories := Filled(hexes, Categories(rows));
    seq(|rows|, i requires 0 <= i < |rows| => rows[i].(flight := flights[i], category := categories[i]))
  }

  /** What the gap-fill promises of the call-sign: a known call-sign is never
      changed, a filled one is a call-sign of the same aircraft, and an
      aircraft with any known call-sign has none left null. */
  lemma FlightFillProperties(rows: seq<Row>)
    ensures forall i :: 0 <= i < |rows| && rows[i].flight.Some? ==>
      FillRows(rows)[i].flight == rows[i].flight
    ensures forall i :: 0 <= i < |rows| && FillRows(rows)[i].flight.Some? ==>
      exists j :: 0 <= j < |rows| && rows[j].hex == rows[i].hex && rows[j].flight == FillRows(rows)[i].flight
    ensures forall i, j ::
              (0 <= i < |rows| && 0 <= j < |rows| && rows[j].hex == rows[i].hex && rows[j].flight.Some?) ==>
              FillRows(rows)[i].flight.Some?
  {
    var out := FillRows(rows);
    forall i | 0 <= i < |rows|
      ensures out[i].flight == FillAt(Hexes(rows), Flights(rows), i)
    {
      assert out[i].flight == Flights(out)[i];
    }
  }

  /** Which known call-sign fills a null: the nearest later one of the same
      aircraft, and only after the aircraft's last known one, the nearest
      earlier one. */
  lemma FlightFillNearest(rows: seq<Row>)
    ensures forall i, j ::
              (0 <= i < j < |rows| && rows[j].hex == rows[i].hex && rows[j].flight.Some? &&
               forall m :: i <= m < j && rows[m].hex == rows[i].hex ==> rows[m].flight.None?)
              ==> FillRows(rows)[i].flight == rows[j].flight
    ensures forall i, j ::
              (0 <= j < i < |rows| && rows[j].hex == rows[i].hex && rows[j].flight.Some? &&
               forall m :: j < m < |rows| && rows[m].hex == rows[i].hex ==> rows[m].flight.None?)
              ==> FillRows(rows)[i].flight == rows[j].flight
  {
    forall i, j | 0 <= i < j < |rows| && rows[j].hex == rows[i].hex && rows[j].flight.Some? &&
                  forall m :: i <= m < j && rows[m].hex == rows[i].hex ==> rows[m].flight.None?
      ensures FillRows(rows)[i].flight == rows[j].flight
    {
      FlightFromLater(rows, i, j);
    }
    forall i, j | 0 <= j < i < |rows| && rows[j].hex == rows[i].hex && rows[j].flight.Some? &&
                  forall m :: j < m < |rows| && rows[m].hex == rows[i].hex ==> rows[m].flight.None?
      ensures FillRows(rows)[i].flight == rows[j].flight
    {
      FlightFromEarlier(rows, i, j);
    }
  }

  /** One null call-sign filled from the nearest later known one. */
  lemma FlightFromLater(rows: seq<Row>, i: nat, j: nat)
    requires i < j < |rows| && rows[j].hex == rows[i].hex && rows[j].flight.Some?
    requires forall m :: i <= m < j && rows[m].hex == rows[i].hex ==> rows[m].flight.None?
    ensures FillRows(rows)[i].flight == rows[j].flight
  {
    var keys, vals := Hexes(rows), Flights(rows);
    forall m | i <= m < j && keys[m] == keys[i]
      ensures vals[m].None?
    {
    }
    FillFromLater(keys, vals, i, j);
    assert FillRows(rows)[i].flight == Flights(FillRows(rows))[i];
  }

  /** One null call-sign after the last known one filled from it. */
  lemma FlightFromEarlier(rows: seq<Row>, i: nat, j: nat)
    requires j < i < |rows| && rows[j].hex == rows[i].hex && rows[j].flight.Some?
    requires forall m :: j < m < |rows| && rows[m].hex == rows[i].hex ==> rows[m].flight.None?
    ensures FillRows(rows)[i].flight == rows[j].flight
  {
    var keys, vals := Hexes(rows), Flights(rows);
    forall m | j < m < |keys| && keys[m] == keys[i]
      ensures vals[m].None?
    {
    }
    FillFromEarlier(keys, vals, i, j);
    assert FillRows(rows)[i].flight == Flights(FillRows(rows))[i];
  }

  /** The same three promises for the category. */
  lemma CategoryFillProperties(rows: seq<Row>)
    ensures forall i :: 0 <= i < |rows| && rows[i].category.Some? ==>
      FillRows(rows)[i].category == rows[i].category
    ensures forall i :: 0 <= i < |rows| && FillRows(rows)[i].category.Some? ==>
      exists j :: 0 <= j < |rows| && rows[j].hex == rows[i].hex && rows[j].category == FillRows(rows)[i].category
    ensures forall i, j ::
              (0 <= i < |rows| && 0 <= j < |rows| && rows[j].hex == rows[i].hex && rows[j].category.Some?) ==>
              FillRows(rows)[i].category.Some?
  {
    var out := FillRows(rows);
    forall i | 0 <= i < |rows|
      ensures out[i].category == FillAt(Hexes(rows), Categories(rows), i)
    {
      assert out[i].category == Categories(out)[i];
    }
  }

  /** Which known category fills a null: the nearest later one of the same
      aircraft, and only after the aircraft's last known one, the nearest
      earlier one. */
  lemma CategoryFillNearest(rows: seq<Row>)
    ensures forall i, j ::
              (0 <= i < j < |rows| && rows[j].hex == rows[i].hex && rows[j].category.Some? &&
               forall m :: i <= m < j && rows[m].hex == rows[i].hex ==> rows[m].category.None?)
              ==> FillRows(rows)[i].category == rows[j].category
    ensures forall i, j ::
              (0 <= j < i < |rows| && rows[j].hex == rows[i].hex && rows[j].category.Some? &&
               forall m :: j < m < |rows| && rows[m].hex == rows[i].hex ==> rows[m].category.None?)
              ==> FillRows(rows)[i].category == rows[j].category
  {
    forall i, j | 0 <= i < j < |rows| && rows[j].hex == rows[i].hex && rows[j].category.Some? &&
                  forall m :: i <= m < j && rows[m].hex == rows[i].hex ==> rows[m].category.None?
      ensures FillRows(rows)[i].category == rows[j].category
    {
      CategoryFromLater(rows, i, j);
    }
    forall i, j | 0 <= j < i < |rows| && rows[j].hex == rows[i].hex && rows[j].category.Some? &&
                  forall m :: j < m < |rows| && rows[m].hex == rows[i].hex ==> rows[m].category.None?
      ensures FillRows(rows)[i].category == rows[j].category
    {
      CategoryFromEarlier(rows, i, j);
    }
  }

  /** One null category filled from the nearest later known one. */
  lemma CategoryFromLater(rows: seq<Row>, i: nat, j: nat)
    requires i < j < |rows| && rows[j].hex == rows[i].hex && rows[j].category.Some?
    requires forall m :: i <= m < j && rows[m].hex == rows[i].hex ==> rows[m].category.None?
    ensures FillRows(rows)[i].category == rows[j].category
  {
    var keys, vals := Hexes(rows), Categories(rows);
    forall m | i <= m < j && keys[m] == keys[i]
      ensures vals[m].None?
    {
    }
    FillFromLater(keys, vals, i, j);
    assert FillRows(rows)[i].category == Categories(FillRows(rows))[i];
  }

  /** One null category after the last known one filled from it. */
  lemma CategoryFromEarlier(rows: seq<Row>, i: nat, j: nat)
    requires j < i < |rows| && rows[j].hex == rows[i].hex && rows[j].category.Some?
    requires forall m :: j < m < |rows| && rows[m].hex == rows[i].hex ==> rows[m].category.None?
    ensures FillRows(rows)[i].category == rows[j].category
  {
    var keys, vals := Hexes(rows), Categories(rows);
    forall m | j < m < |keys| && keys[m] == keys[i]
      ensures vals[m].None?
    {
    }
    FillFromEarlier(keys, vals, i, j);
    assert FillRows(rows)[i].category == Categories(FillRows(rows))[i];
  }

  /** Applying the gap-fill twice gives the same table as applying it once. */
  lemma GapFillIdempotent(rows: seq<Row>)
    ensures FillRows(FillRows(rows)) == FillRows(rows)
  {
    var once := FillRows(rows);
    var hexes := Hexes(rows);
    assert Hexes(once) == hexes;
    assert Flights(once) == Filled(hexes, Flights(rows));
    assert Categories(once) == Filled(hexes, Categories(rows));
    FillIdempotent(hexes, Flights(rows));
    FillIdempotent(hexes, Categories(rows));
  }

  /** The gap-fill stage: both passes over the call-sign, then both over the
      category, each grouped by hex. The rows are taken in timestamp order, so
      the scans visit each hex group in the order `sort_values('ts')` gives. */
  method GapFillRows(rows: seq<Row>) returns (out: seq<Row>)
    requires SortedByTs(rows)
    ensures out == FillRows(rows)
  {
    var hexes := Hexes(rows);
    var flights := FillByKey(hexes, Flights(rows));
    var categories := FillByKey(hexes, Categories(rows));
    out := seq(|rows|, i requires 0 <= i < |rows| => rows[i].(flight := flights[i], category := categories[i]));
  }
}
