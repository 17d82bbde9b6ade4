/** The noise filters (cleaner.py, lines 60-95): the aircraft registry join,
    the drop of balloons, ultralights and gliders, and the drop of every model
    that some manufacturer/model group never flies at or above 5000 ft. */
module NoiseFilter {
  import opened Rows

  /** A registry entry: manufacturer (Fabricant) and model (Modele). */
  datatype Aircraft = Aircraft(maker: Option<string>, model: Option<string>)

  /** The left join of line 61: a row whose hex the registry knows gets its
      manufacturer and model, any other row gets nulls; no row is added,
      dropped or otherwise changed. */
  function JoinRegistry(rows: seq<Row>, registry: map<string, Aircraft>): (out: seq<Row>)
    ensures |out| == |rows|
    ensures forall i :: 0 <= i < |rows| ==>
      out[i] == rows[i].(maker := out[i].maker, model := out[i].model)
    ensures forall i :: 0 <= i < |rows| && rows[i].hex in registry ==>
      out[i].maker == registry[rows[i].hex].maker && out[i].model == registry[rows[i].hex].model
    ensures forall i :: 0 <= i < |rows| && rows[i].hex !in registry ==>
      out[i].maker.None? && out[i].model.None?
  {
    seq(|rows|, i requires 0 <= i < |rows| =>
      var a := if rows[i].hex in registry then registry[rows[i].hex] else Aircraft(None, None);
      rows[i].(maker := a.maker, model := a.model))
  }

  /** The registry models that are not powered fixed-wing aircraft. */
  const Sentinels: set<string> := {"BALL", "ULAC", "GLID"}

  predicate IsSentinel(r: Row) {
    r.model.Some? && r.model.value in Sentinels
  }

  /** `df['Modele'] != m`, as a row predicate; a null model is never equal. */
  function NotModel(m: string): Row -> bool {
    (r: Row) => r.model != Some(m)
  }

  /** The rows that survive the three sentinel drops. */
  const NotSentinel: Row -> bool := (r: Row) => !IsSentinel(r)

  /** Lines 65-85: the three drops one after another. The result is one
      filter: no sentinel model is left, every other row is kept, and the kept
      rows keep their relative order. */
  function DropSentinels(rows: seq<Row>): (out: seq<Row>)
    ensures out == Filter(rows, NotSentinel)
    ensures forall r :: r in out ==> !IsSentinel(r)
    ensures forall r :: r in rows && !IsSentinel(r) ==> r in out
  {
    var ball := Filter(rows, NotModel("BALL"));
    var ulac := Filter(ball, NotModel("ULAC"));
    var glid := Filter(ulac, NotModel("GLID"));
    var notBallUlac: Row -> bool := (r: Row) => r.model != Some("BALL") && r.model != Some("ULAC");
    FilterTwice(rows, NotModel("BALL"), NotModel("ULAC"), notBallUlac);
    FilterTwice(rows, notBallUlac, NotModel("GLID"), NotSentinel);
    glid
  }

  /** Altitude threshold of line 89, in feet. */
  const Ceiling := 5000

  predicate InGroup(r: Row, maker: string, model: string) {
    r.maker == Some(maker) && r.model == Some(model)
  }

  /** The maximum altitude of the manufacturer/model group (line 88); `None`
      when the group has no row. */
  function GroupMaxAltitude(rows: seq<Row>, maker: string, model: string): (m: Option<int>)
    ensures m.None? <==> forall i :: 0 <= i < |rows| ==> !InGroup(rows[i], maker, model)
    ensures m.Some? ==>
      (exists i :: 0 <= i < |rows| && InGroup(rows[i], maker, model) && rows[i].altitude == m.value) &&
      (forall i :: 0 <= i < |rows| && InGroup(rows[i], maker, model) ==> rows[i].altitude <= m.value)
  {
    if |rows| == 0 then None
    else
      var n := |rows| - 1;
      var front := GroupMaxAltitude(rows[..n], maker, model);
      assert forall i :: 0 <= i < n ==> rows[..n][i] == rows[i];
      if !InGroup(rows[n], maker, model) then front
      else if front.Some? && front.value >= rows[n].altitude then front
      else Some(rows[n].altitude)
  }

  /** Lines 88-89: the model names of the groups whose maximum altitude is
      below the ceiling. Groups with a null manufacturer or model are not
      groups (pandas drops null group keys). */
  function LowCeilingModels(rows: seq<Row>): set<string> {
    set i | 0 <= i < |rows| && rows[i].maker.Some? && rows[i].model.Some? &&
            GroupMaxAltitude(rows, rows[i].maker.value, rows[i].model.value).value < Ceiling
          :: rows[i].model.value
  }

  /** Every row of the group is below the ceiling. */
  ghost predicate GroupBelowCeiling(rows: seq<Row>, maker: string, model: string) {
    forall j :: 0 <= j < |rows| && InGroup(rows[j], maker, model) ==> rows[j].altitude < Ceiling
  }

  /** The group of row `i` has its maximum below the ceiling exactly when all
      of its rows are below the ceiling. */
  lemma MaxBelowCeiling(rows: seq<Row>, i: nat)
    requires i < |rows| && rows[i].maker.Some? && rows[i].model.Some?
    ensures GroupMaxAltitude(rows, rows[i].maker.value, rows[i].model.value).Some?
    ensures GroupMaxAltitude(rows, rows[i].maker.value, rows[i].model.value).value < Ceiling <==>
      GroupBelowCeiling(rows, rows[i].maker.value, rows[i].model.value)
  {
    assert InGroup(rows[i], rows[i].maker.value, rows[i].model.value);
  }

  /** A model is on the low-ceiling list exactly when some manufacturer's
      group of that model has rows and all of them are below the ceiling. */
  lemma LowCeilingModelsExact(rows: seq<Row>, model: string)
    ensures model in LowCeilingModels(rows) <==>
      exists i :: 0 <= i < |rows| && rows[i].maker.Some? && rows[i].model == Some(model) &&
        GroupBelowCeiling(rows, rows[i].maker.value, model)
  {
    if model in LowCeilingModels(rows) {
      var i :| 0 <= i < |rows| && rows[i].maker.Some? && rows[i].model.Some? &&
               GroupMaxAltitude(rows, rows[i].maker.value, rows[i].model.value).value < Ceiling &&
               rows[i].model.value == model;
      MaxBelowCeiling(rows, i);
    }
    if i :| (0 <= i < |rows| && rows[i].maker.Some? && rows[i].model == Some(model) &&
             GroupBelowCeiling(rows, rows[i].maker.value, model)) {
      MaxBelowCeiling(rows, i);
    }
  }

  /** `~df['Modele'].isin(low)` (lines 92-95): matches on the model name
      alone; a null model is never on the list. */
  function NotLowCeiling(low: set<string>): Row -> bool {
    (r: Row) => !(r.model.Some? && r.model.value in low)
  }

  /** Lines 88-95: every row whose model is on the low-ceiling list is
      dropped, whatever its manufacturer; every other row is kept, in order. */
  function DropLowCeiling(rows: seq<Row>): (out: seq<Row>)
    ensures out == Filter(rows, NotLowCeiling(LowCeilingModels(rows)))
    ensures forall r :: r in out <==>
      r in rows && !(r.model.Some? && r.model.value in LowCeilingModels(rows))
  {
    Filter(rows, NotLowCeiling(LowCeilingModels(rows)))
  }

  /** The decision is per model, not per row: when every manufacturer's group
      of a model reaches the ceiling somewhere, no row of that model is
      dropped, however low that row flew. */
  lemma HighModelKept(rows: seq<Row>, model: string)
    requires forall i :: 0 <= i < |rows| && rows[i].maker.Some? && rows[i].model == Some(model) ==>
      exists j :: 0 <= j < |rows| && InGroup(rows[j], rows[i].maker.value, model) && rows[j].altitude >= Ceiling
    ensures forall r :: r in rows && r.model == Some(model) ==> r in DropLowCeiling(rows)
  {
    LowCeilingModelsExact(rows, model);
  }

  /** And when some manufacturer's group of a model stays below the ceiling,
      every row of that model is dropped, including rows of other
      manufacturers that flew higher. */
  lemma LowModelDropped(rows: seq<Row>, i: nat)
    requires i < |rows| && rows[i].maker.Some? && rows[i].model.Some?
    requires GroupBelowCeiling(rows, rows[i].maker.value, rows[i].model.value)
    ensures forall r :: r in DropLowCeiling(rows) ==> r.model != rows[i].model
  {
    LowCeilingModelsExact(rows, rows[i].model.value);
  }
}
