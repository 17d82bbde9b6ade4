/** The proximity filter (cleaner.py, lines 176-187). A session is a
    (hex, call-sign, date, tag) group; it qualifies when its minimum distance
    to the reference point is below 10 km. The source then keeps a row when
    each of its four session components, taken separately, occurs among the
    qualifying sessions: four independent `isin` tests joined by `&`. That
    keeps every row of a qualifying session, but it can also keep a row of a
    session that did not qualify, when its components come from different
    qualifying sessions. The model follows the source; `KeepQualifying` is the
    per-session filter for comparison. */
module Proximity {
  import opened Rows
  import Sessions

  /** Line 178: the distance threshold, in km. */
  const ProximityKm: real := 10.0

  datatype Session = Session(hex: string, flight: string, date: int, tag: nat)

  /** The session of a row; a row with a null call-sign or tag is in none
      (pandas drops null group keys). */
  function SessionOf(r: Row): Option<Session> {
    if r.flight.Some? && r.tag.Some? then Some(Session(r.hex, r.flight.value, r.date, r.tag.value)) else None
  }

  /** The minimum distance over the rows of session `s` (line 177); `None`
      when the session has no row. */
  function SessionMin(rows: seq<Row>, s: Session): (m: Option<real>)
    ensures m.None? <==> forall i :: 0 <= i < |rows| ==> SessionOf(rows[i]) != Some(s)
    ensures m.Some? ==>
      (exists i :: 0 <= i < |rows| && SessionOf(rows[i]) == Some(s) && rows[i].distance == m.value) &&
      (forall i :: 0 <= i < |rows| && SessionOf(rows[i]) == Some(s) ==> m.value <= rows[i].distance)
  {
    if |rows| == 0 then None
    else
      var n := |rows| - 1;
      var front := SessionMin(rows[..n], s);
      assert forall i :: 0 <= i < n ==> rows[..n][i] == rows[i];
      if SessionOf(rows[n]) != Some(s) then front
      else if front.Some? && front.value <= rows[n].distance then front
      else Some(rows[n].distance)
  }

  /** Lines 177-178: the sessions whose minimum distance is below the
      threshold. */
  function QualifyingSessions(rows: seq<Row>): set<Session> {
    set i | 0 <= i < |rows| && SessionOf(rows[i]).Some? &&
            SessionMin(rows, SessionOf(rows[i]).value).value < ProximityKm
          :: SessionOf(rows[i]).value
  }

  /** A session qualifies exactly when one of its rows is within the
      threshold. */
  lemma QualifyingSessionsExact(rows: seq<Row>, s: Session)
    ensures s in QualifyingSessions(rows) <==>
      exists i :: 0 <= i < |rows| && SessionOf(rows[i]) == Some(s) && rows[i].distance < ProximityKm
  {
    if i :| 0 <= i < |rows| && SessionOf(rows[i]) == Some(s) && rows[i].distance < ProximityKm {
      assert SessionMin(rows, s).value <= rows[i].distance;
    }
  }

  /** The component columns of the qualifying sessions (`filtre_min_dist`). */
  function HexesOf(q: set<Session>): set<string> {
    set s | s in q :: s.hex
  }

  function FlightsOf(q: set<Session>): set<string> {
    set s | s in q :: s.flight
  }

  function DatesOf(q: set<Session>): set<int> {
    set s | s in q :: s.date
  }

  function TagsOf(q: set<Session>): set<nat> {
    set s | s in q :: s.tag
  }

  /** Lines 181-186: each component of the row, compared on its own; a null
      call-sign or tag is in no list. */
  predicate InMask(r: Row, q: set<Session>) {
    r.hex in HexesOf(q) && r.flight.Some? && r.flight.value in FlightsOf(q) &&
    r.date in DatesOf(q) && r.tag.Some? && r.tag.value in TagsOf(q)
  }

  function Mask(q: set<Session>): Row -> bool {
    (r: Row) => InMask(r, q)
  }

  /** Line 187: the rows the mask lets through, in order. */
  function ProximityFilter(rows: seq<Row>): (out: seq<Row>)
    ensures out == Filter(rows, Mask(QualifyingSessions(rows)))
    ensures forall r :: r in out <==> r in rows && InMask(r, QualifyingSessions(rows))
  {
    Filter(rows, Mask(QualifyingSessions(rows)))
  }

  /** Every row of a qualifying session is kept. */
  lemma QualifyingSessionKept(rows: seq<Row>)
    ensures forall r :: r in rows && SessionOf(r).Some? && SessionOf(r).value in QualifyingSessions(rows) ==>
      r in ProximityFilter(rows)
  {
    var q := QualifyingSessions(rows);
    forall r | r in rows && SessionOf(r).Some? && SessionOf(r).value in q
      ensures InMask(r, q)
    {
      var s := SessionOf(r).value;
      assert s.hex in HexesOf(q) && s.flight in FlightsOf(q) && s.date in DatesOf(q) && s.tag in TagsOf(q);
    }
  }

  /** Each component of a kept row is the matching component of some
      qualifying session, and so of a session with a row within the
      threshold. */
  lemma KeptRowComponents(rows: seq<Row>, r: Row)
    requires r in ProximityFilter(rows)
    ensures r.flight.Some? && r.tag.Some?
    ensures exists s :: s in QualifyingSessions(rows) && s.hex == r.hex
    ensures exists s :: s in QualifyingSessions(rows) && s.flight == r.flight.value
    ensures exists s :: s in QualifyingSessions(rows) && s.date == r.date
    ensures exists s :: s in QualifyingSessions(rows) && s.tag == r.tag.value
  {
  }

  /** The output is empty exactly when no session qualifies, that is when no
      row that belongs to a session is within the threshold. */
  lemma EmptyIffNoneQualifies(rows: seq<Row>)
    ensures ProximityFilter(rows) == [] <==> QualifyingSessions(rows) == {}
    ensures QualifyingSessions(rows) == {} <==>
      forall i :: 0 <= i < |rows| && SessionOf(rows[i]).Some? ==> rows[i].distance >= ProximityKm
  {
    var q := QualifyingSessions(rows);
    var out := ProximityFilter(rows);
    if q != {} {
      var s :| s in q;
      QualifyingSessionsExact(rows, s);
      var i :| 0 <= i < |rows| && SessionOf(rows[i]) == Some(s) && rows[i].distance < ProximityKm;
      QualifyingSessionKept(rows);
      assert rows[i] in out;
    } else {
      if out != [] {
        assert out[0] in out;
        KeptRowComponents(rows, out[0]);
      }
      forall i | 0 <= i < |rows| && SessionOf(rows[i]).Some?
        ensures rows[i].distance >= ProximityKm
      {
        QualifyingSessionsExact(rows, SessionOf(rows[i]).value);
      }
    }
  }

  /** The per-session reading of the filter: keep the rows whose own session
      qualifies. */
  function InQualifying(q: set<Session>): Row -> bool {
    (r: Row) => SessionOf(r).Some? && SessionOf(r).value in q
  }

  function KeepQualifying(rows: seq<Row>): (out: seq<Row>)
    ensures forall r :: r in out <==> r in rows && SessionOf(r).Some? && SessionOf(r).value in QualifyingSessions(rows)
  {
    Filter(rows, InQualifying(QualifyingSessions(rows)))
  }

  /** The mask keeps at least what the per-session filter keeps. */
  lemma MaskKeepsQualifying(rows: seq<Row>)
    ensures forall r :: r in KeepQualifying(rows) ==> r in ProximityFilter(rows)
  {
    QualifyingSessionKept(rows);
  }

  /** A row whose hex, call-sign and date match one qualifying session and
      whose tag matches another passes the mask, whether or not its own
      session qualifies. */
  lemma MixedComponentsKept(rows: seq<Row>, i: nat, a: Session, b: Session)
    requires i < |rows| && rows[i].flight.Some? && rows[i].tag.Some?
    requires a in QualifyingSessions(rows) && b in QualifyingSessions(rows)
    requires a.hex == rows[i].hex && a.flight == rows[i].flight.value && a.date == rows[i].date
    requires b.tag == rows[i].tag.value
    ensures rows[i] in ProximityFilter(rows)
  {
    var q := QualifyingSessions(rows);
    assert a.hex in HexesOf(q) && a.flight in FlightsOf(q) && a.date in DatesOf(q) && b.tag in TagsOf(q);
  }

  /** An untagged observation at 10:00 on the sample date, `ts` seconds in. */
  function Obs(ts: int, hex: string, flight: string, distance: real): Row {
    Row(ts, hex, Some(flight), Some("A3"), 3000, distance, 10, 19723,
        None, None, None, None, None)
  }

  /** Two flights seen at the same two instants, 1000 s apart, in timestamp
      order: AFR123 at 4 km then 40 km, EZY45 at 30 km then 2 km. */
  function ForeignRaw(): seq<Row> {
    [Obs(0, "3C6444", "AFR123", 4.0), Obs(0, "4CA1F2", "EZY45", 30.0),
     Obs(1000, "3C6444", "AFR123", 40.0), Obs(1000, "4CA1F2", "EZY45", 2.0)]
  }

  /** The same table with the session tags the tagger gives it. */
  function ForeignSample(): seq<Row> {
    var raw := ForeignRaw();
    [raw[0].(tag := Some(0)), raw[1].(tag := Some(0)), raw[2].(tag := Some(1)), raw[3].(tag := Some(1))]
  }

  /** The 1000 s gap starts a second session of each flight. */
  lemma ForeignSampleTagged()
    ensures SortedByTs(ForeignRaw())
    ensures Sessions.TagRows(ForeignRaw()) == ForeignSample()
  {
    var rows := ForeignRaw();
    var afr := Sessions.GroupOf(rows[0]).value;
    var ezy := Sessions.GroupOf(rows[1]).value;
    assert Sessions.PrevInGroup(rows, afr, 0) == None;
    assert Sessions.PrevInGroup(rows, ezy, 1) == None;
    assert Sessions.PrevInGroup(rows, afr, 2) == Some(0);
    assert Sessions.PrevInGroup(rows, ezy, 3) == Some(1);
  }

  /** In the sample, session 0 of AFR123 qualifies. */
  lemma ForeignSampleFirst()
    ensures SessionOf(ForeignSample()[0]).value in QualifyingSessions(ForeignSample())
  {
    var rows := ForeignSample();
    QualifyingSessionsExact(rows, SessionOf(rows[0]).value);
  }

  /** Session 1 of EZY45 qualifies. */
  lemma ForeignSampleLast()
    ensures SessionOf(ForeignSample()[3]).value in QualifyingSessions(ForeignSample())
  {
    var rows := ForeignSample();
    QualifyingSessionsExact(rows, SessionOf(rows[3]).value);
  }

  /** Session 1 of AFR123 has one row, 40 km out, and does not qualify. */
  lemma ForeignSampleFar()
    ensures SessionOf(ForeignSample()[2]).value !in QualifyingSessions(ForeignSample())
  {
    var rows := ForeignSample();
    var s := SessionOf(rows[2]).value;
    forall i | 0 <= i < |rows| && SessionOf(rows[i]) == Some(s)
      ensures rows[i].distance >= ProximityKm
    {
    }
    QualifyingSessionsExact(rows, s);
  }

  /** On the tagged sample, the mask keeps row 2 and the per-session filter
      drops it. */
  lemma ForeignRowKept()
    ensures ForeignSample()[2] in ProximityFilter(ForeignSample())
    ensures ForeignSample()[2] !in KeepQualifying(ForeignSample())
  {
    var rows := ForeignSample();
    ForeignSampleFirst();
    ForeignSampleLast();
    ForeignSampleFar();
    MixedComponentsKept(rows, 2, SessionOf(rows[0]).value, SessionOf(rows[3]).value);
  }

  /** The mask can keep more than whole qualifying sessions: after tagging,
      session 1 of AFR123 is 40 km out, but its hex, call-sign and date come
      from session 0 of AFR123 and its tag from session 1 of EZY45, both of
      which qualify, so its row is kept. */
  lemma MaskKeepsForeignSession()
    ensures SortedByTs(ForeignRaw())
    ensures Sessions.TagRows(ForeignRaw()) == ForeignSample()
    ensures ForeignSample()[2] in ProximityFilter(Sessions.TagRows(ForeignRaw()))
    ensures ForeignSample()[2] !in KeepQualifying(Sessions.TagRows(ForeignRaw()))
  {
    ForeignSampleTagged();
    ForeignRowKept();
  }
}
