/** The cleaning stages of cleaner.py (lines 50-187) composed in the order the
    script runs them: gap-fill, registry join, sentinel and low-ceiling drops,
    category backfill and allow-list, operator names, time slots, session
    tags and the proximity filter. */
module Pipeline {
  import opened Rows
  import GapFill
  import NoiseFilter
  import CategoryFilter
  import Operators
  import TimeSlots
  import Sessions
  import Proximity

  /** The reference tables the script joins against. */
  datatype Tables = Tables(
    registry: map<string, NoiseFilter.Aircraft>, // aircraft registry, by hex
    companies: map<string, string>,              // operator names, by ICAO prefix
    categories: map<string, string>              // categories, by "maker model"
  )

  /** The rows that reach the session tagger (lines 50-166). */
  function BeforeTagging(rows: seq<Row>, t: Tables): seq<Row> {
    var filled := GapFill.FillRows(rows);
    var joined := NoiseFilter.JoinRegistry(filled, t.registry);
    var fleet := NoiseFilter.DropLowCeiling(NoiseFilter.DropSentinels(joined));
    var kept := CategoryFilter.KeepAllowed(CategoryFilter.BackfillCategories(fleet, t.categories));
    TimeSlots.AssignSlots(Operators.AttachOperators(kept, t.companies))
  }

  /** The whole cleaning pass (lines 50-187). */
  function CleanRows(rows: seq<Row>, t: Tables): seq<Row> {
    Proximity.ProximityFilter(Sessions.TagRows(BeforeTagging(rows, t)))
  }

  /** A stage that keeps every timestamp in place keeps the table in
      timestamp order. */
  lemma SameTsSorted(a: seq<Row>, b: seq<Row>)
    requires SortedByTs(a) && |a| == |b|
    requires forall i :: 0 <= i < |a| ==> b[i].ts == a[i].ts
    ensures SortedByTs(b)
  {
  }

  /** Every stage before the tagger keeps the table in timestamp order. */
  lemma BeforeTaggingSorted(rows: seq<Row>, t: Tables)
    requires SortedByTs(rows)
    ensures SortedByTs(BeforeTagging(rows, t))
  {
    var filled := GapFill.FillRows(rows);
    SameTsSorted(rows, filled);
    var joined := NoiseFilter.JoinRegistry(filled, t.registry);
    SameTsSorted(filled, joined);
    var noSentinel := NoiseFilter.DropSentinels(joined);
    FilterKeepsSorted(joined, NoiseFilter.NotSentinel);
    var fleet := NoiseFilter.DropLowCeiling(noSentinel);
    FilterKeepsSorted(noSentinel, NoiseFilter.NotLowCeiling(NoiseFilter.LowCeilingModels(noSentinel)));
    var resolved := CategoryFilter.BackfillCategories(fleet, t.categories);
    SameTsSorted(fleet, resolved);
    var kept := CategoryFilter.KeepAllowed(resolved);
    FilterKeepsSorted(resolved, CategoryFilter.Allowed);
    var named := Operators.AttachOperators(kept, t.companies);
    SameTsSorted(kept, named);
    SameTsSorted(named, TimeSlots.AssignSlots(named));
  }

  /** The pass as the script runs it: the two gap-fill scans, the
      row-by-row stages, and the one-pass session tagger. */
  method Clean(rows: seq<Row>, t: Tables) returns (out: seq<Row>)
    requires SortedByTs(rows)
    ensures out == CleanRows(rows, t)
  {
    var filled := GapFill.GapFillRows(rows);
    var joined := NoiseFilter.JoinRegistry(filled, t.registry);
    var fleet := NoiseFilter.DropLowCeiling(NoiseFilter.DropSentinels(joined));
    var kept := CategoryFilter.KeepAllowed(CategoryFilter.BackfillCategories(fleet, t.categories));
    var slotted := TimeSlots.AssignSlots(Operators.AttachOperators(kept, t.companies));
    assert slotted == BeforeTagging(rows, t);
    BeforeTaggingSorted(rows, t);
    var tagged := Sessions.TagSessions(slotted);
    out := Proximity.ProximityFilter(tagged);
  }

  /** What every row that reaches the tagger satisfies: its model is not a
      sentinel, its category is one of A1-A5, its operator name is the
      normalized registry name for its call-sign, and its slot is the one its
      hour falls in. */
  predicate Cleaned(r: Row, t: Tables) {
    r.model.Some? && r.model.value !in NoiseFilter.Sentinels &&
    r.category.Some? && r.category.value in CategoryFilter.AllowedCategories &&
    r.operator == Operators.FixOperatorName(Operators.LookupOperator(r.flight, t.companies)) &&
    r.slot == Some(TimeSlots.Creneau(r.hour))
  }

  /** After the two noise drops no row has a sentinel model. */
  lemma NoiseDropsSentinels(joined: seq<Row>)
    ensures forall r :: r in NoiseFilter.DropLowCeiling(NoiseFilter.DropSentinels(joined)) ==>
      !NoiseFilter.IsSentinel(r)
  {
  }

  /** The text model of a row without a sentinel model is not a sentinel
      either ("nan" is none of them). */
  lemma ResolvedNotSentinel(fleet: seq<Row>, categories: map<string, string>)
    requires forall r :: r in fleet ==> !NoiseFilter.IsSentinel(r)
    ensures forall r :: r in CategoryFilter.BackfillCategories(fleet, categories) ==>
      r.model.Some? && r.model.value !in NoiseFilter.Sentinels
  {
    var resolved := CategoryFilter.BackfillCategories(fleet, categories);
    forall r | r in resolved
      ensures r.model.Some? && r.model.value !in NoiseFilter.Sentinels
    {
      var j :| 0 <= j < |resolved| && resolved[j] == r;
      assert fleet[j] in fleet;
    }
  }

  /** After the allow-list, naming and slotting, each row is `Cleaned`. */
  lemma LateStagesCleaned(resolved: seq<Row>, t: Tables)
    requires forall r :: r in resolved ==> r.model.Some? && r.model.value !in NoiseFilter.Sentinels
    ensures forall r :: r in TimeSlots.AssignSlots(Operators.AttachOperators(CategoryFilter.KeepAllowed(resolved), t.companies)) ==>
      Cleaned(r, t)
  {
    var kept := CategoryFilter.KeepAllowed(resolved);
    var slotted := TimeSlots.AssignSlots(Operators.AttachOperators(kept, t.companies));
    forall r | r in slotted
      ensures Cleaned(r, t)
    {
      var i :| 0 <= i < |slotted| && slotted[i] == r;
      assert kept[i] in kept;
    }
  }

  lemma BeforeTaggingCleaned(rows: seq<Row>, t: Tables)
    ensures forall r :: r in BeforeTagging(rows, t) ==> Cleaned(r, t)
  {
    var joined := NoiseFilter.JoinRegistry(GapFill.FillRows(rows), t.registry);
    var fleet := NoiseFilter.DropLowCeiling(NoiseFilter.DropSentinels(joined));
    NoiseDropsSentinels(joined);
    ResolvedNotSentinel(fleet, t.categories);
    LateStagesCleaned(CategoryFilter.BackfillCategories(fleet, t.categories), t);
  }

  /** Every row the pass keeps has a call-sign and a session tag, and
      satisfies `Cleaned`. */
  lemma CleanRowsCleaned(rows: seq<Row>, t: Tables)
    ensures forall r :: r in CleanRows(rows, t) ==> r.flight.Some? && r.tag.Some? && Cleaned(r, t)
  {
    var before := BeforeTagging(rows, t);
    BeforeTaggingCleaned(rows, t);
    var tagged := Sessions.TagRows(before);
    forall r | r in CleanRows(rows, t)
      ensures r.flight.Some? && r.tag.Some? && Cleaned(r, t)
    {
      var i :| 0 <= i < |tagged| && tagged[i] == r;
      assert before[i] in before;
    }
  }

  /** The three observations of `Sessions.ThreePingsTagged`, tagged. */
  function ThreePings(): seq<Row> {
    [Sessions.Ping(36000, 4.0).(tag := Some(0)), Sessions.Ping(36090, 6.0).(tag := Some(0)),
     Sessions.Ping(36300, 40.0).(tag := Some(1))]
  }

  /** Only rows of session 0 are within the threshold. */
  lemma ThreePingsCloseRows()
    ensures forall i :: 0 <= i < |ThreePings()| && ThreePings()[i].distance < Proximity.ProximityKm ==>
      ThreePings()[i].tag == Some(0)
  {
  }

  /** Session 0 qualifies; every qualifying session is session 0. */
  lemma ThreePingsQualifying()
    ensures Proximity.SessionOf(ThreePings()[0]).value in Proximity.QualifyingSessions(ThreePings())
    ensures forall s :: s in Proximity.QualifyingSessions(ThreePings()) ==> s.tag == 0
  {
    var t := ThreePings();
    Proximity.QualifyingSessionsExact(t, Proximity.SessionOf(t[0]).value);
    ThreePingsCloseRows();
    forall s | s in Proximity.QualifyingSessions(t)
      ensures s.tag == 0
    {
      Proximity.QualifyingSessionsExact(t, s);
      var i :| 0 <= i < |t| && Proximity.SessionOf(t[i]) == Some(s) && t[i].distance < Proximity.ProximityKm;
      assert t[i].tag == Some(0);
    }
  }

  /** Rows 0 and 1 pass the mask; row 2 fails it on its tag. */
  lemma ThreePingsMask()
    ensures var q := Proximity.QualifyingSessions(ThreePings());
            Proximity.InMask(ThreePings()[0], q) && Proximity.InMask(ThreePings()[1], q) &&
            !Proximity.InMask(ThreePings()[2], q)
  {
    var t := ThreePings();
    ThreePingsQualifying();
    var q := Proximity.QualifyingSessions(t);
    var s0 := Proximity.SessionOf(t[0]).value;
    assert s0.hex in Proximity.HexesOf(q) && s0.flight in Proximity.FlightsOf(q);
    assert s0.date in Proximity.DatesOf(q) && s0.tag in Proximity.TagsOf(q);
  }

  /** Filtering three elements of which the first two are kept. */
  lemma FilterFirstTwo<T(!new)>(s: seq<T>, keep: T -> bool)
    requires |s| == 3 && keep(s[0]) && keep(s[1]) && !keep(s[2])
    ensures Filter(s, keep) == s[..2]
  {
    assert s[..2][..1] == s[..1] && s[..1][..0] == [];
  }

  /** Three observations of one flight at 10:00:00, 10:01:30 and 10:05:00,
      4, 6 and 40 km out: the first two form session 0, which qualifies, the
      third forms session 1, which does not, and only the first two rows
      survive the tagger and proximity filter. */
  lemma ThreePingsFirstSessionKept()
    ensures Sessions.TagRows(Sessions.ThreePingsRaw()) == ThreePings()
    ensures Proximity.ProximityFilter(ThreePings()) == ThreePings()[..2]
  {
    Sessions.ThreePingsTagged();
    ThreePingsMask();
    FilterFirstTwo(ThreePings(), Proximity.Mask(Proximity.QualifyingSessions(ThreePings())));
  }
}
