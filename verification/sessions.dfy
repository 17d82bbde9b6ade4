/** The session tagger (cleaner.py, lines 169-173). Rows are grouped by
    (hex, call-sign, localized date); within a group, taken in timestamp
    order, a row that comes more than two minutes after the previous row of
    its group starts a new session, and its tag is the number of such gap
    starts so far. A row with a null call-sign belongs to no group (pandas
    drops null group keys), so it gets no tag.

    `SessionTag` is the tag defined step by step from the previous row of the
    group; `GapCount` is the cumulative sum the source computes; they are
    proved equal. `TagSessions` is the single scan with per-group state. */
module Sessions {
  import opened Rows

  /** The gap threshold of line 172, in seconds (two minutes). */
  const GapSeconds := 120

  datatype GroupKey = GroupKey(hex: string, flight: string, date: int)

  function GroupOf(r: Row): Option<GroupKey> {
    if r.flight.Some? then Some(GroupKey(r.hex, r.flight.value, r.date)) else None
  }

  /** The last row of group `k` strictly before position `j`. */
  function PrevInGroup(rows: seq<Row>, k: GroupKey, j: nat): (p: Option<nat>)
    requires j <= |rows|
    ensures p.Some? ==> p.value < j && GroupOf(rows[p.value]) == Some(k)
    ensures p.Some? ==> forall q :: p.value < q < j ==> GroupOf(rows[q]) != Some(k)
    ensures p.None? ==> forall q :: 0 <= q < j ==> GroupOf(rows[q]) != Some(k)
  {
    if j == 0 then None
    else if GroupOf(rows[j - 1]) == Some(k) then Some(j - 1)
    else PrevInGroup(rows, k, j - 1)
  }

  /** `delta > timedelta(minutes=2)`: row `i` comes more than two minutes after
      the previous row of its group. The first row of a group has no delta
      and is never a gap start. */
  predicate IsGapStart(rows: seq<Row>, i: nat)
    requires i < |rows|
  {
    match GroupOf(rows[i])
    case None => false
    case Some(k) =>
      var p := PrevInGroup(rows, k, i);
      p.Some? && rows[i].ts - rows[p.value].ts > GapSeconds
  }

  /** The tag of row `i`: 0 for the first row of its group, then the tag of
      the previous row of the group plus one at a gap start. It never exceeds
      the number of rows before it. */
  function SessionTag(rows: seq<Row>, i: nat): (t: nat)
    requires i < |rows| && rows[i].flight.Some?
    ensures t <= i
    decreases i
  {
    match PrevInGroup(rows, GroupOf(rows[i]).value, i)
    case None => 0
    case Some(p) => SessionTag(rows, p) + (if IsGapStart(rows, i) then 1 else 0)
  }

  /** The cumulative sum of line 173: the gap starts of group `k` among the
      first `n` rows. */
  function GapCount(rows: seq<Row>, k: GroupKey, n: nat): nat
    requires n <= |rows|
  {
    if n == 0 then 0
    else GapCount(rows, k, n - 1) + (if GroupOf(rows[n - 1]) == Some(k) && IsGapStart(rows, n - 1) then 1 else 0)
  }

  /** The count does not move across rows of other groups. */
  lemma {:induction false} GapCountFlat(rows: seq<Row>, k: GroupKey, m: nat, n: nat)
    requires m <= n <= |rows|
    requires forall q :: m <= q < n ==> GroupOf(rows[q]) != Some(k)
    ensures GapCount(rows, k, n) == GapCount(rows, k, m)
    decreases n
  {
    if m < n {
      GapCountFlat(rows, k, m, n - 1);
    }
  }

  /** The count never decreases as more rows are taken. */
  lemma {:induction false} GapCountMonotone(rows: seq<Row>, k: GroupKey, m: nat, n: nat)
    requires m <= n <= |rows|
    ensures GapCount(rows, k, m) <= GapCount(rows, k, n)
    decreases n
  {
    if m < n {
      GapCountMonotone(rows, k, m, n - 1);
    }
  }

  /** The tag is the cumulative count of gap starts of its group up to and
      including the row itself: the step-by-step tag is the source's cumsum. */
  lemma {:induction false} TagIsGapCount(rows: seq<Row>, i: nat)
    requires i < |rows| && rows[i].flight.Some?
    ensures SessionTag(rows, i) == GapCount(rows, GroupOf(rows[i]).value, i + 1)
    decreases i
  {
    var k := GroupOf(rows[i]).value;
    match PrevInGroup(rows, k, i)
    case None =>
      GapCountFlat(rows, k, 0, i);
      assert !IsGapStart(rows, i);
    case Some(p) =>
      TagIsGapCount(rows, p);
      GapCountFlat(rows, k, p + 1, i);
  }

  /** Within a group, tags never decrease in timestamp order. */
  lemma TagsMonotone(rows: seq<Row>, i: nat, j: nat)
    requires i < j < |rows| && rows[i].flight.Some? && GroupOf(rows[j]) == GroupOf(rows[i])
    ensures SessionTag(rows, i) <= SessionTag(rows, j)
  {
    TagIsGapCount(rows, i);
    TagIsGapCount(rows, j);
    GapCountMonotone(rows, GroupOf(rows[i]).value, i + 1, j + 1);
  }

  /** The first row of a group has tag 0; after that the tag rises by exactly
      one when the gap to the previous row of the group is strictly more than
      120 s, and stays the same otherwise. */
  lemma TagStep(rows: seq<Row>, i: nat)
    requires i < |rows| && rows[i].flight.Some?
    ensures PrevInGroup(rows, GroupOf(rows[i]).value, i).None? ==> SessionTag(rows, i) == 0
    ensures PrevInGroup(rows, GroupOf(rows[i]).value, i).Some? ==>
      var p := PrevInGroup(rows, GroupOf(rows[i]).value, i).value;
      SessionTag(rows, i) == SessionTag(rows, p) + (if rows[i].ts - rows[p].ts > GapSeconds then 1 else 0)
  {
  }

  /** The tag column: null for a row without a call-sign. */
  function TagOf(rows: seq<Row>, i: nat): (t: Option<nat>)
    requires i < |rows|
    ensures t.Some? <==> rows[i].flight.Some?
  {
    if rows[i].flight.Some? then Some(SessionTag(rows, i)) else None
  }

  function TagRows(rows: seq<Row>): (out: seq<Row>)
    ensures |out| == |rows|
    ensures forall i :: 0 <= i < |rows| ==> out[i] == rows[i].(tag := TagOf(rows, i))
  {
    seq(|rows|, i requires 0 <= i < |rows| => rows[i].(tag := TagOf(rows, i)))
  }

  /** What the scan remembers of group `k` after `j` rows: the timestamp and
      tag of the group's last row so far. */
  function LastSeen(rows: seq<Row>, k: GroupKey, j: nat): Option<(int, nat)>
    requires j <= |rows|
  {
    match PrevInGroup(rows, k, j)
    case None => None
    case Some(p) => Some((rows[p].ts, SessionTag(rows, p)))
  }

  /** The tag the scan gives a row with a call-sign, from what it remembers of
      the row's group. */
  function NextTag(last: map<GroupKey, (int, nat)>, r: Row): nat
    requires r.flight.Some?
  {
    match Get<GroupKey, (int, nat)>(last, GroupOf(r).value)
    case None => 0
    case Some((prevTs, prevTag)) => if r.ts - prevTs > GapSeconds then prevTag + 1 else prevTag
  }

  /** On a row with a call-sign, the tag the scan computes is the row's tag. */
  lemma ScanTag(rows: seq<Row>, i: nat, last: map<GroupKey, (int, nat)>)
    requires i < |rows| && rows[i].flight.Some?
    requires forall k :: LastSeen(rows, k, i) == Get(last, k)
    ensures NextTag(last, rows[i]) == SessionTag(rows, i)
  {
    var g := GroupOf(rows[i]).value;
    assert LastSeen(rows, g, i) == Get(last, g);
  }

  /** Recording that row `j - 1` is the last of its group turns a state
      describing the first `j - 1` rows into one describing the first `j`. */
  lemma ScanRecord(rows: seq<Row>, j: nat, last: map<GroupKey, (int, nat)>, next: map<GroupKey, (int, nat)>)
    requires 0 < j <= |rows| && rows[j - 1].flight.Some?
    requires forall k :: LastSeen(rows, k, j - 1) == Get(last, k)
    requires next == last[GroupOf(rows[j - 1]).value := (rows[j - 1].ts, SessionTag(rows, j - 1))]
    ensures forall k :: LastSeen(rows, k, j) == Get(next, k)
  {
    forall k ensures LastSeen(rows, k, j) == Get(next, k) {
      assert LastSeen(rows, k, j - 1) == Get(last, k);
    }
  }

  /** A row without a call-sign leaves the state as it is. */
  lemma ScanSkip(rows: seq<Row>, j: nat, last: map<GroupKey, (int, nat)>)
    requires 0 < j <= |rows| && rows[j - 1].flight.None?
    requires forall k :: LastSeen(rows, k, j - 1) == Get(last, k)
    ensures forall k :: LastSeen(rows, k, j) == Get(last, k)
  {
    forall k ensures LastSeen(rows, k, j) == Get(last, k) {
      assert LastSeen(rows, k, j - 1) == Get(last, k);
    }
  }

  /** Lines 170-173 as one scan over the rows in timestamp order, keeping per
      group the timestamp and tag of its last row. */
  method TagSessions(rows: seq<Row>) returns (out: seq<Row>)
    requires SortedByTs(rows)
    ensures out == TagRows(rows)
  {
    var last: map<GroupKey, (int, nat)> := map[];
    out := [];
    var i := 0;
    while i < |rows|
      invariant 0 <= i <= |rows| && |out| == i
      invariant forall j :: 0 <= j < i ==> out[j] == rows[j].(tag := TagOf(rows, j))
      invariant forall k :: LastSeen(rows, k, i) == Get(last, k)
    {
      var r := rows[i];
      if r.flight.Some? {
        var tag := NextTag(last, r);
        ScanTag(rows, i, last);
        var next := last[GroupKey(r.hex, r.flight.value, r.date) := (r.ts, tag)];
        ScanRecord(rows, i + 1, last, next);
        out := out + [r.(tag := Some(tag))];
        last := next;
      } else {
        ScanSkip(rows, i + 1, last);
        out := out + [r.(tag := None)];
      }
      i := i + 1;
    }
  }

  /** A sample observation of one flight on one day, for the examples below. */
  function Ping(ts: int, distance: real): Row {
    Row(ts, "3C6444", Some("AFR123"), Some("A3"), 3000, distance, 10, 19723,
        None, None, None, None, None)
  }

  /** A gap of exactly two minutes does not start a new session; one second
      more does. */
  lemma TwoMinutesIsNotAGap()
    ensures TagRows([Ping(0, 5.0), Ping(120, 5.0)])[1].tag == Some(0)
    ensures TagRows([Ping(0, 5.0), Ping(121, 5.0)])[1].tag == Some(1)
  {
    var a := [Ping(0, 5.0), Ping(120, 5.0)];
    assert PrevInGroup(a, GroupOf(a[1]).value, 1) == Some(0);
    var b := [Ping(0, 5.0), Ping(121, 5.0)];
    assert PrevInGroup(b, GroupOf(b[1]).value, 1) == Some(0);
  }

  /** Observations at 10:00:00, 10:01:30 and 10:05:00 of one flight: the first
      two form session 0, the third starts session 1. */
  lemma ThreePingsTwoSessions()
    ensures var t := TagRows([Ping(36000, 4.0), Ping(36090, 6.0), Ping(36300, 40.0)]);
            t[0].tag == Some(0) && t[1].tag == Some(0) && t[2].tag == Some(1)
  {
    var rows := [Ping(36000, 4.0), Ping(36090, 6.0), Ping(36300, 40.0)];
    var k := GroupOf(rows[0]).value;
    assert PrevInGroup(rows, k, 0) == None;
    assert PrevInGroup(rows, k, 1) == Some(0);
    assert PrevInGroup(rows, k, 2) == Some(1);
  }

  /** The three observations of the example above, untagged. */
  function ThreePingsRaw(): seq<Row> {
    [Ping(36000, 4.0), Ping(36090, 6.0), Ping(36300, 40.0)]
  }

  /** The same example as a table: the tagger adds tags 0, 0 and 1 and
      changes nothing else. */
  lemma ThreePingsTagged()
    ensures TagRows(ThreePingsRaw()) ==
            [Ping(36000, 4.0).(tag := Some(0)), Ping(36090, 6.0).(tag := Some(0)), Ping(36300, 40.0).(tag := Some(1))]
  {
    ThreePingsTwoSessions();
  }
}
