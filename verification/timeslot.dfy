/** The time-of-day bucket `determine_creneaux` (cleaner.py, lines 153-167):
    the localized hour of each row is mapped to "jour", "soir" or "nuit". */
module TimeSlots {
  import opened Rows

  const Jour := "jour"
  const Soir := "soir"
  const Nuit := "nuit"

  /** Lines 157-163. Total on every integer; the three answers split the
      hours into [6, 18), [18, 22) and everything else. */
  function Creneau(hour: int): (slot: string)
    ensures slot == Jour || slot == Soir || slot == Nuit
    ensures slot == Jour <==> 6 <= hour < 18
    ensures slot == Soir <==> 18 <= hour < 22
    ensures slot == Nuit <==> hour < 6 || 22 <= hour
  {
    if 6 <= hour < 18 then Jour
    else if 18 <= hour < 22 then Soir
    else Nuit
  }

  /** The boundaries: 5 is night, 6 is day, 17 is still day, 18 is evening,
      21 is still evening, 22 is night. */
  lemma CreneauBoundaries()
    ensures Creneau(5) == Nuit && Creneau(6) == Jour && Creneau(17) == Jour
    ensures Creneau(18) == Soir && Creneau(21) == Soir && Creneau(22) == Nuit
  {
  }

  /** Line 166: every row gets the slot of its hour; nothing else changes. */
  function AssignSlots(rows: seq<Row>): (out: seq<Row>)
    ensures |out| == |rows|
    ensures forall i :: 0 <= i < |rows| ==> out[i] == rows[i].(slot := Some(Creneau(rows[i].hour)))
  {
    seq(|rows|, i requires 0 <= i < |rows| => rows[i].(slot := Some(Creneau(rows[i].hour))))
  }
}
