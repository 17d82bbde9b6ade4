# ADS-B telemetry cleaning pass, modelled in Dafny

`cleaner.py` is a batch script. It reads raw ADS-B telemetry documents, one
per observed position report. It flattens each document into a row and
repairs missing call-signs and emitter categories per aircraft. It joins an
aircraft registry, drops balloons, ultralights, gliders and low-ceiling
models, backfills categories from a category table and keeps only the
fixed-wing categories A1-A5. It then attaches operator names and buckets
each row into a time slot ("jour", "soir", "nuit"). Finally it splits each
(hex, call-sign, date) group into sessions at gaps of more than two minutes
and keeps the rows that the proximity mask selects. The mask is built from
the sessions that come within 10 km of the reference airport.

The model covers that cleaning pass. Modules, in pipeline order:

- `Rows` (`rows.dfy`): the working table and a generic order-preserving
  `Filter`, which is what pandas boolean indexing does.
- `Flatten` (`flatten.dfy`): documents to flat rows.
- `GapFill` (`gapfill.dfy`): backward then forward fill per hex. This is a
  declarative definition plus two explicit scans proved equal to it.
- `NoiseFilter` (`noise.dfy`): the registry join, the sentinel drop and the
  low-ceiling drop.
- `CategoryFilter` (`category.dfy`): the category backfill and the allow-list.
- `Operators` (`operators.dfy`): the ICAO prefix, the operator lookup and the
  two case-insensitive name rewrites.
- `TimeSlots` (`timeslot.dfy`): `determine_creneaux`.
- `Sessions` (`sessions.dfy`): the session tag. It is defined from the
  previous row of the group, proved equal to the cumulative sum of gap
  starts, and computed by a one-pass scan.
- `Proximity` (`proximity.dfy`): the per-session minimum distance and the
  four-column mask.
- `Pipeline` (`pipeline.dfy`): all stages composed. This module also carries
  the properties of the whole pass.

Four behaviours of the code are easy to misread, and the model keeps them as
written:

- **Proximity mask.** The mask is not a per-session test. It tests hex,
  call-sign, date and tag separately against the qualifying sessions (lines
  180-187), and each test passes if any qualifying session has that value. So
  a row of a non-qualifying session survives when its four values each come
  from some qualifying session. `Proximity.MaskKeepsForeignSession` shows
  such a row in a table the tagger produces.
- **Null call-sign.** pandas `groupby` drops null keys, so a row with a null
  call-sign gets a null session tag. It then fails the mask and is removed.
- **Low-ceiling drop.** The maximum altitude is computed per (manufacturer,
  model), but the drop at line 92 tests the model name alone. A model name is
  dropped when any one manufacturer's group of that name stays low. Rows of
  the same name from other manufacturers go too.
- **Allow-list.** The comment at line 117 names A1, A2, A3 and A5, but the
  list at line 118 also admits A4. The model follows the list.

The sentinel drops (lines 66-85) compare the registry model exactly with
"BALL", "ULAC" and "GLID". The registry's `Modele` column was upper-cased at
line 21, so any capitalisation of those names in the registry file is caught.
The column is not stripped (only `Fabricant` is, at line 18), so a name with
surrounding spaces such as " BALL" survives. The model takes the registry as
already normalized (see "Left out").

## Model

| member | source | states |
|---|---|---|
| Flatten.Blank | cleaner.py:40-42 | a field becomes null exactly when it is null or the empty string, and is otherwise kept as it is |
| Flatten.Prefixed | cleaner.py:39-42 | every key of a sub-document appears under `<prefix><key>` with its blanked value, and every column it builds carries the prefix and names a key of the sub-document |
| Flatten.FlattenDocument | cleaner.py:36-43 | `ts` is copied; every `meta`/`value` key appears under its prefix with its blanked value; every column is such a prefixed key and nothing else |
| Flatten.FlattenAll | cleaner.py:35-43 | one flat row per document, in document order |
| Flatten.Unprefixed | cleaner.py:39-42 | reading a prefix back from a column map yields exactly the keys stored under that prefix, with their values |
| Flatten.FlattenRoundTrip | cleaner.py:36-43 | reading the `meta.` and `value.` columns back from a flattened row gives the original sub-documents with blanks nulled: no field is lost, invented or altered, and a missing sub-document reads as empty |
| GapFill.NextKnown | cleaner.py:50 | the backward-fill source is a known value of the same hex at or after the row, and it is null exactly when the hex has no known value from there on |
| GapFill.NextKnownNearest | cleaner.py:50 | the backward-fill source is the nearest known value: a known value with none of its hex between the row and it is the one taken |
| GapFill.PrevKnown | cleaner.py:52 | the forward-fill source is a known value of the same hex before the row, and it is null exactly when the hex has no known value before it |
| GapFill.PrevKnownNearest | cleaner.py:52 | the forward-fill source is the nearest earlier known value: a known value with none of its hex between it and the row is the one taken |
| GapFill.FillAt | cleaner.py:50-57 | a known value is never changed; a filled value is a value of the same hex; a hex with any known value has no null left; a null takes the nearest later known value of its hex, and only when the hex has none later, the nearest earlier one |
| GapFill.Filled | cleaner.py:50-57 | the filled column has one entry per row, each the fill of that position |
| GapFill.FillFromLater | cleaner.py:50 | a null followed, with nothing known in between, by a known value of its hex takes that value |
| GapFill.FillFromEarlier | cleaner.py:52 | a null after the last known value of its hex takes that value |
| GapFill.LaterValueWins | cleaner.py:50-52 | in one hex, known A, null, known B fills to A, B, B: backward fill decides before forward fill |
| GapFill.FillIdempotent | cleaner.py:50-57 | filling an already filled column changes nothing |
| GapFill.BackwardFill | cleaner.py:50 | the reverse scan with per-hex state writes, at every position, the next known value of its hex |
| GapFill.ForwardFill | cleaner.py:52 | the forward scan with per-hex state keeps known values and writes the last earlier known value of the hex into each null |
| GapFill.PrevAfterBackward | cleaner.py:50-52 | where a null survives the backward pass, forward filling the backward-filled column finds the same value as forward filling the original column |
| GapFill.FillByKey | cleaner.py:50-57 | backward then forward scan computes exactly the declarative fill |
| GapFill.FillRows | cleaner.py:50-57 | only the call-sign and category columns change, each filled per hex and independently of the other |
| GapFill.FlightFillProperties | cleaner.py:50-52 | a known call-sign is kept; a filled call-sign is one the same hex carries; no call-sign stays null in a hex that has one |
| GapFill.FlightFillNearest | cleaner.py:50-52 | a null call-sign takes the nearest later known call-sign of its aircraft; after the aircraft's last known call-sign, it takes that one |
| GapFill.FlightFromLater | cleaner.py:50 | one null call-sign with a known call-sign of its aircraft later, and none in between, takes it |
| GapFill.FlightFromEarlier | cleaner.py:52 | one null call-sign after its aircraft's last known call-sign takes it |
| GapFill.CategoryFillProperties | cleaner.py:55-57 | the same three promises for the emitter category |
| GapFill.CategoryFillNearest | cleaner.py:55-57 | a null category takes the nearest later known category of its aircraft; after the aircraft's last known category, it takes that one |
| GapFill.CategoryFromLater | cleaner.py:55 | one null category with a known category of its aircraft later, and none in between, takes it |
| GapFill.CategoryFromEarlier | cleaner.py:57 | one null category after its aircraft's last known category takes it |
| GapFill.GapFillIdempotent | cleaner.py:50-57 | running the gap-fill twice gives the table it gives once |
| GapFill.GapFillRows | cleaner.py:50-57 | on rows in timestamp order, the two scans per column give the gap-filled table |
| NoiseFilter.JoinRegistry | cleaner.py:61 | a row whose hex the registry knows gets its manufacturer and model, any other row gets nulls, and no row is added, dropped or otherwise changed |
| NoiseFilter.DropSentinels | cleaner.py:66-85 | the three successive drops are one order-preserving filter: no BALL, ULAC or GLID model remains and every other row is kept |
| NoiseFilter.GroupMaxAltitude | cleaner.py:88 | the group maximum is attained by a row of the group and bounds all of them; it is absent exactly when the group is empty |
| NoiseFilter.MaxBelowCeiling | cleaner.py:88-89 | a group's maximum is below 5000 ft exactly when every row of the group is |
| NoiseFilter.LowCeilingModels | cleaner.py:88-89 | the names whose (manufacturer, model) group peaks below 5000 ft; `NoiseFilter.LowCeilingModelsExact` states what membership means |
| NoiseFilter.LowCeilingModelsExact | cleaner.py:88-89 | a model name is on the low-ceiling list iff some manufacturer's group of that name has all its rows below 5000 ft |
| NoiseFilter.DropLowCeiling | cleaner.py:92-95 | a row survives iff its model name is not on the low-ceiling list (a null model is never on it), in order |
| NoiseFilter.HighModelKept | cleaner.py:88-95 | if every manufacturer's group of a model reaches 5000 ft somewhere, no row of that model is dropped, however low it flew |
| NoiseFilter.LowModelDropped | cleaner.py:88-95 | if one manufacturer's group of a model stays below 5000 ft, every row of that model name is dropped, other manufacturers' included |
| CategoryFilter.CellText | cleaner.py:103-104 | the `apply(str)` text of a cell, "nan" for a null; `CategoryFilter.BackfillCategories` states its effect on the table |
| CategoryFilter.TableCategory | cleaner.py:108 | the left join of the category table on the "manufacturer model" key, null when the key is absent; `CategoryFilter.ResolveCategory` states how it is used |
| CategoryFilter.CategoryKey | cleaner.py:103-105 | the merge key "manufacturer model", with "nan" for a null part; `CategoryFilter.ResolveCategory` states how it is used |
| CategoryFilter.ResolveCategory | cleaner.py:108-111 | the row's own category wins; a null is filled from the table entry for "manufacturer model"; with no entry it stays null |
| CategoryFilter.BackfillCategories | cleaner.py:103-111 | manufacturer and model become text, with "nan" for null; the category is resolved; no other column changes |
| CategoryFilter.BackfillIdempotent | cleaner.py:103-111 | backfilling twice equals backfilling once |
| CategoryFilter.KeepAllowed | cleaner.py:118 | a row survives iff its category is one of A1, A2, A3, A4, A5 (a null category is dropped), in order |
| CategoryFilter.ResolvedSurvivors | cleaner.py:108-118 | every survivor's category is in A1-A5; a row survives iff its own category is allowed, or it has none and the table's is allowed |
| Operators.OperatorPrefix | cleaner.py:121-122 | the first three characters of the call-sign (all of it when shorter), and "nan" for a null call-sign |
| Operators.LookupOperator | cleaner.py:121-127 | the operator name is present iff the prefix is in the registry, and then it is the registry's name |
| Operators.LineEnd | cleaner.py:130-131 | where `.*` stops: the next newline or the end of the text, with no newline in between |
| Operators.Substitute | cleaner.py:130-131 | the case-insensitive rewrite of a name; `Operators.SubstituteSingleLine` states its result on one line |
| Operators.FirstMatch | cleaner.py:130-131 | the leftmost position where the pattern matches ignoring ASCII case, or none when it matches nowhere |
| Operators.SubstituteSingleLine | cleaner.py:130-131 | on one line the rewrite keeps the text before the first case-insensitive match and replaces the rest by the canonical name; with no match the text is unchanged |
| Operators.NoMatchUnchanged | cleaner.py:130-131 | a line where the pattern matches nowhere is not changed |
| Operators.SubstituteIdempotent | cleaner.py:130-131 | when the canonical name itself matches the pattern, rewriting twice equals rewriting once |
| Operators.FixOperatorName | cleaner.py:130-131 | a null operator name stays null and a present one stays present |
| Operators.AirAlgerieVariant | cleaner.py:130 | any one-line name starting "AIR ALG" becomes "Air Algerie", and the Pantanal rule leaves it alone |
| Operators.PantanalVariant | cleaner.py:130-131 | any one-line name starting "PANTANAL LINHAS" becomes "Pantanal Linhas Aereas", whatever the Air Algerie rule does to its tail |
| Operators.AttachOperators | cleaner.py:121-131 | every row gets the normalized registry name of its call-sign prefix; nothing else changes |
| TimeSlots.Creneau | cleaner.py:157-163 | exactly one of jour, soir, nuit: jour iff 6 <= h < 18, soir iff 18 <= h < 22, nuit iff h < 6 or h >= 22 |
| TimeSlots.CreneauBoundaries | cleaner.py:157-163 | hours 5 and 22 are nuit, 6 and 17 jour, 18 and 21 soir |
| TimeSlots.AssignSlots | cleaner.py:166 | every row gets the slot of its hour; nothing else changes |
| Sessions.GroupOf | cleaner.py:171 | the (hex, call-sign, date) group key, absent for a null call-sign as pandas drops null keys; `Sessions.TagOf` states the consequence |
| Sessions.PrevInGroup | cleaner.py:171 | the previous row of the group is in the group, earlier, and no group row lies between; it is absent iff no earlier row is in the group |
| Sessions.IsGapStart | cleaner.py:172 | a row starts a new session when its group has an earlier row and the gap to it is strictly more than 120 s; `Sessions.TagStep` states the consequence |
| Sessions.GapCount | cleaner.py:172-173 | the cumulative sum of gap starts of one group over a prefix; `Sessions.TagIsGapCount` ties it to the tag |
| Sessions.SessionTag | cleaner.py:171-173 | a row's tag never exceeds the number of rows before it |
| Sessions.TagIsGapCount | cleaner.py:171-173 | the tag equals the number of gap starts of its group up to and including the row: the cumulative sum of the source |
| Sessions.TagsMonotone | cleaner.py:171-173 | within a group, tags never decrease in timestamp order |
| Sessions.TagStep | cleaner.py:171-173 | a group's first row has tag 0; after that the tag rises by exactly 1 when the gap to the previous row is strictly more than 120 s, and stays the same otherwise |
| Sessions.TagOf | cleaner.py:171-173 | a row gets a tag iff it has a call-sign |
| Sessions.TagRows | cleaner.py:170-173 | the tagger changes only the tag column |
| Sessions.ScanTag | cleaner.py:171-173 | from the remembered timestamp and tag of the group's last row, the scan computes the row's tag |
| Sessions.TagSessions | cleaner.py:170-173 | the one-pass scan with per-group state gives every row its session tag (null without a call-sign), on rows in timestamp order |
| Sessions.TwoMinutesIsNotAGap | cleaner.py:172 | a gap of exactly 120 s keeps the tag and a gap of 121 s raises it |
| Sessions.ThreePingsTwoSessions | cleaner.py:170-173 | rows at 10:00:00, 10:01:30 and 10:05:00 of one flight get tags 0, 0 and 1 |
| Proximity.SessionOf | cleaner.py:177 | the (hex, call-sign, date, tag) session key, absent when the call-sign or the tag is null; `Proximity.QualifyingSessionsExact` states how it is used |
| Proximity.SessionMin | cleaner.py:177 | the session minimum is attained by a row of the session and bounds all of them; it is absent exactly when the session has no row |
| Proximity.QualifyingSessions | cleaner.py:177-178 | the sessions whose minimum distance is below 10 km; `Proximity.QualifyingSessionsExact` states what membership means |
| Proximity.QualifyingSessionsExact | cleaner.py:177-178 | a session qualifies iff one of its rows is strictly within 10 km |
| Proximity.InMask | cleaner.py:180-185 | the four separate membership tests on hex, call-sign, date and tag; `Proximity.KeptRowComponents` states what passing means |
| Proximity.ProximityFilter | cleaner.py:180-187 | a row survives iff its hex, call-sign, date and tag each occur among the qualifying sessions, in order |
| Proximity.QualifyingSessionKept | cleaner.py:180-187 | every row of a qualifying session is kept |
| Proximity.KeptRowComponents | cleaner.py:180-187 | a kept row has a call-sign and a tag, and each of its four components is that component of some qualifying session |
| Proximity.EmptyIffNoneQualifies | cleaner.py:177-187 | the output is empty iff no session qualifies, iff no row with a session is within 10 km |
| Proximity.KeepQualifying | cleaner.py:177-187 | the per-session reading of the filter: a row survives iff its own session qualifies |
| Proximity.MaskKeepsQualifying | cleaner.py:180-187 | the mask keeps every row the per-session reading keeps |
| Proximity.MixedComponentsKept | cleaner.py:180-187 | a row whose hex, call-sign and date come from one qualifying session and whose tag comes from another passes the mask |
| Proximity.ForeignSampleTagged | cleaner.py:170-173 | the sample, two flights seen at 0 s and 1000 s in timestamp order, gets tags 0 and 1 per flight |
| Proximity.ForeignRowKept | cleaner.py:177-187 | in the tagged sample, the 40 km row passes the mask and fails the per-session filter |
| Proximity.MaskKeepsForeignSession | cleaner.py:170-187 | on a timestamp-ordered table, tagged by the tagger, the mask keeps a row of a session that is 40 km out and does not qualify |
| Rows.Filter | cleaner.py:95 | boolean indexing keeps exactly the rows that pass, and never more rows than it is given |
| Rows.FilterSelects | cleaner.py:187 | the filter output is the input read at strictly increasing positions, which are exactly the positions of passing rows |
| Rows.FilterKeepsSorted | cleaner.py:171 | dropping rows keeps a table in timestamp order |
| Rows.FilterTwice | cleaner.py:66-85 | two successive drops equal one drop by the conjunction |
| Pipeline.BeforeTagging | cleaner.py:50-166 | the stages before the tagger, in script order; `Pipeline.BeforeTaggingCleaned` states what its rows satisfy |
| Pipeline.BeforeTaggingCleaned | cleaner.py:61-166 | every row that reaches the tagger has a non-sentinel model, a category in A1-A5, the normalized operator name for its call-sign and the slot of its hour |
| Pipeline.CleanRows | cleaner.py:50-187 | the whole pass; `Pipeline.CleanRowsCleaned` states what its rows satisfy |
| Pipeline.BeforeTaggingSorted | cleaner.py:50-173 | every stage before the tagger keeps a timestamp-ordered table in timestamp order, so the tagger's sort is the identity |
| Pipeline.Clean | cleaner.py:50-187 | the pass built from the two gap-fill scans and the one-pass tagger computes the composed stages |
| Pipeline.ResolvedNotSentinel | cleaner.py:103-104 | turning a null model into the text "nan" cannot create a sentinel model |
| Pipeline.CleanRowsCleaned | cleaner.py:66-187 | every surviving row has a call-sign and a tag, a non-sentinel model, a category in A1-A5, the normalized operator name for its call-sign, and the slot of its hour |
| Pipeline.ThreePingsFirstSessionKept | cleaner.py:170-187 | at 10:00:00, 10:01:30 and 10:05:00, 4, 6 and 40 km out: the tags are 0, 0, 1 and only the first two rows survive |

## Left out

- Reading documents from MongoDB, reading the three CSV tables, `.env` configuration and writing the result (lines 1-15, 26-33 and 238-end) are I/O. The model takes the documents and the tables as values.
- The registry clean-up (lines 17-21) is not modelled. The registry map is taken as already normalized: manufacturer names upper-cased and stripped, model names upper-cased.
- `Row.hex` is a non-null string. A `meta.hex` of "" becomes null at line 40. A missing `meta.hex` becomes NaN when the table is built at line 46. pandas then leaves such a row out of the per-hex fill (lines 50-57) and out of the tagger's groups (line 171). A model `Row` cannot express this.
- Every document is taken to carry `ts`, because `Flatten.Document.ts` is not optional. A document without `ts` makes the script raise `KeyError` at line 38.
- `Flatten.Document` cannot express a `meta` or `value` that is present but null. There `doc.get` returns `None` and `.items()` raises `AttributeError` at line 39 or 41. The model reads `None` as an absent sub-document, which is empty, and returns a row.
- Every column is taken to exist. On an empty collection, or when no document carries `meta.hex`, `meta.flight` or `meta.category`, the script raises `KeyError` at line 50 or later. The model returns an empty table or nulls instead.
- `Row.ts` is an instant in whole seconds. The script compares `delta > timedelta(minutes=2)` (line 172) on whatever `pd.to_datetime(df['ts'], utc=True)` produced at line 137. Sub-second differences are not modelled: with millisecond dates a 120.4 s gap starts a new session in the script, and `Sessions.TwoMinutesIsNotAGap` speaks at one-second resolution only. `ts` is also taken to reach line 137 as a date value. An integer there would be read as nanoseconds, since no `unit=` is given, and then no gap would exceed two minutes.
- Turning flat rows into typed `Row`s (`pd.DataFrame(data)`, line 46) is not modelled. `Flatten` ends at `FlatRow`, and the later stages start from `Row`. Columns that no stage reads (latitude, longitude, Mach) are not carried.
- Field values are text. pandas' dtype inference and coercions are not modelled, except the "nan" text that `apply(str)` and `astype(str)` give a null (lines 103-104 and 122).
- The haversine distance (lines 144-151) is left out because it is floating-point geometry. Each row's distance is a given real.
- The conversion to Europe/Paris time (lines 134-140) is left out because it needs timezone data. Each row's hour and calendar date are given fields.
- The conversion of altitude to metres (line 98) is left out. It writes a column that no filter reads.
- Column drops and renames (lines 112-113 and 167), `value_counts`/`count` diagnostics (lines 115 and 189), and the output projection (lines 192-236) are left out. They reshape the table and do not select rows.
- The joins are map lookups. A reference table with duplicate keys would make pandas duplicate rows, and that is not modelled.
- `sort_values('ts')` is not modelled as a sort. `GapFill.GapFillRows`, `Sessions.TagSessions` and `Pipeline.Clean` require their input in timestamp order (`SortedByTs`), which makes every sort in the script the identity up to ties. Rows with equal timestamps are taken in input order. pandas' default sort is not stable, so the gap-fill may see tied rows in another order. The tags do not depend on that order.
- `Operators.Substitute` folds ASCII letters only. Python's `re.IGNORECASE` also matches some non-ASCII letters (for example U+0130 and U+017F against "i" and "s"), and that is not modelled.
- A NaN altitude or NaN distance is not modelled. Both are exact numbers here.
