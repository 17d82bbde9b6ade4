/** Operator name resolution (cleaner.py, lines 120-131): the ICAO operator
    prefix is the first three characters of the call-sign, the operator
    registry is looked up by it, and two case-insensitive substitutions
    collapse variant spellings of two operators into one canonical name. */
module Operators {
  import opened Rows

  /** Lines 121-122: `str[:3]` then `astype(str)`; a null call-sign becomes
      the text "nan". */
  function OperatorPrefix(flight: Option<string>): (p: string)
    ensures flight.Some? && |flight.value| >= 3 ==> |p| == 3 && flight.value == p + flight.value[3..]
    ensures flight.Some? && |flight.value| < 3 ==> p == flight.value
    ensures flight.None? ==> p == "nan"
  {
    match flight
    case None => "nan"
    case Some(f) => if |f| >= 3 then f[..3] else f
  }

  /** The left join of line 127: the operator name for the prefix, or null. */
  function LookupOperator(flight: Option<string>, companies: map<string, string>): (name: Option<string>)
    ensures name.Some? <==> OperatorPrefix(flight) in companies
    ensures name.Some? ==> name.value == companies[OperatorPrefix(flight)]
  {
    var p := OperatorPrefix(flight);
    if p in companies then Some(companies[p]) else None
  }

  /** ASCII lower case; every other character is left alone. */
  function Lower(c: char): char {
    if 'A' <= c <= 'Z' then (c as int + 32) as char else c
  }

  /** The lower-case literal `pat` occurs at position `i` of `s`, ignoring
      ASCII case. */
  predicate MatchesAt(s: string, i: nat, pat: string) {
    i + |pat| <= |s| && forall j :: 0 <= j < |pat| ==> Lower(s[i + j]) == pat[j]
  }

  predicate SingleLine(s: string) {
    forall i :: 0 <= i < |s| ==> s[i] != '\n'
  }

  /** The end of the line that position `i` is on: where `.*` stops. */
  function LineEnd(s: string, i: nat): (e: nat)
    requires i <= |s|
    ensures i <= e <= |s|
    ensures e == |s| || s[e] == '\n'
    ensures forall j :: i <= j < e ==> s[j] != '\n'
    decreases |s| - i
  {
    if i == |s| || s[i] == '\n' then i else LineEnd(s, i + 1)
  }

  /** `re.sub("(?i)<pat>.*", canon, s)`: scanning left to right, each place
      the literal matches is replaced, together with the rest of its line, by
      `canon`; scanning resumes at the end of that line. */
  function Substitute(s: string, pat: string, canon: string): string
    requires |pat| > 0
    decreases |s|
  {
    if |s| == 0 then ""
    else if MatchesAt(s, 0, pat) then canon + Substitute(s[LineEnd(s, |pat|)..], pat, canon)
    else [s[0]] + Substitute(s[1..], pat, canon)
  }

  /** The first position where `pat` matches, if any. */
  function FirstMatch(s: string, pat: string): (p: Option<nat>)
    requires |pat| > 0
    ensures p.Some? ==> p.value < |s| && MatchesAt(s, p.value, pat)
    ensures p.Some? ==> forall q :: 0 <= q < p.value ==> !MatchesAt(s, q, pat)
    ensures p.None? ==> forall q :: 0 <= q < |s| ==> !MatchesAt(s, q, pat)
    decreases |s|
  {
    if |s| == 0 then None
    else if MatchesAt(s, 0, pat) then Some(0)
    else
      var rest := FirstMatch(s[1..], pat);
      ShiftMatches(s, pat);
      if rest.Some? then Some(rest.value + 1) else None
  }

  /** Matching at position `q > 0` of `s` is matching at `q - 1` of its tail. */
  lemma ShiftMatches(s: string, pat: string)
    requires 0 < |s|
    ensures forall q :: 1 <= q < |s| ==> MatchesAt(s, q, pat) == MatchesAt(s[1..], q - 1, pat)
  {
    forall q | 1 <= q < |s|
      ensures MatchesAt(s, q, pat) == MatchesAt(s[1..], q - 1, pat)
    {
      var t := s[1..];
      if q + |pat| <= |s| {
        forall j | 0 <= j < |pat|
          ensures Lower(t[q - 1 + j]) == pat[j] <==> Lower(s[q + j]) == pat[j]
        {
          assert t[q - 1 + j] == s[q + j];
        }
      }
    }
  }

  /** Where the pattern does not match at the start, the first character is
      kept and both the substitution and the first match move on by one. */
  lemma SkipFirst(s: string, pat: string, canon: string)
    requires |pat| > 0 && |s| > 0 && !MatchesAt(s, 0, pat)
    ensures Substitute(s, pat, canon) == [s[0]] + Substitute(s[1..], pat, canon)
    ensures FirstMatch(s, pat) ==
      if FirstMatch(s[1..], pat).Some? then Some(FirstMatch(s[1..], pat).value + 1) else None
  {
    assert |s| != 0;
  }

  /** A single line that matches at its start becomes the canonical name. */
  lemma MatchAtStart(s: string, pat: string, canon: string)
    requires |pat| > 0 && SingleLine(s) && MatchesAt(s, 0, pat)
    ensures Substitute(s, pat, canon) == canon
  {
    var e := LineEnd(s, |pat|);
    assert e == |s|;
    assert s[e..] == "";
  }

  lemma ConsPrefix(s: string, k: nat, canon: string)
    requires k < |s|
    ensures [s[0]] + (s[1..][..k] + canon) == s[..k + 1] + canon
  {
    assert s[..k + 1] == [s[0]] + s[1..][..k];
  }

  /** On a single line the substitution keeps everything before the first
      match and replaces the rest of the line by the canonical name; a line
      with no match is unchanged. */
  lemma {:induction false} SubstituteSingleLine(s: string, pat: string, canon: string)
    requires |pat| > 0 && SingleLine(s)
    ensures FirstMatch(s, pat).None? ==> Substitute(s, pat, canon) == s
    ensures FirstMatch(s, pat).Some? ==>
      Substitute(s, pat, canon) == s[..FirstMatch(s, pat).value] + canon
    decreases |s|
  {
    if |s| > 0 {
      if MatchesAt(s, 0, pat) {
        MatchAtStart(s, pat, canon);
      } else {
        var t := s[1..];
        assert SingleLine(t);
        SubstituteSingleLine(t, pat, canon);
        SkipFirst(s, pat, canon);
        var p := FirstMatch(t, pat);
        if p.Some? {
          ConsPrefix(s, p.value, canon);
        } else {
          assert s == [s[0]] + t;
        }
      }
    }
  }

  /** A line where the pattern never matches is left as it is. */
  lemma NoMatchUnchanged(s: string, pat: string, canon: string)
    requires |pat| > 0 && SingleLine(s)
    requires forall q :: 0 <= q < |s| ==> !MatchesAt(s, q, pat)
    ensures Substitute(s, pat, canon) == s
  {
    SubstituteSingleLine(s, pat, canon);
  }

  /** The first match is the one position that matches with none before it. */
  lemma FirstMatchIs(s: string, pat: string, p: nat)
    requires |pat| > 0 && p < |s| && MatchesAt(s, p, pat)
    requires forall q :: 0 <= q < p ==> !MatchesAt(s, q, pat)
    ensures FirstMatch(s, pat) == Some(p)
  {
  }

  /** Putting a canonical name that matches the pattern after the part of `s`
      before its first match leaves that position the first match. */
  lemma CanonFirstMatch(s: string, pat: string, canon: string, p: nat)
    requires |pat| > 0 && MatchesAt(canon, 0, pat)
    requires p < |s| && MatchesAt(s, p, pat) && forall q :: 0 <= q < p ==> !MatchesAt(s, q, pat)
    ensures FirstMatch(s[..p] + canon, pat) == Some(p)
  {
    var t := s[..p] + canon;
    assert MatchesAt(t, p, pat) by {
      forall j | 0 <= j < |pat|
        ensures Lower(t[p + j]) == pat[j]
      {
        assert t[p + j] == canon[j];
      }
    }
    forall q | 0 <= q < p
      ensures !MatchesAt(t, q, pat)
    {
      if MatchesAt(t, q, pat) {
        forall j | 0 <= j < |pat|
          ensures Lower(s[q + j]) == pat[j]
        {
          if q + j >= p {
            var d := q + j - p;
            assert t[q + j] == canon[d];
            assert Lower(canon[d]) == pat[d] && Lower(s[p + d]) == pat[d];
          } else {
            assert t[q + j] == s[q + j];
          }
        }
        assert MatchesAt(s, q, pat);
      }
    }
    FirstMatchIs(t, pat, p);
  }

  lemma AppendSingleLine(a: string, b: string)
    requires SingleLine(a) && SingleLine(b)
    ensures SingleLine(a + b)
  {
    forall i | 0 <= i < |a + b|
      ensures (a + b)[i] != '\n'
    {
      if i >= |a| { assert (a + b)[i] == b[i - |a|]; }
    }
  }

  /** When the canonical name itself matches the pattern, substituting a
      second time changes nothing: the first match of the result is where the
      canonical name starts. */
  lemma SubstituteIdempotent(s: string, pat: string, canon: string)
    requires |pat| > 0 && SingleLine(s) && SingleLine(canon) && MatchesAt(canon, 0, pat)
    ensures Substitute(Substitute(s, pat, canon), pat, canon) == Substitute(s, pat, canon)
  {
    SubstituteSingleLine(s, pat, canon);
    var m := FirstMatch(s, pat);
    if m.Some? {
      var p := m.value;
      var t := s[..p] + canon;
      AppendSingleLine(s[..p], canon);
      CanonFirstMatch(s, pat, canon, p);
      SubstituteSingleLine(t, pat, canon);
      assert t[..p] == s[..p];
    }
  }

  /** The two substitutions of lines 130-131. */
  const AirAlgeriePattern := "air alg"
  const AirAlgerieName := "Air Algerie"
  const PantanalPattern := "pantanal linhas"
  const PantanalName := "Pantanal Linhas Aereas"

  /** Lines 130-131 on one operator name; a null name stays null. */
  function FixOperatorName(name: Option<string>): (fixed: Option<string>)
    ensures fixed.None? <==> name.None?
  {
    match name
    case None => None
    case Some(n) =>
      Some(Substitute(Substitute(n, AirAlgeriePattern, AirAlgerieName), PantanalPattern, PantanalName))
  }

  /** Any one-line spelling that starts with "Air Alg" in any ASCII case is
      turned into the canonical Air Algerie name. */
  lemma AirAlgerieVariant(rest: string)
    requires SingleLine(rest)
    ensures FixOperatorName(Some("AIR ALG" + rest)) == Some(AirAlgerieName)
  {
    var s := "AIR ALG" + rest;
    assert SingleLine(s) by {
      forall i | 0 <= i < |s| ensures s[i] != '\n' {
        if i >= 7 { assert s[i] == rest[i - 7]; }
      }
    }
    assert MatchesAt(s, 0, AirAlgeriePattern) by {
      forall j | 0 <= j < |AirAlgeriePattern|
        ensures Lower(s[j]) == AirAlgeriePattern[j]
      {
        assert s[j] == "AIR ALG"[j];
      }
    }
    MatchAtStart(s, AirAlgeriePattern, AirAlgerieName);
    assert SingleLine(AirAlgerieName);
    NoMatchUnchanged(AirAlgerieName, PantanalPattern, PantanalName);
  }

  /** The Pantanal pattern matches, ignoring case, at the start of any text
      that starts with "PANTANAL LINHAS". */
  lemma PantanalMatchesAtStart(t: string)
    requires |t| >= 15 && t[..15] == "PANTANAL LINHAS"
    ensures MatchesAt(t, 0, PantanalPattern)
  {
    forall j | 0 <= j < |PantanalPattern|
      ensures Lower(t[j]) == PantanalPattern[j]
    {
      assert t[j] == t[..15][j];
    }
  }

  /** A single line that starts with "PANTANAL LINHAS" becomes the canonical
      Pantanal name under the second rewrite. */
  lemma PantanalAtStart(t: string)
    requires SingleLine(t) && |t| >= 15 && t[..15] == "PANTANAL LINHAS"
    ensures Substitute(t, PantanalPattern, PantanalName) == PantanalName
  {
    PantanalMatchesAtStart(t);
    MatchAtStart(t, PantanalPattern, PantanalName);
  }

  /** "air alg" cannot start inside "PANTANAL LINHAS". */
  lemma NoAirAlgerieInPantanal(s: string)
    requires |s| >= 15 && s[..15] == "PANTANAL LINHAS"
    ensures forall q :: 0 <= q < 15 ==> !MatchesAt(s, q, AirAlgeriePattern)
  {
    forall q | 0 <= q < 15
      ensures !MatchesAt(s, q, AirAlgeriePattern)
    {
      assert s[q] == s[..15][q];
      assert q < 14 ==> s[q + 1] == s[..15][q + 1];
      assert Lower(s[q + 0]) != AirAlgeriePattern[0] || q + 1 >= |s| || Lower(s[q + 1]) != AirAlgeriePattern[1];
    }
  }

  /** Any one-line name that starts with "PANTANAL LINHAS" is turned into the
      canonical Pantanal name, whatever follows it: the Air Algerie rule can
      only rewrite its tail, and the Pantanal rule then matches at the start. */
  lemma PantanalVariant(rest: string)
    requires SingleLine(rest)
    ensures FixOperatorName(Some("PANTANAL LINHAS" + rest)) == Some(PantanalName)
  {
    var s := "PANTANAL LINHAS" + rest;
    assert s[..15] == "PANTANAL LINHAS";
    assert SingleLine(s) by {
      forall i | 0 <= i < |s| ensures s[i] != '\n' {
        if i >= 15 { assert s[i] == rest[i - 15]; }
      }
    }
    SubstituteSingleLine(s, AirAlgeriePattern, AirAlgerieName);
    var t := Substitute(s, AirAlgeriePattern, AirAlgerieName);
    var m := FirstMatch(s, AirAlgeriePattern);
    if m.Some? {
      NoAirAlgerieInPantanal(s);
      var p := m.value;
      assert p >= 15;
      assert SingleLine(s[..p]) by {
        forall i | 0 <= i < p ensures s[..p][i] != '\n' {
          assert s[..p][i] == s[i];
        }
      }
      assert SingleLine(AirAlgerieName);
      AppendSingleLine(s[..p], AirAlgerieName);
      assert t[..15] == s[..15];
    }
    PantanalAtStart(t);
  }

  /** Lines 120-131 over the table: the operator name of each row is looked
      up from its call-sign prefix and then normalized; nothing else changes. */
  function AttachOperators(rows: seq<Row>, companies: map<string, string>): (out: seq<Row>)
    ensures |out| == |rows|
    ensures forall i :: 0 <= i < |rows| ==>
      out[i] == rows[i].(operator := FixOperatorName(LookupOperator(rows[i].flight, companies)))
  {
    seq(|rows|, i requires 0 <= i < |rows| =>
      rows[i].(operator := FixOperatorName(LookupOperator(rows[i].flight, companies))))
  }
}
