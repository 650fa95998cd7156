/** The league table of utils.ts: the empty league fixture list and
    calculateStandings, which folds completed league matches into per-player
    tallies and ranks the players by points, goal difference, the
    head-to-head result and goals scored. */
module Standings {
  import opened Types
  import Sorting
  import opened Collections

  /** The ids of the league fixtures, in order. */
  const LeagueIds: seq<string> := ["L1", "L2", "L3", "L4", "L5", "L6"]

  /** The six empty league matches L1..L6, two in each of rounds 1, 2 and 3. */
  function InitialLeagueMatches(): (ms: seq<Match>)
    ensures |ms| == 6
    ensures forall i :: 0 <= i < |ms| ==> ms[i].id == LeagueIds[i]
    ensures forall i :: 0 <= i < |ms| ==> ms[i].kind == LeagueRound(i / 2 + 1)
    ensures forall i, j :: 0 <= i < j < |ms| ==> ms[i].id != ms[j].id
    ensures forall m :: m in ms ==>
      m.p1 == Unset && m.p2 == Unset && !m.Scored() && !m.completed
  {
    [ Match("L1", Unset, Unset, None, None, None, None, false, LeagueRound(1)),
      Match("L2", Unset, Unset, None, None, None, None, false, LeagueRound(1)),
      Match("L3", Unset, Unset, None, None, None, None, false, LeagueRound(2)),
      Match("L4", Unset, Unset, None, None, None, None, false, LeagueRound(2)),
      Match("L5", Unset, Unset, None, None, None, None, false, LeagueRound(3)),
      Match("L6", Unset, Unset, None, None, None, None, false, LeagueRound(3)) ]
  }

  // ---------------------------------------------------------------------
  // The table: one line per roster name, filled in by the matches
  // ---------------------------------------------------------------------

  type Table = map<Name, Standing>

  function Zero(n: Name): Standing
  {
    Standing(n, 0, 0, 0, 0, 0, 0, 0, 0, 0)
  }

  /** The tallies of one line agree with each other. */
  predicate WellFormed(st: Standing)
  {
    && st.played == st.won + st.drawn + st.lost
    && st.points == 3 * st.won + st.drawn
    && st.gd == st.gf - st.ga
    && st.won >= 0 && st.drawn >= 0 && st.lost >= 0
  }

  /** Every line of the table is filed under its own name and well formed. */
  ghost predicate Consistent(t: Table)
  {
    forall n :: n in t ==> t[n].name == n && WellFormed(t[n])
  }

  /** The roster without repeats, in order of first appearance: the key order
      of the source's table. */
  function Distinct(s: seq<Name>): (r: seq<Name>)
    ensures forall n :: n in r <==> n in s
    ensures NoDups(r)
  {
    if s == [] then []
    else
      var d := Distinct(s[..|s| - 1]);
      if s[|s| - 1] in d then d else d + [s[|s| - 1]]
  }

  /** The table right after initialisation: a zero line per roster name. */
  function InitTable(roster: seq<Name>): (t: Table)
    ensures t.Keys == set n | n in roster
    ensures Consistent(t)
  {
    map n | n in roster :: Zero(n)
  }

  /** One side's share of a counted match (utils.ts:35-58 for p1 or for p2). */
  function Credit(st: Standing, scored: nat, conceded: nat): (r: Standing)
    ensures WellFormed(st) ==> WellFormed(r)
    ensures r.name == st.name && r.played == st.played + 1
    ensures r.gf == st.gf + scored && r.ga == st.ga + conceded
    ensures r.won - st.won == (if scored > conceded then 1 else 0)
    ensures r.lost - st.lost == (if scored < conceded then 1 else 0)
  {
    st.(played := st.played + 1,
        gf := st.gf + scored,
        ga := st.ga + conceded,
        won := st.won + (if scored > conceded then 1 else 0),
        drawn := st.drawn + (if scored == conceded then 1 else 0),
        lost := st.lost + (if scored < conceded then 1 else 0),
        points := st.points + (if scored > conceded then 3 else if scored == conceded then 1 else 0),
        gd := (st.gf + scored) - (st.ga + conceded))
  }

  /** A match counts when it is completed, both scores are present and both
      participants are names in the table. */
  predicate Counts(t: Table, m: Match)
  {
    m.completed && m.Scored() && m.p1.Player? && m.p2.Player? && m.p1.name in t && m.p2.name in t
  }

  /** One step of the fold: the first side is credited, then the second. When
      both sides are the same player that line receives both credits, as the
      source's two aliased references do. */
  function Apply(t: Table, m: Match): (r: Table)
    ensures r.Keys == t.Keys
    ensures !Counts(t, m) ==> r == t
    ensures forall n :: n in t && Slot.Player(n) != m.p1 && Slot.Player(n) != m.p2 ==> r[n] == t[n]
    ensures Consistent(t) ==> Consistent(r)
    ensures Counts(t, m) && m.p1 != m.p2 ==>
      && r[m.p1.name] == Credit(t[m.p1.name], m.s1.value, m.s2.value)
      && r[m.p2.name] == Credit(t[m.p2.name], m.s2.value, m.s1.value)
    ensures Counts(t, m) && m.p1 == m.p2 ==>
      r[m.p1.name] == Credit(Credit(t[m.p1.name], m.s1.value, m.s2.value), m.s2.value, m.s1.value)
  {
    if Counts(t, m) then
      var a, b := m.p1.name, m.p2.name;
      var t1 := t[a := Credit(t[a], m.s1.value, m.s2.value)];
      t1[b := Credit(t1[b], m.s2.value, m.s1.value)]
    else t
  }

  /** The table after folding the matches in order over t. */
  function Tally(t: Table, ms: seq<Match>): (r: Table)
    ensures r.Keys == t.Keys
    ensures Consistent(t) ==> Consistent(r)
  {
    if ms == [] then t else Apply(Tally(t, ms[..|ms| - 1]), ms[|ms| - 1])
  }

  // ---------------------------------------------------------------------
  // The ordering (utils.ts:65-82)
  // ---------------------------------------------------------------------

  /** m is a completed match between a and b, in either order. */
  predicate Direct(m: Match, a: Name, b: Name)
  {
    m.completed && ((m.p1 == Player(a) && m.p2 == Player(b)) || (m.p1 == Player(b) && m.p2 == Player(a)))
  }

  /** The index of the first completed match between a and b. */
  function FirstDirect(ms: seq<Match>, a: Name, b: Name): (r: Option<nat>)
    ensures r.Some? ==> r.value < |ms| && Direct(ms[r.value], a, b)
    ensures r.Some? ==> forall j :: 0 <= j < r.value ==> !Direct(ms[j], a, b)
    ensures r.None? ==> forall j :: 0 <= j < |ms| ==> !Direct(ms[j], a, b)
  {
    if ms == [] then None
    else if Direct(ms[0], a, b) then Some(0)
    else match FirstDirect(ms[1..], a, b)
      case None => None
      case Some(k) => Some(k + 1)
  }

  /** The scores of a and of b in their first completed direct match, when that
      match has both scores. */
  function DirectScores(ms: seq<Match>, a: Name, b: Name): Option<(nat, nat)>
  {
    match FirstDirect(ms, a, b)
    case None => None
    case Some(k) =>
      var m := ms[k];
      if m.Scored() then
        Some((if m.p1 == Player(a) then m.s1.value else m.s2.value,
              if m.p1 == Player(b) then m.s1.value else m.s2.value))
      else None
  }

  /** The source's comparator: negative when a ranks ahead of b. */
  function Compare(a: Standing, b: Standing, ms: seq<Match>): int
  {
    if b.points != a.points then b.points - a.points
    else if b.gd != a.gd then b.gd - a.gd
    else
      var d := DirectScores(ms, a.name, b.name);
      if d.Some? && d.value.0 != d.value.1 then d.value.1 - d.value.0
      else b.gf - a.gf
  }

  /** Rank is position + 1; nothing else changes. */
  function Rank(s: seq<Standing>): (r: seq<Standing>)
    ensures |r| == |s|
    ensures forall i :: 0 <= i < |s| ==> r[i] == s[i].(rank := i + 1)
  {
    seq(|s|, i requires 0 <= i < |s| => s[i].(rank := i + 1))
  }

  /** The order the source sorts the table into. */
  function Cmp(ms: seq<Match>): (Standing, Standing) -> int
  {
    (a: Standing, b: Standing) => Compare(a, b, ms)
  }

  function Points(s: Standing): int { s.points }
  function GoalDifference(s: Standing): int { s.gd }

  /** calculateStandings as a value: the tallies of the roster's players over
      the matches, sorted and ranked. */
  function LeagueTable(roster: seq<Name>, matches: seq<Match>): (t: Table)
    ensures t.Keys == set n | n in roster
    ensures Consistent(t)
  {
    Tally(InitTable(roster), matches)
  }

  function StandingsOf(roster: seq<Name>, matches: seq<Match>): seq<Standing>
  {
    var t := LeagueTable(roster, matches);
    Rank(Sorting.InsertionSort(Values(t, Distinct(roster)), Cmp(matches)))
  }

  // ---------------------------------------------------------------------
  // The imperative calculation
  // ---------------------------------------------------------------------

  lemma InitStep(roster: seq<Name>, i: nat)
    requires i < |roster|
    ensures InitTable(roster[..i + 1]) == InitTable(roster[..i])[roster[i] := Zero(roster[i])]
    ensures Distinct(roster[..i + 1]) ==
      if roster[i] in InitTable(roster[..i]) then Distinct(roster[..i]) else Distinct(roster[..i]) + [roster[i]]
  {
    assert roster[..i + 1][..i] == roster[..i];
  }

  lemma TallyStep(t: Table, ms: seq<Match>, i: nat)
    requires i < |ms|
    ensures Tally(t, ms[..i + 1]) == Apply(Tally(t, ms[..i]), ms[i])
  {
    assert ms[..i + 1][..i] == ms[..i];
  }

  /** calculateStandings (utils.ts:17-85): initialise a zero line per roster
      name, fold the matches into the lines in a loop, sort and rank. */
  method CalculateStandings(roster: seq<Name>, matches: seq<Match>) returns (standings: seq<Standing>)
    ensures standings == StandingsOf(roster, matches)
  {
    var table: Table := map[];
    var order: seq<Name> := [];
    for i := 0 to |roster|
      invariant table == InitTable(roster[..i])
      invariant order == Distinct(roster[..i])
    {
      InitStep(roster, i);
      if roster[i] !in table {
        order := order + [roster[i]];
      }
      table := table[roster[i] := Zero(roster[i])];
    }
    assert roster[..|roster|] == roster;
    ghost var init := table;
    for i := 0 to |matches|
      invariant table == Tally(init, matches[..i])
    {
      TallyStep(init, matches, i);
      var m := matches[i];
      if m.completed && m.s1.Some? && m.s2.Some? && m.p1.Player? && m.p2.Player?
         && m.p1.name in table && m.p2.name in table
      {
        table := table[m.p1.name := Credit(table[m.p1.name], m.s1.value, m.s2.value)];
        table := table[m.p2.name := Credit(table[m.p2.name], m.s2.value, m.s1.value)];
      }
    }
    assert matches[..|matches|] == matches;
    var lines := Values(table, order);
    var sorted := Sorting.InsertionSort(lines, Cmp(matches));
    standings := Rank(sorted);
  }

  // ---------------------------------------------------------------------
  // What the standings promise
  // ---------------------------------------------------------------------

  function Gf(s: Standing): int { s.gf }
  function Ga(s: Standing): int { s.ga }
  function Won(s: Standing): int { s.won }
  function Lost(s: Standing): int { s.lost }

  /** No two entries share a name. */
  ghost predicate DistinctNames(s: seq<Standing>)
  {
    forall i, j :: 0 <= i < j < |s| ==> s[i].name != s[j].name
  }

  lemma {:induction false} PermutationKeepsDistinctNames(a: seq<Standing>, b: seq<Standing>)
    requires multiset(a) == multiset(b) && DistinctNames(a)
    ensures DistinctNames(b)
  {
    assert NoDups(a) by {
      forall i, j | 0 <= i < j < |a| ensures a[i] != a[j] { assert a[i].name != a[j].name; }
    }
    forall i, j | 0 <= i < j < |b| ensures b[i].name != b[j].name {
      if b[i] == b[j] {
        assert b == b[..j] + b[j..];
        assert b[i] in b[..j] && b[j] in b[j..];
        assert multiset(b)[b[i]] == multiset(b[..j])[b[i]] + multiset(b[j..])[b[i]];
        NoDupsCount(a, b[i]);
      } else {
        assert b[i] in multiset(a) && b[j] in multiset(a);
        var p :| 0 <= p < |a| && a[p] == b[i];
        var q :| 0 <= q < |a| && a[q] == b[j];
        assert p != q;
        if p < q { assert a[p].name != a[q].name; } else { assert a[q].name != a[p].name; }
      }
    }
  }

  /** Each element of the sorted lines is a line of the table, filed under its name. */
  lemma SortedLinesFromTable(t: Table, order: seq<Name>, sorted: seq<Standing>)
    requires Consistent(t) && forall n :: n in order ==> n in t
    requires multiset(sorted) == multiset(Values(t, order))
    ensures forall i :: 0 <= i < |sorted| ==> sorted[i].name in t && sorted[i] == t[sorted[i].name]
  {
    forall i | 0 <= i < |sorted| ensures sorted[i].name in t && sorted[i] == t[sorted[i].name] {
      assert sorted[i] in multiset(Values(t, order));
      var k :| 0 <= k < |order| && Values(t, order)[k] == sorted[i];
    }
  }

  /** The names of the sorted lines are exactly the names in order. */
  lemma SortedNames(t: Table, order: seq<Name>, sorted: seq<Standing>)
    requires Consistent(t) && forall n :: n in order ==> n in t
    requires multiset(sorted) == multiset(Values(t, order))
    ensures forall n :: n in order <==> exists i :: 0 <= i < |sorted| && sorted[i].name == n
  {
    var lines := Values(t, order);
    forall n | n in order ensures exists i :: 0 <= i < |sorted| && sorted[i].name == n {
      var k :| 0 <= k < |order| && order[k] == n;
      assert lines[k] in multiset(sorted);
    }
    forall i | 0 <= i < |sorted| ensures sorted[i].name in order {
      assert sorted[i] in multiset(lines);
    }
  }

  /** calculateStandings gives exactly one entry per roster name, and ranks
      1..N by position (utils.ts:21-26, 84). */
  lemma {:induction false} StandingsOnePerPlayer(roster: seq<Name>, matches: seq<Match>)
    ensures var r := StandingsOf(roster, matches);
      && |r| == |Distinct(roster)|
      && (forall n :: n in roster <==> exists i :: 0 <= i < |r| && r[i].name == n)
      && DistinctNames(r)
      && (forall i :: 0 <= i < |r| ==> r[i].rank == i + 1)
  {
    var t := LeagueTable(roster, matches);
    var order := Distinct(roster);
    var lines := Values(t, order);
    var sorted := Sorting.InsertionSort(lines, Cmp(matches));
    var r := Rank(sorted);
    TableLinesDistinct(t, order);
    PermutationKeepsDistinctNames(lines, sorted);
    SortedNames(t, order, sorted);
    RankKeepsNames(sorted);
  }

  /** The table read in roster order names each player once. */
  lemma TableLinesDistinct(t: Table, order: seq<Name>)
    requires Consistent(t) && NoDups(order) && forall n :: n in order ==> n in t
    ensures DistinctNames(Values(t, order))
  {
    var lines := Values(t, order);
    forall i, j | 0 <= i < j < |lines| ensures lines[i].name != lines[j].name {
      assert lines[i].name == order[i] && lines[j].name == order[j];
    }
  }

  lemma RankKeepsNames(s: seq<Standing>)
    ensures forall i :: 0 <= i < |s| ==> Rank(s)[i].name == s[i].name
  {
  }

  /** Every entry is the player's tally over the counted matches, with the
      tallies agreeing: played = won + drawn + lost, points = 3 * won + drawn,
      gd = gf - ga (utils.ts:35-58). */
  lemma {:induction false} StandingsTallies(roster: seq<Name>, matches: seq<Match>)
    ensures var r := StandingsOf(roster, matches);
      var t := LeagueTable(roster, matches);
      forall i :: 0 <= i < |r| ==>
        && WellFormed(r[i])
        && r[i].name in t
        && r[i] == t[r[i].name].(rank := i + 1)
  {
    var t := LeagueTable(roster, matches);
    var lines := Values(t, Distinct(roster));
    var sorted := Sorting.InsertionSort(lines, Cmp(matches));
    SortedLinesFromTable(t, Distinct(roster), sorted);
  }

  // Goals and results balance across the table.

  /** Goals scored equal goals conceded and wins equal losses, summed over the
      lines named in order. */
  ghost predicate Balanced(t: Table, order: seq<Name>)
    requires forall n :: n in order ==> n in t
  {
    var v := Values(t, order);
    Sum(v, Gf) == Sum(v, Ga) && Sum(v, Won) == Sum(v, Lost)
  }

  lemma {:induction false} ApplyBalanced(t: Table, order: seq<Name>, m: Match)
    requires NoDups(order) && forall n :: n in t <==> n in order
    requires Balanced(t, order)
    ensures Balanced(Apply(t, m), order)
  {
    if Counts(t, m) {
      var a, b := m.p1.name, m.p2.name;
      var x, y := m.s1.value, m.s2.value;
      var t1 := t[a := Credit(t[a], x, y)];
      var t2 := t1[b := Credit(t1[b], y, x)];
      SumValuesUpdate(t, order, a, Credit(t[a], x, y), Gf);
      SumValuesUpdate(t, order, a, Credit(t[a], x, y), Ga);
      SumValuesUpdate(t, order, a, Credit(t[a], x, y), Won);
      SumValuesUpdate(t, order, a, Credit(t[a], x, y), Lost);
      SumValuesUpdate(t1, order, b, Credit(t1[b], y, x), Gf);
      SumValuesUpdate(t1, order, b, Credit(t1[b], y, x), Ga);
      SumValuesUpdate(t1, order, b, Credit(t1[b], y, x), Won);
      SumValuesUpdate(t1, order, b, Credit(t1[b], y, x), Lost);
    }
  }

  lemma {:induction false} TallyBalanced(t: Table, order: seq<Name>, ms: seq<Match>)
    requires NoDups(order) && forall n :: n in t <==> n in order
    requires Balanced(t, order)
    ensures Balanced(Tally(t, ms), order)
  {
    if ms != [] {
      TallyBalanced(t, order, ms[..|ms| - 1]);
      ApplyBalanced(Tally(t, ms[..|ms| - 1]), order, ms[|ms| - 1]);
    }
  }

  lemma {:induction false} ZeroBalanced(roster: seq<Name>, order: seq<Name>)
    requires forall n :: n in order ==> n in roster
    ensures Balanced(InitTable(roster), order)
  {
    var v := Values(InitTable(roster), order);
    if order != [] {
      ZeroBalanced(roster, order[1..]);
      assert Values(InitTable(roster), order)[1..] == Values(InitTable(roster), order[1..]);
    }
  }

  /** Across the table, total goals for equal total goals against and total
      wins equal total losses (utils.ts:35-58). */
  lemma StandingsBalance(roster: seq<Name>, matches: seq<Match>)
    ensures var r := StandingsOf(roster, matches);
      Sum(r, Gf) == Sum(r, Ga) && Sum(r, Won) == Sum(r, Lost)
  {
    var order := Distinct(roster);
    var t := LeagueTable(roster, matches);
    ZeroBalanced(roster, order);
    TallyBalanced(InitTable(roster), order, matches);
    RankedSums(Values(t, order), Cmp(matches));
  }

  /** Sorting and ranking lines leaves the four balanced sums as they were. */
  lemma RankedSums(lines: seq<Standing>, cmp: (Standing, Standing) -> int)
    ensures var r := Rank(Sorting.InsertionSort(lines, cmp));
      && Sum(r, Gf) == Sum(lines, Gf) && Sum(r, Ga) == Sum(lines, Ga)
      && Sum(r, Won) == Sum(lines, Won) && Sum(r, Lost) == Sum(lines, Lost)
  {
    var sorted := Sorting.InsertionSort(lines, cmp);
    var r := Rank(sorted);
    Sorting.SumSort(lines, cmp, Gf);
    Sorting.SumSort(lines, cmp, Ga);
    Sorting.SumSort(lines, cmp, Won);
    Sorting.SumSort(lines, cmp, Lost);
    SumPointwise(r, sorted, Gf, Gf);
    SumPointwise(r, sorted, Ga, Ga);
    SumPointwise(r, sorted, Won, Won);
    SumPointwise(r, sorted, Lost, Lost);
  }

  // The order.

  lemma {:induction false} FirstDirectSymmetric(ms: seq<Match>, a: Name, b: Name)
    ensures FirstDirect(ms, a, b) == FirstDirect(ms, b, a)
  {
    if ms != [] {
      FirstDirectSymmetric(ms[1..], a, b);
    }
  }

  lemma CompareAntisymmetric(ms: seq<Match>)
    ensures Sorting.Antisymmetric(Cmp(ms))
  {
    forall a: Standing, b: Standing ensures Cmp(ms)(a, b) == -Cmp(ms)(b, a) {
      FirstDirectSymmetric(ms, a.name, b.name);
    }
  }

  lemma CompareRespectsPoints(ms: seq<Match>)
    ensures Sorting.Respects(Cmp(ms), Points, GoalDifference)
  {
  }

  /** The standings are non-increasing in points, and among equal points
      non-increasing in goal difference (utils.ts:65-67). */
  lemma StandingsOrder(roster: seq<Name>, matches: seq<Match>)
    ensures var r := StandingsOf(roster, matches);
      forall i, j :: 0 <= i < j < |r| ==>
        r[i].points >= r[j].points && (r[i].points == r[j].points ==> r[i].gd >= r[j].gd)
  {
    var lines := Values(LeagueTable(roster, matches), Distinct(roster));
    var sorted := Sorting.InsertionSort(lines, Cmp(matches));
    CompareAntisymmetric(matches);
    CompareRespectsPoints(matches);
    Sorting.SortRanked(lines, Cmp(matches), Points, GoalDifference);
    var r := Rank(sorted);
    forall i, j | 0 <= i < j < |r|
      ensures r[i].points >= r[j].points && (r[i].points == r[j].points ==> r[i].gd >= r[j].gd)
    {
      assert !Sorting.Above(sorted[j], sorted[i], Points, GoalDifference);
    }
  }

  /** Two neighbours level on points and goal difference are ordered by their
      first completed direct match when it has both scores and they differ,
      and otherwise by goals scored (utils.ts:69-81). The library sort is not
      guaranteed to respect a comparator that is not transitive, so only
      neighbouring entries are claimed. */
  lemma HeadToHeadRule(roster: seq<Name>, matches: seq<Match>, i: nat)
    requires i + 1 < |StandingsOf(roster, matches)|
    ensures var r := StandingsOf(roster, matches);
      var d := DirectScores(matches, r[i].name, r[i + 1].name);
      r[i].points == r[i + 1].points && r[i].gd == r[i + 1].gd ==>
        if d.Some? && d.value.0 != d.value.1 then d.value.0 > d.value.1 else r[i].gf >= r[i + 1].gf
  {
    var lines := Values(LeagueTable(roster, matches), Distinct(roster));
    var sorted := Sorting.InsertionSort(lines, Cmp(matches));
    CompareAntisymmetric(matches);
    Sorting.SortAdjacent(lines, Cmp(matches));
    assert Cmp(matches)(sorted[i], sorted[i + 1]) <= 0;
  }
}
