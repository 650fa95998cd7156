/** getAggregatedStats of utils.ts: lifetime records per player over a flat
    list of archived matches, restricted by a phase filter, sorted by points
    and then goals scored. */
module Aggregation {
  import opened Types
  import opened Collections
  import Sorting

  /** The view's filter: 'all', 'league' or 'tournament'. */
  datatype Filter = All | LeagueOnly | TournamentOnly

  /** utils.ts:148-152: which matches a filter lets through. */
  predicate Passes(f: Filter, m: Match)
  {
    match f
    case All => true
    case LeagueOnly => PhaseOf(m) == League
    case TournamentOnly => PhaseOf(m) == Tournament
  }

  /** The source's stats dictionary: its records and the order their names
      were first entered. */
  datatype Stats = Stats(order: seq<Name>, recs: map<Name, AggregatedStats>)

  predicate WellFormed(r: AggregatedStats)
  {
    && r.matches == r.wins + r.draws + r.losses
    && r.points == 3 * r.wins + r.draws
    && r.wins >= 0 && r.draws >= 0 && r.losses >= 0
  }

  ghost predicate Valid(st: Stats)
  {
    && NoDups(st.order)
    && (forall n :: n in st.recs <==> n in st.order)
    && (forall n :: n in st.recs ==> st.recs[n].name == n && WellFormed(st.recs[n]))
  }

  function Blank(n: Name): AggregatedStats
  {
    AggregatedStats(n, 0, 0, 0, 0, 0, 0, 0)
  }

  /** utils.ts:97-104: a named participant gets a blank record unless it has
      one; '' and 'TBD' never get a record. */
  function Enter(st: Stats, p: Slot): (r: Stats)
    ensures Valid(st) ==> Valid(r)
    ensures forall n :: n in st.recs ==> n in r.recs && r.recs[n] == st.recs[n]
    ensures forall n :: n in r.recs <==> n in st.recs || p == Player(n)
  {
    if p.Player? && p.name !in st.recs then
      Stats(st.order + [p.name], st.recs[p.name := Blank(p.name)])
    else st
  }

  /** A player's record before a match: the existing one, or a blank one. */
  function Prior(st: Stats, n: Name): AggregatedStats
  {
    if n in st.recs then st.recs[n] else Blank(n)
  }

  /** The result of a match for its first side (utils.ts:119-130): penalties
      count only for a tournament match. */
  function Outcome(m: Match): (r: Side)
    requires m.Scored()
    ensures m.s1.value != m.s2.value ==>
      && (r == First <==> m.s1.value > m.s2.value)
      && (r == Second <==> m.s2.value > m.s1.value)
    ensures PhaseOf(m) == League ==>
      && (r == Level <==> m.s1.value == m.s2.value)
      && (r == First <==> m.s1.value > m.s2.value)
    ensures PhaseOf(m) == Tournament && m.s1.value == m.s2.value ==>
      && (r == First <==> m.pk1.Some? && m.pk2.Some? && m.pk1.value > m.pk2.value)
      && (r == Second <==> m.pk1.Some? && m.pk2.Some? && m.pk2.value > m.pk1.value)
  {
    if PhaseOf(m) == Tournament then Decide(m.s1.value, m.s2.value, m.pk1, m.pk2)
    else Decide(m.s1.value, m.s2.value, None, None)
  }

  /** One side's share of a counted match. */
  function Credit(r: AggregatedStats, scored: nat, conceded: nat, result: Side): (r': AggregatedStats)
    ensures WellFormed(r) ==> WellFormed(r')
    ensures r'.name == r.name && r'.matches == r.matches + 1
    ensures r'.gf == r.gf + scored && r'.ga == r.ga + conceded
    ensures r'.wins - r.wins == (if result == First then 1 else 0)
    ensures r'.losses - r.losses == (if result == Second then 1 else 0)
  {
    r.(matches := r.matches + 1,
       gf := r.gf + scored,
       ga := r.ga + conceded,
       wins := r.wins + (if result == First then 1 else 0),
       draws := r.draws + (if result == Level then 1 else 0),
       losses := r.losses + (if result == Second then 1 else 0),
       points := r.points + (if result == First then 3 else if result == Level then 1 else 0))
  }

  /** processMatch (utils.ts:90-146). A match without both scores is skipped
      whatever its completed flag; a match with a placeholder side adds no
      tallies, though its named side may get a blank record. When both sides
      are one player, that record receives both shares. */
  function Process(st: Stats, m: Match): (r: Stats)
    ensures Valid(st) ==> Valid(r)
    ensures !m.Scored() ==> r == st
    ensures forall n :: n in st.recs ==> n in r.recs
    ensures forall n :: n in r.recs <==> n in st.recs || (m.Scored() && (m.p1 == Player(n) || m.p2 == Player(n)))
    ensures m.Scored() && !(m.p1.Player? && m.p2.Player?) ==>
      forall n :: n in r.recs ==> r.recs[n] == Prior(st, n)
  {
    if !m.Scored() then st
    else
      var st1 := Enter(Enter(st, m.p1), m.p2);
      if !(m.p1.Player? && m.p2.Player?) then st1
      else Share(st1, m)
  }

  /** Both shares of a scored match between two named players, credited to
      the records the two players already have. */
  function Share(st: Stats, m: Match): (r: Stats)
    requires m.Scored() && m.p1.Player? && m.p2.Player?
    requires m.p1.name in st.recs && m.p2.name in st.recs
    ensures Valid(st) ==> Valid(r)
    ensures r.recs.Keys == st.recs.Keys
  {
    var a, b := m.p1.name, m.p2.name;
    var x, y := m.s1.value, m.s2.value;
    var d := Outcome(m);
    var recs1 := st.recs[a := Credit(st.recs[a], x, y, d)];
    Stats(st.order, recs1[b := Credit(recs1[b], y, x, Flip(d))])
  }

  /** The records after the matches that pass the filter, in order. */
  function Fold(st: Stats, ms: seq<Match>, f: Filter): (r: Stats)
    ensures Valid(st) ==> Valid(r)
  {
    if ms == [] then st
    else
      var st' := Fold(st, ms[..|ms| - 1], f);
      if Passes(f, ms[|ms| - 1]) then Process(st', ms[|ms| - 1]) else st'
  }

  function Empty(): (st: Stats)
    ensures Valid(st)
  {
    Stats([], map[])
  }

  /** utils.ts:154: points descending, then goals scored descending. */
  function Cmp(): (AggregatedStats, AggregatedStats) -> int
  {
    (a: AggregatedStats, b: AggregatedStats) =>
      if b.points - a.points != 0 then b.points - a.points else b.gf - a.gf
  }

  function Points(r: AggregatedStats): int { r.points }
  function Gf(r: AggregatedStats): int { r.gf }
  function Ga(r: AggregatedStats): int { r.ga }
  function Wins(r: AggregatedStats): int { r.wins }
  function Losses(r: AggregatedStats): int { r.losses }

  /** getAggregatedStats as a value. */
  function Aggregate(ms: seq<Match>, f: Filter): seq<AggregatedStats>
  {
    var st := Fold(Empty(), ms, f);
    Sorting.InsertionSort(Values(st.recs, st.order), Cmp())
  }

  lemma FoldStep(st: Stats, ms: seq<Match>, f: Filter, i: nat)
    requires i < |ms|
    ensures Fold(st, ms[..i + 1], f) ==
      if Passes(f, ms[i]) then Process(Fold(st, ms[..i], f), ms[i]) else Fold(st, ms[..i], f)
  {
    assert ms[..i + 1][..i] == ms[..i];
  }

  /** getAggregatedStats (utils.ts:87-155): a loop over the matches that
      updates the records in place, then the sort. */
  method GetAggregatedStats(ms: seq<Match>, f: Filter) returns (r: seq<AggregatedStats>)
    ensures r == Aggregate(ms, f)
  {
    var order: seq<Name> := [];
    var recs: map<Name, AggregatedStats> := map[];
    for i := 0 to |ms|
      invariant Stats(order, recs) == Fold(Empty(), ms[..i], f)
    {
      FoldStep(Empty(), ms, f, i);
      var m := ms[i];
      if Passes(f, m) && m.s1.Some? && m.s2.Some? {
        if m.p1.Player? && m.p1.name !in recs {
          order := order + [m.p1.name];
          recs := recs[m.p1.name := Blank(m.p1.name)];
        }
        if m.p2.Player? && m.p2.name !in recs {
          order := order + [m.p2.name];
          recs := recs[m.p2.name := Blank(m.p2.name)];
        }
        if m.p1.Player? && m.p2.Player? {
          var d := Outcome(m);
          recs := recs[m.p1.name := Credit(recs[m.p1.name], m.s1.value, m.s2.value, d)];
          recs := recs[m.p2.name := Credit(recs[m.p2.name], m.s2.value, m.s1.value, Flip(d))];
        }
      }
    }
    assert ms[..|ms|] == ms;
    assert Valid(Stats(order, recs));
    r := Sorting.InsertionSort(Values(recs, order), Cmp());
  }

  // ---------------------------------------------------------------------
  // What the aggregation promises
  // ---------------------------------------------------------------------

  /** m is counted for player n: it passes the filter, has both scores and
      names n on one side. */
  predicate CountsFor(f: Filter, m: Match, n: Name)
  {
    Passes(f, m) && m.Scored() && (m.p1 == Player(n) || m.p2 == Player(n))
  }

  /** Some match of ms is counted for n. */
  predicate Appears(ms: seq<Match>, f: Filter, n: Name)
  {
    exists i :: 0 <= i < |ms| && CountsFor(f, ms[i], n)
  }

  /** Some record is named n. */
  predicate HasRecord(r: seq<AggregatedStats>, n: Name)
  {
    exists i :: 0 <= i < |r| && r[i].name == n
  }

  lemma {:induction false} FoldNames(st: Stats, ms: seq<Match>, f: Filter)
    ensures forall n :: n in Fold(st, ms, f).recs <==> n in st.recs || Appears(ms, f, n)
  {
    if ms != [] {
      var init := ms[..|ms| - 1];
      FoldNames(st, init, f);
      forall n ensures n in Fold(st, ms, f).recs <==> n in st.recs || Appears(ms, f, n)
      {
        if exists i :: 0 <= i < |ms| && CountsFor(f, ms[i], n) {
          var i :| 0 <= i < |ms| && CountsFor(f, ms[i], n);
          if i < |ms| - 1 { assert init[i] == ms[i]; }
        }
        if exists i :: 0 <= i < |init| && CountsFor(f, init[i], n) {
          var i :| 0 <= i < |init| && CountsFor(f, init[i], n);
          assert ms[i] == init[i];
        }
      }
    }
  }

  lemma SortedRecordsFromStats(st: Stats, sorted: seq<AggregatedStats>)
    requires Valid(st)
    requires multiset(sorted) == multiset(Values(st.recs, st.order))
    ensures forall i :: 0 <= i < |sorted| ==> sorted[i].name in st.recs && sorted[i] == st.recs[sorted[i].name]
    ensures forall n :: n in st.recs <==> exists i :: 0 <= i < |sorted| && sorted[i].name == n
  {
    var v := Values(st.recs, st.order);
    forall i | 0 <= i < |sorted| ensures sorted[i].name in st.recs && sorted[i] == st.recs[sorted[i].name] {
      assert sorted[i] in multiset(v);
    }
    forall n | n in st.recs ensures exists i :: 0 <= i < |sorted| && sorted[i].name == n {
      var k :| 0 <= k < |st.order| && st.order[k] == n;
      assert v[k] in multiset(sorted);
    }
  }

  /** Every record obeys matches = wins + draws + losses and
      points = 3 * wins + draws (utils.ts:111-145). */
  lemma AggregateRecordsWellFormed(ms: seq<Match>, f: Filter)
    ensures var r := Aggregate(ms, f);
      forall i :: 0 <= i < |r| ==> WellFormed(r[i])
  {
    var st := Fold(Empty(), ms, f);
    var sorted := Sorting.InsertionSort(Values(st.recs, st.order), Cmp());
    SortedRecordsFromStats(st, sorted);
  }

  /** There is a record for exactly the names that appear in a counted match,
      so never for '' or 'TBD' (utils.ts:97-109). */
  lemma AggregateNames(ms: seq<Match>, f: Filter)
    ensures forall n :: HasRecord(Aggregate(ms, f), n) <==> Appears(ms, f, n)
  {
    var st := Fold(Empty(), ms, f);
    var sorted := Sorting.InsertionSort(Values(st.recs, st.order), Cmp());
    FoldNames(Empty(), ms, f);
    SortedRecordsFromStats(st, sorted);
    forall n ensures HasRecord(sorted, n) <==> Appears(ms, f, n) {
      assert n in st.recs <==> Appears(ms, f, n);
    }
  }

  // Goals and results balance.

  ghost predicate Balanced(st: Stats)
    requires Valid(st)
  {
    var v := Values(st.recs, st.order);
    Sum(v, Gf) == Sum(v, Ga) && Sum(v, Wins) == Sum(v, Losses)
  }

  lemma EnterBalanced(st: Stats, p: Slot)
    requires Valid(st) && Balanced(st)
    ensures Balanced(Enter(st, p))
  {
    if p.Player? && p.name !in st.recs {
      SumValuesAdd(st.recs, st.order, p.name, Blank(p.name), Gf);
      SumValuesAdd(st.recs, st.order, p.name, Blank(p.name), Ga);
      SumValuesAdd(st.recs, st.order, p.name, Blank(p.name), Wins);
      SumValuesAdd(st.recs, st.order, p.name, Blank(p.name), Losses);
    }
  }

  /** Replacing one record moves each balanced sum by that record's change. */
  lemma Replace(st: Stats, a: Name, v: AggregatedStats)
    requires Valid(st) && a in st.recs
    ensures var v0, v1 := Values(st.recs, st.order), Values(st.recs[a := v], st.order);
      && Sum(v1, Gf) == Sum(v0, Gf) - st.recs[a].gf + v.gf
      && Sum(v1, Ga) == Sum(v0, Ga) - st.recs[a].ga + v.ga
      && Sum(v1, Wins) == Sum(v0, Wins) - st.recs[a].wins + v.wins
      && Sum(v1, Losses) == Sum(v0, Losses) - st.recs[a].losses + v.losses
  {
    SumValuesUpdate(st.recs, st.order, a, v, Gf);
    SumValuesUpdate(st.recs, st.order, a, v, Ga);
    SumValuesUpdate(st.recs, st.order, a, v, Wins);
    SumValuesUpdate(st.recs, st.order, a, v, Losses);
  }

  lemma CreditsBalanced(st: Stats, a: Name, b: Name, x: nat, y: nat, d: Side)
    requires Valid(st) && Balanced(st) && a in st.recs && b in st.recs
    ensures var recs1 := st.recs[a := Credit(st.recs[a], x, y, d)];
      var st' := Stats(st.order, recs1[b := Credit(recs1[b], y, x, Flip(d))]);
      Valid(st') && Balanced(st')
  {
    var ca := Credit(st.recs[a], x, y, d);
    var st1 := Stats(st.order, st.recs[a := ca]);
    var cb := Credit(st1.recs[b], y, x, Flip(d));
    Replace(st, a, ca);
    assert Valid(st1);
    Replace(st1, b, cb);
  }

  lemma ProcessBalanced(st: Stats, m: Match)
    requires Valid(st) && Balanced(st)
    ensures Balanced(Process(st, m))
  {
    if m.Scored() {
      EnterBalanced(st, m.p1);
      EnterBalanced(Enter(st, m.p1), m.p2);
      var st1 := Enter(Enter(st, m.p1), m.p2);
      if m.p1.Player? && m.p2.Player? {
        CreditsBalanced(st1, m.p1.name, m.p2.name, m.s1.value, m.s2.value, Outcome(m));
      }
    }
  }

  lemma {:induction false} FoldBalanced(st: Stats, ms: seq<Match>, f: Filter)
    requires Valid(st) && Balanced(st)
    ensures Balanced(Fold(st, ms, f))
  {
    if ms != [] {
      FoldBalanced(st, ms[..|ms| - 1], f);
      if Passes(f, ms[|ms| - 1]) {
        ProcessBalanced(Fold(st, ms[..|ms| - 1], f), ms[|ms| - 1]);
      }
    }
  }

  /** Over all records, goals for equal goals against and wins equal losses. */
  lemma AggregateBalance(ms: seq<Match>, f: Filter)
    ensures var r := Aggregate(ms, f);
      Sum(r, Gf) == Sum(r, Ga) && Sum(r, Wins) == Sum(r, Losses)
  {
    var st := Fold(Empty(), ms, f);
    FoldBalanced(Empty(), ms, f);
    var v := Values(st.recs, st.order);
    Sorting.SumSort(v, Cmp(), Gf);
    Sorting.SumSort(v, Cmp(), Ga);
    Sorting.SumSort(v, Cmp(), Wins);
    Sorting.SumSort(v, Cmp(), Losses);
  }

  /** The records are sorted by points descending, then goals for descending
      (utils.ts:154). */
  lemma AggregateOrder(ms: seq<Match>, f: Filter)
    ensures var r := Aggregate(ms, f);
      forall i, j :: 0 <= i < j < |r| ==>
        r[i].points >= r[j].points && (r[i].points == r[j].points ==> r[i].gf >= r[j].gf)
  {
    var st := Fold(Empty(), ms, f);
    var v := Values(st.recs, st.order);
    assert Sorting.Antisymmetric(Cmp());
    assert Sorting.Respects(Cmp(), Points, Gf);
    Sorting.SortRanked(v, Cmp(), Points, Gf);
    var r := Sorting.InsertionSort(v, Cmp());
    forall i, j | 0 <= i < j < |r|
      ensures r[i].points >= r[j].points && (r[i].points == r[j].points ==> r[i].gf >= r[j].gf)
    {
      assert !Sorting.Above(r[j], r[i], Points, Gf);
    }
  }

  // Penalty shoot-outs.

  /** A ladder match level on score and settled on penalties between two
      players gives the penalty winner a win and the loser a loss, with no
      draw, under the 'all' and 'tournament' filters; the 'league' filter
      leaves the records alone (utils.ts:119-152). */
  lemma ShootoutDecides(st: Stats, m: Match, f: Filter)
    requires Valid(st)
    requires PhaseOf(m) == Tournament && m.Scored() && m.s1.value == m.s2.value
    requires m.pk1.Some? && m.pk2.Some? && m.pk1.value != m.pk2.value
    requires m.p1.Player? && m.p2.Player? && m.p1 != m.p2
    ensures var r := Fold(st, [m], f);
      var w := if m.pk1.value > m.pk2.value then m.p1.name else m.p2.name;
      var l := if m.pk1.value > m.pk2.value then m.p2.name else m.p1.name;
      if f == LeagueOnly then r == st
      else
        && w in r.recs && l in r.recs
        && r.recs[w].wins == Prior(st, w).wins + 1 && r.recs[w].losses == Prior(st, w).losses
        && r.recs[l].losses == Prior(st, l).losses + 1 && r.recs[l].wins == Prior(st, l).wins
        && r.recs[w].draws == Prior(st, w).draws && r.recs[l].draws == Prior(st, l).draws
  {
    assert [m][..0] == [];
    if f != LeagueOnly {
      ProcessCredits(st, m);
    }
  }

  /** The credits of a scored match between two named players, one
      processing step (utils.ts:106-145): each side's existing or blank
      record receives its share of the decided result; when both sides are
      one player, that record receives both shares. */
  lemma ProcessCredits(st: Stats, m: Match)
    requires m.Scored() && m.p1.Player? && m.p2.Player?
    ensures var r := Process(st, m);
      var d := Outcome(m);
      && m.p1.name in r.recs && m.p2.name in r.recs
      && (m.p1 != m.p2 ==>
            && r.recs[m.p1.name] == Credit(Prior(st, m.p1.name), m.s1.value, m.s2.value, d)
            && r.recs[m.p2.name] == Credit(Prior(st, m.p2.name), m.s2.value, m.s1.value, Flip(d)))
      && (m.p1 == m.p2 ==>
            r.recs[m.p1.name] == Credit(Credit(Prior(st, m.p1.name), m.s1.value, m.s2.value, d), m.s2.value, m.s1.value, Flip(d)))
  {
    var st1 := Enter(Enter(st, m.p1), m.p2);
    assert st1.recs[m.p1.name] == Prior(st, m.p1.name);
    assert st1.recs[m.p2.name] == Prior(st, m.p2.name);
  }

  // The filter.

  /** The matches a filter lets through, in order. */
  function Keep(ms: seq<Match>, f: Filter): (r: seq<Match>)
    ensures forall m :: m in r <==> m in ms && Passes(f, m)
  {
    if ms == [] then []
    else if Passes(f, ms[|ms| - 1]) then Keep(ms[..|ms| - 1], f) + [ms[|ms| - 1]]
    else Keep(ms[..|ms| - 1], f)
  }

  lemma {:induction false} FoldKeep(st: Stats, ms: seq<Match>, f: Filter)
    ensures Fold(st, ms, f) == Fold(st, Keep(ms, f), All)
  {
    if ms != [] {
      FoldKeep(st, ms[..|ms| - 1], f);
      var k := Keep(ms[..|ms| - 1], f);
      if Passes(f, ms[|ms| - 1]) {
        assert (k + [ms[|ms| - 1]])[..|k|] == k;
      }
    }
  }

  /** The 'league' and 'tournament' filters give exactly what 'all' gives over
      the matches of that phase alone (utils.ts:94, 148-152). */
  lemma FilterIsPhaseSelection(ms: seq<Match>, f: Filter)
    ensures Aggregate(ms, f) == Aggregate(Keep(ms, f), All)
  {
    FoldKeep(Empty(), ms, f);
  }
}
