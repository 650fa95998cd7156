/** The computations of components/StatsView.tsx: the flat list of archived
    matches, a player's record against each opponent (the head-to-head table
    of PlayerDetailModal), and the sortable lifetime table. */
module StatsView {
  import opened Types
  import opened Collections
  import Sorting
  import Aggregation

  // ---------------------------------------------------------------------
  // All archived matches
  // ---------------------------------------------------------------------

  /** allMatches (StatsView.tsx:261-263): each archived event's league
      matches, then its ladder matches, in archive order. */
  function AllMatches(history: seq<TournamentData>): seq<Match>
  {
    if history == [] then []
    else
      var last := history[|history| - 1];
      AllMatches(history[..|history| - 1]) + last.leagueMatches + last.tournamentMatches
  }

  /** Flattening respects concatenation of archives: the matches of a longer
      archive extend those of its prefix, block by block. */
  lemma {:induction false} AllMatchesAppend(h1: seq<TournamentData>, h2: seq<TournamentData>)
    ensures AllMatches(h1 + h2) == AllMatches(h1) + AllMatches(h2)
  {
    if h2 != [] {
      var init := h2[..|h2| - 1];
      var last := h2[|h2| - 1];
      AllMatchesAppend(h1, init);
      assert (h1 + h2)[..|h1 + h2| - 1] == h1 + init;
      assert (h1 + h2)[|h1 + h2| - 1] == last;
    } else {
      assert h1 + h2 == h1;
    }
  }

  /** A match is in the flat list exactly when some archived event holds it. */
  lemma {:induction false} AllMatchesMembers(history: seq<TournamentData>, m: Match)
    ensures m in AllMatches(history) <==>
      exists t :: 0 <= t < |history| && (m in history[t].leagueMatches || m in history[t].tournamentMatches)
  {
    if history != [] {
      var init := history[..|history| - 1];
      AllMatchesMembers(init, m);
      if exists t :: 0 <= t < |init| && (m in init[t].leagueMatches || m in init[t].tournamentMatches) {
        var t :| 0 <= t < |init| && (m in init[t].leagueMatches || m in init[t].tournamentMatches);
        assert history[t] == init[t];
      }
      if exists t :: 0 <= t < |history| && (m in history[t].leagueMatches || m in history[t].tournamentMatches) {
        var t :| 0 <= t < |history| && (m in history[t].leagueMatches || m in history[t].tournamentMatches);
        if t < |init| {
          assert init[t] == history[t];
        }
      }
    }
  }

  // ---------------------------------------------------------------------
  // Head-to-head
  // ---------------------------------------------------------------------

  /** One opponent's row of the head-to-head table. */
  datatype Row = Row(name: Name, played: int, wins: int, draws: int, losses: int, gf: int, ga: int)

  /** The per-opponent dictionary: its rows and the order the opponents were
      first entered. */
  datatype Table = Table(order: seq<Name>, rows: map<Name, Row>)

  predicate WellFormed(r: Row)
  {
    && r.played == r.wins + r.draws + r.losses
    && r.wins >= 0 && r.draws >= 0 && r.losses >= 0
    && r.gf >= 0 && r.ga >= 0
  }

  ghost predicate Valid(t: Table)
  {
    && NoDups(t.order)
    && (forall n :: n in t.rows <==> n in t.order)
    && (forall n :: n in t.rows ==> t.rows[n].name == n && WellFormed(t.rows[n]))
  }

  /** An absent score takes part in the sums and comparisons as 0, as null
      does in JavaScript arithmetic. */
  function Score(o: Option<nat>): nat
  {
    if o.Some? then o.value else 0
  }

  /** StatsView.tsx:39: skipped only when unconfirmed and missing a score. */
  predicate Considered(m: Match)
  {
    m.completed || m.Scored()
  }

  predicate Involves(player: Name, m: Match)
  {
    m.p1 == Player(player) || m.p2 == Player(player)
  }

  /** StatsView.tsx:47-48: the other side, read from p2 when the player is
      on side 1. */
  function Opponent(player: Name, m: Match): Slot
  {
    if m.p1 == Player(player) then m.p2 else m.p1
  }

  /** StatsView.tsx:39-51: the match enters the player's table. */
  predicate CountsAgainst(player: Name, f: Aggregation.Filter, m: Match)
  {
    Considered(m) && Aggregation.Passes(f, m) && Involves(player, m) && Opponent(player, m).Player?
  }

  function MyScore(player: Name, m: Match): nat
  {
    if m.p1 == Player(player) then Score(m.s1) else Score(m.s2)
  }

  function TheirScore(player: Name, m: Match): nat
  {
    if m.p1 == Player(player) then Score(m.s2) else Score(m.s1)
  }

  /** StatsView.tsx:65-83: the result from the player's side; penalties
      count only in a tournament match with both present. */
  function Result(player: Name, m: Match): (r: Side)
    ensures MyScore(player, m) != TheirScore(player, m) ==>
      && (r == First <==> MyScore(player, m) > TheirScore(player, m))
      && (r == Second <==> TheirScore(player, m) > MyScore(player, m))
    ensures PhaseOf(m) == League ==>
      && (r == Level <==> MyScore(player, m) == TheirScore(player, m))
      && (r == First <==> MyScore(player, m) > TheirScore(player, m))
    ensures var mine := if m.p1 == Player(player) then m.pk1 else m.pk2;
      var theirs := if m.p1 == Player(player) then m.pk2 else m.pk1;
      PhaseOf(m) == Tournament && MyScore(player, m) == TheirScore(player, m) ==>
        && (r == First <==> mine.Some? && theirs.Some? && mine.value > theirs.value)
        && (r == Second <==> mine.Some? && theirs.Some? && theirs.value > mine.value)
  {
    var mine := if m.p1 == Player(player) then m.pk1 else m.pk2;
    var theirs := if m.p1 == Player(player) then m.pk2 else m.pk1;
    if PhaseOf(m) == Tournament
    then Decide(MyScore(player, m), TheirScore(player, m), mine, theirs)
    else Decide(MyScore(player, m), TheirScore(player, m), None, None)
  }

  function BlankRow(n: Name): Row
  {
    Row(n, 0, 0, 0, 0, 0, 0)
  }

  function Tally(r: Row, mine: nat, theirs: nat, d: Side): (r': Row)
    ensures WellFormed(r) ==> WellFormed(r')
    ensures r'.name == r.name && r'.played == r.played + 1
    ensures r'.gf == r.gf + mine && r'.ga == r.ga + theirs
    ensures r'.wins == r.wins + (if d == First then 1 else 0)
    ensures r'.draws == r.draws + (if d == Level then 1 else 0)
    ensures r'.losses == r.losses + (if d == Second then 1 else 0)
  {
    r.(played := r.played + 1,
       gf := r.gf + mine,
       ga := r.ga + theirs,
       wins := r.wins + (if d == First then 1 else 0),
       draws := r.draws + (if d == Level then 1 else 0),
       losses := r.losses + (if d == Second then 1 else 0))
  }

  /** The row an opponent has before a match: the existing one, or a blank one. */
  function PriorRow(t: Table, n: Name): Row
  {
    if n in t.rows then t.rows[n] else BlankRow(n)
  }

  /** One match folded into the table (StatsView.tsx:38-83). */
  function Step(t: Table, player: Name, f: Aggregation.Filter, m: Match): (r: Table)
    ensures Valid(t) ==> Valid(r)
    ensures forall n :: n in r.rows <==> n in t.rows || (CountsAgainst(player, f, m) && Opponent(player, m) == Player(n))
    ensures !CountsAgainst(player, f, m) ==> r == t
    ensures CountsAgainst(player, f, m) ==>
      var n := Opponent(player, m).name;
      && (forall q :: q in t.rows && q != n ==> r.rows[q] == t.rows[q])
      && r.rows[n] == Tally(PriorRow(t, n), MyScore(player, m), TheirScore(player, m), Result(player, m))
  {
    if !CountsAgainst(player, f, m) then t
    else
      var n := Opponent(player, m).name;
      var t1 := if n in t.rows then t else Table(t.order + [n], t.rows[n := BlankRow(n)]);
      Table(t1.order, t1.rows[n := Tally(t1.rows[n], MyScore(player, m), TheirScore(player, m), Result(player, m))])
  }

  function Fold(t: Table, player: Name, ms: seq<Match>, f: Aggregation.Filter): (r: Table)
    ensures Valid(t) ==> Valid(r)
  {
    if ms == [] then t
    else Step(Fold(t, player, ms[..|ms| - 1], f), player, f, ms[|ms| - 1])
  }

  /** A counted ladder match level on score and settled on penalties is a
      win against that opponent when the player's penalties are higher and
      a loss when they are lower, never a draw (StatsView.tsx:65-83). */
  lemma ShootoutRow(t: Table, player: Name, f: Aggregation.Filter, m: Match)
    requires Valid(t) && CountsAgainst(player, f, m)
    requires PhaseOf(m) == Tournament && m.Scored() && m.s1.value == m.s2.value
    requires m.pk1.Some? && m.pk2.Some? && m.pk1.value != m.pk2.value
    ensures var n := Opponent(player, m).name;
      var mine := if m.p1 == Player(player) then m.pk1.value else m.pk2.value;
      var theirs := if m.p1 == Player(player) then m.pk2.value else m.pk1.value;
      var row := Step(t, player, f, m).rows[n];
      && row.wins == PriorRow(t, n).wins + (if mine > theirs then 1 else 0)
      && row.losses == PriorRow(t, n).losses + (if mine < theirs then 1 else 0)
      && row.draws == PriorRow(t, n).draws
  {
  }

  /** StatsView.tsx:88: most played first. */
  function ByPlayed(): (Row, Row) -> int
  {
    (a: Row, b: Row) => b.played - a.played
  }

  function Played(r: Row): int { r.played }
  function NoTieBreak(r: Row): int { 0 }

  /** h2hStats as a value. */
  function HeadToHeadOf(player: Name, ms: seq<Match>, f: Aggregation.Filter): seq<Row>
  {
    var t := Fold(Table([], map[]), player, ms, f);
    Sorting.InsertionSort(Values(t.rows, t.order), ByPlayed())
  }

  lemma FoldStep(player: Name, ms: seq<Match>, f: Aggregation.Filter, i: nat)
    requires i < |ms|
    ensures Fold(Table([], map[]), player, ms[..i + 1], f) ==
      Step(Fold(Table([], map[]), player, ms[..i], f), player, f, ms[i])
  {
    assert ms[..i + 1][..i] == ms[..i];
  }

  /** h2hStats (StatsView.tsx:35-89): a loop over the matches that updates
      one row per opponent in place, then the sort by games played. */
  method HeadToHead(player: Name, ms: seq<Match>, f: Aggregation.Filter) returns (r: seq<Row>)
    ensures r == HeadToHeadOf(player, ms, f)
  {
    var order: seq<Name> := [];
    var rows: map<Name, Row> := map[];
    for i := 0 to |ms|
      invariant Table(order, rows) == Fold(Table([], map[]), player, ms[..i], f)
    {
      FoldStep(player, ms, f, i);
      var m := ms[i];
      if !m.completed && (m.s1.None? || m.s2.None?) { continue; }
      if !Aggregation.Passes(f, m) { continue; }
      if m.p1 != Player(player) && m.p2 != Player(player) { continue; }
      var isP1 := m.p1 == Player(player);
      var opponent := if isP1 then m.p2 else m.p1;
      if opponent == Tbd || opponent == Unset { continue; }
      var n := opponent.name;
      if n !in rows {
        order := order + [n];
        rows := rows[n := BlankRow(n)];
      }
      rows := rows[n := Tally(rows[n], MyScore(player, m), TheirScore(player, m), Result(player, m))];
    }
    assert ms[..|ms|] == ms;
    ghost var empty := Table([], map[]);
    assert Valid(empty);
    assert Valid(Table(order, rows));
    r := Sorting.InsertionSort(Values(rows, order), ByPlayed());
  }

  // What the head-to-head table promises.

  /** The player met n in a match that counts. */
  predicate Faced(player: Name, ms: seq<Match>, f: Aggregation.Filter, n: Name)
  {
    exists i :: 0 <= i < |ms| && CountsAgainst(player, f, ms[i]) && Opponent(player, ms[i]) == Player(n)
  }

  predicate HasRow(r: seq<Row>, n: Name)
  {
    exists i :: 0 <= i < |r| && r[i].name == n
  }

  /** Faced over a longer list: the shorter list's opponents plus the last
      match's. */
  lemma FacedSplit(player: Name, ms: seq<Match>, f: Aggregation.Filter, n: Name)
    requires ms != []
    ensures var init, last := ms[..|ms| - 1], ms[|ms| - 1];
      Faced(player, ms, f, n) <==>
        Faced(player, init, f, n) || (CountsAgainst(player, f, last) && Opponent(player, last) == Player(n))
  {
    var init := ms[..|ms| - 1];
    if Faced(player, ms, f, n) {
      var i :| 0 <= i < |ms| && CountsAgainst(player, f, ms[i]) && Opponent(player, ms[i]) == Player(n);
      if i < |init| {
        assert init[i] == ms[i];
      }
    }
    if Faced(player, init, f, n) {
      var i :| 0 <= i < |init| && CountsAgainst(player, f, init[i]) && Opponent(player, init[i]) == Player(n);
      assert ms[i] == init[i];
    }
  }

  lemma {:induction false} FoldHas(player: Name, ms: seq<Match>, f: Aggregation.Filter, n: Name)
    ensures n in Fold(Table([], map[]), player, ms, f).rows <==> Faced(player, ms, f, n)
  {
    if ms != [] {
      FoldHas(player, ms[..|ms| - 1], f, n);
      FacedSplit(player, ms, f, n);
    }
  }

  lemma SortedRows(t: Table, sorted: seq<Row>)
    requires Valid(t)
    requires multiset(sorted) == multiset(Values(t.rows, t.order))
    ensures forall i :: 0 <= i < |sorted| ==> sorted[i].name in t.rows && sorted[i] == t.rows[sorted[i].name]
    ensures forall n :: n in t.rows <==> HasRow(sorted, n)
  {
    var v := Values(t.rows, t.order);
    forall i | 0 <= i < |sorted| ensures sorted[i].name in t.rows && sorted[i] == t.rows[sorted[i].name] {
      assert sorted[i] in multiset(v);
    }
    forall n | n in t.rows ensures HasRow(sorted, n) {
      var k :| 0 <= k < |t.order| && t.order[k] == n;
      assert v[k] in multiset(sorted);
    }
  }

  /** There is one row for each opponent the player met in a counted match,
      never one for '' or 'TBD', and each row has
      played = wins + draws + losses (StatsView.tsx:39-83). */
  lemma HeadToHeadRows(player: Name, ms: seq<Match>, f: Aggregation.Filter)
    ensures var r := HeadToHeadOf(player, ms, f);
      && (forall n :: HasRow(r, n) <==> Faced(player, ms, f, n))
      && (forall i :: 0 <= i < |r| ==> WellFormed(r[i]))
  {
    var t := Fold(Table([], map[]), player, ms, f);
    var sorted := Sorting.InsertionSort(Values(t.rows, t.order), ByPlayed());
    forall n ensures n in t.rows <==> Faced(player, ms, f, n) {
      FoldHas(player, ms, f, n);
    }
    SortedRows(t, sorted);
  }

  /** The rows are in non-increasing order of games played (StatsView.tsx:88). */
  lemma HeadToHeadOrder(player: Name, ms: seq<Match>, f: Aggregation.Filter)
    ensures var r := HeadToHeadOf(player, ms, f);
      forall i, j :: 0 <= i < j < |r| ==> r[i].played >= r[j].played
  {
    var t := Fold(Table([], map[]), player, ms, f);
    var v := Values(t.rows, t.order);
    assert Sorting.Antisymmetric(ByPlayed());
    assert Sorting.Respects(ByPlayed(), Played, NoTieBreak);
    Sorting.SortRanked(v, ByPlayed(), Played, NoTieBreak);
    var r := Sorting.InsertionSort(v, ByPlayed());
    forall i, j | 0 <= i < j < |r| ensures r[i].played >= r[j].played {
      assert !Sorting.Above(r[j], r[i], Played, NoTieBreak);
    }
  }

  /** How many matches count for the player. */
  function Counted(player: Name, ms: seq<Match>, f: Aggregation.Filter): nat
  {
    if ms == [] then 0
    else Counted(player, ms[..|ms| - 1], f) + (if CountsAgainst(player, f, ms[|ms| - 1]) then 1 else 0)
  }

  lemma StepTotal(t: Table, player: Name, f: Aggregation.Filter, m: Match)
    requires Valid(t)
    ensures Sum(Values(Step(t, player, f, m).rows, Step(t, player, f, m).order), Played)
      == Sum(Values(t.rows, t.order), Played) + (if CountsAgainst(player, f, m) then 1 else 0)
  {
    if CountsAgainst(player, f, m) {
      var n := Opponent(player, m).name;
      var t1 := if n in t.rows then t else Table(t.order + [n], t.rows[n := BlankRow(n)]);
      if n !in t.rows {
        SumValuesAdd(t.rows, t.order, n, BlankRow(n), Played);
      }
      var row := Tally(t1.rows[n], MyScore(player, m), TheirScore(player, m), Result(player, m));
      SumValuesUpdate(t1.rows, t1.order, n, row, Played);
    }
  }

  lemma {:induction false} FoldTotal(player: Name, ms: seq<Match>, f: Aggregation.Filter)
    ensures var t := Fold(Table([], map[]), player, ms, f);
      Sum(Values(t.rows, t.order), Played) == Counted(player, ms, f)
  {
    if ms != [] {
      FoldTotal(player, ms[..|ms| - 1], f);
      StepTotal(Fold(Table([], map[]), player, ms[..|ms| - 1], f), player, f, ms[|ms| - 1]);
    }
  }

  /** The games played summed over the rows is the number of matches that
      count for the player: each counted match lands in exactly one row. */
  lemma HeadToHeadTotal(player: Name, ms: seq<Match>, f: Aggregation.Filter)
    ensures Sum(HeadToHeadOf(player, ms, f), Played) == Counted(player, ms, f)
  {
    var t := Fold(Table([], map[]), player, ms, f);
    FoldTotal(player, ms, f);
    Sorting.SumSort(Values(t.rows, t.order), ByPlayed(), Played);
  }

  // ---------------------------------------------------------------------
  // The lifetime table's sort
  // ---------------------------------------------------------------------

  datatype SortKey = ByName | ByMatches | ByWins | ByDraws | ByLosses | ByGf | ByGa | ByWinRate | ByPoints

  datatype Direction = Asc | Desc

  datatype SortConfig = SortConfig(key: SortKey, direction: Direction)

  /** The table opens sorted by points, descending (StatsView.tsx:255). */
  const InitialSort := SortConfig(ByPoints, Desc)

  /** The keys compared as integers. */
  predicate Numeric(k: SortKey)
  {
    k != ByName && k != ByWinRate
  }

  /** StatsView.tsx:275-289: the field a numeric key reads. */
  function Field(k: SortKey, r: AggregatedStats): int
    requires Numeric(k)
  {
    match k
    case ByMatches => r.matches
    case ByWins => r.wins
    case ByDraws => r.draws
    case ByLosses => r.losses
    case ByGf => r.gf
    case ByGa => r.ga
    case _ => r.points
  }

  /** StatsView.tsx:291-293: a - b ascending, b - a descending. */
  function Order(c: SortConfig): (AggregatedStats, AggregatedStats) -> int
    requires Numeric(c.key)
  {
    (a: AggregatedStats, b: AggregatedStats) =>
      if c.direction == Asc then Field(c.key, a) - Field(c.key, b) else Field(c.key, b) - Field(c.key, a)
  }

  /** sortedStats (StatsView.tsx:269-297) for a numeric key: a rearrangement
      of the records, non-increasing in the key when descending and
      non-decreasing when ascending. */
  function SortedStats(raw: seq<AggregatedStats>, c: SortConfig): (r: seq<AggregatedStats>)
    requires Numeric(c.key)
    ensures multiset(r) == multiset(raw)
    ensures c.direction == Desc ==>
      forall i, j :: 0 <= i < j < |r| ==> Field(c.key, r[i]) >= Field(c.key, r[j])
    ensures c.direction == Asc ==>
      forall i, j :: 0 <= i < j < |r| ==> Field(c.key, r[i]) <= Field(c.key, r[j])
  {
    var cmp := Order(c);
    var up := (a: AggregatedStats) => if c.direction == Asc then -Field(c.key, a) else Field(c.key, a);
    var none := (a: AggregatedStats) => 0;
    assert Sorting.Antisymmetric(cmp);
    assert Sorting.Respects(cmp, up, none);
    Sorting.SortRanked(raw, cmp, up, none);
    var r := Sorting.InsertionSort(raw, cmp);
    assert forall i, j :: 0 <= i < j < |r| ==> !Sorting.Above(r[j], r[i], up, none);
    r
  }

  /** handleSort (StatsView.tsx:299-304). */
  function HandleSort(current: SortConfig, key: SortKey): (r: SortConfig)
    ensures r.key == key
    ensures r.direction == Asc <==> current.key == key && current.direction == Desc
  {
    SortConfig(key, if current.key == key && current.direction == Desc then Asc else Desc)
  }

  /** Choosing a new column sorts it descending; choosing the same column
      again flips between descending and ascending. */
  lemma HandleSortAlternates(current: SortConfig, key: SortKey)
    ensures current.key != key ==> HandleSort(current, key) == SortConfig(key, Desc)
    ensures HandleSort(HandleSort(current, key), key).direction != HandleSort(current, key).direction
  {
  }
}
