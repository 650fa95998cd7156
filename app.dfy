/** The state and handlers of App.tsx: the league fixtures, the three-match
    stepladder knockout (semifinal rank 3 vs rank 4, prefinal against rank 2,
    final against rank 1), the champion, the league-finished flag and the
    archive of saved events. */
module App {
  import opened Types
  import Standings
  import TournamentView

  // ---------------------------------------------------------------------
  // Score input
  // ---------------------------------------------------------------------

  predicate AllDigits(s: string)
  {
    forall i :: 0 <= i < |s| ==> '0' <= s[i] <= '9'
  }

  function DigitValue(c: char): nat
    requires '0' <= c <= '9'
  {
    c as int - '0' as int
  }

  /** The decimal value of a digit string, read left to right. */
  function DigitsValue(s: string): nat
    requires AllDigits(s)
  {
    if s == [] then 0 else DigitsValue(s[..|s| - 1]) * 10 + DigitValue(s[|s| - 1])
  }

  /** parseScore (App.tsx:52-56, 80-84): the empty input and input that is
      not a number give no score; a digit string gives its value. */
  function ParseScore(s: string): (r: Option<nat>)
    ensures s == "" ==> r == None
    ensures r.Some? <==> s != "" && AllDigits(s)
  {
    if s != "" && AllDigits(s) then Some(DigitsValue(s)) else None
  }

  function Digit(d: nat): (c: char)
    requires d < 10
    ensures '0' <= c <= '9' && DigitValue(c) == d
  {
    ('0' as int + d) as char
  }

  /** The decimal text of a number, as String(n) writes it. */
  function ShowNat(n: nat): (s: string)
    ensures s != "" && AllDigits(s)
  {
    if n < 10 then [Digit(n)] else ShowNat(n / 10) + [Digit(n % 10)]
  }

  /** The text a score input shows for a stored score: String(s ?? ''). */
  function ShowScore(o: Option<nat>): string
  {
    if o.None? then "" else ShowNat(o.value)
  }

  lemma {:induction false} ShowNatValue(n: nat)
    ensures DigitsValue(ShowNat(n)) == n
  {
    if n >= 10 {
      ShowNatValue(n / 10);
      var s := ShowNat(n);
      assert s[..|s| - 1] == ShowNat(n / 10);
    }
  }

  /** Reading back what a score input shows gives the stored score, so
      re-entering one side of a result never disturbs the other. */
  lemma ParseShowRoundTrip(o: Option<nat>)
    ensures ParseScore(ShowScore(o)) == o
  {
    if o.Some? {
      ShowNatValue(o.value);
    }
  }

  // ---------------------------------------------------------------------
  // Deciding a ladder match
  // ---------------------------------------------------------------------

  datatype Position = P1 | P2

  /** Why a confirmation is refused (the alerts of App.tsx:105-126). */
  datatype Rejection = UnknownMatch | ScoresRequired | PenaltiesRequired | PenaltiesTied | NoWinner

  datatype ConfirmResult = Confirmed(winner: Slot) | Rejected(reason: Rejection)

  datatype FinishResult = Crowned(champion: Slot) | WinnerUndetermined | FinalUnplayed

  /** Both scores are in and the shared outcome rule names a side. */
  predicate Settled(m: Match)
  {
    m.Scored() && Decide(m.s1.value, m.s2.value, m.pk1, m.pk2) != Level
  }

  function Winner(m: Match): Slot
    requires Settled(m)
  {
    if Decide(m.s1.value, m.s2.value, m.pk1, m.pk2) == First then m.p1 else m.p2
  }

  /** The checks and the winner of handleConfirmMatch (App.tsx:105-128). */
  function Verdict(m: Match): (r: ConfirmResult)
    ensures r == Rejected(ScoresRequired) <==> !m.Scored()
    ensures r == Rejected(PenaltiesRequired) <==>
      m.Scored() && m.s1.value == m.s2.value && (m.pk1.None? || m.pk2.None?)
    ensures r == Rejected(PenaltiesTied) <==>
      m.Scored() && m.s1.value == m.s2.value && m.pk1.Some? && m.pk2.Some? && m.pk1.value == m.pk2.value
    ensures r == Rejected(NoWinner) <==> Settled(m) && Winner(m) == Unset
    ensures r.Confirmed? <==> Settled(m) && Winner(m) != Unset
    ensures r.Confirmed? ==> r.winner == Winner(m)
    ensures r != Rejected(UnknownMatch)
  {
    if m.s1.None? || m.s2.None? then Rejected(ScoresRequired)
    else if m.s1.value == m.s2.value && (m.pk1.None? || m.pk2.None?) then Rejected(PenaltiesRequired)
    else if m.s1.value == m.s2.value && m.pk1.value == m.pk2.value then Rejected(PenaltiesTied)
    else
      var w :=
        if m.s1.value > m.s2.value then m.p1
        else if m.s2.value > m.s1.value then m.p2
        else if m.pk1.value > m.pk2.value then m.p1
        else m.p2;
      if w == Unset then Rejected(NoWinner) else Confirmed(w)
  }

  /** The winner rule of handleTournamentFinish (App.tsx:194-211). */
  function FinishVerdict(m: Match): (r: FinishResult)
    ensures r == FinalUnplayed <==> !m.Scored()
    ensures r.Crowned? <==> Settled(m) && Winner(m) != Unset
    ensures r.Crowned? ==> r.champion == Winner(m)
  {
    if m.s1.None? || m.s2.None? then FinalUnplayed
    else
      var w :=
        if m.s1.value > m.s2.value then m.p1
        else if m.s2.value > m.s1.value then m.p2
        else if m.pk1.Some? && m.pk2.Some? && m.pk1.value > m.pk2.value then m.p1
        else if m.pk1.Some? && m.pk2.Some? && m.pk2.value > m.pk1.value then m.p2
        else Unset;
      if w == Unset then WinnerUndetermined else Crowned(w)
  }

  /** Confirming a match and finishing with it as the final agree: on the
      same result both name the same player, and one refuses exactly when
      the other does. */
  lemma ConfirmAndFinishAgree(m: Match)
    requires m.Scored()
    ensures Verdict(m).Confirmed? <==> FinishVerdict(m).Crowned?
    ensures Verdict(m).Confirmed? ==> Verdict(m).winner == FinishVerdict(m).champion
  {
  }

  /** A match the view offers to confirm has two known participants, so
      when neither is an empty slot a confirmed winner is a real player. */
  lemma OfferedConfirmCrownsPlayer(m: Match, champion: Option<Slot>)
    requires TournamentView.OffersConfirm(m, champion)
    requires m.p1 != Unset && m.p2 != Unset
    ensures Verdict(m).Confirmed? ==> Verdict(m).winner.Player?
  {
  }

  /** Confirmation itself does not refuse a placeholder: a decided match
      whose winning side is TBD is confirmed with the winner TBD, for
      instance a TBD vs TBD prefinal scored 1-0. Only the view's readiness
      check (TournamentView.tsx:37, 130) keeps such a match away. */
  lemma ConfirmAcceptsPlaceholder(m: Match)
    ensures Settled(m) && Winner(m) == Tbd ==> Verdict(m) == Confirmed(Tbd)
    ensures var t := Match("T2", Tbd, Tbd, Some(1), Some(0), None, None, false, Ladder(Prefinal));
      Settled(t) && Winner(t) == Tbd
  {
  }

  // ---------------------------------------------------------------------
  // Seeding from the league table
  // ---------------------------------------------------------------------

  /** standings.find(s => s.rank === k)?.name || 'TBD' */
  function Seed(standings: seq<Standing>, rank: int): (p: Slot)
    ensures p != Unset
  {
    if standings == [] then Tbd
    else if standings[0].rank == rank then Player(standings[0].name)
    else Seed(standings[1..], rank)
  }

  lemma {:induction false} SeedPositional(s: seq<Standing>, base: int, k: int)
    requires forall i :: 0 <= i < |s| ==> s[i].rank == i + base
    ensures Seed(s, k) == if base <= k < base + |s| then Player(s[k - base].name) else Tbd
  {
    if s != [] && s[0].rank != k {
      SeedPositional(s[1..], base + 1, k);
    }
  }

  /** The player seeded at league rank k is the k-th entry of the table, and
      TBD when the roster has fewer than k players. */
  lemma SeedRank(roster: seq<Name>, league: seq<Match>, k: int)
    ensures var st := Standings.StandingsOf(roster, league);
      Seed(st, k) == if 1 <= k <= |st| then Player(st[k - 1].name) else Tbd
  {
    Standings.StandingsOnePerPlayer(roster, league);
    SeedPositional(Standings.StandingsOf(roster, league), 1, k);
  }

  // ---------------------------------------------------------------------
  // Fixture lists
  // ---------------------------------------------------------------------

  function LadderMatch(id: string, stage: Stage, p1: Slot, p2: Slot): Match
  {
    Match(id, p1, p2, None, None, None, None, false, Ladder(stage))
  }

  /** The ladder as initialised (App.tsx:19-23, 173-177, 255-259, 280-284):
      the semifinal between the given slots, the later stages awaiting. */
  function FreshLadder(p1: Slot, p2: Slot): seq<Match>
  {
    [ LadderMatch("T1", Semifinal, p1, p2),
      LadderMatch("T2", Prefinal, Tbd, Tbd),
      LadderMatch("T3", Final, Tbd, Tbd) ]
  }

  /** The three stages in order, each confirmed match with a decided
      winner. */
  ghost predicate Staged(s: seq<Match>)
  {
    && |s| == 3
    && s[0].id == "T1" && s[0].kind == Ladder(Semifinal)
    && s[1].id == "T2" && s[1].kind == Ladder(Prefinal)
    && s[2].id == "T3" && s[2].kind == Ladder(Final)
    && forall i :: 0 <= i < 3 ==> s[i].completed ==> Settled(s[i])
  }

  /** Every participant is a player or TBD. */
  ghost predicate Placed(s: seq<Match>)
  {
    forall i :: 0 <= i < |s| ==> s[i].p1 != Unset && s[i].p2 != Unset
  }

  lemma FreshLadderStaged(p1: Slot, p2: Slot)
    ensures Staged(FreshLadder(p1, p2))
    ensures p1 != Unset && p2 != Unset ==> Placed(FreshLadder(p1, p2))
  {
  }

  /** On a staged ladder the view's stage lookup finds the ladder's own
      entries. */
  lemma StagesFound(s: seq<Match>)
    requires Staged(s)
    ensures TournamentView.FindStage(s, Semifinal) == Some(s[0])
    ensures TournamentView.FindStage(s, Prefinal) == Some(s[1])
    ensures TournamentView.FindStage(s, Final) == Some(s[2])
  {
    assert s[1..][1..] == [s[2]];
  }

  /** Whenever the view offers the finish action on a staged ladder with no
      empty slot, finishing crowns the final's winner. */
  lemma FinishOfferedCrowns(s: seq<Match>, champion: Option<Slot>)
    requires Staged(s) && Placed(s)
    requires TournamentView.CanFinish(s, champion)
    ensures FinishVerdict(s[2]) == Crowned(Winner(s[2]))
  {
    StagesFound(s);
  }

  /** prev.map(m => m.id === id ? f(m) : m) */
  function Where(ms: seq<Match>, id: string, f: Match -> Match): (r: seq<Match>)
    ensures |r| == |ms|
    ensures forall i :: 0 <= i < |ms| ==> r[i] == if ms[i].id == id then f(ms[i]) else ms[i]
  {
    seq(|ms|, i requires 0 <= i < |ms| => if ms[i].id == id then f(ms[i]) else ms[i])
  }

  /** prev.findIndex(m => m.id === id) */
  function SlotIndex(ms: seq<Match>, id: string): (r: Option<nat>)
    ensures r.Some? ==> r.value < |ms| && ms[r.value].id == id
    ensures r.Some? ==> forall j :: 0 <= j < r.value ==> ms[j].id != id
    ensures r.None? ==> forall j :: 0 <= j < |ms| ==> ms[j].id != id
  {
    if ms == [] then None
    else if ms[0].id == id then Some(0)
    else
      var r := SlotIndex(ms[1..], id);
      if r.None? then None else Some(r.value + 1)
  }

  // ---------------------------------------------------------------------
  // The application state
  // ---------------------------------------------------------------------

  class Event {
    const roster: seq<Name>
    var league: seq<Match>
    const ladder: array<Match>
    var champion: Option<Slot>
    var leagueFinished: bool
    var history: seq<TournamentData>

    /** The ladder keeps its three stages in order, and a confirmed ladder
        match always has a decided winner. */
    ghost predicate Valid()
      reads this, ladder
    {
      Staged(ladder[..])
    }

    /** No ladder slot is ever empty: it holds a player or TBD. */
    ghost predicate NoUnset()
      reads this, ladder
    {
      Placed(ladder[..])
    }

    /** App.tsx:14-36: the empty fixtures, no champion, the league open,
        and the archive as loaded. */
    constructor (roster: seq<Name>, history: seq<TournamentData>)
      ensures Valid() && NoUnset() && fresh(ladder)
      ensures this.roster == roster && this.history == history
      ensures league == Standings.InitialLeagueMatches()
      ensures ladder[..] == FreshLadder(Tbd, Tbd)
      ensures champion == None && !leagueFinished
    {
      this.roster := roster;
      this.history := history;
      league := Standings.InitialLeagueMatches();
      var slots := FreshLadder(Tbd, Tbd);
      var a := new Match[3] [slots[0], slots[1], slots[2]];
      assert a[..] == slots;
      FreshLadderStaged(Tbd, Tbd);
      ladder := a;
      champion := None;
      leagueFinished := false;
    }

    /** Apply f to the ladder matches sel picks, in a pass over the array. */
    method MapLadder(sel: Match -> bool, f: Match -> Match)
      modifies ladder
      ensures forall i :: 0 <= i < ladder.Length ==>
        ladder[i] == if sel(old(ladder[i])) then f(old(ladder[i])) else old(ladder[i])
    {
      for i := 0 to ladder.Length
        invariant forall j :: 0 <= j < i ==>
          ladder[j] == if sel(old(ladder[j])) then f(old(ladder[j])) else old(ladder[j])
        invariant forall j :: i <= j < ladder.Length ==> ladder[j] == old(ladder[j])
      {
        if sel(ladder[i]) {
          ladder[i] := f(ladder[i]);
        }
      }
    }

    /** handlePlayerUpdate (App.tsx:41-48): set one side of a league match. */
    method UpdatePlayer(id: string, position: Position, value: Slot)
      modifies this`league
      ensures league == Where(old(league), id,
        (m: Match) => if position == P1 then m.(p1 := value) else m.(p2 := value))
    {
      league := Where(league, id,
        (m: Match) => if position == P1 then m.(p1 := value) else m.(p2 := value));
    }

    /** handleScoreUpdate (App.tsx:51-77): a league match is complete exactly
        when both scores parse; a ladder match is unconfirmed by any edit. */
    method UpdateScore(id: string, s1Text: string, s2Text: string, phase: Phase)
      requires Valid()
      modifies this`league, ladder
      ensures Valid() && (old(NoUnset()) ==> NoUnset())
      ensures phase == League ==> ladder[..] == old(ladder[..])
      ensures phase == League ==>
        league == Where(old(league), id, (m: Match) =>
          m.(s1 := ParseScore(s1Text), s2 := ParseScore(s2Text),
             completed := ParseScore(s1Text).Some? && ParseScore(s2Text).Some?))
      ensures phase == Tournament ==> league == old(league)
      ensures phase == Tournament ==> forall i :: 0 <= i < 3 ==>
        ladder[i] == (if old(ladder[i]).id == id
                      then old(ladder[i]).(s1 := ParseScore(s1Text), s2 := ParseScore(s2Text), completed := false)
                      else old(ladder[i]))
    {
      var s1 := ParseScore(s1Text);
      var s2 := ParseScore(s2Text);
      if phase == League {
        league := Where(league, id, (m: Match) => m.(s1 := s1, s2 := s2, completed := s1.Some? && s2.Some?));
      } else {
        MapLadder((m: Match) => m.id == id, (m: Match) => m.(s1 := s1, s2 := s2, completed := false));
      }
    }

    /** handlePkUpdate (App.tsx:79-95): set both penalty scores of a ladder
        match and unconfirm it. */
    method UpdatePenalties(id: string, pk1Text: string, pk2Text: string)
      requires Valid()
      modifies ladder
      ensures Valid() && (old(NoUnset()) ==> NoUnset())
      ensures forall i :: 0 <= i < 3 ==>
        ladder[i] == (if old(ladder[i]).id == id
                      then old(ladder[i]).(pk1 := ParseScore(pk1Text), pk2 := ParseScore(pk2Text), completed := false)
                      else old(ladder[i]))
    {
      var pk1 := ParseScore(pk1Text);
      var pk2 := ParseScore(pk2Text);
      MapLadder((m: Match) => m.id == id, (m: Match) => m.(pk1 := pk1, pk2 := pk2, completed := false));
    }

    /** handleConfirmMatch (App.tsx:98-156): lock a decided ladder match and
        seed the next stage with its winner and the league player waiting
        there, clearing what follows. */
    method ConfirmMatch(id: string) returns (result: ConfirmResult)
      requires Valid()
      modifies ladder
      ensures Valid() && (old(NoUnset()) ==> NoUnset())
      ensures var k := SlotIndex(old(ladder[..]), id);
        && (k.None? ==> result == Rejected(UnknownMatch))
        && (k.Some? ==> result == Verdict(old(ladder[k.value])))
      ensures result.Rejected? ==> ladder[..] == old(ladder[..])
      ensures result.Confirmed? ==>
        var st := Standings.StandingsOf(roster, league);
        var w := result.winner;
        && (id == "T1" ==>
             && ladder[0] == old(ladder[0]).(completed := true)
             && ladder[1] == old(ladder[1]).(p1 := w, p2 := Seed(st, 2), s1 := None, s2 := None,
                                            pk1 := None, pk2 := None, completed := false)
             && ladder[2] == old(ladder[2]).(p1 := Tbd, p2 := Tbd, s1 := None, s2 := None, completed := false))
        && (id == "T2" ==>
             && ladder[0] == old(ladder[0])
             && ladder[1] == old(ladder[1]).(completed := true)
             && ladder[2] == old(ladder[2]).(p1 := w, p2 := Seed(st, 1), s1 := None, s2 := None,
                                            pk1 := None, pk2 := None, completed := false))
        && (id == "T3" ==>
             ladder[..] == old(ladder[..])[2 := old(ladder[2]).(completed := true)])
    {
      var k := 0;
      while k < ladder.Length && ladder[k].id != id
        invariant 0 <= k <= ladder.Length
        invariant forall j :: 0 <= j < k ==> ladder[j].id != id
      {
        k := k + 1;
      }
      assert SlotIndex(ladder[..], id) == if k == ladder.Length then None else Some(k);
      if k == ladder.Length {
        return Rejected(UnknownMatch);
      }
      var m := ladder[k];
      result := Verdict(m);
      if result.Rejected? {
        return;
      }
      var standings := Standings.CalculateStandings(roster, league);
      Advance(k, result.winner, standings);
    }

    /** The winner of ladder match k moves on (App.tsx:130-153): the match is
        locked, and the next stage gets the winner against the league player
        seeded there, with what follows cleared. */
    method Advance(k: nat, w: Slot, standings: seq<Standing>)
      requires Valid() && k < 3 && Settled(ladder[k]) && w != Unset
      modifies ladder
      ensures Valid() && (old(NoUnset()) ==> NoUnset())
      ensures k == 0 ==>
        && ladder[0] == old(ladder[0]).(completed := true)
        && ladder[1] == old(ladder[1]).(p1 := w, p2 := Seed(standings, 2), s1 := None, s2 := None,
                                       pk1 := None, pk2 := None, completed := false)
        && ladder[2] == old(ladder[2]).(p1 := Tbd, p2 := Tbd, s1 := None, s2 := None, completed := false)
      ensures k == 1 ==>
        && ladder[0] == old(ladder[0])
        && ladder[1] == old(ladder[1]).(completed := true)
        && ladder[2] == old(ladder[2]).(p1 := w, p2 := Seed(standings, 1), s1 := None, s2 := None,
                                       pk1 := None, pk2 := None, completed := false)
      ensures k == 2 ==> ladder[..] == old(ladder[..])[2 := old(ladder[2]).(completed := true)]
    {
      var m := ladder[k];
      ladder[k] := m.(completed := true);
      if m.kind == Ladder(Semifinal) {
        ladder[1] := ladder[1].(p1 := w, p2 := Seed(standings, 2), s1 := None, s2 := None,
                                pk1 := None, pk2 := None, completed := false);
        ladder[2] := ladder[2].(p1 := Tbd, p2 := Tbd, s1 := None, s2 := None, completed := false);
      } else if m.kind == Ladder(Prefinal) {
        ladder[2] := ladder[2].(p1 := w, p2 := Seed(standings, 1), s1 := None, s2 := None,
                                pk1 := None, pk2 := None, completed := false);
      }
    }

    /** handleResetMatch (App.tsx:159-166): unlock one ladder match. */
    method ResetMatch(id: string)
      requires Valid()
      modifies ladder
      ensures Valid() && (old(NoUnset()) ==> NoUnset())
      ensures forall i :: 0 <= i < 3 ==>
        ladder[i] == (if old(ladder[i]).id == id then old(ladder[i]).(completed := false) else old(ladder[i]))
    {
      MapLadder((m: Match) => m.id == id, (m: Match) => m.(completed := false));
    }

    /** handleFinalizeLeague (App.tsx:169-184): close the league and start
        the ladder afresh with league ranks 3 and 4 in the semifinal. */
    method FinalizeLeague()
      requires Valid()
      modifies this`champion, this`leagueFinished, ladder
      ensures Valid() && NoUnset()
      ensures var st := Standings.StandingsOf(roster, league);
        ladder[..] == FreshLadder(Seed(st, 3), Seed(st, 4))
      ensures champion == None && leagueFinished
    {
      var standings := Standings.CalculateStandings(roster, league);
      Seat(Seed(standings, 3), Seed(standings, 4));
      champion := None;
      leagueFinished := true;
    }

    /** The fresh ladder with the semifinal between p1 and p2. */
    method Seat(p1: Slot, p2: Slot)
      requires Valid() && p1 != Unset && p2 != Unset
      modifies ladder
      ensures Valid() && NoUnset()
      ensures ladder[..] == FreshLadder(p1, p2)
    {
      ladder[0] := LadderMatch("T1", Semifinal, p1, p2);
      ladder[1] := LadderMatch("T2", Prefinal, Tbd, Tbd);
      ladder[2] := LadderMatch("T3", Final, Tbd, Tbd);
      assert ladder[..] == FreshLadder(p1, p2);
      FreshLadderStaged(p1, p2);
    }

    /** handleUnlockLeague (App.tsx:186-191), the user having agreed: reopen
        the league and drop the champion; the ladder is kept. */
    method UnlockLeague()
      modifies this`champion, this`leagueFinished
      ensures champion == None && !leagueFinished
    {
      leagueFinished := false;
      champion := None;
    }

    /** handleTournamentFinish (App.tsx:193-215): crown the final's winner.
        A confirmed final always has one. */
    method TournamentFinish() returns (outcome: FinishResult)
      requires Valid()
      modifies this`champion
      ensures outcome == FinishVerdict(ladder[2])
      ensures outcome.Crowned? ==> champion == Some(outcome.champion)
      ensures !outcome.Crowned? ==> champion == old(champion)
      ensures ladder[2].completed && NoUnset() ==>
        outcome.Crowned? && outcome.champion == Winner(ladder[2])
    {
      var final := ladder[2];
      outcome := FinishVerdict(final);
      if outcome.Crowned? {
        champion := Some(outcome.champion);
      }
    }

    /** handleTournamentUndo (App.tsx:217-226), the user having agreed: drop
        the champion and unlock the final. */
    method TournamentUndo()
      requires Valid()
      modifies this`champion, ladder
      ensures Valid() && (old(NoUnset()) ==> NoUnset())
      ensures champion == None
      ensures ladder[..] == old(ladder[..])[2 := old(ladder[2]).(completed := false)]
    {
      champion := None;
      MapLadder((m: Match) => m.kind == Ladder(Final), (m: Match) => m.(completed := false));
    }

    /** saveTournament (App.tsx:229-275): with a champion, archive the event
        with its league table and start a new one; without, change nothing. */
    method SaveTournament(id: string, timestamp: int) returns (saved: bool)
      requires Valid()
      modifies this`league, this`champion, this`leagueFinished, this`history, ladder
      ensures Valid()
      ensures saved <==> TournamentView.HasChampion(old(champion))
      ensures !saved ==> unchanged(this) && ladder[..] == old(ladder[..])
      ensures saved ==>
        && history == old(history) + [TournamentData(id, timestamp, old(league), old(ladder[..]),
             Standings.StandingsOf(roster, old(league)), old(champion), roster)]
        && league == Standings.InitialLeagueMatches()
        && ladder[..] == FreshLadder(Tbd, Tbd) && NoUnset()
        && champion == None && !leagueFinished
    {
      if !TournamentView.HasChampion(champion) {
        return false;
      }
      var standings := Standings.CalculateStandings(roster, league);
      var data := TournamentData(id, timestamp, league, ladder[..], standings, champion, roster);
      history := history + [data];
      Reset();
      saved := true;
    }

    /** resetCurrent (App.tsx:277-287), the user having agreed: the fixtures
        and the ladder start afresh; the archive is kept. */
    method Reset()
      requires Valid()
      modifies this`league, this`champion, this`leagueFinished, ladder
      ensures Valid() && NoUnset()
      ensures league == Standings.InitialLeagueMatches()
      ensures ladder[..] == FreshLadder(Tbd, Tbd)
      ensures champion == None && !leagueFinished
    {
      var slots := FreshLadder(Tbd, Tbd);
      ladder[0], ladder[1], ladder[2] := slots[0], slots[1], slots[2];
      assert ladder[..] == slots;
      FreshLadderStaged(Tbd, Tbd);
      league := Standings.InitialLeagueMatches();
      champion := None;
      leagueFinished := false;
    }
  }
}
