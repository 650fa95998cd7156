/** The records of types.ts: matches, league standings, archived events and
    lifetime records. The source's string sentinels ('' and 'TBD') and its
    phase/round strings become variants here. */
module Types {

  datatype Option<T> = None | Some(value: T)

  /** A real player's name: any string other than the two placeholders. */
  type Name = s: string | s != "" && s != "TBD" witness "A"

  /** A participant slot of a match. The source stores a string: '' while a
      league slot is not yet chosen, 'TBD' while a ladder slot awaits a winner,
      otherwise the player's name. */
  datatype Slot = Unset | Tbd | Player(name: Name)

  /** The string the source stores for a slot. */
  function SlotText(p: Slot): string
  {
    match p
    case Unset => ""
    case Tbd => "TBD"
    case Player(n) => n
  }

  /** The slot a stored string denotes; the inverse of SlotText. */
  function SlotOf(s: string): (p: Slot)
    ensures SlotText(p) == s
  {
    if s == "" then Unset else if s == "TBD" then Tbd else Player(s)
  }

  /** JavaScript truthiness of a stored participant string: only '' is falsy. */
  predicate Named(p: Slot)
  {
    p != Unset
  }

  datatype Phase = League | Tournament

  datatype Stage = Semifinal | Prefinal | Final

  /** A league match carries its round number; a ladder match its stage. */
  datatype Kind = LeagueRound(round: int) | Ladder(stage: Stage)

  /** One match. Scores and penalty scores are each absent or a number on
      their own; `completed` is a separate flag, not derived from them. */
  datatype Match = Match(
    id: string,
    p1: Slot, p2: Slot,
    s1: Option<nat>, s2: Option<nat>,
    pk1: Option<nat>, pk2: Option<nat>,
    completed: bool,
    kind: Kind)
  {
    predicate Scored()
    {
      s1.Some? && s2.Some?
    }
  }

  function PhaseOf(m: Match): Phase
  {
    if m.kind.LeagueRound? then League else Tournament
  }

  /** A player's league line: the tallies, goal difference, points and rank. */
  datatype Standing = Standing(
    name: Name,
    played: int, won: int, drawn: int, lost: int,
    gf: int, ga: int, gd: int,
    points: int, rank: int)

  /** An archived event. The winner may be absent. */
  datatype TournamentData = TournamentData(
    id: string, timestamp: int,
    leagueMatches: seq<Match>, tournamentMatches: seq<Match>,
    standings: seq<Standing>,
    winner: Option<Slot>,
    players: seq<Name>)

  /** A player's lifetime record: the standing's tallies without gd and rank. */
  datatype AggregatedStats = AggregatedStats(
    name: Name,
    matches: int, wins: int, draws: int, losses: int,
    gf: int, ga: int, points: int)

  /** Which side a result favours. */
  datatype Side = First | Second | Level

  /** The shared outcome rule: the higher score wins; on a level score,
      penalties decide when both are present and unequal; otherwise level. */
  function Decide(s1: nat, s2: nat, pk1: Option<nat>, pk2: Option<nat>): (r: Side)
    ensures r == First ==> s1 > s2 || (s1 == s2 && pk1.Some? && pk2.Some? && pk1.value > pk2.value)
    ensures r == Second ==> s2 > s1 || (s1 == s2 && pk1.Some? && pk2.Some? && pk2.value > pk1.value)
    ensures r == Level <==> s1 == s2 && (pk1.None? || pk2.None? || pk1.value == pk2.value)
  {
    if s1 > s2 then First
    else if s2 > s1 then Second
    else if pk1.Some? && pk2.Some? && pk1.value > pk2.value then First
    else if pk1.Some? && pk2.Some? && pk2.value > pk1.value then Second
    else Level
  }

  function Flip(d: Side): Side
  {
    match d
    case First => Second
    case Second => First
    case Level => Level
  }

  /** Seen from the other side, the result is mirrored. */
  lemma DecideMirror(s1: nat, s2: nat, pk1: Option<nat>, pk2: Option<nat>)
    ensures Decide(s2, s1, pk2, pk1) == Flip(Decide(s1, s2, pk1, pk2))
  {
  }
}
