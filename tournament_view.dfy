/** The enabling conditions of components/TournamentView.tsx: which inputs
    and actions a ladder match card offers, when the finish action is shown,
    and which stage is highlighted as active. */
module TournamentView {
  import opened Types

  /** JavaScript truthiness of the champion field: null and '' are falsy. */
  predicate HasChampion(champion: Option<Slot>)
  {
    champion.Some? && champion.value != Unset
  }

  /** TournamentView.tsx:37: both participants are known. */
  predicate IsReady(m: Match)
  {
    m.p1 != Tbd && m.p2 != Tbd
  }

  /** TournamentView.tsx:38: both scores entered and level. */
  predicate IsDraw(m: Match)
  {
    m.s1.Some? && m.s2.Some? && m.s1.value == m.s2.value
  }

  /** TournamentView.tsx:41: the score and penalty inputs are locked. */
  predicate IsDisabled(m: Match)
  {
    !IsReady(m) || m.completed
  }

  /** TournamentView.tsx:102: the penalty inputs are shown. */
  predicate ShowsPenalties(m: Match)
  {
    IsDraw(m)
  }

  /** TournamentView.tsx:130: the confirm button is shown. */
  predicate OffersConfirm(m: Match, champion: Option<Slot>)
  {
    IsReady(m) && !m.completed && !HasChampion(champion)
  }

  /** TournamentView.tsx:140: the reset button is shown. */
  predicate OffersReset(m: Match, champion: Option<Slot>)
  {
    m.completed && !HasChampion(champion)
  }

  /** TournamentView.tsx:28-30: the first match of a stage. */
  function FindStage(ms: seq<Match>, stage: Stage): (r: Option<Match>)
    ensures r.Some? ==> r.value in ms && r.value.kind == Ladder(stage)
    ensures r.None? ==> forall i :: 0 <= i < |ms| ==> ms[i].kind != Ladder(stage)
    ensures r.Some? ==>
      exists i :: 0 <= i < |ms| && ms[i] == r.value && forall j :: 0 <= j < i ==> ms[j].kind != Ladder(stage)
  {
    if ms == [] then None
    else if ms[0].kind == Ladder(stage) then Some(ms[0])
    else
      var r := FindStage(ms[1..], stage);
      if r.Some? then
        var i :| 0 <= i < |ms[1..]| && ms[1..][i] == r.value && forall j :: 0 <= j < i ==> ms[1..][j].kind != Ladder(stage);
        assert ms[i + 1] == r.value && forall j :: 0 <= j < i + 1 ==> ms[j].kind != Ladder(stage);
        r
      else r
  }

  /** m?.isCompleted */
  predicate Confirmed(m: Option<Match>)
  {
    m.Some? && m.value.completed
  }

  /** TournamentView.tsx:154: the finish action is shown. */
  predicate CanFinish(ms: seq<Match>, champion: Option<Slot>)
  {
    Confirmed(FindStage(ms, Final)) && !HasChampion(champion)
  }

  /** TournamentView.tsx:169, 174, 179: which cards are highlighted. */
  predicate SemifinalActive(ms: seq<Match>)
  {
    !Confirmed(FindStage(ms, Semifinal))
  }

  predicate PrefinalActive(ms: seq<Match>)
  {
    Confirmed(FindStage(ms, Semifinal)) && !Confirmed(FindStage(ms, Prefinal))
  }

  predicate FinalActive(ms: seq<Match>, champion: Option<Slot>)
  {
    Confirmed(FindStage(ms, Prefinal)) && !HasChampion(champion)
  }

  /** A card offers confirm or reset, never both, and while a champion stands
      it offers neither; a card whose inputs are open offers confirm
      unless a champion stands. */
  lemma CardActions(m: Match, champion: Option<Slot>)
    ensures !(OffersConfirm(m, champion) && OffersReset(m, champion))
    ensures HasChampion(champion) ==> !OffersConfirm(m, champion) && !OffersReset(m, champion)
    ensures !IsDisabled(m) && !HasChampion(champion) ==> OffersConfirm(m, champion)
    ensures OffersConfirm(m, champion) ==> !IsDisabled(m)
  {
  }

  /** The prefinal card is never highlighted together with the semifinal
      card or with the final card. */
  lemma StagesExclusive(ms: seq<Match>, champion: Option<Slot>)
    ensures !(SemifinalActive(ms) && PrefinalActive(ms))
    ensures !(PrefinalActive(ms) && FinalActive(ms, champion))
  {
  }
}
