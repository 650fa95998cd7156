/** The checks of components/LeagueView.tsx that gate closing the league:
    a player named twice within one round, the same pairing (in either
    order) played twice anywhere in the league, and the finalisation gate
    built on them. */
module LeagueView {
  import opened Types
  import opened Collections

  /** matches.filter(m => m.round === round) */
  function RoundMatches(ms: seq<Match>, r: int): (rm: seq<Match>)
    ensures forall m :: m in rm <==> m in ms && m.kind == LeagueRound(r)
    ensures forall m {:trigger multiset(rm)[m]} :: multiset(rm)[m] == if m.kind == LeagueRound(r) then multiset(ms)[m] else 0
  {
    if ms == [] then []
    else
      assert ms == [ms[0]] + ms[1..];
      (if ms[0].kind == LeagueRound(r) then [ms[0]] else []) + RoundMatches(ms[1..], r)
  }

  // ---------------------------------------------------------------------
  // Players repeated within a round
  // ---------------------------------------------------------------------

  /** How often slot p fills a side of match m. */
  function Hits(m: Match, p: Slot): nat
  {
    (if m.p1 == p then 1 else 0) + (if m.p2 == p then 1 else 0)
  }

  /** How often slot p fills a side over the matches. */
  function Count(ms: seq<Match>, p: Slot): nat
  {
    if ms == [] then 0 else Count(ms[..|ms| - 1], p) + Hits(ms[|ms| - 1], p)
  }

  lemma CountStep(ms: seq<Match>, i: nat, p: Slot)
    requires i < |ms|
    ensures Count(ms[..i + 1], p) == Count(ms[..i], p) + Hits(ms[i], p)
  {
    assert ms[..i + 1][..i] == ms[..i];
  }

  /** Each match contributes its own occurrences to the count. */
  lemma {:induction false} CountAtLeast(ms: seq<Match>, i: nat, p: Slot)
    requires i < |ms|
    ensures Count(ms, p) >= Hits(ms[i], p)
  {
    if i < |ms| - 1 {
      CountAtLeast(ms[..|ms| - 1], i, p);
    }
  }

  function Lookup(counts: map<Slot, nat>, p: Slot): nat
  {
    if p in counts then counts[p] else 0
  }

  /** counts[p] = (counts[p] || 0) + 1 for a non-empty slot, entering p as a
      key when it is new; an empty slot changes nothing. */
  function Bump(counts: map<Slot, nat>, keys: seq<Slot>, p: Slot): (r: (map<Slot, nat>, seq<Slot>))
    ensures forall q :: Lookup(r.0, q) == Lookup(counts, q) + (if Named(p) && q == p then 1 else 0)
    ensures (forall q :: q in counts ==> Named(q)) ==> forall q :: q in r.0 ==> Named(q)
    ensures (forall q :: q in keys <==> q in counts) ==> forall q :: q in r.1 <==> q in r.0
    ensures NoDups(keys) && (forall q :: q in keys <==> q in counts) ==> NoDups(r.1)
  {
    if !Named(p) then (counts, keys)
    else (counts[p := Lookup(counts, p) + 1], if p in counts then keys else keys + [p])
  }

  /** The counting pass of getRoundConflicts (LeagueView.tsx:31-36): one
      count per non-empty slot, keys in order of first appearance. */
  method TallySlots(rm: seq<Match>) returns (counts: map<Slot, nat>, keys: seq<Slot>)
    ensures forall p :: Named(p) ==> Lookup(counts, p) == Count(rm, p)
    ensures forall p :: p in counts ==> Named(p)
    ensures forall p :: p in keys <==> p in counts
    ensures NoDups(keys)
  {
    counts := map[];
    keys := [];
    for i := 0 to |rm|
      invariant forall p :: Named(p) ==> Lookup(counts, p) == Count(rm[..i], p)
      invariant forall p :: p in counts ==> Named(p)
      invariant forall p :: p in keys <==> p in counts
      invariant NoDups(keys)
    {
      var m := rm[i];
      var after1 := Bump(counts, keys, m.p1);
      var after2 := Bump(after1.0, after1.1, m.p2);
      forall p | Named(p) ensures Lookup(after2.0, p) == Count(rm[..i + 1], p) {
        CountStep(rm, i, p);
      }
      counts, keys := after2.0, after2.1;
    }
    assert rm[..|rm|] == rm;
  }

  /** The filtering pass of getRoundConflicts (LeagueView.tsx:38): the keys
      counted more than once, in key order. */
  method Repeated(counts: map<Slot, nat>, keys: seq<Slot>) returns (names: seq<Slot>)
    requires NoDups(keys)
    ensures forall p :: p in names <==> p in keys && Lookup(counts, p) > 1
    ensures NoDups(names)
  {
    names := [];
    for j := 0 to |keys|
      invariant forall p :: p in names <==> p in keys[..j] && Lookup(counts, p) > 1
      invariant NoDups(names)
    {
      assert keys[..j + 1] == keys[..j] + [keys[j]];
      if Lookup(counts, keys[j]) > 1 {
        assert keys[j] !in names;
        names := names + [keys[j]];
      }
    }
    assert keys[..|keys|] == keys;
  }

  /** getRoundConflicts (LeagueView.tsx:29-39): the non-empty slots filled
      more than once in the round, in order of first appearance. */
  method RoundConflicts(ms: seq<Match>, r: int) returns (names: seq<Slot>)
    ensures forall p :: p in names <==> Named(p) && Count(RoundMatches(ms, r), p) > 1
    ensures NoDups(names)
  {
    var counts, keys := TallySlots(RoundMatches(ms, r));
    names := Repeated(counts, keys);
  }

  /** A match with the same player on both sides makes that player a
      round conflict on its own. */
  lemma SelfPairingConflicts(ms: seq<Match>, i: nat)
    requires i < |ms| && ms[i].kind.LeagueRound?
    requires Named(ms[i].p1) && ms[i].p1 == ms[i].p2
    ensures Count(RoundMatches(ms, ms[i].kind.round), ms[i].p1) > 1
  {
    var rm := RoundMatches(ms, ms[i].kind.round);
    assert ms[i] in rm;
    var k :| 0 <= k < |rm| && rm[k] == ms[i];
    CountAtLeast(rm, k, ms[i].p1);
  }

  // ---------------------------------------------------------------------
  // Pairings repeated across the league
  // ---------------------------------------------------------------------

  /** Both sides chosen (`if (!m.p1 || !m.p2) return`). */
  predicate Paired(m: Match)
  {
    Named(m.p1) && Named(m.p2)
  }

  /** The pairing as an unordered pair of slots. */
  function Pairing(m: Match): multiset<Slot>
  {
    multiset{m.p1, m.p2}
  }

  /** Two matches have the same pairing exactly when they have the same two
      participants, in either order. */
  lemma PairingIgnoresOrder(a: Match, b: Match)
    ensures Pairing(a) == Pairing(b) <==>
      (a.p1 == b.p1 && a.p2 == b.p2) || (a.p1 == b.p2 && a.p2 == b.p1)
  {
    if Pairing(a) == Pairing(b) {
      assert a.p1 in Pairing(b);
      if a.p1 == b.p1 {
        assert Pairing(a) - multiset{a.p1} == multiset{a.p2};
        assert Pairing(b) - multiset{b.p1} == multiset{b.p2};
      } else {
        assert a.p1 == b.p2;
        assert Pairing(a) - multiset{a.p1} == multiset{a.p2};
        assert Pairing(b) - multiset{b.p2} == multiset{b.p1};
      }
    }
  }

  /** The ids, in order, of the paired matches with pairing k. */
  function IdsWith(ms: seq<Match>, k: multiset<Slot>): seq<string>
  {
    if ms == [] then []
    else
      var last := ms[|ms| - 1];
      IdsWith(ms[..|ms| - 1], k) + (if HasPairing(last, k) then [last.id] else [])
  }

  predicate HasPairing(m: Match, k: multiset<Slot>)
  {
    Paired(m) && Pairing(m) == k
  }

  lemma IdsWithStep(ms: seq<Match>, i: nat, k: multiset<Slot>)
    requires i < |ms|
    ensures IdsWith(ms[..i + 1], k) ==
      IdsWith(ms[..i], k) + (if HasPairing(ms[i], k) then [ms[i].id] else [])
  {
    assert ms[..i + 1][..i] == ms[..i];
  }

  lemma {:induction false} IdsWithFound(ms: seq<Match>, k: multiset<Slot>, id: string) returns (i: nat)
    requires id in IdsWith(ms, k)
    ensures i < |ms| && ms[i].id == id && HasPairing(ms[i], k)
  {
    var init := ms[..|ms| - 1];
    if id in IdsWith(init, k) {
      i := IdsWithFound(init, k, id);
      assert ms[i] == init[i];
    } else {
      i := |ms| - 1;
    }
  }

  lemma {:induction false} IdsWithListed(ms: seq<Match>, k: multiset<Slot>, i: nat)
    requires i < |ms| && HasPairing(ms[i], k)
    ensures ms[i].id in IdsWith(ms, k)
  {
    var init := ms[..|ms| - 1];
    if i < |init| {
      assert init[i] == ms[i];
      IdsWithListed(init, k, i);
    }
  }

  lemma {:induction false} IdsWithTwoFound(ms: seq<Match>, k: multiset<Slot>) returns (i: nat, j: nat)
    requires |IdsWith(ms, k)| > 1
    ensures i < j < |ms| && HasPairing(ms[i], k) && HasPairing(ms[j], k)
  {
    var init := ms[..|ms| - 1];
    var last := |ms| - 1;
    assert IdsWith(ms, k) == IdsWith(init, k) + (if HasPairing(ms[last], k) then [ms[last].id] else []);
    if |IdsWith(init, k)| > 1 {
      i, j := IdsWithTwoFound(init, k);
      assert ms[i] == init[i] && ms[j] == init[j];
    } else {
      i := IdsWithFound(init, k, IdsWith(init, k)[0]);
      assert ms[i] == init[i];
      j := last;
    }
  }

  lemma {:induction false} IdsWithTwoListed(ms: seq<Match>, k: multiset<Slot>, i: nat, j: nat)
    requires i < j < |ms| && HasPairing(ms[i], k) && HasPairing(ms[j], k)
    ensures |IdsWith(ms, k)| > 1
  {
    var init := ms[..|ms| - 1];
    assert init[i] == ms[i];
    if j < |init| {
      assert init[j] == ms[j];
      IdsWithTwoListed(init, k, i, j);
    } else {
      IdsWithListed(init, k, i);
    }
  }

  /** Match i shares its pairing with some other match. */
  ghost predicate ClashAt(ms: seq<Match>, i: int)
    requires 0 <= i < |ms|
  {
    Paired(ms[i]) && exists j :: 0 <= j < |ms| && j != i && HasPairing(ms[j], Pairing(ms[i]))
  }

  /** Some match with this id shares its pairing with another match. */
  ghost predicate Clashes(ms: seq<Match>, id: string)
  {
    exists i :: 0 <= i < |ms| && ms[i].id == id && ClashAt(ms, i)
  }

  /** The groups with more than one id hold exactly the clashing ids. */
  lemma GroupsClash(ms: seq<Match>, seen: map<multiset<Slot>, seq<string>>, keys: seq<multiset<Slot>>, id: string)
    requires forall k :: k in seen <==> k in keys
    requires forall k :: k in seen ==> seen[k] == IdsWith(ms, k)
    requires forall k :: k !in seen ==> IdsWith(ms, k) == []
    ensures (exists t :: 0 <= t < |keys| && |seen[keys[t]]| > 1 && id in seen[keys[t]]) <==> Clashes(ms, id)
  {
    if exists t :: 0 <= t < |keys| && |seen[keys[t]]| > 1 && id in seen[keys[t]] {
      var t :| 0 <= t < |keys| && |seen[keys[t]]| > 1 && id in seen[keys[t]];
      GroupClashes(ms, keys[t], id);
    }
    if Clashes(ms, id) {
      var i :| 0 <= i < |ms| && ms[i].id == id && ClashAt(ms, i);
      ClashGrouped(ms, i);
      GroupListed(seen, keys, Pairing(ms[i]));
    }
  }

  lemma GroupListed(seen: map<multiset<Slot>, seq<string>>, keys: seq<multiset<Slot>>, k: multiset<Slot>)
    requires forall k :: k in seen <==> k in keys
    requires k in seen
    ensures exists t :: 0 <= t < |keys| && keys[t] == k
  {
    assert k in keys;
  }

  /** An id listed in a group of two or more belongs to a clashing match. */
  lemma GroupClashes(ms: seq<Match>, k: multiset<Slot>, id: string)
    requires |IdsWith(ms, k)| > 1 && id in IdsWith(ms, k)
    ensures Clashes(ms, id)
  {
    var i := IdsWithFound(ms, k, id);
    var a, b := IdsWithTwoFound(ms, k);
    var j := if a != i then a else b;
    assert j != i && HasPairing(ms[j], Pairing(ms[i]));
    assert ClashAt(ms, i);
  }

  /** A clashing match is listed in a group of two or more. */
  lemma ClashGrouped(ms: seq<Match>, i: nat)
    requires i < |ms| && ClashAt(ms, i)
    ensures |IdsWith(ms, Pairing(ms[i]))| > 1 && ms[i].id in IdsWith(ms, Pairing(ms[i]))
  {
    var k := Pairing(ms[i]);
    var j :| 0 <= j < |ms| && j != i && HasPairing(ms[j], k);
    assert HasPairing(ms[i], k);
    if i < j {
      IdsWithTwoListed(ms, k, i, j);
    } else {
      IdsWithTwoListed(ms, k, j, i);
    }
    IdsWithListed(ms, k, i);
  }

  /** The grouping pass of matchupConflicts (LeagueView.tsx:43-54): the ids
      of the paired matches under their unordered pairing, keys in order of
      first appearance. */
  method GroupByPairing(ms: seq<Match>) returns (seen: map<multiset<Slot>, seq<string>>, keys: seq<multiset<Slot>>)
    ensures forall k :: k in seen <==> k in keys
    ensures forall k :: k in seen ==> seen[k] == IdsWith(ms, k)
    ensures forall k :: k !in seen ==> IdsWith(ms, k) == []
  {
    seen := map[];
    keys := [];
    for i := 0 to |ms|
      invariant forall k :: k in seen <==> k in keys
      invariant forall k :: k in seen ==> seen[k] == IdsWith(ms[..i], k)
      invariant forall k :: k !in seen ==> IdsWith(ms[..i], k) == []
    {
      forall k ensures IdsWith(ms[..i + 1], k) ==
        IdsWith(ms[..i], k) + (if HasPairing(ms[i], k) then [ms[i].id] else []) {
        IdsWithStep(ms, i, k);
      }
      var m := ms[i];
      if Named(m.p1) && Named(m.p2) {
        var key := multiset{m.p1, m.p2};
        if key !in seen {
          keys := keys + [key];
          seen := seen[key := []];
        }
        seen := seen[key := seen[key] + [m.id]];
      }
    }
    assert ms[..|ms|] == ms;
  }

  /** matchupConflicts (LeagueView.tsx:42-64): every id of a pairing group
      with more than one member. */
  method MatchupConflicts(ms: seq<Match>) returns (ids: set<string>)
    ensures forall id :: id in ids <==> Clashes(ms, id)
  {
    var seen, keys := GroupByPairing(ms);
    ids := {};
    for j := 0 to |keys|
      invariant forall id :: id in ids <==>
        exists t :: 0 <= t < j && |seen[keys[t]]| > 1 && id in seen[keys[t]]
    {
      var group := seen[keys[j]];
      if |group| > 1 {
        ids := ids + set id | id in group;
      }
    }
    forall id ensures id in ids <==> Clashes(ms, id) {
      GroupsClash(ms, seen, keys, id);
    }
  }

  // ---------------------------------------------------------------------
  // The finalisation gate
  // ---------------------------------------------------------------------

  predicate AllCompleted(ms: seq<Match>)
  {
    forall i :: 0 <= i < |ms| ==> ms[i].completed
  }

  /** Some player fills two sides within round r. */
  ghost predicate RoundClash(ms: seq<Match>, r: int)
  {
    exists p :: Named(p) && Count(RoundMatches(ms, r), p) > 1
  }

  /** Some pairing is played twice. */
  ghost predicate PairingRepeated(ms: seq<Match>)
  {
    exists i :: 0 <= i < |ms| && ClashAt(ms, i)
  }

  /** The rounds checked for repeated players (LeagueView.tsx:26). */
  const Rounds: seq<int> := [1, 2, 3]

  ghost predicate Finalizable(ms: seq<Match>)
  {
    && AllCompleted(ms)
    && (forall r :: r in Rounds ==> !RoundClash(ms, r))
    && !PairingRepeated(ms)
  }

  /** rounds.some(r => getRoundConflicts(r).length > 0) */
  method AnyRoundConflict(ms: seq<Match>) returns (found: bool)
    ensures found <==> exists r :: r in Rounds && RoundClash(ms, r)
  {
    found := false;
    for t := 0 to |Rounds|
      invariant found <==> exists u :: 0 <= u < t && RoundClash(ms, Rounds[u])
    {
      var names := RoundConflicts(ms, Rounds[t]);
      ConflictListEmpty(ms, Rounds[t], names);
      if |names| > 0 {
        found := true;
      }
    }
  }

  /** A round's conflict list is empty exactly when the round has no clash. */
  lemma ConflictListEmpty(ms: seq<Match>, r: int, names: seq<Slot>)
    requires forall p :: p in names <==> Named(p) && Count(RoundMatches(ms, r), p) > 1
    ensures |names| > 0 <==> RoundClash(ms, r)
  {
    if |names| > 0 {
      assert names[0] in names;
    } else {
      forall p | Named(p) ensures Count(RoundMatches(ms, r), p) <= 1 {
        assert p !in names;
      }
    }
  }

  /** The conflict set is empty exactly when no pairing is repeated. */
  lemma ConflictSetEmpty(ms: seq<Match>, ids: set<string>)
    requires forall id :: id in ids <==> Clashes(ms, id)
    ensures |ids| > 0 <==> PairingRepeated(ms)
  {
    if |ids| > 0 {
      var id :| id in ids;
      assert Clashes(ms, id);
    }
    if PairingRepeated(ms) {
      var i :| 0 <= i < |ms| && ClashAt(ms, i);
      assert ms[i].id in ids;
    }
  }

  /** canFinalize (LeagueView.tsx:67-71): every match completed, no round
      of 1..3 with a repeated player and no repeated pairing. */
  method CanFinalize(ms: seq<Match>) returns (ok: bool)
    ensures ok <==> Finalizable(ms)
  {
    var allCompleted := forall i :: 0 <= i < |ms| ==> ms[i].completed;
    var roundConflicts := AnyRoundConflict(ms);
    var ids := MatchupConflicts(ms);
    ConflictSetEmpty(ms, ids);
    ok := allCompleted && !roundConflicts && |ids| == 0;
  }

  /** The per-match error flag (LeagueView.tsx:132-136), over the outputs of
      the two checks. */
  function HasError(m: Match, roundConflicts: seq<Slot>, matchupConflicts: set<string>): bool
  {
    m.id in matchupConflicts || m.p1 in roundConflicts || m.p2 in roundConflicts
  }

  /** With the checks' outputs, a match is flagged exactly when its pairing
      is repeated or one of its named players is repeated in its round. */
  lemma ErrorFlag(ms: seq<Match>, i: nat, names: seq<Slot>, ids: set<string>)
    requires i < |ms| && ms[i].kind.LeagueRound?
    requires forall p :: p in names <==> Named(p) && Count(RoundMatches(ms, ms[i].kind.round), p) > 1
    requires forall id :: id in ids <==> Clashes(ms, id)
    ensures var m := ms[i];
      var rm := RoundMatches(ms, m.kind.round);
      HasError(m, names, ids) <==>
        Clashes(ms, m.id)
        || (Named(m.p1) && Count(rm, m.p1) > 1)
        || (Named(m.p2) && Count(rm, m.p2) > 1)
  {
  }
}
