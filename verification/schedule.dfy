/** The round-robin scheduler of `pages/5_Generation_tournoi.py`
    (`generer_matchs_equilibres`): the six pairings of four teams, shuffled,
    are placed greedily so that the team making the pick did not play in
    either of the two previous slots. */
module Schedule {
  import opened Wrappers
  import opened Seqs
  import opened Rows
  import opened Standings

  /** A pairing `(team A, team B)`. */
  type Match = (string, string)

  /** `itertools.combinations(names, 2)` for four teams, in its order. */
  function Combinations(names: seq<string>): (ps: seq<Match>)
    requires |names| == 4
    ensures |ps| == 6
    ensures forall p :: p in ps <==> exists i, j :: 0 <= i < j < 4 && p == (names[i], names[j])
    ensures Distinct(names) ==> Distinct(ps)
  {
    var ps := [(names[0], names[1]), (names[0], names[2]), (names[0], names[3]),
               (names[1], names[2]), (names[1], names[3]), (names[2], names[3])];
    assert forall i, j :: 0 <= i < j < 4 ==> (names[i], names[j]) in ps by {
      forall i, j | 0 <= i < j < 4
        ensures (names[i], names[j]) in ps
      {
        if i == 0 && j == 1 { assert ps[0] == (names[i], names[j]); }
        else if i == 0 && j == 2 { assert ps[1] == (names[i], names[j]); }
        else if i == 0 { assert ps[2] == (names[i], names[j]); }
        else if i == 1 && j == 2 { assert ps[3] == (names[i], names[j]); }
        else if i == 1 { assert ps[4] == (names[i], names[j]); }
        else { assert ps[5] == (names[i], names[j]); }
      }
    }
    ps
  }

  /** The team plays in the match (`eq in match`). */
  predicate Involves(m: Match, team: string)
  {
    m.0 == team || m.1 == team
  }

  /** The team is in neither of the last two scheduled matches
      (`all(eq not in m for m in horaire[-2:])`). */
  predicate Rested(sched: seq<Match>, team: string)
  {
    (|sched| < 1 || !Involves(sched[|sched| - 1], team))
    && (|sched| < 2 || !Involves(sched[|sched| - 2], team))
  }

  /** The match may be appended for the picking team. */
  predicate Fits(m: Match, sched: seq<Match>, team: string)
  {
    Involves(m, team) && Rested(sched, team)
  }

  /** The inner `for match in combinaisons` loop from position `k` on: the
      first pending match that fits. */
  function FirstFit(pending: seq<Match>, sched: seq<Match>, team: string, k: nat): (r: Option<nat>)
    requires k <= |pending|
    ensures r.Some? ==> k <= r.value < |pending| && Fits(pending[r.value], sched, team)
    ensures r.Some? ==> forall i :: k <= i < r.value ==> !Fits(pending[i], sched, team)
    ensures r.None? ==> forall i :: k <= i < |pending| ==> !Fits(pending[i], sched, team)
    decreases |pending| - k
  {
    if k == |pending| then None
    else if Fits(pending[k], sched, team) then Some(k)
    else FirstFit(pending, sched, team, k + 1)
  }

  /** Every scheduled match has a team that played in neither of the two
      slots before it: the picking team of the rule (the opponent is not
      looked at). */
  predicate RestRule(sched: seq<Match>)
  {
    forall k :: 0 <= k < |sched| ==> Rested(sched[..k], sched[k].0) || Rested(sched[..k], sched[k].1)
  }

  lemma RestRuleSnoc(sched: seq<Match>, m: Match, team: string)
    requires RestRule(sched) && Fits(m, sched, team)
    ensures RestRule(sched + [m])
  {
    var s := sched + [m];
    forall k | 0 <= k < |s|
      ensures Rested(s[..k], s[k].0) || Rested(s[..k], s[k].1)
    {
      if k < |sched| {
        assert s[..k] == sched[..k];
      } else {
        assert s[..k] == sched;
      }
    }
  }

  /** What one pass of the outer `while` leaves: the pending matches and the
      schedule so far. */
  datatype State = State(pending: seq<Match>, sched: seq<Match>)

  /** One pass of the outer loop, from the `t`-th team on: each team in turn
      appends and removes its first fitting pending match, if any. Once
      nothing is pending no team finds a match, which is what the early
      `break` does. */
  function Pass(names: seq<string>, s: State, t: nat): State
    requires t <= |names|
    decreases |names| - t
  {
    if t == |names| then s
    else
      match FirstFit(s.pending, s.sched, names[t], 0)
      case None => Pass(names, s, t + 1)
      case Some(i) => Pass(names, State(s.pending[..i] + s.pending[i + 1..], s.sched + [s.pending[i]]), t + 1)
  }

  /** A pass only moves matches from the pending list to the end of the
      schedule, each by a rested team; if the pending list does not shrink,
      nothing changed. */
  lemma {:induction false} PassKeeps(names: seq<string>, s: State, t: nat)
    requires t <= |names|
    ensures var r := Pass(names, s, t);
      && multiset(r.pending) + multiset(r.sched) == multiset(s.pending) + multiset(s.sched)
      && |r.pending| <= |s.pending|
      && (RestRule(s.sched) ==> RestRule(r.sched))
      && (|r.pending| == |s.pending| ==> r == s)
    decreases |names| - t
  {
    if t < |names| {
      match FirstFit(s.pending, s.sched, names[t], 0)
      case None =>
        assert Pass(names, s, t) == Pass(names, s, t + 1);
        PassKeeps(names, s, t + 1);
      case Some(i) =>
        var next := State(s.pending[..i] + s.pending[i + 1..], s.sched + [s.pending[i]]);
        assert Pass(names, s, t) == Pass(names, next, t + 1);
        PassStep(s, i, names[t]);
        PassKeeps(names, next, t + 1);
    }
  }

  lemma PassStep(s: State, i: nat, team: string)
    requires i < |s.pending| && Fits(s.pending[i], s.sched, team)
    ensures var next := State(s.pending[..i] + s.pending[i + 1..], s.sched + [s.pending[i]]);
      && multiset(next.pending) + multiset(next.sched) == multiset(s.pending) + multiset(s.sched)
      && |next.pending| == |s.pending| - 1
      && (RestRule(s.sched) ==> RestRule(next.sched))
  {
    assert s.pending == s.pending[..i] + [s.pending[i]] + s.pending[i + 1..];
    if RestRule(s.sched) {
      RestRuleSnoc(s.sched, s.pending[i], team);
    }
  }

  /** The outcome of `generer_matchs_equilibres`: the schedule when every
      match was placed, or the point at which a pass placed nothing, from
      which the source's `while` loop never returns. */
  datatype Plan = Done(order: seq<Match>) | Stalls(partial: seq<Match>, left: seq<Match>)

  /** No team of `names` can pick any of the pending matches. */
  predicate Stuck(names: seq<string>, s: State)
  {
    forall t, i :: 0 <= t < |names| && 0 <= i < |s.pending| ==> !Fits(s.pending[i], s.sched, names[t])
  }

  lemma {:induction false} NoProgressIsStuck(names: seq<string>, s: State, t: nat)
    requires t <= |names|
    requires |Pass(names, s, t).pending| == |s.pending|
    ensures forall u, i :: t <= u < |names| && 0 <= i < |s.pending| ==> !Fits(s.pending[i], s.sched, names[u])
    decreases |names| - t
  {
    if t < |names| {
      if FirstFit(s.pending, s.sched, names[t], 0).Some? {
        PickShrinks(names, s, t);
        assert false;
      }
      PassSkips(names, s, t);
      NoProgressIsStuck(names, s, t + 1);
    }
  }

  /** A team that finds a match makes the pass shorten the pending list. */
  lemma PickShrinks(names: seq<string>, s: State, t: nat)
    requires t < |names| && FirstFit(s.pending, s.sched, names[t], 0).Some?
    ensures |Pass(names, s, t).pending| < |s.pending|
  {
    var i := FirstFit(s.pending, s.sched, names[t], 0).value;
    var next := State(s.pending[..i] + s.pending[i + 1..], s.sched + [s.pending[i]]);
    assert Pass(names, s, t) == Pass(names, next, t + 1);
    PassKeeps(names, next, t + 1);
  }

  /** The `while combinaisons` loop: passes repeat until nothing is pending;
      a pass that places nothing leaves the state as it was, so the loop
      stalls there. */
  function Run(names: seq<string>, s: State): (p: Plan)
    ensures p.Done? ==> multiset(p.order) == multiset(s.pending) + multiset(s.sched)
    ensures p.Done? ==> (RestRule(s.sched) ==> RestRule(p.order))
    ensures p.Stalls? ==> |p.left| > 0 && Stuck(names, State(p.left, p.partial))
    ensures p.Stalls? ==> multiset(p.left) + multiset(p.partial) == multiset(s.pending) + multiset(s.sched)
    ensures p.Stalls? ==> (RestRule(s.sched) ==> RestRule(p.partial))
    decreases |s.pending|
  {
    if |s.pending| == 0 then Done(s.sched)
    else
      var r := Pass(names, s, 0);
      PassKeeps(names, s, 0);
      if |r.pending| == |s.pending| then
        NoProgressIsStuck(names, s, 0);
        Stalls(s.sched, s.pending)
      else Run(names, r)
  }

  /** `generer_matchs_equilibres` on the four team names and the shuffled
      pairings: when it finishes, it has scheduled every pairing exactly
      once, each by a team that rested for the two previous slots; when it
      stalls, matches are left over and no team can pick any of them. */
  function GenerateMatches(names: seq<string>, shuffled: seq<Match>): (p: Plan)
    requires |names| == 4 && multiset(shuffled) == multiset(Combinations(names))
    ensures p.Done? ==> multiset(p.order) == multiset(Combinations(names)) && RestRule(p.order)
    ensures p.Stalls? ==> |p.left| > 0 && Stuck(names, State(p.left, p.partial))
    ensures p.Stalls? ==> multiset(p.left) + multiset(p.partial) == multiset(Combinations(names))
  {
    Run(names, State(shuffled, []))
  }

  /** When the last two scheduled matches involve all four teams, no team
      may pick, so the loop stalls as soon as anything is pending. */
  lemma CoveredTeamsStall(names: seq<string>, s: State)
    requires |names| == 4 && |s.sched| >= 2 && |s.pending| > 0
    requires forall t :: 0 <= t < 4 ==>
      Involves(s.sched[|s.sched| - 1], names[t]) || Involves(s.sched[|s.sched| - 2], names[t])
    ensures Run(names, s).Stalls?
  {
    NoPickMeansNoPass(names, s, 0);
  }

  lemma {:induction false} NoPickMeansNoPass(names: seq<string>, s: State, t: nat)
    requires t <= |names|
    requires forall u :: t <= u < |names| ==> !Rested(s.sched, names[u])
    ensures Pass(names, s, t) == s
    decreases |names| - t
  {
    if t < |names| {
      NoPickMeansNoPass(names, s, t + 1);
    }
  }

  /** When the shuffle leaves the pairings in `itertools` order, the loop
      stalls: after a-b, a-c, a-d and b-c the pairs b-d and c-d are left,
      and each of b, c and d played in one of the last two slots. */
  lemma UnshuffledOrderStalls(names: seq<string>)
    requires |names| == 4 && Distinct(names)
    ensures GenerateMatches(names, Combinations(names)).Stalls?
  {
    var a, b, c, d := names[0], names[1], names[2], names[3];
    var s0 := State([(a, b), (a, c), (a, d), (b, c), (b, d), (c, d)], []);
    assert Combinations(names) == s0.pending;
    var s1 := State([(b, c), (b, d), (c, d)], [(a, b), (a, c), (a, d)]);
    var s2 := State([(b, d), (c, d)], [(a, b), (a, c), (a, d), (b, c)]);
    FirstPass(names, s0, s1);
    SecondPass(names, s1, s2);
    CoveredTeamsStall(names, s2);
    assert Run(names, s0) == Run(names, s1) == Run(names, s2);
  }

  lemma PassPicks(names: seq<string>, s: State, t: nat, i: nat)
    requires t < |names| && FirstFit(s.pending, s.sched, names[t], 0) == Some(i)
    ensures Pass(names, s, t) == Pass(names, State(s.pending[..i] + s.pending[i + 1..], s.sched + [s.pending[i]]), t + 1)
  {
  }

  lemma PassSkips(names: seq<string>, s: State, t: nat)
    requires t < |names| && FirstFit(s.pending, s.sched, names[t], 0).None?
    ensures Pass(names, s, t) == Pass(names, s, t + 1)
  {
  }

  /** A team that fits no pending match finds none. */
  lemma {:induction false} NoFit(pending: seq<Match>, sched: seq<Match>, team: string, k: nat)
    requires k <= |pending|
    requires forall i :: k <= i < |pending| ==> !Fits(pending[i], sched, team)
    ensures FirstFit(pending, sched, team, k).None?
    decreases |pending| - k
  {
    if k < |pending| {
      NoFit(pending, sched, team, k + 1);
    }
  }

  /** A team in none of the pending matches lets the pass go on unchanged. */
  lemma UninvolvedSkips(names: seq<string>, s: State, t: nat)
    requires t < |names| && forall i :: 0 <= i < |s.pending| ==> !Involves(s.pending[i], names[t])
    ensures Pass(names, s, t) == Pass(names, s, t + 1)
  {
    NoFit(s.pending, s.sched, names[t], 0);
    PassSkips(names, s, t);
  }

  /** A team that played in one of the last two matches lets the pass go on
      unchanged. */
  lemma UnrestedSkips(names: seq<string>, s: State, t: nat)
    requires t < |names| && !Rested(s.sched, names[t])
    ensures Pass(names, s, t) == Pass(names, s, t + 1)
  {
    NoFit(s.pending, s.sched, names[t], 0);
    PassSkips(names, s, t);
  }

  /** Removing the head of the pending list and scheduling it. */
  function TakeFirst(s: State): State
    requires |s.pending| > 0
  {
    State(s.pending[1..], s.sched + [s.pending[0]])
  }

  lemma TakeFirstPicks(names: seq<string>, s: State, t: nat)
    requires t < |names| && |s.pending| > 0 && Fits(s.pending[0], s.sched, names[t])
    ensures Pass(names, s, t) == Pass(names, TakeFirst(s), t + 1)
  {
    assert FirstFit(s.pending, s.sched, names[t], 0) == Some(0);
    PassPicks(names, s, t, 0);
    assert s.pending[..0] + s.pending[1..] == s.pending[1..];
  }

  lemma FirstPassStates(a: string, b: string, c: string, d: string)
    ensures TakeFirst(State([(a, b), (a, c), (a, d), (b, c), (b, d), (c, d)], []))
            == State([(a, c), (a, d), (b, c), (b, d), (c, d)], [(a, b)])
    ensures TakeFirst(State([(a, c), (a, d), (b, c), (b, d), (c, d)], [(a, b)]))
            == State([(a, d), (b, c), (b, d), (c, d)], [(a, b), (a, c)])
    ensures TakeFirst(State([(a, d), (b, c), (b, d), (c, d)], [(a, b), (a, c)]))
            == State([(b, c), (b, d), (c, d)], [(a, b), (a, c), (a, d)])
    ensures TakeFirst(State([(b, c), (b, d), (c, d)], [(a, b), (a, c), (a, d)]))
            == State([(b, d), (c, d)], [(a, b), (a, c), (a, d), (b, c)])
  {
  }

  lemma FirstPass(n: seq<string>, s0: State, s1: State)
    requires |n| == 4 && Distinct(n)
    requires s0 == State([(n[0], n[1]), (n[0], n[2]), (n[0], n[3]), (n[1], n[2]), (n[1], n[3]), (n[2], n[3])], [])
    requires s1 == State([(n[1], n[2]), (n[1], n[3]), (n[2], n[3])], [(n[0], n[1]), (n[0], n[2]), (n[0], n[3])])
    ensures Pass(n, s0, 0) == s1
  {
    var a, b, c, d := n[0], n[1], n[2], n[3];
    assert a != b && a != c && a != d && b != c && b != d && c != d;
    FirstPassStates(a, b, c, d);
    var t1 := TakeFirst(s0);
    var t2 := TakeFirst(t1);
    assert Pass(n, s0, 0) == Pass(n, t1, 1) by {
      TakeFirstPicks(n, s0, 0);
    }
    assert Pass(n, t1, 1) == Pass(n, t1, 2) by {
      UnrestedSkips(n, t1, 1);
    }
    assert Pass(n, t1, 2) == Pass(n, t2, 3) by {
      TakeFirstPicks(n, t1, 2);
    }
    assert Pass(n, t2, 3) == Pass(n, s1, 4) by {
      TakeFirstPicks(n, t2, 3);
    }
  }

  lemma SecondPass(n: seq<string>, s1: State, s2: State)
    requires |n| == 4 && Distinct(n)
    requires s1 == State([(n[1], n[2]), (n[1], n[3]), (n[2], n[3])], [(n[0], n[1]), (n[0], n[2]), (n[0], n[3])])
    requires s2 == State([(n[1], n[3]), (n[2], n[3])], [(n[0], n[1]), (n[0], n[2]), (n[0], n[3]), (n[1], n[2])])
    ensures Pass(n, s1, 0) == s2
  {
    var a, b, c, d := n[0], n[1], n[2], n[3];
    assert a != b && a != c && a != d && b != c && b != d && c != d;
    FirstPassStates(a, b, c, d);
    assert Pass(n, s1, 0) == Pass(n, s1, 1) by {
      UninvolvedSkips(n, s1, 0);
    }
    assert Pass(n, s1, 1) == Pass(n, s2, 2) by {
      TakeFirstPicks(n, s1, 1);
    }
    assert Pass(n, s2, 2) == Pass(n, s2, 3) by {
      UnrestedSkips(n, s2, 2);
    }
    assert Pass(n, s2, 3) == s2 by {
      UnrestedSkips(n, s2, 3);
    }
  }

  /** One pass of the corrected loop: when the pass places nothing, the
      first pending match is scheduled anyway. */
  function Advance(names: seq<string>, s: State): (next: State)
    requires |s.pending| > 0
    ensures multiset(next.pending) + multiset(next.sched) == multiset(s.pending) + multiset(s.sched)
    ensures |next.pending| < |s.pending|
  {
    var r := Pass(names, s, 0);
    PassKeeps(names, s, 0);
    if |r.pending| < |s.pending| then r
    else
      TakeFirstKeeps(s);
      TakeFirst(s)
  }

  lemma TakeFirstKeeps(s: State)
    requires |s.pending| > 0
    ensures var next := TakeFirst(s);
      && multiset(next.pending) + multiset(next.sched) == multiset(s.pending) + multiset(s.sched)
      && |next.pending| == |s.pending| - 1
  {
    assert s.pending == [s.pending[0]] + s.pending[1..];
  }

  /** The loop with the stall removed: every run finishes. */
  function RunCompleting(names: seq<string>, s: State): (order: seq<Match>)
    ensures multiset(order) == multiset(s.pending) + multiset(s.sched)
    decreases |s.pending|
  {
    if |s.pending| == 0 then s.sched
    else
      RunCompleting(names, Advance(names, s))
  }

  /** The corrected generator: always a schedule, holding every pairing of
      the four teams exactly once. */
  function GenerateMatchesCompleting(names: seq<string>, shuffled: seq<Match>): (order: seq<Match>)
    requires |names| == 4 && multiset(shuffled) == multiset(Combinations(names))
    ensures multiset(order) == multiset(Combinations(names))
    ensures |order| == 6
    ensures Distinct(names) ==> Distinct(order)
  {
    var order := RunCompleting(names, State(shuffled, []));
    assert |order| == 6 by {
      assert |multiset(order)| == |multiset(Combinations(names))|;
    }
    assert Distinct(names) ==> Distinct(order) by {
      if Distinct(names) {
        DistinctPermutation(Combinations(names), order);
      }
    }
    order
  }

  /** When the first pass already finishes the job, the corrected loop and
      the original agree. */
  lemma CompletingAgreesWhenDone(names: seq<string>, s: State)
    requires Run(names, s).Done?
    ensures RunCompleting(names, s) == Run(names, s).order
    decreases |s.pending|
  {
    if |s.pending| > 0 {
      PassKeeps(names, s, 0);
      assert Advance(names, s) == Pass(names, s, 0);
      CompletingAgreesWhenDone(names, Pass(names, s, 0));
    }
  }

  /** The rows written for a schedule: teams from the pairing, scores 0-0,
      not finished, phase "Ronde". Columns the generator does not write
      (time, duration, type) read back as empty text, overtime as false. */
  function MatchRows(order: seq<Match>): (rows: seq<Row>)
    ensures |rows| == |order|
    ensures forall i :: 0 <= i < |rows| ==>
      && rows[i].teamA == order[i].0 && rows[i].teamB == order[i].1
      && rows[i].scoreA == 0 && rows[i].scoreB == 0 && !rows[i].done
      && rows[i].phase == RoundPhase && rows[i].kind == ""
  {
    seq(|order|, i requires 0 <= i < |order| =>
      Row("", order[i].0, order[i].1, "", RoundPhase, "", 0, 0, false, false))
  }

  /** The rows with the type "Match" filled in. */
  function MatchRowsTyped(order: seq<Match>): (rows: seq<Row>)
    ensures |rows| == |order|
    ensures forall i :: 0 <= i < |rows| ==>
      && rows[i].teamA == order[i].0 && rows[i].teamB == order[i].1
      && rows[i].scoreA == 0 && rows[i].scoreB == 0 && !rows[i].done
      && IsMatchOf(rows[i], RoundPhase)
  {
    seq(|order|, i requires 0 <= i < |order| =>
      Row("", order[i].0, order[i].1, "", RoundPhase, MatchKind, 0, 0, false, false))
  }

  /** `rows` is `orig` after results were entered: only the scores and the
      finished and overtime flags differ. */
  predicate Edited(orig: seq<Row>, rows: seq<Row>)
  {
    |rows| == |orig|
    && forall i :: 0 <= i < |rows| ==>
         rows[i] == orig[i].(scoreA := rows[i].scoreA, scoreB := rows[i].scoreB,
                             done := rows[i].done, overtime := rows[i].overtime)
  }

  /** Generated rows have no type, so whatever results are entered, no round
      match is ever counted and the standings stay empty. */
  lemma GeneratedRoundNeverRanked(order: seq<Match>, rows: seq<Row>)
    requires Edited(MatchRows(order), rows)
    ensures ComputeStandings(rows) == []
  {
    var orig := MatchRows(order);
    forall i | 0 <= i < |rows|
      ensures !Counted(rows[i])
    {
      assert rows[i].kind == orig[i].kind;
    }
  }

  /** With the type filled in, a finished match makes the standings
      non-empty. */
  lemma TypedRoundIsRanked(order: seq<Match>, rows: seq<Row>, i: nat)
    requires Edited(MatchRowsTyped(order), rows) && i < |rows| && rows[i].done
    ensures |ComputeStandings(rows)| > 0
  {
    var orig := MatchRowsTyped(order);
    assert rows[i].kind == orig[i].kind && rows[i].phase == orig[i].phase;
    assert Counted(rows[i]);
  }
}
