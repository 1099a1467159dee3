/** Bracket progression of `pages/6_Tournoi_en_cours.py`: seeding the
    semi-finals from the standings, sending the semi-final winners to the
    final, naming the champion and resetting the scores. Each is a pure
    transformer of the loaded rows. */
module Bracket {
  import opened Wrappers
  import opened Rows
  import opened Sorting
  import opened Standings

  /** The positions of the match rows of `phase`, in table order (the index
      list of a pandas filter). */
  function MatchIndices(rows: seq<Row>, phase: string): (ix: seq<nat>)
    ensures forall j :: 0 <= j < |ix| ==> ix[j] < |rows| && IsMatchOf(rows[ix[j]], phase)
    ensures forall i :: 0 <= i < |rows| && IsMatchOf(rows[i], phase) ==> i in ix
    ensures forall j, l :: 0 <= j < l < |ix| ==> ix[j] < ix[l]
    decreases |rows|
  {
    if |rows| == 0 then []
    else
      var prev := MatchIndices(rows[..|rows| - 1], phase);
      if IsMatchOf(rows[|rows| - 1], phase) then prev + [|rows| - 1] else prev
  }

  /** `update_semifinals_names`: with two semi-finals and four ranked teams,
      the first semi-final becomes 1st v 4th and the second 2nd v 3rd; every
      other row, and every other field of those two, stays as it was.
      Otherwise nothing changes. */
  function UpdateSemifinals(rows: seq<Row>, st: seq<Standing>): (r: seq<Row>)
    ensures |r| == |rows|
    ensures var semis := MatchIndices(rows, SemiPhase);
      if |semis| < 2 || |st| < 4 then r == rows
      else
        && r[semis[0]] == rows[semis[0]].(teamA := st[0].team, teamB := st[3].team)
        && r[semis[1]] == rows[semis[1]].(teamA := st[1].team, teamB := st[2].team)
        && forall i :: 0 <= i < |rows| && i != semis[0] && i != semis[1] ==> r[i] == rows[i]
  {
    var semis := MatchIndices(rows, SemiPhase);
    if |semis| < 2 || |st| < 4 then rows
    else
      var first := rows[semis[0] := rows[semis[0]].(teamA := st[0].team, teamB := st[3].team)];
      first[semis[1] := rows[semis[1]].(teamA := st[1].team, teamB := st[2].team)]
  }

  /** Seeded from the computed standings, each semi-final puts the better
      ranked team as team A: ranks 1 and 4 meet first, ranks 2 and 3 second. */
  lemma SeedingFollowsRanking(rows: seq<Row>, bracket: seq<Row>)
    requires |MatchIndices(bracket, SemiPhase)| >= 2 && |ComputeStandings(rows)| >= 4
    ensures var st := ComputeStandings(rows);
      var r := UpdateSemifinals(bracket, st);
      var semis := MatchIndices(bracket, SemiPhase);
      && r[semis[0]].teamA == st[0].team && st[0].rank == 1
      && r[semis[0]].teamB == st[3].team && st[3].rank == 4
      && r[semis[1]].teamA == st[1].team && st[1].rank == 2
      && r[semis[1]].teamB == st[2].team && st[2].rank == 3
      && KeyLe(StandingKey(st[3]), StandingKey(st[0]))
      && KeyLe(StandingKey(st[2]), StandingKey(st[1]))
  {
  }

  /** The winner of a match row, none on a tie. */
  function Winner(r: Row): (w: Option<string>)
    ensures w.Some? <==> r.scoreA != r.scoreB
    ensures w.Some? ==> w.value == (if r.scoreA > r.scoreB then r.teamA else r.teamB)
  {
    if r.scoreA > r.scoreB then Some(r.teamA)
    else if r.scoreB > r.scoreA then Some(r.teamB)
    else None
  }

  /** The winners of the listed rows, ties skipped, in order. */
  function Winners(rows: seq<Row>, ix: seq<nat>): (ws: seq<string>)
    requires forall j :: 0 <= j < |ix| ==> ix[j] < |rows|
    ensures |ws| <= |ix|
    decreases |ix|
  {
    if |ix| == 0 then []
    else
      var rest := Winners(rows, ix[1..]);
      match Winner(rows[ix[0]])
      case Some(w) => [w] + rest
      case None => rest
  }

  /** Every listed row is finished. */
  predicate AllDone(rows: seq<Row>, ix: seq<nat>)
    requires forall j :: 0 <= j < |ix| ==> ix[j] < |rows|
  {
    forall j :: 0 <= j < |ix| ==> rows[ix[j]].done
  }

  /** The gate of `update_final_names`: at least two semi-finals, all
      finished, a final to fill, and exactly two decided semi-finals. */
  predicate FinalReady(rows: seq<Row>)
  {
    var semis := MatchIndices(rows, SemiPhase);
    var fins := MatchIndices(rows, FinalPhase);
    && |semis| >= 2 && |fins| >= 1 && AllDone(rows, semis)
    && |Winners(rows, semis)| == 2
  }

  /** `update_final_names`: when the gate holds, the first final takes the two
      winners in semi-final order and nothing else changes; otherwise the
      rows are returned as they were. */
  function UpdateFinal(rows: seq<Row>): (r: seq<Row>)
    ensures |r| == |rows|
    ensures !FinalReady(rows) ==> r == rows
    ensures FinalReady(rows) ==>
      var f := MatchIndices(rows, FinalPhase)[0];
      var ws := Winners(rows, MatchIndices(rows, SemiPhase));
      && r[f] == rows[f].(teamA := ws[0], teamB := ws[1])
      && forall i :: 0 <= i < |rows| && i != f ==> r[i] == rows[i]
  {
    if !FinalReady(rows) then rows
    else
      var f := MatchIndices(rows, FinalPhase)[0];
      var ws := Winners(rows, MatchIndices(rows, SemiPhase));
      rows[f := rows[f].(teamA := ws[0], teamB := ws[1])]
  }

  /** With exactly two semi-finals, both finished and both decided, the first
      final is the first semi-final's winner against the second's. */
  lemma FinalTakesSemiWinners(rows: seq<Row>)
    requires |MatchIndices(rows, SemiPhase)| == 2
    requires |MatchIndices(rows, FinalPhase)| >= 1
    requires var semis := MatchIndices(rows, SemiPhase);
      && rows[semis[0]].done && rows[semis[1]].done
      && Winner(rows[semis[0]]).Some? && Winner(rows[semis[1]]).Some?
    ensures var semis := MatchIndices(rows, SemiPhase);
      var f := MatchIndices(rows, FinalPhase)[0];
      && UpdateFinal(rows)[f].teamA == Winner(rows[semis[0]]).value
      && UpdateFinal(rows)[f].teamB == Winner(rows[semis[1]]).value
  {
    var semis := MatchIndices(rows, SemiPhase);
    assert semis[1..][1..] == [];
    assert Winners(rows, semis) == [Winner(rows[semis[0]]).value, Winner(rows[semis[1]]).value];
  }

  /** A tied semi-final among exactly two leaves the final untouched. */
  lemma TiedSemiKeepsFinal(rows: seq<Row>, j: nat)
    requires |MatchIndices(rows, SemiPhase)| == 2 && j < 2
    requires Winner(rows[MatchIndices(rows, SemiPhase)[j]]).None?
    ensures UpdateFinal(rows) == rows
  {
    var semis := MatchIndices(rows, SemiPhase);
    assert semis[1..][1..] == [];
    assert semis[1..][0] == semis[1];
    assert |Winners(rows, semis)| < 2;
  }

  /** `champion_if_ready`: empty unless the first final is finished; then its
      team A when A scored more, and team B otherwise, a tie included. */
  function Champion(rows: seq<Row>): (c: string)
    ensures var fins := MatchIndices(rows, FinalPhase);
      (|fins| == 0 || !rows[fins[0]].done) ==> c == ""
    ensures var fins := MatchIndices(rows, FinalPhase);
      |fins| > 0 && rows[fins[0]].done ==>
        c == (if rows[fins[0]].scoreA > rows[fins[0]].scoreB then rows[fins[0]].teamA else rows[fins[0]].teamB)
  {
    var fins := MatchIndices(rows, FinalPhase);
    if |fins| == 0 || !rows[fins[0]].done then ""
    else
      var f := rows[fins[0]];
      if f.scoreA > f.scoreB then f.teamA else f.teamB
  }

  /** A finished final that was filled from two decided semi-finals crowns
      one of their winners: the first one's when the final's team A scored
      more, the second one's otherwise. */
  lemma ChampionIsSemiWinner(rows: seq<Row>)
    requires FinalReady(rows)
    requires var f := MatchIndices(rows, FinalPhase)[0]; rows[f].done
    ensures var ws := Winners(rows, MatchIndices(rows, SemiPhase));
      var f := MatchIndices(rows, FinalPhase)[0];
      Champion(UpdateFinal(rows)) == (if rows[f].scoreA > rows[f].scoreB then ws[0] else ws[1])
  {
    var r := UpdateFinal(rows);
    FinalIndicesKept(rows, r);
  }

  /** Renaming teams keeps the phase and kind of every row, hence the final's
      position. */
  lemma {:induction false} FinalIndicesKept(rows: seq<Row>, r: seq<Row>)
    requires |r| == |rows|
    requires forall i :: 0 <= i < |rows| ==> r[i].phase == rows[i].phase && r[i].kind == rows[i].kind
    ensures MatchIndices(r, FinalPhase) == MatchIndices(rows, FinalPhase)
    decreases |rows|
  {
    if |rows| > 0 {
      FinalIndicesKept(rows[..|rows| - 1], r[..|r| - 1]);
    }
  }

  /** The reset of line 283: every match row loses its scores and its
      finished and overtime flags; pauses and every other field are kept. */
  function ResetScores(rows: seq<Row>): (r: seq<Row>)
    ensures |r| == |rows|
    ensures forall i :: 0 <= i < |rows| ==>
      r[i] == if rows[i].kind == MatchKind
              then rows[i].(scoreA := 0, scoreB := 0, done := false, overtime := false)
              else rows[i]
  {
    seq(|rows|, i requires 0 <= i < |rows| =>
      if rows[i].kind == MatchKind
      then rows[i].(scoreA := 0, scoreB := 0, done := false, overtime := false)
      else rows[i])
  }

  /** After a reset no round match counts, so the standings are empty and no
      champion is named; a second reset changes nothing. */
  lemma ResetClearsTournament(rows: seq<Row>)
    ensures ComputeStandings(ResetScores(rows)) == []
    ensures Champion(ResetScores(rows)) == ""
    ensures ResetScores(ResetScores(rows)) == ResetScores(rows)
  {
    var r := ResetScores(rows);
    FinalIndicesKept(rows, r);
    var fins := MatchIndices(r, FinalPhase);
    if |fins| > 0 {
      assert r[fins[0]].kind == MatchKind;
    }
  }
}
