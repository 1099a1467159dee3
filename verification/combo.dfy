/** `combo_teams` of `utils.py`: choose two of the four forward lines and two
    of the four defence pairs for team A (the rest go to team B), minimising
    the score gap plus a weighted replay penalty. */
module Combo {
  import opened Wrappers
  import opened Seqs
  import opened Items
  import opened Text
  import opened Pairings
  import opened Search

  type Line = seq<Item>

  /** `itertools.combinations([0, 1, 2, 3], 2)`, in order. */
  const Halves: seq<(nat, nat)> := [(0, 1), (0, 2), (0, 3), (1, 2), (1, 3), (2, 3)]

  /** Number of candidate splits: forward halves times defence halves. */
  const SplitCount: nat := 36

  /** The starting `best_cost`: a split costing this much or more is never kept. */
  const CostCeiling: real := 1_000_000_000.0

  /** The indices of `s` that are not in the pair `h`, in order. */
  function Keep(s: seq<nat>, h: (nat, nat)): (r: seq<nat>)
    ensures forall i :: 0 <= i < |r| ==> r[i] in s && r[i] != h.0 && r[i] != h.1
    decreases |s|
  {
    if |s| == 0 then []
    else (if s[0] != h.0 && s[0] != h.1 then [s[0]] else []) + Keep(s[1..], h)
  }

  /** `[i for i in [0, 1, 2, 3] if i not in h]`. */
  function Rest(h: (nat, nat)): (r: seq<nat>)
    ensures forall i :: 0 <= i < |r| ==> r[i] < 4
  {
    Keep([0, 1, 2, 3], h)
  }

  /** `Rest` of each half, in the order of `Halves`. */
  const Others: seq<seq<nat>> := [[2, 3], [1, 3], [1, 2], [0, 3], [0, 2], [0, 1]]

  lemma OthersAreRests(hi: nat)
    requires hi < |Halves|
    ensures Others[hi] == Rest(Halves[hi])
  {
    var h := Halves[hi];
    assert Keep([3], h) == (if 3 != h.0 && 3 != h.1 then [3] else []) + Keep([], h);
    assert Keep([2, 3], h) == (if 2 != h.0 && 2 != h.1 then [2] else []) + Keep([3], h);
    assert Keep([1, 2, 3], h) == (if 1 != h.0 && 1 != h.1 then [1] else []) + Keep([2, 3], h);
    assert Keep([0, 1, 2, 3], h) == (if 0 != h.0 && 0 != h.1 then [0] else []) + Keep([1, 2, 3], h);
  }

  function Pick(lines: seq<Line>, idx: seq<nat>): (r: seq<Line>)
    requires forall i :: 0 <= i < |idx| ==> idx[i] < |lines|
    ensures |r| == |idx|
  {
    seq(|idx|, i requires 0 <= i < |idx| => lines[idx[i]])
  }

  datatype Teams = Teams(aFw: seq<Line>, bFw: seq<Line>, aDf: seq<Line>, bDf: seq<Line>)

  /** The split visited at step `s` of the two nested loops: forward half
      `s / 6` and defence half `s % 6`. */
  function TeamsAt(fw: seq<Line>, df: seq<Line>, s: nat): Teams
    requires |fw| >= 4 && |df| >= 4 && s < SplitCount
  {
    var h := Halves[s / 6];
    var g := Halves[s % 6];
    Teams(Pick(fw, [h.0, h.1]), Pick(fw, Others[s / 6]), Pick(df, [g.0, g.1]), Pick(df, Others[s % 6]))
  }

  /** The sum of `f` over a list of lines. */
  function SumOf(lines: seq<Line>, f: Line -> int): int
    decreases |lines|
  {
    if |lines| == 0 then 0 else f(lines[0]) + SumOf(lines[1..], f)
  }

  lemma SumOfAppend(a: seq<Line>, b: seq<Line>, f: Line -> int)
    ensures SumOf(a + b, f) == SumOf(a, f) + SumOf(b, f)
    decreases |a|
  {
    if |a| == 0 {
      assert a + b == b;
    } else {
      assert (a + b)[0] == a[0];
      assert (a + b)[1..] == a[1..] + b;
      SumOfAppend(a[1..], b, f);
    }
  }

  lemma SumOfTwo(x: Line, y: Line, f: Line -> int)
    ensures SumOf([x, y], f) == f(x) + f(y)
  {
    assert [x, y][1..] == [y];
    assert [y][1..] == [];
    assert SumOf([y], f) == f(y);
  }

  lemma SumOfFour(lines: seq<Line>, f: Line -> int)
    requires |lines| >= 4
    ensures SumOf(lines[..4], f) == f(lines[0]) + f(lines[1]) + f(lines[2]) + f(lines[3])
  {
    var q := lines[..4];
    assert q[1..][1..] == [lines[2], lines[3]];
    SumOfTwo(lines[2], lines[3], f);
  }

  /** A half and its complement name each of the four lines once. */
  lemma HalfAndRestIndices(hi: nat)
    requires hi < |Halves|
    ensures |Others[hi]| == 2
    ensures multiset([Halves[hi].0, Halves[hi].1] + Others[hi]) == multiset{0, 1, 2, 3}
  {
    if hi < 2 {
      LowHalvesCover(hi);
    } else if hi < 4 {
      MiddleHalvesCover(hi);
    } else {
      HighHalvesCover(hi);
    }
  }

  lemma LowHalvesCover(hi: nat)
    requires hi < 2
    ensures |Others[hi]| == 2
    ensures multiset([Halves[hi].0, Halves[hi].1] + Others[hi]) == multiset{0, 1, 2, 3}
  {
    assert hi == 0 || hi == 1;
  }

  lemma MiddleHalvesCover(hi: nat)
    requires 2 <= hi < 4
    ensures |Others[hi]| == 2
    ensures multiset([Halves[hi].0, Halves[hi].1] + Others[hi]) == multiset{0, 1, 2, 3}
  {
    assert hi == 2 || hi == 3;
  }

  lemma HighHalvesCover(hi: nat)
    requires 4 <= hi < 6
    ensures |Others[hi]| == 2
    ensures multiset([Halves[hi].0, Halves[hi].1] + Others[hi]) == multiset{0, 1, 2, 3}
  {
    assert hi == 4 || hi == 5;
  }

  lemma PickTwo(lines: seq<Line>, i: nat, j: nat, f: Line -> int)
    requires i < |lines| && j < |lines|
    ensures SumOf(Pick(lines, [i, j]), f) == f(lines[i]) + f(lines[j])
  {
    assert Pick(lines, [i, j]) == [lines[i], lines[j]];
    SumOfTwo(lines[i], lines[j], f);
  }

  /** A half and its complement add up to the first four lines. */
  lemma HalfAndRest(lines: seq<Line>, hi: nat, f: Line -> int)
    requires |lines| >= 4 && hi < |Halves|
    ensures SumOf(Pick(lines, [Halves[hi].0, Halves[hi].1]), f) + SumOf(Pick(lines, Others[hi]), f)
            == SumOf(lines[..4], f)
  {
    var h, o := Halves[hi], Others[hi];
    PickTwo(lines, h.0, h.1, f);
    PickTwo(lines, o[0], o[1], f);
    assert o == [o[0], o[1]];
    SumOfFour(lines, f);
    var a, b, c, d := f(lines[0]), f(lines[1]), f(lines[2]), f(lines[3]);
    if hi == 0 {
      assert h == (0, 1) && o == [2, 3];
    } else if hi == 1 {
      assert h == (0, 2) && o == [1, 3];
    } else if hi == 2 {
      assert h == (0, 3) && o == [1, 2];
    } else if hi == 3 {
      assert h == (1, 2) && o == [0, 3];
    } else if hi == 4 {
      assert h == (1, 3) && o == [0, 2];
    } else {
      assert h == (2, 3) && o == [0, 1];
    }
  }

  /** Sum of the talents of all the lines (`total(lines)`). */
  function Talent(line: Line): int { Total(line) }

  function ScoreA(t: Teams): int { SumOf(t.aFw, Talent) + SumOf(t.aDf, Talent) }

  function ScoreB(t: Teams): int { SumOf(t.bFw, Talent) + SumOf(t.bDf, Talent) }

  function Names(line: Line): seq<string>
  {
    seq(|line|, i requires 0 <= i < |line| => line[i].name)
  }

  /** How a split is charged for players who have played together before. */
  datatype PenaltyMode =
    | PerLine  // pairs within each line of the team, as `pair_pen` counts them
    | PerTeam  // pairs anywhere within the team

  /** `pair_pen`: the ledger counts of the pairs inside each line, summed over the lines. */
  function LinesPenalty(ledger: Ledger, lines: seq<Line>): int
  {
    SumOf(lines, line => LinePenalty(ledger, Names(line)))
  }

  /** The replay penalty of one team made of `lines`. */
  function TeamPenalty(ledger: Ledger, lines: seq<Line>, mode: PenaltyMode): int
  {
    match mode
    case PerLine => LinesPenalty(ledger, lines)
    case PerTeam => LinePenalty(ledger, Names(Flatten(lines)))
  }

  function Penalty(ledger: Ledger, t: Teams, mode: PenaltyMode): int
  {
    TeamPenalty(ledger, t.aFw + t.aDf, mode) + TeamPenalty(ledger, t.bFw + t.bDf, mode)
  }

  function Gap(t: Teams): int { Abs(ScoreA(t) - ScoreB(t)) }

  /** `abs(scoreA - scoreB) + pair_penalty * penalty`. */
  function Cost(gap: int, w: real, penalty: int): real
  {
    gap as real + Scale(w, penalty)
  }

  /** `w * n`, spelled as repeated addition so that the solver keeps products
      out of the proofs about whole splits; `ScaleIsProduct` relates the two. */
  function Scale(w: real, n: int): real
    decreases if n < 0 then -n else n
  {
    if n == 0 then 0.0 else if n > 0 then Scale(w, n - 1) + w else Scale(w, n + 1) - w
  }

  lemma {:induction false} ScaleIsProduct(w: real, n: int)
    ensures Scale(w, n) == w * n as real
    decreases if n < 0 then -n else n
  {
    if n > 0 {
      ScaleIsProduct(w, n - 1);
    } else if n < 0 {
      ScaleIsProduct(w, n + 1);
    }
  }

  /** The cost of the split `t`. */
  function SplitCost(ledger: Ledger, w: real, t: Teams, mode: PenaltyMode): real
  {
    Cost(Gap(t), w, Penalty(ledger, t, mode))
  }

  /** The cost of every split, in loop order. */
  function Costs(fw: seq<Line>, df: seq<Line>, ledger: Ledger, w: real, mode: PenaltyMode): (cs: seq<Option<real>>)
    requires |fw| >= 4 && |df| >= 4
    ensures |cs| == SplitCount
    ensures forall s :: 0 <= s < SplitCount ==> cs[s].Some?
    ensures forall s {:trigger SplitCost(ledger, w, TeamsAt(fw, df, s), mode)} ::
      0 <= s < SplitCount ==> cs[s] == Some(SplitCost(ledger, w, TeamsAt(fw, df, s), mode))
  {
    seq(SplitCount, s requires 0 <= s < SplitCount => Some(SplitCost(ledger, w, TeamsAt(fw, df, s), mode)))
  }

  /** Split `s`, whose teams are `t`, costs the absolute difference of the
      two teams' scores plus the weight times the replayed-pair penalty of
      both teams. */
  lemma SplitCostIsWeighted(fw: seq<Line>, df: seq<Line>, ledger: Ledger, w: real, mode: PenaltyMode, s: nat, t: Teams)
    requires |fw| >= 4 && |df| >= 4 && s < SplitCount && t == TeamsAt(fw, df, s)
    ensures Costs(fw, df, ledger, w, mode)[s] == Some(Abs(ScoreA(t) - ScoreB(t)) as real + w * Penalty(ledger, t, mode) as real)
  {
    assert Costs(fw, df, ledger, w, mode)[s] == Some(SplitCost(ledger, w, t, mode));
    CostIsWeighted(ledger, w, t, mode);
  }

  lemma CostIsWeighted(ledger: Ledger, w: real, t: Teams, mode: PenaltyMode)
    ensures SplitCost(ledger, w, t, mode) == Abs(ScoreA(t) - ScoreB(t)) as real + w * Penalty(ledger, t, mode) as real
  {
    CostIsProduct(Gap(t), w, Penalty(ledger, t, mode));
  }

  lemma CostIsProduct(gap: int, w: real, penalty: int)
    ensures Cost(gap, w, penalty) == gap as real + w * penalty as real
  {
    ScaleIsProduct(w, penalty);
  }

  /** The dictionary `combo_teams` returns, with the loop step that produced it. */
  datatype Choice = Choice(split: nat, teams: Teams, scoreA: int, scoreB: int, cost: real)

  /** `r` is what the search must return over the split costs `cs`: the
      first split of least cost, and none exactly when every split costs at
      least the ceiling. */
  predicate BestChoice(fw: seq<Line>, df: seq<Line>, cs: seq<Option<real>>, r: Option<Choice>)
    requires |fw| >= 4 && |df| >= 4 && |cs| == SplitCount
    requires forall s :: 0 <= s < SplitCount ==> cs[s].Some?
  {
    && (r.None? <==> forall s :: 0 <= s < SplitCount ==> cs[s].value >= CostCeiling)
    && (r.Some? ==> var c := r.value;
      && c.split < SplitCount
      && c.teams == TeamsAt(fw, df, c.split)
      && c.scoreA == ScoreA(c.teams) && c.scoreB == ScoreB(c.teams)
      && c.cost == cs[c.split].value < CostCeiling
      && (forall s :: 0 <= s < SplitCount ==> c.cost <= cs[s].value)
      && (forall s :: 0 <= s < c.split ==> c.cost < cs[s].value))
  }

  /** `combo_teams` with the penalty counted as `mode` says: `PerLine` is the
      function as written. The choice is the first split of least cost, and
      there is none exactly when every split costs at least the ceiling. The
      caller must supply four forward lines and four defence pairs (only the
      first four of each are read). */
  function ComboTeams(fw: seq<Line>, df: seq<Line>, ledger: Ledger, w: real, mode: PenaltyMode): (r: Option<Choice>)
    requires |fw| >= 4 && |df| >= 4
    ensures BestChoice(fw, df, Costs(fw, df, ledger, w, mode), r)
  {
    var cs := Costs(fw, df, ledger, w, mode);
    Choose(fw, df, cs, FirstMin(cs, CostCeiling, 0, None, CostCeiling))
  }

  /** The dictionary built from the split the loop kept, if any. */
  function Choose(fw: seq<Line>, df: seq<Line>, cs: seq<Option<real>>, m: Option<nat>): (r: Option<Choice>)
    requires |fw| >= 4 && |df| >= 4 && |cs| == SplitCount
    requires forall s :: 0 <= s < SplitCount ==> cs[s].Some?
    requires m == FirstMin(cs, CostCeiling, 0, None, CostCeiling)
    ensures BestChoice(fw, df, cs, r)
  {
    MinOfCosts(cs, m);
    match m
    case None => None
    case Some(s) =>
      var t := TeamsAt(fw, df, s);
      Some(Choice(s, t, ScoreA(t), ScoreB(t), cs[s].value))
  }

  /** Over scores that are all present, the first minimum below the ceiling
      is the first split of least cost, and there is none exactly when no
      cost is below the ceiling. */
  lemma MinOfCosts(cs: seq<Option<real>>, m: Option<nat>)
    requires forall s :: 0 <= s < |cs| ==> cs[s].Some?
    requires m == FirstMin(cs, CostCeiling, 0, None, CostCeiling)
    ensures m.None? <==> forall s :: 0 <= s < |cs| ==> cs[s].value >= CostCeiling
    ensures m.Some? ==> && m.value < |cs| && cs[m.value].value < CostCeiling
                        && (forall s :: 0 <= s < |cs| ==> cs[m.value].value <= cs[s].value)
                        && (forall s :: 0 <= s < m.value ==> cs[m.value].value < cs[s].value)
  {
    if m.Some? {
      forall s | 0 <= s < |cs|
        ensures cs[m.value].value <= cs[s].value
      {
        if !Below(cs[s], CostCeiling) {}
      }
    } else {
      forall s | 0 <= s < |cs|
        ensures cs[s].value >= CostCeiling
      {
        assert !Below(cs[s], CostCeiling);
      }
    }
  }

  /** Every split gives each team two forward lines and two defence pairs,
      uses each of the first four lines of each kind once, and the two team
      scores add up to the talent of all eight lines. */
  lemma SplitPartitions(fw: seq<Line>, df: seq<Line>, s: nat)
    requires |fw| >= 4 && |df| >= 4 && s < SplitCount
    ensures var t := TeamsAt(fw, df, s);
      && |t.aFw| == |t.bFw| == |t.aDf| == |t.bDf| == 2
      && multiset([Halves[s / 6].0, Halves[s / 6].1] + Others[s / 6]) == multiset{0, 1, 2, 3}
      && multiset([Halves[s % 6].0, Halves[s % 6].1] + Others[s % 6]) == multiset{0, 1, 2, 3}
      && ScoreA(t) + ScoreB(t) == SumOf(fw[..4], Talent) + SumOf(df[..4], Talent)
  {
    HalfAndRestIndices(s / 6);
    HalfAndRestIndices(s % 6);
    HalfAndRest(fw, s / 6, Talent);
    HalfAndRest(df, s % 6, Talent);
  }

  /** Per line, the replay penalty of a split is the penalty of all eight lines. */
  lemma {:induction false} PerLinePenaltyConstant(fw: seq<Line>, df: seq<Line>, ledger: Ledger, s: nat)
    requires |fw| >= 4 && |df| >= 4 && s < SplitCount
    ensures Penalty(ledger, TeamsAt(fw, df, s), PerLine) == LinesPenalty(ledger, fw[..4]) + LinesPenalty(ledger, df[..4])
  {
    var t := TeamsAt(fw, df, s);
    var f := line => LinePenalty(ledger, Names(line));
    SumOfAppend(t.aFw, t.aDf, f);
    SumOfAppend(t.bFw, t.bDf, f);
    HalfAndRest(fw, s / 6, f);
    HalfAndRest(df, s % 6, f);
  }

  /** As written, the ledger never decides the choice: whatever it holds and
      whatever the weight, a chosen split is the first one with the smallest
      score gap among all 36. */
  lemma PenaltyNeverDecides(fw: seq<Line>, df: seq<Line>, ledger: Ledger, w: real)
    requires |fw| >= 4 && |df| >= 4
    ensures var r := ComboTeams(fw, df, ledger, w, PerLine);
      r.Some? ==>
        && (forall s :: 0 <= s < SplitCount ==> Gap(r.value.teams) <= Gap(TeamsAt(fw, df, s)))
        && (forall s :: 0 <= s < r.value.split ==> Gap(r.value.teams) < Gap(TeamsAt(fw, df, s)))
  {
    var r := ComboTeams(fw, df, ledger, w, PerLine);
    var cs := Costs(fw, df, ledger, w, PerLine);
    if r.Some? {
      var c := r.value;
      forall s | 0 <= s < SplitCount
        ensures Gap(c.teams) <= Gap(TeamsAt(fw, df, s))
        ensures s < c.split ==> Gap(c.teams) < Gap(TeamsAt(fw, df, s))
      {
        CostsFollowGaps(fw, df, ledger, w, c.split, s);
        assert cs[s].value == SplitCost(ledger, w, TeamsAt(fw, df, s), PerLine);
      }
    }
  }

  /** Per line, two splits' costs compare as their gaps do. */
  lemma CostsFollowGaps(fw: seq<Line>, df: seq<Line>, ledger: Ledger, w: real, s1: nat, s2: nat)
    requires |fw| >= 4 && |df| >= 4 && s1 < SplitCount && s2 < SplitCount
    ensures var t1, t2 := TeamsAt(fw, df, s1), TeamsAt(fw, df, s2);
      && (SplitCost(ledger, w, t1, PerLine) <= SplitCost(ledger, w, t2, PerLine) <==> Gap(t1) <= Gap(t2))
      && (SplitCost(ledger, w, t1, PerLine) < SplitCost(ledger, w, t2, PerLine) <==> Gap(t1) < Gap(t2))
  {
    var t1, t2 := TeamsAt(fw, df, s1), TeamsAt(fw, df, s2);
    var p := LinesPenalty(ledger, fw[..4]) + LinesPenalty(ledger, df[..4]);
    PerLinePenaltyConstant(fw, df, ledger, s1);
    PerLinePenaltyConstant(fw, df, ledger, s2);
    SplitCostWith(ledger, w, t1, PerLine, p);
    SplitCostWith(ledger, w, t2, PerLine, p);
    CostOrder(Gap(t1), Gap(t2), w, p);
  }

  lemma SplitCostWith(ledger: Ledger, w: real, t: Teams, mode: PenaltyMode, p: int)
    requires Penalty(ledger, t, mode) == p
    ensures SplitCost(ledger, w, t, mode) == Cost(Gap(t), w, p)
  {
  }

  /** With the penalty fixed, costs order splits exactly as their gaps do. */
  lemma CostOrder(g1: int, g2: int, w: real, p: int)
    ensures Cost(g1, w, p) <= Cost(g2, w, p) <==> g1 <= g2
    ensures Cost(g1, w, p) < Cost(g2, w, p) <==> g1 < g2
  {
  }

  /** With the gap fixed and a positive weight, costs order splits exactly as their penalties do. */
  lemma CostPenaltyOrder(g: int, w: real, p1: int, p2: int)
    requires w > 0.0
    ensures Cost(g, w, p1) < Cost(g, w, p2) <==> p1 < p2
  {
    if p1 < p2 {
      ScaleGrows(w, p1, p2);
    } else if p2 < p1 {
      ScaleGrows(w, p2, p1);
    }
  }

  lemma ScaleStep(w: real, n: int)
    ensures Scale(w, n + 1) == Scale(w, n) + w
  {
  }

  lemma {:induction false} ScaleGrows(w: real, m: int, n: int)
    requires w > 0.0 && m < n
    ensures Scale(w, m) < Scale(w, n)
    decreases n - m
  {
    ScaleStep(w, n - 1);
    if m < n - 1 {
      ScaleGrows(w, m, n - 1);
    }
  }

  /** Counted per team, the ledger does steer the choice: of two splits with
      the same gap, the one whose teammates have played together more is never
      chosen over one that can be kept. */
  lemma PenaltySteersChoice(fw: seq<Line>, df: seq<Line>, ledger: Ledger, w: real, s1: nat, s2: nat)
    requires |fw| >= 4 && |df| >= 4 && w > 0.0
    requires s1 < SplitCount && s2 < SplitCount
    requires Gap(TeamsAt(fw, df, s1)) == Gap(TeamsAt(fw, df, s2))
    requires Penalty(ledger, TeamsAt(fw, df, s1), PerTeam) < Penalty(ledger, TeamsAt(fw, df, s2), PerTeam)
    requires SplitCost(ledger, w, TeamsAt(fw, df, s1), PerTeam) < CostCeiling
    ensures var r := ComboTeams(fw, df, ledger, w, PerTeam);
      r.Some? && r.value.split != s2
  {
    var t1, t2 := TeamsAt(fw, df, s1), TeamsAt(fw, df, s2);
    var cs := Costs(fw, df, ledger, w, PerTeam);
    var p1, p2 := Penalty(ledger, t1, PerTeam), Penalty(ledger, t2, PerTeam);
    CostPenaltyOrder(Gap(t1), w, p1, p2);
    assert cs[s1].value < cs[s2].value;
  }
}
