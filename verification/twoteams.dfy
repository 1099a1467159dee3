/** The exhaustive two-team split of `equipes_hockey.py`
    (`creer_equipes_par_poste`): team 1 takes every combination of attackers
    and of defenders in turn, team 2 the remaining players, and the split with
    the smallest talent difference, the first on a tie, is kept. */
module TwoTeams {
  import opened Seqs

  /** A `(nom, poste, talent)` tuple as entered on the page. */
  datatype Entry = Entry(name: string, position: string, talent: int)

  const Attacker: string := "Attaquant"
  const Defender: string := "Défenseur"

  /** `[j for j in joueurs if j[1] == pos]`. */
  function OfPosition(s: seq<Entry>, pos: string): (r: seq<Entry>)
    ensures |r| <= |s|
    ensures forall x :: x in r <==> x in s && x.position == pos
    decreases |s|
  {
    if |s| == 0 then []
    else
      var prev := OfPosition(s[..|s| - 1], pos);
      assert forall x :: x in s <==> x in s[..|s| - 1] || x == s[|s| - 1];
      if s[|s| - 1].position == pos then prev + [s[|s| - 1]] else prev
  }

  /** Every entry is an attacker or a defender: what the page's selector allows. */
  predicate Positioned(s: seq<Entry>)
  {
    forall i :: 0 <= i < |s| ==> s[i].position == Attacker || s[i].position == Defender
  }

  /** With only the two selectable positions, the two pools share the players
      out between them, none lost and none counted twice. */
  lemma {:induction false} PoolsPartition(s: seq<Entry>)
    requires Positioned(s)
    ensures multiset(OfPosition(s, Attacker)) + multiset(OfPosition(s, Defender)) == multiset(s)
    decreases |s|
  {
    if |s| > 0 {
      var n := |s| - 1;
      assert Positioned(s[..n]);
      PoolsPartition(s[..n]);
      assert s == s[..n] + [s[n]];
      assert multiset(s) == multiset(s[..n]) + multiset{s[n]};
    }
  }

  /** `c` keeps some of the elements of `s`, in their order. */
  predicate IsSubseq<T(==)>(c: seq<T>, s: seq<T>)
    decreases |s|
  {
    |c| == 0 || (|s| > 0 && ((c[0] == s[0] && IsSubseq(c[1..], s[1..])) || IsSubseq(c, s[1..])))
  }

  /** `itertools.combinations(s, k)`: every choice of `k` elements of `s`,
      kept in their order, listed in lexicographic order of positions. */
  function Combinations<T>(s: seq<T>, k: nat): (cs: seq<seq<T>>)
    ensures |cs| > 0 <==> k <= |s|
    ensures forall i :: 0 <= i < |cs| ==> |cs[i]| == k && IsSubseq(cs[i], s)
    decreases |s|
  {
    if k == 0 then [[]]
    else if |s| == 0 then []
    else
      var with := Combinations(s[1..], k - 1);
      var without := Combinations(s[1..], k);
      seq(|with|, i requires 0 <= i < |with| => [s[0]] + with[i]) + without
  }

  /** Every choice of `k` elements of `s` is enumerated. */
  lemma {:induction false} CombinationsComplete<T>(s: seq<T>, c: seq<T>)
    requires IsSubseq(c, s)
    ensures c in Combinations(s, |c|)
    decreases |s|
  {
    if |c| == 0 {
      assert Combinations(s, 0)[0] == c;
    } else if c[0] == s[0] && IsSubseq(c[1..], s[1..]) {
      CombinationsComplete(s[1..], c[1..]);
      WithHead(s, c);
    } else {
      CombinationsComplete(s[1..], c);
      WithoutHead(s, c);
    }
  }

  /** A choice that takes the first element is listed among the first block. */
  lemma WithHead<T>(s: seq<T>, c: seq<T>)
    requires |s| > 0 && |c| > 0 && c[0] == s[0]
    requires c[1..] in Combinations(s[1..], |c| - 1)
    ensures c in Combinations(s, |c|)
  {
    var with := Combinations(s[1..], |c| - 1);
    var i :| 0 <= i < |with| && with[i] == c[1..];
    assert Combinations(s, |c|)[i] == [s[0]] + c[1..] == c;
  }

  /** A choice that skips the first element is listed among the second block. */
  lemma WithoutHead<T>(s: seq<T>, c: seq<T>)
    requires |s| > 0 && |c| > 0
    requires c in Combinations(s[1..], |c|)
    ensures c in Combinations(s, |c|)
  {
  }

  /** `[a for a in s if a not in chosen]`. */
  function Rest(s: seq<Entry>, chosen: seq<Entry>): (r: seq<Entry>)
    ensures forall x :: x in r <==> x in s && x !in chosen
    decreases |s|
  {
    if |s| == 0 then []
    else
      var prev := Rest(s[..|s| - 1], chosen);
      assert forall x :: x in s <==> x in s[..|s| - 1] || x == s[|s| - 1];
      if s[|s| - 1] in chosen then prev else prev + [s[|s| - 1]]
  }

  /** Removing by value only looks at which elements of `s` are chosen. */
  lemma {:induction false} RestSame(s: seq<Entry>, c: seq<Entry>, d: seq<Entry>)
    requires forall x :: x in s ==> (x in c <==> x in d)
    ensures Rest(s, c) == Rest(s, d)
    decreases |s|
  {
    if |s| > 0 {
      RestSame(s[..|s| - 1], c, d);
    }
  }

  /** Removing from the front: the first element goes unless it is chosen. */
  lemma {:induction false} RestCons(s: seq<Entry>, c: seq<Entry>)
    requires |s| > 0
    ensures Rest(s, c) == (if s[0] in c then [] else [s[0]]) + Rest(s[1..], c)
    decreases |s|
  {
    if |s| > 1 {
      RestCons(s[..|s| - 1], c);
      assert s[..|s| - 1][1..] == s[1..][..|s[1..]| - 1];
    } else {
      assert s[1..] == [];
    }
  }

  lemma SubseqMembers<T>(c: seq<T>, s: seq<T>)
    requires IsSubseq(c, s)
    ensures forall x :: x in c ==> x in s
    decreases |s|
  {
    if |c| > 0 {
      if c[0] == s[0] && IsSubseq(c[1..], s[1..]) {
        SubseqMembers(c[1..], s[1..]);
        assert forall x :: x in c ==> x == c[0] || x in c[1..];
      } else {
        SubseqMembers(c, s[1..]);
      }
    }
  }

  /** Over distinct players, a combination and the players left over split
      the pool exactly. */
  lemma {:induction false} ChosenAndRestPartition(s: seq<Entry>, c: seq<Entry>)
    requires Distinct(s) && IsSubseq(c, s)
    ensures multiset(c) + multiset(Rest(s, c)) == multiset(s)
    decreases |s|
  {
    if |s| > 0 {
      HeadIsNew(s);
      if |c| > 0 && c[0] == s[0] && IsSubseq(c[1..], s[1..]) {
        ChosenAndRestPartition(s[1..], c[1..]);
        RestTaken(s, c);
        TakeHead(s, c, Rest(s, c));
      } else {
        ChosenAndRestPartition(s[1..], c);
        RestSkipped(s, c);
        SkipHead(s, c, Rest(s[1..], c));
      }
    }
  }

  lemma HeadIsNew(s: seq<Entry>)
    requires Distinct(s) && |s| > 0
    ensures Distinct(s[1..]) && s[0] !in s[1..]
  {
  }

  /** The first player was chosen: it leaves the pool with the combination. */
  lemma TakeHead(s: seq<Entry>, c: seq<Entry>, rest: seq<Entry>)
    requires |s| > 0 && |c| > 0 && c[0] == s[0]
    requires multiset(c[1..]) + multiset(rest) == multiset(s[1..])
    ensures multiset(c) + multiset(rest) == multiset(s)
  {
    assert multiset(c) == multiset{c[0]} + multiset(c[1..]) by {
      assert c == [c[0]] + c[1..];
    }
    assert multiset(s) == multiset{s[0]} + multiset(s[1..]) by {
      assert s == [s[0]] + s[1..];
    }
  }

  lemma RestTaken(s: seq<Entry>, c: seq<Entry>)
    requires |s| > 0 && |c| > 0 && c[0] == s[0] && IsSubseq(c[1..], s[1..]) && s[0] !in s[1..]
    ensures Rest(s, c) == Rest(s[1..], c[1..])
  {
    RestCons(s, c);
    assert c[0] in c;
    assert Rest(s, c) == Rest(s[1..], c);
    PastTheHead(s, c);
    RestSame(s[1..], c, c[1..]);
  }

  /** Past the shared head, `c` and its tail choose the same players. */
  lemma PastTheHead(s: seq<Entry>, c: seq<Entry>)
    requires |s| > 0 && |c| > 0 && c[0] == s[0] && s[0] !in s[1..]
    ensures forall x :: x in s[1..] ==> (x in c <==> x in c[1..])
  {
    assert c == [c[0]] + c[1..];
  }

  /** The first player was not chosen: it stays with the rest. */
  lemma RestSkipped(s: seq<Entry>, c: seq<Entry>)
    requires |s| > 0 && IsSubseq(c, s[1..]) && s[0] !in s[1..]
    ensures Rest(s, c) == [s[0]] + Rest(s[1..], c)
  {
    RestCons(s, c);
    SubseqMembers(c, s[1..]);
  }

  lemma SkipHead(s: seq<Entry>, c: seq<Entry>, rest: seq<Entry>)
    requires |s| > 0
    requires multiset(c) + multiset(rest) == multiset(s[1..])
    ensures multiset(c) + multiset([s[0]] + rest) == multiset(s)
  {
    assert s == [s[0]] + s[1..];
  }

  /** Sum of the talents (`sum(j[2] for j in equipe)`). */
  function Sum(s: seq<Entry>): int
  {
    if |s| == 0 then 0 else Sum(s[..|s| - 1]) + s[|s| - 1].talent
  }

  /** The pools and the combination sizes used by `creer_equipes_par_poste`. */
  function Attackers(players: seq<Entry>): seq<Entry> { OfPosition(players, Attacker) }

  function Defenders(players: seq<Entry>): seq<Entry> { OfPosition(players, Defender) }

  function AttackerChoices(players: seq<Entry>, nbAtt: nat): seq<seq<Entry>>
  {
    var att := Attackers(players);
    Combinations(att, Min(nbAtt, |att| / 2))
  }

  function DefenderChoices(players: seq<Entry>, nbDef: nat): seq<seq<Entry>>
  {
    var def := Defenders(players);
    Combinations(def, Min(nbDef, |def| / 2))
  }

  /** The two teams of one enumerated split. */
  function Team1(a: seq<Entry>, d: seq<Entry>): seq<Entry> { a + d }

  function Team2(players: seq<Entry>, a: seq<Entry>, d: seq<Entry>): seq<Entry>
  {
    Rest(Attackers(players), a) + Rest(Defenders(players), d)
  }

  /** `abs(somme1 - somme2)` for one split. */
  function Gap(players: seq<Entry>, a: seq<Entry>, d: seq<Entry>): int
  {
    Abs(Sum(Team1(a, d)) - Sum(Team2(players, a, d)))
  }

  /** Split `(i', j')` is enumerated before split `(i, j)`. */
  predicate Earlier(i': int, j': int, i: int, j: int)
  {
    i' < i || (i' == i && j' < j)
  }

  /** The double loop `if diff < meilleure_diff: ...` over a table of split
      gaps, rows in attacker-combination order and columns in
      defender-combination order. Starting from `float("inf")`, the first
      split is always taken; later ones replace it only when strictly better,
      so the first smallest gap is kept. */
  method FirstBestSplit(gaps: seq<seq<int>>, cols: nat) returns (bi: nat, bj: nat)
    requires |gaps| > 0 && cols > 0
    requires forall i :: 0 <= i < |gaps| ==> |gaps[i]| == cols
    ensures bi < |gaps| && bj < cols
    ensures forall i, j :: 0 <= i < |gaps| && 0 <= j < cols ==> gaps[bi][bj] <= gaps[i][j]
    ensures forall i, j :: 0 <= i < |gaps| && 0 <= j < cols && Earlier(i, j, bi, bj) ==> gaps[bi][bj] < gaps[i][j]
  {
    bi, bj := 0, 0;
    var best := gaps[0][0];
    var i := 0;
    while i < |gaps|
      invariant 0 <= i <= |gaps|
      invariant bi < |gaps| && bj < cols && best == gaps[bi][bj]
      invariant i == 0 ==> bi == 0 && bj == 0
      invariant i > 0 ==> bi < i
      invariant forall i', j' :: 0 <= i' < i && 0 <= j' < cols ==> best <= gaps[i'][j']
      invariant forall i', j' :: 0 <= i' < |gaps| && 0 <= j' < cols && Earlier(i', j', bi, bj) ==> best < gaps[i'][j']
    {
      var j := 0;
      while j < cols
        invariant 0 <= j <= cols
        invariant bi < |gaps| && bj < cols && best == gaps[bi][bj]
        invariant bi < i || (bi == i && bj <= j)
        invariant forall i', j' :: 0 <= i' < |gaps| && 0 <= j' < cols && Earlier(i', j', i, j) ==> best <= gaps[i'][j']
        invariant forall i', j' :: 0 <= i' < |gaps| && 0 <= j' < cols && Earlier(i', j', bi, bj) ==> best < gaps[i'][j']
      {
        if gaps[i][j] < best {
          bi, bj, best := i, j, gaps[i][j];
        }
        j := j + 1;
      }
      i := i + 1;
    }
  }

  /** Split `(i, j)` has the smallest gap of all enumerated splits, and a
      strictly smaller one than every split enumerated before it. */
  predicate FirstBest(players: seq<Entry>, ca: seq<seq<Entry>>, cd: seq<seq<Entry>>, i: nat, j: nat)
    requires i < |ca| && j < |cd|
  {
    && (forall i', j' :: 0 <= i' < |ca| && 0 <= j' < |cd| ==> Gap(players, ca[i], cd[j]) <= Gap(players, ca[i'], cd[j']))
    && (forall i', j' :: 0 <= i' < |ca| && 0 <= j' < |cd| && Earlier(i', j', i, j) ==> Gap(players, ca[i], cd[j]) < Gap(players, ca[i'], cd[j']))
  }

  /** `creer_equipes_par_poste(joueurs, nb_attaquants, nb_defenseurs)`: team 1
      and team 2 of the first enumerated split with the smallest gap, and
      that gap. Since every combination size is at most the pool size, there
      is always a split to return. */
  method CreateTeamsByPosition(players: seq<Entry>, nbAtt: nat, nbDef: nat)
    returns (team1: seq<Entry>, team2: seq<Entry>, diff: int)
    ensures diff == Abs(Sum(team1) - Sum(team2))
    ensures |team1| == Min(nbAtt, |Attackers(players)| / 2) + Min(nbDef, |Defenders(players)| / 2)
    ensures var ca := AttackerChoices(players, nbAtt);
      var cd := DefenderChoices(players, nbDef);
      exists i: nat, j: nat :: && i < |ca| && j < |cd|
                     && team1 == Team1(ca[i], cd[j]) && team2 == Team2(players, ca[i], cd[j])
                     && FirstBest(players, ca, cd, i, j)
  {
    var ca := AttackerChoices(players, nbAtt);
    var cd := DefenderChoices(players, nbDef);
    team1, team2, diff := BestSplit(players, ca, cd);
    ghost var i: nat, j: nat :| && i < |ca| && j < |cd|
                     && team1 == Team1(ca[i], cd[j]) && team2 == Team2(players, ca[i], cd[j])
                     && FirstBest(players, ca, cd, i, j);
    TeamSize(players, nbAtt, nbDef, ca[i], cd[j]);
  }

  /** Team 1 of any enumerated split holds the chosen number of each. */
  lemma TeamSize(players: seq<Entry>, nbAtt: nat, nbDef: nat, a: seq<Entry>, d: seq<Entry>)
    requires a in AttackerChoices(players, nbAtt) && d in DefenderChoices(players, nbDef)
    ensures |Team1(a, d)| == Min(nbAtt, |Attackers(players)| / 2) + Min(nbDef, |Defenders(players)| / 2)
  {
  }

  /** The loops of `creer_equipes_par_poste` over given lists of attacker and
      defender choices: the teams of the first split with the smallest gap. */
  method BestSplit(players: seq<Entry>, ca: seq<seq<Entry>>, cd: seq<seq<Entry>>)
    returns (team1: seq<Entry>, team2: seq<Entry>, diff: int)
    requires |ca| > 0 && |cd| > 0
    ensures diff == Abs(Sum(team1) - Sum(team2))
    ensures exists i: nat, j: nat :: && i < |ca| && j < |cd|
                     && team1 == Team1(ca[i], cd[j]) && team2 == Team2(players, ca[i], cd[j])
                     && FirstBest(players, ca, cd, i, j)
  {
    var gaps := GapTable(players, ca, cd);
    var bi, bj := FirstBestSplit(gaps, |cd|);
    team1 := Team1(ca[bi], cd[bj]);
    team2 := Team2(players, ca[bi], cd[bj]);
    diff := gaps[bi][bj];
    BestOfTable(players, ca, cd, gaps, bi, bj);
  }

  /** The first smallest entry of the gap table is the first best split. */
  lemma BestOfTable(players: seq<Entry>, ca: seq<seq<Entry>>, cd: seq<seq<Entry>>, gaps: seq<seq<int>>, bi: nat, bj: nat)
    requires |ca| > 0 && |cd| > 0 && gaps == GapTable(players, ca, cd)
    requires bi < |ca| && bj < |cd|
    requires forall i, j :: 0 <= i < |gaps| && 0 <= j < |cd| ==> gaps[bi][bj] <= gaps[i][j]
    requires forall i, j :: 0 <= i < |gaps| && 0 <= j < |cd| && Earlier(i, j, bi, bj) ==> gaps[bi][bj] < gaps[i][j]
    ensures FirstBest(players, ca, cd, bi, bj)
  {
  }

  /** The gaps of all enumerated splits, in loop order. */
  function GapTable(players: seq<Entry>, ca: seq<seq<Entry>>, cd: seq<seq<Entry>>): (gaps: seq<seq<int>>)
    requires |ca| > 0 && |cd| > 0
    ensures |gaps| == |ca| && |gaps| > 0
    ensures forall i :: 0 <= i < |gaps| ==> |gaps[i]| == |cd|
    ensures forall i, j :: 0 <= i < |ca| && 0 <= j < |cd| ==> gaps[i][j] == Gap(players, ca[i], cd[j])
  {
    seq(|ca|, i requires 0 <= i < |ca| => seq(|cd|, j requires 0 <= j < |cd| => Gap(players, ca[i], cd[j])))
  }

  /** Over distinct players in the two selectable positions, the two teams of
      every enumerated split share out all the players: team 2 is exactly
      the players team 1 does not hold. */
  lemma SplitPartitions(players: seq<Entry>, nbAtt: nat, nbDef: nat, i: nat, j: nat)
    requires Distinct(players) && Positioned(players)
    requires i < |AttackerChoices(players, nbAtt)| && j < |DefenderChoices(players, nbDef)|
    ensures var a := AttackerChoices(players, nbAtt)[i];
      var d := DefenderChoices(players, nbDef)[j];
      && multiset(Team1(a, d)) + multiset(Team2(players, a, d)) == multiset(players)
      && |Team1(a, d)| + |Team2(players, a, d)| == |players|
  {
    var a := AttackerChoices(players, nbAtt)[i];
    var d := DefenderChoices(players, nbDef)[j];
    DistinctPool(players, Attacker);
    DistinctPool(players, Defender);
    ChosenAndRestPartition(Attackers(players), a);
    ChosenAndRestPartition(Defenders(players), d);
    PoolsPartition(players);
    assert multiset(Team1(a, d)) + multiset(Team2(players, a, d)) == multiset(players);
    assert |multiset(Team1(a, d)) + multiset(Team2(players, a, d))| == |multiset(players)|;
  }

  lemma {:induction false} DistinctPool(s: seq<Entry>, pos: string)
    requires Distinct(s)
    ensures Distinct(OfPosition(s, pos))
    decreases |s|
  {
    if |s| > 0 {
      DistinctPool(s[..|s| - 1], pos);
      assert s[|s| - 1] !in s[..|s| - 1];
    }
  }
}
