/** `compute_standings` of the tournament page: the round-robin points table
    and its ranking. */
module Standings {
  import opened Seqs
  import opened Sorting
  import opened Rows

  /** One team's line of the table: points, goals for ("BP") and against
      ("BC"), wins, regulation losses, overtime losses ("DP") and games ("J"). */
  datatype Record = Record(pts: int, bp: int, bc: int, v: int, d: int, dp: int, j: int)

  const Zero: Record := Record(0, 0, 0, 0, 0, 0, 0)

  function Add(a: Record, b: Record): Record
  {
    Record(a.pts + b.pts, a.bp + b.bp, a.bc + b.bc, a.v + b.v, a.d + b.d, a.dp + b.dp, a.j + b.j)
  }

  /** The rows the table counts: finished round matches. */
  predicate Counted(r: Row)
  {
    IsMatchOf(r, RoundPhase) && r.done
  }

  /** Every game is a win, a regulation loss, an overtime loss or a tie; a win
      is worth two points and an overtime loss or a tie one. */
  predicate Consistent(x: Record)
  {
    && x.v >= 0 && x.d >= 0 && x.dp >= 0
    && x.j >= x.v + x.d + x.dp
    && x.pts == 2 * x.v + x.dp + (x.j - x.v - x.d - x.dp)
  }

  /** What one finished match adds to the side that scored `gf` and conceded
      `ga`: the game, the goals both ways, and a win, a loss in regulation or
      in overtime, or a tie. */
  function Outcome(gf: int, ga: int, ot: bool): (x: Record)
    ensures Consistent(x) && x.j == 1 && x.bp == gf && x.bc == ga
    ensures x.v == 1 <==> gf > ga
    ensures x.dp == 1 <==> gf < ga && ot
    ensures x.d == 1 <==> gf < ga && !ot
    ensures gf == ga ==> x.pts == 1
  {
    if gf > ga then Record(2, gf, ga, 1, 0, 0, 1)
    else if ga > gf then
      if ot then Record(1, gf, ga, 0, 0, 1, 1) else Record(0, gf, ga, 0, 1, 0, 1)
    else Record(1, gf, ga, 0, 0, 0, 1)
  }

  /** A match hands out three points when it is decided in overtime and two
      otherwise, and its goals are mirrored between the two sides. */
  lemma MatchTotals(sa: int, sb: int, ot: bool)
    ensures var both := Add(Outcome(sa, sb, ot), Outcome(sb, sa, ot));
      && both.pts == (if sa != sb && ot then 3 else 2)
      && both.bp == both.bc == sa + sb
      && both.j == 2
  {
  }

  lemma ConsistentAdd(a: Record, b: Record)
    requires Consistent(a) && Consistent(b)
    ensures Consistent(Add(a, b))
  {
  }

  type Table = map<string, Record>

  function Get(t: Table, k: string): Record
  {
    if k in t then t[k] else Zero
  }

  function Credit(t: Table, k: string, x: Record): Table
  {
    t[k := Add(Get(t, k), x)]
  }

  /** One iteration of the loop over the counted rows. */
  function Apply(t: Table, r: Row): Table
  {
    if Counted(r) then
      Credit(Credit(t, r.teamA, Outcome(r.scoreA, r.scoreB, r.overtime)), r.teamB, Outcome(r.scoreB, r.scoreA, r.overtime))
    else t
  }

  /** `name` plays in some counted row. */
  predicate Plays(rows: seq<Row>, name: string)
  {
    exists i :: 0 <= i < |rows| && Counted(rows[i]) && (rows[i].teamA == name || rows[i].teamB == name)
  }

  lemma PlaysSnoc(rows: seq<Row>, name: string)
    requires |rows| > 0
    ensures var r := rows[|rows| - 1];
      Plays(rows, name) <==> Plays(rows[..|rows| - 1], name) || (Counted(r) && (r.teamA == name || r.teamB == name))
  {
    var prev := rows[..|rows| - 1];
    if Plays(prev, name) {
      var i :| 0 <= i < |prev| && Counted(prev[i]) && (prev[i].teamA == name || prev[i].teamB == name);
      assert rows[i] == prev[i];
    }
    if Plays(rows, name) {
      var i :| 0 <= i < |rows| && Counted(rows[i]) && (rows[i].teamA == name || rows[i].teamB == name);
      if i < |prev| {
        assert prev[i] == rows[i];
      }
    }
  }

  /** The table after all rows. */
  function Tally(rows: seq<Row>): Table
    decreases |rows|
  {
    if |rows| == 0 then map[] else Apply(Tally(rows[..|rows| - 1]), rows[|rows| - 1])
  }

  /** Every record of a table is consistent. */
  predicate AllConsistent(t: Table)
  {
    forall k :: k in t ==> Consistent(t[k])
  }

  lemma CreditConsistent(t: Table, k: string, x: Record)
    requires AllConsistent(t) && Consistent(x)
    ensures AllConsistent(Credit(t, k, x))
    ensures forall n :: n in Credit(t, k, x) <==> n in t || n == k
  {
    var u := Credit(t, k, x);
    forall n | n in u
      ensures Consistent(u[n])
    {
      if n == k {
        ConsistentAdd(Get(t, k), x);
      } else {
        assert u[n] == t[n];
      }
    }
  }

  /** The table holds exactly the teams of counted rows, each with a
      consistent record. */
  lemma {:induction false} TallyShape(rows: seq<Row>)
    ensures forall k :: k in Tally(rows) <==> Plays(rows, k)
    ensures AllConsistent(Tally(rows))
    decreases |rows|
  {
    if |rows| > 0 {
      var prev := rows[..|rows| - 1];
      var r := rows[|rows| - 1];
      TallyShape(prev);
      var t := Tally(prev);
      forall k
        ensures Plays(rows, k) <==> Plays(prev, k) || (Counted(r) && (r.teamA == k || r.teamB == k))
      {
        PlaysSnoc(rows, k);
      }
      if Counted(r) {
        var oa, ob := Outcome(r.scoreA, r.scoreB, r.overtime), Outcome(r.scoreB, r.scoreA, r.overtime);
        CreditConsistent(t, r.teamA, oa);
        CreditConsistent(Credit(t, r.teamA, oa), r.teamB, ob);
      }
    }
  }

  /** The teams of the counted rows, once each, in order of first appearance. */
  function Teams(rows: seq<Row>): (names: seq<string>)
    ensures Distinct(names)
    ensures forall k :: k in names <==> Plays(rows, k)
    decreases |rows|
  {
    if |rows| == 0 then []
    else
      var prev := Teams(rows[..|rows| - 1]);
      var r := rows[|rows| - 1];
      forall k
        ensures Plays(rows, k) <==> Plays(rows[..|rows| - 1], k) || (Counted(r) && (r.teamA == k || r.teamB == k))
      {
        PlaysSnoc(rows, k);
      }
      if !Counted(r) then prev
      else
        var withA := if r.teamA in prev then prev else prev + [r.teamA];
        if r.teamB in withA then withA else withA + [r.teamB]
  }

  /** The table as (team, record) entries, in the order of `Teams`. */
  function Entries(rows: seq<Row>): (es: seq<(string, Record)>)
    ensures |es| == |Teams(rows)|
    ensures forall i :: 0 <= i < |es| ==> es[i] == (Teams(rows)[i], Get(Tally(rows), Teams(rows)[i]))
  {
    var names := Teams(rows);
    var t := Tally(rows);
    TallyShape(rows);
    seq(|names|, i requires 0 <= i < |names| => (names[i], Get(t, names[i])))
  }

  /** The ranking key: points, then goal difference, then goals for. */
  function RankKey(e: (string, Record)): seq<int>
  {
    [e.1.pts, e.1.bp - e.1.bc, e.1.bp]
  }

  /** One row of the returned standings ("Rang", "Équipe" and the record). */
  datatype Standing = Standing(rank: nat, team: string, rec: Record)

  function StandingKey(s: Standing): seq<int>
  {
    RankKey((s.team, s.rec))
  }

  /** `st` lists every team that played exactly once, each with its tallied record. */
  ghost predicate ListsTable(rows: seq<Row>, st: seq<Standing>)
  {
    && (forall i :: 0 <= i < |st| ==> Plays(rows, st[i].team) && st[i].rec == Get(Tally(rows), st[i].team))
    && (forall k :: Plays(rows, k) ==> exists i :: 0 <= i < |st| && st[i].team == k)
    && (forall i, j :: 0 <= i < j < |st| ==> st[i].team != st[j].team)
  }

  /** Ranks 1, 2, 3, ... down a non-increasing ranking key. */
  predicate RankedInOrder(st: seq<Standing>)
  {
    && (forall i :: 0 <= i < |st| ==> st[i].rank == i + 1)
    && (forall i, j :: 0 <= i < j < |st| ==> KeyLe(StandingKey(st[j]), StandingKey(st[i])))
  }

  /** `compute_standings`: nothing when no round match is finished; otherwise
      one standing per team that played, with its own consistent record,
      ordered by points, goal difference and goals for (ties in an
      unspecified order), and ranked 1, 2, 3, ... */
  function ComputeStandings(rows: seq<Row>): (st: seq<Standing>)
    ensures |st| == 0 <==> forall i :: 0 <= i < |rows| ==> !Counted(rows[i])
    ensures ListsTable(rows, st)
    ensures RankedInOrder(st)
    ensures forall i :: 0 <= i < |st| ==> Consistent(st[i].rec)
  {
    var es := Entries(rows);
    var sorted := SortDesc(es, RankKey);
    RankedLists(rows, sorted);
    RankedOrder(sorted);
    TeamsEmpty(rows);
    Ranked(sorted)
  }

  lemma RankedLists(rows: seq<Row>, sorted: seq<(string, Record)>)
    requires multiset(sorted) == multiset(Entries(rows))
    ensures ListsTable(rows, Ranked(sorted))
    ensures |sorted| == |Teams(rows)|
    ensures forall i :: 0 <= i < |sorted| ==> Consistent(Ranked(sorted)[i].rec)
  {
    var st := Ranked(sorted);
    var es := Entries(rows);
    RankedMembers(rows, sorted);
    RankedCovers(rows, sorted);
    EntriesDistinct(rows);
    DistinctPermutation(es, sorted);
    assert |sorted| == |es| by {
      assert |multiset(sorted)| == |multiset(es)|;
    }
    forall i | 0 <= i < |st|
      ensures Plays(rows, st[i].team) && st[i].rec == Get(Tally(rows), st[i].team) && Consistent(st[i].rec)
    {
      assert st[i].team == sorted[i].0 && st[i].rec == sorted[i].1;
    }
    forall k | Plays(rows, k)
      ensures exists i :: 0 <= i < |st| && st[i].team == k
    {
      RankedKeepsTeam(sorted, k);
    }
    forall i, j | 0 <= i < j < |st|
      ensures st[i].team != st[j].team
    {
      assert sorted[i] != sorted[j];
    }
  }

  lemma RankedOrder(sorted: seq<(string, Record)>)
    requires SortedDesc(sorted, RankKey)
    ensures RankedInOrder(Ranked(sorted))
  {
    var st := Ranked(sorted);
    assert forall i :: 0 <= i < |st| ==> StandingKey(st[i]) == RankKey(sorted[i]);
  }

  /** Numbers the sorted entries 1, 2, 3, ... */
  function Ranked(sorted: seq<(string, Record)>): (st: seq<Standing>)
    ensures |st| == |sorted|
    ensures forall i :: 0 <= i < |st| ==> st[i] == Standing(i + 1, sorted[i].0, sorted[i].1)
  {
    seq(|sorted|, i requires 0 <= i < |sorted| => Standing(i + 1, sorted[i].0, sorted[i].1))
  }

  lemma RankedKeepsTeam(sorted: seq<(string, Record)>, k: string)
    requires exists i :: 0 <= i < |sorted| && sorted[i].0 == k
    ensures exists i :: 0 <= i < |Ranked(sorted)| && Ranked(sorted)[i].team == k
  {
    var i :| 0 <= i < |sorted| && sorted[i].0 == k;
    assert Ranked(sorted)[i].team == k;
  }

  /** Each entry of a reordering of the table is a team that played, with its record. */
  lemma RankedMembers(rows: seq<Row>, sorted: seq<(string, Record)>)
    requires multiset(sorted) == multiset(Entries(rows))
    ensures forall i :: 0 <= i < |sorted| ==>
      Plays(rows, sorted[i].0) && sorted[i].1 == Get(Tally(rows), sorted[i].0) && Consistent(sorted[i].1)
  {
    TallyShape(rows);
    var es := Entries(rows);
    forall i | 0 <= i < |sorted|
      ensures Plays(rows, sorted[i].0) && sorted[i].1 == Get(Tally(rows), sorted[i].0) && Consistent(sorted[i].1)
    {
      assert sorted[i] in multiset(es);
      var n :| 0 <= n < |es| && es[n] == sorted[i];
      assert Teams(rows)[n] in Teams(rows);
    }
  }

  /** Every team that played has an entry in any reordering of the table. */
  lemma RankedCovers(rows: seq<Row>, sorted: seq<(string, Record)>)
    requires multiset(sorted) == multiset(Entries(rows))
    ensures forall k :: Plays(rows, k) ==> exists i :: 0 <= i < |sorted| && sorted[i].0 == k
  {
    var es := Entries(rows);
    forall k | Plays(rows, k)
      ensures exists i :: 0 <= i < |sorted| && sorted[i].0 == k
    {
      var n :| 0 <= n < |Teams(rows)| && Teams(rows)[n] == k;
      assert es[n] in multiset(sorted);
      var i :| 0 <= i < |sorted| && sorted[i] == es[n];
    }
  }

  lemma TeamsEmpty(rows: seq<Row>)
    ensures |Teams(rows)| == 0 <==> forall i :: 0 <= i < |rows| ==> !Counted(rows[i])
  {
    if |Teams(rows)| == 0 {
      forall i | 0 <= i < |rows|
        ensures !Counted(rows[i])
      {
        assert !Plays(rows, rows[i].teamA);
      }
    } else {
      assert Teams(rows)[0] in Teams(rows);
    }
  }

  lemma EntriesDistinct(rows: seq<Row>)
    ensures Distinct(Entries(rows))
  {
  }
  /** Goals scored less goals conceded: the "Diff" column. */
  function Balance(x: Record): int
  {
    x.bp - x.bc
  }

  /** The "Diff" column of `t`, added up over `names`. */
  function TableBalance(t: Table, names: seq<string>): int
    decreases |names|
  {
    if |names| == 0 then 0
    else TableBalance(t, names[..|names| - 1]) + Balance(Get(t, names[|names| - 1]))
  }

  /** Crediting a team the sum does not cover leaves the sum alone. */
  lemma {:induction false} CreditElsewhere(t: Table, names: seq<string>, k: string, x: Record)
    requires k !in names
    ensures TableBalance(Credit(t, k, x), names) == TableBalance(t, names)
    decreases |names|
  {
    if |names| > 0 {
      CreditElsewhere(t, names[..|names| - 1], k, x);
    }
  }

  /** Crediting a team the sum covers once moves the sum by the credit's own balance. */
  lemma {:induction false} CreditBalance(t: Table, names: seq<string>, k: string, x: Record)
    requires Distinct(names) && k in names
    ensures TableBalance(Credit(t, k, x), names) == TableBalance(t, names) + Balance(x)
    decreases |names|
  {
    var init := names[..|names| - 1];
    if names[|names| - 1] == k {
      assert k !in init;
      CreditElsewhere(t, init, k, x);
    } else {
      assert k in init by {
        var i :| 0 <= i < |names| && names[i] == k;
        assert init[i] == k;
      }
      CreditBalance(t, init, k, x);
    }
  }

  /** A team the table does not hold adds nothing to the sum. */
  lemma AppendAbsent(t: Table, names: seq<string>, k: string)
    requires k !in t
    ensures TableBalance(t, names + [k]) == TableBalance(t, names)
  {
    assert (names + [k])[..|names|] == names;
  }

  /** Over the teams that played, the goal differences of the tallied table
      add up to zero. */
  lemma {:induction false} TallyBalanced(rows: seq<Row>)
    ensures TableBalance(Tally(rows), Teams(rows)) == 0
    decreases |rows|
  {
    if |rows| > 0 {
      var prev := rows[..|rows| - 1];
      var r := rows[|rows| - 1];
      TallyBalanced(prev);
      TallyShape(prev);
      if Counted(r) {
        var t := Tally(prev);
        var names := Teams(prev);
        var withA := if r.teamA in names then names else names + [r.teamA];
        var all := if r.teamB in withA then withA else withA + [r.teamB];
        assert Teams(rows) == all;
        if r.teamA !in names {
          AppendAbsent(t, names, r.teamA);
        }
        if r.teamB !in withA {
          AppendAbsent(t, withA, r.teamB);
        }
        var oa, ob := Outcome(r.scoreA, r.scoreB, r.overtime), Outcome(r.scoreB, r.scoreA, r.overtime);
        CreditBalance(t, all, r.teamA, oa);
        CreditBalance(Credit(t, r.teamA, oa), all, r.teamB, ob);
      }
    }
  }

  /** The "Diff" column of a list of entries, added up. */
  function EntriesBalance(es: seq<(string, Record)>): int
    decreases |es|
  {
    if |es| == 0 then 0 else EntriesBalance(es[..|es| - 1]) + Balance(es[|es| - 1].1)
  }

  lemma {:induction false} EntriesBalanceAppend(a: seq<(string, Record)>, b: seq<(string, Record)>)
    ensures EntriesBalance(a + b) == EntriesBalance(a) + EntriesBalance(b)
    decreases |b|
  {
    if |b| > 0 {
      assert (a + b)[..|a + b| - 1] == a + b[..|b| - 1];
      EntriesBalanceAppend(a, b[..|b| - 1]);
    } else {
      assert a + b == a;
    }
  }

  /** Reordering the entries does not change the sum. */
  lemma {:induction false} EntriesBalancePermutation(a: seq<(string, Record)>, b: seq<(string, Record)>)
    requires multiset(a) == multiset(b)
    ensures EntriesBalance(a) == EntriesBalance(b)
    decreases |a|
  {
    if |a| == 0 {
      assert |b| == |multiset(b)|;
    } else {
      var x := a[|a| - 1];
      var init := a[..|a| - 1];
      assert a == init + [x];
      assert x in multiset(b);
      var i :| 0 <= i < |b| && b[i] == x;
      var rest := b[..i] + b[i + 1..];
      assert b == b[..i] + [x] + b[i + 1..];
      assert multiset(a) == multiset(init) + multiset{x};
      assert multiset(b) == multiset(b[..i]) + multiset{x} + multiset(b[i + 1..]);
      assert multiset(rest) == multiset(b[..i]) + multiset(b[i + 1..]);
      assert multiset(init) == multiset(a) - multiset{x};
      assert multiset(rest) == multiset(b) - multiset{x};
      EntriesBalancePermutation(init, rest);
      EntriesBalanceAppend(b[..i] + [x], b[i + 1..]);
      EntriesBalanceAppend(b[..i], [x]);
      EntriesBalanceAppend(b[..i], b[i + 1..]);
      assert [x][..0] == [];
    }
  }

  /** Entries that carry `t`'s records of `names`, in order, sum as `t` does. */
  lemma {:induction false} EntriesMatchTable(es: seq<(string, Record)>, t: Table, names: seq<string>)
    requires |es| == |names|
    requires forall i :: 0 <= i < |es| ==> es[i].1 == Get(t, names[i])
    ensures EntriesBalance(es) == TableBalance(t, names)
    decreases |es|
  {
    if |es| > 0 {
      EntriesMatchTable(es[..|es| - 1], t, names[..|names| - 1]);
    }
  }

  /** Goals for, added up down the standings. */
  function GoalsFor(st: seq<Standing>): int
    decreases |st|
  {
    if |st| == 0 then 0 else GoalsFor(st[..|st| - 1]) + st[|st| - 1].rec.bp
  }

  /** Goals against, added up down the standings. */
  function GoalsAgainst(st: seq<Standing>): int
    decreases |st|
  {
    if |st| == 0 then 0 else GoalsAgainst(st[..|st| - 1]) + st[|st| - 1].rec.bc
  }

  /** Standings that carry the entries' records, in order, have their balance. */
  lemma {:induction false} StandingsMatchEntries(st: seq<Standing>, es: seq<(string, Record)>)
    requires |st| == |es|
    requires forall i :: 0 <= i < |st| ==> st[i].rec == es[i].1
    ensures GoalsFor(st) - GoalsAgainst(st) == EntriesBalance(es)
    decreases |st|
  {
    if |st| > 0 {
      StandingsMatchEntries(st[..|st| - 1], es[..|es| - 1]);
    }
  }

  /** Every goal one side scores the other concedes: down the standings, the
      "BP" column and the "BC" column add up to the same total, so the "Diff"
      column adds up to zero. */
  lemma GoalsBalance(rows: seq<Row>)
    ensures GoalsFor(ComputeStandings(rows)) == GoalsAgainst(ComputeStandings(rows))
  {
    var es := Entries(rows);
    var sorted := SortDesc(es, RankKey);
    assert ComputeStandings(rows) == Ranked(sorted);
    RankingBalanced(rows, es, sorted);
  }

  lemma RankingBalanced(rows: seq<Row>, es: seq<(string, Record)>, sorted: seq<(string, Record)>)
    requires es == Entries(rows) && multiset(sorted) == multiset(es)
    ensures GoalsFor(Ranked(sorted)) == GoalsAgainst(Ranked(sorted))
  {
    StandingsMatchEntries(Ranked(sorted), sorted);
    EntriesBalancePermutation(sorted, es);
    EntriesMatchTable(es, Tally(rows), Teams(rows));
    TallyBalanced(rows);
  }
}
