/** The per-player statistics of `pages/4_Statistiques.py`: games played as
    the number of distinct dates a player took part in, and how often the
    player appeared for BLANCS or for NOIRS, one row per roster name, in
    descending order of those three counts. */
module Stats {
  import opened Seqs
  import opened Text
  import opened Sorting

  /** One history row: its `Date` and the two `", "`-joined team lists. */
  datatype Game = Game(date: string, whites: string, blacks: string)

  function Whites(g: Game): seq<string> { Split(g.whites) }

  function Blacks(g: Game): seq<string> { Split(g.blacks) }

  /** `name in set(blancs + noirs)`. */
  predicate Took(g: Game, name: string)
  {
    name in Whites(g) + Blacks(g)
  }

  /** The dates on which `name` played: the reference meaning of the
      presence sets. */
  function Dates(hist: seq<Game>, name: string): set<string>
  {
    set g | g in hist && Took(g, name) :: g.date
  }

  /** `hist["Date"].nunique()`. */
  function AllDates(hist: seq<Game>): set<string>
  {
    set g | g in hist :: g.date
  }

  /** `presence_par_joueur.get(name, set())`. */
  function Get(m: map<string, set<string>>, name: string): set<string>
  {
    if name in m then m[name] else {}
  }

  /** One turn of the first loop: every player of the game gets its date. */
  function Visit(m: map<string, set<string>>, g: Game): (r: map<string, set<string>>)
    ensures forall name :: Get(r, name) == Get(m, name) + (if Took(g, name) then {g.date} else {})
  {
    var ps := set p | p in Whites(g) + Blacks(g);
    map x | x in m.Keys + ps :: Get(m, x) + (if x in ps then {g.date} else {})
  }

  /** `presence_par_joueur` after the first loop over the history. */
  function Presence(hist: seq<Game>): map<string, set<string>>
  {
    if |hist| == 0 then map[] else Visit(Presence(hist[..|hist| - 1]), hist[|hist| - 1])
  }

  /** The map built by the loop holds, for every name, exactly the dates of
      the games that name took part in. */
  lemma {:induction false} PresenceIsDates(hist: seq<Game>, name: string)
    ensures Get(Presence(hist), name) == Dates(hist, name)
    decreases |hist|
  {
    if |hist| > 0 {
      PresenceIsDates(hist[..|hist| - 1], name);
      PresenceLast(hist, name);
      DatesLast(hist, name);
    }
  }

  lemma PresenceLast(hist: seq<Game>, name: string)
    requires |hist| > 0
    ensures var g := hist[|hist| - 1];
      Get(Presence(hist), name) == Get(Presence(hist[..|hist| - 1]), name) + (if Took(g, name) then {g.date} else {})
  {
  }

  lemma DatesLast(hist: seq<Game>, name: string)
    requires |hist| > 0
    ensures var g := hist[|hist| - 1];
      Dates(hist, name) == Dates(hist[..|hist| - 1], name) + (if Took(g, name) then {g.date} else {})
  {
    assert hist == hist[..|hist| - 1] + [hist[|hist| - 1]];
    DatesSnoc(hist[..|hist| - 1], hist[|hist| - 1], name);
  }

  lemma DatesSnoc(pre: seq<Game>, g: Game, name: string)
    ensures Dates(pre + [g], name) == Dates(pre, name) + (if Took(g, name) then {g.date} else {})
  {
    var hist := pre + [g];
    assert forall h :: h in hist <==> h in pre || h == g;
  }

  /** `Matchs joués`. */
  function GamesPlayed(hist: seq<Game>, name: string): nat
  {
    |Get(Presence(hist), name)|
  }

  /** Rows listing `name` among the whites (`j in blancs`). */
  function WhiteCount(hist: seq<Game>, name: string): nat
  {
    if |hist| == 0 then 0
    else WhiteCount(hist[..|hist| - 1], name) + (if name in Whites(hist[|hist| - 1]) then 1 else 0)
  }

  /** Rows listing `name` among the blacks but not the whites (`elif j in noirs`). */
  function BlackCount(hist: seq<Game>, name: string): nat
  {
    if |hist| == 0 then 0
    else
      var g := hist[|hist| - 1];
      BlackCount(hist[..|hist| - 1], name) + (if name !in Whites(g) && name in Blacks(g) then 1 else 0)
  }

  /** Rows `name` took part in. */
  function Appearances(hist: seq<Game>, name: string): nat
  {
    if |hist| == 0 then 0
    else Appearances(hist[..|hist| - 1], name) + (if Took(hist[|hist| - 1], name) then 1 else 0)
  }

  /** A player is counted for at most one colour per row, and for one exactly
      when listed in it: the two counts add up to the rows the player took
      part in, so never to more than the number of rows. */
  lemma {:induction false} ColoursCountAppearances(hist: seq<Game>, name: string)
    ensures WhiteCount(hist, name) + BlackCount(hist, name) == Appearances(hist, name)
    ensures Appearances(hist, name) <= |hist|
    decreases |hist|
  {
    if |hist| > 0 {
      ColoursCountAppearances(hist[..|hist| - 1], name);
    }
  }

  /** Games played count distinct dates: never more than the rows the player
      took part in, nor than the distinct dates of the whole history, and at
      least one exactly when the player appears somewhere. */
  lemma GamesPlayedBounds(hist: seq<Game>, name: string)
    ensures GamesPlayed(hist, name) <= Appearances(hist, name)
    ensures GamesPlayed(hist, name) <= |AllDates(hist)|
    ensures GamesPlayed(hist, name) > 0 <==> Appearances(hist, name) > 0
  {
    PresenceIsDates(hist, name);
    DatesWithin(hist, name);
    DatesAtMostAppearances(hist, name);
    AppearsIffDated(hist, name);
  }

  /** Each row adds at most one date. */
  lemma {:induction false} DatesAtMostAppearances(hist: seq<Game>, name: string)
    ensures |Dates(hist, name)| <= Appearances(hist, name)
    decreases |hist|
  {
    if |hist| > 0 {
      var pre := hist[..|hist| - 1];
      var g := hist[|hist| - 1];
      DatesAtMostAppearances(pre, name);
      assert hist == pre + [g];
      DatesSnoc(pre, g, name);
      if Took(g, name) {
        assert |Dates(pre, name) + {g.date}| <= |Dates(pre, name)| + 1;
      }
    }
  }

  /** A player has a date exactly when the player appears in some row. */
  lemma {:induction false} AppearsIffDated(hist: seq<Game>, name: string)
    ensures Appearances(hist, name) > 0 <==> Dates(hist, name) != {}
    decreases |hist|
  {
    if |hist| > 0 {
      var pre := hist[..|hist| - 1];
      var g := hist[|hist| - 1];
      AppearsIffDated(pre, name);
      assert hist == pre + [g];
      DatesSnoc(pre, g, name);
      if Took(g, name) {
        assert g.date in Dates(hist, name);
      }
    }
  }

  lemma DatesWithin(hist: seq<Game>, name: string)
    ensures Dates(hist, name) <= AllDates(hist)
    ensures |Dates(hist, name)| <= |AllDates(hist)|
  {
    var d := Dates(hist, name);
    var a := AllDates(hist);
    assert a == d + (a - d);
    assert d * (a - d) == {};
  }

  /** `joueurs["nom"].unique()`: each roster name once, in order of first
      appearance. */
  function Unique(names: seq<string>): (u: seq<string>)
    ensures Distinct(u)
    ensures forall x :: x in u <==> x in names
  {
    if |names| == 0 then []
    else
      var prev := Unique(names[..|names| - 1]);
      var x := names[|names| - 1];
      assert forall y :: y in names <==> y in names[..|names| - 1] || y == x;
      if x in prev then prev else prev + [x]
  }

  /** The second loop: for each row, each roster name is counted for BLANCS
      when listed there, else for NOIRS when listed there. */
  method CountColours(names: seq<string>, hist: seq<Game>) returns (whites: seq<nat>, blacks: seq<nat>)
    ensures |whites| == |names| && |blacks| == |names|
    ensures forall j :: 0 <= j < |names| ==> whites[j] == WhiteCount(hist, names[j]) && blacks[j] == BlackCount(hist, names[j])
  {
    whites := seq(|names|, j => 0);
    blacks := seq(|names|, j => 0);
    var i := 0;
    while i < |hist|
      invariant 0 <= i <= |hist|
      invariant |whites| == |names| && |blacks| == |names|
      invariant forall j :: 0 <= j < |names| ==> whites[j] == WhiteCount(hist[..i], names[j]) && blacks[j] == BlackCount(hist[..i], names[j])
    {
      var g := hist[i];
      assert hist[..i + 1][..i] == hist[..i];
      var j := 0;
      while j < |names|
        invariant 0 <= j <= |names|
        invariant |whites| == |names| && |blacks| == |names|
        invariant forall l :: 0 <= l < j ==> whites[l] == WhiteCount(hist[..i + 1], names[l]) && blacks[l] == BlackCount(hist[..i + 1], names[l])
        invariant forall l :: j <= l < |names| ==> whites[l] == WhiteCount(hist[..i], names[l]) && blacks[l] == BlackCount(hist[..i], names[l])
      {
        if names[j] in Whites(g) {
          whites := whites[j := whites[j] + 1];
        } else if names[j] in Blacks(g) {
          blacks := blacks[j := blacks[j] + 1];
        }
        j := j + 1;
      }
      i := i + 1;
    }
    assert hist[..|hist|] == hist;
  }

  /** One line of the statistics table. */
  datatype StatRow = StatRow(name: string, played: nat, whites: nat, blacks: nat)

  /** The sort key `["Matchs joués", "Fois BLANCS", "Fois NOIRS"]`. */
  function StatKey(r: StatRow): seq<int> { [r.played, r.whites, r.blacks] }

  /** The row the page shows for `name`. */
  predicate Describes(hist: seq<Game>, r: StatRow)
  {
    && r.played == GamesPlayed(hist, r.name)
    && r.whites == WhiteCount(hist, r.name)
    && r.blacks == BlackCount(hist, r.name)
  }

  /** The statistics table: exactly one row per roster name, none for names
      that only occur in the history, each row holding that player's counts,
      in non-increasing order of (games played, BLANCS, NOIRS); the order
      among equal keys is left open. */
  method Statistics(roster: seq<string>, hist: seq<Game>) returns (table: seq<StatRow>)
    ensures SortedDesc(table, StatKey)
    ensures forall i :: 0 <= i < |table| ==> table[i].name in roster && Describes(hist, table[i])
    ensures forall x :: x in roster ==> exists i :: 0 <= i < |table| && table[i].name == x
    ensures forall i, j :: 0 <= i < j < |table| ==> table[i].name != table[j].name
  {
    var names := Unique(roster);
    var whites, blacks := CountColours(names, hist);
    var rows := seq(|names|, j requires 0 <= j < |names| => StatRow(names[j], GamesPlayed(hist, names[j]), whites[j], blacks[j]));
    table := SortDesc(rows, StatKey);
    RowsKept(rows, table);
    NamesKept(roster, names, rows, table);
    NamesStayDistinct(rows, table);
  }

  /** Every roster name keeps its row through the sort. */
  lemma NamesKept(roster: seq<string>, names: seq<string>, rows: seq<StatRow>, table: seq<StatRow>)
    requires forall x :: x in names <==> x in roster
    requires |rows| == |names| && forall j :: 0 <= j < |names| ==> rows[j].name == names[j]
    requires multiset(table) == multiset(rows)
    ensures forall x :: x in roster ==> exists i :: 0 <= i < |table| && table[i].name == x
  {
    forall x | x in roster
      ensures exists i :: 0 <= i < |table| && table[i].name == x
    {
      var j :| 0 <= j < |names| && names[j] == x;
      assert rows[j] in multiset(table);
    }
  }

  lemma RowsKept(rows: seq<StatRow>, table: seq<StatRow>)
    requires multiset(table) == multiset(rows)
    ensures forall i :: 0 <= i < |table| ==> table[i] in rows
  {
    forall i | 0 <= i < |table|
      ensures table[i] in rows
    {
      assert table[i] in multiset(table);
    }
  }

  /** Rearranging rows with distinct names keeps the names distinct. */
  lemma NamesStayDistinct(rows: seq<StatRow>, table: seq<StatRow>)
    requires multiset(table) == multiset(rows)
    requires forall a, b :: 0 <= a < b < |rows| ==> rows[a].name != rows[b].name
    ensures forall i, j :: 0 <= i < j < |table| ==> table[i].name != table[j].name
  {
    assert Distinct(rows);
    DistinctPermutation(rows, table);
    forall i, j | 0 <= i < j < |table|
      ensures table[i].name != table[j].name
    {
      assert table[i] in multiset(rows) && table[j] in multiset(rows);
    }
  }
}
