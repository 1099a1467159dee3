/** The glue of `pages/2_Formation_des_equipes.py` around the line builders:
    the quota shortfall and the truncation of the pools, the check that the
    built lines are complete, and `safe_total`, the score of an edited team. */
module Formation {
  import opened Wrappers
  import opened Seqs
  import opened Items
  import opened Positions
  import opened Lines

  /** `max(0, want - len(pool))`. */
  function Shortfall(want: int, have: nat): (s: nat)
    ensures s == 0 <==> have >= want
    ensures s > 0 ==> have + s == want
  {
    if want > have then want - have else 0
  }

  /** `pool.head(min(len(pool), want))`: the first `want` players, or all of
      them when there are fewer. */
  function Head(pool: seq<Player>, want: nat): (r: seq<Player>)
    ensures |r| <= want && |r| <= |pool|
    ensures |r| == want || r == pool
    ensures r == pool[..|r|]
  {
    pool[..Min(|pool|, want)]
  }

  /** The pools handed to the optimiser and the shortfalls behind the warning. */
  datatype Selection = Selection(fw: seq<Player>, df: seq<Player>, shortFw: nat, shortDf: nat)

  /** Lines 33-43: assign the positions, measure the shortfalls, then keep at
      most the wanted number of players of each pool. The number inputs
      never let a quota be negative. */
  function Select(present: seq<Player>, wantFw: nat, wantDf: nat): (sel: Selection)
    ensures var pools := AssignPositions(present, wantFw, wantDf);
      && |sel.fw| == Min(|pools.0|, wantFw) && |sel.df| == Min(|pools.1|, wantDf)
      && sel.fw == pools.0[..|sel.fw|] && sel.df == pools.1[..|sel.df|]
      && (sel.shortFw == 0 <==> |pools.0| >= wantFw) && (sel.shortDf == 0 <==> |pools.1| >= wantDf)
  {
    var pools := AssignPositions(present, wantFw, wantDf);
    Selection(Head(pools.0, wantFw), Head(pools.1, wantDf),
              Shortfall(wantFw, |pools.0|), Shortfall(wantDf, |pools.1|))
  }

  /** Whatever the quotas, the two selected pools hold different present
      players. */
  lemma SelectionIsSubBag(present: seq<Player>, wantFw: nat, wantDf: nat)
    ensures var sel := Select(present, wantFw, wantDf);
      multiset(sel.fw) + multiset(sel.df) <= multiset(present)
  {
    var pools := AssignPositions(present, wantFw, wantDf);
    var sel := Select(present, wantFw, wantDf);
    PrefixSubBag(pools.0, |sel.fw|);
    PrefixSubBag(pools.1, |sel.df|);
  }

  lemma PrefixSubBag(s: seq<Player>, n: nat)
    requires n <= |s|
    ensures multiset(s[..n]) <= multiset(s)
  {
    assert s == s[..n] + s[n..];
  }

  /** With at least `want_fw + want_df` players present, no warning is shown
      and each pool holds exactly its quota. */
  lemma SelectionFillsQuotas(present: seq<Player>, wantFw: nat, wantDf: nat)
    requires |present| >= wantFw + wantDf
    ensures var sel := Select(present, wantFw, wantDf);
      sel.shortFw == 0 && sel.shortDf == 0 && |sel.fw| == wantFw && |sel.df| == wantDf
  {
    QuotasMetWhenEnoughPlayers(present, wantFw, wantDf);
  }

  /** `items = [(nom, talent) ...]` for the role's talent column. */
  function ItemsOf(pool: seq<Player>, role: Role): (items: seq<Item>)
    ensures |items| == |pool|
    ensures forall i :: 0 <= i < |pool| ==> items[i].name == pool[i].name
  {
    seq(|pool|, i requires 0 <= i < |pool| => Item(pool[i].name, if role == Forward then pool[i].attack else pool[i].defense))
  }

  /** What lines 54-56 lead to. */
  datatype Verdict = Crash | Stop | Proceed

  /** Some line of `lines` does not have `size` players. */
  predicate Misfit(lines: seq<seq<Item>>, size: nat)
  {
    exists g :: 0 <= g < |lines| && |lines[g]| != size
  }

  /** Lines 54-56 as written: `any(... for g in fw_lines)` iterates the
      forward lines before anything else, so a missing result raises a
      `TypeError`; the defence lines are only looked at when every forward
      line is a trio. */
  function CheckLinesAsWritten(fwLines: Option<seq<seq<Item>>>, dfLines: Option<seq<seq<Item>>>): (v: Verdict)
    ensures v == Crash <==> fwLines.None? || (!Misfit(fwLines.value, 3) && dfLines.None?)
    ensures v == Proceed <==> fwLines.Some? && dfLines.Some? && !Misfit(fwLines.value, 3) && !Misfit(dfLines.value, 2)
  {
    if fwLines.None? then Crash
    else if Misfit(fwLines.value, 3) then Stop
    else if dfLines.None? then Crash
    else if Misfit(dfLines.value, 2) then Stop
    else Proceed
  }

  /** The same check with a missing result treated as an incomplete one: the
      page stops with its error message instead of failing. */
  function CheckLines(fwLines: Option<seq<seq<Item>>>, dfLines: Option<seq<seq<Item>>>): (v: Verdict)
    ensures v != Crash
    ensures v == Proceed <==> fwLines.Some? && dfLines.Some? && !Misfit(fwLines.value, 3) && !Misfit(dfLines.value, 2)
  {
    if fwLines.None? || dfLines.None? then Stop
    else if Misfit(fwLines.value, 3) || Misfit(dfLines.value, 2) then Stop
    else Proceed
  }

  /** Lines 51-52: the four trios and the four duos built from the selected
      pools, each shuffle of the 500 trials supplied by the caller. */
  function BuildLines(sel: Selection, fwOrders: seq<seq<Item>>, dfOrders: seq<seq<Item>>): (r: (Option<seq<seq<Item>>>, Option<seq<seq<Item>>>))
    requires Shuffles(ItemsOf(sel.fw, Forward), fwOrders) && Shuffles(ItemsOf(sel.df, Defence), dfOrders)
    ensures r.0.Some? ==> Full(r.0.value, 3)
    ensures r.1.Some? ==> Full(r.1.value, 2)
  {
    (MakeLinesBalanced(ItemsOf(sel.fw, Forward), 3, fwOrders),
     MakeLinesBalanced(ItemsOf(sel.df, Defence), 2, dfOrders))
  }

  /** As written, the check can never report incomplete lines, since a
      built result is always complete; and with fewer than 12 forwards
      (or 12 forwards and fewer than 8 defenders) the page fails instead
      of showing its message. */
  lemma CheckAsWrittenFails(sel: Selection, fwOrders: seq<seq<Item>>, dfOrders: seq<seq<Item>>)
    requires Shuffles(ItemsOf(sel.fw, Forward), fwOrders) && Shuffles(ItemsOf(sel.df, Defence), dfOrders)
    ensures var (f, d) := BuildLines(sel, fwOrders, dfOrders); CheckLinesAsWritten(f, d) != Stop
    ensures var (f, d) := BuildLines(sel, fwOrders, dfOrders);
      |sel.fw| < 12 ==> CheckLinesAsWritten(f, d) == Crash
    ensures var (f, d) := BuildLines(sel, fwOrders, dfOrders);
      f.Some? && |sel.df| < 8 ==> CheckLinesAsWritten(f, d) == Crash
  {
    var (f, d) := BuildLines(sel, fwOrders, dfOrders);
    if |sel.fw| < 12 {
      CannotFill(ItemsOf(sel.fw, Forward), 3, fwOrders);
    }
    if |sel.df| < 8 {
      CannotFill(ItemsOf(sel.df, Defence), 2, dfOrders);
    }
    if f.Some? {
      assert !Misfit(f.value, 3);
    }
    if d.Some? {
      assert !Misfit(d.value, 2);
    }
  }

  /** The corrected check never fails: the page goes on exactly when both
      line sets were built, and stops with its message when a pool is short. */
  lemma CheckStopsOnShortPools(sel: Selection, fwOrders: seq<seq<Item>>, dfOrders: seq<seq<Item>>)
    requires Shuffles(ItemsOf(sel.fw, Forward), fwOrders) && Shuffles(ItemsOf(sel.df, Defence), dfOrders)
    ensures var (f, d) := BuildLines(sel, fwOrders, dfOrders);
      CheckLines(f, d) == Proceed <==> f.Some? && d.Some?
    ensures var (f, d) := BuildLines(sel, fwOrders, dfOrders);
      |sel.fw| < 12 || |sel.df| < 8 ==> CheckLines(f, d) == Stop
  {
    var (f, d) := BuildLines(sel, fwOrders, dfOrders);
    if |sel.fw| < 12 {
      CannotFill(ItemsOf(sel.fw, Forward), 3, fwOrders);
    }
    if |sel.df| < 8 {
      CannotFill(ItemsOf(sel.df, Defence), 2, dfOrders);
    }
    if f.Some? {
      assert !Misfit(f.value, 3);
    }
    if d.Some? {
      assert !Misfit(d.value, 2);
    }
  }

  /** The talent `reindex` finds for `name` in the role's column: the first
      present player of that name, or nothing (`NaN`, skipped by `sum`). */
  function Talent(present: seq<Player>, name: string, role: Role): int
  {
    if |present| == 0 then 0
    else if present[0].name == name then (if role == Forward then present[0].attack else present[0].defense)
    else Talent(present[1..], name, role)
  }

  predicate Known(present: seq<Player>, name: string)
  {
    exists i :: 0 <= i < |present| && present[i].name == name
  }

  /** `line_score(names, role)`. */
  function LineScore(present: seq<Player>, names: seq<string>, role: Role): int
  {
    if |names| == 0 then 0
    else LineScore(present, names[..|names| - 1], role) + Talent(present, names[|names| - 1], role)
  }

  /** Sum of the line scores of several lines of one role. */
  function LinesScore(present: seq<Player>, lines: seq<seq<string>>, role: Role): int
  {
    if |lines| == 0 then 0
    else LinesScore(present, lines[..|lines| - 1], role) + LineScore(present, lines[|lines| - 1], role)
  }

  /** Every trio has 3 names and every duo 2. */
  predicate WellSized(trios: seq<seq<string>>, duos: seq<seq<string>>)
  {
    && (forall t :: 0 <= t < |trios| ==> |trios[t]| == 3)
    && (forall d :: 0 <= d < |duos| ==> |duos[d]| == 2)
  }

  /** `safe_total(fw_ed, df_ed)`: no score unless every trio has three names
      and every duo two; then attack talents over the trios plus defence
      talents over the duos. */
  function SafeTotal(present: seq<Player>, trios: seq<seq<string>>, duos: seq<seq<string>>): (r: Option<int>)
    ensures r.None? <==> (exists t :: 0 <= t < |trios| && |trios[t]| != 3) || (exists d :: 0 <= d < |duos| && |duos[d]| != 2)
  {
    if WellSized(trios, duos) then Some(LinesScore(present, trios, Forward) + LinesScore(present, duos, Defence))
    else None
  }

  /** A name absent from the roster adds nothing to a line's score. */
  lemma {:induction false} UnknownNameScoresZero(present: seq<Player>, name: string, role: Role)
    requires !Known(present, name)
    ensures Talent(present, name, role) == 0
    decreases |present|
  {
    if |present| > 0 {
      UnknownNameScoresZero(present[1..], name, role);
    }
  }

  /** Lines built from the roster's own talents score, unedited, exactly
      their talent total: the score after editing agrees with the score the
      optimiser computed when nothing was changed. */
  lemma {:induction false} UneditedLineScore(present: seq<Player>, line: seq<Item>, role: Role)
    requires forall i :: 0 <= i < |line| ==> Talent(present, line[i].name, role) == line[i].talent
    ensures LineScore(present, Names(line), role) == Total(line)
    decreases |line|
  {
    if |line| > 0 {
      UneditedLineScore(present, line[..|line| - 1], role);
      assert Names(line)[..|line| - 1] == Names(line[..|line| - 1]);
    }
  }

  /** `[n for n, _ in L]`. */
  function Names(line: seq<Item>): (ns: seq<string>)
    ensures |ns| == |line|
    ensures forall i :: 0 <= i < |line| ==> ns[i] == line[i].name
  {
    seq(|line|, i requires 0 <= i < |line| => line[i].name)
  }

  /** Adding a name absent from the roster to any line leaves its score
      unchanged; a line is scored from its names only. */
  lemma UnknownNameAddsNothing(present: seq<Player>, names: seq<string>, name: string, role: Role)
    requires !Known(present, name)
    ensures LineScore(present, names + [name], role) == LineScore(present, names, role)
  {
    UnknownNameScoresZero(present, name, role);
    assert (names + [name])[..|names|] == names;
  }

  /** `team_total(lines)`: the talent total of computed lines. */
  function TeamTotal(lines: seq<seq<Item>>): int
  {
    if |lines| == 0 then 0 else TeamTotal(lines[..|lines| - 1]) + Total(lines[|lines| - 1])
  }

  /** `lines_to_names(lines)`. */
  function LinesNames(lines: seq<seq<Item>>): (ns: seq<seq<string>>)
    ensures |ns| == |lines|
    ensures forall g :: 0 <= g < |lines| ==> ns[g] == Names(lines[g])
  {
    seq(|lines|, g requires 0 <= g < |lines| => Names(lines[g]))
  }

  /** Every player of `lines` has, in the roster, the talent the line builder
      used for `role`. */
  predicate FromRoster(present: seq<Player>, lines: seq<seq<Item>>, role: Role)
  {
    forall g, i :: 0 <= g < |lines| && 0 <= i < |lines[g]| ==> Talent(present, lines[g][i].name, role) == lines[g][i].talent
  }

  lemma {:induction false} UneditedLinesScore(present: seq<Player>, lines: seq<seq<Item>>, role: Role)
    requires FromRoster(present, lines, role)
    ensures LinesScore(present, LinesNames(lines), role) == TeamTotal(lines)
    decreases |lines|
  {
    if |lines| > 0 {
      var init := lines[..|lines| - 1];
      UneditedLinesScore(present, init, role);
      UneditedLineScore(present, lines[|lines| - 1], role);
      assert LinesNames(lines)[..|lines| - 1] == LinesNames(init);
    }
  }

  /** A team left as computed, three players per trio and two per duo, is
      scored by `safe_total` exactly as `team_total` scored it (lines 69-73):
      the score after editing only moves when the lines are edited. */
  lemma UneditedTeamScore(present: seq<Player>, trios: seq<seq<Item>>, duos: seq<seq<Item>>)
    requires FromRoster(present, trios, Forward) && FromRoster(present, duos, Defence)
    requires forall g :: 0 <= g < |trios| ==> |trios[g]| == 3
    requires forall g :: 0 <= g < |duos| ==> |duos[g]| == 2
    ensures SafeTotal(present, LinesNames(trios), LinesNames(duos)) == Some(TeamTotal(trios) + TeamTotal(duos))
  {
    UneditedLinesScore(present, trios, Forward);
    UneditedLinesScore(present, duos, Defence);
    assert WellSized(LinesNames(trios), LinesNames(duos));
  }
}
