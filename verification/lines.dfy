/** `make_lines_balanced`: building four lines of `line_size` players by a
    snake fill over talent-sorted players, repeated over several shuffles, and
    keeping the fullest trial whose line totals vary least. */
module Lines {
  import opened Wrappers
  import opened Seqs
  import opened Items
  import opened Sorting
  import opened Search

  /** The snake path `list(range(4)) + list(range(3, -1, -1))`. */
  function PathAt(i: nat): (g: nat)
    requires i < 8
    ensures g < 4
  {
    [0, 1, 2, 3, 3, 2, 1, 0][i]
  }

  /** `len(path) * 10`: the fill loop gives up after this many path steps. */
  const StepCap: nat := 80

  /** `np.var` starts from `best_score = 1e9`; in units of `Spread` (16 times
      the variance) that bound is 16 * 10^9. */
  const Sentinel: real := 16_000_000_000.0

  /** Advances along the path from step `gi` to the first group with room,
      giving up at `StepCap` (the inner `while not placed and gi < ...`). */
  function Seek(groups: seq<seq<Item>>, size: int, gi: nat): (g: nat)
    requires |groups| == 4
    ensures g >= gi
    ensures gi <= StepCap ==> g <= StepCap
    ensures g < StepCap ==> |groups[PathAt(g % 8)]| < size
    decreases StepCap - gi
  {
    if gi >= StepCap then gi
    else if |groups[PathAt(gi % 8)]| < size then gi
    else Seek(groups, size, gi + 1)
  }

  lemma FlattenGrow(groups: seq<seq<Item>>, i: nat, x: Item)
    requires i < |groups|
    ensures multiset(Flatten(groups[i := groups[i] + [x]])) == multiset(Flatten(groups)) + multiset{x}
    decreases |groups|
  {
    var g := groups[i := groups[i] + [x]];
    var n := |groups| - 1;
    if i == n {
      assert g[..n] == groups[..n];
    } else {
      assert g[..n] == groups[..n][i := groups[i] + [x]];
      FlattenGrow(groups[..n], i, x);
    }
  }

  /** The state of the fill: the four groups, the path step `gi`, and how many
      players of the sorted list have been placed. */
  datatype Fill = Fill(groups: seq<seq<Item>>, gi: nat, placed: nat)

  /** One turn of the `for name, sc in cand` loop: `x` goes to the next group
      on the path that has room, or nowhere once the path is exhausted. */
  function Place(prev: Fill, x: Item, size: int): (f: Fill)
    requires |prev.groups| == 4 && prev.gi <= StepCap
    requires forall i :: 0 <= i < 4 ==> |prev.groups[i]| <= Max(size, 0)
    ensures |f.groups| == 4 && prev.gi <= f.gi <= StepCap
    ensures forall i :: 0 <= i < 4 ==> |f.groups[i]| <= Max(size, 0)
    ensures prev.gi == StepCap ==> f == prev
    ensures || (f.placed == prev.placed + 1 && f.gi > prev.gi
                && multiset(Flatten(f.groups)) == multiset(Flatten(prev.groups)) + multiset{x})
            || (f.groups == prev.groups && f.placed == prev.placed && f.gi == StepCap)
  {
    var g := Seek(prev.groups, size, prev.gi);
    if g < StepCap then
      var i := PathAt(g % 8);
      FlattenGrow(prev.groups, i, x);
      Fill(prev.groups[i := prev.groups[i] + [x]], g + 1, prev.placed + 1)
    else
      Fill(prev.groups, g, prev.placed)
  }

  /** The whole `for name, sc in cand` loop. Once the path is exhausted
      nobody else is placed, so the placed players are always a prefix of
      `cand`. */
  function SnakeFill(cand: seq<Item>, size: int): (f: Fill)
    ensures |f.groups| == 4
    ensures f.placed <= |cand| && f.placed <= f.gi <= StepCap
    ensures multiset(Flatten(f.groups)) == multiset(cand[..f.placed])
    ensures f.placed < |cand| ==> f.gi == StepCap
    ensures forall i :: 0 <= i < 4 ==> |f.groups[i]| <= Max(size, 0)
    decreases |cand|
  {
    if |cand| == 0 then
      FlattenFour<Item>([], [], [], []);
      Fill([[], [], [], []], 0, 0)
    else
      var n := |cand| - 1;
      var prev := SnakeFill(cand[..n], size);
      var f := Place(prev, cand[n], size);
      assert prev.placed < n ==> prev.gi == StepCap;
      PlacedPrefix(cand, prev, f);
      f
  }

  /** The step of `SnakeFill`: placing the last candidate, or nobody once
      the path is exhausted, keeps the placed players a prefix of `cand`. */
  lemma PlacedPrefix(cand: seq<Item>, prev: Fill, f: Fill)
    requires |cand| > 0 && prev.placed < |cand|
    requires multiset(Flatten(prev.groups)) == multiset(cand[..|cand| - 1][..prev.placed])
    requires prev.placed < |cand| - 1 ==> f.placed == prev.placed
    requires || (f.placed == prev.placed + 1
                 && multiset(Flatten(f.groups)) == multiset(Flatten(prev.groups)) + multiset{cand[|cand| - 1]})
             || (f.groups == prev.groups && f.placed == prev.placed)
    ensures multiset(Flatten(f.groups)) == multiset(cand[..f.placed])
  {
    var n := |cand| - 1;
    if f.placed == prev.placed + 1 {
      assert cand[..n][..n] == cand[..n];
      assert cand[..f.placed] == cand == cand[..n] + [cand[n]];
    } else {
      assert cand[..n][..prev.placed] == cand[..prev.placed];
    }
  }

  /** One trial: `sorted(items, key=talent, reverse=True)` then the snake fill. */
  function Trial(order: seq<Item>, size: int): seq<seq<Item>>
  {
    SnakeFill(SortDesc(order, TalentKey), size).groups
  }

  /** `all(len(g) == line_size for g in groups)`. */
  predicate Full(groups: seq<seq<Item>>, size: int)
  {
    |groups| == 4 && forall i :: 0 <= i < 4 ==> |groups[i]| == size
  }

  function PopulationVariance(t0: real, t1: real, t2: real, t3: real): real
  {
    var m := (t0 + t1 + t2 + t3) / 4.0;
    ((t0 - m) * (t0 - m) + (t1 - m) * (t1 - m) + (t2 - m) * (t2 - m) + (t3 - m) * (t3 - m)) / 4.0
  }

  /** 16 times the population variance of the four line totals,
      `4 * sum(t * t) - sum(t) ** 2`, which orders trials exactly as
      `np.var(totals)` does. */
  function Spread(groups: seq<seq<Item>>): real
    requires |groups| == 4
  {
    var t0, t1, t2, t3 := Total(groups[0]) as real, Total(groups[1]) as real, Total(groups[2]) as real, Total(groups[3]) as real;
    4.0 * (t0 * t0 + t1 * t1 + t2 * t2 + t3 * t3) - (t0 + t1 + t2 + t3) * (t0 + t1 + t2 + t3)
  }

  /** `Spread` is the variance of the line totals scaled by 16, so comparing
      spreads compares variances. */
  lemma SpreadIsScaledVariance(groups: seq<seq<Item>>)
    requires |groups| == 4
    ensures Spread(groups) ==
            16.0 * PopulationVariance(Total(groups[0]) as real, Total(groups[1]) as real,
                                      Total(groups[2]) as real, Total(groups[3]) as real)
  {
    var a, b, c, d := Total(groups[0]) as real, Total(groups[1]) as real, Total(groups[2]) as real, Total(groups[3]) as real;
    var m := (a + b + c + d) / 4.0;
    var sq := a * a + b * b + c * c + d * d;
    assert a + b + c + d == 4.0 * m;
    assert (a - m) * (a - m) == a * a - 2.0 * m * a + m * m;
    assert (b - m) * (b - m) == b * b - 2.0 * m * b + m * m;
    assert (c - m) * (c - m) == c * c - 2.0 * m * c + m * m;
    assert (d - m) * (d - m) == d * d - 2.0 * m * d + m * m;
    assert 16.0 * PopulationVariance(a, b, c, d) == 4.0 * sq - 16.0 * m * m;
    assert (a + b + c + d) * (a + b + c + d) == 16.0 * m * m;
  }

  /** A trial the source would keep if nothing better came before it: all four
      lines full and a variance below the initial `best_score`. */
  predicate Accepted(t: seq<seq<Item>>, size: int)
  {
    Full(t, size) && Spread(t) < Sentinel
  }

  /** What the trial loop sees of a trial: its spread when all four lines are
      full, nothing otherwise. */
  function Score(t: seq<seq<Item>>, size: int): (o: Option<real>)
    ensures o.Some? && o.value < Sentinel <==> Accepted(t, size)
    ensures o.Some? ==> |t| == 4 && o.value == Spread(t)
  {
    if Full(t, size) then Some(Spread(t)) else None
  }

  function Scores(ts: seq<seq<seq<Item>>>, size: int): (scores: seq<Option<real>>)
    ensures |scores| == |ts|
    ensures forall j :: 0 <= j < |ts| ==> scores[j] == Score(ts[j], size)
  {
    seq(|ts|, k requires 0 <= k < |ts| => Score(ts[k], size))
  }

  /** Reads the result of the trial loop back in terms of the trials themselves. */
  lemma ScanPicksBestTrial(ts: seq<seq<seq<Item>>>, size: int, pick: Option<nat>)
    requires pick == FirstMin(Scores(ts, size), Sentinel, 0, None, Sentinel)
    ensures pick.None? <==> forall k :: 0 <= k < |ts| ==> !Accepted(ts[k], size)
    ensures pick.Some? ==> && pick.value < |ts| && Accepted(ts[pick.value], size)
                           && (forall j :: 0 <= j < |ts| && Accepted(ts[j], size) ==> Spread(ts[pick.value]) <= Spread(ts[j]))
                           && (forall j :: 0 <= j < pick.value && Accepted(ts[j], size) ==> Spread(ts[pick.value]) < Spread(ts[j]))
  {
    var scores := Scores(ts, size);
    assert forall j :: 0 <= j < |ts| ==> (Below(scores[j], Sentinel) <==> Accepted(ts[j], size));
    assert forall j :: 0 <= j < |ts| && Below(scores[j], Sentinel) ==> scores[j].value == Spread(ts[j]);
  }

  /** Every trial order is a shuffle of the same players. */
  predicate Shuffles(items: seq<Item>, orders: seq<seq<Item>>)
  {
    forall k :: 0 <= k < |orders| ==> multiset(orders[k]) == multiset(items)
  }

  /** The groups of every trial, in trial order. */
  function Trials(orders: seq<seq<Item>>, size: int): (ts: seq<seq<seq<Item>>>)
    ensures |ts| == |orders|
    ensures forall k :: 0 <= k < |orders| ==> ts[k] == Trial(orders[k], size)
  {
    seq(|orders|, k requires 0 <= k < |orders| => Trial(orders[k], size))
  }

  /** The trial kept by the loop: the first among the accepted trials with the
      smallest spread, or none when no trial is accepted. */
  predicate KeptTrial(ts: seq<seq<seq<Item>>>, size: int, r: Option<seq<seq<Item>>>)
  {
    && (r.None? <==> forall k :: 0 <= k < |ts| ==> !Accepted(ts[k], size))
    && (r.Some? ==> exists k :: && 0 <= k < |ts| && r.value == ts[k] && Accepted(ts[k], size)
                                && (forall j :: 0 <= j < |ts| && Accepted(ts[j], size) ==> Spread(ts[k]) <= Spread(ts[j]))
                                && (forall j :: 0 <= j < k && Accepted(ts[j], size) ==> Spread(ts[k]) < Spread(ts[j])))
  }

  /** `make_lines_balanced(players, role, line_size, iterations)` where the
      `k`-th shuffle of the players is `orders[k]` and `iterations == |orders|`. */
  function MakeLinesBalanced(items: seq<Item>, size: int, orders: seq<seq<Item>>): (r: Option<seq<seq<Item>>>)
    requires Shuffles(items, orders)
    ensures KeptTrial(Trials(orders, size), size, r)
    ensures r.Some? ==> Full(r.value, size) && multiset(Flatten(r.value)) <= multiset(items)
  {
    var ts := Trials(orders, size);
    var pick := FirstMin(Scores(ts, size), Sentinel, 0, None, Sentinel);
    var r := if pick.None? then None else Some(ts[pick.value]);
    PickIsKept(ts, size, pick, r);
    if pick.Some? then
      TrialUsesEachPlayerOnce(orders[pick.value], size);
      r
    else
      r
  }

  lemma PickIsKept(ts: seq<seq<seq<Item>>>, size: int, pick: Option<nat>, r: Option<seq<seq<Item>>>)
    requires pick == FirstMin(Scores(ts, size), Sentinel, 0, None, Sentinel)
    requires r == if pick.None? then None else Some(ts[pick.value])
    ensures KeptTrial(ts, size, r)
  {
    ScanPicksBestTrial(ts, size, pick);
    if pick.Some? {
      var k := pick.value;
      assert 0 <= k < |ts| && r.value == ts[k] && Accepted(ts[k], size);
    }
  }

  /** A trial places each player at most once. */
  lemma TrialUsesEachPlayerOnce(order: seq<Item>, size: int)
    ensures multiset(Flatten(Trial(order, size))) <= multiset(order)
  {
    var cand := SortDesc(order, TalentKey);
    var f := SnakeFill(cand, size);
    assert cand == cand[..f.placed] + cand[f.placed..];
  }

  lemma FourSizes(groups: seq<seq<Item>>)
    requires |groups| == 4
    ensures |Flatten(groups)| == |groups[0]| + |groups[1]| + |groups[2]| + |groups[3]|
  {
    FlattenFour(groups[0], groups[1], groups[2], groups[3]);
    assert groups == [groups[0], groups[1], groups[2], groups[3]];
  }

  /** Fewer than `4 * line_size` players can never fill four lines, and neither
      can more than 20 players per line, since the fill gives up after 80 steps. */
  lemma TrialNeverFull(order: seq<Item>, size: int)
    requires (size > 0 && |order| < 4 * size) || size > 20
    ensures !Full(Trial(order, size), size)
  {
    var cand := SortDesc(order, TalentKey);
    var f := SnakeFill(cand, size);
    TrialUsesEachPlayerOnce(order, size);
    assert |multiset(Flatten(f.groups))| == f.placed;
    FourSizes(f.groups);
  }

  lemma CannotFill(items: seq<Item>, size: int, orders: seq<seq<Item>>)
    requires Shuffles(items, orders)
    requires (size > 0 && |items| < 4 * size) || size > 20
    ensures MakeLinesBalanced(items, size, orders) == None
  {
    var ts := Trials(orders, size);
    forall k | 0 <= k < |orders|
      ensures !Accepted(ts[k], size)
    {
      assert |orders[k]| == |multiset(orders[k])| == |multiset(items)|;
      TrialNeverFull(orders[k], size);
    }
  }
}
