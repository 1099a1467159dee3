/** `assign_positions`: splitting the present players into a forward pool and a
    defence pool, then topping up a short pool with the most versatile players
    of the other one. */
module Positions {
  import opened Seqs

  datatype Player = Player(name: string, attack: int, defense: int)

  datatype Role = Forward | Defence

  /** A player's preferred role; a tie in talents goes to attack. */
  function NaturalRole(p: Player): (r: Role)
    ensures r == Forward <==> p.attack >= p.defense
  {
    if p.attack >= p.defense then Forward else Defence
  }

  /** How much better `p` plays in role `to` than in the other role: the
      `gap` column of `move_needed`. */
  function Gap(p: Player, to: Role): int
  {
    if to == Forward then p.attack - p.defense else p.defense - p.attack
  }

  /** The players of `s` whose natural role is `role`, in roster order. */
  function WithRole(s: seq<Player>, role: Role): (r: seq<Player>)
    ensures forall p :: p in r <==> p in s && NaturalRole(p) == role
    ensures role == Forward ==> forall p :: p in r <==> p in s && p.attack >= p.defense
    ensures role == Defence ==> forall p :: p in r <==> p in s && p.attack < p.defense
    decreases |s|
  {
    if |s| == 0 then []
    else
      var last := s[|s| - 1];
      assert s == s[..|s| - 1] + [last];
      var init := WithRole(s[..|s| - 1], role);
      if NaturalRole(last) == role then init + [last] else init
  }

  /** The two natural-role pools split the roster: nobody is lost or counted twice. */
  lemma {:induction false} RolesPartition(s: seq<Player>)
    ensures multiset(WithRole(s, Forward)) + multiset(WithRole(s, Defence)) == multiset(s)
    decreases |s|
  {
    if |s| > 0 {
      assert s == s[..|s| - 1] + [s[|s| - 1]];
      RolesPartition(s[..|s| - 1]);
    }
  }

  /** Index of the first player with the largest gap towards `to`. */
  function FirstMax(s: seq<Player>, to: Role): (i: nat)
    requires |s| > 0
    ensures i < |s|
    ensures forall j :: 0 <= j < |s| ==> Gap(s[j], to) <= Gap(s[i], to)
    ensures forall j :: 0 <= j < i ==> Gap(s[j], to) < Gap(s[i], to)
    decreases |s|
  {
    if |s| == 1 then 0
    else
      var k := FirstMax(s[..|s| - 1], to);
      if Gap(s[|s| - 1], to) > Gap(s[k], to) then |s| - 1 else k
  }

  /** Every player of `s` has a gap towards `to` of at most `b`. */
  predicate GapsAtMost(s: seq<Player>, to: Role, b: int)
  {
    forall j :: 0 <= j < |s| ==> Gap(s[j], to) <= b
  }

  lemma GapsAtMostSubBag(xs: seq<Player>, ys: seq<Player>, to: Role, b: int)
    requires multiset(xs) <= multiset(ys)
    requires GapsAtMost(ys, to, b)
    ensures GapsAtMost(xs, to, b)
  {
    forall j | 0 <= j < |xs|
      ensures Gap(xs[j], to) <= b
    {
      assert xs[j] in multiset(ys);
    }
  }

  /** Every gap in `hi` is at least every gap in `lo`. */
  predicate Dominates(hi: seq<Player>, lo: seq<Player>, to: Role)
  {
    forall i, j :: 0 <= i < |hi| && 0 <= j < |lo| ==> Gap(lo[j], to) <= Gap(hi[i], to)
  }

  /** Gaps are non-increasing along `s`. */
  predicate GapsDescending(s: seq<Player>, to: Role)
  {
    forall i, j :: 0 <= i < j < |s| ==> Gap(s[j], to) <= Gap(s[i], to)
  }

  lemma ConsTop(top: Player, m: seq<Player>, r: seq<Player>, to: Role)
    requires GapsAtMost(m, to, Gap(top, to)) && GapsAtMost(r, to, Gap(top, to))
    requires Dominates(m, r, to) && GapsDescending(m, to)
    ensures Dominates([top] + m, r, to) && GapsDescending([top] + m, to)
  {
    var t := [top] + m;
    forall i, j | 0 <= i < |t| && 0 <= j < |r|
      ensures Gap(r[j], to) <= Gap(t[i], to)
    {
      if i > 0 {
        assert t[i] == m[i - 1];
      }
    }
    forall i, j | 0 <= i < j < |t|
      ensures Gap(t[j], to) <= Gap(t[i], to)
    {
      assert t[j] == m[j - 1];
      if i > 0 {
        assert t[i] == m[i - 1];
      }
    }
  }

  /** `source.sort_values("gap", ascending=False).head(k)` together with the
      players left behind (`source.drop(movers.index)`), the latter in their
      original order. Equal gaps are taken in roster order. */
  function TakeTop(s: seq<Player>, k: nat, to: Role): (r: (seq<Player>, seq<Player>))
    requires k <= |s|
    ensures |r.0| == k && |r.1| == |s| - k
    ensures multiset(r.0) + multiset(r.1) == multiset(s)
    ensures Dominates(r.0, r.1, to)
    ensures GapsDescending(r.0, to)
    decreases k
  {
    if k == 0 then ([], s)
    else
      var i := FirstMax(s, to);
      var r' := TakeTop(s[..i] + s[i + 1..], k - 1, to);
      TopFirst(s, i, r'.0, r'.1, to);
      ([s[i]] + r'.0, r'.1)
  }

  /** Putting the player of largest gap in front of the picks from the
      others keeps the picks ahead of the rest. */
  lemma TopFirst(s: seq<Player>, i: nat, movers: seq<Player>, rest: seq<Player>, to: Role)
    requires i < |s| && forall j :: 0 <= j < |s| ==> Gap(s[j], to) <= Gap(s[i], to)
    requires multiset(movers) + multiset(rest) == multiset(s[..i] + s[i + 1..])
    requires Dominates(movers, rest, to) && GapsDescending(movers, to)
    ensures multiset([s[i]] + movers) + multiset(rest) == multiset(s)
    ensures Dominates([s[i]] + movers, rest, to) && GapsDescending([s[i]] + movers, to)
  {
    var top := s[i];
    var others := s[..i] + s[i + 1..];
    assert s == s[..i] + [top] + s[i + 1..];
    assert multiset(s) == multiset(others) + multiset{top};
    assert GapsAtMost(s, to, Gap(top, to));
    GapsAtMostSubBag(others, s, to, Gap(top, to));
    GapsAtMostSubBag(movers, others, to, Gap(top, to));
    GapsAtMostSubBag(rest, others, to, Gap(top, to));
    ConsTop(top, movers, rest, to);
  }

  /** One quota adjustment (`move_needed`): when `into` is short of `want` and
      `from` is not empty, the `min(want - |into|, |from|)` players of `from`
      with the largest gap towards `to` are appended to `into`. */
  function Adjust(into: seq<Player>, from: seq<Player>, want: int, to: Role): (r: (seq<Player>, seq<Player>))
    ensures multiset(r.0) + multiset(r.1) == multiset(into) + multiset(from)
    ensures |into| < want && |from| > 0 ==>
              && |r.0| == |into| + Min(want - |into|, |from|)
              && r.0[..|into|] == into
              && multiset(r.0[|into|..]) + multiset(r.1) == multiset(from)
              && (forall p :: p in r.0[|into|..] ==> p in from)
              && Dominates(r.0[|into|..], r.1, to)
    ensures !(|into| < want && |from| > 0) ==> r == (into, from)
  {
    if |into| < want && |from| > 0 then
      var need := Min(want - |into|, |from|);
      var (movers, remaining) := TakeTop(from, need, to);
      var grown := into + movers;
      assert grown[..|into|] == into && grown[|into|..] == movers;
      assert forall p :: p in movers ==> p in multiset(from);
      (grown, remaining)
    else
      (into, from)
  }

  /** `assign_positions(present, want_fw, want_df)`: the forward pool and the
      defence pool. */
  function AssignPositions(present: seq<Player>, wantFw: int, wantDf: int): (r: (seq<Player>, seq<Player>))
    ensures multiset(r.0) + multiset(r.1) == multiset(present)
  {
    var fw0 := WithRole(present, Forward);
    var de0 := WithRole(present, Defence);
    RolesPartition(present);
    var (fw1, de1) := Adjust(fw0, de0, wantFw, Forward);
    var (de2, fw2) := Adjust(de1, fw1, wantDf, Defence);
    (fw2, de2)
  }

  /** When neither pool is short of its quota, every player keeps the natural role. */
  lemma NoShortfallNoMove(present: seq<Player>, wantFw: int, wantDf: int)
    requires |WithRole(present, Forward)| >= wantFw
    requires |WithRole(present, Defence)| >= wantDf
    ensures AssignPositions(present, wantFw, wantDf) == (WithRole(present, Forward), WithRole(present, Defence))
  {
  }

  /** With at least `want_fw + want_df` players present, both quotas are met. */
  lemma {:induction false} QuotasMetWhenEnoughPlayers(present: seq<Player>, wantFw: nat, wantDf: nat)
    requires |present| >= wantFw + wantDf
    ensures |AssignPositions(present, wantFw, wantDf).0| >= wantFw
    ensures |AssignPositions(present, wantFw, wantDf).1| >= wantDf
  {
    var fw0 := WithRole(present, Forward);
    var de0 := WithRole(present, Defence);
    RolesPartition(present);
    assert |fw0| + |de0| == |present| by {
      assert |multiset(fw0) + multiset(de0)| == |multiset(present)|;
    }
    AdjustSizes(fw0, de0, wantFw, Forward);
    var (fw1, de1) := Adjust(fw0, de0, wantFw, Forward);
    AdjustSizes(de1, fw1, wantDf, Defence);
  }

  /** How many players each side of an adjustment ends up with. */
  lemma AdjustSizes(into: seq<Player>, from: seq<Player>, want: int, to: Role)
    ensures var r := Adjust(into, from, want, to);
      && |r.0| + |r.1| == |into| + |from|
      && |r.0| == if |into| < want && |from| > 0 then |into| + Min(want - |into|, |from|) else |into|
  {
    var r := Adjust(into, from, want, to);
    assert |multiset(r.0) + multiset(r.1)| == |multiset(into) + multiset(from)|;
  }
}
