/** The four-team draft of `pages/5_Generation_tournoi.py`
    (`creer_equipes_equilibrees`): each role, shuffled and then sorted by
    talent from best to worst, is dealt round-robin, so that the `k`-th
    ranked player joins team `k mod 4` (numbered from 0 here, from 1 in the
    team names). */
module Draft {
  import opened Items
  import opened Sorting

  /** The players dealt to seat `g`: positions `g`, `g + 4`, `g + 8`, ...
      (so `|r|` is `(|s| - g) / 4` rounded up). */
  function Deal<T>(s: seq<T>, g: nat): (r: seq<T>)
    requires g < 4
    ensures 4 * |r| - 3 <= |s| - g <= 4 * |r|
    decreases |s|
  {
    if g >= |s| then []
    else if |s| < 4 then [s[g]]
    else [s[g]] + Deal(s[4..], g)
  }

  /** Everything dealt, counted with multiplicity. */
  function Seats<T>(s: seq<T>): multiset<T>
  {
    multiset(Deal(s, 0)) + multiset(Deal(s, 1)) + multiset(Deal(s, 2)) + multiset(Deal(s, 3))
  }

  lemma SeatsStep<T>(s: seq<T>)
    requires |s| >= 4
    ensures Seats(s) == multiset(s[..4]) + Seats(s[4..])
  {
    var t := s[4..];
    var e0, e1, e2, e3 := multiset{s[0]}, multiset{s[1]}, multiset{s[2]}, multiset{s[3]};
    var a0, a1, a2, a3 := multiset(Deal(t, 0)), multiset(Deal(t, 1)), multiset(Deal(t, 2)), multiset(Deal(t, 3));
    assert multiset(Deal(s, 0)) == e0 + a0;
    assert multiset(Deal(s, 1)) == e1 + a1;
    assert multiset(Deal(s, 2)) == e2 + a2;
    assert multiset(Deal(s, 3)) == e3 + a3;
    FirstFour(s);
  }

  lemma FirstFour<T>(s: seq<T>)
    requires |s| >= 4
    ensures multiset(s[..4]) == multiset{s[0]} + multiset{s[1]} + multiset{s[2]} + multiset{s[3]}
    ensures multiset(s) == multiset(s[..4]) + multiset(s[4..])
  {
    assert s[..4] == [s[0], s[1], s[2], s[3]];
    assert s == s[..4] + s[4..];
  }

  lemma SeatsSmall<T>(s: seq<T>)
    requires |s| < 4
    ensures Seats(s) == multiset(s)
  {
    Short(s);
    if |s| == 3 {
      assert Deal(s, 0) == [s[0]] && Deal(s, 1) == [s[1]] && Deal(s, 2) == [s[2]] && Deal(s, 3) == [];
    } else if |s| == 2 {
      assert Deal(s, 0) == [s[0]] && Deal(s, 1) == [s[1]] && Deal(s, 2) == [] && Deal(s, 3) == [];
    } else if |s| == 1 {
      assert Deal(s, 0) == [s[0]] && Deal(s, 1) == [] && Deal(s, 2) == [] && Deal(s, 3) == [];
    }
  }

  lemma Short<T>(s: seq<T>)
    requires |s| < 4
    ensures |s| == 3 ==> multiset(s) == multiset([s[0]]) + multiset([s[1]]) + multiset([s[2]])
    ensures |s| == 2 ==> multiset(s) == multiset([s[0]]) + multiset([s[1]])
    ensures |s| == 1 ==> multiset(s) == multiset([s[0]])
  {
    if |s| == 3 {
      assert s == [s[0]] + [s[1]] + [s[2]];
    } else if |s| == 2 {
      assert s == [s[0]] + [s[1]];
    }
  }

  /** The four seats together hold every element exactly as often as `s`. */
  lemma {:induction false} DealPartition<T>(s: seq<T>)
    ensures Seats(s) == multiset(s)
    decreases |s|
  {
    if |s| >= 4 {
      DealPartition(s[4..]);
      SeatsStep(s);
      FirstFour(s);
    } else {
      SeatsSmall(s);
    }
  }

  /** Seat `g` holds, at place `j`, the element at position `4 * j + g`. */
  lemma {:induction false} DealAt<T>(s: seq<T>, g: nat)
    requires g < 4
    ensures forall j :: 0 <= j < |Deal(s, g)| ==> 4 * j + g < |s| && Deal(s, g)[j] == s[4 * j + g]
    decreases |s|
  {
    if g < |s| && |s| >= 4 {
      DealAt(s[4..], g);
      forall j | 0 <= j < |Deal(s, g)|
        ensures 4 * j + g < |s| && Deal(s, g)[j] == s[4 * j + g]
      {
        if j > 0 {
          assert Deal(s, g)[j] == Deal(s[4..], g)[j - 1];
        }
      }
    }
  }

  /** Seat `g` has as many elements as seat `g + 1`, or one more. */
  lemma DealLevel<T>(s: seq<T>, g: nat)
    requires g < 3
    ensures |Deal(s, g + 1)| <= |Deal(s, g)| <= |Deal(s, g + 1)| + 1
  {
    var a, b := |Deal(s, g)|, |Deal(s, g + 1)|;
    assert 4 * b <= 4 * a + 2;
    assert 4 * a <= 4 * b + 5;
  }

  /** The `k`-th element goes to seat `k mod 4`, at place `k / 4`. */
  lemma DealSeat<T>(s: seq<T>, k: nat)
    requires k < |s|
    ensures k / 4 < |Deal(s, k % 4)| && Deal(s, k % 4)[k / 4] == s[k]
  {
    DealAt(s, k % 4);
  }

  /** Talents never increase along `s`. */
  predicate Descending(s: seq<Item>)
  {
    forall i, j :: 0 <= i < j < |s| ==> s[j].talent <= s[i].talent
  }

  lemma SortedIsDescending(s: seq<Item>)
    requires SortedDesc(s, TalentKey)
    ensures Descending(s)
  {
    forall i, j | 0 <= i < j < |s|
      ensures s[j].talent <= s[i].talent
    {
      assert KeyLe(TalentKey(s[j]), TalentKey(s[i]));
      assert TalentKey(s[j])[1..] == [];
    }
  }

  /** No talent is negative. */
  predicate NonNegative(s: seq<Item>)
  {
    forall i :: 0 <= i < |s| ==> s[i].talent >= 0
  }

  lemma TotalCons(x: Item, s: seq<Item>)
    ensures Total([x] + s) == x.talent + Total(s)
  {
    TotalAppend([x], s);
    assert [x][..0] == [];
  }

  lemma {:induction false} TotalNonNegative(s: seq<Item>)
    requires NonNegative(s)
    ensures Total(s) >= 0
    decreases |s|
  {
    if |s| > 0 {
      TotalNonNegative(s[..|s| - 1]);
    }
  }

  /** From a best-first order of non-negative talents, each seat totals at
      least as much as the next one. */
  lemma {:induction false} DealTotals(s: seq<Item>, g: nat)
    requires Descending(s) && NonNegative(s) && g < 3
    ensures Total(Deal(s, g)) >= Total(Deal(s, g + 1))
    decreases |s|
  {
    if g + 1 >= |s| {
      if g < |s| {
        TotalNonNegative(Deal(s, g));
      }
    } else if |s| < 4 {
      TotalCons(s[g], []);
      TotalCons(s[g + 1], []);
    } else {
      DealTotals(s[4..], g);
      TotalCons(s[g], Deal(s[4..], g));
      TotalCons(s[g + 1], Deal(s[4..], g + 1));
    }
  }

  /** One tournament team as the draft builds it: its forwards, then its
      defenders. */
  datatype Squad = Squad(forwards: seq<Item>, defenders: seq<Item>)

  /** Everything the four seats of one role hold, with multiplicity. */
  function Pooled(seats: seq<seq<Item>>): multiset<Item>
    requires |seats| == 4
  {
    multiset(seats[0]) + multiset(seats[1]) + multiset(seats[2]) + multiset(seats[3])
  }

  /** Each seat has as many players as the next one, or one more. */
  predicate Level(seats: seq<seq<Item>>)
    requires |seats| == 4
  {
    forall t :: 0 <= t < 3 ==> |seats[t + 1]| <= |seats[t]| <= |seats[t + 1]| + 1
  }

  /** Each seat's talent total is at least the next one's. */
  predicate Stronger(seats: seq<seq<Item>>)
    requires |seats| == 4
  {
    forall t :: 0 <= t < 3 ==> Total(seats[t + 1]) <= Total(seats[t])
  }

  /** The four dealt seats of one role, the best player first. */
  function DealRole(order: seq<Item>): (seats: seq<seq<Item>>)
    ensures |seats| == 4
    ensures Drafted(order, order, seats)
  {
    var sorted := SortDesc(order, TalentKey);
    var seats := seq(4, g requires 0 <= g < 4 => Deal(sorted, g));
    SeatsPool(order, sorted, seats);
    SeatsLevel(sorted, seats);
    SeatsRank(sorted, seats);
    SeatsStronger(order, sorted, seats);
    seats
  }

  /** The seats dealt from `sorted`. */
  predicate DealtFrom(seats: seq<seq<Item>>, sorted: seq<Item>)
  {
    |seats| == 4 && forall g :: 0 <= g < 4 ==> seats[g] == Deal(sorted, g)
  }

  lemma SeatsPool(order: seq<Item>, sorted: seq<Item>, seats: seq<seq<Item>>)
    requires multiset(sorted) == multiset(order) && DealtFrom(seats, sorted)
    ensures Pooled(seats) == multiset(order)
  {
    DealPartition(sorted);
    assert Pooled(seats) == Seats(sorted);
  }

  lemma SeatsLevel(sorted: seq<Item>, seats: seq<seq<Item>>)
    requires DealtFrom(seats, sorted)
    ensures Level(seats)
  {
    forall g | 0 <= g < 3
      ensures |seats[g + 1]| <= |seats[g]| <= |seats[g + 1]| + 1
    {
      DealLevel(sorted, g);
    }
  }

  lemma SeatsRank(sorted: seq<Item>, seats: seq<seq<Item>>)
    requires DealtFrom(seats, sorted)
    ensures forall k :: 0 <= k < |sorted| ==> k / 4 < |seats[k % 4]| && seats[k % 4][k / 4] == sorted[k]
  {
    forall k | 0 <= k < |sorted|
      ensures k / 4 < |seats[k % 4]| && seats[k % 4][k / 4] == sorted[k]
    {
      DealSeat(sorted, k);
    }
  }

  lemma SeatsStronger(order: seq<Item>, sorted: seq<Item>, seats: seq<seq<Item>>)
    requires multiset(sorted) == multiset(order) && SortedDesc(sorted, TalentKey) && DealtFrom(seats, sorted)
    ensures NonNegative(order) ==> Stronger(seats)
  {
    SortedIsDescending(sorted);
    RankOrderKeepsSigns(order, sorted);
    if NonNegative(order) {
      forall g | 0 <= g < 3
        ensures Total(seats[g + 1]) <= Total(seats[g])
      {
        DealTotals(sorted, g);
      }
    }
  }

  lemma RankOrderKeepsSigns(order: seq<Item>, sorted: seq<Item>)
    requires multiset(sorted) == multiset(order)
    ensures NonNegative(order) ==> NonNegative(sorted)
  {
    if NonNegative(order) {
      forall i | 0 <= i < |sorted|
        ensures sorted[i].talent >= 0
      {
        assert sorted[i] in multiset(order);
      }
    }
  }

  /** The forwards of the four teams, team by team. */
  function Forwards(teams: seq<Squad>): seq<seq<Item>>
    requires |teams| == 4
  {
    seq(4, t requires 0 <= t < 4 => teams[t].forwards)
  }

  /** The defenders of the four teams, team by team. */
  function Defenders(teams: seq<Squad>): seq<seq<Item>>
    requires |teams| == 4
  {
    seq(4, t requires 0 <= t < 4 => teams[t].defenders)
  }

  /** `seats` is the draft of `pool`, shuffled into `order`: it holds every
      player of the pool exactly once overall, the seats are level in size,
      with non-negative talents the totals never grow from seat to seat, and
      the `k`-th best of the sorted order sits in seat `k mod 4` at place
      `k / 4`. */
  predicate Drafted(pool: seq<Item>, order: seq<Item>, seats: seq<seq<Item>>)
  {
    && |seats| == 4
    && Pooled(seats) == multiset(pool)
    && Level(seats)
    && (NonNegative(pool) ==> Stronger(seats))
    && forall k :: 0 <= k < |order| ==>
         k / 4 < |seats[k % 4]| && seats[k % 4][k / 4] == SortDesc(order, TalentKey)[k]
  }

  lemma DealRoleDrafts(pool: seq<Item>, order: seq<Item>)
    requires multiset(order) == multiset(pool)
    ensures Drafted(pool, order, DealRole(order))
  {
    RankOrderKeepsSigns(pool, order);
    RankOrderKeepsSigns(order, pool);
  }

  /** The four teams, team `t` taking seat `t` of each role. */
  function Assemble(fw: seq<seq<Item>>, df: seq<seq<Item>>): (teams: seq<Squad>)
    requires |fw| == 4 && |df| == 4
    ensures |teams| == 4 && Forwards(teams) == fw && Defenders(teams) == df
  {
    var teams := [Squad(fw[0], df[0]), Squad(fw[1], df[1]), Squad(fw[2], df[2]), Squad(fw[3], df[3])];
    assert Forwards(teams) == fw;
    assert Defenders(teams) == df;
    teams
  }

  /** `creer_equipes_equilibrees` on the shuffled forwards and defenders
      (each shuffle a reordering of its pool): four teams whose forwards are
      a draft of the forwards and whose defenders a draft of the defenders. */
  function CreateTeams(forwards: seq<Item>, defenders: seq<Item>, fwOrder: seq<Item>, dfOrder: seq<Item>)
    : (teams: seq<Squad>)
    requires multiset(fwOrder) == multiset(forwards) && multiset(dfOrder) == multiset(defenders)
    ensures |teams| == 4
    ensures Drafted(forwards, fwOrder, Forwards(teams))
    ensures Drafted(defenders, dfOrder, Defenders(teams))
  {
    DealRoleDrafts(forwards, fwOrder);
    DealRoleDrafts(defenders, dfOrder);
    Assemble(DealRole(fwOrder), DealRole(dfOrder))
  }
}
