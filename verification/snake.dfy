/** `snake_partition`: cutting an already sorted list into four consecutive
    groups of `group_size`, the last group taking every player left over. */
module Snake {
  import opened Seqs

  lemma FlattenPushLast<T>(groups: seq<seq<T>>, x: T)
    requires |groups| > 0
    ensures Flatten(groups[|groups| - 1 := groups[|groups| - 1] + [x]]) == Flatten(groups) + [x]
  {
    var n := |groups| - 1;
    var g := groups[n := groups[n] + [x]];
    assert g[..n] == groups[..n];
  }

  lemma FlattenPushEmpty<T>(groups: seq<seq<T>>)
    ensures Flatten(groups + [[]]) == Flatten(groups)
  {
    assert (groups + [[]])[..|groups|] == groups;
  }

  /** Players are appended to the current group; a group that reaches
      `groupSize` opens the next one, until the fourth group, which then takes
      every remaining player. Missing groups are padded with empty ones. */
  method SnakePartition<T>(players: seq<T>, groupSize: int) returns (groups: seq<seq<T>>)
    ensures |groups| == 4
    ensures Flatten(groups) == players
    ensures groupSize >= 1 ==> forall i :: 0 <= i < 3 ==> |groups[i]| <= groupSize
    ensures groupSize >= 1 ==> forall i, j :: 0 <= i < j < 4 && |groups[j]| > 0 ==> |groups[i]| == groupSize
    ensures groupSize < 1 ==> groups[0] == players
  {
    groups := [[]];
    var idx := 0;
    for k := 0 to |players|
      invariant 1 <= |groups| <= 4
      invariant idx == |groups| - 1
      invariant Flatten(groups) == players[..k]
      invariant forall i :: 0 <= i < idx ==> |groups[i]| == groupSize
      invariant groupSize >= 1 && idx < 3 ==> |groups[idx]| < groupSize
      invariant groupSize < 1 ==> idx == 0
    {
      FlattenPushLast(groups, players[k]);
      assert players[..k + 1] == players[..k] + [players[k]];
      groups := groups[idx := groups[idx] + [players[k]]];
      if |groups[idx]| == groupSize {
        if |groups| == 4 {
          continue;
        }
        FlattenPushEmpty(groups);
        groups := groups + [[]];
        idx := idx + 1;
      }
    }
    assert players[..|players|] == players;
    groups := PadGroups(groups, idx, groupSize);
  }

  /** Appends empty groups up to four; the groups before `filled` are full
      and the later ones empty. */
  method PadGroups<T>(groups0: seq<seq<T>>, filled: nat, groupSize: int) returns (groups: seq<seq<T>>)
    requires filled < |groups0| <= 4
    requires forall i :: 0 <= i < filled ==> |groups0[i]| == groupSize
    requires groupSize >= 1 && filled < 3 ==> |groups0[filled]| < groupSize
    requires forall i :: filled < i < |groups0| ==> |groups0[i]| == 0
    requires groupSize < 1 ==> filled == 0 && |groups0| == 1
    ensures |groups| == 4 && Flatten(groups) == Flatten(groups0)
    ensures groupSize >= 1 ==> forall i :: 0 <= i < 3 ==> |groups[i]| <= groupSize
    ensures groupSize >= 1 ==> forall i, j :: 0 <= i < j < 4 && |groups[j]| > 0 ==> |groups[i]| == groupSize
    ensures groupSize < 1 ==> groups[0] == Flatten(groups0)
  {
    groups := groups0;
    while |groups| < 4
      invariant filled < |groups| <= 4
      invariant groups[..|groups0|] == groups0
      invariant Flatten(groups) == Flatten(groups0)
      invariant forall i :: 0 <= i < filled ==> |groups[i]| == groupSize
      invariant groupSize >= 1 && filled < 3 ==> |groups[filled]| < groupSize
      invariant forall i :: filled < i < |groups| ==> |groups[i]| == 0
    {
      FlattenPushEmpty(groups);
      groups := groups + [[]];
    }
    if groupSize < 1 {
      assert groups0 == [groups[0]];
      assert Flatten(groups0) == groups[0] by {
        FlattenFour(groups[0], [], [], []);
      }
      assert Flatten(groups) == groups[0] by {
        FlattenFour(groups[0], groups[1], groups[2], groups[3]);
        assert groups == [groups[0], groups[1], groups[2], groups[3]];
      }
    }
  }
}
