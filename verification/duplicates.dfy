/** The duplicate check of `pages/7_Formation_manuelle.py` (`verifier_doublons`)
    and the gate it guards: the eight selected lines are flattened, every
    name that occurs more than once is reported once, in order of first
    appearance, and the page goes on only when nothing is reported. */
module Duplicates {
  import opened Seqs

  /** Occurrences of `x` in `s`. */
  function Count(s: seq<string>, x: string): nat
  {
    multiset(s)[x]
  }

  /** Position of the first occurrence of `x`. */
  function FirstIndex(s: seq<string>, x: string): (i: nat)
    requires x in s
    ensures i < |s| && s[i] == x
    ensures forall j :: 0 <= j < i ==> s[j] != x
  {
    if s[0] == x then 0 else 1 + FirstIndex(s[1..], x)
  }

  /** What the scan has established after looking at `flat[..k]`: the
      reported names are duplicated, each once, in order of first
      appearance, and every duplicated name seen so far is reported. */
  predicate Scanned(flat: seq<string>, k: nat, dups: seq<string>)
  {
    && k <= |flat|
    && (forall x :: x in dups ==> Count(flat, x) >= 2)
    && (forall j :: 0 <= j < k && Count(flat, flat[j]) >= 2 ==> flat[j] in dups)
    && Distinct(dups)
    && (forall i :: 0 <= i < |dups| ==> dups[i] in flat && FirstIndex(flat, dups[i]) < k)
    && (forall i, j :: 0 <= i < j < |dups| ==> FirstIndex(flat, dups[i]) < FirstIndex(flat, dups[j]))
  }

  /** `pd.Series(flat)[pd.Series(flat).duplicated(keep=False)].unique()`: the
      names marked as duplicated (occurring at least twice), each kept at its
      first marked position. */
  method FindDuplicates(flat: seq<string>) returns (dups: seq<string>)
    ensures forall x :: x in dups <==> Count(flat, x) >= 2
    ensures forall x :: x in dups ==> x in flat
    ensures Distinct(dups)
    ensures forall i, j :: 0 <= i < j < |dups| ==> FirstIndex(flat, dups[i]) < FirstIndex(flat, dups[j])
  {
    dups := [];
    var k := 0;
    while k < |flat|
      invariant Scanned(flat, k, dups)
      decreases |flat| - k
    {
      var x := flat[k];
      if Count(flat, x) >= 2 && x !in dups {
        FirstMarked(flat, k, dups);
        ScanAppends(flat, k, dups);
        dups := dups + [x];
      }
      k := k + 1;
    }
    AllMarkedFound(flat, dups);
  }

  lemma ScanAppends(flat: seq<string>, k: nat, dups: seq<string>)
    requires k < |flat| && Scanned(flat, k, dups)
    requires Count(flat, flat[k]) >= 2 && flat[k] !in dups
    requires FirstIndex(flat, flat[k]) == k
    ensures Scanned(flat, k + 1, dups + [flat[k]])
  {
    MarksGrow(flat, k, dups);
    OrderGrows(flat, k, dups);
  }

  /** Reporting the marked name at `k` keeps the reported names marked and
      covers every marked name up to `k`. */
  lemma MarksGrow(flat: seq<string>, k: nat, dups: seq<string>)
    requires k < |flat| && Count(flat, flat[k]) >= 2
    requires forall x :: x in dups ==> Count(flat, x) >= 2
    requires forall j :: 0 <= j < k && Count(flat, flat[j]) >= 2 ==> flat[j] in dups
    ensures forall x :: x in dups + [flat[k]] ==> Count(flat, x) >= 2
    ensures forall j :: 0 <= j < k + 1 && Count(flat, flat[j]) >= 2 ==> flat[j] in dups + [flat[k]]
  {
  }

  /** Reporting a name first seen at `k` keeps the report free of repeats
      and in order of first appearance. */
  lemma OrderGrows(flat: seq<string>, k: nat, dups: seq<string>)
    requires k < |flat| && flat[k] !in dups && FirstIndex(flat, flat[k]) == k
    requires Distinct(dups)
    requires forall i :: 0 <= i < |dups| ==> dups[i] in flat && FirstIndex(flat, dups[i]) < k
    requires forall i, j :: 0 <= i < j < |dups| ==> FirstIndex(flat, dups[i]) < FirstIndex(flat, dups[j])
    ensures Distinct(dups + [flat[k]])
    ensures forall i :: 0 <= i < |dups| + 1 ==> (dups + [flat[k]])[i] in flat && FirstIndex(flat, (dups + [flat[k]])[i]) < k + 1
    ensures forall i, j :: 0 <= i < j < |dups| + 1 ==>
      FirstIndex(flat, (dups + [flat[k]])[i]) < FirstIndex(flat, (dups + [flat[k]])[j])
  {
    var d := dups + [flat[k]];
    assert forall i :: 0 <= i < |dups| ==> d[i] == dups[i];
    forall i, j | 0 <= i < j < |d|
      ensures d[i] != d[j] && FirstIndex(flat, d[i]) < FirstIndex(flat, d[j])
    {
      if j == |dups| {
        assert d[i] in dups;
      }
    }
  }

  /** A marked name not reported yet, while every earlier marked name is,
      appears here for the first time. */
  lemma FirstMarked(flat: seq<string>, k: nat, dups: seq<string>)
    requires k < |flat| && flat[k] !in dups
    requires forall j :: 0 <= j < k && Count(flat, flat[j]) >= 2 ==> flat[j] in dups
    requires Count(flat, flat[k]) >= 2
    ensures FirstIndex(flat, flat[k]) == k
  {
    var f := FirstIndex(flat, flat[k]);
  }

  lemma AllMarkedFound(flat: seq<string>, dups: seq<string>)
    requires forall j :: 0 <= j < |flat| && Count(flat, flat[j]) >= 2 ==> flat[j] in dups
    ensures forall x :: Count(flat, x) >= 2 ==> x in dups
  {
    forall x | Count(flat, x) >= 2
      ensures x in dups
    {
      assert x in multiset(flat);
      assert flat[FirstIndex(flat, x)] == x;
    }
  }

  /** `verifier_doublons(*listes)`: the duplicates of the lists taken together. */
  method CheckDuplicates(lists: seq<seq<string>>) returns (dups: seq<string>)
    ensures forall x :: x in dups <==> Count(Flatten(lists), x) >= 2
    ensures forall x :: x in dups ==> x in Flatten(lists)
    ensures Distinct(dups)
    ensures forall i, j :: 0 <= i < j < |dups| ==>
      FirstIndex(Flatten(lists), dups[i]) < FirstIndex(Flatten(lists), dups[j])
    ensures dups == [] <==> Distinct(Flatten(lists))
  {
    dups := FindDuplicates(Flatten(lists));
    DistinctIffNoRepeat(Flatten(lists));
    if dups != [] {
      assert dups[0] in dups;
    }
  }

  /** A list has no repeated name exactly when no name occurs twice. */
  lemma DistinctIffNoRepeat(s: seq<string>)
    ensures Distinct(s) <==> forall x :: Count(s, x) < 2
  {
    if Distinct(s) {
      forall x | x in s
        ensures Count(s, x) < 2
      {
        var i := FirstIndex(s, x);
        assert s == s[..i] + [x] + s[i + 1..];
        assert x !in s[..i];
        assert x !in s[i + 1..];
      }
    } else {
      var i, j :| 0 <= i < j < |s| && s[i] == s[j];
      assert s == s[..j] + [s[j]] + s[j + 1..];
      assert s[i] in s[..j];
      assert Count(s, s[i]) >= 2;
    }
  }

  /** The eight selections of the page: two trios and two duos per colour. */
  datatype Selection = Selection(
    whiteTrio1: seq<string>, whiteTrio2: seq<string>, whiteDuo1: seq<string>, whiteDuo2: seq<string>,
    blackTrio1: seq<string>, blackTrio2: seq<string>, blackDuo1: seq<string>, blackDuo2: seq<string>)

  /** `all_groups`, in the page's order. */
  function Groups(s: Selection): (g: seq<seq<string>>)
    ensures |g| == 8
  {
    [s.whiteTrio1, s.whiteTrio2, s.whiteDuo1, s.whiteDuo2,
     s.blackTrio1, s.blackTrio2, s.blackDuo1, s.blackDuo2]
  }

  /** Lines 80-85: the page stops with the reported names, or goes on to the
      statistics when there are none; it goes on exactly when no player is
      selected twice across the eight lines. */
  method Gate(s: Selection) returns (proceed: bool, reported: seq<string>)
    ensures proceed <==> Distinct(Flatten(Groups(s)))
    ensures proceed <==> reported == []
    ensures forall x :: x in reported <==> Count(Flatten(Groups(s)), x) >= 2
    ensures forall x :: x in reported ==> x in Flatten(Groups(s))
    ensures Distinct(reported)
    ensures forall i, j :: 0 <= i < j < |reported| ==>
      FirstIndex(Flatten(Groups(s)), reported[i]) < FirstIndex(Flatten(Groups(s)), reported[j])
  {
    reported := CheckDuplicates(Groups(s));
    proceed := reported == [];
  }
}
