/** The pairings ledger of `utils.py`: how many times each unordered pair of
    players has played on the same line, keyed by `Key`. */
module Pairings {
  import opened Seqs
  import opened Text

  type Ledger = map<(string, string), int>

  /** The count of a pair, zero when the ledger has never seen it (`pair_map.get(key, 0)`). */
  function Get(ledger: Ledger, k: (string, string)): int
  {
    if k in ledger then ledger[k] else 0
  }

  /** Keys of `x` paired with each of `rest`, in order. */
  function PartnerKeys(x: string, rest: seq<string>): seq<(string, string)>
    decreases |rest|
  {
    if |rest| == 0 then [] else [Key(x, rest[0])] + PartnerKeys(x, rest[1..])
  }

  /** The keys of all two-player combinations of a line, one per index pair
      `i < j`. Enumerating `itertools.combinations(sorted(line), 2)` instead
      visits the same keys in another order. */
  function PairKeys(line: seq<string>): seq<(string, string)>
    decreases |line|
  {
    if |line| == 0 then [] else PartnerKeys(line[0], line[1..]) + PairKeys(line[1..])
  }

  lemma {:induction false} PartnerKeysCount(x: string, rest: seq<string>, a: string, b: string)
    requires Distinct(rest) && x !in rest
    ensures multiset(PartnerKeys(x, rest))[Key(a, b)]
            == if (x == a && b in rest) || (x == b && a in rest) then 1 else 0
    decreases |rest|
  {
    if |rest| > 0 {
      var tail := rest[1..];
      assert Distinct(tail);
      assert rest == [rest[0]] + tail;
      KeyUnordered(x, rest[0], a, b);
      PartnerKeysCount(x, tail, a, b);
    }
  }

  /** In a line of distinct names, a pair occurs once when both players are
      on the line and not at all otherwise. */
  lemma {:induction false} DistinctLineCount(line: seq<string>, a: string, b: string)
    requires Distinct(line)
    ensures multiset(PairKeys(line))[Key(a, b)] == if a != b && a in line && b in line then 1 else 0
    decreases |line|
  {
    if |line| > 0 {
      var tail := line[1..];
      assert Distinct(tail);
      assert line == [line[0]] + tail;
      assert line[0] !in tail;
      PartnerKeysCount(line[0], tail, a, b);
      DistinctLineCount(tail, a, b);
    }
  }

  /** Adds one to the ledger for every key of `keys`, creating a key at one
      when the ledger does not have it yet. */
  function Bump(ledger: Ledger, keys: seq<(string, string)>): (r: Ledger)
    ensures forall k :: Get(r, k) == Get(ledger, k) + multiset(keys)[k]
    ensures forall k :: k in r <==> k in ledger || k in keys
    decreases |keys|
  {
    if |keys| == 0 then ledger
    else
      assert keys == [keys[0]] + keys[1..];
      Bump(ledger[keys[0] := Get(ledger, keys[0]) + 1], keys[1..])
  }

  /** How many times the key `k` is formed by the lines. */
  function Occurrences(lines: seq<seq<string>>, k: (string, string)): nat
    decreases |lines|
  {
    if |lines| == 0 then 0 else multiset(PairKeys(lines[0]))[k] + Occurrences(lines[1..], k)
  }

  /** Some line forms the key `k`. */
  predicate Formed(lines: seq<seq<string>>, k: (string, string))
  {
    exists i :: 0 <= i < |lines| && k in PairKeys(lines[i])
  }

  lemma FormedCons(lines: seq<seq<string>>, k: (string, string))
    requires |lines| > 0
    ensures Formed(lines, k) <==> k in PairKeys(lines[0]) || Formed(lines[1..], k)
  {
    if Formed(lines, k) {
      var i :| 0 <= i < |lines| && k in PairKeys(lines[i]);
      if i > 0 {
        assert k in PairKeys(lines[1..][i - 1]);
      }
    }
    if Formed(lines[1..], k) {
      var i :| 0 <= i < |lines[1..]| && k in PairKeys(lines[1..][i]);
      assert k in PairKeys(lines[i + 1]);
    }
  }

  /** `update_pairings`: every pair formed on one of the lines gains one per
      formation; a pair formed on no line keeps its count, and the ledger gains
      exactly the keys formed for the first time. */
  function UpdatePairings(ledger: Ledger, lines: seq<seq<string>>): (r: Ledger)
    ensures forall k :: Get(r, k) == Get(ledger, k) + Occurrences(lines, k)
    ensures forall k :: k in r <==> k in ledger || Formed(lines, k)
    decreases |lines|
  {
    if |lines| == 0 then ledger
    else
      var r := UpdatePairings(Bump(ledger, PairKeys(lines[0])), lines[1..]);
      assert forall k :: Formed(lines, k) <==> k in PairKeys(lines[0]) || Formed(lines[1..], k) by {
        forall k {
          FormedCons(lines, k);
        }
      }
      r
  }

  /** The number of lines on which both `a` and `b` play. */
  function Together(lines: seq<seq<string>>, a: string, b: string): nat
    decreases |lines|
  {
    if |lines| == 0 then 0
    else (if a in lines[0] && b in lines[0] then 1 else 0) + Together(lines[1..], a, b)
  }

  /** With lines of distinct names, the ledger entry of two different players
      grows by exactly the number of lines they share. */
  lemma {:induction false} UpdateCountsShared(ledger: Ledger, lines: seq<seq<string>>, a: string, b: string)
    requires forall i :: 0 <= i < |lines| ==> Distinct(lines[i])
    requires a != b
    ensures Get(UpdatePairings(ledger, lines), Key(a, b)) == Get(ledger, Key(a, b)) + Together(lines, a, b)
  {
    SharedOccurrences(lines, a, b);
  }

  lemma {:induction false} SharedOccurrences(lines: seq<seq<string>>, a: string, b: string)
    requires forall i :: 0 <= i < |lines| ==> Distinct(lines[i])
    requires a != b
    ensures Occurrences(lines, Key(a, b)) == Together(lines, a, b)
    decreases |lines|
  {
    if |lines| > 0 {
      DistinctLineCount(lines[0], a, b);
      SharedOccurrences(lines[1..], a, b);
    }
  }

  /** The summed ledger counts of a list of keys. */
  function SumGet(ledger: Ledger, keys: seq<(string, string)>): int
    decreases |keys|
  {
    if |keys| == 0 then 0 else Get(ledger, keys[0]) + SumGet(ledger, keys[1..])
  }

  /** The replay penalty of one line: the ledger counts of its pairs summed. */
  function LinePenalty(ledger: Ledger, names: seq<string>): int
  {
    SumGet(ledger, PairKeys(names))
  }

  /** A line whose pairs the ledger has never seen costs nothing, and the
      penalty is never negative when the counts are not. */
  lemma {:induction false} SumGetBounds(ledger: Ledger, keys: seq<(string, string)>)
    requires forall k :: k in ledger ==> ledger[k] >= 0
    ensures SumGet(ledger, keys) >= 0
    ensures (forall i :: 0 <= i < |keys| ==> keys[i] !in ledger) ==> SumGet(ledger, keys) == 0
    decreases |keys|
  {
    if |keys| > 0 {
      SumGetBounds(ledger, keys[1..]);
    }
  }
}
