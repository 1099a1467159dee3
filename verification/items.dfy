/** A player reduced to the one talent value that matters for the current role:
    the `(name, talent)` tuples the line builders work on. */
module Items {

  datatype Item = Item(name: string, talent: int)

  /** Sum of the talents (`sum(s for _, s in line)`). */
  function Total(s: seq<Item>): int
  {
    if |s| == 0 then 0 else Total(s[..|s| - 1]) + s[|s| - 1].talent
  }

  lemma TotalAppend(a: seq<Item>, b: seq<Item>)
    ensures Total(a + b) == Total(a) + Total(b)
    decreases |b|
  {
    if |b| == 0 {
      assert a + b == a;
    } else {
      assert (a + b)[..|a + b| - 1] == a + b[..|b| - 1];
      TotalAppend(a, b[..|b| - 1]);
    }
  }

  /** The sort key for "talent, descending". */
  function TalentKey(x: Item): seq<int> { [x.talent] }
}
