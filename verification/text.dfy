/** Strings as Python compares and splits them. */
module Text {

  /** Python's `a <= b` on `str`: code-point lexicographic, a proper prefix first. */
  predicate StrLe(a: string, b: string)
    decreases |a|
  {
    |a| == 0 || (|b| > 0 && (a[0] < b[0] || (a[0] == b[0] && StrLe(a[1..], b[1..]))))
  }

  lemma StrLeTotal(a: string, b: string)
    ensures StrLe(a, b) || StrLe(b, a)
    decreases |a|
  {
    if |a| > 0 && |b| > 0 && a[0] == b[0] {
      StrLeTotal(a[1..], b[1..]);
    }
  }

  lemma StrLeAntisym(a: string, b: string)
    requires StrLe(a, b) && StrLe(b, a)
    ensures a == b
    decreases |a|
  {
    if |a| > 0 {
      StrLeAntisym(a[1..], b[1..]);
      assert a == [a[0]] + a[1..] && b == [b[0]] + b[1..];
    }
  }

  /** The ledger key of an unordered pair: `tuple(sorted([a, b]))`. */
  function Key(a: string, b: string): (k: (string, string))
    ensures StrLe(k.0, k.1)
    ensures k == (a, b) || k == (b, a)
  {
    StrLeTotal(a, b);
    if StrLe(a, b) then (a, b) else (b, a)
  }

  /** Both orders of a pair share one key, and a key names exactly one unordered pair. */
  lemma KeyUnordered(a: string, b: string, x: string, y: string)
    ensures Key(a, b) == Key(b, a)
    ensures Key(a, b) == Key(x, y) <==> (a == x && b == y) || (a == y && b == x)
  {
    if StrLe(a, b) && StrLe(b, a) {
      StrLeAntisym(a, b);
    }
    if StrLe(x, y) && StrLe(y, x) {
      StrLeAntisym(x, y);
    }
  }

  /** True when `s` contains the separator `", "` at position `k`. */
  predicate SepAt(s: string, k: int)
  {
    0 <= k && k + 1 < |s| && s[k] == ',' && s[k + 1] == ' '
  }

  predicate HasSep(s: string)
  {
    exists k :: 0 <= k < |s| && SepAt(s, k)
  }

  /** Position of the first `", "`, or `|s|` when there is none. */
  function FindSep(s: string): (i: nat)
    ensures i <= |s|
    ensures i < |s| ==> SepAt(s, i)
    ensures forall k :: 0 <= k < i ==> !SepAt(s, k)
    decreases |s|
  {
    if |s| < 2 then |s|
    else if s[0] == ',' && s[1] == ' ' then 0
    else
      var j := FindSep(s[1..]);
      assert forall k :: 1 <= k < j + 1 ==> (SepAt(s, k) <==> SepAt(s[1..], k - 1));
      1 + j
  }

  /** Python's `s.split(", ")`. */
  function Split(s: string): (parts: seq<string>)
    ensures |parts| >= 1
    ensures forall i :: 0 <= i < |parts| ==> !HasSep(parts[i])
    decreases |s|
  {
    var i := FindSep(s);
    if i == |s| then
      assert !HasSep(s);
      [s]
    else
      var head := s[..i];
      assert !HasSep(head) by {
        forall k | SepAt(head, k)
          ensures false
        {
          assert SepAt(s, k);
        }
      }
      [head] + Split(s[i + 2..])
  }

  /** Python's `", ".join(parts)`. */
  function Join(parts: seq<string>): string
  {
    if |parts| == 0 then ""
    else if |parts| == 1 then parts[0]
    else parts[0] + ", " + Join(parts[1..])
  }

  /** Splitting and joining back gives the original text. */
  lemma {:induction false} JoinSplit(s: string)
    ensures Join(Split(s)) == s
    decreases |s|
  {
    var i := FindSep(s);
    if i < |s| {
      var rest := s[i + 2..];
      JoinSplit(rest);
      assert Split(s) == [s[..i]] + Split(rest);
      assert Join(Split(s)) == s[..i] + ", " + Join(Split(rest));
      assert s == s[..i] + ", " + rest;
    }
  }

  /** Joining names that contain no `", "` and splitting again gives the names back:
      what a history row written with `", ".join` reads back as. */
  lemma {:induction false} SplitJoin(parts: seq<string>)
    requires |parts| >= 1
    requires forall i :: 0 <= i < |parts| ==> !HasSep(parts[i])
    ensures Split(Join(parts)) == parts
    decreases |parts|
  {
    if |parts| > 1 {
      SplitJoin(parts[1..]);
      SplitAfter(parts[0], Join(parts[1..]));
      assert parts == [parts[0]] + parts[1..];
    } else {
      assert !HasSep(parts[0]);
      assert FindSep(parts[0]) == |parts[0]|;
    }
  }

  /** A first part without separator is split off whole. */
  lemma SplitAfter(p: string, rest: string)
    requires !HasSep(p)
    ensures Split(p + ", " + rest) == [p] + Split(rest)
  {
    var s := p + ", " + rest;
    FirstSepAfter(p, rest);
    assert s[|p| + 2..] == rest;
    assert s[..|p|] == p;
  }

  /** The first separator of `p + ", " + rest` is the one after `p`. */
  lemma FirstSepAfter(p: string, rest: string)
    requires !HasSep(p)
    ensures FindSep(p + ", " + rest) == |p|
  {
    var s := p + ", " + rest;
    assert SepAt(s, |p|);
    forall k | 0 <= k < |p| && SepAt(s, k)
      ensures false
    {
      if k + 1 < |p| {
        assert SepAt(p, k);
      }
    }
  }
}
