/** The "keep the first strictly better candidate" loop shared by the trial
    loop of `make_lines_balanced` and the split search of `combo_teams`. */
module Search {
  import opened Wrappers

  /** A candidate with a score below `limit` (a candidate without a score never qualifies). */
  predicate Below(o: Option<real>, limit: real)
  {
    o.Some? && o.value < limit
  }

  /** The loop `if score < best_score: best, best_score = k, score` from
      candidate `k` on, starting from `best_score = limit`. The result is the
      first candidate with the smallest score below `limit`. */
  function FirstMin(scores: seq<Option<real>>, limit: real, k: nat, best: Option<nat>, bound: real): (r: Option<nat>)
    requires k <= |scores|
    requires best.None? ==> bound == limit && forall j :: 0 <= j < k ==> !Below(scores[j], limit)
    requires best.Some? ==> && best.value < k && Below(scores[best.value], limit)
                            && bound == scores[best.value].value
                            && (forall j :: 0 <= j < k && Below(scores[j], limit) ==> bound <= scores[j].value)
                            && (forall j :: 0 <= j < best.value && Below(scores[j], limit) ==> bound < scores[j].value)
    ensures r.None? <==> forall j :: 0 <= j < |scores| ==> !Below(scores[j], limit)
    ensures r.Some? ==> && r.value < |scores| && Below(scores[r.value], limit)
                        && (forall j :: 0 <= j < |scores| && Below(scores[j], limit) ==> scores[r.value].value <= scores[j].value)
                        && (forall j :: 0 <= j < r.value && Below(scores[j], limit) ==> scores[r.value].value < scores[j].value)
    decreases |scores| - k
  {
    if k == |scores| then best
    else if scores[k].Some? && scores[k].value < bound then
      FirstMin(scores, limit, k + 1, Some(k), scores[k].value)
    else
      FirstMin(scores, limit, k + 1, best, bound)
  }
}
