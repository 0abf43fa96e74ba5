/** What a database query for rows delivers. */
module Queries {
  import opened Text

  /** All of the rows, each once. */
  predicate Each(ids: seq<int>, which: set<int>) {
    Distinct(ids) && (forall k | k in which :: k in ids) && forall k | k in ids :: k in which
  }

  lemma OneMore(ids: seq<int>, n: nat)
    requires Distinct(ids) && n < |ids|
    ensures ids[n] !in ids[..n] && ids[..n + 1] == ids[..n] + [ids[n]]
  {
  }

  /** The rows in some order, if the query is answered. */
  method Rows(which: set<int>) returns (r: Option<seq<int>>)
    ensures r.Some? ==> Each(r.value, which)
  {
    var ids: seq<int> := *;
    return if Each(ids, which) then Some(ids) else None;
  }
}
