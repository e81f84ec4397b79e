/** First-match search over a sequence, the shape of JavaScript's
    `Array.prototype.find`: it scans left to right and stops at the first
    element the predicate accepts. */
module Search {
  import opened Wrappers

  /** Index `k` holds the first element of `s` accepted by `p`. */
  predicate IsFirstMatch<T>(s: seq<T>, p: T -> bool, k: int) {
    && 0 <= k < |s|
    && p(s[k])
    && forall j :: 0 <= j < k ==> !p(s[j])
  }

  function FindFirst<T(==)>(s: seq<T>, p: T -> bool): (r: Option<T>)
    ensures r.None? <==> forall j :: 0 <= j < |s| ==> !p(s[j])
    ensures r.Some? ==> exists k :: IsFirstMatch(s, p, k) && s[k] == r.value
    decreases |s|
  {
    if |s| == 0 then None
    else if p(s[0]) then
      assert IsFirstMatch(s, p, 0);
      Some(s[0])
    else
      var r := FindFirst(s[1..], p);
      assert forall j :: 0 <= j < |s[1..]| ==> s[1..][j] == s[j + 1];
      if r.Some? then
        var k :| IsFirstMatch(s[1..], p, k) && s[1..][k] == r.value;
        assert IsFirstMatch(s, p, k + 1);
        r
      else
        r
  }

}
