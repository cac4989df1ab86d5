/** Small relational helpers shared by the store model and the views: nullable
    values, row selection, and the "at most one row" reply of a point query. */
module Relational {

  /** A nullable column or an optional form field. */
  datatype Option<+T> = None | Some(value: T)

  /** The rows of `s` that satisfy `keep`, in their original order. */
  function Filter<T(==)>(s: seq<T>, keep: T -> bool): (r: seq<T>)
    ensures |r| <= |s|
    ensures forall i :: 0 <= i < |r| ==> r[i] in s && keep(r[i])
    ensures forall i :: 0 <= i < |s| && keep(s[i]) ==> s[i] in r
  {
    if s == [] then []
    else if keep(s[0]) then [s[0]] + Filter(s[1..], keep)
    else Filter(s[1..], keep)
  }

  /** A relation that holds between every earlier and later row still holds
      between every earlier and later row once rows are filtered out. */
  lemma {:induction false} FilterKeepsPairwise<T>(s: seq<T>, keep: T -> bool, ordered: (T, T) -> bool)
    requires forall i, j :: 0 <= i < j < |s| ==> ordered(s[i], s[j])
    ensures forall i, j :: 0 <= i < j < |Filter(s, keep)| ==> ordered(Filter(s, keep)[i], Filter(s, keep)[j])
  {
    if s != [] {
      var tail := s[1..];
      forall i, j | 0 <= i < j < |tail| ensures ordered(tail[i], tail[j]) {
        assert tail[i] == s[i + 1] && tail[j] == s[j + 1];
      }
      FilterKeepsPairwise(tail, keep, ordered);
      if keep(s[0]) {
        var rest := Filter(tail, keep);
        var r := [s[0]] + rest;
        assert r == Filter(s, keep);
        forall i, j | 0 <= i < j < |r| ensures ordered(r[i], r[j]) {
          if i == 0 {
            assert r[j] == rest[j - 1] && rest[j - 1] in tail;
            var k :| 0 <= k < |tail| && tail[k] == rest[j - 1];
            assert tail[k] == s[k + 1];
            assert ordered(s[0], s[k + 1]);
          } else {
            assert r[i] == rest[i - 1] && r[j] == rest[j - 1];
            assert ordered(rest[i - 1], rest[j - 1]);
          }
        }
      }
    }
  }

  /** What a point query answered with `.maybeSingle()` returns: the row when
      exactly one row matches, and no data both when none matches and when
      several do (the latter reported as an error that the forms ignore). */
  function MaybeSingle<T>(matches: seq<T>): (r: Option<T>)
    ensures r.Some? <==> |matches| == 1
    ensures r.Some? ==> r.value == matches[0]
  {
    if |matches| == 1 then Some(matches[0]) else None
  }
}
