/**
 * The `Model.find(query)` the list handlers ask of the store: the documents
 * the query admits, each as often as it is stored.
 */
module Selection {

  function Filter<T(!new)>(s: seq<T>, admits: T -> bool): (r: seq<T>)
    ensures forall x :: multiset(r)[x] == if admits(x) then multiset(s)[x] else 0
  {
    if s == [] then []
    else
      assert s == [s[0]] + s[1..];
      var rest := Filter(s[1..], admits);
      if admits(s[0]) then [s[0]] + rest else rest
  }
}
