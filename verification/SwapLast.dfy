/** Lists from which a record is removed by putting the last one in its place. */
module SwapLast {
  function Removed<T>(list: seq<T>, i: nat): (r: seq<T>)
    requires i < |list|
    ensures |r| == |list| - 1
  {
    if i + 1 < |list| then list[i := list[|list|-1]][..|list|-1] else list[..|list|-1]
  }

  lemma RemovedParts<T>(list: seq<T>, i: nat)
    requires i < |list|
    ensures var n := |list| - 1;
            Removed(list, i) == list[..i] + if i < n then [list[n]] + list[i+1..n] else []
  {
  }

  /** That record goes, and no other. */
  lemma RemovedCount<T>(list: seq<T>, i: nat)
    requires i < |list|
    ensures multiset(Removed(list, i)) == multiset(list) - multiset{list[i]}
  {
    var n := |list| - 1;
    assert list == list[..n] + [list[n]];
    if i < n {
      assert list[..n] == list[..i] + [list[i]] + list[i+1..n];
      RemovedParts(list, i);
    }
  }
}
