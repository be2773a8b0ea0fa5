/** Small facts about numbers and lists that several modules need. */
module Lists {
  function Min(a: nat, b: nat): nat {
    if a < b then a else b
  }

  function Concat<T>(lists: seq<seq<T>>): seq<T> {
    if lists == [] then [] else Concat(lists[..|lists| - 1]) + lists[|lists| - 1]
  }

  /** The first list comes first. */
  lemma {:induction false} ConcatHead<T>(lists: seq<seq<T>>)
    requires lists != []
    ensures Concat(lists) == lists[0] + Concat(lists[1..])
    decreases |lists|
  {
    var n, tail := |lists| - 1, lists[1..];
    if n == 0 {
      assert lists[..0] == [] == tail;
    } else {
      ConcatHead(lists[..n]);
      assert tail[..n - 1] == lists[..n][1..] && tail[n - 1] == lists[n];
      assert Concat(tail) == Concat(tail[..n - 1]) + lists[n];
      hide Concat;
    }
  }
}
