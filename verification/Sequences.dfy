/** Joining a sequence of parts. */
module Sequences {

  function Flatten<T>(parts: seq<seq<T>>): seq<T> {
    if parts == [] then [] else Flatten(parts[..|parts| - 1]) + parts[|parts| - 1]
  }

  lemma FlattenMore<T>(parts: seq<seq<T>>, more: seq<T>)
    ensures Flatten(parts + [more]) == Flatten(parts) + more
  {
    assert (parts + [more])[..|parts|] == parts;
  }

  lemma {:induction false} FlattenCons<T>(first: seq<T>, parts: seq<seq<T>>)
    ensures Flatten([first] + parts) == first + Flatten(parts)
    decreases |parts|
  {
    if parts == [] {
      assert [first] + parts == [] + [first];
      FlattenMore([], first);
    } else {
      var init, last := parts[..|parts| - 1], parts[|parts| - 1];
      FlattenCons(first, init);
      assert [first] + parts == ([first] + init) + [last];
      FlattenMore([first] + init, last);
    }
  }
}
