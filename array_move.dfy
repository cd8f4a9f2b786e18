/** dnd-kit's `arrayMove(array, from, to)` for in-range indices: take the element out at
    `from`, then insert it so that it sits at `to`. */
module ArrayMove {
  import opened Sequences

  function Move<T>(s: seq<T>, from: nat, to: nat): (r: seq<T>)
    requires from < |s| && to < |s|
    ensures |r| == |s|
    ensures r[to] == s[from]
  {
    InsertAt(RemoveAt(s, from), to, s[from])
  }

  /** Reference description of the move, position by position: the index of `s` whose
      element ends up at index `i`. Elements between `from` and `to` shift by one towards
      `from`; everything outside that range stays put. */
  function SourceIndex(from: nat, to: nat, i: nat): nat
  {
    if i == to then from
    else if from < to && from <= i < to then i + 1
    else if to < from && to < i <= from then i - 1
    else i
  }

  lemma {:induction false} MoveAt<T>(s: seq<T>, from: nat, to: nat, i: nat)
    requires from < |s| && to < |s| && i < |s|
    ensures SourceIndex(from, to, i) < |s|
    ensures Move(s, from, to)[i] == s[SourceIndex(from, to, i)]
  {
    var rest := RemoveAt(s, from);
    if i != to {
      var k := if i < to then i else i - 1;
      assert Move(s, from, to)[i] == rest[k];
    }
  }

  /** The move is a permutation. */
  lemma MovePermutes<T>(s: seq<T>, from: nat, to: nat)
    requires from < |s| && to < |s|
    ensures multiset(Move(s, from, to)) == multiset(s)
  {
    RemoveAtMultiset(s, from);
    InsertAtMultiset(RemoveAt(s, from), to, s[from]);
  }

  /** All other elements keep their relative order: taking the moved element out of the
      result at `to` gives the input without its element at `from`. */
  lemma MoveKeepsOthersInOrder<T>(s: seq<T>, from: nat, to: nat)
    requires from < |s| && to < |s|
    ensures RemoveAt(Move(s, from, to), to) == RemoveAt(s, from)
  {
    RemoveInserted(RemoveAt(s, from), to, s[from]);
  }

  /** Moving an element onto its own position returns the list unchanged. */
  lemma MoveToSameIndex<T>(s: seq<T>, i: nat)
    requires i < |s|
    ensures Move(s, i, i) == s
  {
    InsertRemoved(s, i);
  }

  /** Moving back undoes a move. */
  lemma MoveBack<T>(s: seq<T>, from: nat, to: nat)
    requires from < |s| && to < |s|
    ensures Move(Move(s, from, to), to, from) == s
  {
    var m := Move(s, from, to);
    MoveKeepsOthersInOrder(s, from, to);
    InsertRemoved(s, from);
  }
}
