/** The list of the CZMQ library: items in order and one cursor, which First and Next move
    and which Append and Remove disturb. */
module ZLists {
  import opened Basics

  predicate NoDuplicates<T(==)>(s: seq<T>) {
    forall i, j :: 0 <= i < j < |s| ==> s[i] != s[j]
  }

  function RemoveFirst<T(==)>(s: seq<T>, x: T): seq<T> {
    if s == [] then []
    else if s[0] == x then s[1..]
    else [s[0]] + RemoveFirst(s[1..], x)
  }

  lemma {:induction false} RemoveFirstMembers<T>(s: seq<T>, x: T)
    requires NoDuplicates(s)
    ensures NoDuplicates(RemoveFirst(s, x))
    ensures forall y :: y in RemoveFirst(s, x) <==> y in s && y != x
  {
    if s != [] {
      var rest := s[1..];
      assert NoDuplicates(rest);
      assert forall y :: y in s <==> y == s[0] || y in rest;
      if s[0] == x {
        assert x !in rest;
      } else {
        RemoveFirstMembers(rest, x);
        assert s[0] !in rest;
      }
    }
  }

  lemma {:induction false} RemoveFirstAbsent<T>(s: seq<T>, x: T)
    requires x !in s
    ensures RemoveFirst(s, x) == s
  {
    if s != [] {
      RemoveFirstAbsent(s[1..], x);
    }
  }

  lemma {:induction false} RemoveFirstAt<T>(s: seq<T>, i: nat)
    requires i < |s| && s[i] !in s[..i]
    ensures RemoveFirst(s, s[i]) == s[..i] + s[i + 1..]
  {
    if i > 0 {
      assert s[0] in s[..i];
      assert s[1..][..i - 1] == s[..i][1..];
      RemoveFirstAt(s[1..], i - 1);
      assert s[..i] == [s[0]] + s[1..][..i - 1];
    }
  }

  class ZList<T(==)> {
    /** The one structure that points to this list. */
    ghost var owner: object?
    var items: seq<T>
    /** Position of the current item; -1 when there is none. */
    var cursor: int

    constructor ()
      ensures items == [] && cursor == -1 && owner == null
    {
      items, cursor, owner := [], -1, null;
    }

    method First() returns (item: Option<T>)
      modifies `cursor
      ensures cursor == if items == [] then -1 else 0
      ensures item == if items == [] then None else Some(items[0])
    {
      cursor := if items == [] then -1 else 0;
      item := if items == [] then None else Some(items[0]);
    }

    method Next() returns (item: Option<T>)
      modifies `cursor
      ensures cursor == if 0 <= old(cursor) && old(cursor) + 1 < |items| then old(cursor) + 1 else -1
      ensures item == if cursor == -1 then None else Some(items[cursor])
    {
      cursor := if 0 <= cursor && cursor + 1 < |items| then cursor + 1 else -1;
      item := if cursor == -1 then None else Some(items[cursor]);
    }

    method Append(x: T)
      modifies `items, `cursor
      ensures items == old(items) + [x] && cursor == -1
    {
      items, cursor := items + [x], -1;
    }

    /** Unlinks the first item equal to x, if any; a cursor on it steps back. */
    method Remove(x: T)
      modifies `items, `cursor
      ensures items == RemoveFirst(old(items), x)
      ensures x !in old(items) ==> cursor == old(cursor)
      ensures forall i :: 0 <= i < |old(items)| && old(items)[i] == x && x !in old(items)[..i] ==>
        cursor == if i <= old(cursor) then old(cursor) - 1 else old(cursor)
    {
      var i := 0;
      while i < |items| && items[i] != x
        invariant 0 <= i <= |items| && x !in items[..i]
      {
        i := i + 1;
      }
      if i < |items| {
        RemoveFirstAt(items, i);
        items, cursor := items[..i] + items[i + 1..], if i <= cursor then cursor - 1 else cursor;
      } else {
        RemoveFirstAbsent(items, x);
      }
    }
  }
}
