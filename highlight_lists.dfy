/**
 * The three id-based list operations that the store, the legacy commenter and the comment
 * list all perform on a list of highlights: replace by id (`map(h => h.id === x.id ? x : h)`),
 * remove by id (`filter(h => h.id !== id)`) and look up by id (`find(h => h.id === id)`).
 */
module HighlightLists {
  import opened Wrappers
  import opened Models

  /** The ids of a list, in list order. */
  function Ids(hs: seq<Highlight>): (r: seq<string>)
    ensures |r| == |hs|
    ensures forall i :: 0 <= i < |hs| ==> r[i] == hs[i].id
  {
    if hs == [] then [] else [hs[0].id] + Ids(hs[1..])
  }

  /** Puts `rec` in the place of every entry that has its id. */
  function ReplaceById(hs: seq<Highlight>, rec: Highlight): (r: seq<Highlight>)
    ensures |r| == |hs|
    ensures forall i :: 0 <= i < |hs| && hs[i].id == rec.id ==> r[i] == rec
    ensures forall i :: 0 <= i < |hs| && hs[i].id != rec.id ==> r[i] == hs[i]
  {
    if hs == [] then []
    else [if hs[0].id == rec.id then rec else hs[0]] + ReplaceById(hs[1..], rec)
  }

  /** Replacing keeps the id sequence, so no entry moves, appears or disappears. */
  lemma {:induction false} ReplaceKeepsIds(hs: seq<Highlight>, rec: Highlight)
    ensures Ids(ReplaceById(hs, rec)) == Ids(hs)
  {
    var r := ReplaceById(hs, rec);
    assert forall i :: 0 <= i < |hs| ==> Ids(r)[i] == Ids(hs)[i];
  }

  /** Replacing with a record whose id is absent changes nothing. */
  lemma {:induction false} ReplaceAbsentIsIdentity(hs: seq<Highlight>, rec: Highlight)
    requires rec.id !in Ids(hs)
    ensures ReplaceById(hs, rec) == hs
  {
    var r := ReplaceById(hs, rec);
    forall i | 0 <= i < |hs| ensures r[i] == hs[i] {
      assert Ids(hs)[i] == hs[i].id;
    }
  }

  /** Drops every entry that has id `id`, keeping the others in order. */
  function RemoveById(hs: seq<Highlight>, id: string): (r: seq<Highlight>)
    ensures forall h :: h in r <==> h in hs && h.id != id
    ensures |r| <= |hs|
    ensures multiset(r) <= multiset(hs)
  {
    if hs == [] then []
    else
      assert hs == [hs[0]] + hs[1..];
      if hs[0].id == id then RemoveById(hs[1..], id)
      else [hs[0]] + RemoveById(hs[1..], id)
  }

  /** The number of entries with id `id`. */
  function CountId(hs: seq<Highlight>, id: string): nat {
    if hs == [] then 0 else (if hs[0].id == id then 1 else 0) + CountId(hs[1..], id)
  }

  /** Removing shortens the list by exactly the number of entries with that id. */
  lemma {:induction false} RemoveLength(hs: seq<Highlight>, id: string)
    ensures |RemoveById(hs, id)| == |hs| - CountId(hs, id)
  {
    if hs != [] {
      RemoveLength(hs[1..], id);
    }
  }

  /** Removing twice is removing once, and removing an absent id is the identity. */
  lemma {:induction false} RemoveIdempotent(hs: seq<Highlight>, id: string)
    ensures RemoveById(RemoveById(hs, id), id) == RemoveById(hs, id)
    ensures id !in Ids(hs) ==> RemoveById(hs, id) == hs
  {
    if hs != [] {
      RemoveIdempotent(hs[1..], id);
      assert Ids(hs) == [hs[0].id] + Ids(hs[1..]);
    }
  }

  /** Removing by id distributes over concatenation. */
  lemma {:induction false} RemoveAppend(a: seq<Highlight>, b: seq<Highlight>, id: string)
    ensures RemoveById(a + b, id) == RemoveById(a, id) + RemoveById(b, id)
  {
    if a == [] {
      assert a + b == b;
    } else {
      assert (a + b)[1..] == a[1..] + b;
      RemoveAppend(a[1..], b, id);
    }
  }

  /** The first entry with id `id`, if there is one. */
  function FindById(hs: seq<Highlight>, id: string): (r: Option<Highlight>)
    ensures r.None? <==> id !in Ids(hs)
    ensures r.Some? ==> r.value.id == id && exists i :: FirstWithId(hs, id, i) && hs[i] == r.value
  {
    if hs == [] then None
    else if hs[0].id == id then
      assert FirstWithId(hs, id, 0);
      Some(hs[0])
    else
      var rest := FindById(hs[1..], id);
      assert Ids(hs) == [hs[0].id] + Ids(hs[1..]);
      if rest.Some? then
        var i :| FirstWithId(hs[1..], id, i) && hs[1..][i] == rest.value;
        FirstWithIdCons(hs, id, i);
        rest
      else
        rest
  }

  /** Ids of a concatenation. */
  lemma {:induction false} IdsAppend(a: seq<Highlight>, b: seq<Highlight>)
    ensures Ids(a + b) == Ids(a) + Ids(b)
  {
    var r := Ids(a + b);
    assert forall i :: 0 <= i < |a + b| ==> r[i] == (a + b)[i].id;
  }

  /** Entry `i` is the first entry of the list with id `id`. */
  predicate FirstWithId(hs: seq<Highlight>, id: string, i: int) {
    0 <= i < |hs| && hs[i].id == id && id !in Ids(hs[..i])
  }

  /** Past a head with another id, the first entry with `id` moves one place on. */
  lemma {:induction false} FirstWithIdCons(hs: seq<Highlight>, id: string, i: int)
    requires hs != [] && hs[0].id != id && FirstWithId(hs[1..], id, i)
    ensures FirstWithId(hs, id, i + 1)
  {
    assert hs[..i + 1] == [hs[0]] + hs[1..][..i];
    assert Ids(hs[..i + 1]) == [hs[0].id] + Ids(hs[1..][..i]);
  }

  /** No entry before the first entry with id `id` has that id. */
  lemma {:induction false} FirstWithIdBefore(hs: seq<Highlight>, id: string, j: int)
    requires FirstWithId(hs, id, j)
    ensures forall i :: 0 <= i < j ==> hs[i].id != id
  {
    forall i | 0 <= i < j ensures hs[i].id != id {
      assert Ids(hs[..j])[i] == hs[i].id;
    }
  }

  /** There is at most one first entry with a given id. */
  lemma {:induction false} FirstWithIdUnique(hs: seq<Highlight>, id: string, i: int, j: int)
    requires FirstWithId(hs, id, i) && FirstWithId(hs, id, j)
    ensures i == j
  {
    FirstWithIdBefore(hs, id, i);
    FirstWithIdBefore(hs, id, j);
  }

  /** No entry of `a` has the id of an entry of `b`. */
  predicate IdsDisjoint(a: seq<Highlight>, b: seq<Highlight>) {
    forall h :: h in a ==> h.id !in Ids(b)
  }
}
