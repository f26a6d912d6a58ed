/** Lists without repetition, and families of lists that partition what is placed in them. The
    doubly linked lists of the source are sequences here. */
module Lists {

  predicate Distinct(list: seq<nat>) {
    list != [] ==> list[0] !in list[1..] && Distinct(list[1..])
  }

  /** The list with s unlinked. */
  function Without(list: seq<nat>, s: nat): (r: seq<nat>)
    ensures forall t :: t in r <==> t in list && t != s
  {
    if list == [] then []
    else if list[0] == s then Without(list[1..], s) else [list[0]] + Without(list[1..], s)
  }

  /** Moved to the end: used last. */
  function ToEnd(list: seq<nat>, s: nat): seq<nat> {
    Without(list, s) + [s]
  }

  lemma {:induction false} WithoutDistinct(list: seq<nat>, s: nat)
    requires Distinct(list)
    ensures Distinct(Without(list, s))
    ensures |Without(list, s)| == if s in list then |list| - 1 else |list|
  {
    if list != [] {
      WithoutDistinct(list[1..], s);
    }
  }

  lemma {:induction false} AppendDistinct(list: seq<nat>, s: nat)
    requires Distinct(list) && s !in list
    ensures Distinct(list + [s])
  {
    if list != [] {
      AppendDistinct(list[1..], s);
      assert (list + [s])[1..] == list[1..] + [s];
    }
  }

  lemma PrependDistinct(list: seq<nat>, s: nat)
    requires Distinct(list) && s !in list
    ensures Distinct([s] + list)
  {
    assert ([s] + list)[1..] == list;
  }

  // ----- families of lists

  /** Each element with a place is on the list of its place, once, and on no other. */
  ghost predicate Placed(lists: seq<seq<nat>>, place: map<nat, nat>) {
    && (forall b | b in place :: place[b] < |lists|)
    && forall q {:trigger lists[q]} | 0 <= q < |lists| ::
         Distinct(lists[q]) && forall b :: b in lists[q] <==> b in place && place[b] == q
  }

  lemma PlacedRemoves(lists: seq<seq<nat>>, place: map<nat, nat>, b: nat)
    requires Placed(lists, place) && b in place
    ensures Placed(lists[place[b] := Without(lists[place[b]], b)], place - {b})
    ensures |Without(lists[place[b]], b)| == |lists[place[b]]| - 1
  {
    WithoutDistinct(lists[place[b]], b);
  }

  lemma PlacedAppends(lists: seq<seq<nat>>, place: map<nat, nat>, b: nat, q: nat)
    requires Placed(lists, place) && b !in place && q < |lists|
    ensures Placed(lists[q := lists[q] + [b]], place[b := q])
  {
    AppendDistinct(lists[q], b);
  }

  lemma PlacedPrepends(lists: seq<seq<nat>>, place: map<nat, nat>, b: nat, q: nat)
    requires Placed(lists, place) && b !in place && q < |lists|
    ensures Placed(lists[q := [b] + lists[q]], place[b := q])
  {
    PrependDistinct(lists[q], b);
  }

  lemma PlacedUses(lists: seq<seq<nat>>, place: map<nat, nat>, b: nat)
    requires Placed(lists, place) && b in place
    ensures Placed(lists[place[b] := ToEnd(lists[place[b]], b)], place)
  {
    WithoutDistinct(lists[place[b]], b);
    AppendDistinct(Without(lists[place[b]], b), b);
  }

  lemma {:induction false} WithoutNone(list: seq<nat>, b: nat)
    requires b !in list
    ensures Without(list, b) == list
  {
    if list != [] {
      WithoutNone(list[1..], b);
    }
  }

  /** Unlinking the element at a place closes the gap. */
  lemma {:induction false} WithoutAt(list: seq<nat>, i: nat)
    requires Distinct(list) && i < |list|
    ensures Without(list, list[i]) == list[..i] + list[i + 1..]
  {
    if i == 0 {
      WithoutNone(list[1..], list[0]);
    } else {
      var rest := list[1..];
      assert rest[i - 1] == list[i] && list[i] in rest;
      WithoutAt(rest, i - 1);
      assert Without(list, list[i]) == [list[0]] + (rest[..i - 1] + rest[i..]);
      assert list[..i] == [list[0]] + rest[..i - 1] && list[i + 1..] == rest[i..];
    }
  }

  lemma {:induction false} InsertDistinct(list: seq<nat>, i: nat, b: nat)
    requires Distinct(list) && i <= |list| && b !in list
    ensures Distinct(list[..i] + [b] + list[i..])
    ensures forall c :: c in list[..i] + [b] + list[i..] <==> c in list || c == b
  {
    var r := list[..i] + [b] + list[i..];
    if i == 0 {
      assert r == [b] + list;
      PrependDistinct(list, b);
    } else {
      var rest := list[1..];
      var s := rest[..i - 1] + [b] + rest[i - 1..];
      InsertDistinct(rest, i - 1, b);
      assert list == [list[0]] + rest;
      InsertFront(list[0], rest, i - 1, b);
      hide Distinct;
      FirstOnce(list);
      PrependDistinct(s, list[0]);
    }
  }

  lemma FirstOnce(list: seq<nat>)
    requires Distinct(list) && list != []
    ensures list[0] !in list[1..]
  {
  }

  lemma InsertFront(a: nat, rest: seq<nat>, i: nat, b: nat)
    requires i <= |rest|
    ensures var list := [a] + rest; list[..i + 1] + [b] + list[i + 1..] == [a] + (rest[..i] + [b] + rest[i..])
  {
  }

  lemma PlacedInserts(lists: seq<seq<nat>>, place: map<nat, nat>, b: nat, q: nat, i: nat)
    requires Placed(lists, place) && b !in place && q < |lists| && i <= |lists[q]|
    ensures Placed(lists[q := lists[q][..i] + [b] + lists[q][i..]], place[b := q])
  {
    InsertDistinct(lists[q], i, b);
  }
}
