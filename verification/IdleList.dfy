/** The intrusive circular doubly linked lists behind timers. */
module IdleList {
  import opened Seqs

  class Node {
    var idleNext: Node?
    var idlePrev: Node?

    constructor ()
      ensures idleNext == null && idlePrev == null
    {
      idleNext, idlePrev := null, null;
    }
  }

  // ---- The heap as a value

  datatype Links = Links(next: map<Node, Node?>, prev: map<Node, Node?>)
  {
    ghost predicate Covers(u: set<Node>)
    {
      next.Keys == u && prev.Keys == u
      && (forall n :: n in u && next[n] != null ==> next[n] in u)
          && (forall n :: n in u && prev[n] != null ==> prev[n] in u)
    }
  }

  /** The fields of the objects in `u` are as `l` says. */
  ghost predicate Holds(u: set<Node>, l: Links)
    reads u
  {
    l.Covers(u) && forall n :: n in u ==> n.idleNext == l.next[n] && n.idlePrev == l.prev[n]
  }

  // ---- Rings

  ghost predicate Distinct(r: seq<Node>) { forall i, j :: 0 <= i < j < |r| ==> r[i] != r[j] }

  function After(i: nat, n: nat): nat { if i + 1 == n then 0 else i + 1 }

  /** Going back from r[i] one comes to the next element of r, around the end to the first, and forward is the
      inverse. */
  ghost predicate Linked(l: Links, r: seq<Node>, i: nat)
    requires i < |r|
  {
    var a, b := r[i], r[After(i, |r|)];
    a in l.prev && b in l.next && l.prev[a] == b && l.next[b] == a
  }

  ghost predicate Ring(l: Links, r: seq<Node>)
  {
    r != [] && Distinct(r) && forall i :: 0 <= i < |r| ==> Linked(l, r, i)
  }

  // ---- Operations on values

  /** The two conditional assignments of `remove`, then the two unconditional ones. */
  ghost function Removed(l: Links, item: Node): Links
    requires item in l.next && item in l.prev
  {
    var l1 := if l.next[item] != null then l.(prev := l.prev[l.next[item] := l.prev[item]]) else l;
    var l2 := if l1.prev[item] != null then l1.(next := l1.next[l1.prev[item] := l1.next[item]]) else l1;
    Links(l2.next[item := null], l2.prev[item := null])
  }

  ghost function Inserted(l: Links, list: Node, item: Node): Links
    requires list in l.next && l.next[list] != null
  {
    var l1 := l.(next := l.next[item := l.next[list]]);
    var l2 := l1.(prev := l1.prev[l.next[list] := item]);
    Links(l2.next[list := item], l2.prev[item := list])
  }

  function Without(r: seq<Node>, k: nat): seq<Node>
    requires k < |r|
  {
    r[..k] + r[k + 1..]
  }

  lemma RemoveLinks(l: Links, r: seq<Node>, k: nat)
    requires Ring(l, r) && 0 < k < |r|
    ensures r[k] in l.next && r[k] in l.prev && l.next[r[k]] == r[k - 1] && l.prev[r[k]] == r[After(k, |r|)]
    ensures Removed(l, r[k]) == Links(l.next[r[After(k, |r|)] := r[k - 1]][r[k] := null],
                                      l.prev[r[k - 1] := r[After(k, |r|)]][r[k] := null])
  {
    assert Linked(l, r, k);
    assert Linked(l, r, k - 1);
  }

  /** Taking out any element but the head closes the ring behind it. */
  lemma RingRemove(l: Links, r: seq<Node>, k: nat)
    requires Ring(l, r) && 0 < k < |r|
    ensures r[k] in l.next && r[k] in l.prev && Ring(Removed(l, r[k]), Without(r, k))
  {
    RemoveLinks(l, r, k);
    var r', l' := Without(r, k), Removed(l, r[k]);
    forall i | 0 <= i < |r'| ensures Linked(l', r', i) {
      if i + 1 < k {
        assert Linked(l, r, i);
      } else if i >= k {
        assert Linked(l, r, i + 1);
      } else {
        assert Linked(l, r, k);
      }
    }
  }

  /** Inserting puts the item behind the last element. */
  lemma RingInsert(l: Links, r: seq<Node>, item: Node)
    requires Ring(l, r) && item !in r
    ensures r[0] in l.next && l.next[r[0]] == r[|r| - 1] && Ring(Inserted(l, r[0], item), r + [item])
  {
    assert Linked(l, r, |r| - 1);
    var r', l' := r + [item], Inserted(l, r[0], item);
    forall i | 0 <= i < |r'| ensures Linked(l', r', i) {
      if i + 1 < |r| {
        assert Linked(l, r, i);
      }
    }
  }

  ghost predicate SameAt(l: Links, l': Links, n: Node)
  {
    && (n in l.next <==> n in l'.next) && (n in l.next ==> l'.next[n] == l.next[n])
    && (n in l.prev <==> n in l'.prev) && (n in l.prev ==> l'.prev[n] == l.prev[n])
  }

  /** A ring does not notice changes at other objects. */
  lemma RingFrame(l: Links, l': Links, r: seq<Node>)
    requires Ring(l, r)
    requires forall n :: n in r ==> SameAt(l, l', n)
    ensures Ring(l', r)
  {
    forall i | 0 <= i < |r| ensures Linked(l', r, i) {
      assert Linked(l, r, i);
      assert SameAt(l, l', r[i]) && SameAt(l, l', r[After(i, |r|)]);
    }
  }

  // ---- All lists together

  /** Each list head with its items, the most idle one first. */
  type Queues = map<Node, seq<Node>>

  function RingOf(q: Queues, h: Node): seq<Node>
    requires h in q
  {
    [h] + q[h]
  }

  ghost predicate Within(r: seq<Node>, u: set<Node>) { forall n :: n in r ==> n in u }

  ghost predicate Apart(a: seq<Node>, b: seq<Node>) { forall n :: n in a ==> n !in b }

  /** The object is in no list. */
  ghost predicate Free(q: Queues, n: Node) { forall h :: h in q ==> n !in RingOf(q, h) }

  /** Well-formed lists: every list is a ring, no two share an object, and the other objects are linked to nothing. */
  ghost predicate World(u: set<Node>, l: Links, q: Queues)
  {
    l.Covers(u) && Rings(u, l, q) && AllApart(q) && Loose(u, l, q)
  }

  ghost predicate Rings(u: set<Node>, l: Links, q: Queues)
  {
    forall h :: h in q ==> Ring(l, RingOf(q, h)) && Within(RingOf(q, h), u)
  }

  ghost predicate AllApart(q: Queues)
  {
    forall h, h' :: h in q && h' in q && h != h' ==> Apart(RingOf(q, h), RingOf(q, h'))
  }

  ghost predicate Loose(u: set<Node>, l: Links, q: Queues)
    requires l.Covers(u)
  {
    forall n :: n in u && Free(q, n) ==> l.next[n] == null && l.prev[n] == null
  }

  /** A queue without an item. */
  function Drop(q: seq<Node>, item: Node): seq<Node>
  {
    if q == [] then [] else if q[0] == item then q[1..] else [q[0]] + Drop(q[1..], item)
  }

  lemma {:induction false} DropAbsent(q: seq<Node>, item: Node)
    requires item !in q
    ensures Drop(q, item) == q
  {
    if q != [] {
      DropAbsent(q[1..], item);
      assert q == [q[0]] + q[1..];
    }
  }

  lemma {:induction false} DropAt(q: seq<Node>, k: nat)
    requires Distinct(q) && k < |q|
    ensures Drop(q, q[k]) == Without(q, k)
  {
    if k > 0 {
      assert q[0] != q[k] && Distinct(q[1..]) && q[1..][k - 1] == q[k];
      DropAt(q[1..], k - 1);
      assert [q[0]] + Without(q[1..], k - 1) == Without(q, k);
    }
  }

  function DropAll(q: Queues, item: Node): Queues { map h | h in q :: Drop(q[h], item) }

  lemma WithoutMembers(r: seq<Node>, k: nat)
    requires Distinct(r) && k < |r|
    ensures forall n :: n in Without(r, k) <==> n in r && n != r[k]
  {
    forall n | n in r && n != r[k] ensures n in Without(r, k) {
      var i :| 0 <= i < |r| && r[i] == n;
      assert Without(r, k)[if i < k then i else i - 1] == n;
    }
  }

  lemma TailDistinct(h: Node, q: seq<Node>)
    requires Distinct([h] + q)
    ensures Distinct(q)
  {
    assert forall i :: 0 <= i < |q| ==> q[i] == ([h] + q)[i + 1];
  }

  lemma ConsWithout(h: Node, q: seq<Node>, k: nat)
    requires k < |q|
    ensures [h] + Without(q, k) == Without([h] + q, k + 1)
  {
  }

  lemma DropRing(h: Node, q: seq<Node>, k: nat)
    requires Distinct([h] + q) && k < |q|
    ensures [h] + Drop(q, q[k]) == Without([h] + q, k + 1)
  {
    TailDistinct(h, q);
    DropAt(q, k);
    ConsWithout(h, q, k);
  }

  // ---- One list changes

  /** What a change of the list `h` by one item must satisfy for the lists to stay well formed. */
  ghost predicate Changed(u: set<Node>, l: Links, l': Links, q: Queues, h: Node, items: seq<Node>, moved: Node)
    requires h in q
  {
    && l'.Covers(u) && moved in u && Ring(l', [h] + items)
    && (forall n :: n in [h] + items ==> n in RingOf(q, h) || n == moved)
    && (forall n :: n in RingOf(q, h) ==> n in [h] + items || n == moved)
    && (forall n :: n in u && n !in RingOf(q, h) && n != moved ==> SameAt(l, l', n))
    && (moved !in [h] + items ==> l'.next[moved] == null && l'.prev[moved] == null)
  }

  lemma OtherRing(u: set<Node>, l: Links, l': Links, q: Queues, h: Node, items: seq<Node>, moved: Node, h': Node)
    requires World(u, l, q) && h in q && Changed(u, l, l', q, h, items, moved)
    requires h' in q && h' != h && moved !in RingOf(q, h')
    ensures RingOf(q[h := items], h') == RingOf(q, h')
    ensures Ring(l', RingOf(q, h')) && Within(RingOf(q, h'), u) && Apart([h] + items, RingOf(q, h'))
            && Apart(RingOf(q, h'), [h] + items)
  {
    assert Apart(RingOf(q, h'), RingOf(q, h)) && Within(RingOf(q, h'), u);
    RingFrame(l, l', RingOf(q, h'));
  }

  lemma FreeKept(u: set<Node>, l: Links, l': Links, q: Queues, h: Node, items: seq<Node>, moved: Node, n: Node)
    requires World(u, l, q) && h in q && Changed(u, l, l', q, h, items, moved)
    requires n in u && Free(q[h := items], n)
    ensures l'.next[n] == null && l'.prev[n] == null
  {
    var q' := q[h := items];
    assert n !in RingOf(q', h);
    if n != moved {
      forall h' | h' in q ensures n !in RingOf(q, h') {
        assert n !in RingOf(q', h');
      }
      assert Free(q, n) && SameAt(l, l', n);
    }
  }

  lemma ChangeKeepsRings(u: set<Node>, l: Links, l': Links, q: Queues, h: Node, items: seq<Node>, moved: Node)
    requires World(u, l, q) && h in q && Changed(u, l, l', q, h, items, moved)
    requires forall h' :: h' in q && h' != h ==> moved !in RingOf(q, h')
    ensures Rings(u, l', q[h := items])
  {
    var q' := q[h := items];
    forall h' | h' in q' ensures Ring(l', RingOf(q', h')) && Within(RingOf(q', h'), u) {
      assert Within(RingOf(q, h), u);
      if h' != h { OtherRing(u, l, l', q, h, items, moved, h'); }
    }
  }

  lemma ChangeKeepsApart(u: set<Node>, l: Links, l': Links, q: Queues, h: Node, items: seq<Node>, moved: Node)
    requires World(u, l, q) && h in q && Changed(u, l, l', q, h, items, moved)
    requires forall h' :: h' in q && h' != h ==> moved !in RingOf(q, h')
    ensures AllApart(q[h := items])
  {
    var q' := q[h := items];
    forall a, b | a in q' && b in q' && a != b ensures Apart(RingOf(q', a), RingOf(q', b)) {
      StillApart(u, l, l', q, h, items, moved, a, b);
    }
  }

  lemma ChangeKeepsWorld(u: set<Node>, l: Links, l': Links, q: Queues, h: Node, items: seq<Node>, moved: Node)
    requires World(u, l, q) && h in q && Changed(u, l, l', q, h, items, moved)
    requires forall h' :: h' in q && h' != h ==> moved !in RingOf(q, h')
    ensures World(u, l', q[h := items])
  {
    ChangeKeepsRings(u, l, l', q, h, items, moved);
    ChangeKeepsApart(u, l, l', q, h, items, moved);
    forall n | n in u && Free(q[h := items], n) ensures l'.next[n] == null && l'.prev[n] == null {
      FreeKept(u, l, l', q, h, items, moved, n);
    }
  }

  lemma StillApart(u: set<Node>, l: Links, l': Links, q: Queues, h: Node, items: seq<Node>, moved: Node, a: Node,
                   b: Node)
    requires World(u, l, q) && h in q && Changed(u, l, l', q, h, items, moved) && a in q && b in q && a != b
    requires forall h' :: h' in q && h' != h ==> moved !in RingOf(q, h')
    ensures Apart(RingOf(q[h := items], a), RingOf(q[h := items], b))
  {
    assert Apart(RingOf(q, a), RingOf(q, b));
    if a != h { OtherRing(u, l, l', q, h, items, moved, a); }
    if b != h { OtherRing(u, l, l', q, h, items, moved, b); }
  }

  // ---- remove

  /** Objects outside the ring keep their links. */
  lemma RemoveOutside(l: Links, r: seq<Node>, k: nat, n: Node)
    requires Ring(l, r) && 0 < k < |r| && n !in r && r[k] in l.next && r[k] in l.prev
    ensures SameAt(l, Removed(l, r[k]), n)
  {
    RemoveLinks(l, r, k);
  }

  lemma RemoveCovers(u: set<Node>, l: Links, item: Node)
    requires l.Covers(u) && item in u
    ensures Removed(l, item).Covers(u)
  {
  }

  lemma RemoveFree(u: set<Node>, l: Links, q: Queues, item: Node)
    requires World(u, l, q) && item in u && Free(q, item)
    ensures Removed(l, item) == l && DropAll(q, item) == q
  {
    forall h | h in q ensures Drop(q[h], item) == q[h] {
      assert item !in RingOf(q, h);
      DropAbsent(q[h], item);
    }
  }

  /** The lists after an item is dropped from the list that holds it. */
  lemma DropFromOne(u: set<Node>, l: Links, q: Queues, h: Node, k: nat)
    requires World(u, l, q) && h in q && k < |q[h]|
    ensures DropAll(q, q[h][k]) == q[h := Drop(q[h], q[h][k])]
  {
    var item := q[h][k];
    assert item in RingOf(q, h);
    forall h' | h' in q && h' != h ensures Drop(q[h'], item) == q[h'] {
      assert Apart(RingOf(q, h), RingOf(q, h'));
      DropAbsent(q[h'], item);
    }
  }

  lemma RemoveChanges(u: set<Node>, l: Links, q: Queues, h: Node, k: nat)
    requires World(u, l, q) && h in q && k < |q[h]| && q[h][k] in u
    ensures Changed(u, l, Removed(l, q[h][k]), q, h, Drop(q[h], q[h][k]), q[h][k])
    ensures q[h][k] !in [h] + Drop(q[h], q[h][k])
  {
    var item, r := q[h][k], RingOf(q, h);
    assert r[k + 1] == item;
    RemoveCovers(u, l, item);
    RingRemove(l, r, k + 1);
    DropRing(h, q[h], k);
    WithoutMembers(r, k + 1);
    forall n | n in u && n !in r ensures SameAt(l, Removed(l, item), n) {
      RemoveOutside(l, r, k + 1, n);
    }
  }

  lemma RemoveMember(u: set<Node>, l: Links, q: Queues, h: Node, k: nat)
    requires World(u, l, q) && h in q && k < |q[h]| && q[h][k] in u
    ensures World(u, Removed(l, q[h][k]), q[h := Drop(q[h], q[h][k])])
    ensures Free(q[h := Drop(q[h], q[h][k])], q[h][k])
  {
    var item, q' := q[h][k], q[h := Drop(q[h], q[h][k])];
    RemoveChanges(u, l, q, h, k);
    forall h' | h' in q && h' != h ensures item !in RingOf(q, h') {
      assert Apart(RingOf(q, h), RingOf(q, h')) && item in RingOf(q, h);
    }
    ChangeKeepsWorld(u, l, Removed(l, item), q, h, Drop(q[h], item), item);
    forall h' | h' in q' ensures item !in RingOf(q', h') {
      assert h' != h ==> RingOf(q', h') == RingOf(q, h');
    }
  }

  /** `remove` on well-formed lists: the item leaves whatever list it was in. */
  lemma RemoveKeepsWorld(u: set<Node>, l: Links, q: Queues, item: Node)
    requires World(u, l, q) && item in u && item !in q
    ensures World(u, Removed(l, item), DropAll(q, item)) && Free(DropAll(q, item), item)
  {
    if Free(q, item) {
      RemoveFree(u, l, q, item);
    } else {
      var h :| h in q && item in RingOf(q, h);
      var k :| 0 <= k < |q[h]| && q[h][k] == item;
      DropFromOne(u, l, q, h, k);
      RemoveMember(u, l, q, h, k);
    }
  }

  // ---- append

  lemma InsertOutside(l: Links, r: seq<Node>, item: Node, n: Node)
    requires Ring(l, r) && n !in r && n != item && r[0] in l.next && l.next[r[0]] != null
    ensures SameAt(l, Inserted(l, r[0], item), n)
  {
    assert Linked(l, r, |r| - 1);
  }

  lemma InsertCovers(u: set<Node>, l: Links, list: Node, item: Node)
    requires l.Covers(u) && item in u && list in u && l.next[list] != null
    ensures Inserted(l, list, item).Covers(u)
  {
  }

  lemma InsertKeepsWorld(u: set<Node>, l: Links, q: Queues, list: Node, item: Node)
    requires World(u, l, q) && item in u && list in q && Free(q, item)
    ensures list in l.next && l.next[list] != null && World(u, Inserted(l, list, item), q[list := q[list] + [item]])
  {
    var r := RingOf(q, list);
    assert item !in r && list in r && Within(r, u);
    RingInsert(l, r, item);
    InsertCovers(u, l, list, item);
    assert [list] + (q[list] + [item]) == r + [item];
    forall n | n in u && n !in r && n != item ensures SameAt(l, Inserted(l, list, item), n) {
      InsertOutside(l, r, item, n);
    }
    ChangeKeepsWorld(u, l, Inserted(l, list, item), q, list, q[list] + [item], item);
  }

  // ---- init, peek and shift

  lemma InitKeepsWorld(u: set<Node>, l: Links, q: Queues, list: Node)
    requires World(u, l, q) && list in u && Free(q, list)
    ensures list !in q && World(u, Links(l.next[list := list], l.prev[list := list]), q[list := []])
  {
    var l', q' := Links(l.next[list := list], l.prev[list := list]), q[list := []];
    assert list in q ==> list !in RingOf(q, list);
    assert RingOf(q', list) == [list] && Linked(l', [list], 0);
    forall h | h in q ensures Ring(l', RingOf(q', h)) && RingOf(q', h) == RingOf(q, h) && list !in RingOf(q, h) {
      RingFrame(l, l', RingOf(q, h));
    }
    forall n | n in u && Free(q', n) ensures l'.next[n] == null && l'.prev[n] == null {
      InitFreeBefore(q, list, n);
    }
  }

  lemma InitFreeBefore(q: Queues, list: Node, n: Node)
    requires list !in q && Free(q[list := []], n)
    ensures Free(q, n) && n != list
  {
    var q' := q[list := []];
    assert n !in RingOf(q', list);
    forall h | h in q ensures n !in RingOf(q, h) {
      assert RingOf(q', h) == RingOf(q, h) && n !in RingOf(q', h);
    }
  }

  /** Going back from the head leads to the most idle item, or to the head itself; the list is empty if forward
      leads there. */
  lemma HeadLinks(u: set<Node>, l: Links, q: Queues, list: Node)
    requires World(u, l, q) && list in q
    ensures list in u && l.prev[list] == (if q[list] == [] then list else q[list][0])
    ensures l.next[list] == (if q[list] == [] then list else q[list][|q[list]| - 1])
    ensures q[list] != [] ==>
              q[list][0] != list && q[list][|q[list]| - 1] != list && q[list][0] in u && q[list][0] !in q
  {
    var r := RingOf(q, list);
    assert Linked(l, r, 0) && Linked(l, r, |r| - 1) && Within(r, u);
    assert r[0] == list && (|r| > 1 ==> r[1] == q[list][0] && r[|r| - 1] == q[list][|q[list]| - 1]);
  }

  /** Shifting an empty list takes the head out of its own ring: it is no list any more. */
  lemma ShiftEmpty(u: set<Node>, l: Links, q: Queues, list: Node)
    requires World(u, l, q) && list in q && q[list] == [] && list in l.next && list in l.prev
    ensures Removed(l, list) == Links(l.next[list := null], l.prev[list := null])
    ensures World(u, Removed(l, list), q - {list})
  {
    HeadLinks(u, l, q, list);
    var l', q' := Removed(l, list), q - {list};
    RemoveCovers(u, l, list);
    assert RingOf(q, list) == [list];
    forall h | h in q' ensures Ring(l', RingOf(q', h)) && Within(RingOf(q', h), u) {
      assert Apart(RingOf(q, list), RingOf(q, h)) && RingOf(q', h) == RingOf(q, h);
      RingFrame(l, l', RingOf(q, h));
    }
    forall h, h' | h in q' && h' in q' && h != h' ensures Apart(RingOf(q', h), RingOf(q', h')) {
      assert Apart(RingOf(q, h), RingOf(q, h'));
    }
    forall n | n in u && Free(q', n) ensures l'.next[n] == null && l'.prev[n] == null {
      if n != list { FreeWithout(q, list, n); }
    }
  }

  lemma FreeWithout(q: Queues, list: Node, n: Node)
    requires list in q && q[list] == [] && n != list && Free(q - {list}, n)
    ensures Free(q, n)
  {
    forall h | h in q ensures n !in RingOf(q, h) {
      assert h != list ==> h in q - {list} && RingOf(q - {list}, h) == RingOf(q, h);
    }
  }

  // ---- The functions of the source; `u` is the set of all objects concerned

  method Init(list: Node, ghost u: set<Node>, ghost l: Links, ghost q: Queues) returns (ghost l': Links)
    requires Holds(u, l) && World(u, l, q) && list in u && Free(q, list)
    modifies list
    ensures Holds(u, l') && World(u, l', q[list := []])
  {
    InitKeepsWorld(u, l, q, list);
    l' := Links(l.next[list := list], l.prev[list := list]);
    list.idleNext := list;
    list.idlePrev := list;
  }

  method Peek(list: Node, ghost u: set<Node>, ghost l: Links, ghost q: Queues) returns (item: Node?)
    requires Holds(u, l) && World(u, l, q) && list in q && list in u
    ensures item == if q[list] == [] then null else q[list][0]
  {
    HeadLinks(u, l, q, list);
    if list.idlePrev == list {
      return null;
    }
    return list.idlePrev;
  }

  method IsEmpty(list: Node, ghost u: set<Node>, ghost l: Links, ghost q: Queues) returns (empty: bool)
    requires Holds(u, l) && World(u, l, q) && list in q && list in u
    ensures empty <==> q[list] == []
  {
    HeadLinks(u, l, q, list);
    return list.idleNext == list;
  }

  /** The assignments alone. */
  method Unlink(item: Node, ghost u: set<Node>, ghost l: Links)
    requires Holds(u, l) && item in u
    modifies u
    ensures Holds(u, Removed(l, item))
  {
    ghost var l1 := l;
    if item.idleNext != null {
      l1 := SetPrev(item.idleNext, item.idlePrev, u, l1);
    }
    ghost var l2 := l1;
    if item.idlePrev != null {
      l2 := SetNext(item.idlePrev, item.idleNext, u, l2);
    }
    ghost var l3 := SetNext(item, null, u, l2);
    ghost var l4 := SetPrev(item, null, u, l3);
  }

  /** One assignment to a field. */
  method SetNext(n: Node, value: Node?, ghost u: set<Node>, ghost l: Links) returns (ghost l': Links)
    requires Holds(u, l) && n in u && (value != null ==> value in u)
    modifies n`idleNext
    ensures l' == l.(next := l.next[n := value]) && Holds(u, l')
  {
    n.idleNext := value;
    l' := l.(next := l.next[n := value]);
  }

  method SetPrev(n: Node, value: Node?, ghost u: set<Node>, ghost l: Links) returns (ghost l': Links)
    requires Holds(u, l) && n in u && (value != null ==> value in u)
    modifies n`idlePrev
    ensures l' == l.(prev := l.prev[n := value]) && Holds(u, l')
  {
    n.idlePrev := value;
    l' := l.(prev := l.prev[n := value]);
  }

  method Remove(item: Node, ghost u: set<Node>, ghost l: Links, ghost q: Queues)
    requires Holds(u, l) && World(u, l, q) && item in u && item !in q
    modifies u
    ensures Holds(u, Removed(l, item)) && World(u, Removed(l, item), DropAll(q, item)) && Free(DropAll(q, item), item)
  {
    RemoveKeepsWorld(u, l, q, item);
    Unlink(item, u, l);
  }

  method Append(list: Node, item: Node, ghost u: set<Node>, ghost l: Links, ghost q: Queues) returns (ghost l': Links)
    requires Holds(u, l) && World(u, l, q) && item in u && item !in q && list in q && list in u
    modifies u
    ensures Holds(u, l') && World(u, l', Appended(q, list, item))
  {
    Remove(item, u, l, q);
    ghost var l1, q1 := Removed(l, item), DropAll(q, item);
    InsertKeepsWorld(u, l1, q1, list, item);
    InsertCovers(u, l1, list, item);
    l' := Inserted(l1, list, item);
    Link(list, item, u, l1);
  }

  method Link(list: Node, item: Node, ghost u: set<Node>, ghost l: Links)
    requires Holds(u, l) && item in u && list in u && l.next[list] != null && Inserted(l, list, item).Covers(u)
    modifies u
    ensures Holds(u, Inserted(l, list, item))
  {
    ghost var l1 := SetNext(item, list.idleNext, u, l);
    ghost var l2 := SetPrev(list.idleNext, item, u, l1);
    ghost var l3 := SetPrev(item, list, u, l2);
    ghost var l4 := SetNext(list, item, u, l3);
  }

  /** The queues after `append`: the item leaves its list and goes to the back. */
  function Appended(q: Queues, list: Node, item: Node): Queues
    requires list in q
  {
    DropAll(q, item)[list := Drop(q[list], item) + [item]]
  }

  method Shift(list: Node, ghost u: set<Node>, ghost l: Links, ghost q: Queues) returns (first: Node)
    requires Holds(u, l) && World(u, l, q) && list in q && list in u
    modifies u
    ensures first in u && Holds(u, Removed(l, first))
    ensures q[list] != [] ==> first == q[list][0] && World(u, Removed(l, first), q[list := q[list][1..]])
    ensures q[list] == [] ==> first == list && World(u, Removed(l, first), q - {list})
  {
    HeadLinks(u, l, q, list);
    first := list.idlePrev;
    if q[list] == [] {
      ShiftEmpty(u, l, q, list);
    } else {
      RemoveKeepsWorld(u, l, q, first);
      DropFromOne(u, l, q, list, 0);
    }
    Unlink(first, u, l);
  }

  // ---- Sessions

  datatype Op = Init(list: Node) | Append(list: Node, item: Node) | Remove(item: Node) | Shift(list: Node)

  /** Items are no list heads. */
  ghost predicate Legal(u: set<Node>, q: Queues, op: Op)
  {
    match op
    case Init(list) => list in u && Free(q, list)
    case Append(list, item) => list in q && list in u && item in u && item !in q
    case Remove(item) => item in u && item !in q
    case Shift(list) => list in q && list in u
  }

  /** The queues after an operation. Shifting an empty list takes out its head, and it is no list any more. */
  ghost function Stepped(u: set<Node>, q: Queues, op: Op): Queues
    requires Legal(u, q, op)
  {
    match op
    case Init(list) => q[list := []]
    case Append(list, item) => Appended(q, list, item)
    case Remove(item) => DropAll(q, item)
    case Shift(list) => if q[list] == [] then q - {list} else q[list := q[list][1..]]
  }

  ghost predicate AllLegal(u: set<Node>, q: Queues, ops: seq<Op>)
    decreases |ops|
  {
    ops == [] || (Legal(u, q, ops[0]) && AllLegal(u, Stepped(u, q, ops[0]), ops[1..]))
  }

  ghost function Final(u: set<Node>, q: Queues, ops: seq<Op>): Queues
    requires AllLegal(u, q, ops)
    decreases |ops|
  {
    if ops == [] then q else Final(u, Stepped(u, q, ops[0]), ops[1..])
  }

  /** What an operation returns. */
  ghost function Output(u: set<Node>, q: Queues, op: Op): seq<Node>
    requires Legal(u, q, op)
  {
    if op.Shift? then [if q[op.list] == [] then op.list else q[op.list][0]] else []
  }

  /** What the shifts of a session return. */
  ghost function Returned(u: set<Node>, q: Queues, ops: seq<Op>): seq<Node>
    requires AllLegal(u, q, ops)
    decreases |ops|
  {
    if ops == [] then [] else Output(u, q, ops[0]) + Returned(u, Stepped(u, q, ops[0]), ops[1..])
  }

  method Perform(op: Op, ghost u: set<Node>, ghost l: Links, ghost q: Queues) returns (out: seq<Node>, ghost l': Links)
    requires Holds(u, l) && World(u, l, q) && Legal(u, q, op)
    modifies u
    ensures Holds(u, l') && World(u, l', Stepped(u, q, op)) && out == Output(u, q, op)
  {
    out := [];
    match op {
      case Init(list) => l' := Init(list, u, l, q);
      case Append(list, item) => l' := Append(list, item, u, l, q);
      case Remove(item) => Remove(item, u, l, q); l' := Removed(l, item);
      case Shift(list) => var first := Shift(list, u, l, q); out, l' := [first], Removed(l, first);
    }
  }

  /** Over every session the rings stay well formed and return what the queues return; every queue holds the items that
      were appended to it last, in the order in which that happened. */
  method Session(ops: seq<Op>, ghost u: set<Node>, ghost l0: Links, ghost q0: Queues) returns (out: seq<Node>,
          ghost l: Links, ghost q: Queues)
    requires Holds(u, l0) && World(u, l0, q0) && AllLegal(u, q0, ops)
    modifies u
    ensures Holds(u, l) && World(u, l, q) && out == Returned(u, q0, ops) && q == Final(u, q0, ops)
    ensures forall list :: Items(q, list) == Untouched(Items(q0, list), Trace(u, q0, ops))
              + Lasting(Trace(u, q0, ops), list)
  {
    out, l, q := [], l0, q0;
    ghost var rest := ops;
    for i := 0 to |ops|
      invariant rest == ops[i..] && Holds(u, l) && World(u, l, q) && AllLegal(u, q, rest)
      invariant out + Returned(u, q, rest) == Returned(u, q0, ops) && Final(u, q, rest) == Final(u, q0, ops)
    {
      var more;
      Assoc(out, Output(u, q, ops[i]), Returned(u, Stepped(u, q, ops[i]), rest[1..]));
      more, l := Perform(ops[i], u, l, q);
      q := Stepped(u, q, ops[i]);
      out, rest := out + more, rest[1..];
    }
    forall list ensures Items(q, list) == Untouched(Items(q0, list), Trace(u, q0, ops))
        + Lasting(Trace(u, q0, ops), list) {
      OrderOfLastAppend(u, l0, q0, ops, list);
    }
  }

  // ---- The order of a queue

  /** What happened to an item: it was put at the back of a list, or it was taken out. */
  datatype Event = Moved(list: Node, item: Node) | Gone(item: Node)

  ghost function EventOf(u: set<Node>, q: Queues, op: Op): seq<Event>
    requires Legal(u, q, op)
  {
    match op
    case Init(_) => []
    case Append(list, item) => [Moved(list, item)]
    case Remove(item) => [Gone(item)]
    case Shift(list) => if q[list] == [] then [] else [Gone(q[list][0])]
  }

  ghost function Trace(u: set<Node>, q: Queues, ops: seq<Op>): seq<Event>
    requires AllLegal(u, q, ops)
    decreases |ops|
  {
    if ops == [] then [] else EventOf(u, q, ops[0]) + Trace(u, Stepped(u, q, ops[0]), ops[1..])
  }

  ghost predicate Touches(t: seq<Event>, n: Node) { exists i :: 0 <= i < |t| && t[i].item == n }

  /** The items of `s` to which nothing happened. */
  ghost function Untouched(s: seq<Node>, t: seq<Event>): seq<Node>
  {
    if s == [] then [] else (if Touches(t, s[0]) then [] else [s[0]]) + Untouched(s[1..], t)
  }

  /** The items that were put into a list and to which nothing happened afterwards, in this order. */
  ghost function Lasting(t: seq<Event>, list: Node): seq<Node>
  {
    if t == [] then []
    else
      (if t[0].Moved? && t[0].list == list && !Touches(t[1..], t[0].item) then [t[0].item] else [])
          + Lasting(t[1..], list)
  }

  function Items(q: Queues, list: Node): seq<Node> { if list in q then q[list] else [] }

  lemma TouchesCons(e: Event, t: seq<Event>, n: Node)
    ensures Touches([e] + t, n) <==> e.item == n || Touches(t, n)
  {
    var all := [e] + t;
    if e.item == n { assert all[0].item == n; }
    if Touches(t, n) {
      var i :| 0 <= i < |t| && t[i].item == n;
      assert all[i + 1].item == n;
    }
    if Touches(all, n) {
      var i :| 0 <= i < |all| && all[i].item == n;
      if i > 0 { assert t[i - 1].item == n; }
    }
  }

  lemma {:induction false} UntouchedCons(s: seq<Node>, e: Event, t: seq<Event>)
    requires Distinct(s)
    ensures Untouched(s, [e] + t) == Untouched(Drop(s, e.item), t)
  {
    if s != [] {
      TouchesCons(e, t, s[0]);
      var rest := s[1..];
      assert Distinct(rest);
      UntouchedCons(rest, e, t);
      if s[0] == e.item {
        assert e.item !in rest;
        DropAbsent(rest, e.item);
        Unit(Untouched(rest, t));
      } else {
        assert ([s[0]] + Drop(rest, e.item))[1..] == Drop(rest, e.item);
      }
    }
  }

  lemma {:induction false} UntouchedSnoc(s: seq<Node>, n: Node, t: seq<Event>)
    ensures Untouched(s + [n], t) == Untouched(s, t) + if Touches(t, n) then [] else [n]
  {
    if s == [] {
      assert (s + [n])[1..] == [];
      Unit(if Touches(t, n) then [] else [n]);
    } else {
      assert (s + [n])[1..] == s[1..] + [n];
      UntouchedSnoc(s[1..], n, t);
      Assoc(if Touches(t, s[0]) then [] else [s[0]], Untouched(s[1..], t), if Touches(t, n) then [] else [n]);
    }
  }

  /** A queue before and after an event, with the same events still to come. */
  lemma OrderStep(s: seq<Node>, e: Event, t: seq<Event>, list: Node)
    requires Distinct(s)
    ensures var put := e.Moved? && e.list == list;
            Untouched(Drop(s, e.item) + if put then [e.item] else [], t) + Lasting(t, list)
            == Untouched(s, [e] + t) + Lasting([e] + t, list)
  {
    UntouchedCons(s, e, t);
    assert ([e] + t)[1..] == t;
    var d, put := Drop(s, e.item), e.Moved? && e.list == list;
    var more := if put && !Touches(t, e.item) then [e.item] else [];
    if put {
      UntouchedSnoc(d, e.item, t);
    } else {
      Unit(d);
      Unit(Untouched(d, t));
    }
    Assoc(Untouched(d, t), more, Lasting(t, list));
  }

  lemma DistinctItems(u: set<Node>, l: Links, q: Queues, list: Node)
    requires World(u, l, q)
    ensures Distinct(Items(q, list))
  {
    if list in q {
      var r := RingOf(q, list);
      assert Ring(l, r);
      forall i, j | 0 <= i < j < |q[list]| ensures q[list][i] != q[list][j] {
        assert r[i + 1] == q[list][i] && r[j + 1] == q[list][j];
      }
    }
  }

  /** An operation does to each queue what its event says. */
  lemma StepItems(u: set<Node>, l: Links, q: Queues, op: Op, list: Node)
    requires World(u, l, q) && Legal(u, q, op)
    ensures var es := EventOf(u, q, op);
            Items(Stepped(u, q, op), list) ==
            if es == [] then Items(q, list)
            else Drop(Items(q, list), es[0].item) + if es[0].Moved? && es[0].list == list then [es[0].item] else []
  {
    var es := EventOf(u, q, op);
    if es != [] { Unit(Drop(Items(q, list), es[0].item)); }
    if op.Shift? && q[op.list] != [] { DropFromOne(u, l, q, op.list, 0); }
    if op.Init? { InitKeepsWorld(u, l, q, op.list); }
  }

  lemma StepKeepsWorld(u: set<Node>, l: Links, q: Queues, op: Op) returns (l': Links)
    requires World(u, l, q) && Legal(u, q, op)
    ensures World(u, l', Stepped(u, q, op))
  {
    match op
    case Init(list) =>
      InitKeepsWorld(u, l, q, list);
      l' := Links(l.next[list := list], l.prev[list := list]);
    case Append(list, item) =>
      RemoveKeepsWorld(u, l, q, item);
      InsertKeepsWorld(u, Removed(l, item), DropAll(q, item), list, item);
      l' := Inserted(Removed(l, item), list, item);
    case Remove(item) =>
      RemoveKeepsWorld(u, l, q, item);
      l' := Removed(l, item);
    case Shift(list) =>
      HeadLinks(u, l, q, list);
      var first := l.prev[list];
      if q[list] == [] {
        ShiftEmpty(u, l, q, list);
      } else {
        RemoveKeepsWorld(u, l, q, first);
        DropFromOne(u, l, q, list, 0);
      }
      l' := Removed(l, first);
  }

  /** After every session each queue is what was in it before and was left alone, followed by the items whose last
      operation appended them to it, in the order of these operations. */
  lemma {:induction false} OrderOfLastAppend(u: set<Node>, l: Links, q: Queues, ops: seq<Op>, list: Node)
    requires World(u, l, q) && AllLegal(u, q, ops)
    ensures Items(Final(u, q, ops), list) == Untouched(Items(q, list), Trace(u, q, ops))
              + Lasting(Trace(u, q, ops), list)
    decreases |ops|
  {
    if ops == [] {
      NothingHappened(Items(q, list));
      Unit(Items(q, list));
    } else {
      var op, rest, q' := ops[0], ops[1..], Stepped(u, q, ops[0]);
      var l' := StepKeepsWorld(u, l, q, op);
      OrderOfLastAppend(u, l', q', rest, list);
      StepItems(u, l, q, op, list);
      var es, t := EventOf(u, q, op), Trace(u, q', rest);
      if es == [] {
        Unit(t);
      } else {
        assert es == [es[0]];
        DistinctItems(u, l, q, list);
        OrderStep(Items(q, list), es[0], t, list);
      }
    }
  }

  lemma {:induction false} NothingHappened(s: seq<Node>)
    ensures Untouched(s, []) == s
  {
    if s != [] {
      NothingHappened(s[1..]);
      assert s == [s[0]] + s[1..];
    }
  }

  /** A shift returns the item that has been in the list for the longest time. */
  lemma ShiftTakesOldest(u: set<Node>, l: Links, q: Queues, ops: seq<Op>, list: Node)
    requires World(u, l, q) && AllLegal(u, q, ops) && Legal(u, Final(u, q, ops), Op.Shift(list))
    ensures var t := Trace(u, q, ops);
            var s := Untouched(Items(q, list), t) + Lasting(t, list);
            && AllLegal(u, q, ops + [Op.Shift(list)])
            && Returned(u, q, ops + [Op.Shift(list)]) == Returned(u, q, ops) + [if s == [] then list else s[0]]
  {
    OrderOfLastAppend(u, l, q, ops, list);
    LastOutput(u, q, ops, Op.Shift(list));
  }

  lemma {:induction false} LastOutput(u: set<Node>, q: Queues, ops: seq<Op>, op: Op)
    requires AllLegal(u, q, ops) && Legal(u, Final(u, q, ops), op)
    ensures AllLegal(u, q, ops + [op])
    ensures Returned(u, q, ops + [op]) == Returned(u, q, ops) + Output(u, Final(u, q, ops), op)
    decreases |ops|
  {
    var all := ops + [op];
    if ops == [] {
      assert all[0] == op && all[1..] == [];
      Unit(Output(u, q, op));
    } else {
      var q' := Stepped(u, q, ops[0]);
      assert all[0] == ops[0] && all[1..] == ops[1..] + [op];
      LastOutput(u, q', ops[1..], op);
      Assoc(Output(u, q, ops[0]), Returned(u, q', ops[1..]), Output(u, Final(u, q, ops), op));
    }
  }
}
