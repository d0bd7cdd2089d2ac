/** The LRU list of the buffer cache: links between list cells, and the sequence they spell. */
module Lru {

  const NBUF := 30
  const HEAD := NBUF   // list index of bcache.head

  /** next[] and prev[] of all cells, the head last. */
  datatype Links = Links(next: seq<nat>, prev: seq<nat>)

  /** The i-th cell after the head; the head itself at both ends. */
  function At(order: seq<nat>, i: int): (c: nat)
    requires -1 <= i <= |order|
  {
    if 0 <= i < |order| then order[i] else HEAD
  }

  predicate Distinct(order: seq<nat>) {
    && (forall i :: 0 <= i < |order| ==> order[i] < NBUF)
    && (forall i, j :: 0 <= i < j < |order| ==> order[i] != order[j])
  }

  predicate InRange(l: Links) {
    && |l.next| == |l.prev| == NBUF + 1
    && forall c :: 0 <= c <= HEAD ==> l.next[c] <= HEAD && l.prev[c] <= HEAD
  }

  /** Following next from the head spells `order` and comes back; prev goes the other way. */
  predicate IsCycle(l: Links, order: seq<nat>) {
    && InRange(l)
    && Distinct(order)
    && (forall i :: -1 <= i < |order| ==> l.next[At(order, i)] == At(order, i + 1))
    && (forall i :: 0 <= i <= |order| ==> l.prev[At(order, i)] == At(order, i - 1))
  }

  /** b->next->prev = b->prev; b->prev->next = b->next; */
  function Unlink(l: Links, b: nat): (r: Links)
    requires InRange(l) && b < NBUF
    ensures InRange(r)
  {
    Links(l.next[l.prev[b] := l.next[b]], l.prev[l.next[b] := l.prev[b]])
  }

  /** b->next = head.next; b->prev = &head; head.next->prev = b; head.next = b; */
  function PushFront(l: Links, b: nat): (r: Links)
    requires InRange(l) && b < NBUF
    ensures InRange(r)
  {
    Links(l.next[b := l.next[HEAD]][HEAD := b], l.prev[b := HEAD][l.next[HEAD] := b])
  }

  function Without(order: seq<nat>, k: nat): (r: seq<nat>)
    requires k < |order|
  {
    order[..k] + order[k + 1..]
  }

  lemma WithoutAt(order: seq<nat>, k: nat, i: int)
    requires k < |order| && -1 <= i < |order|
    ensures At(Without(order, k), i) == At(order, if i < k then i else i + 1)
  {
  }

  /** The two changed links and the others, in terms of the old order. */
  lemma UnlinkLinks(l: Links, order: seq<nat>, k: nat, i: int)
    requires IsCycle(l, order) && k < |order| && -1 <= i <= |order| && i != k
    ensures var r := Unlink(l, order[k]);
            && (i < |order| ==> r.next[At(order, i)] == At(order, if i + 1 == k then i + 2 else i + 1))
            && (i >= 0 ==> r.prev[At(order, i)] == At(order, if i - 1 == k then i - 2 else i - 1))
  {
    assert l.next[At(order, k)] == At(order, k + 1) && l.prev[At(order, k)] == At(order, k - 1);
    if i < |order| {
      assert l.next[At(order, i)] == At(order, i + 1);
    }
    if i >= 0 {
      assert l.prev[At(order, i)] == At(order, i - 1);
    }
  }

  lemma UnlinkKeepsCycle(l: Links, order: seq<nat>, k: nat)
    requires IsCycle(l, order) && k < |order|
    ensures IsCycle(Unlink(l, order[k]), Without(order, k))
    ensures order[k] !in Without(order, k)
  {
    hide Unlink;
    var r, w := Unlink(l, order[k]), Without(order, k);
    forall i | -1 <= i < |w| ensures r.next[At(w, i)] == At(w, i + 1) {
      WithoutAt(order, k, i);
      WithoutAt(order, k, i + 1);
      UnlinkLinks(l, order, k, if i < k then i else i + 1);
    }
    forall i | 0 <= i <= |w| ensures r.prev[At(w, i)] == At(w, i - 1) {
      WithoutAt(order, k, i);
      WithoutAt(order, k, i - 1);
      UnlinkLinks(l, order, k, if i < k then i else i + 1);
    }
  }

  lemma PushFrontKeepsCycle(l: Links, order: seq<nat>, b: nat)
    requires IsCycle(l, order) && b < NBUF && b !in order
    ensures IsCycle(PushFront(l, b), [b] + order)
  {
    assert l.next[At(order, -1)] == At(order, 0);
    var r, w := PushFront(l, b), [b] + order;
    forall i | -1 <= i < |w| ensures r.next[At(w, i)] == At(w, i + 1) {
      if i >= 1 { assert At(w, i) == At(order, i - 1); }
      if i >= 0 { assert At(w, i + 1) == At(order, i); }
    }
    forall i | 0 <= i <= |w| ensures r.prev[At(w, i)] == At(w, i - 1) {
      if i >= 1 { assert At(w, i) == At(order, i - 1); }
      if i >= 2 { assert At(w, i - 1) == At(order, i - 2); }
    }
  }
}
