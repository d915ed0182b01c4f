/** Circular doubly linked lists as maps of links between addresses. */
module Ring {
  import opened Common

  datatype Links = Links(next: map<int, int>, prev: map<int, int>)

  // The link from position i to the next one, in both directions.
  ghost predicate Linked(l: Links, x: int, y: int) {
    x in l.next && l.next[x] == y && y in l.prev && l.prev[y] == x
  }

  // The addresses of q, in this order, are a ring; `next` and `prev` are inverse on it.
  ghost predicate IsRing(l: Links, q: seq<int>) {
    q != [] && Distinct(q) && forall i :: 0 <= i < |q| ==> Linked(l, q[i], q[NextAround(i, |q|)])
  }

  // A new node n is put after p.
  function InsertedAfter(l: Links, p: int, n: int): Links
    requires p in l.next
  {
    var s := l.next[p];
    Links(l.next[n := s][p := n], l.prev[n := p][s := n])
  }

  // A node is taken out of its ring; its own links stay as they are.
  function Removed(l: Links, n: int): Links
    requires n in l.next && n in l.prev
  {
    Links(l.next[l.prev[n] := l.next[n]], l.prev[l.next[n] := l.prev[n]])
  }

  lemma InsertKeepsRing(l: Links, q: seq<int>, k: nat, n: int)
    requires IsRing(l, q) && k < |q| && n !in q
    ensures q[k] in l.next && IsRing(InsertedAfter(l, q[k], n), Inserted(q, k + 1, n))
  {
    var p, s := q[k], q[NextAround(k, |q|)];
    assert Linked(l, p, s);
    var r, l' := Inserted(q, k + 1, n), InsertedAfter(l, p, n);
    forall i | 0 <= i < |r| ensures Linked(l', r[i], r[NextAround(i, |r|)]) {
      if i != k && i != k + 1 {
        var j := if i < k then i else i - 1;
        assert r[i] == q[j] && r[NextAround(i, |r|)] == q[NextAround(j, |q|)] && Linked(l, q[j], q[NextAround(j, |q|)]);
        assert q[NextAround(j, |q|)] != s;
      } else if i == k {
        assert r[i] == p && r[NextAround(i, |r|)] == n;
      } else {
        assert r[i] == n && r[NextAround(i, |r|)] == s;
      }
    }
    InsertedDistinct(q, k, n);
  }

  lemma InsertedDistinct(q: seq<int>, k: nat, n: int)
    requires Distinct(q) && k < |q| && n !in q
    ensures Distinct(Inserted(q, k + 1, n))
  {
  }

  lemma RemoveKeepsRing(l: Links, q: seq<int>, k: nat)
    requires IsRing(l, q) && k < |q| && |q| > 1
    ensures q[k] in l.next && q[k] in l.prev && IsRing(Removed(l, q[k]), Dropped(q, k))
  {
    var n, s, b := q[k], q[NextAround(k, |q|)], if k > 0 then k - 1 else |q| - 1;
    assert Linked(l, n, s) && Linked(l, q[b], q[NextAround(b, |q|)]);
    var r, l' := Dropped(q, k), Removed(l, n);
    forall i | 0 <= i < |r| ensures Linked(l', r[i], r[NextAround(i, |r|)]) {
      var j := if i < k then i else i + 1;
      assert r[i] == q[j] && Linked(l, q[j], q[NextAround(j, |q|)]);
      if j == b {
        assert r[NextAround(i, |r|)] == s;
      } else {
        assert r[NextAround(i, |r|)] == q[NextAround(j, |q|)] && q[NextAround(j, |q|)] != s;
      }
    }
  }
}
