/** What several modules use. */
module Common {
  datatype Option<T> = None | Some(value: T)

  ghost predicate Distinct<T>(q: seq<T>) {
    forall i, j :: 0 <= i < j < |q| ==> q[i] != q[j]
  }

  // RT_ALIGN to the RT_ALIGN_SIZE of eight bytes.
  function AlignUp(n: nat): (r: nat)
    ensures n <= r < n + 8 && r % 8 == 0
  {
    (n + 7) / 8 * 8
  }

  // The position after i in a ring of n.
  function NextAround(i: nat, n: nat): nat {
    if i + 1 < n then i + 1 else 0
  }

  function Inserted<T>(q: seq<T>, k: nat, x: T): (r: seq<T>)
    requires k <= |q|
    ensures |r| == |q| + 1
  {
    q[..k] + [x] + q[k..]
  }

  // A sequence without what is at k.
  function Dropped<T>(q: seq<T>, k: nat): (r: seq<T>)
    requires k < |q|
    ensures |r| == |q| - 1
  {
    q[..k] + q[k + 1..]
  }

  // A sequence without an element.
  function Without<T(==,!new)>(q: seq<T>, x: T): (r: seq<T>)
    ensures forall y :: y in r <==> y in q && y != x
  {
    if q == [] then []
    else if q[0] == x then Without(q[1..], x)
    else [q[0]] + Without(q[1..], x)
  }

  lemma {:induction false} WithoutDistinct<T(!new)>(q: seq<T>, x: T)
    requires Distinct(q)
    ensures Distinct(Without(q, x))
  {
    if q != [] {
      WithoutDistinct(q[1..], x);
      assert q[0] !in Without(q[1..], x) by {
        assert forall j :: 0 <= j < |q[1..]| ==> q[1..][j] == q[j + 1];
      }
    }
  }

  lemma {:induction false} WithoutAbsent<T(!new)>(q: seq<T>, x: T)
    requires x !in q
    ensures Without(q, x) == q
  {
    if q != [] {
      WithoutAbsent(q[1..], x);
    }
  }

  // An element that is there once is dropped.
  lemma {:induction false} WithoutAt<T(!new)>(q: seq<T>, x: T, k: nat)
    requires Distinct(q) && k < |q| && q[k] == x
    ensures Without(q, x) == Dropped(q, k)
  {
    var rest := q[1..];
    assert forall j :: 0 <= j < |rest| ==> rest[j] == q[j + 1];
    if k > 0 {
      WithoutAt(rest, x, k - 1);
      TailParts(q, k);
    } else {
      WithoutAbsent(rest, x);
    }
  }

  lemma TailParts<T>(q: seq<T>, k: nat)
    requires 0 < k < |q|
    ensures [q[0]] + Dropped(q[1..], k - 1) == Dropped(q, k)
  {
  }
}
