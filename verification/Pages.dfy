/** The page allocator of rt-smart/src/slab.c: a list of free runs of pages, kept in the pages themselves. */
module Pages {
  import opened Common

  // `size` free pages from page number `start` on.
  datatype Run = Run(start: nat, size: nat) {
    function End(): nat {
      start + size
    }
  }

  // Non-empty runs from `low` on, each separated by at least one page from the next.
  ghost predicate Canonical(runs: seq<Run>, low: nat) {
    runs == [] || (low <= runs[0].start && runs[0].size > 0 && Canonical(runs[1..], runs[0].End() + 1))
  }

  ghost predicate Free(runs: seq<Run>, p: nat) {
    runs != [] && (runs[0].start <= p < runs[0].End() || Free(runs[1..], p))
  }

  ghost predicate AllFree(runs: seq<Run>, start: nat, n: nat) {
    forall p: nat :: start <= p < start + n ==> Free(runs, p)
  }

  lemma {:induction false} FreeAbove(runs: seq<Run>, low: nat, p: nat)
    requires Canonical(runs, low) && Free(runs, p)
    ensures low <= p
  {
    if p < runs[0].start || runs[0].End() <= p {
      FreeAbove(runs[1..], runs[0].End() + 1, p);
    }
  }

  // rt_page_alloc: what is left, and where the allocated pages are.
  function Allocated(runs: seq<Run>, n: nat): (seq<Run>, Option<nat>) {
    if runs == [] then (runs, None)
    else if runs[0].size > n then ([Run(runs[0].start + n, runs[0].size - n)] + runs[1..], Some(runs[0].start))
    else if runs[0].size == n then (runs[1..], Some(runs[0].start))
    else
      var (rest, start) := Allocated(runs[1..], n);
      ([runs[0]] + rest, start)
  }

  // rt_page_free
  function Freed(runs: seq<Run>, start: nat, n: nat): seq<Run> {
    if runs == [] then [Run(start, n)]
    else
      var b := runs[0];
      if b.End() == start then
        if |runs| > 1 && start + n == runs[1].start then [Run(b.start, b.size + n + runs[1].size)] + runs[2..]
        else [Run(b.start, b.size + n)] + runs[1..]
      else if b.start == start + n then [Run(start, b.size + n)] + runs[1..]
      else if b.start > start + n then [Run(start, n)] + runs
      else [b] + Freed(runs[1..], start, n)
  }

  // Enough consecutive free pages lie in one run, which therefore starts no later than they do.
  lemma {:induction false} InOneRun(runs: seq<Run>, low: nat, start: nat, n: nat)
    requires Canonical(runs, low) && n > 0 && AllFree(runs, start, n)
    ensures runs != []
    ensures (runs[0].start <= start && start + n <= runs[0].End())
      || (runs[0].End() < start && AllFree(runs[1..], start, n))
  {
    assert Free(runs, start);
    var b := runs[0];
    if start < b.End() {
      if b.End() < start + n {
        assert Free(runs, b.End());
        FreeAbove(runs[1..], b.End() + 1, b.End());
      }
      if start < b.start {
        FreeAbove(runs, b.start, start);
      }
    } else {
      FreeAbove(runs[1..], b.End() + 1, start);
      forall p: nat | start <= p < start + n ensures Free(runs[1..], p) {
        assert Free(runs, p);
      }
    }
  }

  /** Allocation is first fit: it takes the lowest n consecutive free pages, and fails only if there are none. */
  lemma {:induction false} AllocatedIsLowest(runs: seq<Run>, low: nat, n: nat, start: nat)
    requires Canonical(runs, low) && n > 0 && AllFree(runs, start, n)
    ensures Allocated(runs, n).1.Some? && Allocated(runs, n).1.value <= start
  {
    InOneRun(runs, low, start, n);
    if runs[0].size < n {
      AllocatedIsLowest(runs[1..], runs[0].End() + 1, n, start);
      AllocatedWasFree(runs[1..], runs[0].End() + 1, n);
    } else if runs[0].End() < start {
      assert runs[0].start <= start;
    }
  }

  lemma {:induction false} AllocatedWasFree(runs: seq<Run>, low: nat, n: nat)
    requires Canonical(runs, low) && n > 0
    ensures Allocated(runs, n).1.Some? ==>
      low <= Allocated(runs, n).1.value && AllFree(runs, Allocated(runs, n).1.value, n)
  {
    if runs != [] && runs[0].size < n {
      AllocatedWasFree(runs[1..], runs[0].End() + 1, n);
      if Allocated(runs, n).1.Some? {
        forall p: nat | Free(runs[1..], p) ensures Free(runs, p) {
        }
      }
    }
  }

  /** Allocation removes exactly its pages from the free ones and keeps the list canonical. */
  lemma {:induction false} AllocatedKeeps(runs: seq<Run>, low: nat, n: nat)
    requires Canonical(runs, low) && n > 0
    ensures Canonical(Allocated(runs, n).0, low)
    ensures Allocated(runs, n).1.None? ==> Allocated(runs, n).0 == runs
    ensures var (after, start) := Allocated(runs, n);
            start.Some? ==> forall p: nat :: Free(after, p) <==> Free(runs, p) && !(start.value <= p < start.value + n)
  {
    if runs != [] {
      var b, rest := runs[0], runs[1..];
      var (after, start) := Allocated(runs, n);
      if b.size > n {
        assert after[1..] == rest;
        forall p: nat ensures Free(after, p) <==> Free(runs, p) && !(b.start <= p < b.start + n) {
          if Free(rest, p) {
            FreeAbove(rest, b.End() + 1, p);
          }
        }
      } else if b.size == n {
        CanonicalLower(rest, b.End() + 1, low);
        forall p: nat ensures Free(after, p) <==> Free(runs, p) && !(b.start <= p < b.start + n) {
          if Free(rest, p) {
            FreeAbove(rest, b.End() + 1, p);
          }
        }
      } else {
        AllocatedKeeps(rest, b.End() + 1, n);
        AllocatedWasFree(rest, b.End() + 1, n);
        var rest' := Allocated(rest, n).0;
        assert after[0] == b && after[1..] == rest';
      }
    }
  }

  lemma CanonicalLower(runs: seq<Run>, low: nat, lower: nat)
    requires Canonical(runs, low) && lower <= low
    ensures Canonical(runs, lower)
  {
  }

  ghost predicate NoneFree(runs: seq<Run>, start: nat, n: nat) {
    forall p: nat :: start <= p < start + n ==> !Free(runs, p)
  }

  lemma NoneFreeBeside(runs: seq<Run>, low: nat, start: nat, n: nat)
    requires Canonical(runs, low) && n > 0 && NoneFree(runs, start, n) && runs != []
    ensures runs[0].End() <= start || start + n <= runs[0].start
    ensures NoneFree(runs[1..], start, n)
  {
    if start < runs[0].End() && runs[0].start < start + n {
      var p := if start < runs[0].start then runs[0].start else start;
      assert Free(runs, p);
    }
    forall p: nat | Free(runs[1..], p) ensures Free(runs, p) {
    }
  }

  /** Freeing adds exactly its pages to the free ones and keeps the list canonical, merging on both sides. */
  lemma {:induction false} FreedKeeps(runs: seq<Run>, low: nat, start: nat, n: nat)
    requires Canonical(runs, low) && n > 0 && low <= start && NoneFree(runs, start, n)
    ensures Canonical(Freed(runs, start, n), low)
    ensures forall p: nat :: Free(Freed(runs, start, n), p) <==> Free(runs, p) || start <= p < start + n
  {
    var after := Freed(runs, start, n);
    if runs == [] {
      assert after[1..] == [];
    } else {
      var b, rest := runs[0], runs[1..];
      NoneFreeBeside(runs, low, start, n);
      if b.End() == start {
        if rest != [] {
          NoneFreeBeside(rest, b.End() + 1, start, n);
        }
        if |runs| > 1 && start + n == runs[1].start {
          assert after[1..] == runs[2..] == rest[1..];
        } else {
          assert after[1..] == rest;
        }
      } else if b.start == start + n {
        assert after[1..] == rest;
      } else if b.start > start + n {
        assert after[1..] == runs;
      } else {
        FreedKeeps(rest, b.End() + 1, start, n);
        assert after[1..] == Freed(rest, start, n);
      }
    }
  }

  /** The list depends on nothing but the set of free pages. */
  lemma {:induction false} CanonicalUnique(r: seq<Run>, s: seq<Run>, low: nat)
    requires Canonical(r, low) && Canonical(s, low) && forall p: nat :: Free(r, p) <==> Free(s, p)
    ensures r == s
  {
    if r != [] {
      assert Free(r, r[0].start) && Free(s, r[0].start);
    }
    if s != [] {
      assert Free(s, s[0].start) && Free(r, s[0].start);
    }
    if r != [] && s != [] {
      FirstAlike(r, s, low);
      FirstAlike(s, r, low);
      forall p: nat ensures Free(r[1..], p) <==> Free(s[1..], p) {
        assert Free(r, p) <==> Free(s, p);
        if Free(r[1..], p) {
          FreeAbove(r[1..], r[0].End() + 1, p);
        }
        if Free(s[1..], p) {
          FreeAbove(s[1..], s[0].End() + 1, p);
        }
      }
      CanonicalUnique(r[1..], s[1..], r[0].End() + 1);
      assert r == [r[0]] + r[1..] && s == [s[0]] + s[1..];
    }
  }

  lemma FirstAlike(r: seq<Run>, s: seq<Run>, low: nat)
    requires Canonical(r, low) && Canonical(s, low) && r != [] && s != [] && forall p: nat :: Free(r, p) <==> Free(s, p)
    ensures s[0].start <= r[0].start && r[0].End() <= s[0].End()
  {
    assert Free(r, r[0].start);
    FreeAbove(s, s[0].start, r[0].start);
    if s[0].End() < r[0].End() {
      if s[0].End() <= r[0].start {
        assert Free(s, s[0].start);
        FreeAbove(r, r[0].start, s[0].start);
      }
      assert Free(r, s[0].End());
      FreeAbove(s[1..], s[0].End() + 1, s[0].End());
    }
  }

  /** Freeing what was just allocated restores the list. */
  lemma FreeUndoesAlloc(runs: seq<Run>, low: nat, n: nat)
    requires Canonical(runs, low) && n > 0 && Allocated(runs, n).1.Some?
    ensures Freed(Allocated(runs, n).0, Allocated(runs, n).1.value, n) == runs
  {
    var (after, start) := Allocated(runs, n);
    AllocatedKeeps(runs, low, n);
    AllocatedWasFree(runs, low, n);
    FreedKeeps(after, low, start.value, n);
    var again := Freed(after, start.value, n);
    forall p: nat ensures Free(again, p) <==> Free(runs, p) {
      assert start.value <= p < start.value + n ==> Free(runs, p);
    }
    CanonicalUnique(again, runs, low);
  }

  datatype Step = AllocStep(n: nat) | FreeStep(start: nat, n: nat)

  // Only pages that are not free are given back.
  ghost predicate Enabled(runs: seq<Run>, low: nat, step: Step) {
    step.n > 0 && (step.FreeStep? ==> low <= step.start && NoneFree(runs, step.start, step.n))
  }

  function Apply(runs: seq<Run>, step: Step): seq<Run> {
    match step
    case AllocStep(n) => Allocated(runs, n).0
    case FreeStep(start, n) => Freed(runs, start, n)
  }

  ghost predicate History(runs: seq<Run>, low: nat, steps: seq<Step>)
    decreases |steps|
  {
    steps == [] || (Enabled(runs, low, steps[0]) && History(Apply(runs, steps[0]), low, steps[1..]))
  }

  function After(runs: seq<Run>, steps: seq<Step>): seq<Run>
    decreases |steps|
  {
    if steps == [] then runs else After(Apply(runs, steps[0]), steps[1..])
  }

  lemma {:induction false} HistoryKeeps(runs: seq<Run>, low: nat, steps: seq<Step>)
    requires Canonical(runs, low) && History(runs, low, steps)
    ensures Canonical(After(runs, steps), low)
    decreases |steps|
  {
    if steps != [] {
      match steps[0] {
        case AllocStep(n) => AllocatedKeeps(runs, low, n);
        case FreeStep(start, n) => FreedKeeps(runs, low, start, n);
      }
      HistoryKeeps(Apply(runs, steps[0]), low, steps[1..]);
    }
  }

  /** Any two histories that end with the same free pages end with the same list. */
  lemma SameFreeSameList(runs: seq<Run>, low: nat, one: seq<Step>, two: seq<Step>)
    requires Canonical(runs, low) && History(runs, low, one) && History(runs, low, two)
    requires forall p: nat :: Free(After(runs, one), p) <==> Free(After(runs, two), p)
    ensures After(runs, one) == After(runs, two)
  {
    HistoryKeeps(runs, low, one);
    HistoryKeeps(runs, low, two);
    CanonicalUnique(After(runs, one), After(runs, two), low);
  }

  // A pointer to the header in a run's first page, and that header.
  datatype Ref = Null | At(page: nat)

  datatype Header = Header(next: Ref, page: nat)

  function RefTo(runs: seq<Run>, i: nat): Ref {
    if i < |runs| then At(runs[i].start) else Null
  }

  ghost predicate Linked(list: Ref, header: map<nat, Header>, runs: seq<Run>) {
    && list == RefTo(runs, 0)
    && forall i :: 0 <= i < |runs| ==>
       runs[i].start in header && header[runs[i].start] == Header(RefTo(runs, i + 1), runs[i].size)
  }

  lemma {:induction false} StartsIncrease(runs: seq<Run>, low: nat, i: nat, j: nat)
    requires Canonical(runs, low) && i < j < |runs|
    ensures low <= runs[i].start && runs[i].size > 0 && runs[i].End() < runs[j].start && runs[j].size > 0
  {
    if i > 0 {
      StartsIncrease(runs[1..], runs[0].End() + 1, i - 1, j - 1);
    } else {
      FirstOfTail(runs[1..], runs[0].End() + 1, j - 1);
    }
  }

  lemma {:induction false} FirstOfTail(runs: seq<Run>, low: nat, j: nat)
    requires Canonical(runs, low) && j < |runs|
    ensures low <= runs[j].start && runs[j].size > 0
  {
    if j > 0 {
      FirstOfTail(runs[1..], runs[0].End() + 1, j - 1);
    }
  }

  lemma StartsDistinct(runs: seq<Run>, low: nat)
    requires Canonical(runs, low)
    ensures forall i, j :: 0 <= i < |runs| && 0 <= j < |runs| && i != j ==> runs[i].start != runs[j].start
  {
    forall i: nat, j: nat | i < j < |runs| ensures runs[i].start != runs[j].start {
      StartsIncrease(runs, low, i, j);
    }
  }

  // The list with run i replaced: the predecessor's link goes to the new run, whose header is new.
  lemma LinkedReplaced(list: Ref, header: map<nat, Header>, runs: seq<Run>, i: nat, drop: nat, new': seq<Run>,
                       list': Ref, header': map<nat, Header>)
    requires Linked(list, header, runs) && i + drop <= |runs| && |new'| <= 1
    requires forall j, k :: 0 <= j < |runs| && 0 <= k < |runs| && j != k ==> runs[j].start != runs[k].start
    requires var to := if |new'| == 1 then At(new'[0].start) else RefTo(runs, i + drop);
             && list' == (if i == 0 then to else list)
             && (i > 0 ==> runs[i - 1].start in header' && header'[runs[i - 1].start] == Header(to, runs[i - 1].size))
    requires |new'| == 1 ==>
      new'[0].start in header' && header'[new'[0].start] == Header(RefTo(runs, i + drop), new'[0].size)
    requires forall j :: 0 <= j < |runs| && j != i - 1 && !(i <= j < i + drop) ==>
               runs[j].start in header' && header'[runs[j].start] == header[runs[j].start]
    ensures Linked(list', header', runs[..i] + new' + runs[i + drop..])
  {
    var after := runs[..i] + new' + runs[i + drop..];
    assert RefTo(after, 0) == list' by {
      SplicedAt(runs, i, drop, new', 0);
    }
    forall j | 0 <= j < |after|
      ensures after[j].start in header' && header'[after[j].start] == Header(RefTo(after, j + 1), after[j].size)
    {
      SplicedAt(runs, i, drop, new', j);
      SplicedAt(runs, i, drop, new', j + 1);
      hide RefTo;
      if j < i {
        assert after[j] == runs[j];
      } else if j >= i + |new'| {
        var k := j - |new'| + drop;
        assert after[j] == runs[k];
      }
    }
  }

  lemma SplicedAt(runs: seq<Run>, i: nat, drop: nat, new': seq<Run>, j: nat)
    requires i + drop <= |runs| && |new'| <= 1
    ensures var after := runs[..i] + new' + runs[i + drop..];
            && (j < i ==> after[j] == runs[j] && RefTo(after, j) == RefTo(runs, j))
            && (j == i && |new'| == 1 ==> after[j] == new'[0] && RefTo(after, j) == At(new'[0].start))
            && (j >= i + |new'| ==> RefTo(after, j) == RefTo(runs, j - |new'| + drop))
            && (i + |new'| <= j < |after| ==> after[j] == runs[j - |new'| + drop])
  {
  }

  lemma {:induction false} AllocatedAfter(runs: seq<Run>, n: nat, i: nat)
    requires i <= |runs| && forall j :: 0 <= j < i ==> runs[j].size < n
    ensures Allocated(runs, n).0 == runs[..i] + Allocated(runs[i..], n).0
    ensures Allocated(runs, n).1 == Allocated(runs[i..], n).1
  {
    if i > 0 {
      AllocatedAfter(runs[1..], n, i - 1);
      assert runs[1..][i - 1..] == runs[i..] && [runs[0]] + runs[1..][..i - 1] == runs[..i];
    } else {
      assert runs[0..] == runs;
    }
  }

  lemma {:induction false} FreedAfter(runs: seq<Run>, start: nat, n: nat, i: nat)
    requires i <= |runs|
    requires forall j :: 0 <= j < i ==> runs[j].End() != start && runs[j].start < start + n
    ensures Freed(runs, start, n) == runs[..i] + Freed(runs[i..], start, n)
  {
    if i > 0 {
      FreedAfter(runs[1..], start, n, i - 1);
      assert runs[1..][i - 1..] == runs[i..] && [runs[0]] + runs[1..][..i - 1] == runs[..i];
    } else {
      assert runs[0..] == runs;
    }
  }

  lemma AllocatedHere(runs: seq<Run>, i: nat, n: nat)
    requires i < |runs| && runs[i].size >= n && forall j :: 0 <= j < i ==> runs[j].size < n
    ensures var rest := if runs[i].size > n then [Run(runs[i].start + n, runs[i].size - n)] else [];
            Allocated(runs, n).0 == runs[..i] + rest + runs[i + 1..] && Allocated(runs, n).1 == Some(runs[i].start)
  {
    AllocatedAfter(runs, n, i);
    var rest := if runs[i].size > n then [Run(runs[i].start + n, runs[i].size - n)] else [];
    assert runs[i..][1..] == runs[i + 1..];
    assert runs[..i] + rest + runs[i + 1..] == runs[..i] + (rest + runs[i + 1..]);
  }

  lemma AllocatedNowhere(runs: seq<Run>, n: nat)
    requires forall j :: 0 <= j < |runs| ==> runs[j].size < n
    ensures Allocated(runs, n) == (runs, None)
  {
    AllocatedAfter(runs, n, |runs|);
    assert runs[..|runs|] + [] == runs;
  }

  lemma NotAStart(runs: seq<Run>, low: nat, i: nat, p: nat)
    requires Canonical(runs, low) && i < |runs| && runs[i].start < p <= runs[i].End()
    ensures forall j :: 0 <= j < |runs| ==> runs[j].start != p
  {
    forall j | 0 <= j < |runs| ensures runs[j].start != p {
      if j < i {
        StartsIncrease(runs, low, j, i);
      } else if j > i {
        StartsIncrease(runs, low, i, j);
      }
    }
  }

  lemma {:induction false} StartIsFree(runs: seq<Run>, low: nat, i: nat)
    requires Canonical(runs, low) && i < |runs|
    ensures Free(runs, runs[i].start)
  {
    if i > 0 {
      StartIsFree(runs[1..], runs[0].End() + 1, i - 1);
    }
  }

  lemma FreedNotAStart(runs: seq<Run>, low: nat, start: nat, n: nat)
    requires Canonical(runs, low) && n > 0 && NoneFree(runs, start, n)
    ensures forall j :: 0 <= j < |runs| ==> runs[j].start != start
  {
    forall j | 0 <= j < |runs| ensures runs[j].start != start {
      StartIsFree(runs, low, j);
    }
  }

  // How freeing changes the list at the run it meets.
  lemma FreedHere(runs: seq<Run>, start: nat, n: nat, i: nat, drop: nat, new': Run)
    requires i <= |runs| && forall j :: 0 <= j < i ==> runs[j].End() != start && runs[j].start < start + n
    requires i == |runs| || runs[i].End() == start || runs[i].start >= start + n
    requires
      if i < |runs| && runs[i].End() == start then
        if i + 1 < |runs| && start + n == runs[i + 1].start then
          drop == 2 && new' == Run(runs[i].start, runs[i].size + n + runs[i + 1].size)
        else drop == 1 && new' == Run(runs[i].start, runs[i].size + n)
      else if i < |runs| && runs[i].start == start + n then drop == 1 && new' == Run(start, runs[i].size + n)
      else drop == 0 && new' == Run(start, n)
    ensures i + drop <= |runs| && Freed(runs, start, n) == runs[..i] + [new'] + runs[i + drop..]
  {
    FreedAfter(runs, start, n, i);
    assert |runs[i..]| > 1 ==> runs[i..][1] == runs[i + 1];
    assert runs[i..] != [] ==> runs[i..][0] == runs[i];
    assert i + drop <= |runs| && runs[i..][drop..] == runs[i + drop..];
    assert Freed(runs[i..], start, n) == [new'] + runs[i + drop..];
    assert runs[..i] + [new'] + runs[i + drop..] == runs[..i] + ([new'] + runs[i + drop..]);
  }

  lemma FreedInFront(runs: seq<Run>, start: nat, n: nat, i: nat)
    requires n > 0 && i < |runs| && runs[i].start == start + n
    requires forall j :: 0 <= j < i ==> runs[j].End() != start && runs[j].start < start + n
    ensures Freed(runs, start, n) == runs[..i] + [Run(start, runs[i].size + n)] + runs[i + 1..]
  {
    FreedHere(runs, start, n, i, 1, Run(start, runs[i].size + n));
  }

  lemma FreedApart(runs: seq<Run>, start: nat, n: nat, i: nat)
    requires i <= |runs| && forall j :: 0 <= j < i ==> runs[j].End() != start && runs[j].start < start + n
    requires i < |runs| ==> runs[i].start > start + n
    ensures Freed(runs, start, n) == runs[..i] + [Run(start, n)] + runs[i..]
  {
    FreedHere(runs, start, n, i, 0, Run(start, n));
  }

  lemma HeaderOf(list: Ref, header: map<nat, Header>, runs: seq<Run>, i: nat)
    requires Linked(list, header, runs) && i < |runs|
    ensures runs[i].start in header && header[runs[i].start] == Header(RefTo(runs, i + 1), runs[i].size)
  {
  }

  lemma ListStart(list: Ref, header: map<nat, Header>, runs: seq<Run>)
    requires Linked(list, header, runs)
    ensures list == RefTo(runs, 0)
  {
  }

  // The pointer through which run i is reached.
  function Before(runs: seq<Run>, i: nat): Ref
    requires i <= |runs|
  {
    if i == 0 then Null else At(runs[i - 1].start)
  }

  function ListSet(list: Ref, prev: Ref, to: Ref): Ref {
    if prev == Null then to else list
  }

  // The assignment to *prev: to the list head, or to the `next` field of a header.
  function HeaderSet(header: map<nat, Header>, prev: Ref, to: Ref): map<nat, Header>
    requires prev.At? ==> prev.page in header
  {
    if prev == Null then header else header[prev.page := Header(to, header[prev.page].page)]
  }

  lemma RunReplaced(list: Ref, header: map<nat, Header>, runs: seq<Run>, low: nat, i: nat, drop: nat, start: nat,
                    size: nat)
    requires Linked(list, header, runs) && Canonical(runs, low) && i + drop <= |runs|
    requires forall j :: 0 <= j < |runs| && !(i <= j < i + drop) ==> runs[j].start != start
    ensures var header' := header[start := Header(RefTo(runs, i + drop), size)];
            var prev, after := Before(runs, i), runs[..i] + [Run(start, size)] + runs[i + drop..];
            && (prev.At? ==> prev.page in header')
            && Linked(ListSet(list, prev, At(start)), HeaderSet(header', prev, At(start)), after)
            && (drop > 0 && runs[i].start == start ==> Linked(list, header', after))
  {
    StartsDistinct(runs, low);
    var header' := header[start := Header(RefTo(runs, i + drop), size)];
    var prev := Before(runs, i);
    LinkedReplaced(list, header, runs, i, drop, [Run(start, size)], ListSet(list, prev, At(start)),
      HeaderSet(header', prev, At(start)));
    if drop > 0 && runs[i].start == start {
      LinkedReplaced(list, header, runs, i, drop, [Run(start, size)], list, header');
    }
  }

  lemma RunRemoved(list: Ref, header: map<nat, Header>, runs: seq<Run>, low: nat, i: nat)
    requires Linked(list, header, runs) && Canonical(runs, low) && i < |runs|
    ensures var prev, to := Before(runs, i), RefTo(runs, i + 1);
            && (prev.At? ==> prev.page in header)
            && Linked(ListSet(list, prev, to), HeaderSet(header, prev, to), runs[..i] + [] + runs[i + 1..])
  {
    StartsDistinct(runs, low);
    var prev, to := Before(runs, i), RefTo(runs, i + 1);
    LinkedReplaced(list, header, runs, i, 1, [], ListSet(list, prev, to), HeaderSet(header, prev, to));
  }

  class PageAllocator {
    var list: Ref
    var header: map<nat, Header>
    ghost var runs: seq<Run>

    ghost predicate Valid()
      reads this
    {
      Canonical(runs, 1) && Linked(list, header, runs)
    }

    // rt_page_init
    constructor (start: nat, npages: nat)
      requires start > 0 && npages > 0
      ensures Valid() && runs == [Run(start, npages)]
    {
      list, header, runs := Null, map[], [];
      new;
      FreePages(start, npages);
    }

    method SetLink(prev: Ref, to: Ref)
      requires prev.At? ==> prev.page in header
      modifies this`list, this`header
      ensures list == ListSet(old(list), prev, to) && header == HeaderSet(old(header), prev, to)
    {
      match prev
      case Null => list := to;
      case At(page) => header := header[page := header[page].(next := to)];
    }

    // A header is written at `start` and linked in, in place of `drop` runs.
    method PutRun(prev: Ref, start: nat, h: Header, ghost i: nat, ghost drop: nat)
      requires Valid() && i + drop <= |runs| && prev == Before(runs, i) && h.next == RefTo(runs, i + drop)
      requires forall j :: 0 <= j < |runs| && !(i <= j < i + drop) ==> runs[j].start != start
      requires Canonical(runs[..i] + [Run(start, h.page)] + runs[i + drop..], 1)
      modifies this
      ensures Valid() && runs == old(runs)[..i] + [Run(start, h.page)] + old(runs)[i + drop..]
    {
      RunReplaced(list, header, runs, 1, i, drop, start, h.page);
      hide Canonical, Linked, HeaderSet, ListSet;
      header := header[start := h];
      SetLink(prev, At(start));
      runs := runs[..i] + [Run(start, h.page)] + runs[i + drop..];
    }

    // The search of rt_page_alloc: the first run that is large enough, and the pointer to it.
    method FindFit(npages: nat) returns (prev: Ref, b: Ref, ghost i: nat)
      requires Valid()
      ensures i <= |runs| && b == RefTo(runs, i) && prev == Before(runs, i)
      ensures i < |runs| ==> runs[i].size >= npages
      ensures forall j :: 0 <= j < i ==> runs[j].size < npages
    {
      ListStart(list, header, runs);
      hide Canonical, Linked;
      prev, b, i := Null, list, 0;
      while b != Null
        invariant i <= |runs| && b == RefTo(runs, i) && prev == Before(runs, i)
        invariant forall j :: 0 <= j < i ==> runs[j].size < npages
        decreases |runs| - i
      {
        HeaderOf(list, header, runs, i);
        if header[b.page].page >= npages {
          break;
        }
        prev, b := b, header[b.page].next;
        i := i + 1;
      }
    }

    // rt_page_alloc
    method AllocPages(npages: nat) returns (r: Option<nat>)
      requires Valid()
      modifies this
      ensures Valid()
      ensures npages == 0 ==> r == None && runs == old(runs)
      ensures npages > 0 ==> (runs, r) == Allocated(old(runs), npages)
    {
      if npages == 0 {
        return None;
      }
      AllocatedKeeps(runs, 1, npages);
      ghost var i: nat;
      var prev, b;
      prev, b, i := FindFit(npages);
      hide Canonical, Allocated, Free, Linked, HeaderSet, ListSet;
      if b == Null {
        AllocatedNowhere(runs, npages);
        return None;
      }
      HeaderOf(list, header, runs, i);
      AllocatedHere(runs, i, npages);
      var h := header[b.page];
      if h.page > npages {
        var n, page := b.page + npages, h.page - npages;
        NotAStart(runs, 1, i, n);
        PutRun(prev, n, Header(h.next, page), i, 1);
      } else {
        RunRemoved(list, header, runs, 1, i);
        SetLink(prev, h.next);
        runs := runs[..i] + [] + runs[i + 1..];
      }
      return Some(b.page);
    }

    // The search of rt_page_free: the run that the pages touch, or the first one behind them.
    method FindPlace(start: nat, npages: nat) returns (prev: Ref, b: Ref, ghost i: nat)
      requires Valid()
      ensures i <= |runs| && b == RefTo(runs, i) && prev == Before(runs, i)
      ensures i < |runs| ==> runs[i].End() == start || runs[i].start >= start + npages
      ensures forall j :: 0 <= j < i ==> runs[j].End() != start && runs[j].start < start + npages
    {
      ListStart(list, header, runs);
      hide Canonical, Linked;
      prev, b, i := Null, list, 0;
      while b != Null
        invariant i <= |runs| && b == RefTo(runs, i) && prev == Before(runs, i)
        invariant forall j :: 0 <= j < i ==> runs[j].End() != start && runs[j].start < start + npages
        decreases |runs| - i
      {
        HeaderOf(list, header, runs, i);
        if b.page + header[b.page].page == start || b.page == start + npages || b.page > start + npages {
          break;
        }
        prev, b := b, header[b.page].next;
        i := i + 1;
      }
    }

    // rt_page_free
    method FreePages(start: nat, npages: nat)
      requires Valid() && start > 0 && npages > 0 && NoneFree(runs, start, npages)
      modifies this
      ensures Valid() && runs == Freed(old(runs), start, npages)
    {
      FreedKeeps(runs, 1, start, npages);
      FreedNotAStart(runs, 1, start, npages);
      ghost var i: nat;
      var prev, b;
      prev, b, i := FindPlace(start, npages);
      hide Canonical, Freed, Free, NoneFree, Linked, HeaderSet, ListSet;
      if b.At? {
        HeaderOf(list, header, runs, i);
        var h := header[b.page];
        if b.page + h.page == start {
          Extend(b, npages, i);
          return;
        }
        if b.page == start + npages {
          FreedInFront(runs, start, npages, i);
          PutRun(prev, start, Header(h.next, h.page + npages), i, 1);
          return;
        }
      }
      FreedApart(runs, start, npages, i);
      PutRun(prev, start, Header(b, npages), i, 0);
    }

    // The pages follow the run at b: it grows, and takes in the next run if that follows in turn.
    method Extend(b: Ref, npages: nat, ghost i: nat)
      requires Valid() && i < |runs| && b == At(runs[i].start) && npages > 0
      requires forall j :: 0 <= j < i ==> runs[j].End() != runs[i].End() && runs[j].start < runs[i].End() + npages
      requires Canonical(Freed(runs, runs[i].End(), npages), 1)
      modifies this
      ensures Valid() && runs == Freed(old(runs), old(runs)[i].End(), npages)
    {
      hide Canonical, Freed, Linked;
      HeaderOf(list, header, runs, i);
      StartsDistinct(runs, 1);
      var h := header[b.page];
      var page, next := h.page + npages, h.next;
      ghost var drop: nat := 1;
      if next == At(b.page + page) {
        HeaderOf(list, header, runs, i + 1);
        page := page + header[next.page].page;
        next := header[next.page].next;
        drop := 2;
      }
      FreedHere(runs, runs[i].End(), npages, i, drop, Run(b.page, page));
      RunReplaced(list, header, runs, 1, i, drop, b.page, page);
      header := header[b.page := Header(next, page)];
      runs := runs[..i] + [Run(b.page, page)] + runs[i + drop..];
    }
  }
}
