/** The worst-case stack analysis of rt-smart/tools/WCS.py: a memoised search of a call graph that may have cycles. */
module WorstStack {
  import opened Common

  // One function: its callees that were resolved, the names that were not, and what its stack frame needs. A manual
  // entry comes from a file of given stack sizes instead of from compiler output.
  datatype Function = Function(calls: seq<nat>, unresolved: set<string>, hasPtrCall: bool, localStack: nat,
    manual: bool)

  type Graph = seq<Function>

  datatype Stack = Unbounded | Bounded(bytes: nat)

  ghost predicate WellFormed(g: Graph) {
    forall f: nat :: f < |g| ==>
      && (forall i :: 0 <= i < |g[f].calls| ==> g[f].calls[i] < |g|)
      && (g[f].manual ==> g[f].calls == [] && g[f].unresolved == {} && !g[f].hasPtrCall)
  }

  // A sequence of functions each of which calls the next.
  ghost predicate Chain(g: Graph, p: seq<nat>) {
    && p != [] && (forall i :: 0 <= i < |p| ==> p[i] < |g|)
    && (forall i :: 0 <= i < |p| - 1 ==> p[i + 1] in g[p[i]].calls)
  }

  ghost predicate ChainFrom(g: Graph, f: nat, p: seq<nat>) {
    Chain(g, p) && p[0] == f
  }

  function Last(p: seq<nat>): nat
    requires p != []
  {
    p[|p| - 1]
  }

  function Sum(g: Graph, p: seq<nat>): nat
    requires forall i :: 0 <= i < |p| ==> p[i] < |g|
  {
    if p == [] then 0 else g[p[0]].localStack + Sum(g, p[1..])
  }

  // The chain ends in a call through a pointer, or where it has been before.
  ghost predicate Endless(g: Graph, p: seq<nat>)
    requires Chain(g, p)
  {
    g[Last(p)].hasPtrCall || Last(p) in p[..|p| - 1]
  }

  ghost predicate Recurses(g: Graph, f: nat) {
    exists p :: ChainFrom(g, f, p) && Endless(g, p)
  }

  // The largest sum over the call chains that start at f.
  ghost predicate Largest(g: Graph, f: nat, bytes: nat) {
    && (forall p :: ChainFrom(g, f, p) ==> Sum(g, p) <= bytes)
    && (exists p :: ChainFrom(g, f, p) && Sum(g, p) == bytes)
  }

  ghost predicate Correct(g: Graph, f: nat, stack: Stack) {
    match stack
    case Unbounded => Recurses(g, f)
    case Bounded(bytes) => !Recurses(g, f) && Largest(g, f, bytes)
  }

  ghost predicate ReachesName(g: Graph, f: nat, name: string) {
    exists p :: ChainFrom(g, f, p) && name in g[Last(p)].unresolved
  }

  ghost predicate Collected(g: Graph, f: nat, names: set<string>) {
    && (forall name :: name in names ==> ReachesName(g, f, name))
    && (forall name :: ReachesName(g, f, name) ==> name in names)
  }

  /** Only one answer is correct, so neither the order of the visits nor what was remembered can matter. */
  lemma CorrectIsUnique(g: Graph, f: nat, a: Stack, b: Stack)
    requires Correct(g, f, a) && Correct(g, f, b)
    ensures a == b
  {
    if a.Bounded? && b.Bounded? {
      var p :| ChainFrom(g, f, p) && Sum(g, p) == a.bytes;
      var q :| ChainFrom(g, f, q) && Sum(g, q) == b.bytes;
    }
  }

  lemma Extends(g: Graph, f: nat, p: seq<nat>)
    requires WellFormed(g) && f < |g| && Chain(g, p) && p[0] in g[f].calls
    ensures ChainFrom(g, f, [f] + p) && Last([f] + p) == Last(p) && Sum(g, [f] + p) == g[f].localStack + Sum(g, p)
    ensures Endless(g, p) ==> Endless(g, [f] + p)
  {
    var q := [f] + p;
    assert forall i :: 0 < i < |q| ==> q[i] == p[i - 1];
    assert q[1..] == p;
    assert q[..|q| - 1] == [f] + p[..|p| - 1];
  }

  lemma TailOfChain(g: Graph, p: seq<nat>)
    requires Chain(g, p) && |p| > 1
    ensures ChainFrom(g, p[1], p[1..]) && Last(p[1..]) == Last(p) && p[1] in g[p[0]].calls
    ensures Sum(g, p) == g[p[0]].localStack + Sum(g, p[1..])
  {
    assert forall i :: 0 <= i < |p[1..]| ==> p[1..][i] == p[i + 1];
    assert p[0 + 1] in g[p[0]].calls;
  }

  lemma Alone(g: Graph, f: nat)
    requires f < |g|
    ensures ChainFrom(g, f, [f]) && Last([f]) == f && Sum(g, [f]) == g[f].localStack
    ensures Endless(g, [f]) <==> g[f].hasPtrCall
  {
    assert [f][1..] == [];
  }

  lemma PointerCallRecurses(g: Graph, f: nat)
    requires f < |g| && g[f].hasPtrCall
    ensures Recurses(g, f)
  {
    Alone(g, f);
  }

  lemma CalleeRecurses(g: Graph, f: nat, c: nat)
    requires WellFormed(g) && f < |g| && c in g[f].calls && Recurses(g, c)
    ensures Recurses(g, f)
  {
    var p :| ChainFrom(g, c, p) && Endless(g, p);
    Extends(g, f, p);
  }

  // Meeting a function that is still being worked on means that it calls itself.
  lemma ParentRecurses(g: Graph, parents: seq<nat>, f: nat)
    requires Chain(g, parents + [f]) && f in parents
    ensures Recurses(g, f)
  {
    var i :| 0 <= i < |parents| && parents[i] == f;
    var p := parents[i..] + [f];
    assert forall j :: 0 <= j < |p| ==> p[j] == (parents + [f])[i + j];
    assert p[..|p| - 1][0] == f;
    assert ChainFrom(g, f, p) && Endless(g, p);
  }

  lemma ChainGrows(g: Graph, p: seq<nat>, c: nat)
    requires WellFormed(g) && Chain(g, p) && c in g[p[|p| - 1]].calls
    ensures Chain(g, p + [c]) && (p + [c])[0] == p[0] && Last(p + [c]) == c
  {
  }

  // A function recurses only through its own pointer call or through a callee that does: closing a cycle at the
  // function itself makes the callee on that cycle one.
  lemma CalleesDecide(g: Graph, f: nat) returns (c: nat)
    requires WellFormed(g) && f < |g| && Recurses(g, f) && !g[f].hasPtrCall
    ensures c in g[f].calls && Recurses(g, c)
  {
    var p :| ChainFrom(g, f, p) && Endless(g, p);
    assert |p| > 1;
    TailOfChain(g, p);
    c := p[1];
    if g[Last(p)].hasPtrCall {
      assert Endless(g, p[1..]);
    } else {
      var i :| 0 <= i < |p| - 1 && p[i] == Last(p);
      if i > 0 {
        assert p[1..][..|p[1..]| - 1][i - 1] == Last(p[1..]);
      } else {
        var q := p[1..] + [c];
        ChainGrows(g, p[1..], c);
        assert q[..|q| - 1][0] == c;
        assert ChainFrom(g, c, q) && Endless(g, q);
      }
    }
  }

  ghost predicate AtMost(g: Graph, f: nat, bytes: nat) {
    forall p :: ChainFrom(g, f, p) ==> Sum(g, p) <= bytes
  }

  // What the loop over the callees has found so far.
  ghost predicate LargestCallee(g: Graph, calls: seq<nat>, max: nat) {
    (forall c :: c in calls ==> AtMost(g, c, max)) && (max == 0 || exists c :: c in calls && Largest(g, c, max))
  }

  lemma LargestStep(g: Graph, calls: seq<nat>, k: nat, max: nat, bytes: nat)
    requires k < |calls| && LargestCallee(g, calls[..k], max) && Largest(g, calls[k], bytes)
    ensures LargestCallee(g, calls[..k + 1], if bytes > max then bytes else max)
  {
    assert calls[..k + 1] == calls[..k] + [calls[k]];
    assert AtMost(g, calls[k], bytes);
  }

  lemma LargestOfCallees(g: Graph, f: nat, max: nat)
    requires WellFormed(g) && f < |g| && LargestCallee(g, g[f].calls, max)
    ensures Largest(g, f, max + g[f].localStack)
  {
    forall p | ChainFrom(g, f, p) ensures Sum(g, p) <= max + g[f].localStack {
      if |p| == 1 {
        assert p == [f];
        Alone(g, f);
      } else {
        TailOfChain(g, p);
        assert AtMost(g, p[1], max);
      }
    }
    if max == 0 {
      Alone(g, f);
      assert Sum(g, [f]) == max + g[f].localStack;
    } else {
      var c :| c in g[f].calls && Largest(g, c, max);
      var p :| ChainFrom(g, c, p) && Sum(g, p) == max;
      Extends(g, f, p);
    }
  }

  // The names found so far: those of the function itself and those its first callees reach.
  ghost predicate CollectedSoFar(g: Graph, own: set<string>, calls: seq<nat>, names: set<string>) {
    && (forall name :: name in names ==> name in own || exists c :: c in calls && ReachesName(g, c, name))
    && own <= names
    && (forall c, name :: c in calls && ReachesName(g, c, name) ==> name in names)
  }

  lemma CollectedStep(g: Graph, own: set<string>, calls: seq<nat>, k: nat, names: set<string>, more: set<string>)
    requires k < |calls| && CollectedSoFar(g, own, calls[..k], names) && Collected(g, calls[k], more)
    ensures CollectedSoFar(g, own, calls[..k + 1], names + more)
  {
    hide ReachesName;
    assert calls[..k + 1] == calls[..k] + [calls[k]];
  }

  lemma CollectedAll(g: Graph, f: nat, names: set<string>)
    requires WellFormed(g) && f < |g| && CollectedSoFar(g, g[f].unresolved, g[f].calls, names)
    ensures Collected(g, f, names)
  {
    Alone(g, f);
    forall name | name in names ensures ReachesName(g, f, name) {
      if name in g[f].unresolved {
        assert name in g[Last([f])].unresolved;
      } else {
        var c :| c in g[f].calls && ReachesName(g, c, name);
        var p :| ChainFrom(g, c, p) && name in g[Last(p)].unresolved;
        Extends(g, f, p);
        assert name in g[Last([f] + p)].unresolved;
      }
    }
    forall name | ReachesName(g, f, name) ensures name in names {
      var p :| ChainFrom(g, f, p) && name in g[Last(p)].unresolved;
      if |p| > 1 {
        TailOfChain(g, p);
        assert name in g[Last(p[1..])].unresolved;
        assert ReachesName(g, p[1], name);
      }
    }
  }

  lemma ManualCorrect(g: Graph, f: nat)
    requires WellFormed(g) && f < |g| && g[f].manual
    ensures Correct(g, f, Bounded(g[f].localStack)) && Collected(g, f, {})
  {
    if Recurses(g, f) {
      var c := CalleesDecide(g, f);
    }
    LargestOfCallees(g, f, 0);
    CollectedAll(g, f, {});
  }

  // Distinct numbers below n are at most n in number.
  lemma {:induction false} Pigeonhole(p: seq<nat>, n: nat)
    requires Distinct(p) && forall i :: 0 <= i < |p| ==> p[i] < n
    ensures |p| <= n
  {
    if p != [] {
      assert p[0] < n;
      if k: nat :| k < |p| && p[k] == n - 1 {
        var q := p[..k] + p[k + 1..];
        assert forall i :: 0 <= i < |q| ==> q[i] == if i < k then p[i] else p[i + 1];
        Pigeonhole(q, n - 1);
      } else {
        Pigeonhole(p, n - 1);
      }
    }
  }

  lemma ParentsBelow(g: Graph, parents: seq<nat>, f: nat)
    requires Chain(g, parents + [f])
    ensures f < |g| && forall i :: 0 <= i < |parents| ==> parents[i] < |g|
  {
    assert (parents + [f])[|parents|] == f;
    assert forall i :: 0 <= i < |parents| ==> (parents + [f])[i] == parents[i];
  }

  lemma NothingYet(g: Graph, f: nat)
    requires f < |g|
    ensures LargestCallee(g, g[f].calls[..0], 0) && CollectedSoFar(g, g[f].unresolved, g[f].calls[..0], g[f].unresolved)
  {
  }

  lemma FunctionDone(g: Graph, f: nat, max: nat, names: set<string>)
    requires WellFormed(g) && f < |g| && !g[f].hasPtrCall && LargestCallee(g, g[f].calls, max)
    requires forall i :: 0 <= i < |g[f].calls| ==> !Recurses(g, g[f].calls[i])
    requires CollectedSoFar(g, g[f].unresolved, g[f].calls, names)
    ensures Correct(g, f, Bounded(max + g[f].localStack)) && Collected(g, f, names)
  {
    if Recurses(g, f) {
      var c := CalleesDecide(g, f);
    }
    LargestOfCallees(g, f, max);
    CollectedAll(g, f, names);
  }

  type Answers = map<nat, Stack>
  type Names = map<nat, set<string>>

  ghost predicate Known(g: Graph, wcs: Answers, names: Names, f: nat) {
    f in wcs && f in names && Correct(g, f, wcs[f]) && (wcs[f].Bounded? ==> Collected(g, f, names[f]))
  }

  // All answers are right, and nothing has been collected for functions not yet begun.
  ghost predicate Sound(g: Graph, wcs: Answers, names: Names, parents: seq<nat>) {
    && Distinct(parents)
    && (forall f: nat :: f < |g| ==> f in names) && (forall f :: f in wcs ==> Known(g, wcs, names, f))
    && (forall f: nat :: f < |g| && f !in wcs && f !in parents ==> names[f] == g[f].unresolved)
  }

  // What a call may change: it adds answers, and leaves alone the names of all that is answered or being worked on.
  ghost predicate Grows(parents: seq<nat>, wcs: Answers, names: Names, wcs': Answers, names': Names) {
    && (forall f :: f in wcs ==> f in wcs' && wcs'[f] == wcs[f])
    && (forall f :: f in names && (f in wcs || f in parents) ==> f in names' && names'[f] == names[f])
    && (forall f :: f in parents && f in wcs' && f !in wcs ==> wcs'[f] == Unbounded)
  }

  lemma GrowsNot(parents: seq<nat>, wcs: Answers, names: Names)
    ensures Grows(parents, wcs, names, wcs, names)
  {
  }

  lemma GrowsOn(parents: seq<nat>, f: nat, w0: Answers, n0: Names, w1: Answers, n1: Names, w2: Answers, n2: Names)
    requires Grows(parents, w0, n0, w1, n1) && Grows(parents + [f], w1, n1, w2, n2)
    ensures Grows(parents, w0, n0, w2, n2)
    ensures (f in w1 ==> w1[f] == Unbounded) ==> (f in w2 ==> w2[f] == Unbounded)
    ensures f in n1 ==> f in n2 && n2[f] == n1[f]
  {
    assert f in parents + [f] && forall h :: h in parents ==> h in parents + [f];
  }

  lemma AnswerAdded(g: Graph, wcs: Answers, names: Names, parents: seq<nat>, f: nat, stack: Stack, w0: Answers,
                    n0: Names)
    requires f < |g| && f in names && Correct(g, f, stack) && (stack.Bounded? ==> Collected(g, f, names[f]))
    requires Sound(g, wcs, names, parents) || Sound(g, wcs, names, parents + [f])
    requires Grows(parents, w0, n0, wcs, names) && f !in w0 && (f in parents ==> stack == Unbounded)
    ensures Sound(g, wcs[f := stack], names, parents) && Grows(parents, w0, n0, wcs[f := stack], names)
  {
    hide Correct, Collected;
    assert forall i :: 0 <= i < |parents| ==> (parents + [f])[i] == parents[i];
    var after := wcs[f := stack];
    forall h | h in after ensures Known(g, after, names, h) {
      if h != f {
        assert Known(g, wcs, names, h);
      }
    }
  }

  lemma NamesAdded(g: Graph, wcs: Answers, names: Names, parents: seq<nat>, f: nat, more: set<string>, w0: Answers,
                   n0: Names)
    requires Sound(g, wcs, names, parents + [f]) && f in names && (f in wcs ==> wcs[f] == Unbounded)
    requires Grows(parents, w0, n0, wcs, names) && f !in w0 && f !in parents
    ensures Sound(g, wcs, names[f := names[f] + more], parents + [f])
    ensures Grows(parents, w0, n0, wcs, names[f := names[f] + more])
  {
    hide Correct, Collected;
    forall h | h in wcs ensures Known(g, wcs, names[f := names[f] + more], h) {
      assert Known(g, wcs, names, h);
    }
  }

  lemma Begun(g: Graph, wcs: Answers, names: Names, parents: seq<nat>, f: nat)
    requires Sound(g, wcs, names, parents) && f !in parents && f !in wcs && f < |g|
    ensures Sound(g, wcs, names, parents + [f]) && f in names && names[f] == g[f].unresolved
  {
  }

  lemma AnswerIs(g: Graph, wcs: Answers, names: Names, parents: seq<nat>, f: nat)
    requires Sound(g, wcs, names, parents) && f in wcs
    ensures Correct(g, f, wcs[f]) && f in names && (wcs[f].Bounded? ==> Collected(g, f, names[f]))
  {
    assert Known(g, wcs, names, f);
  }

  // Where calc_wcs stands for f after its first k callees, all of them bounded; w0 and n0 are what it began with.
  ghost predicate Progress(g: Graph, f: nat, k: nat, max: nat, wcs: Answers, names: Names, parents: seq<nat>,
    w0: Answers, n0: Names)
    requires f < |g| && k <= |g[f].calls|
  {
    && Sound(g, wcs, names, parents + [f]) && Grows(parents, w0, n0, wcs, names)
    && f !in w0 && f !in parents && (f in wcs ==> wcs[f] == Unbounded)
    && LargestCallee(g, g[f].calls[..k], max) && (forall i :: 0 <= i < k ==> !Recurses(g, g[f].calls[i]))
    && f in names && CollectedSoFar(g, g[f].unresolved, g[f].calls[..k], names[f])
  }

  lemma ProgressStarts(g: Graph, f: nat, wcs: Answers, names: Names, parents: seq<nat>)
    requires Sound(g, wcs, names, parents) && f !in parents && f !in wcs && f < |g|
    ensures Progress(g, f, 0, 0, wcs, names, parents, wcs, names)
  {
    Begun(g, wcs, names, parents, f);
    NothingYet(g, f);
    GrowsNot(parents, wcs, names);
  }

  // One callee has been answered, with w2 and n2 the state after that.
  lemma ProgressGrows(g: Graph, f: nat, k: nat, max: nat, w1: Answers, n1: Names, parents: seq<nat>, w0: Answers,
                      n0: Names, w2: Answers, n2: Names)
    requires f < |g| && k < |g[f].calls| && Progress(g, f, k, max, w1, n1, parents, w0, n0)
    requires Sound(g, w2, n2, parents + [f]) && Grows(parents + [f], w1, n1, w2, n2) && g[f].calls[k] in w2
    ensures Progress(g, f, k, max, w2, n2, parents, w0, n0) && Correct(g, g[f].calls[k], w2[g[f].calls[k]])
    ensures g[f].calls[k] in n2 && (w2[g[f].calls[k]].Bounded? ==> Collected(g, g[f].calls[k], n2[g[f].calls[k]]))
  {
    GrowsOn(parents, f, w0, n0, w1, n1, w2, n2);
    AnswerIs(g, w2, n2, parents + [f], g[f].calls[k]);
  }

  lemma ProgressEnds(g: Graph, f: nat, k: nat, max: nat, wcs: Answers, names: Names, parents: seq<nat>, w0: Answers,
                     n0: Names, stack: Stack)
    requires WellFormed(g) && f < |g| && k <= |g[f].calls| && Progress(g, f, k, max, wcs, names, parents, w0, n0)
    requires stack == Unbounded ==> exists c :: c in g[f].calls && Correct(g, c, Unbounded)
    requires stack.Bounded? ==> k == |g[f].calls| && stack.bytes == max + g[f].localStack && !g[f].hasPtrCall
    ensures Sound(g, wcs[f := stack], names, parents) && Grows(parents, w0, n0, wcs[f := stack], names)
  {
    if stack.Bounded? {
      assert g[f].calls[..k] == g[f].calls;
      FunctionDone(g, f, max, names[f]);
    } else {
      var c :| c in g[f].calls && Correct(g, c, Unbounded);
      CalleeRecurses(g, f, c);
    }
    hide Sound, Recurses, Largest, Grows, Collected;
    AnswerAdded(g, wcs, names, parents, f, stack, w0, n0);
  }

  lemma ProgressGoesOn(g: Graph, f: nat, k: nat, max: nat, wcs: Answers, names: Names, parents: seq<nat>, w0: Answers,
                       n0: Names, bytes: nat, more: set<string>)
    requires f < |g| && k < |g[f].calls| && Progress(g, f, k, max, wcs, names, parents, w0, n0)
    requires Correct(g, g[f].calls[k], Bounded(bytes)) && Collected(g, g[f].calls[k], more)
    ensures Progress(g, f, k + 1, if bytes > max then bytes else max, wcs, names[f := names[f] + more], parents, w0, n0)
  {
    hide Sound, Recurses, Largest, Grows, Collected, LargestCallee, CollectedSoFar;
    LargestStep(g, g[f].calls, k, max, bytes);
    CollectedStep(g, g[f].unresolved, g[f].calls, k, names[f], more);
    NamesAdded(g, wcs, names, parents, f, more, w0, n0);
  }

  lemma UnboundedAdded(g: Graph, wcs: Answers, names: Names, parents: seq<nat>, f: nat)
    requires f < |g| && Sound(g, wcs, names, parents) && f !in wcs
    requires g[f].hasPtrCall || (f in parents && Chain(g, parents + [f]))
    ensures Sound(g, wcs[f := Unbounded], names, parents) && Grows(parents, wcs, names, wcs[f := Unbounded], names)
  {
    if g[f].hasPtrCall {
      PointerCallRecurses(g, f);
    } else {
      ParentRecurses(g, parents, f);
    }
    GrowsNot(parents, wcs, names);
    AnswerAdded(g, wcs, names, parents, f, Unbounded, wcs, names);
  }

  lemma ProgressSound(g: Graph, f: nat, k: nat, max: nat, wcs: Answers, names: Names, parents: seq<nat>, w0: Answers,
                      n0: Names)
    requires f < |g| && k < |g[f].calls| && Progress(g, f, k, max, wcs, names, parents, w0, n0)
    ensures Sound(g, wcs, names, parents + [f]) && g[f].calls[k] in g[f].calls && f in names
  {
  }

  // The parents are distinct, so the search is never deeper than there are functions.
  lemma ParentsFit(g: Graph, wcs: Answers, names: Names, parents: seq<nat>, f: nat)
    requires Chain(g, parents + [f]) && Sound(g, wcs, names, parents) && f !in parents
    ensures |parents| < |g|
  {
    ParentsBelow(g, parents, f);
    Pigeonhole(parents + [f], |g|);
  }

  lemma ChainAlone(g: Graph, f: nat)
    requires f < |g|
    ensures Chain(g, [f])
  {
  }

  lemma GrowsKeeps(parents: seq<nat>, w: Answers, n: Names, wcs: Answers, names: Names)
    requires Grows(parents, w, n, wcs, names)
    ensures forall f :: f in w ==> f in wcs
  {
  }

  lemma SoundKnows(g: Graph, wcs: Answers, names: Names, parents: seq<nat>)
    requires Sound(g, wcs, names, parents)
    ensures forall f :: f in wcs ==> Known(g, wcs, names, f)
  {
  }

  class Analysis {
    const g: Graph
    var wcs: Answers
    var names: Names
    var parents: seq<nat>

    // The state after resolve_all_calls: only manual entries have an answer.
    constructor (g: Graph)
      requires WellFormed(g)
      ensures this.g == g && parents == [] && Sound(g, wcs, names, parents)
    {
      this.g := g;
      wcs := map f: nat | f < |g| && g[f].manual :: Bounded(g[f].localStack);
      names := map f: nat | f < |g| :: g[f].unresolved;
      parents := [];
      new;
      forall f | f in wcs ensures Known(g, wcs, names, f) {
        ManualCorrect(g, f);
      }
    }

    // calc_wcs
    method CalcWcs(f: nat)
      requires WellFormed(g) && Sound(g, wcs, names, parents) && Chain(g, parents + [f])
      modifies this
      ensures Sound(g, wcs, names, parents) && parents == old(parents) && f in wcs
      ensures Grows(parents, old(wcs), old(names), wcs, names)
      decreases |g| - |parents|
    {
      hide *;
      GrowsNot(parents, wcs, names);
      if f in wcs {
        return;
      }
      ParentsBelow(g, parents, f);
      if g[f].hasPtrCall {
        UnboundedAdded(g, wcs, names, parents, f);
        wcs := wcs[f := Unbounded];
        return;
      }
      if f in parents {
        UnboundedAdded(g, wcs, names, parents, f);
        wcs := wcs[f := Unbounded];
        return;
      }
      ParentsFit(g, wcs, names, parents, f);
      ProgressStarts(g, f, wcs, names, parents);
      var max: nat := 0;
      for k := 0 to |g[f].calls|
        invariant parents == old(parents) && Progress(g, f, k, max, wcs, names, parents, old(wcs), old(names))
      {
        var c := g[f].calls[k];
        ghost var w1, n1 := wcs, names;
        parents := parents + [f];
        ChainGrows(g, parents, c);
        ProgressSound(g, f, k, max, wcs, names, old(parents), old(wcs), old(names));
        CalcWcs(c);
        parents := parents[..|parents| - 1];
        ProgressGrows(g, f, k, max, w1, n1, parents, old(wcs), old(names), wcs, names);
        if wcs[c] == Unbounded {
          ProgressEnds(g, f, k, max, wcs, names, parents, old(wcs), old(names), Unbounded);
          wcs := wcs[f := Unbounded];
          return;
        }
        ProgressGoesOn(g, f, k, max, wcs, names, parents, old(wcs), old(names), wcs[c].bytes, names[c]);
        if wcs[c].bytes > max {
          max := wcs[c].bytes;
        }
        names := names[f := names[f] + names[c]];
      }
      ProgressEnds(g, f, |g[f].calls|, max, wcs, names, parents, old(wcs), old(names), Bounded(max + g[f].localStack));
      wcs := wcs[f := Bounded(max + g[f].localStack)];
    }

    // The two loops of calc_all_wcs, over the functions in whatever order the dictionaries have.
    method CalcAll(order: seq<nat>)
      requires WellFormed(g) && parents == [] && Sound(g, wcs, names, [])
      requires forall i :: 0 <= i < |order| ==> order[i] < |g|
      modifies this
      ensures forall f :: f in order ==> Known(g, wcs, names, f)
    {
      hide *;
      for k := 0 to |order|
        invariant parents == [] && Sound(g, wcs, names, [])
        invariant forall i :: 0 <= i < k ==> order[i] in wcs
      {
        var f, w, n := order[k], wcs, names;
        Alone(g, f);
        ChainAlone(g, f);
        assert parents + [f] == [f];
        CalcWcs(f);
        GrowsKeeps(parents, w, n, wcs, names);
      }
      SoundKnows(g, wcs, names, []);
    }
  }
}
