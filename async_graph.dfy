/**
 * The continuation graph of `aotdumpasync` (NativeAOTDumpAsync.cs): every object has a
 * sequence of continuation objects. `WalkContinuations` visits what is reachable from an
 * object's continuations with an explicit stack (the last element is the top) and a set of
 * objects already seen; `CalculateTopLevelRecords` unmarks every candidate some walk reaches.
 */
module AsyncGraph {
  import opened HeapModel

  /** The continuations of each object, and a finite set holding all of them. */
  datatype Graph = Graph(succ: Address -> seq<Address>, nodes: set<Address>)

  ghost predicate Closed(g: Graph)
  {
    forall a, c :: c in g.succ(a) ==> c in g.nodes
  }

  /** A stack entry, and a callback invocation: an object and its depth. */
  datatype Visit = Visit(obj: Address, depth: nat)

  function Objs(vs: seq<Visit>): set<Address>
  {
    set v | v in vs :: v.obj
  }

  function Elems(cs: seq<Address>): set<Address>
  {
    set c | c in cs
  }

  ghost predicate OnNodes(g: Graph, stack: seq<Visit>)
  {
    forall i :: 0 <= i < |stack| ==> stack[i].obj in g.nodes
  }

  /** `continuations.ForEach(c => stack.Push((depth, c)))`: the last continuation ends on top. */
  function Push(stack: seq<Visit>, cs: seq<Address>, depth: nat): seq<Visit>
  {
    stack + seq(|cs|, i requires 0 <= i < |cs| => Visit(cs[i], depth))
  }

  lemma PushFacts(stack: seq<Visit>, cs: seq<Address>, depth: nat)
    ensures |Push(stack, cs, depth)| == |stack| + |cs|
    ensures Push(stack, cs, depth)[..|stack|] == stack
    ensures forall i :: 0 <= i < |cs| ==> Push(stack, cs, depth)[|stack| + i] == Visit(cs[i], depth)
    ensures Objs(Push(stack, cs, depth)) == Objs(stack) + Elems(cs)
  {
    var r := Push(stack, cs, depth);
    forall c | c in Objs(r) ensures c in Objs(stack) + Elems(cs) {
      var i :| 0 <= i < |r| && r[i].obj == c;
      if i >= |stack| {
        assert cs[i - |stack|] == c;
      }
    }
    forall c | c in Objs(stack) + Elems(cs) ensures c in Objs(r) {
      if c in Objs(stack) {
        var i :| 0 <= i < |stack| && stack[i].obj == c;
        assert r[i].obj == c;
      } else {
        var i :| 0 <= i < |cs| && cs[i] == c;
        assert r[|stack| + i].obj == c;
      }
    }
  }

  lemma PopFacts(stack: seq<Visit>)
    requires stack != []
    ensures Objs(stack) == Objs(stack[..|stack| - 1]) + {stack[|stack| - 1].obj}
  {
    var rest := stack[..|stack| - 1];
    forall c | c in Objs(stack) ensures c in Objs(rest) + {stack[|stack| - 1].obj} {
      var i :| 0 <= i < |stack| && stack[i].obj == c;
      if i < |rest| {
        assert rest[i].obj == c;
      }
    }
    forall c | c in Objs(rest) ensures c in Objs(stack) {
      var i :| 0 <= i < |rest| && rest[i].obj == c;
      assert stack[i].obj == c;
    }
  }

  lemma PushOnNodes(g: Graph, stack: seq<Visit>, x: Address, depth: nat)
    requires Closed(g) && OnNodes(g, stack)
    ensures OnNodes(g, Push(stack, g.succ(x), depth))
  {
    PushFacts(stack, g.succ(x), depth);
    var r := Push(stack, g.succ(x), depth);
    forall i | 0 <= i < |r| ensures r[i].obj in g.nodes {
      if i >= |stack| {
        assert r[i].obj == g.succ(x)[i - |stack|];
      } else {
        assert r[i] == stack[i];
      }
    }
  }

  /** The stack after popping the top and pushing its continuations one level deeper. */
  function Next(g: Graph, stack: seq<Visit>): seq<Visit>
    requires stack != []
  {
    Push(stack[..|stack| - 1], g.succ(stack[|stack| - 1].obj), stack[|stack| - 1].depth + 1)
  }

  /**
   * The callback invocations of the loop of `WalkContinuations` from a given stack and seen
   * set: pop the top; skip it if seen; otherwise mark it seen, push its continuations one
   * level deeper, and call back on it.
   */
  function WalkFrom(g: Graph, stack: seq<Visit>, seen: set<Address>): seq<Visit>
    requires Closed(g) && OnNodes(g, stack)
    decreases g.nodes - seen, |stack|
  {
    if stack == [] then []
    else
      var top := stack[|stack| - 1];
      if top.obj in seen then WalkFrom(g, stack[..|stack| - 1], seen)
      else
        PushOnNodes(g, stack[..|stack| - 1], top.obj, top.depth + 1);
        [top] + WalkFrom(g, Next(g, stack), seen + {top.obj})
  }

  /** The two cases of one iteration. */
  lemma WalkFromCases(g: Graph, stack: seq<Visit>, seen: set<Address>)
    requires Closed(g) && OnNodes(g, stack) && stack != []
    ensures OnNodes(g, stack[..|stack| - 1]) && OnNodes(g, Next(g, stack))
    ensures stack[|stack| - 1].obj in seen ==>
      WalkFrom(g, stack, seen) == WalkFrom(g, stack[..|stack| - 1], seen)
    ensures stack[|stack| - 1].obj !in seen ==>
      WalkFrom(g, stack, seen) == [stack[|stack| - 1]] + WalkFrom(g, Next(g, stack), seen + {stack[|stack| - 1].obj})
  {
    var n := |stack| - 1;
    PushOnNodes(g, stack[..n], stack[n].obj, stack[n].depth + 1);
  }

  /** The two cases of one iteration, and the facts about the stacks they continue with. */
  lemma WalkFromUnfold(g: Graph, stack: seq<Visit>, seen: set<Address>)
    requires Closed(g) && OnNodes(g, stack) && stack != []
    ensures OnNodes(g, stack[..|stack| - 1]) && OnNodes(g, Next(g, stack))
    ensures stack[|stack| - 1].obj in seen ==>
      WalkFrom(g, stack, seen) == WalkFrom(g, stack[..|stack| - 1], seen)
    ensures stack[|stack| - 1].obj !in seen ==>
      WalkFrom(g, stack, seen) == [stack[|stack| - 1]] + WalkFrom(g, Next(g, stack), seen + {stack[|stack| - 1].obj})
    ensures Objs(stack) == Objs(stack[..|stack| - 1]) + {stack[|stack| - 1].obj}
    ensures |Next(g, stack)| >= |stack| - 1 && Next(g, stack)[..|stack| - 1] == stack[..|stack| - 1]
    ensures Objs(Next(g, stack)) == Objs(stack[..|stack| - 1]) + Elems(g.succ(stack[|stack| - 1].obj))
  {
    WalkFromCases(g, stack, seen);
    NextFacts(g, stack);
    PopFacts(stack);
  }

  /** One iteration of the loop of `WalkContinuations`, for callbacks `visits` made so far
      towards the walk `w`. */
  lemma WalkLoopStep(g: Graph, stack: seq<Visit>, seen: set<Address>, visits: seq<Visit>, w: seq<Visit>)
    requires Closed(g) && OnNodes(g, stack) && stack != []
    requires visits + WalkFrom(g, stack, seen) == w
    ensures stack[|stack| - 1].obj in g.nodes
    ensures OnNodes(g, stack[..|stack| - 1]) && OnNodes(g, Next(g, stack))
    ensures stack[|stack| - 1].obj in seen ==> visits + WalkFrom(g, stack[..|stack| - 1], seen) == w
    ensures stack[|stack| - 1].obj !in seen ==>
      (visits + [stack[|stack| - 1]]) + WalkFrom(g, Next(g, stack), seen + {stack[|stack| - 1].obj}) == w
  {
    var top := stack[|stack| - 1];
    WalkFromCases(g, stack, seen);
    if top.obj !in seen {
      var tail := WalkFrom(g, Next(g, stack), seen + {top.obj});
      assert (visits + [top]) + tail == visits + ([top] + tail);
    }
  }

  lemma NextFacts(g: Graph, stack: seq<Visit>)
    requires stack != []
    ensures |Next(g, stack)| >= |stack| - 1 && Next(g, stack)[..|stack| - 1] == stack[..|stack| - 1]
    ensures Objs(Next(g, stack)) == Objs(stack[..|stack| - 1]) + Elems(g.succ(stack[|stack| - 1].obj))
  {
    var n := |stack| - 1;
    PushFacts(stack[..n], g.succ(stack[n].obj), stack[n].depth + 1);
  }

  /** Entry `j` pushed by an iteration: the `j`-th continuation of the popped object. */
  lemma NextEntry(g: Graph, stack: seq<Visit>, j: nat)
    requires stack != [] && |stack| - 1 <= j < |Next(g, stack)|
    ensures var n := |stack| - 1;
      j - n < |g.succ(stack[n].obj)|
      && Next(g, stack)[j] == Visit(g.succ(stack[n].obj)[j - n], stack[n].depth + 1)
  {
    var n := |stack| - 1;
    PushFacts(stack[..n], g.succ(stack[n].obj), stack[n].depth + 1);
  }

  /** The stack `WalkContinuations` starts with. */
  function Start(g: Graph, root: Address): seq<Visit>
  {
    Push([], g.succ(root), 1)
  }

  lemma StartFacts(g: Graph, root: Address)
    requires Closed(g)
    ensures OnNodes(g, Start(g, root))
    ensures |Start(g, root)| == |g.succ(root)|
    ensures forall i :: 0 <= i < |g.succ(root)| ==> Start(g, root)[i] == Visit(g.succ(root)[i], 1)
  {
    PushOnNodes(g, [], root, 1);
    PushFacts([], g.succ(root), 1);
  }

  /** `WalkContinuations(root, callback)`: the root's continuations go on the stack at depth 1;
      the root itself is not marked as seen. */
  function Walk(g: Graph, root: Address): seq<Visit>
    requires Closed(g)
  {
    StartFacts(g, root);
    WalkFrom(g, Start(g, root), {})
  }

  /** Each object is called back at most once, never one already seen, and only objects of
      the graph. */
  ghost predicate FreshAndDistinct(g: Graph, w: seq<Visit>, seen: set<Address>)
  {
    && (forall i :: 0 <= i < |w| ==> w[i].obj !in seen && w[i].obj in g.nodes)
    && (forall i, j :: 0 <= i < j < |w| ==> w[i].obj != w[j].obj)
  }

  lemma {:induction false} WalkFromDistinct(g: Graph, stack: seq<Visit>, seen: set<Address>)
    requires Closed(g) && OnNodes(g, stack)
    ensures FreshAndDistinct(g, WalkFrom(g, stack, seen), seen)
    decreases g.nodes - seen, |stack|
  {
    if stack != [] {
      var top := stack[|stack| - 1];
      WalkFromUnfold(g, stack, seen);
      if top.obj in seen {
        WalkFromDistinct(g, stack[..|stack| - 1], seen);
      } else {
        WalkFromDistinct(g, Next(g, stack), seen + {top.obj});
      }
    }
  }

  /** The walk from a root calls back each object at most once, cycles included. */
  lemma WalkDistinct(g: Graph, root: Address)
    requires Closed(g)
    ensures forall i, j :: 0 <= i < j < |Walk(g, root)| ==> Walk(g, root)[i].obj != Walk(g, root)[j].obj
  {
    StartFacts(g, root);
    WalkFromDistinct(g, Start(g, root), {});
  }

  /** Every continuation of a member of `s` is in `s`. */
  ghost predicate ClosedSet(g: Graph, s: set<Address>)
  {
    forall x, c :: x in s && c in g.succ(x) ==> c in s
  }

  /** Every continuation of a seen object is seen or on the stack. */
  ghost predicate Covered(g: Graph, stack: seq<Visit>, seen: set<Address>)
  {
    forall x, c :: x in seen && c in g.succ(x) ==> c in seen || c in Objs(stack)
  }

  /**
   * Completeness of the loop: if every continuation of a seen object is seen or on the stack,
   * then afterwards the seen and the visited objects together are closed under continuations
   * and hold everything that was on the stack.
   */
  lemma {:induction false} WalkFromComplete(g: Graph, stack: seq<Visit>, seen: set<Address>)
    requires Closed(g) && OnNodes(g, stack) && Covered(g, stack, seen)
    ensures ClosedSet(g, seen + Objs(WalkFrom(g, stack, seen)))
    ensures Objs(stack) <= seen + Objs(WalkFrom(g, stack, seen))
    decreases g.nodes - seen, |stack|
  {
    if stack == [] {
      return;
    }
    var top, rest := stack[|stack| - 1], stack[..|stack| - 1];
    WalkFromUnfold(g, stack, seen);
    if top.obj in seen {
      WalkFromComplete(g, rest, seen);
    } else {
      CoveredStep(g, stack, seen, Next(g, stack));
      var tail := WalkFrom(g, Next(g, stack), seen + {top.obj});
      WalkFromComplete(g, Next(g, stack), seen + {top.obj});
      ObjsCons(top, tail);
      assert seen + Objs(WalkFrom(g, stack, seen)) == (seen + {top.obj}) + Objs(tail);
    }
  }

  /** Popping an unseen object, marking it and pushing its continuations keeps `Covered`. */
  lemma CoveredStep(g: Graph, stack: seq<Visit>, seen: set<Address>, next: seq<Visit>)
    requires stack != [] && Covered(g, stack, seen)
    requires Objs(stack) == Objs(stack[..|stack| - 1]) + {stack[|stack| - 1].obj}
    requires Objs(next) == Objs(stack[..|stack| - 1]) + Elems(g.succ(stack[|stack| - 1].obj))
    ensures Covered(g, next, seen + {stack[|stack| - 1].obj})
  {
    var x := stack[|stack| - 1].obj;
    forall y, c | y in seen + {x} && c in g.succ(y) ensures c in seen + {x} || c in Objs(next) {
      if y != x {
        assert c in seen || c in Objs(stack);
      }
    }
  }

  lemma ObjsCons(v: Visit, vs: seq<Visit>)
    ensures Objs([v] + vs) == {v.obj} + Objs(vs)
  {
    var r := [v] + vs;
    forall c | c in Objs(r) ensures c in {v.obj} + Objs(vs) {
      var i :| 0 <= i < |r| && r[i].obj == c;
      if i > 0 {
        assert vs[i - 1].obj == c;
      }
    }
    forall c | c in Objs(vs) ensures c in Objs(r) {
      var i :| 0 <= i < |vs| && vs[i].obj == c;
      assert r[i + 1].obj == c;
    }
  }

  /** `p` is a chain of continuations. */
  ghost predicate IsPath(g: Graph, p: seq<Address>)
  {
    |p| >= 1 && forall i :: 0 <= i < |p| - 1 ==> p[i + 1] in g.succ(p[i])
  }

  /** `p` is a chain of continuations from `a` to `b`. */
  ghost predicate PathBetween(g: Graph, p: seq<Address>, a: Address, b: Address)
  {
    IsPath(g, p) && p[0] == a && p[|p| - 1] == b
  }

  /** `b` is `a` or reachable from it through continuations. */
  ghost predicate ReachesFrom(g: Graph, a: Address, b: Address)
  {
    exists p :: PathBetween(g, p, a, b)
  }

  /** `b` is reachable from `root` in one step or more. */
  ghost predicate Reaches(g: Graph, root: Address, b: Address)
  {
    exists c :: c in g.succ(root) && ReachesFrom(g, c, b)
  }

  lemma PathPrepend(g: Graph, x: Address, p: seq<Address>, b: Address)
    requires |p| >= 1 && PathBetween(g, p, p[0], b) && p[0] in g.succ(x)
    ensures PathBetween(g, [x] + p, x, b)
  {
    var q := [x] + p;
    forall i | 0 <= i < |q| - 1 ensures q[i + 1] in g.succ(q[i]) {
      if i > 0 {
        assert q[i] == p[i - 1] && q[i + 1] == p[i];
      }
    }
  }

  /** Soundness of the loop: callback `k` is for an object reachable from the object of
      stack entry `i`, through the chain `p`. */
  lemma {:induction false} WalkFromSound(g: Graph, stack: seq<Visit>, seen: set<Address>, k: nat)
    returns (i: nat, p: seq<Address>)
    requires Closed(g) && OnNodes(g, stack)
    requires k < |WalkFrom(g, stack, seen)|
    ensures i < |stack| && PathBetween(g, p, stack[i].obj, WalkFrom(g, stack, seen)[k].obj)
    decreases g.nodes - seen, |stack|
  {
    var n := |stack| - 1;
    var top, rest := stack[n], stack[..n];
    WalkFromUnfold(g, stack, seen);
    if top.obj in seen {
      i, p := WalkFromSound(g, rest, seen, k);
      assert rest[i] == stack[i];
    } else if k == 0 {
      i, p := n, [top.obj];
    } else {
      var next := Next(g, stack);
      var j, q := WalkFromSound(g, next, seen + {top.obj}, k - 1);
      if j < n {
        assert next[..n][j] == stack[..n][j];
        i, p := j, q;
      } else {
        NextEntry(g, stack, j);
        PathPrepend(g, top.obj, q, WalkFrom(g, stack, seen)[k].obj);
        i, p := n, [top.obj] + q;
      }
    }
  }

  /** A set closed under continuations holds the end of every path that starts in it. */
  lemma {:induction false} ClosedHoldsPath(g: Graph, s: set<Address>, p: seq<Address>)
    requires ClosedSet(g, s)
    requires IsPath(g, p) && p[0] in s
    ensures p[|p| - 1] in s
  {
    if |p| > 1 {
      var q := p[..|p| - 1];
      assert IsPath(g, q) by {
        forall i | 0 <= i < |q| - 1 ensures q[i + 1] in g.succ(q[i]) {
          assert q[i] == p[i] && q[i + 1] == p[i + 1];
        }
      }
      ClosedHoldsPath(g, s, q);
      assert p[|p| - 1] in g.succ(p[|p| - 2]);
    }
  }

  /** The walk from `root` calls back exactly the objects reachable from `root` through one or
      more continuations. */
  lemma WalkReaches(g: Graph, root: Address, b: Address)
    requires Closed(g)
    ensures b in Objs(Walk(g, root)) <==> Reaches(g, root, b)
  {
    StartFacts(g, root);
    var stack := Start(g, root);
    var w := Walk(g, root);
    if b in Objs(w) {
      var k :| 0 <= k < |w| && w[k].obj == b;
      var i, p := WalkFromSound(g, stack, {}, k);
      assert g.succ(root)[i] in g.succ(root);
    }
    if Reaches(g, root, b) {
      var c :| c in g.succ(root) && ReachesFrom(g, c, b);
      var p :| PathBetween(g, p, c, b);
      assert Covered(g, stack, {});
      WalkFromComplete(g, stack, {});
      var i :| 0 <= i < |g.succ(root)| && g.succ(root)[i] == c;
      assert stack[i] in stack;
      ClosedHoldsPath(g, {} + Objs(w), p);
    }
  }

  /** Callback `k` is for a continuation of the object of callback `i`, one level deeper. */
  ghost predicate ChildOf(g: Graph, w: seq<Visit>, i: nat, k: nat)
    requires i < |w| && k < |w|
  {
    w[k].obj in g.succ(w[i].obj) && w[k].depth == w[i].depth + 1
  }

  /** Where the depth of each callback comes from: an entry that was on the stack, or a
      parent called back earlier with one less depth. `i` is that parent, or -1. */
  lemma {:induction false} WalkFromDepth(g: Graph, stack: seq<Visit>, seen: set<Address>, k: nat) returns (i: int)
    requires Closed(g) && OnNodes(g, stack)
    requires k < |WalkFrom(g, stack, seen)|
    ensures i < 0 ==> WalkFrom(g, stack, seen)[k] in stack
    ensures 0 <= i ==> i < k && ChildOf(g, WalkFrom(g, stack, seen), i, k)
    decreases g.nodes - seen, |stack|
  {
    var n := |stack| - 1;
    WalkFromCases(g, stack, seen);
    if stack[n].obj in seen {
      var j := WalkFromDepth(g, stack[..n], seen, k);
      i := DepthSkipped(g, stack, seen, k, j);
    } else if k == 0 {
      i := -1;
    } else {
      var j := WalkFromDepth(g, Next(g, stack), seen + {stack[n].obj}, k - 1);
      i := DepthCalled(g, stack, seen, k, j);
    }
  }

  /** The step of `WalkFromDepth` when the top was already seen and is skipped. */
  lemma DepthSkipped(g: Graph, stack: seq<Visit>, seen: set<Address>, k: nat, j: int) returns (i: int)
    requires Closed(g) && OnNodes(g, stack) && stack != []
    requires stack[|stack| - 1].obj in seen
    requires OnNodes(g, stack[..|stack| - 1])
    requires WalkFrom(g, stack, seen) == WalkFrom(g, stack[..|stack| - 1], seen)
    requires k < |WalkFrom(g, stack, seen)|
    requires j < 0 ==> WalkFrom(g, stack[..|stack| - 1], seen)[k] in stack[..|stack| - 1]
    requires 0 <= j ==> j < k && ChildOf(g, WalkFrom(g, stack[..|stack| - 1], seen), j, k)
    ensures i < 0 ==> WalkFrom(g, stack, seen)[k] in stack
    ensures 0 <= i ==> i < k && ChildOf(g, WalkFrom(g, stack, seen), i, k)
  {
    i := j;
    if j < 0 {
      var rest := stack[..|stack| - 1];
      var m :| 0 <= m < |rest| && rest[m] == WalkFrom(g, rest, seen)[k];
      assert stack[m] == rest[m];
    }
  }

  /** The step of `WalkFromDepth` when the top is called back first and its continuations are
      pushed: callback `k` is callback `k - 1` of the rest of the walk. */
  lemma DepthCalled(g: Graph, stack: seq<Visit>, seen: set<Address>, k: nat, j: int) returns (i: int)
    requires Closed(g) && OnNodes(g, stack) && stack != [] && 0 < k
    requires OnNodes(g, Next(g, stack))
    requires WalkFrom(g, stack, seen)
          == [stack[|stack| - 1]] + WalkFrom(g, Next(g, stack), seen + {stack[|stack| - 1].obj})
    requires k < |WalkFrom(g, stack, seen)|
    requires j < 0 ==> WalkFrom(g, Next(g, stack), seen + {stack[|stack| - 1].obj})[k - 1] in Next(g, stack)
    requires 0 <= j ==>
      j < k - 1 && ChildOf(g, WalkFrom(g, Next(g, stack), seen + {stack[|stack| - 1].obj}), j, k - 1)
    ensures i < 0 ==> WalkFrom(g, stack, seen)[k] in stack
    ensures 0 <= i ==> i < k && ChildOf(g, WalkFrom(g, stack, seen), i, k)
  {
    var n := |stack| - 1;
    NextFacts(g, stack);
    var next := Next(g, stack);
    var tail := WalkFrom(g, next, seen + {stack[n].obj});
    var w := WalkFrom(g, stack, seen);
    assert w[k] == tail[k - 1];
    if j >= 0 {
      i := j + 1;
      assert w[i] == tail[j];
    } else {
      var m :| 0 <= m < |next| && next[m] == tail[k - 1];
      if m < n {
        assert next[..n][m] == stack[..n][m];
        i := -1;
      } else {
        NextEntry(g, stack, m);
        i := 0;
      }
    }
  }

  /** A callback at depth 1 is for a continuation of the root; any other is for a
      continuation of an object called back earlier, one level shallower. */
  lemma WalkDepth(g: Graph, root: Address, k: nat)
    requires Closed(g) && k < |Walk(g, root)|
    ensures || (Walk(g, root)[k].depth == 1 && Walk(g, root)[k].obj in g.succ(root))
            || (exists j :: 0 <= j < k && ChildOf(g, Walk(g, root), j, k))
  {
    StartFacts(g, root);
    var stack := Start(g, root);
    var i := WalkFromDepth(g, stack, {}, k);
    if i < 0 {
      var n :| 0 <= n < |stack| && stack[n] == Walk(g, root)[k];
      assert g.succ(root)[n] in g.succ(root);
    }
  }

  /** The objects reached by the walks from each of `roots`. */
  ghost function ReachedBy(g: Graph, roots: seq<Address>): set<Address>
    requires Closed(g)
  {
    if roots == [] then {} else ReachedBy(g, roots[..|roots| - 1]) + Objs(Walk(g, roots[|roots| - 1]))
  }

  /** Walking from one more root adds what that walk visits. */
  lemma ReachedBySnoc(g: Graph, roots: seq<Address>, i: nat)
    requires Closed(g) && i < |roots|
    ensures ReachedBy(g, roots[..i + 1]) == ReachedBy(g, roots[..i]) + Objs(Walk(g, roots[i]))
  {
    assert roots[..i + 1][..i] == roots[..i];
  }

  /** An object is reached by some walk exactly when some root reaches it. */
  lemma {:induction false} ReachedByIff(g: Graph, roots: seq<Address>, b: Address)
    requires Closed(g)
    ensures b in ReachedBy(g, roots) <==> exists r :: r in roots && Reaches(g, r, b)
  {
    if roots != [] {
      var n := |roots| - 1;
      ReachedByIff(g, roots[..n], b);
      WalkReaches(g, roots[n], b);
      if exists r :: r in roots && Reaches(g, r, b) {
        var r :| r in roots && Reaches(g, r, b);
        if r != roots[n] {
          var i :| 0 <= i < |roots| && roots[i] == r;
          assert roots[..n][i] == r;
        }
      }
    }
  }

  /** The candidates left top-level: those no candidate's walk reaches. */
  ghost function TopLevel(g: Graph, cands: seq<Address>): set<Address>
    requires Closed(g)
  {
    Elems(cands) - ReachedBy(g, cands)
  }

  /** The number of chains: one per candidate, less one per candidate some walk reaches. */
  ghost function Chains(g: Graph, cands: seq<Address>): int
    requires Closed(g)
  {
    |cands| - |Elems(cands) * ReachedBy(g, cands)|
  }

  /** Distinct candidates are as many as their set. */
  lemma {:induction false} ElemsDistinct(cs: seq<Address>)
    requires DistinctAddresses(cs)
    ensures |Elems(cs)| == |cs|
  {
    if cs != [] {
      var n := |cs| - 1;
      ElemsDistinct(cs[..n]);
      assert cs == cs[..n] + [cs[n]];
      assert Elems(cs) == Elems(cs[..n]) + {cs[n]};
      assert cs[n] !in Elems(cs[..n]);
    }
  }

  /** With distinct candidates, the number of chains is the number of top-level candidates. */
  lemma ChainsCountTopLevel(g: Graph, cands: seq<Address>)
    requires Closed(g) && DistinctAddresses(cands)
    ensures Chains(g, cands) == |TopLevel(g, cands)|
  {
    ElemsDistinct(cands);
    var e, r := Elems(cands), ReachedBy(g, cands);
    assert e == (e - r) + (e * r);
    assert (e - r) * (e * r) == {};
  }

  /** An object with one continuation that leads back to it: A -> B -> A. */
  function CycleSucc(a: Address): seq<Address>
  {
    if a == 0xA0 then [0xB0] else if a == 0xB0 then [0xA0] else []
  }

  function CycleGraph(): Graph
  {
    Graph(CycleSucc, {0xA0, 0xB0})
  }

  lemma CycleClosed()
    ensures Closed(CycleGraph())
  {
  }

  /** B comes round again at depth 3 after both were seen: nothing more is called back. */
  lemma CycleLast()
    ensures Closed(CycleGraph()) && OnNodes(CycleGraph(), [Visit(0xB0, 3)])
    ensures WalkFrom(CycleGraph(), [Visit(0xB0, 3)], {0xB0, 0xA0}) == []
  {
    var g, s2 := CycleGraph(), [Visit(0xB0, 3)];
    CycleClosed();
    WalkFromUnfold(g, s2, {0xB0, 0xA0});
    assert s2[..0] == [];
  }

  /** A at depth 2, with B already seen: A is called back and pushes B at depth 3. */
  lemma CycleMiddle()
    ensures Closed(CycleGraph()) && OnNodes(CycleGraph(), [Visit(0xA0, 2)])
    ensures WalkFrom(CycleGraph(), [Visit(0xA0, 2)], {0xB0}) == [Visit(0xA0, 2)]
  {
    var g, s1 := CycleGraph(), [Visit(0xA0, 2)];
    CycleClosed();
    CycleLast();
    WalkFromUnfold(g, s1, {0xB0});
    assert Next(g, s1) == [Visit(0xB0, 3)] by { PushFacts([], g.succ(0xA0), 3); }
    assert {0xB0} + {0xA0} == {0xB0, 0xA0};
  }

  /** The root is not marked as seen: the walk from A calls back B at depth 1, then A itself
      at depth 2, and stops when B comes round again. */
  lemma CycleWalk()
    ensures Closed(CycleGraph())
    ensures Walk(CycleGraph(), 0xA0) == [Visit(0xB0, 1), Visit(0xA0, 2)]
  {
    var g := CycleGraph();
    CycleClosed();
    CycleMiddle();
    var s0 := [Visit(0xB0, 1)];
    assert Start(g, 0xA0) == s0 by { StartFacts(g, 0xA0); }
    WalkFromUnfold(g, s0, {});
    assert Next(g, s0) == [Visit(0xA0, 2)] by { PushFacts([], g.succ(0xB0), 2); }
    assert {} + {0xB0} == {0xB0};
  }

  /** A root with two continuations, B then C. */
  function FanSucc(a: Address): seq<Address>
  {
    if a == 0x10 then [0xB0, 0xC0] else []
  }

  function FanGraph(): Graph
  {
    Graph(FanSucc, {0xB0, 0xC0})
  }

  /** The continuations are pushed in order, so the last one is called back first. */
  lemma FanWalk()
    ensures Closed(FanGraph())
    ensures Walk(FanGraph(), 0x10) == [Visit(0xC0, 1), Visit(0xB0, 1)]
  {
    var g := FanGraph();
    assert Closed(g);
    var s0, s1 := [Visit(0xB0, 1), Visit(0xC0, 1)], [Visit(0xB0, 1)];
    assert Start(g, 0x10) == s0 by { StartFacts(g, 0x10); }
    assert OnNodes(g, s0) && OnNodes(g, s1);
    assert WalkFrom(g, s1, {0xC0}) == [Visit(0xB0, 1)] by {
      WalkFromUnfold(g, s1, {0xC0});
      assert Next(g, s1) == [] by { PushFacts([], g.succ(0xB0), 2); }
    }
    assert WalkFrom(g, s0, {}) == [Visit(0xC0, 1), Visit(0xB0, 1)] by {
      WalkFromUnfold(g, s0, {});
      assert Next(g, s0) == s1 by { PushFacts([Visit(0xB0, 1)], g.succ(0xC0), 2); }
      assert {} + {0xC0} == {0xC0};
    }
  }

  /** A chain A -> B -> C and an object D with no continuations. */
  function ChainSucc(a: Address): seq<Address>
  {
    if a == 0xA0 then [0xB0] else if a == 0xB0 then [0xC0] else []
  }

  function ChainGraph(): Graph
  {
    Graph(ChainSucc, {0xB0, 0xC0})
  }

  lemma ChainClosed()
    ensures Closed(ChainGraph())
  {
  }

  lemma ChainWalkA()
    ensures Closed(ChainGraph())
    ensures Walk(ChainGraph(), 0xA0) == [Visit(0xB0, 1), Visit(0xC0, 2)]
  {
    var g := ChainGraph();
    ChainClosed();
    StartFacts(g, 0xA0);
    var a0 := Start(g, 0xA0);
    assert a0 == [Visit(0xB0, 1)];
    WalkFromUnfold(g, a0, {});
    var a1 := Next(g, a0);
    assert a1 == [Visit(0xC0, 2)] by { PushFacts([], g.succ(0xB0), 2); }
    WalkFromUnfold(g, a1, {0xB0});
    assert Next(g, a1) == [] by { PushFacts([], g.succ(0xC0), 3); }
    assert {} + {a0[0].obj} == {0xB0};
    assert WalkFrom(g, a1, {0xB0}) == [Visit(0xC0, 2)];
    assert WalkFrom(g, a0, {}) == [Visit(0xB0, 1), Visit(0xC0, 2)];
  }

  lemma ChainWalkOthers()
    ensures Closed(ChainGraph())
    ensures Walk(ChainGraph(), 0xB0) == [Visit(0xC0, 1)]
    ensures Walk(ChainGraph(), 0xC0) == [] && Walk(ChainGraph(), 0xD0) == []
  {
    var g := ChainGraph();
    ChainClosed();
    StartFacts(g, 0xB0);
    var b0 := Start(g, 0xB0);
    assert b0 == [Visit(0xC0, 1)];
    WalkFromUnfold(g, b0, {});
    assert Next(g, b0) == [] by { PushFacts([], g.succ(0xC0), 2); }
    assert WalkFrom(g, b0, {}) == [Visit(0xC0, 1)];
    StartFacts(g, 0xC0);
    StartFacts(g, 0xD0);
  }

  /** With candidates A, B, C and D, the walks reach B and C: A and D stay top-level, in two
      chains. */
  lemma ChainReached()
    ensures Closed(ChainGraph())
    ensures ReachedBy(ChainGraph(), [0xA0, 0xB0, 0xC0, 0xD0]) == {0xB0, 0xC0}
  {
    var g, cands := ChainGraph(), [0xA0, 0xB0, 0xC0, 0xD0];
    ChainWalkA();
    ChainWalkOthers();
    assert Objs([Visit(0xB0, 1), Visit(0xC0, 2)]) == {0xB0, 0xC0};
    assert Objs([Visit(0xC0, 1)]) == {0xC0};
    assert Objs([]) == {};
    assert ReachedBy(g, [0xA0]) == {0xB0, 0xC0} by {
      assert [0xA0][..0] == [];
    }
    assert ReachedBy(g, [0xA0, 0xB0]) == {0xB0, 0xC0} by {
      assert [0xA0, 0xB0][..1] == [0xA0];
    }
    assert ReachedBy(g, [0xA0, 0xB0, 0xC0]) == {0xB0, 0xC0} by {
      assert [0xA0, 0xB0, 0xC0][..2] == [0xA0, 0xB0];
    }
    assert cands[..3] == [0xA0, 0xB0, 0xC0];
  }

  /** With candidates A, B, C and D, the walks reach B and C: A and D stay top-level, in two
      chains. */
  lemma ChainTopLevel(cands: seq<Address>)
    requires cands == [0xA0, 0xB0, 0xC0, 0xD0]
    ensures Closed(ChainGraph())
    ensures TopLevel(ChainGraph(), cands) == {0xA0, 0xD0}
    ensures Chains(ChainGraph(), cands) == 2
  {
    ChainReached();
    ChainSets(cands);
  }

  lemma ChainSets(cands: seq<Address>)
    requires cands == [0xA0, 0xB0, 0xC0, 0xD0]
    ensures Elems(cands) - {0xB0, 0xC0} == {0xA0, 0xD0}
    ensures |cands| - |Elems(cands) * {0xB0, 0xC0}| == 2
  {
    var all := Elems(cands);
    assert all == {0xA0, 0xB0, 0xC0, 0xD0} by {
      assert cands[0] in cands && cands[1] in cands && cands[2] in cands && cands[3] in cands;
    }
    assert all * {0xB0, 0xC0} == {0xB0} + {0xC0};
  }
}
