// What the cycle search answers over all orders in which roots and callees can come (onnx_lib/checker.cc): some order
// accepts exactly the acyclic graphs, and every order accepts exactly those that have no long call chain either.

module SearchOrders {
  import opened Basics
  import opened FunctionCycles

  lemma {:induction false} RunsKeepInvariant(g: CallGraph, moves: seq<Move>)
    requires RunOf(g, moves).Some?
    ensures RunOf(g, moves).value in States(g)
  {
    if moves == [] {
      StartIsReachable(g);
    } else {
      var n := |moves| - 1;
      RunsKeepInvariant(g, moves[..n]);
      MoveKeepsInvariant(g, RunOf(g, moves[..n]).value, moves[n]);
    }
  }

  lemma {:induction false} MoveKeepsInvariant(g: CallGraph, s: Snapshot, m: Move)
    requires s in States(g) && CanMove(g, s, m)
    ensures After(g, s, m) in States(g)
  {
    match m
    case Enter(f) =>
      if s.stack == [] {
        EnteringRoot(g, s, f);
      } else {
        SearchingAfterAdvance(g, s, f);
      }
      SearchingAfterPush(g, Approached(s, f), f);
    case Skip(f) =>
      SearchingAfterAdvance(g, s, f);
    case Leave =>
      SearchingAfterPop(g, s);
  }

  lemma {:induction false} ReachableIsSearching(g: CallGraph, s: Snapshot)
    requires Reachable(g, s)
    ensures s in States(g)
  {
    var moves :| RunOf(g, moves) == Some(s);
    RunsKeepInvariant(g, moves);
  }

  // ----- how runs end -----

  lemma {:induction false} AcceptanceIsAcyclic(g: CallGraph)
    requires CanAccept(g)
    ensures Acyclic(g)
  {
    var s :| Reachable(g, s) && Finished(g, s);
    ReachableIsSearching(g, s);
    assert s.path == [];
    forall f | f in g ensures f in s.order {
      assert StateOf(s.state, f) == InPath <==> f in s.path;
    }
    AllFinished(g, s.order);
  }

  // The search has come to its end in `s`: it accepts, or a candidate may come next that it fails at.
  ghost predicate Ended(g: CallGraph, s: Snapshot) {
    Finished(g, s) || exists f :: FailsAt(g, s, f)
  }

  ghost predicate EndsAfter(g: CallGraph, s: Snapshot, moves: seq<Move>) {
    RunFrom(g, s, moves).Some? && Ended(g, RunFrom(g, s, moves).value)
  }

  lemma {:induction false} SomeMove(g: CallGraph, s: Snapshot) returns (m: Move)
    requires s in States(g) && !Ended(g, s)
    ensures CanMove(g, s, m)
  {
    if s.stack == [] {
      var f :| f in g && StateOf(s.state, f) == Unvisited;
      m := if FailsAt(g, s, f) then Leave else Enter(f);
    } else if s.stack[|s.stack| - 1].rest == {} {
      SearchingAfterPop(g, s);
      m := Leave;
    } else {
      var c :| c in s.stack[|s.stack| - 1].rest;
      assert !FailsAt(g, s, c);
      m := if StateOf(s.state, c) == Done then Skip(c) else Enter(c);
    }
  }

  ghost predicate Closer(g: CallGraph, t: Snapshot, s: Snapshot) {
    Unseen(g, t) < Unseen(g, s) || (Unseen(g, t) == Unseen(g, s) && Work(t) < Work(s))
  }

  lemma {:induction false} MoveMakesProgress(g: CallGraph, s: Snapshot, m: Move)
    requires s in States(g) && CanMove(g, s, m)
    ensures Unseen(g, s) >= 0 && Closer(g, After(g, s, m), s)
  {
    UnseenIsNatural(g, s);
    match m
    case Enter(f) =>
    case Skip(f) =>
      SearchingAfterAdvance(g, s, f);
    case Leave =>
      SearchingAfterPop(g, s);
      SeenAfterPop(g, s);
  }

  lemma {:induction false} FirstMove(g: CallGraph, s: Snapshot, m: Move, moves: seq<Move>)
    requires CanMove(g, s, m)
    ensures RunFrom(g, s, [m] + moves) == RunFrom(g, After(g, s, m), moves)
  {
    var all := [m] + moves;
    if moves == [] {
      assert all[..0] == [] && RunFrom(g, s, []) == Some(s);
    } else {
      assert all[..|all| - 1] == [m] + moves[..|moves| - 1];
      FirstMove(g, s, m, moves[..|moves| - 1]);
    }
  }

  lemma {:induction false} EndsOneMoveEarlier(g: CallGraph, s: Snapshot, m: Move, moves: seq<Move>)
    requires CanMove(g, s, m) && EndsAfter(g, After(g, s, m), moves)
    ensures EndsAfter(g, s, [m] + moves)
  {
    FirstMove(g, s, m, moves);
  }

  lemma {:induction false} EndsAtOnce(g: CallGraph, s: Snapshot)
    requires Ended(g, s)
    ensures EndsAfter(g, s, [])
  {
  }

  // From any state of a run, further moves lead to an end.
  lemma {:induction false} EveryRunEnds(g: CallGraph, s: Snapshot) returns (moves: seq<Move>)
    requires s in States(g)
    ensures EndsAfter(g, s, moves)
    decreases Unseen(g, s), Work(s)
  {
    if Ended(g, s) {
      EndsAtOnce(g, s);
      moves := [];
    } else {
      var m := SomeMove(g, s);
      MoveKeepsInvariant(g, s, m);
      MoveMakesProgress(g, s, m);
      moves := EveryRunEnds(g, After(g, s, m));
      EndsOneMoveEarlier(g, s, m, moves);
      moves := [m] + moves;
    }
  }

  // The first `n` of an infinite list of moves.
  function Prefix(next: nat -> Move, n: nat): seq<Move> {
    seq(n, i requires 0 <= i => next(i))
  }

  function Later(next: nat -> Move): nat -> Move {
    (i: nat) => next(i + 1)
  }

  lemma {:induction false} PrefixSplits(next: nat -> Move, n: nat)
    ensures Prefix(next, n + 1) == [next(0)] + Prefix(Later(next), n)
  {
    var a, b := Prefix(next, n + 1), [next(0)] + Prefix(Later(next), n);
    forall i | 0 < i <= n ensures a[i] == b[i] {
      assert b[i] == Prefix(Later(next), n)[i - 1];
    }
  }

  // And no way of going on is endless: of any infinite list of moves, only finitely many can be made.
  lemma {:induction false} NoRunIsEndless(g: CallGraph, s: Snapshot, next: nat -> Move) returns (n: nat)
    requires s in States(g)
    ensures RunFrom(g, s, Prefix(next, n)).None?
    decreases Unseen(g, s), Work(s)
  {
    var m := next(0);
    if CanMove(g, s, m) {
      MoveKeepsInvariant(g, s, m);
      MoveMakesProgress(g, s, m);
      n := NoRunIsEndless(g, After(g, s, m), Later(next));
      FirstMove(g, s, m, Prefix(Later(next), n));
      PrefixSplits(next, n);
      n := n + 1;
    } else {
      n := 1;
      PrefixSplits(next, 0);
      assert Prefix(next, 1) == [m] && [m][..0] == [] && RunFrom(g, s, []) == Some(s);
    }
  }

  lemma {:induction false} CalleeOnPathClosesCycle(g: CallGraph, s: Snapshot, f: Func)
    requires s in States(g) && s.stack != [] && f in Candidates(g, s) && f in s.path
    ensures !Acyclic(g)
  {
    AdvancedIsSearching(g, s, f);
    var i :| 0 <= i < |s.path| && s.path[i] == f;
    PathClosesCycle(g, s.path, i);
  }

  lemma {:induction false} FullPathIsDeep(g: CallGraph, s: Snapshot, f: Func)
    requires s in States(g) && f in Candidates(g, s)
    requires StateOf(s.state, f) == Unvisited && |s.path| >= MAX_FUNCTION_CALL_DEPTH
    ensures IsDeepChain(g, s.path + [f])
  {
    AdvancedIsSearching(g, s, f);
    PushedIsSearching(g, Advanced(s, f), f);
  }

  lemma {:induction false} RejectionIsGenuine(g: CallGraph)
    requires CanReject(g)
    ensures !Acyclic(g) || exists w :: IsDeepChain(g, w)
  {
    var s, f :| Reachable(g, s) && FailsAt(g, s, f);
    ReachableIsSearching(g, s);
    if StateOf(s.state, f) == InPath {
      assert f in s.path;
      CalleeOnPathClosesCycle(g, s, f);
    } else {
      FullPathIsDeep(g, s, f);
    }
  }

  lemma {:induction false} DeepChainsHave101(g: CallGraph, w: seq<Func>)
    ensures IsDeepChain(g, w) <==> |w| == 101 && Distinct(w) && forall i | 0 <= i < 100 :: w[i + 1] in Callees(g, w[i])
  {
    if |w| == 101 && forall i | 0 <= i < 100 :: w[i + 1] in Callees(g, w[i]) {
      forall i ensures CallsNext(g, w, i) {
      }
    } else if IsDeepChain(g, w) {
      forall i | 0 <= i < 100 ensures w[i + 1] in Callees(g, w[i]) {
        assert CallsNext(g, w, i);
      }
    }
  }

  // ----- a long chain can be walked to its end -----

  // The search is `k` functions down the chain, and has finished nothing.
  ghost predicate WalksDown(g: CallGraph, w: seq<Func>, k: nat, s: Snapshot) {
    && 1 <= k <= |w| && s in States(g) && s.path == w[..k] && s.order == []
    && s.stack != [] && s.stack[|s.stack| - 1].rest == Callees(g, w[k - 1])
  }

  lemma {:induction false} StepDown(g: CallGraph, s: Snapshot, f: Func) returns (r: Snapshot)
    requires s in States(g) && s.order == [] && f in Candidates(g, s) && f !in s.path
    requires |s.path| < MAX_FUNCTION_CALL_DEPTH
    ensures r in States(g) && r.order == [] && r.path == s.path + [f]
    ensures r.stack != [] && r.stack[|r.stack| - 1].rest == Callees(g, f)
  {
    assert StateOf(s.state, f) == InPath <==> f in s.path;
    assert StateOf(s.state, f) == Done <==> f in s.order;
    MoveKeepsInvariant(g, s, Enter(f));
    r := After(g, s, Enter(f));
  }

  lemma {:induction false} WalkDown(g: CallGraph, w: seq<Func>, k: nat) returns (s: Snapshot)
    requires IsDeepChain(g, w) && 1 <= k <= MAX_FUNCTION_CALL_DEPTH
    ensures WalksDown(g, w, k, s)
  {
    if k == 1 {
      assert CallsNext(g, w, 0);
      StartIsReachable(g);
      s := StepDown(g, START, w[0]);
      assert w[..1] == [] + [w[0]];
    } else {
      var before := WalkDown(g, w, k - 1);
      assert CallsNext(g, w, k - 2) && w[k - 1] !in w[..k - 1];
      s := StepDown(g, before, w[k - 1]);
      assert w[..k] == w[..k - 1] + [w[k - 1]];
    }
  }

  lemma {:induction false} DeepChainRejects(g: CallGraph, w: seq<Func>)
    requires IsDeepChain(g, w)
    ensures CanReject(g)
  {
    var n := MAX_FUNCTION_CALL_DEPTH;
    var s := WalkDown(g, w, n);
    assert CallsNext(g, w, n - 1);
    assert w[n] !in w[..n];
    assert StateOf(s.state, w[n]) == Unvisited;
    assert FailsAt(g, s, w[n]);
  }

  // ----- roots that come after all of their callees never go deep -----

  // In an acyclic graph some function of any set calls none of that set.
  lemma {:induction false} SinkExists(g: CallGraph, fs: set<Func>, w: seq<Func>) returns (f: Func)
    requires Acyclic(g) && w != [] && IsChain(g, w) && Distinct(w) && Elements(w) <= fs
    ensures f in fs && Callees(g, f) !! fs
    decreases |fs| - |w|
  {
    var last := w[|w| - 1];
    assert last in Elements(w);
    if c :| c in Callees(g, last) && c in fs {
      if c in w {
        var i :| 0 <= i < |w| && w[i] == c;
        PathClosesCycle(g, w, i);
        assert false;
      }
      var longer := w + [c];
      assert IsChain(g, longer) by {
        forall i ensures CallsNext(g, longer, i) {
          assert CallsNext(g, w, i);
        }
      }
      DistinctCount(longer);
      SubsetCount(Elements(longer), fs);
      f := SinkExists(g, fs, longer);
    } else {
      f := last;
    }
  }

  // The only frame is that of a root all of whose callees are Done or call nothing.
  ghost predicate AtLeaves(g: CallGraph, s: Snapshot, root: Func) {
    && s in States(g) && s.path == [root] && |s.stack| == 1
    && forall c | c in s.stack[0].rest :: c in s.order || c !in g
  }

  lemma {:induction false} VisitLeaves(g: CallGraph, s: Snapshot, root: Func) returns (r: Snapshot)
    requires AtLeaves(g, s, root)
    ensures AtLeaves(g, r, root) && r.stack[0].rest == {} && Elements(s.order) <= Elements(r.order)
    decreases s.stack[0].rest
  {
    if s.stack[0].rest == {} {
      r := s;
    } else {
      var c :| c in s.stack[0].rest;
      var next := VisitLeaf(g, s, root, c);
      r := VisitLeaves(g, next, root);
    }
  }

  lemma {:induction false} VisitLeaf(g: CallGraph, s: Snapshot, root: Func, c: Func) returns (r: Snapshot)
    requires AtLeaves(g, s, root) && c in s.stack[0].rest
    ensures AtLeaves(g, r, root) && r.stack[0].rest == s.stack[0].rest - {c} && Elements(s.order) <= Elements(r.order)
  {
    SearchingAfterAdvance(g, s, c);
    assert StateOf(s.state, c) == Done <==> c in s.order;
    if c in s.order {
      r := Advanced(s, c);
    } else {
      NotItself(g, s, root, c);
      var t := After(g, s, Enter(c));
      MoveKeepsInvariant(g, s, Enter(c));
      MoveKeepsInvariant(g, t, Leave);
      r := After(g, t, Leave);
      assert r.path == s.path && r.order == s.order + [c] && r.stack == Advanced(s, c).stack;
    }
  }

  lemma {:induction false} NotItself(g: CallGraph, s: Snapshot, root: Func, c: Func)
    requires AtLeaves(g, s, root) && c in s.stack[0].rest && c !in s.order
    ensures StateOf(s.state, c) == Unvisited
  {
    assert FrameFits(g, s.path, s.stack, 0);
    assert root in g;
    assert StateOf(s.state, c) == InPath <==> c in s.path;
    assert StateOf(s.state, c) == Done <==> c in s.order;
  }

  lemma {:induction false} EnterRoot(g: CallGraph, s: Snapshot, f: Func) returns (r: Snapshot)
    requires s in States(g) && s.path == [] && f in g && f !in s.order
    requires forall c | c in Callees(g, f) :: c in s.order || c !in g
    ensures AtLeaves(g, r, f) && r.order == s.order
  {
    assert StateOf(s.state, f) == InPath <==> f in s.path;
    assert StateOf(s.state, f) == Done <==> f in s.order;
    assert s.stack == [];
    MoveKeepsInvariant(g, s, Enter(f));
    r := After(g, s, Enter(f));
    assert r.path == [f] && r.stack == [Frame(f, Callees(g, f))];
  }

  lemma {:induction false} LeaveRoot(g: CallGraph, s: Snapshot, f: Func) returns (r: Snapshot)
    requires AtLeaves(g, s, f) && s.stack[0].rest == {}
    ensures r in States(g) && r.path == [] && r.order == s.order + [f]
  {
    MoveKeepsInvariant(g, s, Leave);
    r := After(g, s, Leave);
  }

  // From one finished root to the next.
  lemma {:induction false} VisitRoot(g: CallGraph, s: Snapshot, f: Func) returns (r: Snapshot)
    requires s in States(g) && s.path == [] && f in g && f !in s.order
    requires forall c | c in Callees(g, f) :: c in s.order || c !in g
    ensures r in States(g) && r.path == [] && Elements(s.order) + {f} <= Elements(r.order)
  {
    var entered := EnterRoot(g, s, f);
    var done := VisitLeaves(g, entered, f);
    r := LeaveRoot(g, done, f);
  }

  lemma {:induction false} VisitCalleesFirst(g: CallGraph, s: Snapshot)
    requires Acyclic(g) && s in States(g) && s.path == []
    ensures CanAccept(g)
    decreases g.Keys - Elements(s.order)
  {
    var left := g.Keys - Elements(s.order);
    if left == {} {
      assert forall f | f in g.Keys :: f !in left;
      SearchAccepts(g, s);
    } else {
      var start :| start in left;
      var w := [start];
      forall i ensures CallsNext(g, w, i) {
      }
      var f := SinkExists(g, left, w);
      var next := VisitRoot(g, s, f);
      VisitCalleesFirst(g, next);
    }
  }

  // ----- the theorems -----

  // Some order of roots and callees accepts exactly when no function is recursive.
  lemma {:induction false} SomeOrderAccepts(g: CallGraph)
    ensures CanAccept(g) <==> Acyclic(g)
  {
    if CanAccept(g) {
      AcceptanceIsAcyclic(g);
    }
    if Acyclic(g) {
      StartIsReachable(g);
      VisitCalleesFirst(g, START);
    }
  }

  // Every order accepts exactly when there is no long chain of calls either.
  lemma {:induction false} EveryOrderAccepts(g: CallGraph)
    ensures !CanReject(g) <==> Acyclic(g) && forall w :: !IsDeepChain(g, w)
  {
    if CanReject(g) {
      RejectionIsGenuine(g);
    } else {
      StartIsReachable(g);
      var moves := EveryRunEnds(g, START);
      assert RunOf(g, moves) == Some(RunFrom(g, START, moves).value);
      AcceptanceIsAcyclic(g);
      forall w ensures !IsDeepChain(g, w) {
        if IsDeepChain(g, w) {
          DeepChainRejects(g, w);
        }
      }
    }
  }

  // Functions 0 to 100, each calling the next one.
  function LongChain(): CallGraph {
    map f: nat | f <= MAX_FUNCTION_CALL_DEPTH :: Next(f)
  }

  function Next(f: Func): set<Func> {
    if f < MAX_FUNCTION_CALL_DEPTH then {f + 1} else {}
  }

  // A chain of 101 functions is accepted in one order and rejected in another.
  lemma {:induction false} OrderDecidesLongChains()
    ensures CanAccept(LongChain()) && CanReject(LongChain())
    ensures exists w :: IsDeepChain(LongChain(), w)
  {
    var g := LongChain();
    var down := seq(MAX_FUNCTION_CALL_DEPTH + 1, i requires 0 <= i => i as Func);
    assert IsDeepChain(g, down);
    DeepChainRejects(g, down);
    var up := seq(MAX_FUNCTION_CALL_DEPTH + 1,
      i requires 0 <= i <= MAX_FUNCTION_CALL_DEPTH => MAX_FUNCTION_CALL_DEPTH - i);
    forall i, c | CalledAt(g, up, i, c) ensures c in up[..i] {
      assert up[..i][i - 1] == c;
    }
    forall f | f in g ensures f in up {
      assert up[MAX_FUNCTION_CALL_DEPTH - f] == f;
    }
    RankedGraphIsAcyclic(g, up);
    SomeOrderAccepts(g);
  }
}
