// The depth-first search of onnx_lib/checker.cc that rejects recursive model-local functions.
//
// `unordered_set` and `unordered_map` iterate in no particular order, so every choice of the next callee or root is
// an arbitrary `:|`; what is proved here holds for all of them.

module FunctionCycles {
  import opened Basics

  // A `FunctionProto` pointer, named by the position of the function in the model.
  type Func = nat

  type CallGraph = map<Func, set<Func>>

  const MAX_FUNCTION_CALL_DEPTH := 100

  datatype VisitState = Unvisited | InPath | Done

  // `rest` holds the callees that the frame's iterator has not passed yet.
  datatype Frame = Frame(func: Func, rest: set<Func>)

  // The three ways in which the search ends; `ids` lists the functions printed by the cycle message.
  datatype Outcome = Accepted | CycleDetected(ids: seq<Func>) | TooDeep

  // ----- call chains, cycles and ranks, stated on the graph alone -----

  function Callees(g: CallGraph, f: Func): set<Func> {
    if f in g then g[f] else {}
  }

  function Functions(g: CallGraph): set<Func> {
    g.Keys + (set f, c | f in g && c in g[f] :: c)
  }

  ghost predicate CallsNext(g: CallGraph, w: seq<Func>, i: int) {
    0 <= i < |w| - 1 ==> w[i + 1] in Callees(g, w[i])
  }

  // Each function of `w` calls the next one.
  ghost predicate IsChain(g: CallGraph, w: seq<Func>) {
    forall i :: CallsNext(g, w, i)
  }

  // A closed walk of call edges.
  ghost predicate IsCycle(g: CallGraph, w: seq<Func>) {
    |w| > 0 && IsChain(g, w) && w[0] in Callees(g, w[|w| - 1])
  }

  ghost predicate Acyclic(g: CallGraph) {
    forall w :: !IsCycle(g, w)
  }

  // A chain long enough to trip the depth limit.
  ghost predicate IsDeepChain(g: CallGraph, w: seq<Func>) {
    |w| == MAX_FUNCTION_CALL_DEPTH + 1 && Distinct(w) && IsChain(g, w)
  }

  ghost predicate CalledAt(g: CallGraph, order: seq<Func>, i: int, c: Func) {
    0 <= i < |order| && c in Callees(g, order[i])
  }

  // `order` lists functions without repetition, every callee before all of its callers.
  ghost predicate CalleesFirst(g: CallGraph, order: seq<Func>) {
    Distinct(order) && forall i, c | CalledAt(g, order, i, c) :: c in order[..i]
  }

  function Rank(order: seq<Func>, f: Func): (r: nat)
    ensures r <= |order|
    ensures f in order ==> r < |order| && order[r] == f
  {
    if order == [] then 0
    else if order[|order| - 1] == f then |order| - 1
    else
      var r := Rank(order[..|order| - 1], f);
      if f in order[..|order| - 1] then r else |order|
  }

  // The rank of a callee is below the rank of its caller.
  lemma {:induction false} RankDecreases(g: CallGraph, order: seq<Func>, f: Func, c: Func)
    requires CalleesFirst(g, order) && f in order && c in Callees(g, f)
    ensures c in order && Rank(order, c) < Rank(order, f)
  {
    assert CalledAt(g, order, Rank(order, f), c);
  }

  // Ranks strictly decrease along a chain, so no chain (simple or not) is longer than the number of ranked
  // functions: unfolding calls terminates.
  lemma {:induction false} ChainsAreBounded(g: CallGraph, order: seq<Func>, w: seq<Func>)
    requires CalleesFirst(g, order) && |w| > 0 && IsChain(g, w) && w[0] in order
    ensures forall i | 0 <= i < |w| :: w[i] in order && Rank(order, w[i]) + i <= Rank(order, w[0])
    ensures |w| <= |order|
  {
    if |w| > 1 {
      var front := w[..|w| - 1];
      assert IsChain(g, front) by {
        forall i ensures CallsNext(g, front, i) {
          assert CallsNext(g, w, i);
        }
      }
      assert CallsNext(g, w, |w| - 2);
      ChainsAreBounded(g, order, front);
      assert front[|front| - 1] == w[|w| - 2];
      RankDecreases(g, order, w[|w| - 2], w[|w| - 1]);
    }
  }

  // A ranked graph has no cycle anywhere: every function with a callee is ranked.
  lemma {:induction false} RankedGraphIsAcyclic(g: CallGraph, order: seq<Func>)
    requires CalleesFirst(g, order) && forall f | f in g :: f in order
    ensures Acyclic(g)
  {
    forall w ensures !IsCycle(g, w) {
      if IsCycle(g, w) {
        var last := w[|w| - 1];
        assert w[0] in order by { RankDecreases(g, order, last, w[0]); }
        ChainsAreBounded(g, order, w);
        RankDecreases(g, order, last, w[0]);
        assert false;
      }
    }
  }

  // ----- counting rounds -----

  // Sum of the out-degrees of the functions of `fs`.
  function CallEdges(g: CallGraph, fs: seq<Func>): nat {
    if fs == [] then 0 else CallEdges(g, fs[..|fs| - 1]) + |Callees(g, fs[|fs| - 1])|
  }

  // Callees that the frames of `stack` have still to look at.
  function Pending(stack: seq<Frame>): nat {
    if stack == [] then 0 else Pending(stack[..|stack| - 1]) + |stack[|stack| - 1].rest|
  }

  lemma {:induction false} PendingTop(below: seq<Frame>, top: Frame)
    ensures Pending(below + [top]) == Pending(below) + |top.rest|
    ensures (below + [top])[..|below|] == below
  {
    assert (below + [top])[..|below|] == below;
  }

  lemma {:induction false} CallEdgesTop(g: CallGraph, fs: seq<Func>, f: Func)
    ensures CallEdges(g, fs + [f]) == CallEdges(g, fs) + |Callees(g, f)|
  {
    assert (fs + [f])[..|fs|] == fs;
  }

  function Elements(fs: seq<Func>): set<Func> {
    set f | f in fs
  }

  lemma {:induction false} DistinctCount(fs: seq<Func>)
    requires Distinct(fs)
    ensures |Elements(fs)| == |fs|
  {
    if fs != [] {
      var front := fs[..|fs| - 1];
      DistinctCount(front);
      assert Elements(fs) == Elements(front) + {fs[|fs| - 1]};
      assert fs[|fs| - 1] !in front;
    }
  }

  // ----- the invariant of the search -----

  // `state[f]` default-constructs a missing entry as Unvisited.
  function StateOf(state: map<Func, VisitState>, f: Func): VisitState {
    if f in state then state[f] else Unvisited
  }

  ghost predicate FrameFits(g: CallGraph, path: seq<Func>, stack: seq<Frame>, i: int) {
    0 <= i < |path| && i < |stack| ==> stack[i].func == path[i] && stack[i].rest <= Callees(g, path[i])
  }

  // `path` and `stack` list the same simple call chain.
  ghost predicate SameChain(g: CallGraph, path: seq<Func>, stack: seq<Frame>) {
    && |stack| == |path|
    && Distinct(path) && IsChain(g, path)
    && (forall i :: FrameFits(g, path, stack, i))
  }

  // Exactly the functions of the path are InPath, exactly those of `order` are Done.
  ghost predicate Coloured(state: map<Func, VisitState>, path: seq<Func>, order: seq<Func>) {
    && (forall f :: StateOf(state, f) == InPath <==> f in path)
    && (forall f :: StateOf(state, f) == Done <==> f in order)
  }

  // The iterator of frame `i` has passed callee `c`.
  ghost predicate Passed(g: CallGraph, path: seq<Func>, stack: seq<Frame>, i: int, c: Func) {
    0 <= i < |path| && i < |stack| && c in Callees(g, path[i]) && c !in stack[i].rest
  }

  // The path goes from function `i` into `c`.
  ghost predicate EntersNext(path: seq<Func>, i: int, c: Func) {
    0 <= i < |path| - 1 && path[i + 1] == c
  }

  // A callee that an iterator has passed is Done, except for the one the path went into.
  ghost predicate Explored(g: CallGraph, path: seq<Func>, stack: seq<Frame>, order: seq<Func>) {
    forall i, c | Passed(g, path, stack, i, c) :: c in order || EntersNext(path, i, c)
  }

  // The iterator of the top frame steps over a Done callee.
  lemma {:induction false} ExploredAfterStep(g: CallGraph, path: seq<Func>, below: seq<Frame>, top: Frame,
                                             order: seq<Func>, c: Func)
    requires Explored(g, path, below + [top], order) && c in order
    ensures Explored(g, path, below + [top.(rest := top.rest - {c})], order)
  {
    var stack' := below + [top.(rest := top.rest - {c})];
    forall i, d | Passed(g, path, stack', i, d) ensures d in order || EntersNext(path, i, d) {
      assert d == c || Passed(g, path, below + [top], i, d);
    }
  }

  // The iterator of the top frame steps over `c`, and the path goes into `c`.
  lemma {:induction false} ExploredAfterDescent(g: CallGraph, path: seq<Func>, below: seq<Frame>, top: Frame,
                                                order: seq<Func>, c: Func)
    requires Explored(g, path, below + [top], order) && |path| == |below| + 1
    ensures Explored(g, path + [c], below + [top.(rest := top.rest - {c}), Frame(c, Callees(g, c))], order)
  {
    var path' := path + [c];
    var stack' := below + [top.(rest := top.rest - {c}), Frame(c, Callees(g, c))];
    forall i, d | Passed(g, path', stack', i, d) ensures d in order || EntersNext(path', i, d) {
      if Passed(g, path, below + [top], i, d) {
        assert d in order || EntersNext(path, i, d);
      } else {
        assert i == |below| && d == c;
      }
    }
  }

  lemma {:induction false} ExploredAfterPop(g: CallGraph, path: seq<Func>, stack: seq<Frame>, order: seq<Func>)
    requires Explored(g, path, stack, order) && path != [] && |stack| == |path|
    ensures Explored(g, path[..|path| - 1], stack[..|stack| - 1], order + [path[|path| - 1]])
  {
    var n := |path| - 1;
    forall i, c | Passed(g, path[..n], stack[..n], i, c) ensures c in order + [path[n]] || EntersNext(path[..n], i, c) {
      assert Passed(g, path, stack, i, c);
    }
  }

  lemma {:induction false} CalleesFirstAfterPop(g: CallGraph, order: seq<Func>, f: Func)
    requires CalleesFirst(g, order) && f !in order && forall c | c in Callees(g, f) :: c in order
    ensures CalleesFirst(g, order + [f])
  {
    var order' := order + [f];
    forall i, c | CalledAt(g, order', i, c) ensures c in order'[..i] {
      assert order'[..i] == if i < |order| then order[..i] else order;
      assert i < |order| ==> CalledAt(g, order, i, c);
    }
  }

  // The containers that the search mutates, with two records kept for the proof: `order`, the Done functions as they
  // were finished, and `rounds`, the rounds that the loop has made.
  datatype Snapshot = Snapshot(state: map<Func, VisitState>, path: seq<Func>, stack: seq<Frame>,
                               order: seq<Func>, rounds: int)

  function Pushed(g: CallGraph, s: Snapshot, f: Func): Snapshot {
    s.(state := s.state[f := InPath], path := s.path + [f], stack := s.stack + [Frame(f, Callees(g, f))])
  }

  function Popped(s: Snapshot): Snapshot
    requires s.path != [] && s.stack != []
  {
    var f := s.path[|s.path| - 1];
    Snapshot(s.state[f := Done], s.path[..|s.path| - 1], s.stack[..|s.stack| - 1], s.order + [f], s.rounds + 1)
  }

  function Advanced(s: Snapshot, c: Func): Snapshot
    requires s.stack != []
  {
    var top := s.stack[|s.stack| - 1];
    s.(stack := s.stack[..|s.stack| - 1] + [top.(rest := top.rest - {c})], rounds := s.rounds + 1)
  }

  // ----- runs: every order in which roots and callees can come -----

  const START := Snapshot(map[], [], [], [], 0)

  // Going into an unvisited root or callee, stepping over a Done callee, backtracking.
  datatype Move = Enter(func: Func) | Skip(func: Func) | Leave

  // The functions that the search may look at next: a root, or a callee left in the top frame.
  function Candidates(g: CallGraph, s: Snapshot): set<Func> {
    if s.stack == [] then g.Keys else s.stack[|s.stack| - 1].rest
  }

  predicate CanMove(g: CallGraph, s: Snapshot, m: Move) {
    match m
    case Enter(f) =>
      f in Candidates(g, s) && StateOf(s.state, f) == Unvisited && |s.path| < MAX_FUNCTION_CALL_DEPTH
    case Skip(f) => s.stack != [] && f in Candidates(g, s) && StateOf(s.state, f) == Done
    case Leave => s.stack != [] && s.path != [] && Candidates(g, s) == {}
  }

  // What stands between two frames when `f` is entered.
  function Approached(s: Snapshot, f: Func): Snapshot {
    if s.stack == [] then s else Advanced(s, f)
  }

  function After(g: CallGraph, s: Snapshot, m: Move): Snapshot
    requires CanMove(g, s, m)
  {
    match m
    case Enter(f) => Pushed(g, Approached(s, f), f)
    case Skip(f) => Advanced(s, f)
    case Leave => Popped(s)
  }

  // Where the moves lead from `s`, if each of them can be made.
  function RunFrom(g: CallGraph, s: Snapshot, moves: seq<Move>): Option<Snapshot> {
    if moves == [] then Some(s)
    else
      var n := |moves| - 1;
      var t := RunFrom(g, s, moves[..n]);
      if t.Some? && CanMove(g, t.value, moves[n]) then Some(After(g, t.value, moves[n])) else None
  }

  function RunOf(g: CallGraph, moves: seq<Move>): Option<Snapshot> {
    RunFrom(g, START, moves)
  }

  ghost predicate Reachable(g: CallGraph, s: Snapshot) {
    exists moves :: RunOf(g, moves) == Some(s)
  }

  // The look at `f` ends the search: `f` is on the path, or the path is full.
  predicate FailsAt(g: CallGraph, s: Snapshot, f: Func) {
    && f in Candidates(g, s)
    && (StateOf(s.state, f) == InPath || (StateOf(s.state, f) == Unvisited && |s.path| >= MAX_FUNCTION_CALL_DEPTH))
  }

  predicate Finished(g: CallGraph, s: Snapshot) {
    s.stack == [] && forall f | f in g :: StateOf(s.state, f) != Unvisited
  }

  // Some order of roots and callees ends with acceptance.
  ghost predicate CanAccept(g: CallGraph) {
    exists s :: Reachable(g, s) && Finished(g, s)
  }

  ghost predicate CanReject(g: CallGraph) {
    exists s, f :: Reachable(g, s) && FailsAt(g, s, f)
  }

  lemma {:induction false} StartIsReachable(g: CallGraph)
    ensures Reachable(g, START)
  {
    assert RunOf(g, []) == Some(START);
  }

  lemma {:induction false} MoveReaches(g: CallGraph, s: Snapshot, m: Move)
    requires Reachable(g, s) && CanMove(g, s, m)
    ensures Reachable(g, After(g, s, m))
  {
    var moves :| RunOf(g, moves) == Some(s);
    assert (moves + [m])[..|moves|] == moves;
    assert RunOf(g, moves + [m]) == Some(After(g, s, m));
  }

  // Entering `f` from the state that was approached: a state of a run, or a way to reject.
  ghost predicate Entered(g: CallGraph, s: Snapshot, f: Func) {
    if |s.path| < MAX_FUNCTION_CALL_DEPTH then Reachable(g, Pushed(g, s, f)) else CanReject(g)
  }

  lemma {:induction false} ApproachEnters(g: CallGraph, s: Snapshot, f: Func)
    requires Reachable(g, s) && f in Candidates(g, s) && StateOf(s.state, f) == Unvisited
    ensures Entered(g, Approached(s, f), f)
  {
    if |s.path| < MAX_FUNCTION_CALL_DEPTH {
      MoveReaches(g, s, Enter(f));
    } else {
      assert FailsAt(g, s, f);
    }
  }

  // ----- what every state of a run keeps -----

  ghost predicate Searching(g: CallGraph, s: Snapshot) {
    match s case Snapshot(state, path, stack, order, rounds) =>
      && SameChain(g, path, stack) && Coloured(state, path, order) && CalleesFirst(g, order)
      && Explored(g, path, stack, order)
      && Elements(path) + Elements(order) <= Functions(g)
      && |path| <= MAX_FUNCTION_CALL_DEPTH
      && rounds + Pending(stack) == |order| + CallEdges(g, order) + CallEdges(g, path)
  }

  // The states that the search can be in between two rounds.
  ghost function States(g: CallGraph): iset<Snapshot> {
    iset s | Searching(g, s) && Reachable(g, s)
  }

  // Between `++cur` and the call of `push`, the frames are ahead of the path by the unvisited callee `f`.
  ghost predicate Entering(g: CallGraph, s: Snapshot, f: Func) {
    match s case Snapshot(state, path, stack, order, rounds) =>
      && SameChain(g, path, stack) && Coloured(state, path, order) && CalleesFirst(g, order)
      && Explored(g, path + [f], stack + [Frame(f, Callees(g, f))], order)
      && Elements(path) + Elements(order) + {f} <= Functions(g)
      && |path| <= MAX_FUNCTION_CALL_DEPTH
      && rounds + Pending(stack) == |order| + CallEdges(g, order) + CallEdges(g, path)
      && (path == [] || f in Callees(g, path[|path| - 1]))
      && StateOf(state, f) == Unvisited
  }

  lemma {:induction false} SameChainAfterPush(g: CallGraph, path: seq<Func>, stack: seq<Frame>, f: Func)
    requires SameChain(g, path, stack) && f !in path && (path == [] || f in Callees(g, path[|path| - 1]))
    ensures SameChain(g, path + [f], stack + [Frame(f, Callees(g, f))])
  {
    var path', stack' := path + [f], stack + [Frame(f, Callees(g, f))];
    forall i ensures CallsNext(g, path', i) && FrameFits(g, path', stack', i) {
      assert CallsNext(g, path, i) && FrameFits(g, path, stack, i);
    }
  }

  lemma {:induction false} SameChainAfterPop(g: CallGraph, path: seq<Func>, stack: seq<Frame>)
    requires SameChain(g, path, stack) && path != []
    ensures SameChain(g, path[..|path| - 1], stack[..|stack| - 1])
  {
    var path', stack' := path[..|path| - 1], stack[..|stack| - 1];
    forall i ensures CallsNext(g, path', i) && FrameFits(g, path', stack', i) {
      assert CallsNext(g, path, i) && FrameFits(g, path, stack, i);
    }
  }

  lemma {:induction false} ColouredAfterPop(state: map<Func, VisitState>, below: seq<Func>, f: Func, order: seq<Func>)
    requires Coloured(state, below + [f], order) && f !in below
    ensures f !in order
    ensures Coloured(state[f := Done], below, order + [f])
  {
    assert f in below + [f];
    assert StateOf(state, f) == InPath;
    forall d
      ensures StateOf(state[f := Done], d) == InPath <==> d in below
      ensures StateOf(state[f := Done], d) == Done <==> d in order + [f]
    {
      assert d != f ==> (d in below + [f] <==> d in below);
    }
  }

  lemma {:induction false} FinishedCallees(g: CallGraph, path: seq<Func>, stack: seq<Frame>, order: seq<Func>)
    requires Explored(g, path, stack, order) && path != [] && |stack| == |path| && stack[|stack| - 1].rest == {}
    ensures forall c | c in Callees(g, path[|path| - 1]) :: c in order
  {
    var n := |path| - 1;
    forall c | c in Callees(g, path[n]) ensures c in order {
      assert Passed(g, path, stack, n, c);
    }
  }

  lemma {:induction false} PushedIsSearching(g: CallGraph, s: Snapshot, f: Func)
    requires Entering(g, s, f)
    ensures f in Functions(g) && f !in s.path && f !in s.order
    ensures IsChain(g, s.path + [f]) && Distinct(s.path + [f])
    ensures |s.path| < MAX_FUNCTION_CALL_DEPTH ==> Searching(g, Pushed(g, s, f))
  {
    SameChainAfterPush(g, s.path, s.stack, f);
    PendingTop(s.stack, Frame(f, Callees(g, f)));
    CallEdgesTop(g, s.path, f);
  }

  lemma {:induction false} SearchingAfterPush(g: CallGraph, s: Snapshot, f: Func)
    requires Entering(g, s, f) && Entered(g, s, f)
    ensures f in Functions(g) && f !in s.path && f !in s.order
    ensures IsChain(g, s.path + [f]) && Distinct(s.path + [f])
    ensures if |s.path| < MAX_FUNCTION_CALL_DEPTH then Pushed(g, s, f) in States(g) else CanReject(g)
  {
    PushedIsSearching(g, s, f);
  }

  // A round that finds no callee left in the top frame.
  lemma {:induction false} SearchingAfterPop(g: CallGraph, s: Snapshot)
    requires s in States(g) && s.stack != [] && s.stack[|s.stack| - 1].rest == {}
    ensures s.path != [] && s.stack[|s.stack| - 1].func == s.path[|s.path| - 1] && Popped(s) in States(g)
  {
    var n := |s.path| - 1;
    var below, f, frames, top := s.path[..n], s.path[n], s.stack[..n], s.stack[n];
    assert s.path == below + [f] && s.stack == frames + [top];
    assert FrameFits(g, s.path, s.stack, n);
    assert SameChain(g, below, frames) by {
      SameChainAfterPop(g, s.path, s.stack);
    }
    assert Coloured(s.state[f := Done], below, s.order + [f]) && f !in s.order by {
      ColouredAfterPop(s.state, below, f, s.order);
    }
    assert CalleesFirst(g, s.order + [f]) by {
      FinishedCallees(g, s.path, s.stack, s.order);
      CalleesFirstAfterPop(g, s.order, f);
    }
    assert Explored(g, below, frames, s.order + [f]) by {
      ExploredAfterPop(g, s.path, s.stack, s.order);
    }
    assert Elements(below) + Elements(s.order + [f]) <= Functions(g) by {
      SeenAfterPop(g, s);
    }
    PendingTop(frames, top);
    CallEdgesTop(g, below, f);
    CallEdgesTop(g, s.order, f);
    MoveReaches(g, s, Leave);
  }

  lemma {:induction false} AdvancedIsSearching(g: CallGraph, s: Snapshot, c: Func)
    requires Searching(g, s) && s.stack != [] && c in s.stack[|s.stack| - 1].rest
    ensures Pending(Advanced(s, c).stack) == Pending(s.stack) - 1
    ensures s.path != [] && c in Callees(g, s.path[|s.path| - 1]) && Distinct(s.path) && IsChain(g, s.path)
    ensures StateOf(s.state, c) == InPath <==> c in s.path
    ensures StateOf(s.state, c) == Done ==> Searching(g, Advanced(s, c))
    ensures StateOf(s.state, c) == Unvisited ==> Entering(g, Advanced(s, c), c)
  {
    var n := |s.stack| - 1;
    var below, top := s.stack[..n], s.stack[n];
    var top' := top.(rest := top.rest - {c});
    assert s.stack == below + [top];
    assert FrameFits(g, s.path, s.stack, n);
    assert SameChain(g, s.path, below + [top']) by {
      forall i ensures FrameFits(g, s.path, below + [top'], i) {
        assert FrameFits(g, s.path, s.stack, i);
      }
    }
    PendingTop(below, top);
    PendingTop(below, top');
    if StateOf(s.state, c) == Done {
      assert Explored(g, s.path, below + [top'], s.order) by {
        ExploredAfterStep(g, s.path, below, top, s.order, c);
      }
    } else if StateOf(s.state, c) == Unvisited {
      assert Explored(g, s.path + [c], below + [top'] + [Frame(c, Callees(g, c))], s.order) by {
        ExploredAfterDescent(g, s.path, below, top, s.order, c);
        assert (below + [top']) + [Frame(c, Callees(g, c))] == below + [top', Frame(c, Callees(g, c))];
      }
    }
  }

  // A round that looks at callee `c`.
  lemma {:induction false} SearchingAfterAdvance(g: CallGraph, s: Snapshot, c: Func)
    requires s in States(g) && s.stack != [] && c in s.stack[|s.stack| - 1].rest
    ensures Pending(Advanced(s, c).stack) == Pending(s.stack) - 1
    ensures s.path != [] && c in Callees(g, s.path[|s.path| - 1]) && Distinct(s.path) && IsChain(g, s.path)
    ensures StateOf(s.state, c) == InPath <==> c in s.path
    ensures StateOf(s.state, c) == InPath ==> CanReject(g)
    ensures StateOf(s.state, c) == Done ==> Advanced(s, c) in States(g)
    ensures StateOf(s.state, c) == Unvisited ==> Entering(g, Advanced(s, c), c) && Entered(g, Advanced(s, c), c)
  {
    AdvancedIsSearching(g, s, c);
    if StateOf(s.state, c) == Done {
      MoveReaches(g, s, Skip(c));
    } else if StateOf(s.state, c) == InPath {
      assert FailsAt(g, s, c);
    } else {
      ApproachEnters(g, s, c);
    }
  }

  lemma {:induction false} EnteringRoot(g: CallGraph, s: Snapshot, root: Func)
    requires s in States(g) && s.path == [] && StateOf(s.state, root) == Unvisited && root in g
    ensures s.stack == [] && Entering(g, s, root) && Entered(g, s, root)
  {
    ApproachEnters(g, s, root);
    assert [] + [root] == [root] && [] + [Frame(root, Callees(g, root))] == [Frame(root, Callees(g, root))];
  }

  // The part of the path that starts at a callee of its end is a cycle without repetition.
  lemma {:induction false} PathClosesCycle(g: CallGraph, path: seq<Func>, start: nat)
    requires Distinct(path) && IsChain(g, path) && start < |path| && path[start] in Callees(g, path[|path| - 1])
    ensures IsCycle(g, path[start..]) && Distinct(path[start..])
  {
    forall i ensures CallsNext(g, path[start..], i) {
      assert CallsNext(g, path, i + start);
    }
  }

  // The functions that the search has met.
  function Seen(s: Snapshot): set<Func> {
    Elements(s.path) + Elements(s.order)
  }

  // Functions not met yet, then callees still to be looked at plus the height of the stack: the search terminates.
  function Unseen(g: CallGraph, s: Snapshot): int {
    |Functions(g)| - |s.path| - |s.order|
  }

  function Work(s: Snapshot): nat {
    Pending(s.stack) + |s.stack|
  }

  lemma {:induction false} SeenAfterPop(g: CallGraph, s: Snapshot)
    requires s.path != [] && s.stack != []
    ensures Seen(Popped(s)) == Seen(s) && Work(Popped(s)) < Work(s)
  {
    assert s.path == s.path[..|s.path| - 1] + [s.path[|s.path| - 1]];
  }

  lemma {:induction false} SeenAfterPush(g: CallGraph, s: Snapshot, f: Func)
    ensures Seen(Pushed(g, s, f)) == Seen(s) + {f}
  {
  }

  lemma {:induction false} UnseenIsNatural(g: CallGraph, s: Snapshot)
    requires s in States(g)
    ensures Unseen(g, s) >= 0
  {
    forall i, j | 0 <= i < |s.path| && 0 <= j < |s.order| ensures s.path[i] != s.order[j] {
      assert StateOf(s.state, s.path[i]) == InPath && s.order[j] in s.order;
    }
    assert Distinct(s.path + s.order);
    DistinctCount(s.path + s.order);
    assert Elements(s.path + s.order) == Seen(s);
    SubsetCount(Seen(s), Functions(g));
  }

  lemma {:induction false} SubsetCount(a: set<Func>, b: set<Func>)
    requires a <= b
    ensures |a| <= |b|
  {
    assert b == a + (b - a);
  }

  // ----- the search -----

  class CycleSearch {
    const graph: CallGraph
    var state: map<Func, VisitState>
    var path: seq<Func>
    var stack: seq<Frame>
    ghost var order: seq<Func>
    ghost var rounds: int

    constructor (g: CallGraph)
      ensures graph == g && Now() in States(graph) && path == [] && order == [] && rounds == 0
    {
      graph := g;
      state, path, stack, order, rounds := map[], [], [], [], 0;
      StartIsReachable(g);
    }

    ghost function Now(): Snapshot
      reads this
    {
      Snapshot(state, path, stack, order, rounds)
    }

    // The lambda `push`; false when the depth limit fires.
    method Push(func: Func) returns (ok: bool)
      requires Entering(graph, Now(), func) && Entered(graph, Now(), func)
      modifies `state, `path, `stack
      ensures ok ==> Now() == Pushed(graph, old(Now()), func) && Now() in States(graph)
      ensures ok ==> Seen(Now()) == old(Seen(Now())) + {func}
      ensures !ok ==> IsDeepChain(graph, path) && CanReject(graph)
    {
      ghost var now := Now();
      SearchingAfterPush(graph, now, func);
      SeenAfterPush(graph, now, func);
      state := state[func := InPath];
      path := path + [func];
      if |path| > MAX_FUNCTION_CALL_DEPTH {
        return false;
      }
      stack := stack + [Frame(func, Callees(graph, func))];
      assert Now() == Pushed(graph, now, func);
      return true;
    }

    // The branch of the loop for a top frame whose callees are all processed.
    method Backtrack()
      requires Now() in States(graph) && stack != [] && stack[|stack| - 1].rest == {}
      modifies this
      ensures old(path) != [] && Now() == Popped(old(Now())) && Now() in States(graph)
      ensures Seen(Now()) == old(Seen(Now())) && Work(Now()) < old(Work(Now()))
    {
      ghost var now := Now();
      SearchingAfterPop(graph, now);
      SeenAfterPop(graph, now);
      var func := stack[|stack| - 1].func;
      path := path[..|path| - 1];
      state := state[func := Done];
      stack := stack[..|stack| - 1];
      order, rounds := now.order + [func], now.rounds + 1;
      assert Now() == Popped(now);
    }

    // The advance of the top frame's iterator: `callee = *cur; ++cur`.
    method NextCallee() returns (callee: Func)
      requires Now() in States(graph) && stack != [] && stack[|stack| - 1].rest != {}
      modifies `stack, `rounds
      ensures Now() == Advanced(old(Now()), callee) && Work(Now()) < old(Work(Now()))
      ensures StateOf(state, callee) == InPath ==> callee in path && CanReject(graph)
      ensures forall i | 0 <= i < |path| && path[i] == callee :: IsCycle(graph, path[i..]) && Distinct(path[i..])
      ensures StateOf(state, callee) == Done ==> Now() in States(graph)
      ensures StateOf(state, callee) == Unvisited ==> Entering(graph, Now(), callee) && Entered(graph, Now(), callee)
    {
      ghost var now := Now();
      var top := stack[|stack| - 1];
      callee :| callee in top.rest;
      SearchingAfterAdvance(graph, now, callee);
      stack := stack[..|stack| - 1] + [top.(rest := top.rest - {callee})];
      rounds := rounds + 1;
      assert Now() == Advanced(now, callee);
      forall i | 0 <= i < |path| && path[i] == callee ensures IsCycle(graph, path[i..]) && Distinct(path[i..]) {
        PathClosesCycle(graph, path, i);
      }
    }

    // The body of the loop. None unless the search ends here; it makes progress otherwise.
    method Round() returns (stop: Option<Outcome>)
      requires Now() in States(graph) && stack != []
      modifies this
      ensures stop.None? ==> Now() in States(graph) && old(Seen(Now())) <= Seen(Now())
      ensures stop.None? ==>
        Unseen(graph, Now()) < old(Unseen(graph, Now())) ||
        (Unseen(graph, Now()) == old(Unseen(graph, Now())) && Work(Now()) < old(Work(Now())))
      ensures stop.Some? ==> !stop.value.Accepted? && CanReject(graph)
      ensures stop.Some? && stop.value.CycleDetected? ==> IsCycle(graph, stop.value.ids) && Distinct(stop.value.ids)
      ensures stop.Some? && stop.value.TooDeep? ==> IsDeepChain(graph, path)
    {
      if stack[|stack| - 1].rest == {} {
        Backtrack();
        return None;
      }
      var callee := NextCallee();
      var s := StateOf(state, callee);
      if s == InPath {
        var start: nat :| start < |path| && path[start] == callee;
        return Some(CycleDetected(path[start..]));
      } else if s == Unvisited {
        var ok := Push(callee);
        if !ok {
          return Some(TooDeep);
        }
      } else {
        assert s == Done;
      }
      stop := None;
    }

    // Searches everything that `root` calls. On success every such function is Done and nothing is left InPath.
    method DetectCycleDFS(root: Func) returns (r: Outcome)
      requires Now() in States(graph) && path == []
      requires root in graph && StateOf(state, root) == Unvisited
      modifies this
      ensures r.Accepted? ==> Now() in States(graph) && path == [] && Elements(old(order)) + {root} <= Elements(order)
      ensures r.CycleDetected? ==> IsCycle(graph, r.ids) && Distinct(r.ids)
      ensures r.TooDeep? ==> IsDeepChain(graph, path)
      ensures !r.Accepted? ==> CanReject(graph)
    {
      EnteringRoot(graph, Now(), root);
      stack := [];
      var ok := Push(root);
      if !ok {
        return TooDeep;
      }
      while stack != []
        invariant Now() in States(graph) && Elements(old(order)) + {root} <= Seen(Now())
        decreases Unseen(graph, Now()), Work(Now())
      {
        UnseenIsNatural(graph, Now());
        var stop := Round();
        if stop.Some? {
          return stop.value;
        }
      }
      r := Accepted;
    }
  }

  // Runs the search from every function of the graph, in any order of roots, with the colours shared between roots.
  // Acceptance comes with an order that puts callees first, and took one round per function and one per call edge; a
  // failure is witnessed by a real cycle or a real chain of 101 distinct functions. So unless such a chain exists, the
  // graph is accepted exactly when it is acyclic.
  method SearchAllRoots(graph: CallGraph) returns (r: Outcome, ghost order: seq<Func>, ghost rounds: nat)
    ensures r.Accepted? ==> CalleesFirst(graph, order) && Elements(order) == Functions(graph)
    ensures r.Accepted? ==> rounds == |Functions(graph)| + CallEdges(graph, order)
    ensures r.CycleDetected? ==> IsCycle(graph, r.ids) && Distinct(r.ids)
    ensures r.TooDeep? ==> exists w :: IsDeepChain(graph, w)
    ensures r.Accepted? ==> Acyclic(graph)
    ensures (forall w :: !IsDeepChain(graph, w)) ==> (r.Accepted? <==> Acyclic(graph))
    ensures if r.Accepted? then CanAccept(graph) else CanReject(graph)
  {
    var search := new CycleSearch(graph);
    r, order, rounds := Accepted, [], 0;
    var roots := graph.Keys;
    while roots != {}
      invariant search.graph == graph && search.Now() in States(graph) && search.path == []
      invariant fresh(search) && roots <= graph.Keys
      invariant graph.Keys - roots <= Elements(search.order)
      decreases roots
    {
      var root :| root in roots;
      roots := roots - {root};
      if StateOf(search.state, root) == Unvisited {
        r := search.DetectCycleDFS(root);
        if !r.Accepted? {
          return;
        }
      }
    }
    r, order, rounds := Accepted, search.order, search.rounds;
    AllFinished(graph, order);
    SearchAccepts(graph, search.Now());
  }

  lemma {:induction false} SearchAccepts(g: CallGraph, s: Snapshot)
    requires s in States(g) && s.path == [] && g.Keys <= Elements(s.order)
    ensures CanAccept(g)
  {
    assert forall f | f in g :: StateOf(s.state, f) == Done;
    assert Finished(g, s);
  }

  lemma {:induction false} AllFinished(g: CallGraph, order: seq<Func>)
    requires CalleesFirst(g, order)
    requires g.Keys <= Elements(order) <= Functions(g)
    ensures Elements(order) == Functions(g) && |order| == |Functions(g)| && Acyclic(g)
  {
    forall f | f in Functions(g) ensures f in order {
      if f !in g {
        var caller :| caller in g && f in g[caller];
        RankDecreases(g, order, caller, f);
      }
    }
    assert Elements(order) == Functions(g);
    DistinctCount(order);
    RankedGraphIsAcyclic(g, order);
  }
}
