// The scan of a text model for training_info, which matches three kinds of brackets with a stack
// (onnx_light/__main__.py, _reject_optimization_training_info). Tokens are given; a symbol is one character.

module Delimiters {
  datatype Token = Name(text: string) | Symbol(c: char) | Other

  datatype Outcome = Accepted | TrainingInfo | Mismatched | Unclosed

  const TRAINING_INFO := "training_info"

  predicate IsOpener(c: char) {
    c == '{' || c == '[' || c == '<'
  }

  predicate IsCloser(c: char) {
    c == '}' || c == ']' || c == '>'
  }

  function Closer(c: char): char {
    if c == '{' then '}' else if c == '[' then ']' else '>'
  }

  // ----- the grammar -----

  // A token that is no bracket, or a pair of matching brackets around items.
  datatype Item = Leaf(token: Token) | Group(open: char, items: seq<Item>)

  ghost predicate ValidItem(x: Item)
    decreases x, 1
  {
    match x
    case Leaf(t) => !(t.Symbol? && (IsOpener(t.c) || IsCloser(t.c)))
    case Group(open, items) => IsOpener(open) && ValidItems(items)
  }

  ghost predicate ValidItems(xs: seq<Item>)
    decreases xs, 0
  {
    xs == [] || (ValidItem(xs[0]) && ValidItems(xs[1..]))
  }

  function Tokens(x: Item): seq<Token>
    decreases x, 1
  {
    match x
    case Leaf(t) => [t]
    case Group(open, items) => [Symbol(open)] + Flatten(items) + [Symbol(Closer(open))]
  }

  function Flatten(xs: seq<Item>): seq<Token>
    decreases xs, 0
  {
    if xs == [] then [] else Tokens(xs[0]) + Flatten(xs[1..])
  }

  // No name training_info outside all brackets.
  predicate CleanAtTop(xs: seq<Item>) {
    forall i | 0 <= i < |xs| :: xs[i] != Leaf(Name(TRAINING_INFO))
  }

  // The tokens of a balanced text with no training_info at depth 0.
  ghost predicate IsCleanBalanced(ts: seq<Token>) {
    exists items :: ValidItems(items) && CleanAtTop(items) && Flatten(items) == ts
  }

  // ----- the scan from a state of the stack -----

  function Run(ts: seq<Token>, closing: seq<char>): Outcome {
    if ts == [] then
      if closing != [] then Unclosed else Accepted
    else if closing == [] && ts[0] == Name(TRAINING_INFO) then TrainingInfo
    else if ts[0].Symbol? && IsOpener(ts[0].c) then Run(ts[1..], closing + [Closer(ts[0].c)])
    else if ts[0].Symbol? && IsCloser(ts[0].c) then
      if closing == [] || closing[|closing| - 1] != ts[0].c then Mismatched
      else Run(ts[1..], closing[..|closing| - 1])
    else Run(ts[1..], closing)
  }

  lemma {:induction false} PairRun(open: char, close: char)
    requires IsOpener(open) && IsCloser(close)
    ensures Run([Symbol(open), Symbol(close)], []) == if Closer(open) == close then Accepted else Mismatched
  {
    var pair, closing := [Symbol(open), Symbol(close)], [Closer(open)];
    assert pair[1..] == [Symbol(close)] && [Symbol(close)][1..] == [];
    assert [] + closing == closing && closing[..0] == [];
    assert Run(pair, []) == Run([Symbol(close)], closing);
    assert !IsOpener(close) && closing[|closing| - 1] == Closer(open);
    assert Run([], closing[..|closing| - 1]) == Accepted;
  }

  // Of all pairs of brackets, exactly these three match.
  lemma {:induction false} PairsExactly(open: char, close: char)
    requires open in {'{', '[', '<'} && close in {'}', ']', '>'}
    ensures Run([Symbol(open), Symbol(close)], []) == Accepted <==>
      (open == '{' && close == '}') || (open == '[' && close == ']') || (open == '<' && close == '>')
    ensures Run([Symbol(close)], []) == Mismatched && Run([Symbol(open)], []) == Unclosed
  {
    PairRun(open, close);
    assert [Symbol(close)][1..] == [] && [Symbol(open)][1..] == [];
    assert [] + [Closer(open)] == [Closer(open)];
  }

  // Outside of brackets only this name is looked for, and other symbols pass.
  lemma {:induction false} NamesExactly(name: string, symbol: char)
    ensures Run([Name(name)], []) == if name == "training_info" then TrainingInfo else Accepted
    ensures symbol !in {'{', '[', '<', '}', ']', '>'} ==> Run([Symbol(symbol)], []) == Accepted
  {
    assert [Name(name)][1..] == [] && [Symbol(symbol)][1..] == [];
  }

  // The loop over the tokens; a text that does not contain the word at all is not looked at.
  method RejectTrainingInfo(containsWord: bool, tokens: seq<Token>) returns (r: Outcome)
    ensures r == if containsWord then Run(tokens, []) else Accepted
  {
    if !containsWord {
      return Accepted;
    }
    var closing: seq<char> := [];
    for i := 0 to |tokens|
      invariant Run(tokens[i..], closing) == Run(tokens, [])
    {
      var token := tokens[i];
      assert tokens[i..][0] == token && tokens[i..][1..] == tokens[i + 1..];
      if token.Name? && closing == [] && token.text == TRAINING_INFO {
        return TrainingInfo;
      }
      if token.Symbol? {
        if IsOpener(token.c) {
          closing := closing + [Closer(token.c)];
        } else if IsCloser(token.c) {
          if closing == [] {
            return Mismatched;
          }
          var top := closing[|closing| - 1];
          closing := closing[..|closing| - 1];
          if top != token.c {
            return Mismatched;
          }
        }
      }
    }
    assert tokens[|tokens|..] == [];
    r := if closing != [] then Unclosed else Accepted;
  }

  // ----- items are scanned without a trace -----

  lemma {:induction false} RunSkipsItem(x: Item, rest: seq<Token>, closing: seq<char>)
    requires ValidItem(x) && (closing == [] ==> x != Leaf(Name(TRAINING_INFO)))
    ensures Run(Tokens(x) + rest, closing) == Run(rest, closing)
    decreases x, 1
  {
    match x
    case Leaf(t) =>
      assert ([t] + rest)[1..] == rest;
    case Group(open, items) =>
      var close := Symbol(Closer(open));
      var inner := Flatten(items) + ([close] + rest);
      assert Tokens(x) + rest == [Symbol(open)] + inner;
      assert ([Symbol(open)] + inner)[1..] == inner;
      var within := closing + [Closer(open)];
      RunSkips(items, [close] + rest, within);
      assert ([close] + rest)[1..] == rest && within[..|within| - 1] == closing;
  }

  lemma {:induction false} RunSkips(xs: seq<Item>, rest: seq<Token>, closing: seq<char>)
    requires ValidItems(xs) && (closing == [] ==> CleanAtTop(xs))
    ensures Run(Flatten(xs) + rest, closing) == Run(rest, closing)
    decreases xs, 0
  {
    if xs == [] {
      assert Flatten(xs) + rest == rest;
    } else {
      var more := Flatten(xs[1..]) + rest;
      assert Flatten(xs) + rest == Tokens(xs[0]) + more;
      RunSkipsItem(xs[0], more, closing);
      RunSkips(xs[1..], rest, closing);
    }
  }

  // ----- what has been read, as the items of every open bracket -----

  datatype Reading = Bottom(items: seq<Item>) | Inside(below: Reading, open: char, items: seq<Item>)

  function Text(r: Reading): seq<Token> {
    match r
    case Bottom(items) => Flatten(items)
    case Inside(below, open, items) => Text(below) + [Symbol(open)] + Flatten(items)
  }

  function Closing(r: Reading): seq<char> {
    match r
    case Bottom(_) => []
    case Inside(below, open, _) => Closing(below) + [Closer(open)]
  }

  ghost predicate ValidReading(r: Reading) {
    match r
    case Bottom(items) => ValidItems(items) && CleanAtTop(items)
    case Inside(below, open, items) => IsOpener(open) && ValidItems(items) && ValidReading(below)
  }

  // One more item in the innermost open bracket.
  function Append(r: Reading, x: Item): Reading {
    match r
    case Bottom(items) => Bottom(items + [x])
    case Inside(below, open, items) => Inside(below, open, items + [x])
  }

  lemma {:induction false} FlattenAppend(xs: seq<Item>, x: Item)
    ensures Flatten(xs + [x]) == Flatten(xs) + Tokens(x)
    ensures ValidItems(xs + [x]) <==> ValidItems(xs) && ValidItem(x)
  {
    if xs == [] {
      assert (xs + [x])[1..] == [];
    } else {
      assert (xs + [x])[1..] == xs[1..] + [x];
      FlattenAppend(xs[1..], x);
    }
  }

  lemma {:induction false} AppendReads(r: Reading, x: Item)
    requires ValidReading(r) && ValidItem(x) && (r.Bottom? ==> x != Leaf(Name(TRAINING_INFO)))
    ensures ValidReading(Append(r, x)) && Text(Append(r, x)) == Text(r) + Tokens(x) &&
      Closing(Append(r, x)) == Closing(r)
  {
    FlattenAppend(r.items, x);
  }

  // Reading on to the point where the scan stops: all tokens consumed, or training_info in front at depth 0.
  lemma {:induction false} ReadOn(ts: seq<Token>, r: Reading) returns (items: seq<Item>, rest: seq<Token>)
    requires ValidReading(r) && (Run(ts, Closing(r)).Accepted? || Run(ts, Closing(r)).TrainingInfo?)
    ensures ValidItems(items) && CleanAtTop(items) && Text(r) + ts == Flatten(items) + rest
    ensures Run(ts, Closing(r)).Accepted? ==> rest == []
    ensures Run(ts, Closing(r)).TrainingInfo? ==> rest != [] && rest[0] == Name(TRAINING_INFO)
    decreases ts
  {
    if Closing(r) == [] && (ts == [] || ts[0] == Name(TRAINING_INFO)) {
      items, rest := r.items, ts;
    } else {
      var next, t := r, ts[0];
      if t.Symbol? && IsOpener(t.c) {
        next := Inside(r, t.c, []);
      } else if t.Symbol? && IsCloser(t.c) {
        var group := Group(r.open, r.items);
        AppendReads(r.below, group);
        next := Append(r.below, group);
        assert Closing(r)[..|Closing(r)| - 1] == Closing(r.below);
      } else {
        AppendReads(r, Leaf(t));
        next := Append(r, Leaf(t));
      }
      assert Text(next) == Text(r) + [t];
      items, rest := ReadOn(ts[1..], next);
      assert Text(r) + ts == Text(next) + ts[1..];
    }
  }

  // The scan accepts exactly the balanced texts with no training_info at depth 0.
  lemma {:induction false} ScanAcceptsCleanBalanced(ts: seq<Token>)
    ensures Run(ts, []).Accepted? <==> IsCleanBalanced(ts)
  {
    if Run(ts, []).Accepted? {
      var start := Bottom([]);
      assert Closing(start) == [] && Text(start) == [];
      var items, rest := ReadOn(ts, start);
      assert ts == [] + ts == Flatten(items) + rest == Flatten(items);
    }
    if IsCleanBalanced(ts) {
      var items :| ValidItems(items) && CleanAtTop(items) && Flatten(items) == ts;
      RunSkips(items, [], []);
      assert Flatten(items) + [] == ts;
    }
  }

  // It reports training_info exactly when that name follows such a text, whatever comes after it.
  lemma {:induction false} ScanFindsTrainingInfo(ts: seq<Token>)
    ensures Run(ts, []).TrainingInfo? <==>
      exists n | 0 <= n < |ts| :: IsCleanBalanced(ts[..n]) && ts[n] == Name(TRAINING_INFO)
  {
    if Run(ts, []).TrainingInfo? {
      var start := Bottom([]);
      assert Closing(start) == [] && Text(start) == [];
      var items, rest := ReadOn(ts, start);
      var n := |Flatten(items)|;
      assert ts == [] + ts == Flatten(items) + rest;
      assert ts[..n] == Flatten(items) && ts[n] == rest[0];
    }
    if n :| 0 <= n < |ts| && IsCleanBalanced(ts[..n]) && ts[n] == Name(TRAINING_INFO) {
      var items :| ValidItems(items) && CleanAtTop(items) && Flatten(items) == ts[..n];
      RunSkips(items, ts[n..], []);
      assert ts == Flatten(items) + ts[n..];
    }
  }
}
