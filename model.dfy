/**
 * Model: the chatter engine's second-order Markov model. Input is parsed into
 * symbols, the symbols are interned as ushort tokens, and every window of
 * three tokens is learned forward and, reversed, backward, in two tries. A
 * reply is seeded from the input, grown to the left from the backward trie
 * and to the right from the forward trie, and closed with the terminator.
 *
 * The tries are values (Trie.Node) held in the model's fields; Random.Next is
 * an oracle: draw(k) is the k-th number the generator hands out, and
 * Random.Next(n) is draw(k) % n.
 */
module ChatterModel {
  import opened Wrappers
  import opened BinaryFormat
  import opened Symbols
  import StringParser
  import opened SymbolTable
  import opened Trie

  const SoftCutoff: nat := 25
  const HardCutoff: nat := 100
  const Order: nat := 2

  function Min(a: int, b: int): int {
    if a < b then a else b
  }

  function Reverse(s: seq<ushort>): (r: seq<ushort>)
    ensures |r| == |s|
    ensures forall i :: 0 <= i < |s| ==> r[i] == s[|s| - 1 - i]
  {
    seq(|s|, i requires 0 <= i < |s| => s[|s| - 1 - i])
  }

  lemma ReverseCons(t: ushort, s: seq<ushort>)
    ensures Reverse([t] + s) == Reverse(s) + [t]
  {
    assert forall i :: 0 <= i < |s| + 1 ==> Reverse([t] + s)[i] == (Reverse(s) + [t])[i];
  }

  /** The o tokens from position j on. */
  function Window(tokens: seq<ushort>, j: nat, o: nat): (w: seq<ushort>)
    requires j + o <= |tokens|
    ensures |w| == o
  {
    tokens[j..j + o]
  }

  /** The tuple of Order + 1 tokens Learn associates from position j on. */
  function Tuple(tokens: seq<ushort>, j: nat): (w: seq<ushort>)
    requires j + Order + 1 <= |tokens|
    ensures |w| == Order + 1
  {
    tokens[j..j + Order + 1]
  }

  /** The first Order tokens reversed, then the terminator: the tuple Learn associates backward at i = Order - 1. */
  function StartTuple(tokens: seq<ushort>, term: ushort): seq<ushort>
    requires Order <= |tokens|
  {
    Reverse(tokens[..Order]) + [term]
  }

  /** The Order + 1 tokens ending at position k, reversed: the backward tuple for token k. */
  function BackwardTuple(tokens: seq<ushort>, k: nat): seq<ushort>
    requires Order <= k < |tokens|
  {
    Reverse(tokens[k - Order..k + 1])
  }

  /** Every token is below bound: an id the table has handed out. */
  predicate AllBelow(tokens: seq<ushort>, bound: nat) {
    forall j :: 0 <= j < |tokens| ==> tokens[j] < bound
  }

  /** The tuples Learn associates hold only tokens of the message and the terminator. */
  lemma TuplesBelow(tokens: seq<ushort>, term: ushort, bound: nat)
    requires AllBelow(tokens, bound) && term < bound
    ensures Order <= |tokens| ==> AllBelow(StartTuple(tokens, term), bound)
    ensures forall k :: Order <= k < |tokens| ==> AllBelow(BackwardTuple(tokens, k), bound)
  {
    if Order <= |tokens| {
      var r := Reverse(tokens[..Order]);
      assert AllBelow(r, bound);
      assert AllBelow(r + [term], bound);
    }
    forall k | Order <= k < |tokens|
      ensures AllBelow(BackwardTuple(tokens, k), bound)
    {
      assert AllBelow(tokens[k - Order..k + 1], bound);
    }
  }

  lemma AllBelowPrepend(t: ushort, s: seq<ushort>, bound: nat)
    requires t < bound && AllBelow(s, bound)
    ensures AllBelow([t] + s, bound)
  {
    forall j | 0 <= j < |[t] + s|
      ensures ([t] + s)[j] < bound
    {
      if j > 0 {
        assert ([t] + s)[j] == s[j - 1];
      }
    }
  }

  /** The seed at backed[b..] stays at b..|backed| once the reply grows forward and gets its terminator. */
  lemma SeedKept(backed: seq<ushort>, body: seq<ushort>, b: nat, seed: seq<ushort>)
    requires b <= |backed| <= |body| && body[..|backed|] == backed && backed[b..] == seed
    ensures body[b..|backed|] == seed
  {
    forall i | b <= i < |backed|
      ensures body[i] == seed[i - b]
    {
      assert body[..|backed|][i] == backed[i];
    }
  }

  lemma AllBelowAppend(s: seq<ushort>, t: ushort, bound: nat)
    requires t < bound && AllBelow(s, bound)
    ensures AllBelow(s + [t], bound)
  {
    forall j | 0 <= j < |s + [t]|
      ensures (s + [t])[j] < bound
    {
      if j < |s| {
        assert (s + [t])[j] == s[j];
      }
    }
  }

  /** A trie the model can hold: sorted, with every token an id below bound. */
  predicate WellFormedTrie(n: Node, bound: nat) {
    Sorted(n) && TokensBelow(n, bound)
  }

  /** The token at t is the terminator (an id outside the table is not). */
  predicate TerminateAt(store: seq<Symbol>, t: ushort) {
    t < |store| && store[t].Terminate?
  }

  /** The token at t is a sentence-ending punctuation mark. */
  predicate EndsSentenceAt(store: seq<Symbol>, t: ushort) {
    t < |store| && IsTerminatingPunctuation(store[t])
  }

  // ---------------------------------------------------------------------------
  // Associate and Find
  // ---------------------------------------------------------------------------

  /** Model.Associate: FindOrAdd each token in turn, descending into the child it yields. */
  method Associate(root: Node, tokens: seq<ushort>) returns (r: Node)
    requires Sorted(root)
    ensures r == Insert(root, tokens)
    decreases |tokens|
  {
    if |tokens| == 0 {
      return root;
    }
    var w, i := FindOrAdd(root, tokens[0]);
    WithChildSorted(root, tokens[0]);
    assert w.children[i] in w.children;
    var c := Associate(w.children[i], tokens[1..]);
    r := Node(w.token, w.children[i := c]);
  }

  /** Model.Find: follow the tokens from the root; None (null) as soon as a step is missing. */
  method FindPath(root: Node, tokens: seq<ushort>) returns (r: Option<Node>)
    requires Sorted(root)
    ensures r == Walk(root, tokens)
  {
    var node := root;
    var i := 0;
    while i < |tokens|
      invariant 0 <= i <= |tokens|
      invariant Sorted(node)
      invariant Walk(root, tokens) == Walk(node, tokens[i..])
    {
      assert tokens[i..][1..] == tokens[i + 1..];
      var next := Trie.Find(node, tokens[i]);
      if next.None? {
        return None;
      }
      node := next.value;
      i := i + 1;
    }
    assert tokens[i..] == [];
    return Some(node);
  }

  /** GetNextToken: the token of the child a draw from Random.Next(branch) picks. */
  function NextToken(n: Node, draw: nat): (t: ushort)
    requires |n.children| > 0
    ensures HasChild(n, t)
  {
    var c := n.children[draw % |n.children|];
    assert IndexOfToken(n.children, c.token) <= draw % |n.children|;
    c.token
  }

  /** The token a draw picks after path: None when the path is missing or ends in a leaf. */
  function Pick(root: Node, path: seq<ushort>, draw: nat): Option<ushort> {
    match Walk(root, path)
    case None => None
    case Some(n) => if |n.children| == 0 then None else Some(NextToken(n, draw))
  }

  /** A picked token continues the path in the trie, and is an id the table handed out. */
  lemma PickExtends(root: Node, path: seq<ushort>, draw: nat, bound: nat)
    requires Sorted(root) && TokensBelow(root, bound)
    requires Pick(root, path, draw).Some?
    ensures Contains(root, path + [Pick(root, path, draw).value])
    ensures Pick(root, path, draw).value < bound
  {
    var n := Walk(root, path).value;
    WalkKeepsInvariants(root, path, bound);
    var c := n.children[draw % |n.children|];
    assert c in n.children;
    WalkExtends(root, path, c);
  }

  // ---------------------------------------------------------------------------
  // What Learn associates
  // ---------------------------------------------------------------------------

  /** The forward tuples of Learn's first i iterations: each window of Order + 1 tokens. */
  function ForwardPathsTo(tokens: seq<ushort>, i: nat): seq<seq<ushort>>
    requires i <= |tokens|
  {
    if i == 0 then []
    else ForwardPathsTo(tokens, i - 1) + (if i + Order <= |tokens| then [Tuple(tokens, i - 1)] else [])
  }

  function ForwardPaths(tokens: seq<ushort>): seq<seq<ushort>> {
    ForwardPathsTo(tokens, |tokens|)
  }

  /**
   * The backward tuples of Learn's first i iterations: the first Order tokens
   * reversed and then the terminator, and each window that does not end in the
   * terminator, reversed.
   */
  function BackwardPathsTo(tokens: seq<ushort>, store: seq<Symbol>, term: ushort, i: nat): seq<seq<ushort>>
    requires i <= |tokens|
  {
    if i == 0 then []
    else
      var k := i - 1;
      BackwardPathsTo(tokens, store, term, k)
      + (if k == Order - 1 then [StartTuple(tokens, term)] else [])
      + (if k >= Order && !TerminateAt(store, tokens[k]) then [BackwardTuple(tokens, k)] else [])
  }

  function BackwardPaths(tokens: seq<ushort>, store: seq<Symbol>, term: ushort): seq<seq<ushort>> {
    BackwardPathsTo(tokens, store, term, |tokens|)
  }

  /** One more iteration of Learn's loop, forward. */
  lemma ForwardStep(n: Node, tokens: seq<ushort>, i: nat)
    requires i < |tokens|
    ensures InsertAll(n, ForwardPathsTo(tokens, i + 1)) ==
      if i + Order < |tokens| then Insert(InsertAll(n, ForwardPathsTo(tokens, i)), Tuple(tokens, i))
      else InsertAll(n, ForwardPathsTo(tokens, i))
  {
    var fs := ForwardPathsTo(tokens, i);
    if i + Order < |tokens| {
      assert (fs + [Tuple(tokens, i)])[..|fs|] == fs;
    } else {
      assert fs + [] == fs;
    }
  }

  /** One more iteration of Learn's loop, backward: at most one of the two tuples applies. */
  lemma BackwardStep(n: Node, tokens: seq<ushort>, store: seq<Symbol>, term: ushort, i: nat)
    requires i < |tokens|
    ensures InsertAll(n, BackwardPathsTo(tokens, store, term, i + 1)) ==
      if i == Order - 1 then Insert(InsertAll(n, BackwardPathsTo(tokens, store, term, i)), StartTuple(tokens, term))
      else if i >= Order && !TerminateAt(store, tokens[i]) then Insert(InsertAll(n, BackwardPathsTo(tokens, store, term, i)), BackwardTuple(tokens, i))
      else InsertAll(n, BackwardPathsTo(tokens, store, term, i))
  {
    var bs := BackwardPathsTo(tokens, store, term, i);
    if i == Order - 1 {
      var x := StartTuple(tokens, term);
      assert BackwardPathsTo(tokens, store, term, i + 1) == bs + [x];
      assert (bs + [x])[..|bs|] == bs;
    } else if i >= Order && !TerminateAt(store, tokens[i]) {
      var x := BackwardTuple(tokens, i);
      assert BackwardPathsTo(tokens, store, term, i + 1) == bs + [x];
      assert (bs + [x])[..|bs|] == bs;
    } else {
      assert BackwardPathsTo(tokens, store, term, i + 1) == bs;
    }
  }

  /** Each window that starts before i is among the forward tuples of the first i iterations. */
  lemma {:induction false} WindowInForwardPaths(tokens: seq<ushort>, i: nat, j: nat)
    requires j < i <= |tokens| && j + Order + 1 <= |tokens|
    ensures Tuple(tokens, j) in ForwardPathsTo(tokens, i)
    decreases i
  {
    var prev := ForwardPathsTo(tokens, i - 1);
    var extra := if i + Order <= |tokens| then [Tuple(tokens, i - 1)] else [];
    assert ForwardPathsTo(tokens, i) == prev + extra;
    if j < i - 1 {
      WindowInForwardPaths(tokens, i - 1, j);
    } else {
      assert Tuple(tokens, j) in extra;
    }
  }

  /** Each forward tuple of the first i iterations is the window at some j before i. */
  lemma {:induction false} ForwardPathWindow(tokens: seq<ushort>, i: nat, p: seq<ushort>) returns (j: nat)
    requires i <= |tokens| && p in ForwardPathsTo(tokens, i)
    ensures j < i && j + Order + 1 <= |tokens| && p == Tuple(tokens, j)
    decreases i
  {
    var prev := ForwardPathsTo(tokens, i - 1);
    var extra := if i + Order <= |tokens| then [Tuple(tokens, i - 1)] else [];
    assert ForwardPathsTo(tokens, i) == prev + extra;
    if p in prev {
      j := ForwardPathWindow(tokens, i - 1, p);
    } else {
      j := i - 1;
    }
  }

  /** The forward tuples are exactly the windows of three consecutive tokens. */
  lemma ForwardPathsToAreWindows(tokens: seq<ushort>, i: nat, p: seq<ushort>)
    requires i <= |tokens|
    ensures p in ForwardPathsTo(tokens, i) <==> exists j :: 0 <= j < i && j + Order + 1 <= |tokens| && p == Tuple(tokens, j)
  {
    if p in ForwardPathsTo(tokens, i) {
      var j := ForwardPathWindow(tokens, i, p);
    }
    if exists j :: 0 <= j < i && j + Order + 1 <= |tokens| && p == Tuple(tokens, j) {
      var j :| 0 <= j < i && j + Order + 1 <= |tokens| && p == Tuple(tokens, j);
      WindowInForwardPaths(tokens, i, j);
    }
  }

  lemma ForwardPathsAreWindows(tokens: seq<ushort>, p: seq<ushort>)
    ensures p in ForwardPaths(tokens) <==> exists j :: 0 <= j && j + Order + 1 <= |tokens| && p == Tuple(tokens, j)
  {
    ForwardPathsToAreWindows(tokens, |tokens|, p);
  }

  /** With Order = 2, the backward tuple for token k is that token and the two before it, latest first. */
  lemma BackwardTupleIs(tokens: seq<ushort>, k: nat)
    requires Order <= k < |tokens|
    ensures BackwardTuple(tokens, k) == [tokens[k], tokens[k - 1], tokens[k - 2]]
  {
  }

  /** The steps of BackwardPathsTo: what the iteration for token i - 1 appends. */
  lemma BackwardPathsToLast(tokens: seq<ushort>, store: seq<Symbol>, term: ushort, i: nat)
    requires 0 < i <= |tokens|
    ensures BackwardPathsTo(tokens, store, term, i) ==
      BackwardPathsTo(tokens, store, term, i - 1)
      + (if i - 1 == Order - 1 then [[tokens[1], tokens[0], term]] else [])
      + (if i - 1 >= Order && !TerminateAt(store, tokens[i - 1]) then [[tokens[i - 1], tokens[i - 2], tokens[i - 3]]] else [])
  {
    var k := i - 1;
    if k == Order - 1 {
      assert StartTuple(tokens, term) == [tokens[1], tokens[0], term];
    }
    if k >= Order {
      assert BackwardTuple(tokens, k) == [tokens[k], tokens[k - 1], tokens[k - 2]];
    }
  }

  /** Once Order tokens are seen, the reversed start with the terminator is among the backward tuples. */
  lemma {:induction false} StartInBackwardPaths(tokens: seq<ushort>, store: seq<Symbol>, term: ushort, i: nat)
    requires Order <= i <= |tokens|
    ensures [tokens[1], tokens[0], term] in BackwardPathsTo(tokens, store, term, i)
    decreases i
  {
    BackwardPathsToLast(tokens, store, term, i);
    if i > Order {
      StartInBackwardPaths(tokens, store, term, i - 1);
    }
  }

  /** The reversed window ending at k, when its token is not the terminator, is among the backward tuples after k. */
  lemma {:induction false} TupleInBackwardPaths(tokens: seq<ushort>, store: seq<Symbol>, term: ushort, i: nat, k: nat)
    requires Order <= k < i <= |tokens| && !TerminateAt(store, tokens[k])
    ensures [tokens[k], tokens[k - 1], tokens[k - 2]] in BackwardPathsTo(tokens, store, term, i)
    decreases i
  {
    BackwardPathsToLast(tokens, store, term, i);
    if k < i - 1 {
      TupleInBackwardPaths(tokens, store, term, i - 1, k);
    }
  }

  /** Each backward tuple is the reversed start, or the reversed window ending at some k whose token is not the terminator. */
  lemma {:induction false} BackwardPathSource(tokens: seq<ushort>, store: seq<Symbol>, term: ushort, i: nat, p: seq<ushort>)
    returns (start: bool, k: nat)
    requires i <= |tokens| && p in BackwardPathsTo(tokens, store, term, i)
    ensures start ==> i >= Order && p == [tokens[1], tokens[0], term]
    ensures !start ==> Order <= k < i && !TerminateAt(store, tokens[k]) && p == [tokens[k], tokens[k - 1], tokens[k - 2]]
    decreases i
  {
    BackwardPathsToLast(tokens, store, term, i);
    if p in BackwardPathsTo(tokens, store, term, i - 1) {
      start, k := BackwardPathSource(tokens, store, term, i - 1, p);
    } else if i - 1 == Order - 1 && p == [tokens[1], tokens[0], term] {
      start, k := true, 0;
    } else {
      start, k := false, i - 1;
    }
  }

  /** The backward tuples are the reversed start with the terminator, and the reversed windows not ending in it. */
  lemma BackwardPathsToAre(tokens: seq<ushort>, store: seq<Symbol>, term: ushort, i: nat, p: seq<ushort>)
    requires i <= |tokens|
    ensures p in BackwardPathsTo(tokens, store, term, i) <==>
      (i >= Order && p == [tokens[1], tokens[0], term]) ||
      exists k :: Order <= k < i && !TerminateAt(store, tokens[k]) && p == BackwardTuple(tokens, k)
  {
    if p in BackwardPathsTo(tokens, store, term, i) {
      var start, k := BackwardPathSource(tokens, store, term, i, p);
      if !start {
        BackwardTupleIs(tokens, k);
      }
    }
    if i >= Order && p == [tokens[1], tokens[0], term] {
      StartInBackwardPaths(tokens, store, term, i);
    }
    if exists k :: Order <= k < i && !TerminateAt(store, tokens[k]) && p == BackwardTuple(tokens, k) {
      var k :| Order <= k < i && !TerminateAt(store, tokens[k]) && p == BackwardTuple(tokens, k);
      BackwardTupleIs(tokens, k);
      TupleInBackwardPaths(tokens, store, term, i, k);
    }
  }

  lemma BackwardPathsAre(tokens: seq<ushort>, store: seq<Symbol>, term: ushort, p: seq<ushort>)
    requires |tokens| >= Order + 1
    ensures p in BackwardPaths(tokens, store, term) <==>
      p == [tokens[1], tokens[0], term] ||
      exists k :: Order <= k < |tokens| && !TerminateAt(store, tokens[k]) && p == BackwardTuple(tokens, k)
  {
    BackwardPathsToAre(tokens, store, term, |tokens|, p);
  }

  /** After learning, every window of the input is a path of the forward trie. */
  lemma LearnedWindows(n: Node, tokens: seq<ushort>, j: nat)
    requires j + Order + 1 <= |tokens|
    ensures Contains(InsertAll(n, ForwardPaths(tokens)), Tuple(tokens, j))
  {
    ForwardPathsAreWindows(tokens, Tuple(tokens, j));
    InsertAllContains(n, ForwardPaths(tokens));
  }

  /** Learning adds nothing to the forward trie but the windows of the input and their prefixes. */
  lemma LearnedOnlyWindows(n: Node, tokens: seq<ushort>, q: seq<ushort>)
    requires Contains(InsertAll(n, ForwardPaths(tokens)), q)
    ensures Contains(n, q) || exists j :: 0 <= j && j + Order + 1 <= |tokens| && q <= Tuple(tokens, j)
  {
    InsertAllOnlyAdds(n, ForwardPaths(tokens), q);
    if !Contains(n, q) {
      var p :| p in ForwardPaths(tokens) && q <= p;
      ForwardPathsAreWindows(tokens, p);
    }
  }

  /** After learning, each reversed window that does not end a sentence is a path of the backward trie. */
  lemma LearnedReversedWindows(n: Node, tokens: seq<ushort>, store: seq<Symbol>, term: ushort, k: nat)
    requires |tokens| >= Order + 1
    requires Order <= k < |tokens| && !TerminateAt(store, tokens[k])
    ensures Contains(InsertAll(n, BackwardPaths(tokens, store, term)), [tokens[k], tokens[k - 1], tokens[k - 2]])
  {
    BackwardTupleIs(tokens, k);
    BackwardPathsAre(tokens, store, term, [tokens[k], tokens[k - 1], tokens[k - 2]]);
    InsertAllContains(n, BackwardPaths(tokens, store, term));
  }

  /** After learning, the reversed start of the input followed by the terminator is a backward path. */
  lemma LearnedStart(n: Node, tokens: seq<ushort>, store: seq<Symbol>, term: ushort)
    requires |tokens| >= Order + 1
    ensures Contains(InsertAll(n, BackwardPaths(tokens, store, term)), [tokens[1], tokens[0], term])
  {
    BackwardPathsAre(tokens, store, term, [tokens[1], tokens[0], term]);
    InsertAllContains(n, BackwardPaths(tokens, store, term));
  }

  /** Learning the same tokens a second time changes neither trie. */
  lemma LearnTwice(f: Node, b: Node, tokens: seq<ushort>, store: seq<Symbol>, term: ushort)
    ensures InsertAll(InsertAll(f, ForwardPaths(tokens)), ForwardPaths(tokens)) == InsertAll(f, ForwardPaths(tokens))
    ensures InsertAll(InsertAll(b, BackwardPaths(tokens, store, term)), BackwardPaths(tokens, store, term))
         == InsertAll(b, BackwardPaths(tokens, store, term))
  {
    InsertAllTwice(f, ForwardPaths(tokens));
    InsertAllTwice(b, BackwardPaths(tokens, store, term));
  }

  // ---------------------------------------------------------------------------
  // SeedReply
  // ---------------------------------------------------------------------------

  /** The first window of o tokens from position i on that is a forward path. */
  function FindWindow(root: Node, tokens: seq<ushort>, o: nat, i: nat): (r: Option<nat>)
    ensures r.Some? ==> i <= r.value && r.value + o <= |tokens| && Contains(root, Window(tokens, r.value, o))
    ensures r.Some? ==> forall k :: i <= k < r.value ==> !Contains(root, Window(tokens, k, o))
    ensures r.None? ==> forall k :: i <= k && k + o <= |tokens| ==> !Contains(root, Window(tokens, k, o))
    decreases |tokens| - i
  {
    if i + o > |tokens| then None
    else if Contains(root, Window(tokens, i, o)) then Some(i)
    else FindWindow(root, tokens, o, i + 1)
  }

  /**
   * SeedReply from order o down: the first window of the longest order that
   * the forward trie knows, else one child of the root picked by the draw,
   * else nothing.
   */
  function Seed(root: Node, tokens: seq<ushort>, o: nat, draw: nat): seq<ushort>
    decreases o
  {
    if o == 0 then (if |root.children| > 0 then [NextToken(root, draw)] else [])
    else
      match FindWindow(root, tokens, o, 0)
      case Some(i) => Window(tokens, i, o)
      case None => Seed(root, tokens, o - 1, draw)
  }

  /** A path of one or more tokens exists only below a root with children. */
  lemma ContainsNeedsChildren(root: Node, path: seq<ushort>)
    requires |path| > 0 && Contains(root, path)
    ensures |root.children| > 0
  {
  }

  /** The seed is empty exactly when the forward trie is; otherwise it is a forward path of at most o tokens (one at least). */
  lemma {:induction false} SeedIsKnown(root: Node, tokens: seq<ushort>, o: nat, draw: nat)
    ensures Seed(root, tokens, o, draw) == [] <==> |root.children| == 0
    ensures Seed(root, tokens, o, draw) != [] ==> Contains(root, Seed(root, tokens, o, draw))
    ensures |Seed(root, tokens, o, draw)| <= if o == 0 then 1 else o
    decreases o
  {
    if o == 0 {
      if |root.children| > 0 {
        var t := NextToken(root, draw);
        assert Walk(root, [t]) == Walk(FindChild(root, t).value, []);
      }
    } else {
      match FindWindow(root, tokens, o, 0)
      case Some(i) =>
        ContainsNeedsChildren(root, Window(tokens, i, o));
      case None =>
        SeedIsKnown(root, tokens, o - 1, draw);
    }
  }

  /**
   * A non-empty seed is a window of the input, or, when no token of the input
   * starts a forward path, the root child the draw picks.
   */
  lemma {:induction false} SeedSource(root: Node, tokens: seq<ushort>, o: nat, draw: nat)
    requires o >= 1
    ensures var s := Seed(root, tokens, o, draw);
      s == [] ||
      (exists i :: 0 <= i && i + |s| <= |tokens| && s == Window(tokens, i, |s|)) ||
      (|root.children| > 0 && s == [NextToken(root, draw)] && forall k :: 0 <= k < |tokens| ==> !Contains(root, [tokens[k]]))
    decreases o
  {
    match FindWindow(root, tokens, o, 0)
    case Some(i) =>
      assert Seed(root, tokens, o, draw) == Window(tokens, i, o);
    case None =>
      if o > 1 {
        SeedSource(root, tokens, o - 1, draw);
      } else {
        forall k | 0 <= k < |tokens|
          ensures !Contains(root, [tokens[k]])
        {
          assert Window(tokens, k, 1) == [tokens[k]];
        }
      }
  }

  /** Associate on a well-formed trie: it stays sorted and its ids stay below bound. */
  method AssociateBelow(root: Node, path: seq<ushort>, bound: nat) returns (r: Node)
    requires WellFormedTrie(root, bound) && AllBelow(path, bound)
    ensures r == Insert(root, path)
    ensures WellFormedTrie(r, bound)
  {
    InsertSorted(root, path);
    InsertTokensBelow(root, path, bound);
    r := Associate(root, path);
  }

  /**
   * The forward half of Learn's loop body for token i: associates the tuple
   * starting at i, so the trie learned from start holds the tuples of one more
   * iteration.
   */
  method LearnForward(ghost start: Node, f: Node, tokens: seq<ushort>, bound: nat, i: nat) returns (f': Node)
    requires i < |tokens| && AllBelow(tokens, bound) && WellFormedTrie(f, bound)
    requires f == InsertAll(start, ForwardPathsTo(tokens, i))
    ensures WellFormedTrie(f', bound)
    ensures f' == InsertAll(start, ForwardPathsTo(tokens, i + 1))
  {
    ForwardStep(start, tokens, i);
    f' := f;
    if i + Order < |tokens| {
      f' := AssociateBelow(f', tokens[i..i + Order + 1], bound);
    }
  }

  /**
   * The backward half of Learn's loop body for token i: associates the
   * reversed start with the terminator at i = Order - 1, and the reversed tuple
   * ending at i when its token is not the terminator.
   */
  method LearnBackward(ghost start: Node, b: Node, tokens: seq<ushort>, store: seq<Symbol>, term: ushort, i: nat)
    returns (b': Node)
    requires i < |tokens| && AllBelow(tokens, |store|) && term < |store| && WellFormedTrie(b, |store|)
    requires b == InsertAll(start, BackwardPathsTo(tokens, store, term, i))
    ensures WellFormedTrie(b', |store|)
    ensures b' == InsertAll(start, BackwardPathsTo(tokens, store, term, i + 1))
  {
    BackwardStep(start, tokens, store, term, i);
    TuplesBelow(tokens, term, |store|);
    b' := b;
    if i == Order - 1 {
      var reverseTerminator := StartTuple(tokens, term);
      b' := AssociateBelow(b', reverseTerminator, |store|);
    }
    if i >= Order && !store[tokens[i]].Terminate? {
      b' := AssociateBelow(b', BackwardTuple(tokens, i), |store|);
    }
  }

  /** The loop of Model.Learn over the tokens, on the two tries. */
  method LearnTries(f: Node, b: Node, tokens: seq<ushort>, store: seq<Symbol>, term: ushort) returns (f': Node, b': Node)
    requires AllBelow(tokens, |store|) && term < |store|
    requires WellFormedTrie(f, |store|) && WellFormedTrie(b, |store|)
    ensures WellFormedTrie(f', |store|) && WellFormedTrie(b', |store|)
    ensures f' == InsertAll(f, ForwardPaths(tokens))
    ensures b' == InsertAll(b, BackwardPaths(tokens, store, term))
  {
    f', b' := f, b;
    var i := 0;
    while i < |tokens|
      invariant 0 <= i <= |tokens|
      invariant WellFormedTrie(f', |store|) && WellFormedTrie(b', |store|)
      invariant f' == InsertAll(f, ForwardPathsTo(tokens, i))
      invariant b' == InsertAll(b, BackwardPathsTo(tokens, store, term, i))
    {
      f' := LearnForward(f, f', tokens, |store|, i);
      b' := LearnBackward(b, b', tokens, store, term, i);
      i := i + 1;
    }
  }

  // ---------------------------------------------------------------------------
  // The chain Reply grows
  // ---------------------------------------------------------------------------

  /** AddWordForward's context: the last Order tokens of the reply, all of them when fewer. */
  function ForwardContext(reply: seq<ushort>): seq<ushort> {
    reply[|reply| - Min(Order, |reply|)..]
  }

  /** AddWordBackward's context: the first Order tokens of the reply, reversed. */
  function BackwardContext(reply: seq<ushort>): seq<ushort> {
    Reverse(reply[..Min(Order, |reply|)])
  }

  /**
   * The path the token at j was drawn after, in the backward trie: the token
   * and the up to Order tokens that follow it before position e, reversed.
   */
  function BackwardStepPath(body: seq<ushort>, j: nat, e: nat): (p: seq<ushort>)
    requires j < e <= |body|
    ensures |p| == Min(Order + 1, e - j) && p[|p| - 1] == body[j]
  {
    Reverse(body[j..Min(j + Order + 1, e)])
  }

  /** The path the token at j was drawn after, in the forward trie: the up to Order tokens before it, then the token. */
  function ForwardStepPath(body: seq<ushort>, j: nat): (p: seq<ushort>)
    requires j < |body|
    ensures |p| == Min(Order, j) + 1 && p[|p| - 1] == body[j]
  {
    body[j - Min(Order, j)..j + 1]
  }

  /**
   * Each token before position b was drawn from the backward trie after the
   * reversed tokens that followed it (as far as position e), and neither
   * terminates the reply nor ends a sentence.
   */
  predicate BackwardChain(bwd: Node, store: seq<Symbol>, body: seq<ushort>, b: nat, e: nat)
    requires b < e <= |body|
  {
    forall j :: 0 <= j < b ==>
      Contains(bwd, BackwardStepPath(body, j, e)) && !TerminateAt(store, body[j]) && !EndsSentenceAt(store, body[j])
  }

  /** Each token from position e on was drawn from the forward trie after the Order tokens before it, and is not the terminator. */
  predicate ForwardChain(fwd: Node, store: seq<Symbol>, body: seq<ushort>, e: nat)
    requires e <= |body|
  {
    forall j :: e <= j < |body| ==> Contains(fwd, ForwardStepPath(body, j)) && !TerminateAt(store, body[j])
  }

  /** A reply body: the seed body[b..e], grown backward before it and forward after it. */
  predicate Chain(fwd: Node, bwd: Node, store: seq<Symbol>, body: seq<ushort>, b: nat, e: nat) {
    b < e <= |body| && BackwardChain(bwd, store, body, b, e) && ForwardChain(fwd, store, body, e)
  }

  /**
   * AddWordForward stops after the first sentence-ending token once the reply
   * has SoftCutoff tokens: no token after position e but the last one does.
   */
  predicate SoftStop(store: seq<Symbol>, body: seq<ushort>, e: nat) {
    forall j :: e <= j < |body| - 1 ==> !(j + 1 >= SoftCutoff && EndsSentenceAt(store, body[j]))
  }

  /** No token of body after position e ends a sentence past the soft cutoff. */
  predicate NoSoftStop(store: seq<Symbol>, body: seq<ushort>, e: nat) {
    forall j :: e <= j < |body| ==> !(j + 1 >= SoftCutoff && EndsSentenceAt(store, body[j]))
  }

  lemma SoftStopAppend(store: seq<Symbol>, body: seq<ushort>, e: nat, t: ushort)
    requires NoSoftStop(store, body, e)
    ensures SoftStop(store, body + [t], e)
    ensures !(|body| + 1 >= SoftCutoff && EndsSentenceAt(store, t)) ==> NoSoftStop(store, body + [t], e)
  {
    forall j | e <= j < |body|
      ensures (body + [t])[j] == body[j]
    {
    }
  }

  /** Why AddWordBackward adds nothing to body with this draw: no token follows, or it may not start the reply. */
  predicate BackwardStopped(bwd: Node, store: seq<Symbol>, body: seq<ushort>, draw: nat) {
    var p := Pick(bwd, BackwardContext(body), draw);
    p.None? || TerminateAt(store, p.value) || EndsSentenceAt(store, p.value)
  }

  /**
   * Why AddWordForward asks for no more: the token it appended after position
   * e ends a sentence past the soft cutoff, or with this draw no token follows
   * body but the terminator.
   */
  predicate ForwardStopped(fwd: Node, store: seq<Symbol>, body: seq<ushort>, e: nat, draw: nat) {
    || (|body| > e && |body| >= SoftCutoff && EndsSentenceAt(store, body[|body| - 1]))
    || (var p := Pick(fwd, ForwardContext(body), draw); p.None? || TerminateAt(store, p.value))
  }

  lemma BackwardStepPathPrepend(r: seq<ushort>, t: ushort, j: nat, e: nat)
    requires j < e <= |r|
    ensures BackwardStepPath([t] + r, j + 1, e + 1) == BackwardStepPath(r, j, e)
  {
    assert ([t] + r)[j + 1..Min(j + 1 + Order + 1, e + 1)] == r[j..Min(j + Order + 1, e)];
  }

  lemma BackwardStepPathAppend(r: seq<ushort>, t: ushort, j: nat, e: nat)
    requires j < e <= |r|
    ensures BackwardStepPath(r + [t], j, e) == BackwardStepPath(r, j, e)
  {
    assert (r + [t])[j..Min(j + Order + 1, e)] == r[j..Min(j + Order + 1, e)];
  }

  lemma ForwardStepPathAppend(r: seq<ushort>, t: ushort, j: nat)
    requires j < |r|
    ensures ForwardStepPath(r + [t], j) == ForwardStepPath(r, j)
  {
    assert (r + [t])[j - Min(Order, j)..j + 1] == r[j - Min(Order, j)..j + 1];
  }

  /** The token AddWordBackward puts in front of the reply was drawn after the backward context. */
  lemma BackwardStepPathFront(r: seq<ushort>, t: ushort)
    requires |r| >= 1
    ensures BackwardStepPath([t] + r, 0, |r| + 1) == BackwardContext(r) + [t]
  {
    var o := Min(Order, |r|);
    ReverseCons(t, r[..o]);
    assert ([t] + r)[0..Min(0 + Order + 1, |r| + 1)] == [t] + r[..o];
  }

  lemma BackwardChainPrepend(bwd: Node, store: seq<Symbol>, r: seq<ushort>, b: nat, t: ushort)
    requires b < |r| && BackwardChain(bwd, store, r, b, |r|)
    requires Contains(bwd, BackwardContext(r) + [t])
    requires !TerminateAt(store, t) && !EndsSentenceAt(store, t)
    ensures BackwardChain(bwd, store, [t] + r, b + 1, |r| + 1)
  {
    var r' := [t] + r;
    forall j | 0 <= j < b + 1
      ensures Contains(bwd, BackwardStepPath(r', j, |r'|)) && !TerminateAt(store, r'[j]) && !EndsSentenceAt(store, r'[j])
    {
      if j == 0 {
        BackwardStepPathFront(r, t);
        assert r'[0] == t;
      } else {
        BackwardStepPathPrepend(r, t, j - 1, |r|);
        assert r'[j] == r[j - 1];
      }
    }
  }

  lemma BackwardChainAppend(bwd: Node, store: seq<Symbol>, r: seq<ushort>, b: nat, e: nat, t: ushort)
    requires b < e <= |r| && BackwardChain(bwd, store, r, b, e)
    ensures BackwardChain(bwd, store, r + [t], b, e)
  {
    forall j | 0 <= j < b
      ensures Contains(bwd, BackwardStepPath(r + [t], j, e)) && !TerminateAt(store, (r + [t])[j]) && !EndsSentenceAt(store, (r + [t])[j])
    {
      BackwardStepPathAppend(r, t, j, e);
    }
  }

  lemma ForwardChainAppend(fwd: Node, store: seq<Symbol>, r: seq<ushort>, e: nat, t: ushort)
    requires e <= |r| && ForwardChain(fwd, store, r, e)
    requires Contains(fwd, ForwardContext(r) + [t]) && !TerminateAt(store, t)
    ensures ForwardChain(fwd, store, r + [t], e)
  {
    var r' := r + [t];
    assert ForwardStepPath(r', |r|) == ForwardContext(r) + [t];
    forall j | e <= j < |r|
      ensures Contains(fwd, ForwardStepPath(r', j)) && !TerminateAt(store, r'[j])
    {
      ForwardStepPathAppend(r, t, j);
    }
  }

  /** The symbols a list of tokens stands for. */
  function SymbolsAt(store: seq<Symbol>, tokens: seq<ushort>): (r: seq<Symbol>)
    requires forall i :: 0 <= i < |tokens| ==> tokens[i] < |store|
    ensures |r| == |tokens| && forall i :: 0 <= i < |tokens| ==> r[i] == store[tokens[i]]
  {
    seq(|tokens|, i requires 0 <= i < |tokens| => store[tokens[i]])
  }

  // ---------------------------------------------------------------------------
  // Growing a reply
  // ---------------------------------------------------------------------------

  /**
   * AddWordForward: draws the token that follows the last Order tokens of the
   * reply in the forward trie and appends it, unless there is none or it is
   * the terminator. It asks for more unless it appended nothing or, past the
   * soft cutoff, appended a sentence end.
   */
  method AddWordForward(fwd: Node, store: seq<Symbol>, reply: seq<ushort>, draw: nat) returns (reply': seq<ushort>, more: bool)
    requires WellFormedTrie(fwd, |store|)
    ensures reply' == reply || (|reply'| == |reply| + 1 && reply' == reply + [reply'[|reply|]])
    ensures reply' == reply <==> var p := Pick(fwd, ForwardContext(reply), draw); p.None? || TerminateAt(store, p.value)
    ensures reply' != reply ==> var t := reply'[|reply|];
      && Pick(fwd, ForwardContext(reply), draw) == Some(t) && !TerminateAt(store, t)
      && Contains(fwd, ForwardContext(reply) + [t]) && t < |store|
    ensures more <==> reply' != reply && !(|reply'| >= SoftCutoff && EndsSentenceAt(store, reply'[|reply|]))
  {
    var o := Min(Order, |reply|);
    var n := FindPath(fwd, reply[|reply| - o..]);
    if n.None? || |n.value.children| < 1 {
      return reply, false;
    }
    var t := NextToken(n.value, draw);
    PickExtends(fwd, ForwardContext(reply), draw, |store|);
    if store[t].Terminate? {
      return reply, false;
    }
    reply' := reply + [t];
    more := !(|reply'| >= SoftCutoff && IsTerminatingPunctuation(store[t]));
  }

  /**
   * AddWordBackward: draws the token that precedes the first Order tokens of
   * the reply in the backward trie and puts it in front, unless there is
   * none or it is the terminator or a sentence end; it asks for more exactly
   * when it added a token.
   */
  method AddWordBackward(bwd: Node, store: seq<Symbol>, reply: seq<ushort>, draw: nat) returns (reply': seq<ushort>, more: bool)
    requires WellFormedTrie(bwd, |store|)
    ensures !more ==> reply' == reply && BackwardStopped(bwd, store, reply, draw)
    ensures more ==> |reply'| == |reply| + 1 && var t := reply'[0];
      && reply' == [t] + reply
      && Pick(bwd, BackwardContext(reply), draw) == Some(t) && !TerminateAt(store, t) && !EndsSentenceAt(store, t)
      && Contains(bwd, BackwardContext(reply) + [t]) && t < |store|
  {
    var o := Min(Order, |reply|);
    var n := FindPath(bwd, Reverse(reply[..o]));
    if n.None? || |n.value.children| < 1 {
      return reply, false;
    }
    var t := NextToken(n.value, draw);
    PickExtends(bwd, BackwardContext(reply), draw, |store|);
    if store[t].Terminate? || IsTerminatingPunctuation(store[t]) {
      return reply, false;
    }
    return [t] + reply, true;
  }

  /**
   * SeedReply: from a random order down to 1, the first window of the input
   * that is a fwd path; failing all, one child of the forward root.
   */
  method SeedReply(fwd: Node, tokens: seq<ushort>, draw0: nat, draw1: nat) returns (reply: seq<ushort>)
    requires Sorted(fwd)
    ensures reply == Seed(fwd, tokens, draw0 % Order + 1, draw1)
  {
    var tryOrder := draw0 % Order + 1;
    var o := tryOrder;
    while o > 0
      invariant 0 <= o <= tryOrder
      invariant Seed(fwd, tokens, tryOrder, draw1) == Seed(fwd, tokens, o, draw1)
    {
      var i := 0;
      while i < |tokens|
        invariant 0 <= i <= |tokens|
        invariant FindWindow(fwd, tokens, o, 0) == FindWindow(fwd, tokens, o, i)
      {
        if i + o > |tokens| {
          break;
        }
        var n := FindPath(fwd, tokens[i..i + o]);
        if n.Some? {
          return tokens[i..i + o];
        }
        i := i + 1;
      }
      o := o - 1;
    }
    reply := [];
    if |fwd.children| > 0 {
      reply := [NextToken(fwd, draw1)];
    }
  }

  /**
   * Reply's first loop: AddWordBackward while the reply is under the hard
   * cutoff and the last call added a token, the k-th call drawing draw(k).
   * The body ends with the seed, b tokens were put in front of it, and it
   * stopped at the cutoff or because the backward trie offered no token
   * that may be added.
   */
  method GrowBackward(bwd: Node, store: seq<Symbol>, seed: seq<ushort>, draw: nat -> nat, k0: nat) returns (body: seq<ushort>, b: nat, k: nat)
    requires WellFormedTrie(bwd, |store|)
    requires 1 <= |seed| <= HardCutoff && AllBelow(seed, |store|)
    ensures b + |seed| == |body| <= HardCutoff && body[b..] == seed
    ensures AllBelow(body, |store|)
    ensures BackwardChain(bwd, store, body, b, |body|)
    ensures |body| < HardCutoff ==> k > k0 && BackwardStopped(bwd, store, body, draw(k - 1))
  {
    body, b, k := seed, 0, k0;
    while |body| < HardCutoff
      invariant b + |seed| == |body| <= HardCutoff
      invariant body[b..] == seed
      invariant AllBelow(body, |store|)
      invariant BackwardChain(bwd, store, body, b, |body|)
      invariant k >= k0
      decreases HardCutoff - |body|
    {
      var d := draw(k);
      var more;
      body, b, more := BackwardWord(bwd, store, seed, body, b, d);
      k := k + 1;
      if !more {
        assert draw(k - 1) == d;
        break;
      }
    }
  }

  /** One turn of GrowBackward's loop: AddWordBackward keeps the loop's invariant. */
  method BackwardWord(bwd: Node, store: seq<Symbol>, seed: seq<ushort>, body: seq<ushort>, b: nat, draw: nat) returns (grown: seq<ushort>, b': nat, more: bool)
    requires WellFormedTrie(bwd, |store|)
    requires 1 <= |seed| && b + |seed| == |body| < HardCutoff && body[b..] == seed
    requires AllBelow(body, |store|) && BackwardChain(bwd, store, body, b, |body|)
    ensures b' + |seed| == |grown| <= HardCutoff && grown[b'..] == seed
    ensures AllBelow(grown, |store|) && BackwardChain(bwd, store, grown, b', |grown|)
    ensures more ==> |grown| == |body| + 1
    ensures !more ==> grown == body && BackwardStopped(bwd, store, grown, draw)
  {
    grown, more := AddWordBackward(bwd, store, body, draw);
    b' := b;
    if more {
      var t := grown[0];
      BackwardChainPrepend(bwd, store, body, b, t);
      AllBelowPrepend(t, body, |store|);
      assert grown[b + 1..] == body[b..];
      b' := b + 1;
    }
  }

  /**
   * Reply's second loop: AddWordForward while the reply is under the hard
   * cutoff and the last call asked for more. The body keeps what it had and
   * the appended tokens form a fwd chain; it stopped at the cutoff, after
   * a sentence end past the soft cutoff, or because the forward trie offered
   * no token but the terminator.
   */
  method GrowForward(fwd: Node, bwd: Node, store: seq<Symbol>, body: seq<ushort>, b: nat, draw: nat -> nat, k0: nat) returns (body': seq<ushort>, k: nat)
    requires WellFormedTrie(fwd, |store|) && WellFormedTrie(bwd, |store|)
    requires b < |body| <= HardCutoff && AllBelow(body, |store|)
    requires BackwardChain(bwd, store, body, b, |body|)
    ensures |body| <= |body'| <= HardCutoff && body'[..|body|] == body
    ensures AllBelow(body', |store|)
    ensures Chain(fwd, bwd, store, body', b, |body|)
    ensures SoftStop(store, body', |body|)
    ensures |body'| < HardCutoff ==> k > k0 && ForwardStopped(fwd, store, body', |body|, draw(k - 1))
  {
    var e := |body|;
    body', k := body, k0;
    while |body'| < HardCutoff
      invariant e <= |body'| <= HardCutoff
      invariant ForwardGrown(fwd, bwd, store, body, b, body')
      invariant NoSoftStop(store, body', e)
      invariant k >= k0
      decreases HardCutoff - |body'|
    {
      var d := draw(k);
      var more;
      body', more := ForwardWord(fwd, bwd, store, body, b, body', d);
      k := k + 1;
      if !more {
        assert draw(k - 1) == d;
        break;
      }
    }
  }

  /** What GrowForward's loop keeps: the body so far kept, ids below the bound, a chain, no soft stop before the end. */
  predicate ForwardGrown(fwd: Node, bwd: Node, store: seq<Symbol>, body: seq<ushort>, b: nat, current: seq<ushort>) {
    && |body| <= |current| && current[..|body|] == body
    && AllBelow(current, |store|) && Chain(fwd, bwd, store, current, b, |body|)
    && SoftStop(store, current, |body|)
  }

  /** One turn of GrowForward's loop: AddWordForward keeps the loop's invariant. */
  method ForwardWord(fwd: Node, bwd: Node, store: seq<Symbol>, body: seq<ushort>, b: nat, current: seq<ushort>, draw: nat) returns (grown: seq<ushort>, more: bool)
    requires WellFormedTrie(fwd, |store|) && WellFormedTrie(bwd, |store|)
    requires |current| < HardCutoff && ForwardGrown(fwd, bwd, store, body, b, current)
    requires NoSoftStop(store, current, |body|)
    ensures |current| <= |grown| <= |current| + 1
    ensures ForwardGrown(fwd, bwd, store, body, b, grown)
    ensures more ==> |grown| == |current| + 1 && NoSoftStop(store, grown, |body|)
    ensures !more ==> ForwardStopped(fwd, store, grown, |body|, draw)
  {
    var e := |body|;
    grown, more := AddWordForward(fwd, store, current, draw);
    if |grown| > |current| {
      var t := grown[|current|];
      ForwardChainAppend(fwd, store, current, e, t);
      BackwardChainAppend(bwd, store, current, b, e, t);
      AllBelowAppend(current, t, |store|);
      SoftStopAppend(store, current, e, t);
      assert grown[..e] == current[..e];
    }
  }

  /**
   * A reply body Reply can build from the tokens with these draws: at most
   * HardCutoff ids, the seed draw(0) and draw(1) choose at b..e, grown
   * backward before it and forward after it, stopping forward after the first
   * sentence end past the soft cutoff.
   */
  ghost predicate GrownReply(fwd: Node, bwd: Node, store: seq<Symbol>, tokens: seq<ushort>, draw: nat -> nat, body: seq<ushort>) {
    && |body| <= HardCutoff
    && exists b: nat, e: nat ::
      && Chain(fwd, bwd, store, body, b, e)
      && body[b..e] == Seed(fwd, tokens, draw(0) % Order + 1, draw(1))
      && SoftStop(store, body, e)
  }

  /** Reply up to the terminator: seed, grow backward, grow forward. */
  method ReplyBody(fwd: Node, bwd: Node, store: seq<Symbol>, tokens: seq<ushort>, draw: nat -> nat) returns (body: seq<ushort>)
    requires WellFormedTrie(fwd, |store|) && WellFormedTrie(bwd, |store|)
    ensures body == [] <==> |fwd.children| == 0
    ensures AllBelow(body, |store|)
    ensures body != [] ==> GrownReply(fwd, bwd, store, tokens, draw, body)
  {
    var seed := SeedReply(fwd, tokens, draw(0), draw(1));
    SeedIsKnown(fwd, tokens, draw(0) % Order + 1, draw(1));
    if |seed| == 0 {
      return [];
    }
    ContainsTokensBelow(fwd, seed, |store|);
    var b, k;
    body, b, k := GrowBackward(bwd, store, seed, draw, 2);
    var e := |body|;
    ghost var backed := body;
    body, k := GrowForward(fwd, bwd, store, body, b, draw, k);
    SeedKept(backed, body, b, seed);
  }

  /** A reply body stays a grown reply when the symbol list grows: only its ids' symbols matter. */
  lemma GrownReplyExtends(fwd: Node, bwd: Node, store: seq<Symbol>, store': seq<Symbol>, tokens: seq<ushort>,
                          draw: nat -> nat, body: seq<ushort>)
    requires GrownReply(fwd, bwd, store, tokens, draw, body) && AllBelow(body, |store|) && store <= store'
    ensures GrownReply(fwd, bwd, store', tokens, draw, body)
  {
    var b: nat, e: nat :| Chain(fwd, bwd, store, body, b, e)
      && body[b..e] == Seed(fwd, tokens, draw(0) % Order + 1, draw(1))
      && SoftStop(store, body, e);
    forall j | 0 <= j < |body|
      ensures TerminateAt(store', body[j]) == TerminateAt(store, body[j])
      ensures EndsSentenceAt(store', body[j]) == EndsSentenceAt(store, body[j])
    {
      assert store'[body[j]] == store[body[j]];
    }
    assert Chain(fwd, bwd, store', body, b, e);
  }

  // ---------------------------------------------------------------------------
  // Query's identical-reply rule (the earlier revision)
  // ---------------------------------------------------------------------------

  /** IDENTICAL_REPLY */
  const IdenticalReply: string := "I understand: "

  /**
   * Query's hasReply flag: false exactly when the reply symbols equal the
   * input symbols element by element, compared with Symbol.Equals.
   */
  method HasReply(reply: seq<Symbol>, symbols: seq<Symbol>) returns (hasReply: bool)
    ensures hasReply <==> reply != symbols
  {
    hasReply := true;
    if |reply| == |symbols| {
      hasReply := false;
      var i := 0;
      while i < |reply|
        invariant 0 <= i <= |reply|
        invariant forall k :: 0 <= k < i ==> reply[k] == symbols[k]
      {
        EqualsIsStructural(reply[i], symbols[i]);
        if !Equals(reply[i], symbols[i]) {
          hasReply := true;
          break;
        }
        i := i + 1;
      }
      if !hasReply {
        assert reply == symbols;
      }
    }
  }

  /** IDENTICAL_REPLY + StringParser.Format(reply): the prefix on the formatted text; a formatting exception stays one. */
  function Prefixed(text: Result<string>): (r: Result<string>)
    ensures r.Success? <==> text.Success?
    ensures r.Success? ==> |r.value| == |IdenticalReply| + |text.value|
    ensures r.Success? ==> r.value[..|IdenticalReply|] == IdenticalReply && r.value[|IdenticalReply|..] == text.value
  {
    match text
    case Success(t) => Success(IdenticalReply + t)
    case Failure(e) => Failure(e)
  }

  // ---------------------------------------------------------------------------
  // Save and Load
  // ---------------------------------------------------------------------------

  /** What Model.Save writes: the symbol table, then the forward trie, then the backward trie. */
  function ModelBytes(store: seq<Symbol>, fwd: Node, bwd: Node): seq<byte> {
    SaveBytes(store) + Write(fwd) + Write(bwd)
  }

  /** What Model.Load reads, in the same order; bytes after the backward trie are not read. */
  function DecodeModel(data: seq<byte>): Result<(seq<Symbol>, Node, Node)> {
    match Decode(data)
    case Failure(e) => Failure(e)
    case Success((store, rest)) =>
      match ReadNode(rest)
      case Failure(e) => Failure(e)
      case Success((fwd, rest')) =>
        match ReadNode(rest')
        case Failure(e) => Failure(e)
        case Success((bwd, _)) => Success((store, fwd, bwd))
  }

  /**
   * Loading what Save wrote gives back the table and both tries, provided the
   * table's count and every branch fit their ushort fields.
   */
  lemma SaveLoad(store: seq<Symbol>, fwd: Node, bwd: Node, rest: seq<byte>)
    requires |store| < 0x1_0000 && WellSized(fwd) && WellSized(bwd)
    ensures DecodeModel(ModelBytes(store, fwd, bwd) + rest) == Success((store, fwd, bwd))
  {
    var tail := Write(bwd) + rest;
    var mid := Write(fwd) + tail;
    Regroup(SaveBytes(store), Write(fwd), Write(bwd), rest);
    SaveDecode(store, mid);
    ReadWrite(fwd, tail);
    ReadWrite(bwd, rest);
    DecodeModelSteps(SaveBytes(store) + mid, store, mid, fwd, tail, bwd, rest);
  }

  /** DecodeModel succeeds when its three reads succeed one after the other. */
  lemma DecodeModelSteps(data: seq<byte>, store: seq<Symbol>, mid: seq<byte>, fwd: Node, tail: seq<byte>, bwd: Node, rest: seq<byte>)
    requires Decode(data) == Success((store, mid))
    requires ReadNode(mid) == Success((fwd, tail)) && ReadNode(tail) == Success((bwd, rest))
    ensures DecodeModel(data) == Success((store, fwd, bwd))
  {
  }

  /** Model.Load: a new model whose table, forward trie and backward trie are read in turn. */
  method Load(data: seq<byte>) returns (r: Result<Model>)
    ensures r.Success? <==> DecodeModel(data).Success?
    ensures r.Success? ==> fresh(r.value) && fresh(r.value.dict)
    ensures r.Success? ==> DecodeModel(data).value == (r.value.dict.store, r.value.forward, r.value.backward)
    ensures r.Success? ==> r.value.dict.Valid()
    ensures r.Success? ==>
      (WellFormedTrie(r.value.forward, |r.value.dict.store|) && WellFormedTrie(r.value.backward, |r.value.dict.store|)
       ==> r.value.Valid())
  {
    var m := new Model();
    var afterTable := m.dict.Load(data);
    if afterTable.Failure? {
      return Failure(afterTable.error);
    }
    assert m.dict.store == Decode(data).value.0;
    LoadIdsFresh(m.dict.store, |m.dict.store|);
    assert m.dict.store[..|m.dict.store|] == m.dict.store;
    var f := Read(afterTable.value);
    if f.Failure? {
      return Failure(f.error);
    }
    var b := Read(f.value.1);
    if b.Failure? {
      return Failure(b.error);
    }
    m.forward := f.value.0;
    m.backward := b.value.0;
    return Success(m);
  }

  /** Every id in a table lies below the table's size. */
  lemma IdsAllBelow(store: seq<Symbol>)
    ensures forall s :: s in IdsOf(store) ==> IdsOf(store)[s] < |store|
  {
    forall s | s in IdsOf(store)
      ensures IdsOf(store)[s] < |store|
    {
      IdsBelow(store, s);
    }
  }

  /** A trie is its root alone exactly when the root has no children. */
  lemma RootAlone(n: Node)
    ensures CountAll(n) == 1 <==> |n.children| == 0
  {
    assert CountAll(n) == CountAt(n, 1, -1) == 1 + CountChildren(n, 0, 2, -1);
    if |n.children| > 0 {
      ChildrenCountPositive(n, 0);
    }
  }

  lemma {:induction false} ChildrenCountPositive(n: Node, i: nat)
    requires i < |n.children|
    ensures CountChildren(n, i, 2, -1) >= 1
    decreases |n.children| - i
  {
    var c := n.children[i];
    assert c in n.children;
    CountBytesFormula(c, 0);
    CountAtAnyLevel(c, 2);
    if i + 1 < |n.children| {
      ChildrenCountPositive(n, i + 1);
    }
  }

  // ---------------------------------------------------------------------------
  // The model
  // ---------------------------------------------------------------------------

  class Model {
    var dict: SymbolDictionary
    var forward: Node
    var backward: Node

    /** The table is consistent, both tries are sorted, and every token in them is an id of the table. */
    ghost predicate Valid()
      reads this, dict
    {
      && dict.Valid()
      && Sorted(forward) && Sorted(backward)
      && TokensBelow(forward, |dict.store|) && TokensBelow(backward, |dict.store|)
    }

    /** new Model(): an empty table and two zeroed root nodes. */
    constructor()
      ensures Valid() && fresh(dict)
      ensures dict.store == [] && forward == Leaf(0) && backward == Leaf(0)
    {
      dict := new SymbolDictionary();
      forward := Leaf(0);
      backward := Leaf(0);
    }

    /**
     * Model.Learn(tokens): associates every forward tuple and every backward
     * tuple of the tokens; fewer than Order + 1 tokens teach nothing.
     */
    method Learn(tokens: seq<ushort>)
      requires Valid()
      requires forall j :: 0 <= j < |tokens| ==> tokens[j] < |dict.store|
      requires |tokens| >= Order + 1 ==> Terminate in dict.lookup
      modifies this
      ensures Valid() && dict == old(dict)
      ensures |tokens| < Order + 1 ==> forward == old(forward) && backward == old(backward)
      ensures |tokens| >= Order + 1 ==>
        && forward == InsertAll(old(forward), ForwardPaths(tokens))
        && backward == InsertAll(old(backward), BackwardPaths(tokens, dict.store, dict.lookup[Terminate]))
    {
      if |tokens| < Order + 1 {
        return;
      }
      IdsBelow(dict.store, Terminate);
      forward, backward := LearnTries(forward, backward, tokens, dict.store, dict.lookup[Terminate]);
    }

    /** symbols.Select(s => _dict.AddSymbol(s)): each symbol's id, interning the new ones. */
    method Intern(symbols: seq<Symbol>) returns (tokens: seq<ushort>)
      requires Valid()
      modifies dict
      ensures Valid()
      ensures old(dict.store) <= dict.store
      ensures forall j :: |old(dict.store)| <= j < |dict.store| ==> dict.store[j] in symbols
      ensures |tokens| == |symbols|
      ensures forall i :: 0 <= i < |symbols| ==>
        symbols[i] in dict.lookup && dict.lookup[symbols[i]] == tokens[i] && tokens[i] < |dict.store|
    {
      tokens := dict.AddSymbols(symbols);
      TokensBelowMono(forward, |old(dict.store)|, |dict.store|);
      TokensBelowMono(backward, |old(dict.store)|, |dict.store|);
    }

    /**
     * Model.Reply: seeds the reply, grows it backward and then forward, and
     * closes it with the terminator's id, which it interns if need be. An
     * empty forward trie gives the empty reply.
     */
    method Reply(tokens: seq<ushort>, draw: nat -> nat) returns (reply: seq<ushort>)
      requires Valid()
      modifies dict
      ensures Valid()
      ensures dict.store == old(dict.store) || dict.store == old(dict.store) + [Terminate]
      ensures forall x :: x in old(dict.lookup) ==> x in dict.lookup && dict.lookup[x] == old(dict.lookup)[x]
      ensures reply == [] <==> |forward.children| == 0
      ensures reply != [] ==>
        && Terminate in dict.lookup && reply[|reply| - 1] == dict.lookup[Terminate]
        && AllBelow(reply, |dict.store|) && AllBelow(reply[..|reply| - 1], |old(dict.store)|)
        && GrownReply(forward, backward, old(dict.store), tokens, draw, reply[..|reply| - 1])
    {
      var body := ReplyBody(forward, backward, dict.store, tokens, draw);
      if |body| == 0 {
        return [];
      }
      ghost var store := dict.store;
      var term := dict.AddSymbol(Terminate);
      TokensBelowMono(forward, |store|, |dict.store|);
      TokensBelowMono(backward, |store|, |dict.store|);
      AllBelowAppend(body, term, |dict.store|);
      reply := body + [term];
      assert reply[..|reply| - 1] == body;
    }

    /**
     * Model.Learn(string): parses the text, interns its symbols and learns
     * the ids; tokens are those ids.
     */
    method LearnText(input: Option<string>) returns (ghost tokens: seq<ushort>)
      requires Valid()
      modifies this, dict
      ensures Valid() && dict == old(dict)
      ensures Interned(StringParser.Tokenize(input), tokens)
      ensures Learned(old(forward), old(backward), tokens)
    {
      var symbols := StringParser.Parse(input);
      StringParser.TokenizeWellFormed(input);
      var ids := Intern(symbols);
      Learn(ids);
      tokens := ids;
    }

    /** Each symbol's id in the table, position by position. */
    ghost predicate Interned(symbols: seq<Symbol>, tokens: seq<ushort>)
      reads this, dict
    {
      && |tokens| == |symbols|
      && forall i :: 0 <= i < |symbols| ==> symbols[i] in dict.lookup && dict.lookup[symbols[i]] == tokens[i]
    }

    /** The tries are fwd and bwd after Learn(tokens): unchanged for fewer than Order + 1 tokens. */
    ghost predicate Learned(fwd: Node, bwd: Node, tokens: seq<ushort>)
      reads this, dict
    {
      if |tokens| < Order + 1 then forward == fwd && backward == bwd
      else
        && Terminate in dict.lookup
        && forward == InsertAll(fwd, ForwardPaths(tokens))
        && backward == InsertAll(bwd, BackwardPaths(tokens, dict.store, dict.lookup[Terminate]))
    }

    /**
     * Model.Query: interns the input, replies from the tries as they were
     * before, then learns the input, and formats the reply's symbols.
     */
    method Query(input: Option<string>, draw: nat -> nat) returns (r: Result<string>, ghost tokens: seq<ushort>, ghost reply: seq<ushort>)
      requires Valid()
      modifies this, dict
      ensures Valid()
      ensures Interned(StringParser.Tokenize(input), tokens)
      ensures reply == [] <==> |old(forward).children| == 0
      ensures reply != [] ==>
        && Terminate in dict.lookup && reply[|reply| - 1] == dict.lookup[Terminate]
        && GrownReply(old(forward), old(backward), dict.store, tokens, draw, reply[..|reply| - 1])
      ensures Learned(old(forward), old(backward), tokens)
      ensures AllBelow(reply, |dict.store|) && r == StringParser.FormatSpec(SymbolsAt(dict.store, reply))
    {
      var symbols := StringParser.Parse(input);
      StringParser.TokenizeWellFormed(input);
      var ids, answer := Respond(symbols, draw);
      tokens, reply := ids, answer;
      r := StringParser.Format(SymbolsAt(dict.store, answer));
    }

    /**
     * The earlier revision's Query: as Query, but when the reply's symbols are
     * the input's symbols the text starts with "I understand: ".
     */
    method QueryEcho(input: Option<string>, draw: nat -> nat) returns (r: Result<string>, ghost tokens: seq<ushort>, ghost reply: seq<ushort>)
      requires Valid()
      modifies this, dict
      ensures Valid()
      ensures Interned(StringParser.Tokenize(input), tokens)
      ensures reply == [] <==> |old(forward).children| == 0
      ensures reply != [] ==>
        && Terminate in dict.lookup && reply[|reply| - 1] == dict.lookup[Terminate]
        && GrownReply(old(forward), old(backward), dict.store, tokens, draw, reply[..|reply| - 1])
      ensures Learned(old(forward), old(backward), tokens)
      ensures AllBelow(reply, |dict.store|)
      ensures var text := StringParser.FormatSpec(SymbolsAt(dict.store, reply));
        r == if SymbolsAt(dict.store, reply) == StringParser.Tokenize(input) then Prefixed(text) else text
    {
      var symbols := StringParser.Parse(input);
      StringParser.TokenizeWellFormed(input);
      var ids, answer := Respond(symbols, draw);
      tokens, reply := ids, answer;
      var replySymbols := SymbolsAt(dict.store, answer);
      var hasReply := HasReply(replySymbols, symbols);
      var text := StringParser.Format(replySymbols);
      if hasReply {
        r := text;
      } else {
        r := Prefixed(text);
      }
    }

    /** Query's common part: intern the parsed symbols, reply, then learn. */
    method Respond(symbols: seq<Symbol>, draw: nat -> nat) returns (tokens: seq<ushort>, reply: seq<ushort>)
      requires Valid()
      requires symbols == [] || StringParser.WellFormedSymbols(symbols)
      modifies this, dict
      ensures Valid()
      ensures Interned(symbols, tokens)
      ensures reply == [] <==> |old(forward).children| == 0
      ensures reply != [] ==>
        && Terminate in dict.lookup && reply[|reply| - 1] == dict.lookup[Terminate]
        && GrownReply(old(forward), old(backward), dict.store, tokens, draw, reply[..|reply| - 1])
      ensures Learned(old(forward), old(backward), tokens)
      ensures AllBelow(reply, |dict.store|)
    {
      tokens := Intern(symbols);
      assert symbols != [] ==> symbols[|symbols| - 1] == Terminate;
      assert Interned(symbols, tokens);
      ghost var interned := dict.store;
      reply := Reply(tokens, draw);
      assert Interned(symbols, tokens);
      if reply != [] {
        GrownReplyExtends(forward, backward, interned, dict.store, tokens, draw, reply[..|reply| - 1]);
      }
      Learn(tokens);
    }

    /** Model.SymbolCount: the table's size; every id handed out lies below it. */
    function SymbolCount(): (n: nat)
      requires Valid()
      reads this, dict
      ensures n == |dict.store|
      ensures forall s :: s in dict.lookup ==> dict.lookup[s] < n
    {
      IdsAllBelow(dict.store);
      dict.Count()
    }

    /**
     * Model.TotalTupleCount: forward.Count(Order), the nodes at level Order
     * with the root at level 1, which are the root's children: the distinct
     * first tokens of the learned tuples.
     */
    function TotalTupleCount(): (n: nat)
      reads this
      ensures n == |forward.children|
    {
      CountLevelTwo(forward);
      Count(forward, Order)
    }

    /** Model.TotalNodeCount: every node of the forward trie, the root included. */
    function TotalNodeCount(): (n: nat)
      reads this
      ensures n >= 1 && n == CountAll(forward)
      ensures n == 1 <==> |forward.children| == 0
    {
      CountBytesFormula(forward, 0);
      RootAlone(forward);
      Count(forward, -1)
    }

    /** Model.TotalBytesUsed: sizeof(Node) per node of the forward trie plus a pointer per edge. */
    function TotalBytesUsed(pointerSize: nat): (n: nat)
      reads this
      ensures n == (4 + pointerSize) * TotalNodeCount() + pointerSize * (TotalNodeCount() - 1)
    {
      CountBytesFormula(forward, pointerSize);
      CountBytes(forward, pointerSize)
    }

    /** Model.Save: the table, then the forward trie, then the backward trie. */
    method Save() returns (bytes: seq<byte>)
      ensures bytes == ModelBytes(dict.store, forward, backward)
    {
      var table := dict.Save();
      bytes := table + Write(forward) + Write(backward);
    }
  }
}
