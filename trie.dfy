/**
 * The chatter trie: a node carries a token and its children, kept in strictly
 * ascending token order and found by binary search. Nodes are values here; the
 * pointer-based in-place updates of the source become functions and methods
 * that return the updated node.
 */
module Trie {
  import opened Wrappers
  import opened BinaryFormat

  datatype Node = Node(token: ushort, children: seq<Node>)

  /** An empty node, as Memory.Alloc(sizeof(Node)) leaves it. */
  function Leaf(token: ushort): Node {
    Node(token, [])
  }

  /** Children strictly ascending by token: sorted and free of duplicates. */
  predicate Ascending(children: seq<Node>) {
    forall i, j :: 0 <= i < j < |children| ==> children[i].token < children[j].token
  }

  /** The trie invariant, at every level. */
  predicate Sorted(n: Node) {
    Ascending(n.children) && forall c :: c in n.children ==> Sorted(c)
  }

  // ---------------------------------------------------------------------------
  // Search, Find, FindOrAdd, AddNode
  // ---------------------------------------------------------------------------

  /** The position of the first child carrying token, or the number of children when none does. */
  function IndexOfToken(children: seq<Node>, token: ushort): (i: nat)
    ensures i <= |children|
    ensures i < |children| ==> children[i].token == token
    ensures forall k :: 0 <= k < i ==> children[k].token != token
  {
    if |children| == 0 then 0
    else if children[0].token == token then 0
    else 1 + IndexOfToken(children[1..], token)
  }

  predicate HasChild(n: Node, token: ushort) {
    IndexOfToken(n.children, token) < |n.children|
  }

  /** The number of children with a smaller token: where a new child goes. */
  function Rank(children: seq<Node>, token: ushort): (r: nat)
    ensures r <= |children|
    ensures Ascending(children) ==> forall k :: 0 <= k < r ==> children[k].token < token
    ensures Ascending(children) ==> forall k :: r <= k < |children| ==> children[k].token >= token
  {
    if |children| == 0 || children[0].token >= token then 0
    else 1 + Rank(children[1..], token)
  }

  /** The rank is the one split point between smaller and larger tokens. */
  lemma RankUnique(children: seq<Node>, token: ushort, i: nat)
    requires Ascending(children) && i <= |children|
    requires forall k :: 0 <= k < i ==> children[k].token < token
    requires forall k :: i <= k < |children| ==> children[k].token > token
    ensures i == Rank(children, token)
  {
    if i > 0 {
      assert children[0].token < token;
      RankUnique(children[1..], token, i - 1);
    } else if |children| > 0 {
      assert children[0].token > token;
    }
  }

  /**
   * Node.Search: binary search over the children. It stops on every input; on
   * ascending children it either finds the token or returns the insertion point.
   */
  method Search(children: seq<Node>, token: ushort) returns (i: nat, found: bool)
    ensures found ==> i < |children| && children[i].token == token
    ensures !found ==> i <= |children|
    ensures Ascending(children) ==> (found <==> exists k :: 0 <= k < |children| && children[k].token == token)
    ensures Ascending(children) && !found ==> i == Rank(children, token)
    ensures Ascending(children) && found ==> i == IndexOfToken(children, token)
  {
    found := false;
    if |children| < 1 {
      return 0, false;
    }
    var min := 0;
    var max := |children| - 1;
    while true
      invariant 0 <= min <= max < |children|
      invariant Ascending(children) ==> forall k :: 0 <= k < min ==> children[k].token < token
      invariant Ascending(children) ==> forall k :: max < k < |children| ==> children[k].token > token
      decreases max - min
    {
      var middle := (min + max) / 2;
      var compare := token - children[middle].token;
      if compare == 0 {
        return middle, true;
      } else if compare > 0 {
        if max == middle {
          if Ascending(children) {
            RankUnique(children, token, middle + 1);
          }
          return middle + 1, false;
        }
        min := middle + 1;
      } else {
        if min == middle {
          if Ascending(children) {
            RankUnique(children, token, middle);
          }
          return middle, false;
        }
        max := middle - 1;
      }
    }
  }

  /** The child carrying token, if there is one. */
  function FindChild(n: Node, token: ushort): (r: Option<Node>)
    ensures r.Some? <==> HasChild(n, token)
    ensures r.Some? ==> r.value in n.children && r.value.token == token
  {
    FindIn(n.children, token)
  }

  /** Node.Find: null (None) exactly when no child carries the token. */
  method Find(n: Node, token: ushort) returns (r: Option<Node>)
    requires Ascending(n.children)
    ensures r == FindChild(n, token)
    ensures r.None? <==> forall k :: 0 <= k < |n.children| ==> n.children[k].token != token
  {
    var i, found := Search(n.children, token);
    if found {
      return Some(n.children[i]);
    }
    return None;
  }

  /** The first half of Node.AddNode: a fresh array one longer, holding the children in order. */
  method Grow(children: seq<Node>, filler: Node) returns (a: array<Node>)
    ensures fresh(a) && a.Length == |children| + 1
    ensures a[..|children|] == children
  {
    a := new Node[|children| + 1](_ => filler);
    var i := 0;
    while i < |children|
      invariant 0 <= i <= |children|
      invariant a[..i] == children[..i]
    {
      a[i] := children[i];
      i := i + 1;
    }
  }

  /**
   * Node.AddNode: a children array one longer, with the new child at pos and the
   * later children shifted one place right.
   */
  method AddNode(children: seq<Node>, newNode: Node, pos: nat) returns (r: seq<Node>)
    requires pos <= |children|
    ensures r == children[..pos] + [newNode] + children[pos..]
  {
    var branch := |children|;
    var a := Grow(children, newNode);
    var i := branch;
    while i > pos
      invariant pos <= i <= branch
      invariant a[..i] == children[..i]
      invariant a[i + 1..] == children[i..]
    {
      ghost var tail := a[i + 1..];
      a[i] := a[i - 1];
      assert a[i + 1..] == tail;
      assert a[i..] == [children[i - 1]] + tail;
      i := i - 1;
      assert children[i..] == [children[i]] + children[i + 1..];
    }
    a[pos] := newNode;
    r := a[..];
    assert r == a[..pos] + [newNode] + a[pos + 1..];
  }

  /** The node after FindOrAdd(token): unchanged when the token is present, else with a new leaf at its rank. */
  function WithChild(n: Node, token: ushort): (m: Node)
    ensures m.token == n.token
    ensures HasChild(m, token)
  {
    if HasChild(n, token) then n
    else
      var r := Rank(n.children, token);
      var cs := n.children[..r] + [Leaf(token)] + n.children[r..];
      assert cs[r].token == token;
      Node(n.token, cs)
  }

  /** Node.FindOrAdd: the updated node and the position of the child carrying token. */
  method FindOrAdd(n: Node, token: ushort) returns (n': Node, i: nat)
    requires Ascending(n.children)
    ensures n' == WithChild(n, token)
    ensures i < |n'.children| && n'.children[i].token == token && i == IndexOfToken(n'.children, token)
    ensures |n'.children| == |n.children| + (if HasChild(n, token) then 0 else 1)
  {
    var found: bool;
    i, found := Search(n.children, token);
    if found {
      return n, i;
    }
    var children := AddNode(n.children, Leaf(token), i);
    n' := Node(n.token, children);
    WithChildAscending(n, token);
    assert n'.children[i] == Leaf(token);
  }

  /** A node placed between the smaller and the larger tokens keeps the children ascending. */
  lemma AscendingSplice(cs: seq<Node>, r: nat, x: Node)
    requires Ascending(cs) && r <= |cs|
    requires forall k :: 0 <= k < r ==> cs[k].token < x.token
    requires forall k :: r <= k < |cs| ==> cs[k].token > x.token
    ensures Ascending(cs[..r] + [x] + cs[r..])
  {
    var s := cs[..r] + [x] + cs[r..];
    assert forall k :: 0 <= k < r ==> s[k] == cs[k];
    assert s[r] == x;
    assert forall k :: r < k < |s| ==> s[k] == cs[k - 1];
  }

  /** FindOrAdd keeps the children strictly ascending and changes nothing below them. */
  lemma WithChildAscending(n: Node, token: ushort)
    requires Ascending(n.children)
    ensures Ascending(WithChild(n, token).children)
    ensures HasChild(WithChild(n, token), token)
    ensures forall c :: c in n.children ==> c in WithChild(n, token).children
    ensures forall c :: c in WithChild(n, token).children ==> c in n.children || c == Leaf(token)
    ensures IndexOfToken(WithChild(n, token).children, token) == Rank(n.children, token) || HasChild(n, token)
  {
    if !HasChild(n, token) {
      var r := Rank(n.children, token);
      var cs := n.children[..r] + [Leaf(token)] + n.children[r..];
      forall k | r <= k < |n.children|
        ensures n.children[k].token > token
      {
        assert n.children[k].token != token;
      }
      assert cs[r].token == token;
      AscendingSplice(n.children, r, Leaf(token));
      forall c | c in n.children
        ensures c in cs
      {
        var k :| 0 <= k < |n.children| && n.children[k] == c;
        if k < r {
          assert cs[k] == c;
        } else {
          assert cs[k + 1] == c;
        }
      }
    }
  }

  // ---------------------------------------------------------------------------
  // Paths: Associate and Model.Find
  // ---------------------------------------------------------------------------

  /** Model.Find: walk from n along the path; None as soon as a step is missing, n itself for no steps. */
  function Walk(n: Node, path: seq<ushort>): (r: Option<Node>)
    decreases |path|
  {
    if |path| == 0 then Some(n)
    else
      match FindChild(n, path[0])
      case None => None
      case Some(c) => Walk(c, path[1..])
  }

  predicate Contains(n: Node, path: seq<ushort>) {
    Walk(n, path).Some?
  }

  /** Model.Associate: FindOrAdd along the path, starting at n. */
  function Insert(n: Node, path: seq<ushort>): (m: Node)
    ensures m.token == n.token
    decreases |path|
  {
    if |path| == 0 then n
    else
      var w := WithChild(n, path[0]);
      var i := IndexOfToken(w.children, path[0]);
      Node(w.token, w.children[i := Insert(w.children[i], path[1..])])
  }

  lemma {:induction false} IndexOfTokenConcat(a: seq<Node>, b: seq<Node>, t: ushort)
    ensures IndexOfToken(a + b, t) ==
      if IndexOfToken(a, t) < |a| then IndexOfToken(a, t) else |a| + IndexOfToken(b, t)
  {
    if |a| == 0 {
      assert a + b == b;
    } else if a[0].token != t {
      assert (a + b)[1..] == a[1..] + b;
      IndexOfTokenConcat(a[1..], b, t);
    }
  }

  /** Replacing a child by one with the same token changes no token lookup. */
  lemma {:induction false} IndexOfTokenUpdate(cs: seq<Node>, i: nat, x: Node, t: ushort)
    requires i < |cs| && x.token == cs[i].token
    ensures IndexOfToken(cs[i := x], t) == IndexOfToken(cs, t)
  {
    var cs' := cs[i := x];
    assert cs'[0].token == cs[0].token;
    if cs[0].token != t {
      if i == 0 {
        assert cs'[1..] == cs[1..];
      } else {
        assert cs'[1..] == cs[1..][i - 1 := x];
        IndexOfTokenUpdate(cs[1..], i - 1, x, t);
      }
    }
  }

  lemma IndexOfTokenCons(x: Node, b: seq<Node>, u: ushort)
    ensures IndexOfToken([x] + b, u) == if x.token == u then 0 else 1 + IndexOfToken(b, u)
  {
    assert ([x] + b)[0] == x;
    assert ([x] + b)[1..] == b;
  }

  lemma ConcatAt(a: seq<Node>, b: seq<Node>, k: nat)
    requires k < |b|
    ensures (a + b)[|a| + k] == b[k]
  {
  }

  /** The child carrying u in a children sequence, if there is one. */
  function FindIn(cs: seq<Node>, u: ushort): Option<Node> {
    var i := IndexOfToken(cs, u);
    if i < |cs| then Some(cs[i]) else None
  }

  /** Splicing x in between a and b changes a lookup only when x is the first node carrying it. */
  lemma FindInSplice(a: seq<Node>, b: seq<Node>, x: Node, u: ushort)
    ensures FindIn(a + ([x] + b), u) ==
      if IndexOfToken(a, u) == |a| && x.token == u then Some(x) else FindIn(a + b, u)
  {
    if IndexOfToken(a, u) < |a| {
      FindInSpliceBefore(a, b, x, u);
    } else if x.token == u {
      FindInSpliceAt(a, b, x, u);
    } else {
      FindInSpliceAfter(a, b, x, u);
    }
  }

  lemma FindInSpliceBefore(a: seq<Node>, b: seq<Node>, x: Node, u: ushort)
    requires IndexOfToken(a, u) < |a|
    ensures FindIn(a + ([x] + b), u) == FindIn(a + b, u)
  {
    var j := IndexOfToken(a, u);
    IndexOfTokenConcat(a, b, u);
    IndexOfTokenConcat(a, [x] + b, u);
    assert (a + ([x] + b))[j] == a[j] == (a + b)[j];
  }

  lemma FindInSpliceAt(a: seq<Node>, b: seq<Node>, x: Node, u: ushort)
    requires IndexOfToken(a, u) == |a| && x.token == u
    ensures FindIn(a + ([x] + b), u) == Some(x)
  {
    IndexOfTokenConcat(a, [x] + b, u);
    IndexOfTokenCons(x, b, u);
    ConcatAt(a, [x] + b, 0);
  }

  lemma FindInSpliceAfter(a: seq<Node>, b: seq<Node>, x: Node, u: ushort)
    requires IndexOfToken(a, u) == |a| && x.token != u
    ensures FindIn(a + ([x] + b), u) == FindIn(a + b, u)
  {
    var lb := [x] + b;
    IndexOfTokenConcat(a, b, u);
    IndexOfTokenConcat(a, lb, u);
    IndexOfTokenCons(x, b, u);
    var k := IndexOfToken(b, u);
    assert IndexOfToken(a + lb, u) == |a| + 1 + k;
    assert IndexOfToken(a + b, u) == |a| + k;
    if k < |b| {
      ConcatAt(a, lb, 1 + k);
      ConcatAt(a, b, k);
    }
  }

  /** The children FindOrAdd(t) adds no other token, and every other token is found where it was. */
  lemma WithChildFind(n: Node, t: ushort, u: ushort)
    ensures FindChild(WithChild(n, t), u) ==
      if u == t && !HasChild(n, t) then Some(Leaf(t)) else FindChild(n, u)
  {
    if !HasChild(n, t) {
      var r := Rank(n.children, t);
      var a := n.children[..r];
      var b := n.children[r..];
      assert n.children == a + b;
      assert WithChild(n, t).children == a + ([Leaf(t)] + b);
      FindInSplice(a, b, Leaf(t), u);
      IndexOfTokenConcat(a, b, t);
    }
  }


  /** The child Insert descends into is the child FindChild finds in the updated node. */
  lemma InsertFind(n: Node, path: seq<ushort>, u: ushort)
    requires |path| > 0
    ensures FindChild(Insert(n, path), u) ==
      if u == path[0] then Some(Insert(FindChild(WithChild(n, path[0]), u).value, path[1..]))
      else FindChild(n, u)
  {
    var t := path[0];
    var w := WithChild(n, t);
    var i := IndexOfToken(w.children, t);
    var x := Insert(w.children[i], path[1..]);
    IndexOfTokenUpdate(w.children, i, x, u);
    WithChildFind(n, t, u);
  }

  /** After Associate(path) the whole path is in the trie. */
  lemma {:induction false} InsertContains(n: Node, path: seq<ushort>)
    ensures Contains(Insert(n, path), path)
    decreases |path|
  {
    if |path| > 0 {
      InsertFind(n, path, path[0]);
      var c := FindChild(WithChild(n, path[0]), path[0]).value;
      InsertContains(c, path[1..]);
    }
  }

  /** Associate never loses a path that was already there. */
  lemma {:induction false} InsertKeeps(n: Node, path: seq<ushort>, q: seq<ushort>)
    requires Contains(n, q)
    ensures Contains(Insert(n, path), q)
    decreases |path|
  {
    if |path| > 0 && |q| > 0 {
      InsertFind(n, path, q[0]);
      if q[0] == path[0] {
        WithChildFind(n, path[0], q[0]);
        InsertKeeps(FindChild(n, q[0]).value, path[1..], q[1..]);
      }
    }
  }

  lemma LeafContains(t: ushort, q: seq<ushort>)
    ensures Contains(Leaf(t), q) <==> |q| == 0
  {
  }

  /** Associate adds no path other than the prefixes of the one it inserts. */
  lemma {:induction false} InsertOnlyAdds(n: Node, path: seq<ushort>, q: seq<ushort>)
    requires Contains(Insert(n, path), q)
    ensures Contains(n, q) || q <= path
    decreases |path|
  {
    if |path| > 0 && |q| > 0 {
      InsertFind(n, path, q[0]);
      if q[0] == path[0] {
        WithChildFind(n, path[0], q[0]);
        var c := FindChild(WithChild(n, path[0]), path[0]).value;
        InsertOnlyAdds(c, path[1..], q[1..]);
        assert q[1..] <= path[1..] ==> q <= path;
        if HasChild(n, path[0]) {
          assert Contains(c, q[1..]) ==> Contains(n, q);
        } else {
          LeafContains(path[0], q[1..]);
          assert q[1..] <= path[1..];
        }
      }
    }
  }

  /** Associating a path that is already present changes nothing. */
  lemma {:induction false} InsertIdempotent(n: Node, path: seq<ushort>)
    requires Contains(n, path)
    ensures Insert(n, path) == n
    decreases |path|
  {
    if |path| > 0 {
      var t := path[0];
      assert HasChild(n, t);
      var i := IndexOfToken(n.children, t);
      InsertIdempotent(n.children[i], path[1..]);
      assert n.children[i := n.children[i]] == n.children;
    }
  }

  /** The child FindOrAdd leaves in place of the token is sorted. */
  lemma WithChildSorted(n: Node, token: ushort)
    requires Sorted(n)
    ensures Sorted(WithChild(n, token))
  {
    WithChildAscending(n, token);
    var w := WithChild(n, token);
    forall c | c in w.children
      ensures Sorted(c)
    {
      if c !in n.children {
        assert c == Leaf(token);
      }
    }
  }

  /** FindOrAdd keeps the trie sorted at every level. */
  lemma {:induction false} InsertSorted(n: Node, path: seq<ushort>)
    requires Sorted(n)
    ensures Sorted(Insert(n, path))
    decreases |path|
  {
    if |path| > 0 {
      var t := path[0];
      WithChildAscending(n, t);
      var w := WithChild(n, t);
      var i := IndexOfToken(w.children, t);
      assert w.children[i] in w.children;
      assert Sorted(w.children[i]);
      InsertSorted(w.children[i], path[1..]);
      var cs := w.children[i := Insert(w.children[i], path[1..])];
      assert forall k :: 0 <= k < |cs| ==> cs[k].token == w.children[k].token;
      forall c | c in cs
        ensures Sorted(c)
      {
        var k :| 0 <= k < |cs| && cs[k] == c;
        if k != i {
          assert cs[k] == w.children[k] && w.children[k] in w.children;
        }
      }
    }
  }

  /** Associate applied to each path in turn. */
  function InsertAll(n: Node, paths: seq<seq<ushort>>): (m: Node)
    ensures m.token == n.token
    decreases |paths|
  {
    if |paths| == 0 then n else Insert(InsertAll(n, paths[..|paths| - 1]), paths[|paths| - 1])
  }

  /** Associating two lists of paths is associating the first, then the second. */
  lemma {:induction false} InsertAllAppend(n: Node, p: seq<seq<ushort>>, q: seq<seq<ushort>>)
    ensures InsertAll(n, p + q) == InsertAll(InsertAll(n, p), q)
    decreases |q|
  {
    if |q| == 0 {
      assert p + q == p;
    } else {
      assert (p + q)[..|p + q| - 1] == p + q[..|q| - 1];
      InsertAllAppend(n, p, q[..|q| - 1]);
    }
  }

  /** After associating a list of paths, every one of them is in the trie. */
  lemma {:induction false} InsertAllContains(n: Node, paths: seq<seq<ushort>>)
    ensures forall p :: p in paths ==> Contains(InsertAll(n, paths), p)
    decreases |paths|
  {
    if |paths| > 0 {
      var init := paths[..|paths| - 1];
      var last := paths[|paths| - 1];
      InsertAllContains(n, init);
      InsertContains(InsertAll(n, init), last);
      forall p | p in paths
        ensures Contains(InsertAll(n, paths), p)
      {
        if p != last {
          assert p in init;
          InsertKeeps(InsertAll(n, init), last, p);
        }
      }
    }
  }

  /** Associating paths keeps every path that was there before. */
  lemma {:induction false} InsertAllKeeps(n: Node, paths: seq<seq<ushort>>, q: seq<ushort>)
    requires Contains(n, q)
    ensures Contains(InsertAll(n, paths), q)
    decreases |paths|
  {
    if |paths| > 0 {
      InsertAllKeeps(n, paths[..|paths| - 1], q);
      InsertKeeps(InsertAll(n, paths[..|paths| - 1]), paths[|paths| - 1], q);
    }
  }

  /** A path in the result was there before or is a prefix of one of the paths associated. */
  lemma {:induction false} InsertAllOnlyAdds(n: Node, paths: seq<seq<ushort>>, q: seq<ushort>)
    requires Contains(InsertAll(n, paths), q)
    ensures Contains(n, q) || exists p :: p in paths && q <= p
    decreases |paths|
  {
    if |paths| > 0 {
      var init := paths[..|paths| - 1];
      var last := paths[|paths| - 1];
      InsertOnlyAdds(InsertAll(n, init), last, q);
      if q <= last {
        assert last in paths;
      } else {
        InsertAllOnlyAdds(n, init, q);
        if !Contains(n, q) {
          var p :| p in init && q <= p;
          assert p in paths;
        }
      }
    }
  }

  /** Associating paths that are all present already changes nothing. */
  lemma {:induction false} InsertAllPresent(n: Node, paths: seq<seq<ushort>>)
    requires forall p :: p in paths ==> Contains(n, p)
    ensures InsertAll(n, paths) == n
    decreases |paths|
  {
    if |paths| > 0 {
      InsertAllPresent(n, paths[..|paths| - 1]);
      InsertIdempotent(n, paths[|paths| - 1]);
    }
  }

  /** Associating the same list of paths twice is the same as doing it once. */
  lemma InsertAllTwice(n: Node, paths: seq<seq<ushort>>)
    ensures InsertAll(InsertAll(n, paths), paths) == InsertAll(n, paths)
  {
    InsertAllContains(n, paths);
    InsertAllPresent(InsertAll(n, paths), paths);
  }

  lemma {:induction false} InsertAllSorted(n: Node, paths: seq<seq<ushort>>)
    requires Sorted(n)
    ensures Sorted(InsertAll(n, paths))
    decreases |paths|
  {
    if |paths| > 0 {
      InsertAllSorted(n, paths[..|paths| - 1]);
      InsertSorted(InsertAll(n, paths[..|paths| - 1]), paths[|paths| - 1]);
    }
  }

  /** Every token below the root is below bound (an id the dictionary has handed out). */
  predicate TokensBelow(n: Node, bound: nat) {
    forall c :: c in n.children ==> c.token < bound && TokensBelow(c, bound)
  }

  lemma {:induction false} TokensBelowMono(n: Node, bound: nat, bound': nat)
    requires TokensBelow(n, bound) && bound <= bound'
    ensures TokensBelow(n, bound')
    decreases n
  {
    forall c | c in n.children
      ensures TokensBelow(c, bound')
    {
      TokensBelowMono(c, bound, bound');
    }
  }

  lemma {:induction false} InsertTokensBelow(n: Node, path: seq<ushort>, bound: nat)
    requires TokensBelow(n, bound)
    requires forall k :: 0 <= k < |path| ==> path[k] < bound
    ensures TokensBelow(Insert(n, path), bound)
    decreases |path|
  {
    if |path| > 0 {
      var t := path[0];
      var w := WithChild(n, t);
      assert TokensBelow(w, bound) by {
        if !HasChild(n, t) {
          var r := Rank(n.children, t);
          var cs := n.children[..r] + [Leaf(t)] + n.children[r..];
          forall c | c in cs
            ensures c.token < bound && TokensBelow(c, bound)
          {
            if c != Leaf(t) {
              assert c in n.children;
            }
          }
        }
      }
      var i := IndexOfToken(w.children, t);
      assert w.children[i] in w.children;
      InsertTokensBelow(w.children[i], path[1..], bound);
      var cs := w.children[i := Insert(w.children[i], path[1..])];
      forall c | c in cs
        ensures c.token < bound && TokensBelow(c, bound)
      {
        var k :| 0 <= k < |cs| && cs[k] == c;
        if k != i {
          assert w.children[k] in w.children;
        }
      }
    }
  }

  lemma {:induction false} InsertAllTokensBelow(n: Node, paths: seq<seq<ushort>>, bound: nat)
    requires TokensBelow(n, bound)
    requires forall p :: p in paths ==> forall k :: 0 <= k < |p| ==> p[k] < bound
    ensures TokensBelow(InsertAll(n, paths), bound)
    decreases |paths|
  {
    if |paths| > 0 {
      InsertAllTokensBelow(n, paths[..|paths| - 1], bound);
      InsertTokensBelow(InsertAll(n, paths[..|paths| - 1]), paths[|paths| - 1], bound);
    }
  }

  /** Every token on a path of the trie is below the bound. */
  lemma {:induction false} ContainsTokensBelow(n: Node, path: seq<ushort>, bound: nat)
    requires TokensBelow(n, bound) && Contains(n, path)
    ensures forall k :: 0 <= k < |path| ==> path[k] < bound
    decreases |path|
  {
    if |path| > 0 {
      var c := FindChild(n, path[0]).value;
      ContainsTokensBelow(c, path[1..], bound);
      forall k | 0 <= k < |path|
        ensures path[k] < bound
      {
        if k > 0 {
          assert path[k] == path[1..][k - 1];
        }
      }
    }
  }

  /** The node a walk reaches keeps the trie invariants. */
  lemma {:induction false} WalkKeepsInvariants(n: Node, path: seq<ushort>, bound: nat)
    requires Walk(n, path).Some?
    ensures Sorted(n) ==> Sorted(Walk(n, path).value)
    ensures TokensBelow(n, bound) ==> TokensBelow(Walk(n, path).value, bound)
    decreases |path|
  {
    if |path| > 0 {
      WalkKeepsInvariants(FindChild(n, path[0]).value, path[1..], bound);
    }
  }

  /** A token the walk can step to next extends a path of the trie. */
  lemma {:induction false} WalkExtends(n: Node, path: seq<ushort>, c: Node)
    requires Walk(n, path).Some? && c in Walk(n, path).value.children
    requires Ascending(Walk(n, path).value.children)
    ensures Contains(n, path + [c.token])
    decreases |path|
  {
    if |path| == 0 {
      var m := n;
      var k :| 0 <= k < |m.children| && m.children[k] == c;
      var i := IndexOfToken(m.children, c.token);
      assert i <= k;
      assert [c.token][1..] == [];
    } else {
      assert (path + [c.token])[1..] == path[1..] + [c.token];
      WalkExtends(FindChild(n, path[0]).value, path[1..], c);
    }
  }

  // ---------------------------------------------------------------------------
  // Write and Read: pre-order token, branch, children
  // ---------------------------------------------------------------------------

  /** The (ushort) branch field: the number of children, cast. */
  function Branch(n: Node): ushort {
    |n.children| % 0x1_0000
  }

  /** Node.Write */
  function Write(n: Node): seq<byte>
    decreases n, |n.children| + 1
  {
    WriteUInt16(n.token) + WriteUInt16(Branch(n)) + WriteChildren(n, 0)
  }

  /** The loop over the children in Node.Write, from child i on. */
  function WriteChildren(n: Node, i: nat): seq<byte>
    requires i <= |n.children|
    decreases n, |n.children| - i
  {
    if i == |n.children| then [] else Write(n.children[i]) + WriteChildren(n, i + 1)
  }

  /** Node.Read, as a decoder: the node and the bytes after it. */
  function ReadNode(data: seq<byte>): (r: Result<(Node, seq<byte>)>)
    ensures r.Success? ==> |r.value.1| < |data|
    decreases |data|, 0
  {
    match ReadUInt16(data)
    case Failure(e) => Failure(e)
    case Success((token, rest)) =>
      match ReadUInt16(rest)
      case Failure(e) => Failure(e)
      case Success((branch, rest')) =>
        match ReadChildren(rest', branch)
        case Failure(e) => Failure(e)
        case Success((cs, rest'')) => Success((Node(token, cs), rest''))
  }

  /** count successive child nodes. */
  function ReadChildren(data: seq<byte>, count: nat): (r: Result<(seq<Node>, seq<byte>)>)
    ensures r.Success? ==> |r.value.0| == count && |r.value.1| <= |data|
    decreases |data|, 1
  {
    if count == 0 then Success(([], data))
    else
      match ReadNode(data)
      case Failure(e) => Failure(e)
      case Success((c, rest)) =>
        match ReadChildren(rest, count - 1)
        case Failure(e) => Failure(e)
        case Success((cs, rest')) => Success(([c] + cs, rest'))
  }

  /** Children already read, in front of the ones still to read. */
  function Prepend(prefix: seq<Node>, r: Result<(seq<Node>, seq<byte>)>): Result<(seq<Node>, seq<byte>)> {
    match r
    case Failure(e) => Failure(e)
    case Success((cs, rest)) => Success((prefix + cs, rest))
  }

  lemma PrependNothing(r: Result<(seq<Node>, seq<byte>)>)
    ensures Prepend([], r) == r
  {
    if r.Success? {
      assert [] + r.value.0 == r.value.0;
    }
  }

  lemma PrependCons(prefix: seq<Node>, c: Node, r: Result<(seq<Node>, seq<byte>)>)
    ensures Prepend(prefix, Prepend([c], r)) == Prepend(prefix + [c], r)
  {
    if r.Success? {
      assert prefix + ([c] + r.value.0) == prefix + [c] + r.value.0;
    }
  }

  /** Node.Read: reads token and branch, then each child in turn into a fresh children array. */
  method Read(data: seq<byte>) returns (r: Result<(Node, seq<byte>)>)
    ensures r == ReadNode(data)
    decreases |data|
  {
    var header := ReadUInt16(data);
    if header.Failure? {
      return Failure(header.error);
    }
    var token := header.value.0;
    var branchField := ReadUInt16(header.value.1);
    if branchField.Failure? {
      return Failure(branchField.error);
    }
    var branch := branchField.value.0;
    var rest := branchField.value.1;
    ghost var start := rest;
    var children := new Node[branch](_ => Leaf(0));
    var i := 0;
    PrependNothing(ReadChildren(start, branch));
    while i < branch
      invariant 0 <= i <= branch
      invariant |rest| < |data|
      invariant ReadChildren(start, branch) == Prepend(children[..i], ReadChildren(rest, branch - i))
    {
      var child := Read(rest);
      if child.Failure? {
        return Failure(child.error);
      }
      ghost var prefix := children[..i];
      ghost var more := ReadChildren(child.value.1, branch - i - 1);
      children[i] := child.value.0;
      assert children[..i + 1] == prefix + [child.value.0];
      PrependCons(prefix, child.value.0, more);
      rest := child.value.1;
      i := i + 1;
    }
    assert ReadChildren(rest, 0) == Success(([], rest));
    assert children[..branch] + [] == children[..];
    r := Success((Node(token, children[..]), rest));
  }

  /** Every node has fewer than 65,536 children, so the branch field holds the true count. */
  predicate WellSized(n: Node) {
    |n.children| < 0x1_0000 && forall c :: c in n.children ==> WellSized(c)
  }

  /** Read rebuilds the tree Write wrote, in pre-order, and leaves what followed. */
  lemma {:induction false} ReadWrite(n: Node, rest: seq<byte>)
    requires WellSized(n)
    ensures ReadNode(Write(n) + rest) == Success((n, rest))
    decreases n, |n.children| + 1
  {
    var body := WriteChildren(n, 0) + rest;
    assert Write(n) + rest == WriteUInt16(n.token) + (WriteUInt16(Branch(n)) + body);
    UInt16RoundTrip(n.token, WriteUInt16(Branch(n)) + body);
    UInt16RoundTrip(Branch(n), body);
    ReadWriteChildren(n, 0, rest);
    assert n.children[0..] == n.children;
  }

  lemma {:induction false} ReadWriteChildren(n: Node, i: nat, rest: seq<byte>)
    requires i <= |n.children|
    requires WellSized(n)
    ensures ReadChildren(WriteChildren(n, i) + rest, |n.children| - i) == Success((n.children[i..], rest))
    decreases n, |n.children| - i
  {
    if i == |n.children| {
      assert WriteChildren(n, i) + rest == rest;
      assert n.children[i..] == [];
    } else {
      var c := n.children[i];
      assert c in n.children;
      var tail := WriteChildren(n, i + 1) + rest;
      assert WriteChildren(n, i) + rest == Write(c) + tail;
      ReadWrite(c, tail);
      ReadWriteChildren(n, i + 1, rest);
      assert [c] + n.children[i + 1..] == n.children[i..];
    }
  }

  // ---------------------------------------------------------------------------
  // Count and CountBytes
  // ---------------------------------------------------------------------------

  /** Node.Count(level, targetLevel): nodes at targetLevel, or every node when it is -1. */
  function CountAt(n: Node, level: int, target: int): nat
    decreases n, |n.children| + 1
  {
    (if target == -1 || target == level then 1 else 0) + CountChildren(n, 0, level + 1, target)
  }

  /** The loop over the children in Node.Count, from child i on; the children sit at level. */
  function CountChildren(n: Node, i: nat, level: int, target: int): nat
    requires i <= |n.children|
    decreases n, |n.children| - i
  {
    if i == |n.children| then 0 else CountAt(n.children[i], level, target) + CountChildren(n, i + 1, level, target)
  }

  /** Node.Count(targetLevel), with the receiver at level 1. */
  function Count(n: Node, target: int): nat {
    CountAt(n, 1, target)
  }

  /** Node.Count(): every node, the receiver included. */
  function CountAll(n: Node): nat {
    Count(n, -1)
  }

  /** Node.CountBytes, with sizeof(Node) = 4 + pointerSize (two ushorts and a pointer, packed). */
  function CountBytes(n: Node, pointerSize: nat): nat
    decreases n, |n.children| + 1
  {
    (4 + pointerSize) + pointerSize * |n.children| + BytesOfChildren(n, 0, pointerSize)
  }

  function BytesOfChildren(n: Node, i: nat, pointerSize: nat): nat
    requires i <= |n.children|
    decreases n, |n.children| - i
  {
    if i == |n.children| then 0 else CountBytes(n.children[i], pointerSize) + BytesOfChildren(n, i + 1, pointerSize)
  }

  /** No node lies above the receiver's level: counting a level above it gives 0. */
  lemma {:induction false} CountAboveIsZero(n: Node, level: int, target: int)
    requires target != -1 && target < level
    ensures CountAt(n, level, target) == 0
    decreases n, |n.children| + 1
  {
    CountChildrenAboveIsZero(n, 0, level + 1, target);
  }

  lemma {:induction false} CountChildrenAboveIsZero(n: Node, i: nat, level: int, target: int)
    requires i <= |n.children|
    requires target != -1 && target < level
    ensures CountChildren(n, i, level, target) == 0
    decreases n, |n.children| - i
  {
    if i < |n.children| {
      assert n.children[i] in n.children;
      CountAboveIsZero(n.children[i], level, target);
      CountChildrenAboveIsZero(n, i + 1, level, target);
    }
  }

  lemma {:induction false} CountChildrenAtTheirLevel(n: Node, i: nat, level: int)
    requires i <= |n.children|
    requires level != -1
    ensures CountChildren(n, i, level, level) == |n.children| - i
    decreases |n.children| - i
  {
    if i < |n.children| {
      CountChildrenAboveIsZero(n.children[i], 0, level + 1, level);
      CountChildrenAtTheirLevel(n, i + 1, level);
    }
  }

  /** Count(2), the model's TotalTupleCount, is the number of the receiver's children. */
  lemma CountLevelTwo(n: Node)
    ensures Count(n, 2) == |n.children|
  {
    CountChildrenAtTheirLevel(n, 0, 2);
  }

  /** Count(1) is the receiver alone. */
  lemma CountLevelOne(n: Node)
    ensures Count(n, 1) == 1
  {
    CountChildrenAboveIsZero(n, 0, 2, 1);
  }

  /**
   * CountBytes is sizeof(Node) per node plus one pointer per edge: with N nodes
   * (Count()) there are N - 1 edges.
   */
  lemma {:induction false} CountBytesFormula(n: Node, p: nat)
    ensures CountAll(n) >= 1
    ensures CountBytes(n, p) == (4 + p) * CountAll(n) + p * (CountAll(n) - 1)
    decreases n, |n.children| + 1
  {
    var c := CountChildren(n, 0, 2, -1);
    BytesOfChildrenFormula(n, 0, p);
    assert CountAll(n) == 1 + c;
    assert (4 + 2 * p) * (1 + c) == (4 + 2 * p) + (4 + 2 * p) * c;
    assert (4 + p) * (1 + c) + p * c == (4 + 2 * p) * (1 + c) - p;
  }

  lemma {:induction false} BytesOfChildrenFormula(n: Node, i: nat, p: nat)
    requires i <= |n.children|
    ensures BytesOfChildren(n, i, p) + p * (|n.children| - i) == (4 + 2 * p) * CountChildren(n, i, 2, -1)
    decreases n, |n.children| - i
  {
    if i < |n.children| {
      var c := n.children[i];
      assert c in n.children;
      CountBytesFormula(c, p);
      CountAtAnyLevel(c, 2);
      BytesOfChildrenFormula(n, i + 1, p);
      BytesStep(CountBytes(c, p), BytesOfChildren(n, i + 1, p), CountAll(c), CountChildren(n, i + 1, 2, -1),
                p, |n.children| - i - 1);
    }
  }

  /** The arithmetic of one step of BytesOfChildrenFormula. */
  lemma BytesStep(bc: int, br: int, nc: int, rest: int, p: int, m: int)
    requires bc == (4 + p) * nc + p * (nc - 1)
    requires br + p * m == (4 + 2 * p) * rest
    ensures (bc + br) + p * (m + 1) == (4 + 2 * p) * (nc + rest)
  {
    assert p * (m + 1) == p * m + p;
    assert (4 + 2 * p) * (nc + rest) == (4 + 2 * p) * nc + (4 + 2 * p) * rest;
    assert (4 + p) * nc + p * (nc - 1) == (4 + 2 * p) * nc - p;
  }

  /** Counting every node does not depend on the level the count starts at. */
  lemma {:induction false} CountAtAnyLevel(n: Node, level: int)
    ensures CountAt(n, level, -1) == CountAll(n)
    decreases n, |n.children| + 1
  {
    CountChildrenAtAnyLevel(n, 0, level + 1);
  }

  lemma {:induction false} CountChildrenAtAnyLevel(n: Node, i: nat, level: int)
    requires i <= |n.children|
    ensures CountChildren(n, i, level, -1) == CountChildren(n, i, 2, -1)
    decreases n, |n.children| - i
  {
    if i < |n.children| {
      var c := n.children[i];
      assert c in n.children;
      CountAtAnyLevel(c, level);
      CountAtAnyLevel(c, 2);
      CountChildrenAtAnyLevel(n, i + 1, level);
    }
  }
}
