/** Forests of tokens, and how src/dsl/sexpr.c lays one out in its node array: preorder,
    with parent, first-child, next-sibling and last-child links. */
module SexprTree {
  import opened SexprLex

  datatype Tree = Atom(token: Token) | List(open: Token, items: seq<Tree>, close: Token)

  predicate Proper(t: Tree) {
    match t
    case Atom(token) => token.kind == Symbol || token.kind == String
    case List(open, items, close) =>
      open.kind == LParen && close.kind == RParen && forall item | item in items :: Proper(item)
  }

  predicate ProperAll(f: seq<Tree>) {
    forall t | t in f :: Proper(t)
  }

  function Flatten(t: Tree): (tokens: seq<Token>)
    ensures |tokens| > 0
    decreases t, 0
  {
    match t
    case Atom(token) => [token]
    case List(open, items, close) => [open] + FlattenAll(items) + [close]
  }

  function FlattenAll(f: seq<Tree>): seq<Token>
    decreases f, |f|
  {
    if f == [] then [] else FlattenAll(f[..|f| - 1]) + Flatten(f[|f| - 1])
  }

  /** All tokens of the tree lie inside the input, and its atoms are symbols and strings. */
  predicate TextIn(input: string, t: Tree) {
    match t
    case Atom(token) => TokenIn(input, token) && (token.kind == Symbol || token.kind == String)
    case List(open, items, close) =>
      TokenIn(input, open) && TokenIn(input, close) && forall item | item in items :: TextIn(input, item)
  }

  predicate TextInAll(input: string, f: seq<Tree>) {
    forall t | t in f :: TextIn(input, t)
  }

  /** The number of array nodes a tree takes. */
  function Size(t: Tree): (n: nat)
    ensures n > 0
    decreases t, 0
  {
    match t
    case Atom(_) => 1
    case List(_, items, _) => 1 + SizeAll(items)
  }

  function SizeAll(f: seq<Tree>): (n: nat)
    ensures f == [] <==> n == 0
    decreases f, |f|
  {
    if f == [] then 0 else SizeAll(f[..|f| - 1]) + Size(f[|f| - 1])
  }

  // ---- The node array ---------------------------------------------------------------

  const INVALID: nat := 0xFFFF_FFFF

  datatype NodeKind = ListNode | SymbolNode | StringNode

  datatype Node = Node(kind: NodeKind, span: Span, parent: nat, firstChild: nat, nextSibling: nat, lastChild: nat)

  function AtomKind(kind: TokenKind): NodeKind {
    if kind == Symbol then SymbolNode else StringNode
  }

  /** From the opening parenthesis to the end of the closing one, in 64-bit arithmetic. */
  function ListSpan(open: Span, close: Span): Span {
    Span(open.offset, (close.offset + close.length - open.offset) % 0x1_0000_0000_0000_0000)
  }

  /** Index of the root of child k of a list at lo - 1. */
  function RootIndex(lo: nat, f: seq<Tree>, k: nat): nat
    requires k <= |f|
  {
    lo + SizeAll(f[..k])
  }

  function FirstLink(lo: nat, f: seq<Tree>): nat {
    if f == [] then INVALID else lo
  }

  function LastLink(lo: nat, f: seq<Tree>): nat {
    if f == [] then INVALID else RootIndex(lo, f, |f| - 1)
  }

  /** Top-level forms are not linked to each other. */
  function NextLink(parent: nat, next: nat): nat {
    if parent == INVALID then INVALID else next
  }

  predicate RootOk(node: Node, i: nat, t: Tree, parent: nat, next: nat) {
    match t
    case Atom(token) => node == Node(AtomKind(token.kind), token.span, parent, INVALID, next, INVALID)
    case List(open, items, close) =>
      node == Node(ListNode, ListSpan(open.span, close.span), parent, FirstLink(i + 1, items), next, LastLink(i + 1, items))
  }

  /** The nodes from i on are exactly the tree t, under `parent`, followed by sibling `next`. */
  predicate TreeAt(nodes: seq<Node>, i: nat, t: Tree, parent: nat, next: nat)
    decreases t, 0
  {
    && i < |nodes| && RootOk(nodes[i], i, t, parent, next)
    && (t.List? ==> ForestAt(nodes, i + 1, t.items, i, INVALID))
  }

  /** The nodes from lo on are exactly the trees of f, under `parent`; the last one's sibling is `next`. */
  predicate ForestAt(nodes: seq<Node>, lo: nat, f: seq<Tree>, parent: nat, next: nat)
    decreases f, |f|
  {
    f == [] ||
    (var last := RootIndex(lo, f, |f| - 1);
     && ForestAt(nodes, lo, f[..|f| - 1], parent, NextLink(parent, last))
     && TreeAt(nodes, last, f[|f| - 1], parent, next))
  }

  /** The array is the forest. */
  predicate Represents(nodes: seq<Node>, f: seq<Tree>) {
    |nodes| == SizeAll(f) && ForestAt(nodes, 0, f, INVALID, INVALID)
  }

  // ---- Reading a represented forest -------------------------------------------------

  lemma {:induction false} SizeAllStep(f: seq<Tree>, k: nat)
    requires k < |f|
    ensures SizeAll(f[..k + 1]) == SizeAll(f[..k]) + Size(f[k])
  {
    assert f[..k + 1][..k] == f[..k];
  }

  lemma {:induction false} SizeAllMonotone(f: seq<Tree>, j: nat, k: nat)
    requires j <= k <= |f|
    ensures SizeAll(f[..j]) + (k - j) <= SizeAll(f[..k])
    decreases k - j
  {
    if j < k {
      SizeAllStep(f, k - 1);
      SizeAllMonotone(f, j, k - 1);
    }
  }

  /** Child k of a represented forest sits at its root index, linked to child k + 1. */
  lemma {:induction false} ChildAt(nodes: seq<Node>, lo: nat, f: seq<Tree>, parent: nat, next: nat, k: nat)
    requires ForestAt(nodes, lo, f, parent, next) && k < |f|
    ensures TreeAt(nodes, RootIndex(lo, f, k), f[k], parent,
                   if k + 1 < |f| then NextLink(parent, RootIndex(lo, f, k + 1)) else next)
    decreases |f|
  {
    if k + 1 < |f| {
      var front := f[..|f| - 1];
      ChildAt(nodes, lo, front, parent, NextLink(parent, RootIndex(lo, f, |f| - 1)), k);
      assert front[..k] == f[..k] && front[..k + 1] == f[..k + 1];
    }
  }

  /** The facts that make every walk over links terminate: links lead forward, to nodes
      with the expected parent, and the last child ends its chain. */
  predicate LinksOk(nodes: seq<Node>, j: nat)
    requires j < |nodes|
  {
    var n := nodes[j];
    && (n.parent == INVALID || (n.parent < j && nodes[n.parent].kind == ListNode))
    && (n.firstChild == INVALID || (n.firstChild == j + 1 < |nodes| && nodes[j + 1].parent == j))
    && (n.nextSibling == INVALID || (j < n.nextSibling < |nodes| && nodes[n.nextSibling].parent == n.parent))
    && (n.lastChild == INVALID <==> n.firstChild == INVALID)
    && (n.lastChild == INVALID
        || (j < n.lastChild < |nodes| && nodes[n.lastChild].parent == j && nodes[n.lastChild].nextSibling == INVALID))
  }

  predicate ParentOk(nodes: seq<Node>, i: nat, parent: nat) {
    parent == INVALID || (parent < i && parent < |nodes| && nodes[parent].kind == ListNode)
  }

  predicate NextOk(nodes: seq<Node>, end: nat, parent: nat, next: nat) {
    next == INVALID || (next == end < |nodes| && nodes[next].parent == parent)
  }

  lemma {:induction false} TreeLinks(nodes: seq<Node>, i: nat, t: Tree, parent: nat, next: nat, j: nat)
    requires TreeAt(nodes, i, t, parent, next) && i + Size(t) <= |nodes| <= INVALID
    requires ParentOk(nodes, i, parent) && NextOk(nodes, i + Size(t), parent, next)
    requires i <= j < i + Size(t)
    ensures LinksOk(nodes, j)
    decreases t, 0
  {
    if t.List? && t.items != [] {
      var items := t.items;
      ChildAt(nodes, i + 1, items, i, INVALID, 0);
      ChildAt(nodes, i + 1, items, i, INVALID, |items| - 1);
      SizeAllStep(items, |items| - 1);
      assert items[..0] == [] && items[..|items|] == items;
      if i < j {
        ForestLinks(nodes, i + 1, items, i, INVALID, j);
      }
    }
  }

  lemma {:induction false} ForestLinks(nodes: seq<Node>, lo: nat, f: seq<Tree>, parent: nat, next: nat, j: nat)
    requires ForestAt(nodes, lo, f, parent, next) && lo + SizeAll(f) <= |nodes| <= INVALID
    requires ParentOk(nodes, lo, parent) && NextOk(nodes, lo + SizeAll(f), parent, next)
    requires lo <= j < lo + SizeAll(f)
    ensures LinksOk(nodes, j)
    decreases f, |f|
  {
    var front, t := f[..|f| - 1], f[|f| - 1];
    var last := lo + SizeAll(front);
    if j < last {
      ForestLinks(nodes, lo, front, parent, NextLink(parent, last), j);
    } else {
      TreeLinks(nodes, last, t, parent, next, j);
    }
  }

  /** Every node of a represented forest has well-formed links. */
  lemma {:induction false} RepresentedLinks(nodes: seq<Node>, f: seq<Tree>, j: nat)
    requires Represents(nodes, f) && |nodes| <= INVALID && j < |nodes|
    ensures LinksOk(nodes, j)
  {
    ForestLinks(nodes, 0, f, INVALID, INVALID, j);
  }

  // ---- Walking the array ----------------------------------------------------------------

  /** What a walk over the array sees: lists being entered and left, and atoms. */
  datatype Event = Enter(offset: nat) | Leave | Leaf(kind: NodeKind, span: Span)

  function EventOf(token: Token): Event {
    match token.kind
    case LParen => Enter(token.span.offset)
    case RParen => Leave
    case _ => Leaf(AtomKind(token.kind), token.span)
  }

  function Events(tokens: seq<Token>): seq<Event> {
    seq(|tokens|, i requires 0 <= i < |tokens| => EventOf(tokens[i]))
  }

  function WalkNode(nodes: seq<Node>, i: nat): seq<Event>
    requires i < |nodes|
    decreases |nodes| - i, 0
  {
    var n := nodes[i];
    if n.kind != ListNode then [Leaf(n.kind, n.span)]
    else [Enter(n.span.offset)] + (if i < n.firstChild then WalkChain(nodes, n.firstChild) else []) + [Leave]
  }

  /** A node and the siblings after it. */
  function WalkChain(nodes: seq<Node>, i: nat): seq<Event>
    decreases |nodes| - i, 1
  {
    if i >= |nodes| then []
    else WalkNode(nodes, i) + (if i < nodes[i].nextSibling then WalkChain(nodes, nodes[i].nextSibling) else [])
  }

  /** The top-level forms, found the way the array's readers find them: by having no parent. */
  function WalkAll(nodes: seq<Node>, i: nat): seq<Event>
    decreases |nodes| - i
  {
    if i >= |nodes| then []
    else (if nodes[i].parent == INVALID then WalkNode(nodes, i) else []) + WalkAll(nodes, i + 1)
  }

  lemma {:induction false} FlattenFront(f: seq<Tree>)
    requires f != []
    ensures FlattenAll(f) == Flatten(f[0]) + FlattenAll(f[1..])
  {
    FlattenCons(f[0], f[1..]);
    assert f == [f[0]] + f[1..];
  }

  lemma {:induction false} FlattenCons(t: Tree, rest: seq<Tree>)
    ensures FlattenAll([t] + rest) == Flatten(t) + FlattenAll(rest)
    decreases |rest|
  {
    hide Flatten;
    FlattenLast([t] + rest);
    if rest == [] {
      assert [t] + rest == [t];
    } else {
      var front, last := rest[..|rest| - 1], Flatten(rest[|rest| - 1]);
      FlattenLast(rest);
      hide FlattenAll;
      FlattenCons(t, front);
      assert ([t] + rest)[..|rest|] == [t] + front;
      Regroup(Flatten(t), FlattenAll(front), last);
    }
  }

  lemma {:induction false} FlattenLast(f: seq<Tree>)
    requires f != []
    ensures FlattenAll(f) == FlattenAll(f[..|f| - 1]) + Flatten(f[|f| - 1]) && FlattenAll([]) == []
  {
  }

  lemma Regroup(a: seq<Token>, b: seq<Token>, c: seq<Token>)
    ensures a + b + c == a + (b + c)
  {
  }

  lemma {:induction false} EventsAppend(a: seq<Token>, b: seq<Token>)
    ensures Events(a + b) == Events(a) + Events(b)
  {
  }

  lemma {:induction false} TreeWalk(nodes: seq<Node>, i: nat, t: Tree, parent: nat, next: nat)
    requires TreeAt(nodes, i, t, parent, next) && Proper(t) && |nodes| <= INVALID
    ensures WalkNode(nodes, i) == Events(Flatten(t))
    decreases t, 0
  {
    if t.List? {
      ChainWalk(nodes, i + 1, t.items, i, 0);
      assert t.items[0..] == t.items && t.items[..0] == [];
      EventsAppend([t.open], FlattenAll(t.items));
      EventsAppend([t.open] + FlattenAll(t.items), [t.close]);
      assert Events([t.open]) == [Enter(t.open.span.offset)] && Events([t.close]) == [Leave];
    }
  }

  lemma {:induction false} ChainWalk(nodes: seq<Node>, lo: nat, f: seq<Tree>, parent: nat, k: nat)
    requires ForestAt(nodes, lo, f, parent, INVALID) && parent != INVALID && k <= |f|
    requires ProperAll(f) && |nodes| <= INVALID
    ensures WalkChain(nodes, if k < |f| then RootIndex(lo, f, k) else INVALID) == Events(FlattenAll(f[k..]))
    decreases f, |f| - k
  {
    if k < |f| {
      var i := RootIndex(lo, f, k);
      ChildAt(nodes, lo, f, parent, INVALID, k);
      SizeAllStep(f, k);
      var next := if k + 1 < |f| then RootIndex(lo, f, k + 1) else INVALID;
      TreeWalk(nodes, i, f[k], parent, next);
      ChainWalk(nodes, lo, f, parent, k + 1);
      assert f[k..][1..] == f[k + 1..];
      FlattenFront(f[k..]);
      EventsAppend(Flatten(f[k]), FlattenAll(f[k + 1..]));
    }
  }

  /** A node inside a tree has a parent. */
  lemma {:induction false} InnerHasParent(nodes: seq<Node>, i: nat, t: Tree, parent: nat, next: nat, j: nat)
    requires TreeAt(nodes, i, t, parent, next) && i < j < i + Size(t) <= |nodes| <= INVALID
    ensures nodes[j].parent != INVALID
    decreases t, 0
  {
    ForestHasParent(nodes, i + 1, t.items, i, INVALID, j);
  }

  lemma {:induction false} ForestHasParent(nodes: seq<Node>, lo: nat, f: seq<Tree>, parent: nat, next: nat, j: nat)
    requires ForestAt(nodes, lo, f, parent, next) && parent != INVALID
    requires lo <= j < lo + SizeAll(f) <= |nodes| <= INVALID
    ensures nodes[j].parent != INVALID
    decreases f, |f|
  {
    var front, t := f[..|f| - 1], f[|f| - 1];
    var last := lo + SizeAll(front);
    if j < last {
      ForestHasParent(nodes, lo, front, parent, NextLink(parent, last), j);
    } else if last < j {
      InnerHasParent(nodes, last, t, parent, next, j);
    }
  }

  lemma {:induction false} WalkSkips(nodes: seq<Node>, i: nat, end: nat)
    requires i <= end <= |nodes| && forall j :: i <= j < end ==> nodes[j].parent != INVALID
    ensures WalkAll(nodes, i) == WalkAll(nodes, end)
    decreases end - i
  {
    if i < end {
      WalkSkips(nodes, i + 1, end);
    }
  }

  lemma {:induction false} TopTreeWalk(nodes: seq<Node>, i: nat, t: Tree)
    requires TreeAt(nodes, i, t, INVALID, INVALID) && Proper(t) && i + Size(t) <= |nodes| <= INVALID
    ensures WalkAll(nodes, i) == Events(Flatten(t)) + WalkAll(nodes, i + Size(t))
  {
    hide WalkNode, Flatten, Events;
    TreeWalk(nodes, i, t, INVALID, INVALID);
    forall j | i < j < i + Size(t)
      ensures nodes[j].parent != INVALID
    {
      InnerHasParent(nodes, i, t, INVALID, INVALID, j);
    }
    WalkSkips(nodes, i + 1, i + Size(t));
  }

  lemma WalkEnd(nodes: seq<Node>)
    ensures WalkAll(nodes, |nodes|) == Events(FlattenAll([])) == []
  {
  }

  lemma {:induction false} TopWalk(nodes: seq<Node>, f: seq<Tree>, k: nat, rest: seq<Tree>)
    requires Represents(nodes, f) && ProperAll(f) && |nodes| <= INVALID && k <= |f| && rest == f[k..]
    ensures WalkAll(nodes, RootIndex(0, f, k)) == Events(FlattenAll(rest))
    decreases |f| - k
  {
    hide Flatten, FlattenAll, WalkAll, ForestAt, TreeAt, Events, SizeAll, Size, Proper;
    if k == |f| {
      assert f[..k] == f && rest == [];
      WalkEnd(nodes);
    } else {
      var i := RootIndex(0, f, k);
      ChildAt(nodes, 0, f, INVALID, INVALID, k);
      SizeAllStep(f, k);
      SizeAllMonotone(f, k + 1, |f|);
      assert f[..|f|] == f;
      TopTreeWalk(nodes, i, f[k]);
      TopWalk(nodes, f, k + 1, rest[1..]);
      FlattenFront(rest);
      EventsAppend(Flatten(f[k]), FlattenAll(rest[1..]));
    }
  }

  /** Walking a represented forest by its links alone gives back the tokens it was built from. */
  lemma {:induction false} WalkGivesTokens(nodes: seq<Node>, f: seq<Tree>)
    requires Represents(nodes, f) && ProperAll(f) && |nodes| <= INVALID
    ensures WalkAll(nodes, 0) == Events(FlattenAll(f))
  {
    assert f[0..] == f && f[..0] == [];
    TopWalk(nodes, f, 0, f);
  }
}
