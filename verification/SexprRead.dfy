/** How the rest of the program reads parsed text: through cursors over the node array. What a
    node says is a form, free of positions. */
module SexprRead {
  import opened Statuses
  import opened SexprLex
  import opened SexprTree
  import opened SexprParse

  datatype Form = Word(text: string) | Quoted(payload: string) | Group(items: seq<Form>)

  /** A list that begins with this word. */
  predicate Headed(form: Form, name: string) {
    form.Group? && form.items != [] && form.items[0] == Word(name)
  }

  /** What a tree over `input` says; escapes in a quoted text stay as they are written. */
  function FormOf(input: string, t: Tree): (f: Form)
    requires TextIn(input, t)
    ensures f.Group? <==> t.List?
    ensures f.Group? ==> |f.items| == |t.items|
  {
    match t
    case Atom(token) =>
      var text := token.span.Text(input);
      if token.kind == String then Quoted(text[1..|text| - 1]) else Word(text)
    case List(_, items, _) => Group(FormsOf(input, items))
  }

  function FormsOf(input: string, f: seq<Tree>): (r: seq<Form>)
    requires TextInAll(input, f)
    ensures |r| == |f|
  {
    seq(|f|, k requires 0 <= k < |f| => FormOf(input, f[k]))
  }

  lemma {:induction false} ItemForm(input: string, t: Tree, k: nat)
    requires t.List? && k < |t.items| && TextIn(input, t)
    ensures FormOf(input, t).items[k] == FormOf(input, t.items[k])
  {
    assert FormOf(input, t) == Group(FormsOf(input, t.items));
  }

  // ---- Parsing a text ------------------------------------------------------------------

  /** The text is the forest, within these capacities. */
  ghost predicate Reads(input: string, tokenCapacity: nat, nodeCapacity: nat, forest: seq<Tree>) {
    && Lex(input, START) == Lexed(FlattenAll(forest), None) && |FlattenAll(forest)| <= tokenCapacity
    && SizeAll(forest) <= nodeCapacity && ProperAll(forest) && TextInAll(input, forest)
  }

  /** A text reads as at most one forest. */
  lemma {:induction false} ReadsOnce(input: string, tokens: nat, nodes: nat, f: seq<Tree>, tokens': nat, nodes': nat,
                                     g: seq<Tree>)
    requires Reads(input, tokens, nodes, f) && Reads(input, tokens', nodes', g)
    ensures f == g
  {
    FlattenInjective(f, g);
  }

  /** Which texts fail, and why. */
  lemma {:induction false} ReadsMeans(input: string, tokenCapacity: nat, nodeCapacity: nat, forest: seq<Tree>)
    requires Reads(input, tokenCapacity, nodeCapacity, forest)
    ensures var lexed := Lex(input, START);
            && lexed.error.None? && |lexed.tokens| <= tokenCapacity
            && Run(Top([]), lexed.tokens) == Some(Top(forest)) && NodeCount(lexed.tokens) <= nodeCapacity
  {
    hide Lex;
    RunForest(Top([]), forest);
    assert [] + forest == forest;
    RunFacts(Top([]), FlattenAll(forest));
  }

  lemma {:induction false} ReadsFrom(input: string, tokenCapacity: nat, nodeCapacity: nat, forest: seq<Tree>)
    requires Lex(input, START).error.None? && |Lex(input, START).tokens| <= tokenCapacity
    requires Run(Top([]), Lex(input, START).tokens) == Some(Top(forest))
    requires NodeCount(Lex(input, START).tokens) <= nodeCapacity
    ensures Reads(input, tokenCapacity, nodeCapacity, forest)
  {
    var tokens := Lex(input, START).tokens;
    LexedIn(input, START);
    hide Lex;
    RunFacts(Top([]), tokens);
    assert [] + tokens == tokens;
    FlattenedIn(input, forest);
  }

  lemma {:induction false} TreeIn(input: string, t: Tree)
    requires Proper(t) && forall token | token in Flatten(t) :: TokenIn(input, token)
    ensures TextIn(input, t)
    decreases t, 0
  {
    match t
    case Atom(token) => assert token in Flatten(t);
    case List(open, items, close) =>
      assert Flatten(t)[0] == open && Flatten(t)[|Flatten(t)| - 1] == close;
      forall token | token in FlattenAll(items)
        ensures TokenIn(input, token)
      {
        assert token in Flatten(t);
      }
      FlattenedIn(input, items);
  }

  lemma {:induction false} FlattenedIn(input: string, f: seq<Tree>)
    requires ProperAll(f) && forall token | token in FlattenAll(f) :: TokenIn(input, token)
    ensures TextInAll(input, f)
    decreases f, |f|
  {
    if f != [] {
      var front, last := f[..|f| - 1], f[|f| - 1];
      assert FlattenAll(f) == FlattenAll(front) + Flatten(last);
      FlattenedIn(input, front);
      TreeIn(input, last);
      assert f == front + [last];
    }
  }

  /** The status of parsing a text, from its tokens and the capacities alone. */
  function TextStatus(input: string, tokenCapacity: nat, nodeCapacity: nat): Status {
    var lexed := Lex(input, START);
    if tokenCapacity == 0 then InvalidArg
    else if |lexed.tokens| > tokenCapacity then Limit
    else if lexed.error.Some? then Format
    else if nodeCapacity == 0 then InvalidArg
    else StatusFrom(0, lexed.tokens, nodeCapacity)
  }

  method ParseText(input: string, tokens: array<Token>, nodes: array<Node>)
    returns (status: Status, count: nat, ghost forest: seq<Tree>)
    requires nodes.Length <= INVALID
    modifies tokens, nodes
    ensures count <= nodes.Length
    ensures status == TextStatus(input, tokens.Length, nodes.Length)
    ensures status == Ok ==> Reads(input, tokens.Length, nodes.Length, forest) && Represents(nodes[..count], forest)
    ensures tokens.Length > 0 && nodes.Length > 0 ==> status in {Ok, Limit, Format}
  {
    hide Lex, Run, NodeCount, Represents, StatusFrom;
    forest := [];
    ghost var lexed := Lex(input, START);
    var tokenCount, error;
    status, tokenCount, error := Tokenize(input, tokens);
    count := 0;
    if status == Ok {
      ghost var outcome;
      assert tokens[..tokenCount] == lexed.tokens;
      status, count, error, outcome := Parse(tokens[..tokenCount], nodes);
      if nodes.Length == 0 {
        return;
      }
      StatusDecided(outcome, lexed.tokens, nodes.Length);
      if outcome.Parsed? {
        forest := outcome.forest;
        ReadsFrom(input, tokens.Length, nodes.Length, forest);
      }
    }
  }

  /** A text parses exactly when it reads as a forest within the capacities. */
  lemma {:induction false} StatusMeans(input: string, tokenCapacity: nat, nodeCapacity: nat)
    ensures TextStatus(input, tokenCapacity, nodeCapacity) == Ok
       <==> tokenCapacity > 0 && nodeCapacity > 0 && exists f :: Reads(input, tokenCapacity, nodeCapacity, f)
  {
    var tokens := Lex(input, START).tokens;
    hide Lex, Reads;
    if f :| Reads(input, tokenCapacity, nodeCapacity, f) {
      ReadsMeans(input, tokenCapacity, nodeCapacity, f);
      StatusDecided(Parsed(f), tokens, nodeCapacity);
    }
    if TextStatus(input, tokenCapacity, nodeCapacity) == Ok {
      StatusOk(Top([]), tokens, nodeCapacity);
      ReadsFrom(input, tokenCapacity, nodeCapacity, Run(Top([]), tokens).value.done);
    }
  }

  /** The forest a text that parses reads as. */
  ghost function ForestOf(input: string, tokenCapacity: nat, nodeCapacity: nat): (f: seq<Tree>)
    requires TextStatus(input, tokenCapacity, nodeCapacity) == Ok
    ensures Reads(input, tokenCapacity, nodeCapacity, f)
  {
    StatusMeans(input, tokenCapacity, nodeCapacity);
    var f :| Reads(input, tokenCapacity, nodeCapacity, f);
    f
  }

  /** A good status means that the tokens close all lists, and that there is room. */
  lemma {:induction false} StatusOk(fr: Frames, tokens: seq<Token>, room: nat)
    requires StatusFrom(fr.Depth(), tokens, room) == Ok
    ensures Run(fr, tokens).Some? && Run(fr, tokens).value.Top? && NodeCount(tokens) <= room
    decreases |tokens|
  {
    DepthMeans(fr);
    if tokens != [] {
      StepFacts(fr, tokens[0]);
      NodeCountFront(tokens);
      StatusOk(fr.Step(tokens[0]), tokens[1..], if tokens[0].kind == RParen then room else room - 1);
    }
  }

  // ---- Cursors ---------------------------------------------------------------------------

  function KindOf(t: Tree): NodeKind {
    if t.List? then ListNode else AtomKind(t.token.kind)
  }

  /** The index of child k of the list at c, or INVALID behind its last child. */
  function ChildIndex(c: nat, items: seq<Tree>, k: nat): nat
    requires k <= |items|
  {
    if k < |items| then RootIndex(c + 1, items, k) else INVALID
  }

  lemma ChildIndexEnds(c: nat, items: seq<Tree>, k: nat)
    requires k <= |items| && ChildIndex(c, items, k) != INVALID
    ensures k < |items|
  {
  }

  /** Node c stands for the tree t: a reader that follows links from c sees t. */
  predicate Stands(nodes: seq<Node>, c: nat, t: Tree) {
    && c < |nodes| && nodes[c].kind == KindOf(t)
    && match t
       case Atom(token) => nodes[c].span == token.span && nodes[c].firstChild == INVALID
       case List(open, items, close) =>
         && nodes[c].span == ListSpan(open.span, close.span) && nodes[c].firstChild == ChildIndex(c, items, 0)
         && ForestAt(nodes, c + 1, items, c, INVALID)
  }

  /** The walk over the children of a list: each child stands for its item and links to the next,
      further on in the array, and the last to INVALID. */
  lemma {:induction false} ChildStands(nodes: seq<Node>, c: nat, t: Tree, k: nat)
    requires |nodes| <= INVALID && Stands(nodes, c, t) && t.List? && k < |t.items|
    ensures var child := ChildIndex(c, t.items, k);
            && c < child < |nodes| && Stands(nodes, child, t.items[k]) && nodes[child].parent == c
            && nodes[child].nextSibling == ChildIndex(c, t.items, k + 1)
    ensures k == 0 ==> nodes[c].firstChild == ChildIndex(c, t.items, 0)
  {
    ChildAt(nodes, c + 1, t.items, c, INVALID, k);
    assert t.items[..0] == [];
  }

  /** The roots of a represented forest. */
  lemma {:induction false} RootStands(nodes: seq<Node>, f: seq<Tree>, k: nat)
    requires Represents(nodes, f) && k < |f|
    ensures var i := RootIndex(0, f, k); Stands(nodes, i, f[k]) && nodes[i].parent == INVALID
  {
    ChildAt(nodes, 0, f, INVALID, INVALID, k);
  }

  function FirstChild(nodes: seq<Node>, c: nat): nat
    requires c < |nodes|
  {
    nodes[c].firstChild
  }

  function SecondChild(nodes: seq<Node>, c: nat): nat
    requires c < |nodes| && (nodes[c].firstChild == INVALID || nodes[c].firstChild < |nodes|)
  {
    if nodes[c].firstChild == INVALID then INVALID else nodes[nodes[c].firstChild].nextSibling
  }

  /** The first two links of a list lead to its first two items, and the link behind the second
      tells whether there is a third. */
  lemma {:induction false} FirstChildren(nodes: seq<Node>, c: nat, t: Tree)
    requires |nodes| <= INVALID && Stands(nodes, c, t) && t.List?
    ensures c < |nodes| && FirstChild(nodes, c) == ChildIndex(c, t.items, 0)
    ensures nodes[c].firstChild == INVALID || nodes[c].firstChild < |nodes|
    ensures FirstChild(nodes, c) == INVALID || FirstChild(nodes, c) < |nodes|
    ensures |t.items| >= 1 ==> FirstChild(nodes, c) < |nodes| && Stands(nodes, FirstChild(nodes, c), t.items[0])
                               && SecondChild(nodes, c) == ChildIndex(c, t.items, 1)
    ensures |t.items| >= 2 ==> SecondChild(nodes, c) < |nodes| && Stands(nodes, SecondChild(nodes, c), t.items[1])
                               && nodes[SecondChild(nodes, c)].nextSibling == ChildIndex(c, t.items, 2)
    ensures FirstChild(nodes, c) == INVALID <==> |t.items| == 0
    ensures SecondChild(nodes, c) == INVALID <==> |t.items| <= 1
  {
    if |t.items| >= 1 {
      ChildStands(nodes, c, t, 0);
    }
    if |t.items| >= 2 {
      ChildStands(nodes, c, t, 1);
    }
  }

  predicate SpanIs(input: string, span: Span, text: string) {
    span.In(input) && span.Text(input) == text
  }

  /** The part of a string node between its quotes. */
  function PayloadSpan(node: Node): Option<Span> {
    if node.kind != StringNode || node.span.length < 2 then None
    else Some(Span(node.span.offset + 1, node.span.length - 2))
  }

  /** What a node says, read off its kind and span. */
  lemma {:induction false} NodeSays(input: string, nodes: seq<Node>, c: nat, t: Tree)
    requires Stands(nodes, c, t) && TextIn(input, t)
    ensures nodes[c].kind == ListNode <==> FormOf(input, t).Group?
    ensures nodes[c].kind == SymbolNode <==> FormOf(input, t).Word?
    ensures nodes[c].kind == StringNode <==> FormOf(input, t).Quoted?
    ensures nodes[c].kind == SymbolNode ==>
      nodes[c].span.In(input) && nodes[c].span.length > 0 && nodes[c].span.Text(input) == FormOf(input, t).text
    ensures PayloadSpan(nodes[c]).Some? <==> FormOf(input, t).Quoted?
    ensures PayloadSpan(nodes[c]).Some? ==>
      PayloadSpan(nodes[c]).value.In(input) && PayloadSpan(nodes[c]).value.Text(input) == FormOf(input, t).payload
  {
    if nodes[c].kind == StringNode {
      PayloadText(input, nodes[c].span);
    }
  }

  lemma {:induction false} PayloadText(input: string, span: Span)
    requires span.In(input) && span.length >= 2
    ensures Span(span.offset + 1, span.length - 2).Text(input) == span.Text(input)[1..span.length - 1]
  {
    var payload, text := Span(span.offset + 1, span.length - 2).Text(input), span.Text(input);
    assert forall k | 0 <= k < span.length - 2 :: payload[k] == input[span.offset + 1 + k] == text[k + 1];
  }

  /** One step of a walk over the children of a list: where the cursor is, what it sees, and
      where it goes next. */
  lemma {:induction false} ChildSays(input: string, nodes: seq<Node>, c: nat, t: Tree, k: nat)
    requires |nodes| <= INVALID && Stands(nodes, c, t) && t.List? && k < |t.items| && TextIn(input, t)
    ensures var child := ChildIndex(c, t.items, k);
            && c < child < |nodes| && child != INVALID && Stands(nodes, child, t.items[k]) && TextIn(input, t.items[k])
            && nodes[child].nextSibling == ChildIndex(c, t.items, k + 1)
            && FormOf(input, t).items[k] == FormOf(input, t.items[k])
            && (nodes[child].kind == ListNode <==> t.items[k].List?)
  {
    ChildStands(nodes, c, t, k);
    ItemForm(input, t, k);
  }

  /** A child of a list, and what its node says. */
  lemma {:induction false} ItemSays(input: string, nodes: seq<Node>, c: nat, t: Tree, k: nat, child: nat)
    requires |nodes| <= INVALID && Stands(nodes, c, t) && t.List? && k < |t.items| && TextIn(input, t)
    requires child == ChildIndex(c, t.items, k)
    ensures child < |nodes|
    ensures var item := FormOf(input, t).items[k];
            && (nodes[child].kind == SymbolNode <==> item.Word?)
            && (nodes[child].kind == StringNode <==> item.Quoted?)
            && (nodes[child].kind == ListNode <==> item.Group?)
            && (nodes[child].kind == SymbolNode ==>
                  nodes[child].span.In(input) && nodes[child].span.length > 0
                  && nodes[child].span.Text(input) == item.text)
  {
    ChildSays(input, nodes, c, t, k);
    hide FormOf;
    NodeSays(input, nodes, child, t.items[k]);
  }
}
