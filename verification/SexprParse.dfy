/** The tree builder of src/dsl/sexpr.c: one pass over the tokens, linking nodes in place. */
module SexprParse {
  import opened Statuses
  import opened SexprLex
  import opened SexprTree

  // ---- Which token sequences parse -----------------------------------------------

  /** The tokens close exactly `depth` lists that were opened before them. */
  predicate Balanced(tokens: seq<Token>, depth: nat) {
    if tokens == [] then depth == 0
    else match tokens[0].kind
      case LParen => Balanced(tokens[1..], depth + 1)
      case RParen => depth > 0 && Balanced(tokens[1..], depth - 1)
      case _ => Balanced(tokens[1..], depth)
  }

  function NodeCount(tokens: seq<Token>): (n: nat)
    ensures n <= |tokens|
  {
    if tokens == [] then 0
    else NodeCount(tokens[..|tokens| - 1]) + if tokens[|tokens| - 1].kind == RParen then 0 else 1
  }

  // ---- The parser's open lists, as a value -------------------------------------------

  /** What has been read so far: finished trees, and the lists still open around them. */
  datatype Frames =
    | Top(done: seq<Tree>)
    | Nested(outer: Frames, open: Token, done: seq<Tree>)
  {
    function Depth(): nat {
      if Top? then 0 else outer.Depth() + 1
    }

    /** Nodes in use. */
    function Count(): nat {
      if Top? then SizeAll(done) else outer.Count() + 1 + SizeAll(done)
    }

    /** Index of the innermost open list. */
    function Current(): nat {
      if Top? then INVALID else outer.Count()
    }

    function Tokens(): seq<Token> {
      if Top? then FlattenAll(done) else outer.Tokens() + [open] + FlattenAll(done)
    }

    function Add(t: Tree): Frames {
      if Top? then Top(done + [t]) else Nested(outer, open, done + [t])
    }

    function Step(token: Token): Frames
      requires token.kind == RParen ==> Nested?
    {
      match token.kind
      case LParen => Nested(this, token, [])
      case RParen => outer.Add(List(open, done, token))
      case _ => Add(Atom(token))
    }

    predicate Proper() {
      ProperAll(done) && (Nested? ==> open.kind == LParen && outer.Proper())
    }
  }

  lemma {:induction false} AddFacts(fr: Frames, t: Tree)
    ensures fr.Add(t).Depth() == fr.Depth() && fr.Add(t).Current() == fr.Current()
    ensures fr.Add(t).Count() == fr.Count() + Size(t)
    ensures fr.Add(t).Tokens() == fr.Tokens() + Flatten(t)
    ensures fr.Proper() && Proper(t) ==> fr.Add(t).Proper()
  {
    assert (fr.done + [t])[..|fr.done|] == fr.done;
  }

  lemma {:induction false} StepFacts(fr: Frames, token: Token)
    requires token.kind == RParen ==> fr.Nested?
    ensures var next := fr.Step(token);
            && next.Tokens() == fr.Tokens() + [token]
            && next.Count() == fr.Count() + (if token.kind == RParen then 0 else 1)
            && next.Depth() == fr.Depth() + (if token.kind == LParen then 1 else if token.kind == RParen then -1 else 0)
            && (fr.Proper() ==> next.Proper())
  {
    match token.kind
    case LParen =>
      assert fr.Tokens() + [token] + FlattenAll([]) == fr.Tokens() + [token];
    case RParen =>
      var t := List(fr.open, fr.done, token);
      AddFacts(fr.outer, t);
      assert fr.Tokens() + [token] == fr.outer.Tokens() + ([fr.open] + FlattenAll(fr.done) + [token]);
    case _ =>
      AddFacts(fr, Atom(token));
  }

  // ---- The array holds the frames ----------------------------------------------------

  /** `child` is the index of the list open inside this frame, or INVALID for the innermost. */
  predicate FramesAt(nodes: seq<Node>, fr: Frames, child: nat) {
    match fr
    case Top(done) => ForestAt(nodes, 0, done, INVALID, INVALID)
    case Nested(outer, open, done) =>
      var cur := outer.Count();
      && cur < |nodes|
      && nodes[cur] == OpenNode(cur, outer.Current(), open, done, child)
      && ForestAt(nodes, cur + 1, done, cur, child)
      && FramesAt(nodes, outer, cur)
  }

  function OpenNode(cur: nat, parent: nat, open: Token, done: seq<Tree>, child: nat): Node {
    Node(ListNode, open.span, parent,
         if child != INVALID then cur + 1 else FirstLink(cur + 1, done),
         INVALID,
         if child != INVALID then child else LastLink(cur + 1, done))
  }

  predicate Same(a: seq<Node>, b: seq<Node>, lo: nat, hi: nat) {
    hi <= |a| && hi <= |b| && forall k :: lo <= k < hi ==> a[k] == b[k]
  }

  /** A representation depends only on the nodes it covers. */
  lemma {:induction false} TreeAgrees(a: seq<Node>, b: seq<Node>, i: nat, t: Tree, parent: nat, next: nat)
    requires TreeAt(a, i, t, parent, next) && Same(a, b, i, i + Size(t))
    ensures TreeAt(b, i, t, parent, next)
    decreases t, 0
  {
    if t.List? {
      ForestAgrees(a, b, i + 1, t.items, i, INVALID);
    }
  }

  lemma {:induction false} ForestAgrees(a: seq<Node>, b: seq<Node>, lo: nat, f: seq<Tree>, parent: nat, next: nat)
    requires ForestAt(a, lo, f, parent, next) && Same(a, b, lo, lo + SizeAll(f))
    ensures ForestAt(b, lo, f, parent, next)
    decreases f, |f|
  {
    if f != [] {
      var front, t := f[..|f| - 1], f[|f| - 1];
      var last := lo + SizeAll(front);
      ForestAgrees(a, b, lo, front, parent, NextLink(parent, last));
      TreeAgrees(a, b, last, t, parent, next);
    }
  }

  lemma {:induction false} FramesAgree(a: seq<Node>, b: seq<Node>, fr: Frames, child: nat)
    requires FramesAt(a, fr, child) && Same(a, b, 0, fr.Count())
    ensures FramesAt(b, fr, child)
    decreases fr
  {
    match fr
    case Top(done) => ForestAgrees(a, b, 0, done, INVALID, INVALID);
    case Nested(outer, open, done) =>
      FramesAgree(a, b, outer, outer.Count());
      ForestAgrees(a, b, outer.Count() + 1, done, outer.Count(), child);
  }

  /** push_node, on the value of the array: append the node and link it behind its siblings. */
  function PushNode(nodes: seq<Node>, kind: NodeKind, span: Span, parent: nat): seq<Node>
    requires parent != INVALID ==> parent < |nodes|
    requires parent != INVALID && nodes[parent].firstChild != INVALID ==> nodes[parent].lastChild < |nodes|
  {
    var index := |nodes|;
    var grown := nodes + [Node(kind, span, parent, INVALID, INVALID, INVALID)];
    if parent == INVALID then grown
    else if grown[parent].firstChild == INVALID then
      grown[parent := grown[parent].(firstChild := index, lastChild := index)]
    else
      var last := grown[parent].lastChild;
      var linked := grown[last := grown[last].(nextSibling := index)];
      linked[parent := linked[parent].(lastChild := index)]
  }

  /** Only the last root of a forest knows what follows it. */
  lemma {:induction false} Relink(a: seq<Node>, b: seq<Node>, lo: nat, f: seq<Tree>, parent: nat, next: nat)
    requires f != [] && ForestAt(a, lo, f, parent, INVALID)
    requires var n, last := lo + SizeAll(f), RootIndex(lo, f, |f| - 1);
             && last < n <= |a| && Same(a, b, lo, last) && Same(a, b, last + 1, n)
             && n <= |b| && b[last] == a[last].(nextSibling := next)
    ensures ForestAt(b, lo, f, parent, next)
  {
    var front, t := f[..|f| - 1], f[|f| - 1];
    var last := lo + SizeAll(front);
    ForestAgrees(a, b, lo, front, parent, NextLink(parent, last));
    if t.List? {
      ForestAgrees(a, b, last + 1, t.items, last, INVALID);
    }
  }

  /** push_node patches nothing but the open list and its last child. */
  lemma {:induction false} PushPatches(nodes: seq<Node>, kind: NodeKind, span: Span, parent: nat)
    requires parent < |nodes| < INVALID
    requires nodes[parent].firstChild != INVALID ==> parent < nodes[parent].lastChild < |nodes|
    ensures var after, n, last := PushNode(nodes, kind, span, parent), |nodes|, nodes[parent].lastChild;
            && |after| == n + 1 && Same(nodes, after, 0, parent)
            && after[n] == Node(kind, span, parent, INVALID, INVALID, INVALID)
            && if nodes[parent].firstChild == INVALID then
                 after[parent] == nodes[parent].(firstChild := n, lastChild := n)
               else
                 && after[parent] == nodes[parent].(lastChild := n)
                 && after[last] == nodes[last].(nextSibling := n)
                 && Same(nodes, after, parent + 1, last) && Same(nodes, after, last + 1, n)
  {
  }

  lemma {:induction false} PushIntoOpen(nodes: seq<Node>, fr: Frames, kind: NodeKind, span: Span, after: seq<Node>)
    requires fr.Nested? && |nodes| == fr.Count() < INVALID && FramesAt(nodes, fr, INVALID)
    requires nodes[fr.Current()].firstChild != INVALID ==> nodes[fr.Current()].lastChild < |nodes|
    requires after == PushNode(nodes, kind, span, fr.Current())
    ensures FramesAt(after, fr, |nodes|)
  {
    hide PushNode, ForestAt;
    var cur := fr.Current();
    LastChildIn(nodes, fr);
    PushPatches(nodes, kind, span, cur);
    FramesAgree(nodes, after, fr.outer, cur);
    if fr.done != [] {
      Relink(nodes, after, cur + 1, fr.done, cur, |nodes|);
    } else {
      NoTrees(after, cur + 1, cur, |nodes|);
    }
  }

  lemma NoTrees(nodes: seq<Node>, lo: nat, parent: nat, next: nat)
    ensures ForestAt(nodes, lo, [], parent, next)
  {
  }

  /** After push_node the frames stand as before, with the new node as the innermost list's next child. */
  lemma {:induction false} PushKeepsFrames(nodes: seq<Node>, fr: Frames, kind: NodeKind, span: Span)
    requires |nodes| == fr.Count() < INVALID && FramesAt(nodes, fr, INVALID)
    ensures fr.Nested? ==> fr.Current() < |nodes|
    ensures fr.Nested? && nodes[fr.Current()].firstChild != INVALID ==> nodes[fr.Current()].lastChild < |nodes|
    ensures var after := PushNode(nodes, kind, span, fr.Current());
            && |after| == |nodes| + 1
            && after[|nodes|] == Node(kind, span, fr.Current(), INVALID, INVALID, INVALID)
            && FramesAt(after, fr, |nodes|)
  {
    hide PushNode, SizeAll;
    if fr.Nested? {
      LastChildIn(nodes, fr);
      PushPatches(nodes, kind, span, fr.Current());
      PushIntoOpen(nodes, fr, kind, span, PushNode(nodes, kind, span, fr.Current()));
    } else {
      PushAtTop(nodes, kind, span);
      FramesAgree(nodes, PushNode(nodes, kind, span, INVALID), fr, |nodes|);
    }
  }

  lemma {:induction false} PushAtTop(nodes: seq<Node>, kind: NodeKind, span: Span)
    ensures PushNode(nodes, kind, span, INVALID) == nodes + [Node(kind, span, INVALID, INVALID, INVALID, INVALID)]
  {
  }

  lemma {:induction false} LastChildIn(nodes: seq<Node>, fr: Frames)
    requires fr.Nested? && |nodes| == fr.Count() && FramesAt(nodes, fr, INVALID)
    ensures var cur := fr.Current();
            cur < |nodes| && (nodes[cur].firstChild != INVALID ==> cur < nodes[cur].lastChild < |nodes|)
  {
    if fr.done != [] {
      SizeAllStep(fr.done, |fr.done| - 1);
      assert fr.done[..|fr.done|] == fr.done;
    }
  }

  lemma {:induction false} AttachTree(nodes: seq<Node>, fr: Frames, t: Tree)
    requires fr.Count() < INVALID
    requires FramesAt(nodes, fr, fr.Count()) && TreeAt(nodes, fr.Count(), t, fr.Current(), INVALID)
    ensures FramesAt(nodes, fr.Add(t), INVALID)
  {
    var f := fr.done + [t];
    assert f[..|f| - 1] == fr.done;
  }

  /** An atom's node attaches the atom to the innermost list. */
  lemma {:induction false} AtomStep(nodes: seq<Node>, fr: Frames, token: Token)
    requires |nodes| == fr.Count() < INVALID && FramesAt(nodes, fr, INVALID)
    ensures fr.Nested? ==> fr.Current() < |nodes|
    ensures fr.Nested? && nodes[fr.Current()].firstChild != INVALID ==> nodes[fr.Current()].lastChild < |nodes|
    ensures FramesAt(PushNode(nodes, AtomKind(token.kind), token.span, fr.Current()), fr.Add(Atom(token)), INVALID)
  {
    PushKeepsFrames(nodes, fr, AtomKind(token.kind), token.span);
    AttachTree(PushNode(nodes, AtomKind(token.kind), token.span, fr.Current()), fr, Atom(token));
  }

  /** Closing sets the span's length; the innermost list becomes a tree of the frame around it. */
  lemma {:induction false} CloseStep(nodes: seq<Node>, fr: Frames, token: Token)
    requires fr.Nested? && |nodes| == fr.Count() <= INVALID && FramesAt(nodes, fr, INVALID)
    ensures var cur := fr.Current();
            && cur < |nodes|
            && nodes[cur].parent == fr.outer.Current() && nodes[cur].span == fr.open.span
            && FramesAt(nodes[cur := nodes[cur].(span := ListSpan(fr.open.span, token.span))],
                        fr.outer.Add(List(fr.open, fr.done, token)), INVALID)
  {
    var cur := fr.Current();
    var after := nodes[cur := nodes[cur].(span := ListSpan(fr.open.span, token.span))];
    FramesAgree(nodes, after, fr.outer, cur);
    ForestAgrees(nodes, after, cur + 1, fr.done, cur, INVALID);
    AttachTree(after, fr.outer, List(fr.open, fr.done, token));
  }

  /** An opening parenthesis' node is the new innermost list. */
  lemma {:induction false} OpenStep(nodes: seq<Node>, fr: Frames, token: Token)
    requires |nodes| == fr.Count() < INVALID && FramesAt(nodes, fr, INVALID)
    ensures fr.Nested? ==> fr.Current() < |nodes|
    ensures fr.Nested? && nodes[fr.Current()].firstChild != INVALID ==> nodes[fr.Current()].lastChild < |nodes|
    ensures FramesAt(PushNode(nodes, ListNode, token.span, fr.Current()), Nested(fr, token, []), INVALID)
  {
    PushKeepsFrames(nodes, fr, ListNode, token.span);
  }

  // ---- Running the frames over tokens ------------------------------------------------

  /** None when a closing parenthesis has no list to close. */
  function Run(fr: Frames, tokens: seq<Token>): Option<Frames>
    decreases |tokens|
  {
    if tokens == [] then Some(fr)
    else if tokens[0].kind == RParen && fr.Top? then None
    else Run(fr.Step(tokens[0]), tokens[1..])
  }

  lemma {:induction false} RunAppend(fr: Frames, a: seq<Token>, b: seq<Token>)
    ensures Run(fr, a + b) == if Run(fr, a).None? then None else Run(Run(fr, a).value, b)
    decreases |a|
  {
    if a == [] {
      assert a + b == b;
    } else {
      assert (a + b)[1..] == a[1..] + b;
      if !(a[0].kind == RParen && fr.Top?) {
        RunAppend(fr.Step(a[0]), a[1..], b);
      }
    }
  }

  /** Frames keep every token they were given, in order, and count every node. */
  lemma {:induction false} RunFacts(fr: Frames, tokens: seq<Token>)
    requires Run(fr, tokens).Some?
    ensures var end := Run(fr, tokens).value;
            && end.Tokens() == fr.Tokens() + tokens
            && end.Count() == fr.Count() + NodeCount(tokens)
            && (fr.Proper() ==> end.Proper())
    decreases |tokens|
  {
    if tokens == [] {
      assert fr.Tokens() + tokens == fr.Tokens();
    } else {
      hide Frames.Tokens, Frames.Count, Frames.Proper, Frames.Step, NodeCount;
      var next := fr.Step(tokens[0]);
      StepFacts(fr, tokens[0]);
      RunFacts(next, tokens[1..]);
      assert fr.Tokens() + tokens == fr.Tokens() + [tokens[0]] + tokens[1..];
      NodeCountFront(tokens);
    }
  }

  lemma {:induction false} NodeCountFront(tokens: seq<Token>)
    requires tokens != []
    ensures NodeCount(tokens) == (if tokens[0].kind == RParen then 0 else 1) + NodeCount(tokens[1..])
    decreases |tokens|
  {
    if |tokens| > 1 {
      NodeCountFront(tokens[..|tokens| - 1]);
      assert tokens[..|tokens| - 1][1..] == tokens[1..][..|tokens| - 2];
    }
  }

  lemma {:induction false} BalancedIsRun(fr: Frames, tokens: seq<Token>)
    ensures Balanced(tokens, fr.Depth()) <==> Run(fr, tokens).Some? && Run(fr, tokens).value.Top?
    decreases |tokens|
  {
    DepthMeans(fr);
    hide Frames.Tokens, Frames.Count, Frames.Proper, Frames.Depth, Frames.Step;
    if tokens != [] && !(tokens[0].kind == RParen && fr.Top?) {
      StepFacts(fr, tokens[0]);
      BalancedIsRun(fr.Step(tokens[0]), tokens[1..]);
    }
  }

  function AddAll(fr: Frames, f: seq<Tree>): Frames {
    if fr.Top? then Top(fr.done + f) else Nested(fr.outer, fr.open, fr.done + f)
  }

  lemma {:induction false} RunTree(fr: Frames, t: Tree)
    requires Proper(t)
    ensures Run(fr, Flatten(t)) == Some(fr.Add(t))
    decreases t, 0
  {
    match t
    case Atom(token) =>
      assert Flatten(t)[1..] == [];
    case List(open, items, close) =>
      var inner := Nested(fr, open, []);
      RunForest(inner, items);
      assert [] + items == items;
      RunAppend(fr, [open], FlattenAll(items) + [close]);
      RunAppend(inner, FlattenAll(items), [close]);
      assert [open][1..] == [] && [close][1..] == [];
      assert Flatten(t) == [open] + (FlattenAll(items) + [close]);
  }

  lemma {:induction false} RunForest(fr: Frames, f: seq<Tree>)
    requires ProperAll(f)
    ensures Run(fr, FlattenAll(f)) == Some(AddAll(fr, f))
    decreases f, |f|
  {
    if f == [] {
      assert fr.done + f == fr.done;
    } else {
      var front, t := f[..|f| - 1], f[|f| - 1];
      RunForest(fr, front);
      RunTree(AddAll(fr, front), t);
      RunAppend(fr, FlattenAll(front), Flatten(t));
      assert fr.done + front + [t] == fr.done + f;
    }
  }

  /** The tokens of a forest parse back to it: no other forest has the same tokens. */
  lemma {:induction false} FlattenInjective(f: seq<Tree>, g: seq<Tree>)
    requires ProperAll(f) && ProperAll(g) && FlattenAll(f) == FlattenAll(g)
    ensures f == g
  {
    RunForest(Top([]), f);
    RunForest(Top([]), g);
    assert [] + f == f && [] + g == g;
  }

  ghost predicate IsForestOf(f: seq<Tree>, tokens: seq<Token>) {
    ProperAll(f) && FlattenAll(f) == tokens
  }

  /** A token sequence is that of some forest exactly when its parentheses balance. */
  lemma {:induction false} ForestExists(tokens: seq<Token>)
    ensures Balanced(tokens, 0) <==> exists f :: IsForestOf(f, tokens)
  {
    BalancedIsRun(Top([]), tokens);
    if Balanced(tokens, 0) {
      RunFacts(Top([]), tokens);
      assert [] + tokens == tokens;
      assert IsForestOf(Run(Top([]), tokens).value.done, tokens);
    }
    if f :| IsForestOf(f, tokens) {
      RunForest(Top([]), f);
    }
  }

  // ---- The parser ----------------------------------------------------------------------

  method AppendChild(nodes: array<Node>, parent: nat, child: nat)
    requires parent < nodes.Length && child < nodes.Length
    requires nodes[parent].firstChild != INVALID ==> nodes[parent].lastChild < nodes.Length
    modifies nodes
    ensures nodes[..] == old(
      if nodes[parent].firstChild == INVALID then
        nodes[..][parent := nodes[parent].(firstChild := child, lastChild := child)]
      else
        var last := nodes[parent].lastChild;
        var linked := nodes[..][last := nodes[last].(nextSibling := child)];
        linked[parent := linked[parent].(lastChild := child)])
  {
    if nodes[parent].firstChild == INVALID {
      nodes[parent] := nodes[parent].(firstChild := child);
    } else {
      var last := nodes[parent].lastChild;
      nodes[last] := nodes[last].(nextSibling := child);
    }
    nodes[parent] := nodes[parent].(lastChild := child);
  }

  method PushNodeInto(nodes: array<Node>, count: nat, kind: NodeKind, span: Span, parent: nat)
    returns (status: Status, newCount: nat)
    requires count <= nodes.Length <= INVALID
    requires parent != INVALID ==> parent < count
    requires parent != INVALID && nodes[parent].firstChild != INVALID ==> nodes[parent].lastChild < count
    modifies nodes
    ensures status == if count >= nodes.Length then Limit else Ok
    ensures status == Ok ==>
      newCount == count + 1 <= nodes.Length && nodes[..newCount] == PushNode(old(nodes[..count]), kind, span, parent)
  {
    if count >= nodes.Length || count > INVALID {
      return Limit, count;
    }
    ghost var before := nodes[..count];
    nodes[count] := Node(kind, span, parent, INVALID, INVALID, INVALID);
    assert nodes[..count + 1] == before + [nodes[count]];
    if parent != INVALID {
      AppendChild(nodes, parent, count);
    }
    return Ok, count + 1;
  }

  /** Why and where a parse stops. */
  datatype Outcome = Parsed(forest: seq<Tree>) | Unmatched(at: nat) | Full(at: nat) | Unclosed(open: Token)

  /** The outcome of parsing with room for `capacity` nodes. */
  predicate Explains(outcome: Outcome, tokens: seq<Token>, capacity: nat) {
    match outcome
    case Parsed(forest) => Run(Top([]), tokens) == Some(Top(forest)) && NodeCount(tokens) <= capacity
    case Unmatched(at) =>
      && at < |tokens| && tokens[at].kind == RParen && NodeCount(tokens[..at]) <= capacity
      && var r := Run(Top([]), tokens[..at]); r.Some? && r.value.Top?
    case Full(at) =>
      && at < |tokens| && tokens[at].kind != RParen && NodeCount(tokens[..at]) == capacity
      && Run(Top([]), tokens[..at]).Some?
    case Unclosed(open) =>
      && NodeCount(tokens) <= capacity
      && var r := Run(Top([]), tokens); r.Some? && r.value.Nested? && r.value.open == open
  }

  function OutcomeStatus(outcome: Outcome): Status {
    match outcome
    case Parsed(_) => Ok
    case Full(_) => Limit
    case _ => Format
  }

  /** The status of a parse, read off the token kinds: how many lists are open, and how many more
      nodes there is room for. */
  function StatusFrom(depth: nat, tokens: seq<Token>, room: nat): Status
    decreases |tokens|
  {
    if tokens == [] then if depth == 0 then Ok else Format
    else if tokens[0].kind == RParen then
      if depth == 0 then Format else StatusFrom(depth - 1, tokens[1..], room)
    else if room == 0 then Limit
    else StatusFrom(if tokens[0].kind == LParen then depth + 1 else depth, tokens[1..], room - 1)
  }

  lemma {:induction false} StatusStep(fr: Frames, tokens: seq<Token>, room: nat)
    requires tokens != [] && (tokens[0].kind == RParen ==> fr.Nested?) && (tokens[0].kind != RParen ==> room > 0)
    ensures StatusFrom(fr.Depth(), tokens, room)
         == StatusFrom(fr.Step(tokens[0]).Depth(), tokens[1..], if tokens[0].kind == RParen then room else room - 1)
  {
    hide Frames.Depth, Frames.Step, Frames.Tokens, Frames.Count, Frames.Proper;
    StepFacts(fr, tokens[0]);
    DepthMeans(fr);
  }

  lemma {:induction false} StatusAfter(fr: Frames, tokens: seq<Token>, k: nat, room: nat)
    requires k <= |tokens| && Run(fr, tokens[..k]).Some? && NodeCount(tokens[..k]) <= room
    ensures StatusFrom(fr.Depth(), tokens, room)
         == StatusFrom(Run(fr, tokens[..k]).value.Depth(), tokens[k..], room - NodeCount(tokens[..k]))
    decreases k
  {
    hide StatusFrom, NodeCount, Frames.Depth, Frames.Step;
    if k == 0 {
      assert tokens[0..] == tokens && tokens[..0] == [];
    } else {
      var front, rest, next := tokens[..k], tokens[1..], fr.Step(tokens[0]);
      assert front[1..] == rest[..k - 1] && tokens[k..] == rest[k - 1..];
      NodeCountFront(front);
      StepFacts(fr, tokens[0]);
      var room' := if tokens[0].kind == RParen then room else room - 1;
      StatusStep(fr, tokens, room);
      StatusAfter(next, rest, k - 1, room');
    }
  }

  /** The token kinds and the room decide the status, so no two outcomes of different kinds fit. */
  lemma {:induction false} StatusDecided(outcome: Outcome, tokens: seq<Token>, capacity: nat)
    requires Explains(outcome, tokens, capacity)
    ensures StatusFrom(0, tokens, capacity) == OutcomeStatus(outcome)
  {
    var k := match outcome case Unmatched(at) => at case Full(at) => at case _ => |tokens|;
    assert tokens[..|tokens|] == tokens;
    StatusAfter(Top([]), tokens, k, capacity);
    DepthMeans(Run(Top([]), tokens[..k]).value);
  }

  /** How many more lists the first k tokens open than they close, and how many nodes they make. */
  function Opened(tokens: seq<Token>, k: nat): int
    requires k <= |tokens|
  {
    if k == 0 then 0
    else
      var kind := tokens[k - 1].kind;
      Opened(tokens, k - 1) + if kind == LParen then 1 else if kind == RParen then -1 else 0
  }

  function Made(tokens: seq<Token>, k: nat): nat
    requires k <= |tokens|
  {
    if k == 0 then 0 else Made(tokens, k - 1) + if tokens[k - 1].kind == RParen then 0 else 1
  }

  /** A parse cannot go on here: no list is open that could be closed, or no node is left. */
  predicate StopsAt(tokens: seq<Token>, room: nat, k: nat)
    requires k < |tokens|
  {
    if tokens[k].kind == RParen then Opened(tokens, k) == 0 else Made(tokens, k) == room
  }

  /** The first token at which a parse cannot go on decides its status, and behind the last token whether all
      lists are closed. */
  lemma {:induction false} StatusInWords(tokens: seq<Token>, room: nat, k: nat)
    requires k <= |tokens| && (forall i | 0 <= i < k :: !StopsAt(tokens, room, i))
    requires k < |tokens| ==> StopsAt(tokens, room, k)
    ensures StatusFrom(0, tokens, room) == if k < |tokens| then if tokens[k].kind == RParen then Format else Limit
                                           else if Opened(tokens, k) == 0 then Ok
                                           else Format
  {
    assert tokens[0..] == tokens;
    for i := 0 to k
      invariant Opened(tokens, i) >= 0 && Made(tokens, i) <= room
      invariant StatusFrom(0, tokens, room) == StatusFrom(Opened(tokens, i), tokens[i..], room - Made(tokens, i))
    {
      assert !StopsAt(tokens, room, i);
      assert tokens[i..][0] == tokens[i] && tokens[i..][1..] == tokens[i + 1..];
    }
  }

  lemma DepthMeans(fr: Frames)
    ensures fr.Depth() == 0 <==> fr.Top?
  {
  }

  /** What a parse with this outcome returns: the array of a forest, or an error at the offending token. */
  predicate Reports(outcome: Outcome, tokens: seq<Token>, status: Status, nodes: seq<Node>, error: Position) {
    match outcome
    case Parsed(forest) => status == Ok && error == START && Represents(nodes, forest)
    case Unmatched(at) => status == Format && at < |tokens| && error == TokenPosition(tokens[at]) && nodes == []
    case Full(at) => status == Limit && at < |tokens| && error == TokenPosition(tokens[at]) && nodes == []
    case Unclosed(open) => status == Format && error == Position(open.span.offset, 1, 1) && nodes == []
  }

  method Parse(tokens: seq<Token>, nodes: array<Node>)
    returns (status: Status, count: nat, error: Position, ghost outcome: Outcome)
    requires nodes.Length <= INVALID
    modifies nodes
    ensures nodes.Length == 0 ==> status == InvalidArg && count == 0 && error == START
    ensures nodes.Length > 0 ==> count <= nodes.Length && Explains(outcome, tokens, nodes.Length)
    ensures nodes.Length > 0 ==> Reports(outcome, tokens, status, nodes[..count], error)
  {
    hide FramesAt, PushNode, Run, NodeCount;
    if nodes.Length == 0 {
      return InvalidArg, 0, START, Full(0);
    }
    count := 0;
    var current := INVALID;
    ghost var fr := Top([]);
    StartFrames(nodes[..0], tokens);
    for i := 0 to |tokens|
      invariant count <= nodes.Length && count == NodeCount(tokens[..i]) == fr.Count() && current == fr.Current()
      invariant Run(Top([]), tokens[..i]) == Some(fr)
      invariant FramesAt(nodes[..count], fr, INVALID)
    {
      var token := tokens[i];
      ghost var before := nodes[..count];
      RunNext(tokens, i, fr);
      if token.kind == RParen {
        if current == INVALID {
          return Format, 0, TokenPosition(token), Unmatched(i);
        }
        CloseStep(before, fr, token);
        nodes[current] := nodes[current].(span := ListSpan(nodes[current].span, token.span));
        assert nodes[..count] == before[current := nodes[current]];
        current := nodes[current].parent;
        fr := fr.Step(token);
      } else {
        if count == nodes.Length {
          return Limit, 0, TokenPosition(token), Full(i);
        }
        var pushed;
        if token.kind == LParen {
          OpenStep(before, fr, token);
          pushed, count := PushNodeInto(nodes, count, ListNode, token.span, current);
          current := count - 1;
        } else {
          AtomStep(before, fr, token);
          pushed, count := PushNodeInto(nodes, count, AtomKind(token.kind), token.span, current);
        }
        fr := fr.Step(token);
      }
    }
    assert tokens[..|tokens|] == tokens;
    if current != INVALID {
      OpenSpan(nodes[..count], fr);
      return Format, 0, Position(nodes[current].span.offset, 1, 1), Unclosed(fr.open);
    }
    TopRepresents(nodes[..count], fr);
    return Ok, count, START, Parsed(fr.done);
  }

  lemma {:induction false} StartFrames(nodes: seq<Node>, tokens: seq<Token>)
    requires nodes == []
    ensures FramesAt(nodes, Top([]), INVALID) && Run(Top([]), tokens[..0]) == Some(Top([])) && NodeCount(tokens[..0]) == 0
  {
  }

  lemma {:induction false} RunNext(tokens: seq<Token>, i: nat, fr: Frames)
    requires i < |tokens| && Run(Top([]), tokens[..i]) == Some(fr)
    ensures NodeCount(tokens[..i + 1]) == NodeCount(tokens[..i]) + if tokens[i].kind == RParen then 0 else 1
    ensures !(tokens[i].kind == RParen && fr.Top?) ==>
      Run(Top([]), tokens[..i + 1]) == Some(fr.Step(tokens[i])) && fr.Step(tokens[i]).Count() == NodeCount(tokens[..i + 1])
  {
    var token := tokens[i];
    assert tokens[..i + 1] == tokens[..i] + [token];
    RunAppend(Top([]), tokens[..i], [token]);
    OneStep(fr, token);
    CountOneMore(tokens, i);
    hide Run, NodeCount, Frames.Step, Frames.Count, Frames.Tokens, Frames.Proper;
    if !(token.kind == RParen && fr.Top?) {
      RunFacts(Top([]), tokens[..i + 1]);
    }
  }

  lemma OneStep(fr: Frames, token: Token)
    ensures !(token.kind == RParen && fr.Top?) ==> Run(fr, [token]) == Some(fr.Step(token))
  {
    assert [token][1..] == [];
    hide Frames.Step;
  }

  lemma CountOneMore(tokens: seq<Token>, i: nat)
    requires i < |tokens|
    ensures NodeCount(tokens[..i + 1]) == NodeCount(tokens[..i]) + if tokens[i].kind == RParen then 0 else 1
  {
    assert tokens[..i + 1][..i] == tokens[..i];
  }

  lemma {:induction false} OpenSpan(nodes: seq<Node>, fr: Frames)
    requires FramesAt(nodes, fr, INVALID) && fr.Nested?
    ensures fr.Current() < |nodes| && nodes[fr.Current()].span == fr.open.span
  {
  }

  lemma {:induction false} TopRepresents(nodes: seq<Node>, fr: Frames)
    requires FramesAt(nodes, fr, INVALID) && fr.Top? && |nodes| == fr.Count()
    ensures Represents(nodes, fr.done)
  {
  }
}
