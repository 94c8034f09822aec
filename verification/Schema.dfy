/** The schema validator of src/dsl/schema.c: loops over the node array that accept exactly the
    forests the rules describe. */
module Schema {
  import opened Statuses
  import opened SexprTree
  import opened SexprRead
  import opened Sequences

  datatype ValueKind = AnyValue | SymbolValue | StringValue | ListValue

  datatype FieldRule = FieldRule(name: string, kind: ValueKind, minValues: nat, maxValues: nat,
                                 required: bool, unique: bool)

  datatype FormRule = FormRule(name: string, fields: seq<FieldRule>, allowUnknown: bool, minFields: nat, maxFields: nat)

  /** A limit of 0 is no limit. */
  datatype Rules = Rules(forms: seq<FormRule>, allowUnknown: bool, maxTopLevel: nat, maxDepth: nat)

  // ---- What the rules mean ------------------------------------------------------------------

  predicate KindMatches(kind: ValueKind, f: Form) {
    match kind
    case AnyValue => true
    case SymbolValue => f.Word?
    case StringValue => f.Quoted?
    case ListValue => f.Group?
  }

  /** A field's values: everything behind its name. */
  predicate ValuesOk(rule: FieldRule, field: Form) {
    && field.Group? && field.items != [] && rule.minValues <= |field.items| - 1 <= rule.maxValues
    && forall k | 1 <= k < |field.items| :: KindMatches(rule.kind, field.items[k])
  }

  /** The fields obey one field rule. */
  predicate RuleKept(rule: FieldRule, fields: seq<Form>) {
    && (forall f | f in fields :: Headed(f, rule.name) ==> ValuesOk(rule, f))
    && (rule.unique ==>
          forall i, j | 0 <= i < j < |fields| :: !(Headed(fields[i], rule.name) && Headed(fields[j], rule.name)))
    && (rule.required ==> exists f | f in fields :: Headed(f, rule.name))
  }

  predicate Known(rules: seq<FieldRule>, f: Form) {
    exists r | r in rules :: Headed(f, r.name)
  }

  predicate FormOk(rule: FormRule, form: Form) {
    && form.Group? && form.items != []
    && var fields := form.items[1..];
       && rule.minFields <= |fields| <= rule.maxFields
       && (rule.fields != [] || !rule.allowUnknown ==> forall f | f in fields :: f.Group?)
       && (forall r | r in rule.fields :: RuleKept(r, fields))
       && (!rule.allowUnknown ==> forall f | f in fields :: Known(rule.fields, f))
  }

  /** The first rule with the name of the form. */
  function RuleFor(forms: seq<FormRule>, f: Form): Option<FormRule> {
    if forms == [] then None
    else if Headed(f, forms[0].name) then Some(forms[0])
    else RuleFor(forms[1..], f)
  }

  predicate TopFormOk(rules: Rules, f: Form) {
    && f.Group?
    && match RuleFor(rules.forms, f)
       case Some(rule) => FormOk(rule, f)
       case None => rules.allowUnknown
  }

  /** Nested at most d deep. */
  predicate DepthWithin(f: Form, d: int) {
    d >= 1 && (f.Group? ==> forall item | item in f.items :: DepthWithin(item, d - 1))
  }

  predicate Obeys(rules: Rules, forms: seq<Form>) {
    && (rules.maxDepth > 0 ==> forall f | f in forms :: DepthWithin(f, rules.maxDepth))
    && (rules.maxTopLevel > 0 ==> |forms| <= rules.maxTopLevel)
    && forall f | f in forms :: TopFormOk(rules, f)
  }

  // ---- Depth, by walking up the parents --------------------------------------------------------

  /** How many nodes a walk from i up to a root passes. */
  function Level(nodes: seq<Node>, i: nat): (n: nat)
    requires i < |nodes|
    ensures n >= 1
    decreases i
  {
    1 + if nodes[i].parent < i then Level(nodes, nodes[i].parent) else 0
  }

  predicate LevelsWithin(nodes: seq<Node>, lo: nat, hi: nat, max: nat) {
    hi <= |nodes| && forall j | lo <= j < hi :: Level(nodes, j) <= max
  }

  /** The level of the parent of i. */
  predicate Base(nodes: seq<Node>, i: nat, parent: nat, base: nat) {
    if parent == INVALID then base == 0 else parent < i && parent < |nodes| && Level(nodes, parent) == base
  }

  predicate AllWithin(input: string, f: seq<Tree>, d: int)
    requires TextInAll(input, f)
  {
    forall t | t in f :: DepthWithin(FormOf(input, t), d)
  }

  lemma {:induction false} TreeLevels(input: string, nodes: seq<Node>, i: nat, t: Tree, parent: nat, next: nat,
                                      base: nat, max: nat)
    requires TreeAt(nodes, i, t, parent, next) && i + Size(t) <= |nodes| <= INVALID && TextIn(input, t)
    requires Base(nodes, i, parent, base)
    ensures LevelsWithin(nodes, i, i + Size(t), max) <==> DepthWithin(FormOf(input, t), max - base)
    decreases t, 0
  {
    assert Level(nodes, i) == base + 1;
    if t.List? {
      ForestLevels(input, nodes, i + 1, t.items, i, INVALID, base + 1, max);
      GroupWithin(input, t, max - base);
    }
  }

  lemma {:induction false} GroupWithin(input: string, t: Tree, d: int)
    requires t.List? && TextIn(input, t)
    ensures DepthWithin(FormOf(input, t), d) <==> d >= 1 && AllWithin(input, t.items, d - 1)
  {
    var items := FormOf(input, t).items;
    forall k | 0 <= k < |items|
      ensures items[k] == FormOf(input, t.items[k])
    {
      ItemForm(input, t, k);
    }
    if DepthWithin(FormOf(input, t), d) {
      forall item | item in t.items
        ensures DepthWithin(FormOf(input, item), d - 1)
      {
        var k :| 0 <= k < |t.items| && t.items[k] == item;
        assert items[k] in items;
      }
    }
    if d >= 1 && AllWithin(input, t.items, d - 1) {
      forall item | item in items
        ensures DepthWithin(item, d - 1)
      {
        var k :| 0 <= k < |items| && items[k] == item;
        assert t.items[k] in t.items;
      }
    }
  }

  lemma {:induction false} ForestLevels(input: string, nodes: seq<Node>, lo: nat, f: seq<Tree>, parent: nat, next: nat,
                                        base: nat, max: nat)
    requires ForestAt(nodes, lo, f, parent, next) && lo + SizeAll(f) <= |nodes| <= INVALID && TextInAll(input, f)
    requires Base(nodes, lo, parent, base)
    ensures LevelsWithin(nodes, lo, lo + SizeAll(f), max) <==> AllWithin(input, f, max - base)
    decreases f, |f|
  {
    if f != [] {
      var front, t := f[..|f| - 1], f[|f| - 1];
      var last := lo + SizeAll(front);
      ForestLevels(input, nodes, lo, front, parent, NextLink(parent, last), base, max);
      TreeLevels(input, nodes, last, t, parent, next, base, max);
      assert f == front + [t];
    }
  }

  method ValidateDepth(nodes: seq<Node>, maxDepth: nat, ghost forest: seq<Tree>) returns (ok: bool)
    requires Represents(nodes, forest) && |nodes| <= INVALID
    ensures ok <==> maxDepth == 0 || LevelsWithin(nodes, 0, |nodes|, maxDepth)
  {
    hide Represents;
    if maxDepth == 0 {
      return true;
    }
    for i := 0 to |nodes|
      invariant LevelsWithin(nodes, 0, i, maxDepth)
    {
      var depth, parent: nat := 1, nodes[i].parent;
      RepresentedLinks(nodes, forest, i);
      while parent != INVALID
        invariant parent != INVALID ==> parent < i
        invariant depth <= maxDepth && Level(nodes, i) == depth + if parent == INVALID then 0 else Level(nodes, parent)
        decreases parent != INVALID, parent
      {
        depth := depth + 1;
        if depth > maxDepth {
          return false;
        }
        RepresentedLinks(nodes, forest, parent);
        parent := nodes[parent].parent;
      }
    }
    return true;
  }

  // ---- Fields --------------------------------------------------------------------------------------

  method ChildCount(input: string, nodes: seq<Node>, c: nat, ghost t: Tree) returns (count: nat)
    requires |nodes| <= INVALID && Stands(nodes, c, t) && t.List? && TextIn(input, t)
    ensures count == |FormOf(input, t).items|
  {
    assert c < |nodes|;
    hide Stands, FormOf, TextIn;
    FirstChildren(nodes, c, t);
    count := 0;
    var cursor := nodes[c].firstChild;
    while cursor != INVALID
      invariant count <= |t.items| && cursor == ChildIndex(c, t.items, count)
      decreases |t.items| - count
    {
      ChildSays(input, nodes, c, t, count);
      count := count + 1;
      cursor := nodes[cursor].nextSibling;
    }
    if count < |t.items| {
      ChildSays(input, nodes, c, t, count);
    }
  }

  predicate NodeMatches(kind: ValueKind, node: NodeKind) {
    match kind
    case AnyValue => true
    case SymbolValue => node == SymbolNode
    case StringValue => node == StringNode
    case ListValue => node == ListNode
  }

  method ValidateFieldValues(input: string, nodes: seq<Node>, c: nat, rule: FieldRule, ghost t: Tree) returns (ok: bool)
    requires |nodes| <= INVALID && Stands(nodes, c, t) && t.List? && TextIn(input, t)
    ensures ok <==> ValuesOk(rule, FormOf(input, t))
  {
    var total := ChildCount(input, nodes, c, t);
    if total == 0 || total - 1 < rule.minValues || total - 1 > rule.maxValues {
      return false;
    }
    hide Stands, FormOf, TextIn, KindMatches, NodeMatches;
    FirstChildren(nodes, c, t);
    var value := nodes[nodes[c].firstChild].nextSibling;
    ghost var k := 1;
    while value != INVALID
      invariant 1 <= k <= total && value == ChildIndex(c, t.items, k)
      invariant forall j | 1 <= j < k :: KindMatches(rule.kind, FormOf(input, t).items[j])
      decreases total - k
    {
      ChildSays(input, nodes, c, t, k);
      KindSays(input, nodes, value, t.items[k], rule.kind);
      if !NodeMatches(rule.kind, nodes[value].kind) {
        return false;
      }
      k := k + 1;
      value := nodes[value].nextSibling;
    }
    if k < total {
      ChildSays(input, nodes, c, t, k);
    }
    return true;
  }

  lemma {:induction false} KindSays(input: string, nodes: seq<Node>, c: nat, t: Tree, kind: ValueKind)
    requires Stands(nodes, c, t) && TextIn(input, t)
    ensures NodeMatches(kind, nodes[c].kind) <==> KindMatches(kind, FormOf(input, t))
  {
    NodeSays(input, nodes, c, t);
  }

  /** The node's first child is a symbol with this text. */
  predicate NodeNamed(input: string, nodes: seq<Node>, c: nat, name: string)
    requires c < |nodes| && (nodes[c].firstChild == INVALID || nodes[c].firstChild < |nodes|)
  {
    var first := nodes[c].firstChild;
    first != INVALID && nodes[first].kind == SymbolNode && SpanIs(input, nodes[first].span, name)
  }

  lemma {:induction false} NodeNameSays(input: string, nodes: seq<Node>, c: nat, t: Tree, name: string)
    requires |nodes| <= INVALID && Stands(nodes, c, t) && TextIn(input, t)
    ensures nodes[c].firstChild == INVALID || nodes[c].firstChild < |nodes|
    ensures NodeNamed(input, nodes, c, name) <==> Headed(FormOf(input, t), name)
  {
    if t.List? {
      hide Stands, FormOf, TextIn;
      FirstChildren(nodes, c, t);
      if |t.items| > 0 {
        ChildSays(input, nodes, c, t, 0);
        NodeSays(input, nodes, nodes[c].firstChild, t.items[0]);
      }
    }
  }

  /** Which of the field rules a node's name is that of. */
  method FieldKnown(input: string, nodes: seq<Node>, c: nat, rules: seq<FieldRule>, ghost t: Tree) returns (known: bool)
    requires |nodes| <= INVALID && Stands(nodes, c, t) && t.List? && TextIn(input, t)
    ensures known <==> Known(rules, FormOf(input, t))
  {
    assert c < |nodes|;
    hide Stands, FormOf, TextIn, Headed, NodeNamed;
    for i := 0 to |rules|
      invariant forall r | r in rules[..i] :: !Headed(FormOf(input, t), r.name)
    {
      NodeNameSays(input, nodes, c, t, rules[i].name);
      if NodeNamed(input, nodes, c, rules[i].name) {
        assert rules[i] in rules;
        return true;
      }
    }
    return false;
  }

  method FindRule(input: string, nodes: seq<Node>, c: nat, forms: seq<FormRule>, ghost t: Tree)
    returns (rule: Option<FormRule>)
    requires |nodes| <= INVALID && Stands(nodes, c, t) && t.List? && TextIn(input, t)
    ensures rule == RuleFor(forms, FormOf(input, t))
  {
    assert c < |nodes|;
    hide Stands, FormOf, TextIn, Headed, NodeNamed;
    for i := 0 to |forms|
      invariant RuleFor(forms, FormOf(input, t)) == RuleFor(forms[i..], FormOf(input, t))
    {
      NodeNameSays(input, nodes, c, t, forms[i].name);
      if NodeNamed(input, nodes, c, forms[i].name) {
        return Some(forms[i]);
      }
      assert forms[i..][1..] == forms[i + 1..];
    }
    return None;
  }

  /** The number of fields with a name. */
  function Matches(fields: seq<Form>, name: string): nat {
    if fields == [] then 0
    else Matches(fields[..|fields| - 1], name) + if Headed(fields[|fields| - 1], name) then 1 else 0
  }

  lemma {:induction false} MatchesNone(fields: seq<Form>, name: string)
    ensures Matches(fields, name) == 0 <==> forall f | f in fields :: !Headed(f, name)
  {
    if fields != [] {
      var front, last := fields[..|fields| - 1], fields[|fields| - 1];
      MatchesNone(front, name);
      assert fields == front + [last];
    }
  }

  lemma {:induction false} MatchesUnique(fields: seq<Form>, name: string)
    ensures Matches(fields, name) <= 1
       <==> forall i, j | 0 <= i < j < |fields| :: !(Headed(fields[i], name) && Headed(fields[j], name))
  {
    if fields != [] {
      var front, last := fields[..|fields| - 1], fields[|fields| - 1];
      MatchesUnique(front, name);
      MatchesNone(front, name);
      if Headed(last, name) && Matches(front, name) > 0 {
        var f :| f in front && Headed(f, name);
        var i :| 0 <= i < |front| && front[i] == f;
        assert Headed(fields[i], name) && Headed(fields[|fields| - 1], name);
      }
      if Matches(front, name) > 1 {
        var i, j :| 0 <= i < j < |front| && Headed(front[i], name) && Headed(front[j], name);
        assert Headed(fields[i], name) && Headed(fields[j], name);
      }
    }
  }

  // ---- Forms ---------------------------------------------------------------------------------------

  function FieldsOf(form: Form): seq<Form>
    requires form.Group? && form.items != []
  {
    form.items[1..]
  }

  predicate AllGroups(fields: seq<Form>) {
    forall f | f in fields :: f.Group?
  }

  predicate ValuesKept(rule: FieldRule, fields: seq<Form>) {
    forall f | f in fields :: Headed(f, rule.name) ==> ValuesOk(rule, f)
  }

  /** A node that stands for a form. */
  ghost predicate NodeIs(input: string, nodes: seq<Node>, c: nat, t: Tree, form: Form) {
    Stands(nodes, c, t) && TextIn(input, t) && FormOf(input, t) == form
  }

  lemma NodeIsMeans(input: string, nodes: seq<Node>, c: nat, t: Tree, form: Form)
    requires NodeIs(input, nodes, c, t, form)
    ensures Stands(nodes, c, t) && TextIn(input, t) && FormOf(input, t) == form
  {
  }

  lemma FieldCount(input: string, t: Tree, fields: seq<Form>)
    requires TextIn(input, t) && t.List? && t.items != [] && fields == FieldsOf(FormOf(input, t))
    ensures |fields| == |t.items| - 1
  {
  }

  /** One step of a walk over the fields of a form. */
  lemma {:induction false} FieldAt(input: string, nodes: seq<Node>, run: nat, t: Tree, fields: seq<Form>, k: nat)
    requires |nodes| <= INVALID && Stands(nodes, run, t) && t.List? && t.items != [] && TextIn(input, t)
    requires fields == FieldsOf(FormOf(input, t)) && k < |fields|
    ensures |fields| == |t.items| - 1 && (t.items[k + 1].List? <==> fields[k].Group?)
    ensures var field := ChildIndex(run, t.items, k + 1);
            && field < |nodes| && field != INVALID && NodeIs(input, nodes, field, t.items[k + 1], fields[k])
            && nodes[field].nextSibling == ChildIndex(run, t.items, k + 2)
            && (nodes[field].kind == ListNode <==> fields[k].Group?)
            && (nodes[field].firstChild == INVALID || nodes[field].firstChild < |nodes|)
            && forall name :: NodeNamed(input, nodes, field, name) <==> Headed(fields[k], name)
  {
    ChildSays(input, nodes, run, t, k + 1);
    hide Stands, FormOf, TextIn, NodeNamed, Headed;
    NodeNameSays(input, nodes, ChildIndex(run, t.items, k + 1), t.items[k + 1], "");
    forall name
      ensures var field := ChildIndex(run, t.items, k + 1);
              && (nodes[field].firstChild == INVALID || nodes[field].firstChild < |nodes|)
              && (NodeNamed(input, nodes, field, name) <==> Headed(fields[k], name))
    {
      NodeNameSays(input, nodes, ChildIndex(run, t.items, k + 1), t.items[k + 1], name);
    }
  }

  predicate Applied(rule: FieldRule, fields: seq<Form>) {
    AllGroups(fields) && RuleKept(rule, fields)
  }

  /** What a walk that applies one rule knows of the fields before k. */
  predicate AppliedSoFar(rule: FieldRule, fields: seq<Form>, k: nat, matches: nat) {
    && k <= |fields| && AllGroups(fields[..k]) && ValuesKept(rule, fields[..k])
    && matches == Matches(fields[..k], rule.name) && (rule.unique ==> matches <= 1)
  }

  /** One more field: either the walk goes on, or the rule is broken whatever follows. */
  lemma {:induction false} ApplyStep(rule: FieldRule, fields: seq<Form>, k: nat, matches: nat)
    requires AppliedSoFar(rule, fields, k, matches) && k < |fields|
    ensures var f := fields[k];
            var matches' := if Headed(f, rule.name) then matches + 1 else matches;
            if f.Group? && (Headed(f, rule.name) ==> ValuesOk(rule, f) && !(rule.unique && matches' > 1)) then
              AppliedSoFar(rule, fields, k + 1, matches')
            else
              !Applied(rule, fields)
  {
    hide Headed, ValuesOk;
    var f := fields[k];
    assert fields[..k + 1] == fields[..k] + [f] && f in fields;
    assert fields[..k + 1][..k] == fields[..k];
    MatchesUnique(fields, rule.name);
    MatchesGrow(fields, k + 1, rule.name);
  }

  lemma {:induction false} ApplyEnd(rule: FieldRule, fields: seq<Form>, matches: nat)
    requires AppliedSoFar(rule, fields, |fields|, matches)
    ensures Applied(rule, fields) <==> !(rule.required && matches == 0)
  {
    hide Headed, ValuesOk;
    assert fields[..|fields|] == fields;
    MatchesUnique(fields, rule.name);
    MatchesNone(fields, rule.name);
  }

  /** Apply one field rule to all fields of a form. */
  method ApplyRule(input: string, nodes: seq<Node>, c: nat, rule: FieldRule, ghost t: Tree, ghost fields: seq<Form>)
    returns (ok: bool)
    requires |nodes| <= INVALID && Stands(nodes, c, t) && t.List? && t.items != [] && TextIn(input, t)
    requires fields == FieldsOf(FormOf(input, t))
    ensures ok <==> Applied(rule, fields)
  {
    var matches := 0;
    assert AppliedSoFar(rule, fields, 0, 0);
    hide *;
    FieldCount(input, t, fields);
    FirstChildren(nodes, c, t);
    var field := SecondChild(nodes, c);
    ghost var k := 0;
    while field != INVALID
      invariant k <= |fields| && field == ChildIndex(c, t.items, k + 1)
      invariant AppliedSoFar(rule, fields, k, matches)
      decreases |fields| - k
    {
      ChildIndexEnds(c, t.items, k + 1);
      FieldAt(input, nodes, c, t, fields, k);
      ApplyStep(rule, fields, k, matches);
      if nodes[field].kind != ListNode {
        return false;
      }
      if NodeNamed(input, nodes, field, rule.name) {
        matches := matches + 1;
        if rule.unique && matches > 1 {
          return false;
        }
        NodeIsMeans(input, nodes, field, t.items[k + 1], fields[k]);
        var good := ValidateFieldValues(input, nodes, field, rule, t.items[k + 1]);
        if !good {
          return false;
        }
      }
      k := k + 1;
      field := nodes[field].nextSibling;
    }
    if k < |fields| {
      FieldAt(input, nodes, c, t, fields, k);
    }
    ApplyEnd(rule, fields, matches);
    return !(rule.required && matches == 0);
  }

  lemma {:induction false} MatchesGrow(fields: seq<Form>, k: nat, name: string)
    requires k <= |fields|
    ensures Matches(fields[..k], name) <= Matches(fields, name)
    decreases |fields|
  {
    if k < |fields| {
      assert fields[..|fields| - 1][..k] == fields[..k];
      MatchesGrow(fields[..|fields| - 1], k, name);
    } else {
      assert fields[..k] == fields;
    }
  }

  predicate OnlyKnown(rules: seq<FieldRule>, fields: seq<Form>) {
    forall f | f in fields :: f.Group? && Known(rules, f)
  }

  lemma {:induction false} KnownStep(rules: seq<FieldRule>, fields: seq<Form>, k: nat)
    requires k < |fields| && OnlyKnown(rules, fields[..k])
    ensures if fields[k].Group? && Known(rules, fields[k]) then OnlyKnown(rules, fields[..k + 1])
            else !OnlyKnown(rules, fields)
  {
    hide Known;
    assert fields[..k + 1] == fields[..k] + [fields[k]];
  }

  method CheckKnown(input: string, nodes: seq<Node>, c: nat, rules: seq<FieldRule>, ghost t: Tree, ghost fields: seq<Form>)
    returns (ok: bool)
    requires |nodes| <= INVALID && Stands(nodes, c, t) && t.List? && t.items != [] && TextIn(input, t)
    requires fields == FieldsOf(FormOf(input, t))
    ensures ok <==> OnlyKnown(rules, fields)
  {
    hide *;
    FieldCount(input, t, fields);
    FirstChildren(nodes, c, t);
    var field := SecondChild(nodes, c);
    ghost var k := 0;
    NothingUnknown(rules, fields[..0]);
    while field != INVALID
      invariant k <= |fields| && field == ChildIndex(c, t.items, k + 1)
      invariant OnlyKnown(rules, fields[..k])
      decreases |fields| - k
    {
      ChildIndexEnds(c, t.items, k + 1);
      FieldAt(input, nodes, c, t, fields, k);
      KnownStep(rules, fields, k);
      if nodes[field].kind != ListNode {
        return false;
      }
      NodeIsMeans(input, nodes, field, t.items[k + 1], fields[k]);
      var known := FieldKnown(input, nodes, field, rules, t.items[k + 1]);
      if !known {
        return false;
      }
      k := k + 1;
      field := nodes[field].nextSibling;
    }
    if k < |fields| {
      FieldAt(input, nodes, c, t, fields, k);
    }
    assert fields[..k] == fields;
    return true;
  }

  lemma NothingUnknown(rules: seq<FieldRule>, fields: seq<Form>)
    requires fields == []
    ensures OnlyKnown(rules, fields)
  {
  }

  /** A form obeys its rule exactly when every field rule can be applied, and no field is unknown. */
  lemma {:induction false} FormOkMeans(rule: FormRule, form: Form)
    requires form.Group? && form.items != []
    ensures FormOk(rule, form) <==>
      && rule.minFields <= |form.items| - 1 <= rule.maxFields
      && (forall r | r in rule.fields :: Applied(r, FieldsOf(form)))
      && (!rule.allowUnknown ==> OnlyKnown(rule.fields, FieldsOf(form)))
  {
    hide RuleKept, Known;
    if rule.fields != [] {
      assert rule.fields[0] in rule.fields;
    }
  }

  method ValidateFormFields(input: string, nodes: seq<Node>, c: nat, rule: FormRule, ghost t: Tree) returns (ok: bool)
    requires |nodes| <= INVALID && Stands(nodes, c, t) && t.List? && TextIn(input, t)
    ensures ok <==> FormOk(rule, FormOf(input, t))
  {
    assert FormOf(input, t).Group?;
    var total := ChildCount(input, nodes, c, t);
    if total == 0 {
      return false;
    }
    hide Stands, FormOf, TextIn, FormOk, Applied, OnlyKnown;
    ghost var form := FormOf(input, t);
    FormOkMeans(rule, form);
    if total - 1 < rule.minFields || total - 1 > rule.maxFields {
      return false;
    }
    for i := 0 to |rule.fields|
      invariant forall r | r in rule.fields[..i] :: Applied(r, FieldsOf(form))
    {
      var good := ApplyRule(input, nodes, c, rule.fields[i], t, FieldsOf(form));
      if !good {
        assert rule.fields[i] in rule.fields;
        return false;
      }
    }
    assert rule.fields[..|rule.fields|] == rule.fields;
    if !rule.allowUnknown {
      ok := CheckKnown(input, nodes, c, rule.fields, t, FieldsOf(form));
      return;
    }
    return true;
  }

  // ---- The whole forest --------------------------------------------------------------------------------

  /** Scanning all nodes for those without a parent finds the top-level forms, in order. */
  lemma {:induction false} TopScan(nodes: seq<Node>, f: seq<Tree>, k: nat, i: nat)
    requires Represents(nodes, f) && i < |nodes| <= INVALID && k <= |f| && i <= RootIndex(0, f, k)
    requires k > 0 ==> RootIndex(0, f, k - 1) < i
    ensures nodes[i].parent == INVALID <==> i == RootIndex(0, f, k)
    ensures i == RootIndex(0, f, k) ==> k < |f| && Stands(nodes, i, f[k]) && i < RootIndex(0, f, k + 1)
  {
    assert f[..|f|] == f;
    if i == RootIndex(0, f, k) {
      if k < |f| {
        RootStands(nodes, f, k);
        SizeAllStep(f, k);
      }
    } else {
      ChildAt(nodes, 0, f, INVALID, INVALID, k - 1);
      SizeAllStep(f, k - 1);
      SizeAllMonotone(f, k, |f|);
      InnerHasParent(nodes, RootIndex(0, f, k - 1), f[k - 1], INVALID, INVALID, i);
    }
  }

  /** A scan that has reached the end has seen all forms. */
  lemma {:induction false} TopScanEnd(nodes: seq<Node>, f: seq<Tree>, k: nat)
    requires Represents(nodes, f) && k <= |f| && |nodes| <= RootIndex(0, f, k)
    ensures k == |f|
  {
    assert f[..|f|] == f;
    if k < |f| {
      SizeAllMonotone(f, k, |f|);
    }
  }

  predicate DepthsOk(rules: Rules, forms: seq<Form>) {
    rules.maxDepth > 0 ==> forall f | f in forms :: DepthWithin(f, rules.maxDepth)
  }

  lemma {:induction false} ForestDepth(input: string, nodes: seq<Node>, forest: seq<Tree>, rules: Rules)
    requires Represents(nodes, forest) && |nodes| <= INVALID && TextInAll(input, forest)
    ensures DepthsOk(rules, FormsOf(input, forest))
       <==> rules.maxDepth == 0 || LevelsWithin(nodes, 0, |nodes|, rules.maxDepth)
  {
    hide LevelsWithin, DepthWithin, FormOf, ForestAt;
    ForestLevels(input, nodes, 0, forest, INVALID, INVALID, 0, rules.maxDepth);
    var forms := FormsOf(input, forest);
    forall k | 0 <= k < |forest|
      ensures forms[k] in forms && forms[k] == FormOf(input, forest[k])
    {
    }
    assert (forall f | f in forms :: DepthWithin(f, rules.maxDepth)) <==> AllWithin(input, forest, rules.maxDepth - 0);
  }

  /** Every top-level form is judged by its own rule, within the overall limits. */
  method Validate(input: string, nodes: seq<Node>, rules: Rules, ghost forest: seq<Tree>) returns (status: Status)
    requires Represents(nodes, forest) && |nodes| <= INVALID && TextInAll(input, forest)
    ensures status == if Obeys(rules, FormsOf(input, forest)) then Ok else Statuses.Schema
  {
    hide Represents, Stands, FormOf, TextIn, FormOk, DepthWithin, DepthsOk, RuleFor, LevelsWithin, RootIndex;
    ghost var forms := FormsOf(input, forest);
    ForestDepth(input, nodes, forest, rules);
    ObeysMeans(rules, forms);
    var depthOk := ValidateDepth(nodes, rules.maxDepth, forest);
    if !depthOk {
      return Statuses.Schema;
    }
    var count := 0;
    assert RootIndex(0, forest, 0) == 0 by { RootIndexStart(forest); }
    for i := 0 to |nodes|
      invariant count <= |forest| && i <= RootIndex(0, forest, count)
      invariant count > 0 ==> RootIndex(0, forest, count - 1) < i
      invariant forall k | 0 <= k < count :: TopFormOk(rules, forms[k])
      invariant rules.maxTopLevel > 0 ==> count <= rules.maxTopLevel
    {
      TopScan(nodes, forest, count, i);
      if nodes[i].parent != INVALID {
        continue;
      }
      ghost var t := forest[count];
      assert forms[count] == FormOf(input, t);
      count := count + 1;
      if rules.maxTopLevel > 0 && count > rules.maxTopLevel {
        return Statuses.Schema;
      }
      var good := ValidateTop(input, nodes, i, rules, t);
      if !good {
        return Statuses.Schema;
      }
    }
    TopScanEnd(nodes, forest, count);
    return Ok;
  }

  lemma RootIndexStart(f: seq<Tree>)
    ensures RootIndex(0, f, 0) == 0
  {
  }

  lemma {:induction false} ObeysMeans(rules: Rules, forms: seq<Form>)
    ensures Obeys(rules, forms) <==>
      && DepthsOk(rules, forms) && (rules.maxTopLevel > 0 ==> |forms| <= rules.maxTopLevel)
      && forall k | 0 <= k < |forms| :: TopFormOk(rules, forms[k])
  {
    hide TopFormOk, DepthWithin;
  }

  method ValidateTop(input: string, nodes: seq<Node>, i: nat, rules: Rules, ghost t: Tree) returns (ok: bool)
    requires |nodes| <= INVALID && Stands(nodes, i, t) && TextIn(input, t)
    ensures ok <==> TopFormOk(rules, FormOf(input, t))
  {
    NodeSays(input, nodes, i, t);
    if nodes[i].kind != ListNode {
      return false;
    }
    hide Stands, FormOf, TextIn, FormOk, RuleFor;
    var rule := FindRule(input, nodes, i, rules.forms, t);
    if rule == None {
      return rules.allowUnknown;
    }
    ok := ValidateFormFields(input, nodes, i, rule.value, t);
  }

  // ---- The order of fields ---------------------------------------------------------------------------

  lemma {:induction false} MatchesAppend(a: seq<Form>, b: seq<Form>, name: string)
    ensures Matches(a + b, name) == Matches(a, name) + Matches(b, name)
  {
    if b == [] {
      assert a + b == a;
    } else {
      assert (a + b)[..|a + b| - 1] == a + b[..|b| - 1];
      MatchesAppend(a, b[..|b| - 1], name);
    }
  }

  lemma {:induction false} MatchesOfPermutation(a: seq<Form>, b: seq<Form>, name: string)
    requires multiset(a) == multiset(b)
    ensures Matches(a, name) == Matches(b, name)
    decreases |a|
  {
    if a == [] {
      assert |multiset(b)| == 0;
    } else {
      var j := LastInPermutation(a, b);
      MatchesOfPermutation(a[..|a| - 1], RemoveAt(b, j), name);
      MatchesAppend(b[..j], b[j + 1..], name);
      assert b == b[..j] + ([b[j]] + b[j + 1..]);
      MatchesAppend(b[..j], [b[j]] + b[j + 1..], name);
      MatchesAppend([b[j]], b[j + 1..], name);
      assert [b[j]][..0] == [];
    }
  }

  /** Reordering the fields of a form does not change whether it obeys its rule. */
  lemma {:induction false} FieldOrderIrrelevant(rule: FormRule, name: Form, a: seq<Form>, b: seq<Form>)
    requires multiset(a) == multiset(b) && FormOk(rule, Group([name] + a))
    ensures FormOk(rule, Group([name] + b))
  {
    var x, y := Group([name] + a), Group([name] + b);
    assert FieldsOf(x) == a && FieldsOf(y) == b;
    SameElements(a, b);
    forall r | r in rule.fields
      ensures Applied(r, b)
    {
      MatchesOfPermutation(a, b, r.name);
      MatchesUnique(a, r.name);
      MatchesUnique(b, r.name);
      assert RuleKept(r, a);
    }
    FormOkMeans(rule, x);
    FormOkMeans(rule, y);
  }
}
