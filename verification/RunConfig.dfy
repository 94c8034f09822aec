/** Loading a run description, from src/core/run_config.c. The loader trusts what the schema
    has checked: no lookup and no extraction behind it can fail. */
module RunConfig {
  import opened Statuses
  import opened SexprLex
  import opened SexprTree
  import opened SexprRead
  import opened SexprText
  import opened Schema
  import opened Sequences
  import BudgetConfig

  /** The fields of a run form. */
  datatype RunField = Model | Policy | Scenario | Corpus | Journal | Seed | Budgets | Expect | Goal | PostCheck {
    function Name(): string {
      match this
      case Model => "model"
      case Policy => "policy"
      case Scenario => "scenario"
      case Corpus => "corpus"
      case Journal => "journal"
      case Seed => "seed"
      case Budgets => "budgets"
      case Expect => "expect"
      case Goal => "goal"
      case PostCheck => "post_check"
    }

    predicate Required() {
      !(Expect? || Goal? || PostCheck?)
    }

    predicate Textual() {
      !(Seed? || Budgets?)
    }

    function Rule(): FieldRule {
      match this
      case Seed => FieldRule(Name(), SymbolValue, 1, 1, true, true)
      case Budgets => FieldRule(Name(), ListValue, 5, 7, true, true)
      case _ => FieldRule(Name(), StringValue, 1, 1, Required(), true)
    }
  }

  const RUN_FIELDS: seq<RunField> := [Model, Policy, Scenario, Corpus, Journal, Seed, Budgets, Expect, Goal, PostCheck]

  function RulesOf(fields: seq<RunField>): seq<FieldRule> {
    seq(|fields|, i requires 0 <= i < |fields| => fields[i].Rule())
  }

  const RUN_FORM := FormRule("run", RulesOf(RUN_FIELDS), false, 7, 9)

  const RUN_RULES := Rules([RUN_FORM], false, 1, 4)

  // ---- What a run description says -----------------------------------------------------------------

  /** The first field of a name. */
  function Lookup(fields: seq<Form>, name: string): (r: Option<Form>)
    ensures r.Some? ==> Headed(r.value, name)
  {
    if fields == [] then None
    else if Headed(fields[0], name) then Some(fields[0])
    else Lookup(fields[1..], name)
  }

  lemma {:induction false} LookupFinds(fields: seq<Form>, name: string)
    ensures var r := Lookup(fields, name);
            if r.Some? then r.value in fields && Headed(r.value, name) else forall f | f in fields :: !Headed(f, name)
  {
    if fields != [] {
      hide Headed;
      LookupFinds(fields[1..], name);
      assert fields == [fields[0]] + fields[1..];
    }
  }

  predicate IsField(form: Form, f: RunField) {
    Headed(form, f.Name())
  }

  predicate Has(fields: seq<Form>, f: RunField) {
    Lookup(fields, f.Name()).Some?
  }

  function Get(fields: seq<Form>, f: RunField): (r: Form)
    requires Has(fields, f)
    ensures r.Group? && r.items != []
  {
    Lookup(fields, f.Name()).value
  }

  lemma {:induction false} HasIs(fields: seq<Form>, f: RunField)
    ensures Has(fields, f) <==> exists form | form in fields :: IsField(form, f)
    ensures Has(fields, f) ==> Get(fields, f) in fields && IsField(Get(fields, f), f)
  {
    LookupFinds(fields, f.Name());
    hide Headed, RunField.Name;
  }

  /** The value of a field whose rule is kept. */
  predicate ValueFits(f: RunField, form: Form) {
    match f
    case Seed => form.Group? && |form.items| == 2 && form.items[1].Word?
    case Budgets => form.Group? && 5 <= |form.items| - 1 <= 7
    case _ => form.Group? && |form.items| == 2 && form.items[1].Quoted?
  }

  /** What the schema promises the loader. */
  predicate Promised(fields: seq<Form>) {
    && |fields| <= 9 && AllGroups(fields)
    && forall f: RunField :: (f.Required() ==> Has(fields, f)) && (Has(fields, f) ==> ValueFits(f, Get(fields, f)))
  }

  lemma {:induction false} RuleGives(f: RunField, fields: seq<Form>)
    requires RuleKept(f.Rule(), fields)
    ensures f.Required() ==> Has(fields, f)
    ensures Has(fields, f) ==> ValueFits(f, Get(fields, f))
  {
    LookupFinds(fields, f.Name());
    hide RunField.Name, Headed;
  }

  lemma {:induction false} OneRule(rule: FormRule, top: nat, depth: nat, forms: seq<Form>)
    requires Obeys(Rules([rule], false, top, depth), forms) && forms != []
    ensures Headed(forms[0], rule.name) && FormOk(rule, forms[0]) && (top > 0 ==> |forms| <= top)
  {
    hide FormOk, DepthWithin, Headed;
    var f := forms[0];
    assert TopFormOk(Rules([rule], false, top, depth), f);
    assert [rule][1..] == [] && RuleFor([], f) == None;
    assert RuleFor([rule], f) == if Headed(f, rule.name) then Some(rule) else None;
  }

  lemma {:induction false} FieldRuleKept(rule: FormRule, form: Form, i: nat)
    requires FormOk(rule, form) && i < |rule.fields|
    ensures RuleKept(rule.fields[i], FieldsOf(form))
  {
    hide RuleKept;
    assert rule.fields[i] in rule.fields;
  }

  /** The place of a field in the table. */
  function Number(f: RunField): (i: nat)
    ensures i < |RUN_FIELDS| && RUN_FIELDS[i] == f
  {
    match f
    case Model => 0
    case Policy => 1
    case Scenario => 2
    case Corpus => 3
    case Journal => 4
    case Seed => 5
    case Budgets => 6
    case Expect => 7
    case Goal => 8
    case PostCheck => 9
  }

  /** A text with at least one form that the schema accepts is one run form that keeps the promise. */
  lemma {:induction false} SchemaPromises(forms: seq<Form>)
    requires Obeys(RUN_RULES, forms) && forms != []
    ensures |forms| == 1 && Headed(forms[0], "run") && FormOk(RUN_FORM, forms[0]) && Promised(FieldsOf(forms[0]))
  {
    hide Obeys, RuleKept, ValueFits, Has, RunField.Rule, RunField.Name;
    OneRule(RUN_FORM, 1, 4, forms);
    var fields := FieldsOf(forms[0]);
    hide FormOk, FieldsOf;
    forall f: RunField
      ensures (f.Required() ==> Has(fields, f)) && (Has(fields, f) ==> ValueFits(f, Get(fields, f)))
    {
      FieldRuleKept(RUN_FORM, forms[0], Number(f));
      RuleGives(f, fields);
    }
  }

  // ---- How many fields there can be ---------------------------------------------------------------

  function Present(fields: seq<Form>): set<RunField> {
    set f: RunField | Has(fields, f)
  }

  /** Every form is one of the ten fields. */
  predicate KnownFields(fields: seq<Form>) {
    forall form | form in fields :: exists f: RunField :: IsField(form, f)
  }

  predicate NoneTwice(fields: seq<Form>) {
    forall f: RunField, i, j | 0 <= i < j < |fields| :: !(IsField(fields[i], f) && IsField(fields[j], f))
  }

  lemma SameName(form: Form, f: RunField, g: RunField)
    requires IsField(form, f) && IsField(form, g)
    ensures f == g
  {
  }

  lemma {:induction false} PresentStep(front: seq<Form>, last: Form, g: RunField)
    requires IsField(last, g) && NoneTwice(front + [last])
    ensures NoneTwice(front) && g !in Present(front)
    ensures Present(front + [last]) == Present(front) + {g}
  {
    hide IsField;
    var fields := front + [last];
    forall i, j, f: RunField | 0 <= i < j < |front|
      ensures !(IsField(front[i], f) && IsField(front[j], f))
    {
      assert !(IsField(fields[i], f) && IsField(fields[j], f));
    }
    HasIs(front, g);
    assert fields[|front|] == last && IsField(fields[|front|], g);
    forall form | form in front
      ensures !IsField(form, g)
    {
      var i :| 0 <= i < |front| && front[i] == form;
      assert fields[i] == form;
    }
    forall f: RunField
      ensures Has(fields, f) <==> Has(front, f) || f == g
    {
      HasIs(fields, f);
      HasIs(front, f);
      if Has(fields, f) && Get(fields, f) == last {
        SameName(last, f, g);
      }
      if Has(front, f) {
        assert Get(front, f) in fields;
      }
      assert last in fields;
    }
  }

  lemma {:induction false} LastKnown(front: seq<Form>, last: Form) returns (g: RunField)
    requires KnownFields(front + [last])
    ensures KnownFields(front) && IsField(last, g)
  {
    hide IsField;
    var fields := front + [last];
    assert fields[|front|] == last && last in fields;
    g :| IsField(last, g);
    forall form | form in front
      ensures exists f: RunField :: IsField(form, f)
    {
      assert form in fields;
    }
  }

  lemma NonePresent()
    ensures Present([]) == {}
  {
  }

  lemma {:induction false} PresentCount(fields: seq<Form>)
    requires KnownFields(fields) && NoneTwice(fields)
    ensures |Present(fields)| == |fields|
  {
    hide *;
    if fields == [] {
      NonePresent();
    } else {
      var front, last := fields[..|fields| - 1], fields[|fields| - 1];
      assert fields == front + [last];
      var g := LastKnown(front, last);
      PresentStep(front, last, g);
      PresentCount(front);
    }
  }

  /** The first n fields of the table. */
  function FirstFields(n: nat): (r: set<RunField>)
    requires n <= |RUN_FIELDS|
    ensures |r| == n && forall f: RunField :: f in r <==> Number(f) < n
  {
    if n == 0 then {}
    else
      assert Number(RUN_FIELDS[n - 1]) == n - 1;
      FirstFields(n - 1) + {RUN_FIELDS[n - 1]}
  }

  /** With all required fields there, between 7 and 10 fields are present, and 10 only if all three
      optional ones are. */
  lemma {:induction false} PresentBounds(fields: seq<Form>)
    requires forall f: RunField :: f.Required() ==> Has(fields, f)
    ensures |Present(fields)| >= 7
    ensures |Present(fields)| > 9 <==> Has(fields, Expect) && Has(fields, Goal) && Has(fields, PostCheck)
  {
    hide Has, FirstFields;
    var present, all := Present(fields), FirstFields(10);
    SubsetSize(FirstFields(7), present);
    if Expect in present && Goal in present && PostCheck in present {
      SubsetSize(all, present);
    } else {
      var f := if Expect !in present then Expect else if Goal !in present then Goal else PostCheck;
      SubsetSize(present, all - {f});
    }
  }

  lemma {:induction false} RunFormOk(form: Form)
    requires form.Group? && form.items != []
    requires AllGroups(FieldsOf(form)) && KnownFields(FieldsOf(form))
    requires forall f: RunField :: RuleKept(f.Rule(), FieldsOf(form))
    ensures FormOk(RUN_FORM, form) <==> 7 <= |FieldsOf(form)| <= 9
  {
    hide RuleKept, RunField.Name, RunField.Rule;
    var fields := FieldsOf(form);
    forall r | r in RUN_FORM.fields
      ensures RuleKept(r, fields)
    {
      var i :| 0 <= i < |RUN_FORM.fields| && RUN_FORM.fields[i] == r;
      assert r == RUN_FIELDS[i].Rule();
    }
    forall x | x in fields
      ensures Known(RUN_FORM.fields, x)
    {
      var f: RunField :| IsField(x, f);
      RuleInTable(f);
    }
  }

  lemma RuleInTable(f: RunField)
    ensures f.Rule() in RUN_FORM.fields && f.Rule().name == f.Name()
  {
    assert RUN_FORM.fields[Number(f)] == f.Rule();
  }

  lemma {:induction false} UniqueByRule(fields: seq<Form>)
    requires forall f: RunField :: RuleKept(f.Rule(), fields)
    ensures NoneTwice(fields)
  {
    forall f: RunField, i, j | 0 <= i < j < |fields|
      ensures !(IsField(fields[i], f) && IsField(fields[j], f))
    {
      assert RuleKept(f.Rule(), fields);
    }
  }

  /** Three fields are optional, but a run form that gives all three is refused: with every field
      rule kept, a form is accepted exactly when it leaves one of them out. */
  lemma {:induction false} AllOptionsRefused(form: Form)
    requires form.Group? && form.items != []
    requires AllGroups(FieldsOf(form)) && KnownFields(FieldsOf(form))
    requires forall f: RunField :: RuleKept(f.Rule(), FieldsOf(form))
    ensures FormOk(RUN_FORM, form) <==>
      !(Has(FieldsOf(form), Expect) && Has(FieldsOf(form), Goal) && Has(FieldsOf(form), PostCheck))
  {
    var fields := FieldsOf(form);
    hide FormOk, RuleKept, Has, FieldsOf, RunField.Name, KnownFields, NoneTwice, RunField.Rule;
    forall f: RunField
      ensures f.Required() ==> Has(fields, f)
    {
      RuleGives(f, fields);
    }
    UniqueByRule(fields);
    PresentCount(fields);
    PresentBounds(fields);
    RunFormOk(form);
  }

  function BudgetItems(names: seq<string>): seq<Form> {
    seq(|names|, i requires 0 <= i < |names| => Group([Word(names[i]), Word("1")]))
  }

  /** A well formed field. */
  function Sample(f: RunField): Form {
    match f
    case Seed => Group([Word(f.Name()), Word("1")])
    case Budgets =>
      Group([Word(f.Name())] + BudgetItems(["inference_steps", "tokens", "shell_actions", "sim_actions", "wall_ms"]))
    case Expect => Group([Word(f.Name()), Quoted("")])
    case _ => Group([Word(f.Name()), Quoted("x")])
  }

  /** A run form that gives the first n fields of the table. */
  function RunOf(n: nat): (form: Form)
    requires n <= |RUN_FIELDS|
    ensures form.Group? && form.items != []
  {
    Group([Word("run")] + seq(n, i requires 0 <= i < n => Sample(RUN_FIELDS[i])))
  }

  lemma SampleKeepsRule(f: RunField)
    ensures ValuesOk(f.Rule(), Sample(f)) && IsField(Sample(f), f)
  {
  }

  lemma SampleIsGroup(f: RunField)
    ensures Sample(f).Group?
  {
  }

  lemma NumberOf(i: nat)
    requires i < |RUN_FIELDS|
    ensures Number(RUN_FIELDS[i]) == i
  {
  }

  /** A field that stands only at its place in the table keeps its rule. */
  lemma {:induction false} RuleKeptAt(fields: seq<Form>, f: RunField)
    requires Number(f) < |fields| || !f.Required()
    requires Number(f) < |fields| ==> ValuesOk(f.Rule(), fields[Number(f)])
    requires forall i | 0 <= i < |fields| :: IsField(fields[i], f) <==> i == Number(f)
    ensures RuleKept(f.Rule(), fields)
  {
    assert f.Rule().name == f.Name() && f.Rule().required == f.Required();
    hide RunField.Rule, RunField.Name, Headed, ValuesOk;
    if f.Required() {
      assert IsField(fields[Number(f)], f);
    }
  }

  lemma {:induction false} SampleKept(n: nat, f: RunField)
    requires 7 <= n <= |RUN_FIELDS|
    ensures RuleKept(f.Rule(), FieldsOf(RunOf(n)))
  {
    var fields := FieldsOf(RunOf(n));
    hide RunField.Name, ValuesOk, Sample, IsField, RuleKept, RunField.Rule;
    forall i | 0 <= i < n
      ensures IsField(fields[i], f) <==> i == Number(f)
    {
      assert fields[i] == Sample(RUN_FIELDS[i]);
      SampleKeepsRule(RUN_FIELDS[i]);
      NumberOf(i);
      if IsField(fields[i], f) {
        SameName(fields[i], f, RUN_FIELDS[i]);
      }
    }
    SampleKeepsRule(f);
    RuleKeptAt(fields, f);
  }

  lemma {:induction false} SampleFields(n: nat)
    requires 7 <= n <= |RUN_FIELDS|
    ensures forall f: RunField :: RuleKept(f.Rule(), FieldsOf(RunOf(n)))
    ensures FormOk(RUN_FORM, RunOf(n)) <==> n <= 9
  {
    KnownSamples(n);
    hide RuleKept, RunField.Rule, FormOk, RunField.Name, KnownFields, AllGroups;
    forall f: RunField
      ensures RuleKept(f.Rule(), FieldsOf(RunOf(n)))
    {
      SampleKept(n, f);
    }
    RunFormOk(RunOf(n));
  }

  lemma {:induction false} KnownSamples(n: nat)
    requires n <= |RUN_FIELDS|
    ensures |FieldsOf(RunOf(n))| == n && AllGroups(FieldsOf(RunOf(n))) && KnownFields(FieldsOf(RunOf(n)))
  {
    hide RunField.Name, Sample, ValuesOk, IsField;
    var fields := FieldsOf(RunOf(n));
    assert |fields| == n && forall i | 0 <= i < n :: fields[i] == Sample(RUN_FIELDS[i]);
    forall form | form in fields
      ensures form.Group? && exists f: RunField :: IsField(form, f)
    {
      var i :| 0 <= i < n && fields[i] == form;
      SampleKeepsRule(RUN_FIELDS[i]);
      SampleIsGroup(RUN_FIELDS[i]);
    }
  }

  /** What a field of the form says. */
  lemma {:induction false} SampleGet(n: nat, f: RunField)
    requires 7 <= n <= |RUN_FIELDS|
    ensures Has(FieldsOf(RunOf(n)), f) <==> Number(f) < n
    ensures Has(FieldsOf(RunOf(n)), f) ==> Get(FieldsOf(RunOf(n)), f) == Sample(f)
  {
    var fields := FieldsOf(RunOf(n));
    HasIs(fields, f);
    hide RunField.Name, ValuesOk, Sample, IsField, RunField.Rule;
    forall i | 0 <= i < n
      ensures fields[i] == Sample(RUN_FIELDS[i]) && (IsField(fields[i], f) <==> i == Number(f))
    {
      SampleKeepsRule(RUN_FIELDS[i]);
      NumberOf(i);
      if IsField(fields[i], f) {
        SameName(fields[i], f, RUN_FIELDS[i]);
      }
    }
    hide Has, RunOf, FieldsOf;
    if Number(f) < n {
      assert fields[Number(f)] in fields;
    }
  }

  /** Such a form exists: one that gives all ten fields keeps every field rule and is refused; without
      its post_check it is accepted. */
  lemma {:induction false} TenFieldsRefused()
    ensures forall f: RunField :: RuleKept(f.Rule(), FieldsOf(RunOf(10))) && Has(FieldsOf(RunOf(10)), f)
    ensures !FormOk(RUN_FORM, RunOf(10))
    ensures RunOf(9) == Group(RunOf(10).items[..10]) && FormOk(RUN_FORM, RunOf(9))
  {
    hide RuleKept, RunField.Rule, FormOk, Has;
    SampleFields(9);
    SampleFields(10);
    forall f: RunField
      ensures Has(FieldsOf(RunOf(10)), f)
    {
      SampleGet(10, f);
    }
    assert RunOf(9).items == RunOf(10).items[..10];
  }

  // ---- The loader --------------------------------------------------------------------------------------

  lemma {:induction false} HasMeans(fields: seq<Form>, f: RunField, name: string)
    requires name == f.Name()
    ensures Has(fields, f) <==> Lookup(fields, name).Some?
    ensures Has(fields, f) ==> Get(fields, f) == Lookup(fields, name).value
    ensures fields[0..] == fields && Lookup(fields[|fields|..], name) == None
  {
  }

  /** The node of the first field with a name, by walking the siblings behind the form's name. */
  method FindField(input: string, nodes: seq<Node>, run: nat, f: RunField, ghost t: Tree, ghost fields: seq<Form>)
    returns (field: nat, ghost sub: Tree)
    requires |nodes| <= INVALID && Stands(nodes, run, t) && t.List? && t.items != [] && TextIn(input, t)
    requires fields == FieldsOf(FormOf(input, t))
    ensures field == INVALID <==> !Has(fields, f)
    ensures Has(fields, f) ==> field < |nodes| && NodeIs(input, nodes, field, sub, Get(fields, f))
  {
    sub := t;
    var name := f.Name();
    HasMeans(fields, f, name);
    hide *;
    FieldCount(input, t, fields);
    FirstChildren(nodes, run, t);
    field := SecondChild(nodes, run);
    ghost var k := 0;
    while field != INVALID
      invariant k <= |fields| && field == ChildIndex(run, t.items, k + 1)
      invariant Lookup(fields[k..], name) == Lookup(fields, name)
      decreases |fields| - k
    {
      ChildIndexEnds(run, t.items, k + 1);
      FieldAt(input, nodes, run, t, fields, k);
      if NodeNamed(input, nodes, field, name) {
        sub := t.items[k + 1];
        return;
      }
      k := k + 1;
      field := nodes[field].nextSibling;
    }
    if k < |fields| {
      FieldAt(input, nodes, run, t, fields, k);
    }
  }

  method StringValueSpan(input: string, nodes: seq<Node>, field: nat, ghost sub: Tree, ghost form: Form)
    returns (status: Status, span: Span)
    requires |nodes| <= INVALID && field < |nodes| && NodeIs(input, nodes, field, sub, form) && sub.List?
    ensures if |form.items| >= 2 && form.items[1].Quoted? then
              status == Ok && span.In(input) && form.items[1] == Quoted(span.Text(input))
            else status == Statuses.Schema
  {
    assert field < |nodes| && Stands(nodes, field, sub) && TextIn(input, sub) && form == FormOf(input, sub);
    assert |form.items| == |sub.items|;
    hide Stands, TextIn, FormOf;
    span := Span(0, 0);
    FirstChildren(nodes, field, sub);
    var value := SecondChild(nodes, field);
    if value == INVALID {
      return Statuses.Schema, span;
    }
    ChildSays(input, nodes, field, sub, 1);
    NodeSays(input, nodes, value, sub.items[1]);
    var payload := PayloadSpan(nodes[value]);
    if payload == None {
      return Statuses.Schema, span;
    }
    return Ok, payload.value;
  }

  method NumberValue(input: string, nodes: seq<Node>, field: nat, ghost sub: Tree, ghost form: Form)
    returns (status: Status, value: nat)
    requires |nodes| <= INVALID && field < |nodes| && NodeIs(input, nodes, field, sub, form) && sub.List?
    ensures if |form.items| >= 2 && form.items[1].Word? then status == NumberStatus(form.items[1].text)
            else status == Statuses.Schema
    ensures status == Ok ==> AllDigits(form.items[1].text) && value == Value(form.items[1].text)
  {
    assert field < |nodes| && Stands(nodes, field, sub) && TextIn(input, sub) && form == FormOf(input, sub);
    assert |form.items| == |sub.items|;
    hide Stands, TextIn, FormOf, NumberStatus, Value;
    FirstChildren(nodes, field, sub);
    var node := SecondChild(nodes, field);
    if node == INVALID {
      return Statuses.Schema, 0;
    }
    ChildSays(input, nodes, field, sub, 1);
    NodeSays(input, nodes, node, sub.items[1]);
    if nodes[node].kind != SymbolNode {
      return Statuses.Schema, 0;
    }
    status, value := ParseUint64(input, nodes[node].span);
  }

  /** A field that holds a text. */
  predicate HasText(fields: seq<Form>, f: RunField) {
    Has(fields, f) && |Get(fields, f).items| >= 2 && Get(fields, f).items[1].Quoted?
  }

  /** The span is that text. */
  predicate SpanSays(input: string, span: Span, fields: seq<Form>, f: RunField) {
    HasText(fields, f) && span.In(input) && Get(fields, f).items[1] == Quoted(span.Text(input))
  }

  /** A required text: absent, it is an error. */
  method AssignPathField(input: string, nodes: seq<Node>, run: nat, f: RunField, ghost t: Tree, ghost fields: seq<Form>)
    returns (status: Status, span: Span)
    requires |nodes| <= INVALID && Stands(nodes, run, t) && t.List? && t.items != [] && TextIn(input, t)
    requires fields == FieldsOf(FormOf(input, t))
    ensures status == if HasText(fields, f) then Ok else Statuses.Schema
    ensures status == Ok ==> SpanSays(input, span, fields, f)
  {
    hide Stands, TextIn;
    var field;
    ghost var sub;
    field, sub := FindField(input, nodes, run, f, t, fields);
    if field == INVALID {
      return Statuses.Schema, Span(0, 0);
    }
    status, span := StringValueSpan(input, nodes, field, sub, Get(fields, f));
  }

  /** An optional text. */
  method AssignOption(input: string, nodes: seq<Node>, run: nat, f: RunField, ghost t: Tree, ghost fields: seq<Form>)
    returns (status: Status, option: Option<Span>)
    requires |nodes| <= INVALID && Stands(nodes, run, t) && t.List? && t.items != [] && TextIn(input, t)
    requires fields == FieldsOf(FormOf(input, t))
    ensures status == if Has(fields, f) ==> HasText(fields, f) then Ok else Statuses.Schema
    ensures status == Ok ==> OptionSays(input, fields, f, option)
  {
    hide Stands, TextIn;
    var field;
    ghost var sub;
    field, sub := FindField(input, nodes, run, f, t, fields);
    if field == INVALID {
      return Ok, None;
    }
    var span;
    status, span := StringValueSpan(input, nodes, field, sub, Get(fields, f));
    option := if status == Ok then Some(span) else None;
  }

  lemma {:induction false} PostCheckSays(input: string, fields: seq<Form>, option: Option<Span>)
    requires OptionSays(input, fields, PostCheck, option)
    ensures EmptyTextIn(fields, PostCheck) <==> option.Some? && option.value.length == 0
  {
    if option.Some? {
    }
  }

  lemma {:induction false} PromisedText(fields: seq<Form>, f: RunField)
    requires Promised(fields) && f.Textual()
    ensures Has(fields, f) ==> HasText(fields, f)
    ensures f.Required() ==> HasText(fields, f)
  {
  }

  predicate AllPaths(fields: seq<Form>) {
    && HasText(fields, Model) && HasText(fields, Policy) && HasText(fields, Scenario)
    && HasText(fields, Corpus) && HasText(fields, Journal)
  }

  lemma {:induction false} TextsThere(fields: seq<Form>)
    requires Promised(fields)
    ensures AllPaths(fields)
    ensures (Has(fields, Expect) ==> HasText(fields, Expect)) && (Has(fields, Goal) ==> HasText(fields, Goal))
            && (Has(fields, PostCheck) ==> HasText(fields, PostCheck))
  {
    hide Promised, HasText, Has;
    PromisedText(fields, Expect);
    PromisedText(fields, Goal);
    PromisedText(fields, PostCheck);
    PromisedText(fields, Model);
    PromisedText(fields, Policy);
    PromisedText(fields, Scenario);
    PromisedText(fields, Corpus);
    PromisedText(fields, Journal);
  }

  predicate EmptyTextIn(fields: seq<Form>, f: RunField) {
    HasText(fields, f) && Get(fields, f).items[1].payload == []
  }

  function NumbersStatus(fields: seq<Form>): Status
    requires Promised(fields)
  {
    var seed := NumberStatus(Get(fields, Seed).items[1].text);
    if seed != Ok then seed else BudgetConfig.Outcome(BudgetConfig.ItemsOf(Get(fields, Budgets))).0
  }

  /** What loading a form gives, once the schema has accepted it. */
  function LoadStatus(fields: seq<Form>): Status
    requires Promised(fields)
  {
    if NumbersStatus(fields) != Ok then NumbersStatus(fields)
    else if EmptyTextIn(fields, PostCheck) then Statuses.Schema
    else Ok
  }

  lemma LoadStatusIs(fields: seq<Form>)
    requires Promised(fields)
    ensures LoadStatus(fields) == if NumbersStatus(fields) != Ok then NumbersStatus(fields)
                                  else if EmptyTextIn(fields, PostCheck) then Statuses.Schema
                                  else Ok
  {
  }

  /** What loading a parsed text gives: behind the schema only the seed, the budgets and an empty
      post-check command can be wrong. */
  function ConfigStatus(forms: seq<Form>): Status {
    if forms == [] || !Obeys(RUN_RULES, forms) then Statuses.Schema
    else
      SchemaPromises(forms);
      LoadStatus(FieldsOf(forms[0]))
  }

  /** What the comment on the expected observation says: it must not be empty. */
  function DocumentedStatus(fields: seq<Form>): Status
    requires Promised(fields)
  {
    if NumbersStatus(fields) != Ok then NumbersStatus(fields)
    else if EmptyTextIn(fields, Expect) || EmptyTextIn(fields, PostCheck) then Statuses.Schema
    else Ok
  }

  /** The code keeps to it exactly when the expected observation is not empty, or something else fails
      before or behind it. */
  lemma {:induction false} EmptyExpectIff(fields: seq<Form>)
    requires Promised(fields)
    ensures LoadStatus(fields) == DocumentedStatus(fields)
       <==> !EmptyTextIn(fields, Expect) || EmptyTextIn(fields, PostCheck) || NumbersStatus(fields) != Ok
  {
  }

  /** A form with an empty expected observation, which loads. */
  lemma {:induction false} EmptyExpectLoads()
    ensures Promised(FieldsOf(RunOf(8))) && EmptyTextIn(FieldsOf(RunOf(8)), Expect)
    ensures ConfigStatus([RunOf(8)]) == Ok && DocumentedStatus(FieldsOf(RunOf(8))) == Statuses.Schema
  {
    hide Obeys, Promised, RunOf, FieldsOf, NumbersStatus, EmptyTextIn, ConfigStatus, LoadStatus, DocumentedStatus;
    SampleObeys(8);
    OneFormStatus(RunOf(8));
    SampleNumbers(8);
    SampleOptions();
    OnlyExpectEmpty(FieldsOf(RunOf(8)));
  }

  lemma {:induction false} OneFormStatus(form: Form)
    requires Obeys(RUN_RULES, [form])
    ensures form.Group? && form.items != [] && Promised(FieldsOf(form))
    ensures ConfigStatus([form]) == LoadStatus(FieldsOf(form))
  {
    hide Obeys, Promised, LoadStatus, FormOk;
    SchemaPromises([form]);
  }

  lemma {:induction false} SampleOptions()
    ensures EmptyTextIn(FieldsOf(RunOf(8)), Expect) && !EmptyTextIn(FieldsOf(RunOf(8)), PostCheck)
  {
    hide RunOf, FieldsOf, Has, Get;
    SampleGet(8, Expect);
    SampleGet(8, PostCheck);
    assert Sample(Expect).items[1].payload == [];
  }

  lemma OnlyExpectEmpty(fields: seq<Form>)
    requires Promised(fields) && NumbersStatus(fields) == Ok
    requires EmptyTextIn(fields, Expect) && !EmptyTextIn(fields, PostCheck)
    ensures LoadStatus(fields) == Ok && DocumentedStatus(fields) == Statuses.Schema
  {
    hide Promised, NumbersStatus, EmptyTextIn;
  }

  lemma {:induction false} SampleNumbers(n: nat)
    requires 7 <= n <= |RUN_FIELDS| && Promised(FieldsOf(RunOf(n)))
    ensures NumbersStatus(FieldsOf(RunOf(n))) == Ok
  {
    hide RunOf, FieldsOf, Has, NumberStatus, BudgetConfig.Outcome;
    SampleGet(n, Seed);
    SampleGet(n, Budgets);
    BudgetConfig.OneIsNumber();
    BudgetConfig.RequiredSuffice(BudgetConfig.ItemsOf(Sample(Budgets)), [0, 1, 2, 3, 6]);
  }

  lemma {:induction false} SampleObeys(n: nat)
    requires 7 <= n <= 9
    ensures Obeys(RUN_RULES, [RunOf(n)])
  {
    SampleFields(n);
    var form := RunOf(n);
    hide FormOk, RunField.Name;
    assert RuleFor([RUN_FORM], form) == Some(RUN_FORM);
    forall item | item in form.items
      ensures DepthWithin(item, 3)
    {
      var i :| 0 <= i <= n && form.items[i] == item;
      if i > 0 {
        assert item == Sample(RUN_FIELDS[i - 1]);
        SampleDepth(RUN_FIELDS[i - 1]);
      }
    }
    hide RunOf, Sample;
    assert DepthWithin(form, 4);
  }

  lemma {:induction false} SampleDepth(f: RunField)
    ensures DepthWithin(Sample(f), 3)
  {
    hide RunField.Name;
    forall item | item in Sample(f).items
      ensures DepthWithin(item, 2)
    {
      if item.Group? {
        assert forall x | x in item.items :: x.Word? && DepthWithin(x, 1);
      }
    }
  }

  lemma ReadsIn(input: string, tokenCapacity: nat, nodeCapacity: nat, forest: seq<Tree>)
    requires Reads(input, tokenCapacity, nodeCapacity, forest)
    ensures TextInAll(input, forest)
  {
  }

  /** The path fields of a configuration. */
  datatype Paths = Paths(model: Span, policy: Span, scenario: Span, corpus: Span, journal: Span)

  predicate PathsSay(input: string, fields: seq<Form>, paths: Paths) {
    && SpanSays(input, paths.model, fields, Model) && SpanSays(input, paths.policy, fields, Policy)
    && SpanSays(input, paths.scenario, fields, Scenario) && SpanSays(input, paths.corpus, fields, Corpus)
    && SpanSays(input, paths.journal, fields, Journal)
  }

  ghost predicate NumbersSay(fields: seq<Form>, seed: nat, budgets: seq<nat>)
    requires Promised(fields)
  {
    && AllDigits(Get(fields, Seed).items[1].text) && seed == Value(Get(fields, Seed).items[1].text)
    && BudgetConfig.Means(BudgetConfig.ItemsOf(Get(fields, Budgets)), budgets)
  }

  /** An option is there exactly when its field is. */
  predicate OptionSays(input: string, fields: seq<Form>, f: RunField, option: Option<Span>) {
    option.Some? == Has(fields, f) && (option.Some? ==> SpanSays(input, option.value, fields, f))
  }

  class Config {
    var paths: Paths
    var seed: nat
    var budgets: seq<nat>
    var expected: Option<Span>
    var goal: Option<Span>
    var postCheck: Option<Span>

    constructor ()
    {
      budgets := [];
      paths := Paths(Span(0, 0), Span(0, 0), Span(0, 0), Span(0, 0), Span(0, 0));
      expected, goal, postCheck := None, None, None;
      seed := 0;
    }

    method LoadPaths(input: string, nodes: seq<Node>, run: nat, ghost t: Tree, ghost fields: seq<Form>)
      returns (status: Status)
      requires |nodes| <= INVALID && Stands(nodes, run, t) && t.List? && t.items != [] && TextIn(input, t)
      requires fields == FieldsOf(FormOf(input, t))
      modifies `paths
      ensures status == if AllPaths(fields) then Ok else Statuses.Schema
      ensures status == Ok ==> PathsSay(input, fields, paths)
    {
      hide HasText, SpanSays, Stands, TextIn, FormOf;
      var span;
      status, span := AssignPathField(input, nodes, run, Model, t, fields);
      paths := paths.(model := span);
      if status != Ok {
        return;
      }
      status, span := AssignPathField(input, nodes, run, Policy, t, fields);
      paths := paths.(policy := span);
      if status != Ok {
        return;
      }
      status, span := AssignPathField(input, nodes, run, Scenario, t, fields);
      paths := paths.(scenario := span);
      if status != Ok {
        return;
      }
      status, span := AssignPathField(input, nodes, run, Corpus, t, fields);
      paths := paths.(corpus := span);
      if status != Ok {
        return;
      }
      status, span := AssignPathField(input, nodes, run, Journal, t, fields);
      paths := paths.(journal := span);
    }

    /** The seed node is read without a check: the schema has made sure that it is there. */
    method LoadNumbers(input: string, nodes: seq<Node>, run: nat, ghost t: Tree, ghost fields: seq<Form>)
      returns (status: Status)
      requires |nodes| <= INVALID && Stands(nodes, run, t) && t.List? && t.items != [] && TextIn(input, t)
      requires fields == FieldsOf(FormOf(input, t)) && Promised(fields)
      modifies `seed, `budgets
      ensures status == NumbersStatus(fields)
      ensures status == Ok ==> NumbersSay(fields, seed, budgets)
    {
      assert Has(fields, Seed) && ValueFits(Seed, Get(fields, Seed));
      assert Has(fields, Budgets) && ValueFits(Budgets, Get(fields, Budgets));
      ghost var items := BudgetConfig.ItemsOf(Get(fields, Budgets));
      hide Stands, TextIn, FormOf, NumberStatus, Value, BudgetConfig.Outcome, BudgetConfig.Means, Has;
      var field;
      ghost var sub;
      field, sub := FindField(input, nodes, run, Seed, t, fields);
      status, seed := NumberValue(input, nodes, field, sub, Get(fields, Seed));
      if status != Ok {
        return;
      }
      field, sub := FindField(input, nodes, run, Budgets, t, fields);
      var table := new nat[BudgetConfig.COUNT];
      status := BudgetConfig.ParseBudgets(input, nodes, field, table, sub);
      budgets := table[..];
      BudgetConfig.OutcomeMeans(items);
    }

    /** The source's exits for an option that is no string are never taken. */
    method LoadOptions(input: string, nodes: seq<Node>, run: nat, ghost t: Tree, ghost fields: seq<Form>)
      returns (status: Status)
      requires |nodes| <= INVALID && Stands(nodes, run, t) && t.List? && t.items != [] && TextIn(input, t)
      requires fields == FieldsOf(FormOf(input, t))
      requires (Has(fields, Expect) ==> HasText(fields, Expect)) && (Has(fields, Goal) ==> HasText(fields, Goal))
      requires Has(fields, PostCheck) ==> HasText(fields, PostCheck)
      modifies `expected, `goal, `postCheck
      ensures status == if EmptyTextIn(fields, PostCheck) then Statuses.Schema else Ok
      ensures OptionSays(input, fields, Expect, expected) && OptionSays(input, fields, Goal, goal)
      ensures OptionSays(input, fields, PostCheck, postCheck)
    {
      hide Stands, TextIn, FormOf, Has, HasText, SpanSays, OptionSays;
      status, expected := AssignOption(input, nodes, run, Expect, t, fields);
      assert status == Ok;
      status, goal := AssignOption(input, nodes, run, Goal, t, fields);
      assert status == Ok;
      status, postCheck := AssignOption(input, nodes, run, PostCheck, t, fields);
      PostCheckSays(input, fields, postCheck);
      if postCheck.Some? && postCheck.value.length == 0 {
        status := Statuses.Schema;
      }
    }

    /** The required fields. The source's exit for a path that is missing or no string is never taken. */
    method LoadRequired(input: string, nodes: seq<Node>, run: nat, ghost t: Tree, ghost fields: seq<Form>)
      returns (status: Status)
      requires |nodes| <= INVALID && Stands(nodes, run, t) && t.List? && t.items != [] && TextIn(input, t)
      requires fields == FieldsOf(FormOf(input, t)) && Promised(fields)
      modifies this
      ensures status == NumbersStatus(fields)
      ensures status == Ok ==> PathsSay(input, fields, paths)
      ensures status == Ok ==> NumbersSay(fields, seed, budgets)
    {
      TextsThere(fields);
      hide *;
      status := LoadPaths(input, nodes, run, t, fields);
      assert status == Ok;
      status := LoadNumbers(input, nodes, run, t, fields);
    }

    /** Fill in the configuration from a form that the schema has accepted. */
    method LoadForm(input: string, nodes: seq<Node>, run: nat, ghost t: Tree, ghost fields: seq<Form>)
      returns (status: Status)
      requires |nodes| <= INVALID && Stands(nodes, run, t) && t.List? && t.items != [] && TextIn(input, t)
      requires fields == FieldsOf(FormOf(input, t)) && Promised(fields)
      modifies this
      ensures status == LoadStatus(fields)
      ensures status == Ok ==> PathsSay(input, fields, paths)
      ensures status == Ok ==> NumbersSay(fields, seed, budgets)
      ensures status == Ok ==> OptionSays(input, fields, Expect, expected)
      ensures status == Ok ==> OptionSays(input, fields, Goal, goal)
      ensures status == Ok ==> OptionSays(input, fields, PostCheck, postCheck)
    {
      TextsThere(fields);
      LoadStatusIs(fields);
      hide *;
      status := LoadRequired(input, nodes, run, t, fields);
      if status == Ok {
        status := LoadOptions(input, nodes, run, t, fields);
      }
    }

    ghost predicate FieldsSay(input: string, fields: seq<Form>)
      reads this
    {
      && Promised(fields) && PathsSay(input, fields, paths) && NumbersSay(fields, seed, budgets)
      && OptionSays(input, fields, Expect, expected) && OptionSays(input, fields, Goal, goal)
      && OptionSays(input, fields, PostCheck, postCheck)
    }

    /** Load a configuration. `forest` is what the text reads as, if it reads as anything. */
    method Load(input: string, tokens: array<Token>, nodes: array<Node>)
      returns (status: Status, ghost forest: Option<seq<Tree>>)
      requires nodes.Length <= INVALID
      modifies this, tokens, nodes
      ensures tokens.Length == 0 || nodes.Length == 0 ==> status == InvalidArg
      ensures tokens.Length > 0 && nodes.Length > 0 ==>
        if TextStatus(input, tokens.Length, nodes.Length) == Ok then forest.Some?
        else forest == None && status == TextStatus(input, tokens.Length, nodes.Length)
      ensures tokens.Length > 0 && nodes.Length > 0 && forest != None ==>
        && Reads(input, tokens.Length, nodes.Length, forest.value)
        && status == ConfigStatus(FormsOf(input, forest.value))
        && (status == Ok ==> Describes(input, FormsOf(input, forest.value)))
    {
      hide Reads, TextInAll, Represents, ConfigStatus, Describes, Lex;
      forest := None;
      if tokens.Length == 0 || nodes.Length == 0 {
        return InvalidArg, None;
      }
      var count;
      ghost var f;
      status, count, f := ParseText(input, tokens, nodes);
      if status != Ok {
        return;
      }
      forest := Some(f);
      ReadsIn(input, tokens.Length, nodes.Length, f);
      status := LoadNodes(input, nodes[..count], f, FormsOf(input, f));
    }

    method LoadNodes(input: string, nodes: seq<Node>, ghost forest: seq<Tree>, ghost forms: seq<Form>)
      returns (status: Status)
      requires |nodes| <= INVALID && Represents(nodes, forest) && TextInAll(input, forest)
      requires forms == FormsOf(input, forest)
      modifies this
      ensures status == ConfigStatus(forms) && (status == Ok ==> Describes(input, forms))
    {
      if |nodes| == 0 {
        return Statuses.Schema;
      }
      status := Validate(input, nodes, RUN_RULES, forest);
      if status != Ok {
        return;
      }
      SchemaPromises(forms);
      hide Obeys, Promised, Represents, FormOf, LoadStatus, Stands, TextIn, PathsSay, NumbersSay, OptionSays;
      RootStands(nodes, forest, 0);
      assert forms[0] == FormOf(input, forest[0]) && RootIndex(0, forest, 0) == 0;
      status := LoadForm(input, nodes, 0, forest[0], FieldsOf(forms[0]));
    }

    /** The configuration is what the run form says. */
    ghost predicate Describes(input: string, forms: seq<Form>)
      reads this
    {
      forms != [] && forms[0].Group? && forms[0].items != [] && FieldsSay(input, FieldsOf(forms[0]))
    }
  }
}
