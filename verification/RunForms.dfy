/** Run descriptions in their own words: which forms load, and what each part of the configuration then is. */
module RunForms {
  import opened Statuses
  import opened SexprLex
  import opened SexprRead
  import T = SexprText
  import opened Schema
  import opened RunConfig
  import BudgetConfig

  // ---- Which forms load -----------------------------------------------------------------------------

  const NAMES: seq<string> :=
    ["model", "policy", "scenario", "corpus", "journal", "seed", "budgets", "expect", "goal", "post_check"]

  predicate OneText(field: Form) {
    field.Group? && |field.items| == 2 && field.items[1].Quoted?
  }

  predicate OneNumber(field: Form) {
    field.Group? && |field.items| == 2 && field.items[1].Word? && T.Number(field.items[1].text)
  }

  /** Five to seven lists, which are budgets. */
  ghost predicate BudgetList(field: Form) {
    && field.Group? && 6 <= |field.items| <= 8 && (forall k | 1 <= k < |field.items| :: field.items[k].Group?)
    && BudgetConfig.Spelled(field.items[1..])
  }

  /** The field has one of the ten names, and what belongs to that name. */
  ghost predicate FieldSpelled(field: Form) {
    || (OneText(field) && (Headed(field, "model") || Headed(field, "policy") || Headed(field, "scenario")
                           || Headed(field, "corpus") || Headed(field, "journal")
                           || Headed(field, "expect") || Headed(field, "goal")
                           || (Headed(field, "post_check") && field.items[1].payload != [])))
    || (OneNumber(field) && Headed(field, "seed"))
    || (BudgetList(field) && Headed(field, "budgets"))
  }

  /** A run form that loads: at most nine fields, all of them spelled so, none twice, and the seven that are
      not optional there. */
  ghost predicate RunSpelled(form: Form) {
    && Headed(form, "run") && |form.items| <= 10
    && (forall k | 1 <= k < |form.items| :: FieldSpelled(form.items[k]))
    && NamedOnce(form) && AllThere(form)
  }

  predicate NamedOnce(form: Form)
    requires form.Group?
  {
    forall name, j, k | name in NAMES && 1 <= j < k < |form.items| ::
      !(Headed(form.items[j], name) && Headed(form.items[k], name))
  }

  predicate AllThere(form: Form)
    requires form.Group?
  {
    forall n: nat | n < 7 :: There(form, NAMES[n])
  }

  predicate There(form: Form, name: string)
    requires form.Group?
  {
    exists k :: 1 <= k < |form.items| && Headed(form.items[k], name)
  }

  lemma NameIs(f: RunField, field: Form)
    ensures f.Name() == NAMES[Number(f)] && (IsField(field, f) <==> Headed(field, NAMES[Number(f)]))
  {
  }

  /** What a field's rule asks of it, in words. */
  ghost predicate Shape(f: RunField, field: Form) {
    match f
    case Seed => field.Group? && |field.items| == 2 && field.items[1].Word?
    case Budgets => field.Group? && 6 <= |field.items| <= 8 && forall k | 1 <= k < |field.items| :: field.items[k].Group?
    case _ => OneText(field)
  }

  lemma {:induction false} RuleIsShape(f: RunField, field: Form)
    requires IsField(field, f)
    ensures ValuesOk(f.Rule(), field) <==> Shape(f, field)
  {
    hide RunField.Name;
  }

  /** What else must be right for the form to load. */
  ghost predicate Right(f: RunField, field: Form)
    requires Shape(f, field)
  {
    match f
    case Seed => T.Number(field.items[1].text)
    case Budgets => BudgetConfig.Spelled(field.items[1..])
    case PostCheck => field.items[1].payload != []
    case _ => true
  }

  ghost predicate Good(f: RunField, field: Form) {
    IsField(field, f) && Shape(f, field) && Right(f, field)
  }

  lemma {:induction false} GoodIsSpelled(f: RunField, field: Form)
    requires Good(f, field)
    ensures FieldSpelled(field)
  {
    hide BudgetConfig.Spelled, T.Number, Headed;
    NameIs(f, field);
    match f
    case _ =>
  }

  lemma {:induction false} SpelledIsGood(field: Form) returns (f: RunField)
    requires FieldSpelled(field)
    ensures Good(f, field)
  {
    hide BudgetConfig.Spelled, T.Number, Headed, IsField, RunField.Name;
    if BudgetList(field) && Headed(field, "budgets") {
      f := Budgets;
    } else if OneNumber(field) && Headed(field, "seed") {
      f := Seed;
    } else if Headed(field, "model") {
      f := Model;
    } else if Headed(field, "policy") {
      f := Policy;
    } else if Headed(field, "scenario") {
      f := Scenario;
    } else if Headed(field, "corpus") {
      f := Corpus;
    } else if Headed(field, "journal") {
      f := Journal;
    } else if Headed(field, "expect") {
      f := Expect;
    } else if Headed(field, "goal") {
      f := Goal;
    } else {
      f := PostCheck;
    }
    NameIs(f, field);
  }

  // ---- From the schema to the words ---------------------------------------------------------------

  /** The form keeps every rule of the schema, and everything behind it is right. */
  ghost predicate Loadable(form: Form) {
    && Headed(form, "run") && FormOk(RUN_FORM, form)
    && forall f: RunField, field | field in FieldsOf(form) && IsField(field, f) :: Shape(f, field) && Right(f, field)
  }

  lemma {:induction false} RulesKept(form: Form, f: RunField)
    requires Headed(form, "run") && FormOk(RUN_FORM, form)
    ensures RuleKept(f.Rule(), FieldsOf(form))
  {
    hide RuleKept;
    FieldRuleKept(RUN_FORM, form, Number(f));
  }

  lemma {:induction false} NoneNamedTwice(fields: seq<Form>, name: string, j: nat, k: nat)
    requires NoneTwice(fields) && name in NAMES && j < k < |fields|
    ensures !(Headed(fields[j], name) && Headed(fields[k], name))
  {
    var n :| 0 <= n < |NAMES| && NAMES[n] == name;
    var f := RUN_FIELDS[n];
    NumberOf(n);
    hide IsField, Headed;
    NameIs(f, fields[j]);
    NameIs(f, fields[k]);
  }

  lemma {:induction false} RequiredNamed(fields: seq<Form>, n: nat)
    requires n < 7 && RuleKept(RUN_FIELDS[n].Rule(), fields)
    ensures exists field | field in fields :: Headed(field, NAMES[n])
  {
    var f := RUN_FIELDS[n];
    NumberOf(n);
    RuleGives(f, fields);
    HasIs(fields, f);
    hide IsField, Headed, Has;
    NameIs(f, Get(fields, f));
  }

  lemma {:induction false} OnceNamed(form: Form)
    requires form.Group? && form.items != [] && NoneTwice(FieldsOf(form))
    ensures NamedOnce(form)
  {
    hide Headed, NoneTwice;
    forall name, j, k | name in NAMES && 1 <= j < k < |form.items|
      ensures !(Headed(form.items[j], name) && Headed(form.items[k], name))
    {
      NoneNamedTwice(FieldsOf(form), name, j - 1, k - 1);
    }
  }

  lemma {:induction false} NamedAt(form: Form, n: nat) returns (k: nat)
    requires form.Group? && form.items != [] && n < 7 && RuleKept(RUN_FIELDS[n].Rule(), FieldsOf(form))
    ensures 1 <= k < |form.items| && Headed(form.items[k], NAMES[n])
  {
    var fields := FieldsOf(form);
    RequiredNamed(fields, n);
    hide RuleKept, Headed, RunField.Rule;
    var field :| field in fields && Headed(field, NAMES[n]);
    k :| 0 <= k < |fields| && fields[k] == field;
    k := k + 1;
  }

  lemma {:induction false} AllNamed(form: Form)
    requires form.Group? && form.items != [] && forall f: RunField :: RuleKept(f.Rule(), FieldsOf(form))
    ensures AllThere(form)
  {
    hide RuleKept, Headed, RunField.Rule, FieldsOf;
    forall n: nat | n < 7
      ensures There(form, NAMES[n])
    {
      var f := RUN_FIELDS[n];
      assert RuleKept(f.Rule(), FieldsOf(form));
      var k := NamedAt(form, n);
    }
  }

  lemma {:induction false} LoadableRules(form: Form)
    requires Loadable(form)
    ensures form.Group? && 1 <= |form.items| <= 10 && Headed(form, "run")
    ensures forall f: RunField :: RuleKept(f.Rule(), FieldsOf(form))
  {
    forall f: RunField
      ensures RuleKept(f.Rule(), FieldsOf(form))
    {
      RulesKept(form, f);
    }
    hide RuleKept, RunField.Rule;
  }

  lemma {:induction false} LoadableField(form: Form, k: nat)
    requires Loadable(form) && 1 <= k < |form.items|
    ensures FieldSpelled(form.items[k])
  {
    var field := FieldsOf(form)[k - 1];
    var f := KnownIs(form, field);
    hide FieldSpelled, IsField, Shape, Right, FormOk;
    GoodIsSpelled(f, field);
  }

  lemma {:induction false} LoadableSpelled(form: Form)
    requires Loadable(form)
    ensures RunSpelled(form)
  {
    LoadableRules(form);
    forall k | 1 <= k < |form.items|
      ensures FieldSpelled(form.items[k])
    {
      LoadableField(form, k);
    }
    UniqueByRule(FieldsOf(form));
    hide Loadable, FieldSpelled, RuleKept, RunField.Rule, NoneTwice, NamedOnce, AllThere, Headed;
    OnceNamed(form);
    AllNamed(form);
  }

  lemma {:induction false} KnownIs(form: Form, field: Form) returns (f: RunField)
    requires Headed(form, "run") && FormOk(RUN_FORM, form) && field in FieldsOf(form)
    ensures IsField(field, f)
  {
    assert Known(RUN_FORM.fields, field);
    hide FormOk, FieldsOf, RunField.Name, RunField.Rule;
    var r :| r in RUN_FORM.fields && Headed(field, r.name);
    var i :| 0 <= i < |RUN_FORM.fields| && RUN_FORM.fields[i] == r;
    f := RUN_FIELDS[i];
    RuleName(f);
  }

  lemma RuleName(f: RunField)
    ensures f.Rule().name == f.Name()
  {
  }

  // ---- And back -----------------------------------------------------------------------------------

  lemma {:induction false} FieldIsGood(form: Form, f: RunField, field: Form)
    requires RunSpelled(form) && field in FieldsOf(form) && IsField(field, f)
    ensures Good(f, field)
  {
    var k :| 1 <= k < |form.items| && form.items[k] == field;
    assert FieldSpelled(form.items[k]);
    hide Shape, Right, FieldSpelled, IsField, Headed;
    var g := SpelledIsGood(field);
    SameName(field, f, g);
  }

  lemma {:induction false} SpelledKeepsRule(form: Form, f: RunField)
    requires RunSpelled(form)
    ensures RuleKept(f.Rule(), FieldsOf(form))
  {
    var fields := FieldsOf(form);
    assert f.Rule().name == f.Name() && f.Rule().required == f.Required() && (f.Required() ==> Number(f) < 7);
    forall field | field in fields && IsField(field, f)
      ensures ValuesOk(f.Rule(), field)
    {
      FieldIsGood(form, f, field);
      RuleIsShape(f, field);
    }
    forall field
      ensures IsField(field, f) <==> Headed(field, NAMES[Number(f)])
      ensures IsField(field, f) <==> Headed(field, f.Name())
    {
      NameIs(f, field);
    }
    hide IsField, Headed, ValuesOk, FieldSpelled, RunField.Rule, RunField.Name;
    forall i, j | 0 <= i < j < |fields|
      ensures !(IsField(fields[i], f) && IsField(fields[j], f))
    {
      assert fields[i] == form.items[i + 1] && fields[j] == form.items[j + 1];
      assert NAMES[Number(f)] in NAMES;
    }
    if f.Required() {
      assert There(form, NAMES[Number(f)]);
      var k :| 1 <= k < |form.items| && Headed(form.items[k], NAMES[Number(f)]);
      assert fields[k - 1] == form.items[k] && form.items[k] in fields;
    }
  }

  lemma {:induction false} SpelledFormOk(form: Form)
    requires RunSpelled(form)
    ensures Headed(form, "run") && FormOk(RUN_FORM, form)
  {
    var fields := FieldsOf(form);
    forall f: RunField
      ensures RuleKept(f.Rule(), fields)
    {
      SpelledKeepsRule(form, f);
    }
    forall field | field in fields
      ensures field.Group? && exists f: RunField :: IsField(field, f)
    {
      var k :| 1 <= k < |form.items| && form.items[k] == field;
      assert FieldSpelled(form.items[k]);
      var f := SpelledIsGood(field);
      GoodIsGroup(f, field);
    }
    assert |fields| <= 9;
    hide RuleKept, RunField.Rule, IsField, FieldSpelled, FormOk, RunSpelled;
    AtLeastSeven(fields);
    RunFormOk(form);
  }

  lemma GoodIsGroup(f: RunField, field: Form)
    requires Good(f, field)
    ensures field.Group?
  {
  }

  lemma {:induction false} AtLeastSeven(fields: seq<Form>)
    requires KnownFields(fields) && forall f: RunField :: RuleKept(f.Rule(), fields)
    ensures |fields| >= 7
  {
    hide RuleKept, RunField.Rule, KnownFields, NoneTwice, Has;
    forall f: RunField
      ensures f.Required() ==> Has(fields, f)
    {
      RuleGives(f, fields);
    }
    UniqueByRule(fields);
    PresentCount(fields);
    PresentBounds(fields);
  }

  lemma {:induction false} SpelledLoadable(form: Form)
    requires RunSpelled(form)
    ensures Loadable(form)
  {
    SpelledFormOk(form);
    hide FormOk, Shape, Right, IsField, RunSpelled;
    forall f: RunField, field | field in FieldsOf(form) && IsField(field, f)
      ensures Shape(f, field) && Right(f, field)
    {
      FieldIsGood(form, f, field);
    }
  }

  /** With no name twice, a field is the one that its name finds. */
  lemma {:induction false} OnlyOne(fields: seq<Form>, f: RunField, field: Form)
    requires NoneTwice(fields) && field in fields && IsField(field, f)
    ensures Has(fields, f) && Get(fields, f) == field
  {
    HasIs(fields, f);
    hide IsField, Has;
    var i :| 0 <= i < |fields| && fields[i] == field;
    var j :| 0 <= j < |fields| && fields[j] == Get(fields, f);
  }

  /** Every field that is there has its shape. */
  ghost predicate Shaped(fields: seq<Form>) {
    forall f: RunField | Has(fields, f) :: Shape(f, Get(fields, f))
  }

  lemma {:induction false} SeedRight(fields: seq<Form>)
    requires Promised(fields) && Shaped(fields)
    ensures Has(fields, Seed) && (Right(Seed, Get(fields, Seed)) <==> T.NumberStatus(Get(fields, Seed).items[1].text) == Ok)
  {
    assert Has(fields, Seed);
    var seed := Get(fields, Seed);
    assert Shape(Seed, seed);
    hide Promised, Has, Get, Shaped;
    T.NumberIff(seed.items[1].text);
    hide T.Number, T.NumberStatus;
  }

  lemma {:induction false} BudgetsRight(fields: seq<Form>)
    requires Promised(fields) && Shaped(fields)
    ensures Has(fields, Budgets)
    ensures Right(Budgets, Get(fields, Budgets))
       <==> BudgetConfig.Outcome(BudgetConfig.ItemsOf(Get(fields, Budgets))).0 == Ok
  {
    assert Has(fields, Budgets);
    var budgets := Get(fields, Budgets);
    assert Shape(Budgets, budgets);
    assert BudgetConfig.ItemsOf(budgets) == budgets.items[1..];
    hide Promised, Has, Get, Shaped, BudgetConfig.ItemsOf;
    BudgetConfig.LoadsIff(budgets.items[1..]);
    hide BudgetConfig.Spelled, BudgetConfig.Outcome;
  }

  lemma {:induction false} CheckRight(fields: seq<Form>)
    requires Promised(fields) && Shaped(fields)
    ensures EmptyTextIn(fields, PostCheck) <==> Has(fields, PostCheck) && !Right(PostCheck, Get(fields, PostCheck))
  {
    if Has(fields, PostCheck) {
      assert Shape(PostCheck, Get(fields, PostCheck));
    }
    hide Promised, Has, Get;
  }

  lemma {:induction false} LoadsIfRight(fields: seq<Form>)
    requires Promised(fields) && Shaped(fields)
    ensures Has(fields, Seed) && Has(fields, Budgets)
    ensures LoadStatus(fields) == Ok <==>
      && Right(Seed, Get(fields, Seed)) && Right(Budgets, Get(fields, Budgets))
      && (Has(fields, PostCheck) ==> Right(PostCheck, Get(fields, PostCheck)))
  {
    SeedRight(fields);
    BudgetsRight(fields);
    CheckRight(fields);
    hide Promised, Shaped, Shape, Right, Has, Get, T.NumberStatus, EmptyTextIn, BudgetConfig.Outcome, BudgetConfig.ItemsOf;
  }

  /** Each field is right exactly when the loader finds nothing wrong. */
  lemma {:induction false} RightIffLoads(fields: seq<Form>)
    requires Promised(fields) && Shaped(fields)
    ensures LoadStatus(fields) == Ok <==> forall f: RunField | Has(fields, f) :: Right(f, Get(fields, f))
  {
    LoadsIfRight(fields);
    hide Promised, LoadStatus, Has, Get;
    forall f: RunField | Has(fields, f) && f != Seed && f != Budgets && f != PostCheck
      ensures Right(f, Get(fields, f))
    {
      assert Shape(f, Get(fields, f));
      OthersRight(f, Get(fields, f));
    }
    hide Right, Shape;
  }

  lemma OthersRight(f: RunField, field: Form)
    requires Shape(f, field) && f != Seed && f != Budgets && f != PostCheck
    ensures Right(f, field)
  {
  }

  lemma {:induction false} LoadableIff(form: Form)
    requires Headed(form, "run") && FormOk(RUN_FORM, form)
    ensures Shaped(FieldsOf(form)) && (forall f: RunField | Has(FieldsOf(form), f) :: Right(f, Get(FieldsOf(form), f)))
       <==> Loadable(form)
    ensures Shaped(FieldsOf(form))
  {
    var fields := FieldsOf(form);
    forall f: RunField
      ensures RuleKept(f.Rule(), fields)
    {
      RulesKept(form, f);
    }
    UniqueByRule(fields);
    forall f: RunField
      ensures Has(fields, f) ==> Get(fields, f) in fields && IsField(Get(fields, f), f) && Shape(f, Get(fields, f))
    {
      HasIs(fields, f);
      if Has(fields, f) {
        KeptIsShape(fields, f, Get(fields, f));
      }
    }
    forall f: RunField, field | field in fields && IsField(field, f)
      ensures Has(fields, f) && Get(fields, f) == field
    {
      OnlyOne(fields, f, field);
    }
    hide FormOk, RuleKept, NoneTwice, IsField, Has, Get, Shape, Right, RunField.Rule, Headed;
  }

  lemma {:induction false} KeptIsShape(fields: seq<Form>, f: RunField, field: Form)
    requires RuleKept(f.Rule(), fields) && field in fields && IsField(field, f)
    ensures Shape(f, field)
  {
    assert f.Rule().name == f.Name();
    RuleIsShape(f, field);
    hide Shape, RunField.Name, RunField.Rule;
  }

  lemma {:induction false} SpelledDepth(form: Form)
    requires RunSpelled(form)
    ensures DepthWithin(form, 4)
  {
    forall item | item in form.items
      ensures DepthWithin(item, 3)
    {
      var k :| 0 <= k < |form.items| && form.items[k] == item;
      if k > 0 {
        FieldDepth(item);
      }
    }
    hide RunSpelled, FieldSpelled;
  }

  lemma {:induction false} FieldDepth(field: Form)
    requires FieldSpelled(field)
    ensures DepthWithin(field, 3)
  {
    forall item | item in field.items
      ensures DepthWithin(item, 2)
    {
      var k :| 0 <= k < |field.items| && field.items[k] == item;
      if item.Group? {
        assert k >= 1 && BudgetList(field);
        assert item == field.items[1..][k - 1];
        BudgetDepth(field.items[1..], item);
      }
    }
  }

  lemma {:induction false} BudgetDepth(items: seq<Form>, item: Form)
    requires BudgetConfig.Spelled(items) && item in items
    ensures DepthWithin(item, 2)
  {
    assert BudgetConfig.SaysSome(item);
    var i: nat :| i < 7 && BudgetConfig.SaysNumber(item, i);
    forall x | x in item.items
      ensures DepthWithin(x, 1)
    {
      var k :| 0 <= k < |item.items| && item.items[k] == x;
    }
  }

  /** A run description loads exactly when it is one run form, spelled so. */
  lemma {:induction false} RunLoadsIff(forms: seq<Form>)
    ensures ConfigStatus(forms) == Ok <==> |forms| == 1 && RunSpelled(forms[0])
  {
    if forms != [] && Obeys(RUN_RULES, forms) {
      SchemaPromises(forms);
      LoadableIff(forms[0]);
      hide Obeys, Promised, LoadStatus, FormOk, Loadable, Shaped, RunSpelled;
      RightIffLoads(FieldsOf(forms[0]));
      if Loadable(forms[0]) {
        LoadableSpelled(forms[0]);
      }
      if RunSpelled(forms[0]) {
        SpelledLoadable(forms[0]);
      }
    } else if |forms| == 1 && RunSpelled(forms[0]) {
      SpelledObeys(forms[0]);
    }
  }

  /** Behind the schema a seed that is no number comes first, then the budgets, then a check without a command;
      nothing else can be wrong. */
  lemma {:induction false} FaultInWords(forms: seq<Form>, s: nat, b: nat)
    requires Obeys(RUN_RULES, forms) && forms != []
    requires forms[0].Group? && 1 <= s < |forms[0].items| && Headed(forms[0].items[s], "seed")
    requires 1 <= b < |forms[0].items| && Headed(forms[0].items[b], "budgets")
    ensures var form := forms[0];
            && |form.items[s].items| == 2 && form.items[s].items[1].Word?
            && var seed, budgets := form.items[s].items[1].text, form.items[b].items[1..];
               ConfigStatus(forms) == if !T.Number(seed) then T.NumberStatus(seed)
                                      else if !BudgetConfig.Spelled(budgets) then BudgetConfig.Outcome(budgets).0
                                      else if Checks(form, "") then Statuses.Schema
                                      else Ok
  {
    var form := forms[0];
    SchemaPromises(forms);
    LoadableIff(form);
    var fields := FieldsOf(form);
    FieldStandsFor(form, s, Seed);
    FieldStandsFor(form, b, Budgets);
    PostCheckSays(form);
    T.NumberIff(form.items[s].items[1].text);
    assert BudgetConfig.ItemsOf(form.items[b]) == form.items[b].items[1..];
    hide *;
    StatusOf(forms, form.items[s], form.items[b]);
    BudgetConfig.LoadsIff(form.items[b].items[1..]);
  }

  /** Some field is this check. */
  ghost predicate Checks(form: Form, command: string)
    requires form.Group?
  {
    exists k :: 1 <= k < |form.items| && form.items[k] == Group([Word("post_check"), Quoted(command)])
  }

  lemma {:induction false} FieldStandsFor(form: Form, k: nat, f: RunField)
    requires Headed(form, "run") && FormOk(RUN_FORM, form) && Promised(FieldsOf(form))
    requires 1 <= k < |form.items| && Headed(form.items[k], NAMES[Number(f)])
    ensures Has(FieldsOf(form), f) && Get(FieldsOf(form), f) == form.items[k] && ValueFits(f, form.items[k])
  {
    var fields := FieldsOf(form);
    forall g: RunField
      ensures RuleKept(g.Rule(), fields)
    {
      RulesKept(form, g);
    }
    UniqueByRule(fields);
    NameIs(f, form.items[k]);
    assert form.items[k] == fields[k - 1] && fields[k - 1] in fields;
    hide FormOk, RuleKept, NoneTwice, IsField, Headed;
    OnlyOne(fields, f, form.items[k]);
  }

  lemma {:induction false} PostCheckSays(form: Form)
    requires Headed(form, "run") && FormOk(RUN_FORM, form) && Promised(FieldsOf(form))
    ensures EmptyTextIn(FieldsOf(form), PostCheck) <==> Checks(form, "")
  {
    var fields := FieldsOf(form);
    if Checks(form, "") {
      var k :| 1 <= k < |form.items| && form.items[k] == Group([Word("post_check"), Quoted("")]);
      assert Headed(form.items[k], NAMES[Number(PostCheck)]);
      FieldStandsFor(form, k, PostCheck);
    }
    if EmptyTextIn(fields, PostCheck) {
      var k := FieldStands(form, PostCheck);
      assert form.items[k].items == [Word("post_check"), Quoted("")];
    }
  }

  lemma {:induction false} StatusOf(forms: seq<Form>, seed: Form, budgets: Form)
    requires forms != [] && Obeys(RUN_RULES, forms) && forms[0].Group? && forms[0].items != []
    requires Promised(FieldsOf(forms[0])) && Has(FieldsOf(forms[0]), Seed) && Has(FieldsOf(forms[0]), Budgets)
    requires seed == Get(FieldsOf(forms[0]), Seed) && budgets == Get(FieldsOf(forms[0]), Budgets)
    requires seed.Group? && |seed.items| == 2 && seed.items[1].Word? && budgets.Group?
    ensures var outcome := BudgetConfig.Outcome(BudgetConfig.ItemsOf(budgets)).0;
            ConfigStatus(forms) == if T.NumberStatus(seed.items[1].text) != Ok then T.NumberStatus(seed.items[1].text)
                                   else if outcome != Ok then outcome
                                   else if EmptyTextIn(FieldsOf(forms[0]), PostCheck) then Statuses.Schema
                                   else Ok
  {
    hide Obeys, Promised, Has, Get, FieldsOf, EmptyTextIn, T.NumberStatus, BudgetConfig.Outcome, BudgetConfig.ItemsOf;
  }

  lemma {:induction false} SpelledObeys(form: Form)
    requires RunSpelled(form)
    ensures Obeys(RUN_RULES, [form])
  {
    SpelledFormOk(form);
    SpelledDepth(form);
    hide FormOk, RunSpelled, DepthWithin;
    assert RuleFor([RUN_FORM], form) == Some(RUN_FORM);
  }

  // ---- What is loaded -----------------------------------------------------------------------------------

  /** The span is the text of the field of this name. */
  ghost predicate IsText(input: string, span: Span, form: Form, name: string) {
    && form.Group? && span.In(input)
    && exists k :: 1 <= k < |form.items| && form.items[k] == Group([Word(name), Quoted(span.Text(input))])
  }

  /** An option is there exactly when a field has its name, and then it is that field's text. */
  ghost predicate IsOption(input: string, option: Option<Span>, form: Form, name: string) {
    && form.Group?
    && if option.Some? then IsText(input, option.value, form, name)
       else forall k | 1 <= k < |form.items| :: !Headed(form.items[k], name)
  }

  ghost predicate IsSeed(seed: nat, form: Form) {
    && form.Group?
    && exists k :: 1 <= k < |form.items| && OneNumber(form.items[k]) && Headed(form.items[k], "seed")
                   && seed == T.Positional(form.items[k].items[1].text)
  }

  /** Budget i is the number that stands with its name, and no limit if the name is missing. */
  ghost predicate IsBudget(budget: nat, i: nat, items: seq<Form>)
    requires i < 7
  {
    && (forall item | item in items && BudgetConfig.SaysNumber(item, i) ::
          budget == T.Positional(item.items[1].text))
    && ((forall item | item in items :: !BudgetConfig.SaysNumber(item, i)) ==> budget == 18446744073709551615)
  }

  ghost predicate AreBudgets(budgets: seq<nat>, form: Form) {
    && form.Group? && |budgets| == 7
    && exists k :: 1 <= k < |form.items| && AreBudgetsOf(budgets, form.items[k])
  }

  ghost predicate AreBudgetsOf(budgets: seq<nat>, field: Form)
    requires |budgets| == 7
  {
    && BudgetList(field) && Headed(field, "budgets")
    && forall i: nat | i < 7 :: IsBudget(budgets[i], i, field.items[1..])
  }

  /** The configuration is what the form says, word for word. */
  ghost predicate SaysForm(config: Config, input: string, form: Form)
    reads config
  {
    && IsText(input, config.paths.model, form, "model") && IsText(input, config.paths.policy, form, "policy")
    && IsText(input, config.paths.scenario, form, "scenario") && IsText(input, config.paths.corpus, form, "corpus")
    && IsText(input, config.paths.journal, form, "journal")
    && IsSeed(config.seed, form) && AreBudgets(config.budgets, form)
    && IsOption(input, config.expected, form, "expect") && IsOption(input, config.goal, form, "goal")
    && IsOption(input, config.postCheck, form, "post_check")
  }

  lemma {:induction false} OptionsAre(input: string, expected: Option<Span>, goal: Option<Span>, check: Option<Span>,
                                      form: Form)
    requires form.Group? && form.items != [] && Promised(FieldsOf(form))
    requires OptionSays(input, FieldsOf(form), Expect, expected) && OptionSays(input, FieldsOf(form), Goal, goal)
    requires OptionSays(input, FieldsOf(form), PostCheck, check)
    ensures IsOption(input, expected, form, "expect") && IsOption(input, goal, form, "goal")
    ensures IsOption(input, check, form, "post_check")
  {
    hide Promised, FieldsOf, OptionSays, IsOption;
    OptionIs(input, expected, form, Expect);
    OptionIs(input, goal, form, Goal);
    OptionIs(input, check, form, PostCheck);
  }

  lemma {:induction false} SpanIsText(input: string, span: Span, form: Form, f: RunField)
    requires form.Group? && form.items != [] && Promised(FieldsOf(form)) && SpanSays(input, span, FieldsOf(form), f)
    requires f.Textual()
    ensures IsText(input, span, form, NAMES[Number(f)])
  {
    var fields := FieldsOf(form);
    HasIs(fields, f);
    var field := Get(fields, f);
    NameIs(f, field);
    assert Has(fields, f) && ValueFits(f, field);
    hide Promised, Has, Get, RunField.Name, IsField;
    var k :| 0 <= k < |fields| && fields[k] == field;
    assert field.items == [Word(NAMES[Number(f)]), Quoted(span.Text(input))];
    assert form.items[k + 1] == field;
  }

  lemma {:induction false} OptionIs(input: string, option: Option<Span>, form: Form, f: RunField)
    requires form.Group? && form.items != [] && Promised(FieldsOf(form)) && OptionSays(input, FieldsOf(form), f, option)
    requires f.Textual()
    ensures IsOption(input, option, form, NAMES[Number(f)])
  {
    var fields := FieldsOf(form);
    if option.Some? {
      SpanIsText(input, option.value, form, f);
    } else {
      HasIs(fields, f);
      forall k | 1 <= k < |form.items|
        ensures !Headed(form.items[k], NAMES[Number(f)])
      {
        assert form.items[k] == fields[k - 1] && fields[k - 1] in fields;
        NameIs(f, form.items[k]);
      }
    }
  }

  lemma {:induction false} FieldStands(form: Form, f: RunField) returns (k: nat)
    requires form.Group? && form.items != [] && Promised(FieldsOf(form)) && Has(FieldsOf(form), f)
    ensures 1 <= k < |form.items| && form.items[k] == Get(FieldsOf(form), f) && ValueFits(f, form.items[k])
    ensures Headed(form.items[k], NAMES[Number(f)])
  {
    var fields := FieldsOf(form);
    HasIs(fields, f);
    var field := Get(fields, f);
    NameIs(f, field);
    assert ValueFits(f, field);
    hide Promised, Has, Get, RunField.Name, IsField, ValueFits;
    k :| 0 <= k < |fields| && fields[k] == field;
    k := k + 1;
  }

  lemma {:induction false} SeedSaid(fields: seq<Form>, seed: nat, budgets: seq<nat>)
    requires Promised(fields) && NumbersStatus(fields) == Ok && NumbersSay(fields, seed, budgets)
    ensures Has(fields, Seed) && ValueFits(Seed, Get(fields, Seed))
    ensures T.Number(Get(fields, Seed).items[1].text) && seed == T.Positional(Get(fields, Seed).items[1].text)
  {
    hide T.NumberStatus, T.Value, T.Positional, BudgetConfig.Outcome, BudgetConfig.Means, Get;
    assert Has(fields, Seed) && ValueFits(Seed, Get(fields, Seed));
    var text := Get(fields, Seed).items[1].text;
    assert T.NumberStatus(text) == Ok && T.AllDigits(text) && seed == T.Value(text);
    hide *;
    T.NumberIff(text);
  }

  lemma SeedAt(form: Form, k: nat, seed: nat)
    requires form.Group? && 1 <= k < |form.items| && ValueFits(Seed, form.items[k]) && Headed(form.items[k], "seed")
    requires T.Number(form.items[k].items[1].text) && seed == T.Positional(form.items[k].items[1].text)
    ensures IsSeed(seed, form)
  {
    hide T.Positional, Headed;
    assert OneNumber(form.items[k]);
  }

  lemma {:induction false} SeedIs(form: Form, seed: nat, budgets: seq<nat>)
    requires form.Group? && form.items != [] && Promised(FieldsOf(form)) && NumbersStatus(FieldsOf(form)) == Ok
    requires NumbersSay(FieldsOf(form), seed, budgets)
    ensures IsSeed(seed, form)
  {
    SeedSaid(FieldsOf(form), seed, budgets);
    var k := FieldStands(form, Seed);
    assert NAMES[Number(Seed)] == "seed";
    hide *;
    SeedAt(form, k, seed);
  }

  lemma {:induction false} BudgetsAre(form: Form, seed: nat, budgets: seq<nat>)
    requires form.Group? && form.items != [] && Promised(FieldsOf(form)) && NumbersStatus(FieldsOf(form)) == Ok
    requires NumbersSay(FieldsOf(form), seed, budgets)
    ensures AreBudgets(budgets, form)
  {
    assert Has(FieldsOf(form), Budgets);
    var k := FieldStands(form, Budgets);
    var field := form.items[k];
    BudgetsSaid(FieldsOf(form), seed, budgets);
    hide *;
    FieldBudgets(field, budgets);
    AreBudgetsAt(budgets, form, k);
  }

  lemma {:induction false} BudgetsSaid(fields: seq<Form>, seed: nat, budgets: seq<nat>)
    requires Promised(fields) && NumbersStatus(fields) == Ok && NumbersSay(fields, seed, budgets)
    ensures Has(fields, Budgets)
    ensures BudgetConfig.Outcome(BudgetConfig.ItemsOf(Get(fields, Budgets))).0 == Ok
    ensures BudgetConfig.Means(BudgetConfig.ItemsOf(Get(fields, Budgets)), budgets)
  {
    assert Has(fields, Budgets) && Has(fields, Seed);
    hide Promised, Has, Get, T.NumberStatus, BudgetConfig.Outcome, BudgetConfig.Means;
  }

  lemma AreBudgetsAt(budgets: seq<nat>, form: Form, k: nat)
    requires form.Group? && 1 <= k < |form.items| && |budgets| == 7 && AreBudgetsOf(budgets, form.items[k])
    ensures AreBudgets(budgets, form)
  {
    hide AreBudgetsOf;
  }

  lemma {:induction false} FieldBudgets(field: Form, budgets: seq<nat>)
    requires ValueFits(Budgets, field) && Headed(field, "budgets")
    requires BudgetConfig.Outcome(BudgetConfig.ItemsOf(field)).0 == Ok
    requires BudgetConfig.Means(BudgetConfig.ItemsOf(field), budgets)
    ensures |budgets| == 7 && AreBudgetsOf(budgets, field)
  {
    var items := BudgetConfig.ItemsOf(field);
    hide Headed, BudgetConfig.Outcome, BudgetConfig.Means, BudgetConfig.Spelled, IsBudget;
    BudgetConfig.LoadsIff(items);
    MeansBudgets(items, budgets);
    ItemsAreLists(field);
  }

  lemma {:induction false} ItemsAreLists(field: Form)
    requires ValueFits(Budgets, field) && BudgetConfig.Spelled(BudgetConfig.ItemsOf(field))
    ensures BudgetList(field) && BudgetConfig.ItemsOf(field) == field.items[1..]
  {
    var items := BudgetConfig.ItemsOf(field);
    forall k | 1 <= k < |field.items|
      ensures field.items[k].Group?
    {
      assert field.items[k] == items[k - 1] && items[k - 1] in items;
      assert BudgetConfig.SaysSome(items[k - 1]);
      hide BudgetConfig.Spelled;
    }
  }

  lemma {:induction false} MeansBudgets(items: seq<Form>, budgets: seq<nat>)
    requires BudgetConfig.Outcome(items).0 == Ok && BudgetConfig.Means(items, budgets)
    ensures |budgets| == 7 && forall i: nat | i < 7 :: IsBudget(budgets[i], i, items)
  {
    BudgetConfig.OutcomeMeans(items);
    BudgetConfig.MeansOnce(items, budgets, BudgetConfig.Outcome(items).1);
    hide BudgetConfig.Means, BudgetConfig.Outcome, BudgetConfig.SaysNumber;
    forall i: nat | i < 7
      ensures |budgets| == 7 && IsBudget(budgets[i], i, items)
    {
      BudgetConfig.LoadedNumbers(items, i);
    }
  }

  /** A configuration that was loaded says what the run form says. */
  lemma {:induction false} LoadedSaysForm(config: Config, input: string, forms: seq<Form>)
    requires ConfigStatus(forms) == Ok && config.Describes(input, forms)
    ensures SaysForm(config, input, forms[0])
  {
    var form := forms[0];
    LoadsSoNumbers(forms);
    hide ConfigStatus, Promised, FieldsOf, NumbersStatus, NumbersSay, OptionSays, PathsSay;
    hide IsText, IsSeed, AreBudgets, IsOption;
    PathsAre(input, config.paths, form);
    SeedIs(form, config.seed, config.budgets);
    BudgetsAre(form, config.seed, config.budgets);
    OptionsAre(input, config.expected, config.goal, config.postCheck, form);
  }

  lemma {:induction false} PathsAre(input: string, paths: Paths, form: Form)
    requires form.Group? && form.items != [] && Promised(FieldsOf(form)) && PathsSay(input, FieldsOf(form), paths)
    ensures IsText(input, paths.model, form, "model") && IsText(input, paths.policy, form, "policy")
    ensures IsText(input, paths.scenario, form, "scenario") && IsText(input, paths.corpus, form, "corpus")
    ensures IsText(input, paths.journal, form, "journal")
  {
    hide Promised, FieldsOf, SpanSays, IsText;
    SpanIsText(input, paths.model, form, Model);
    SpanIsText(input, paths.policy, form, Policy);
    SpanIsText(input, paths.scenario, form, Scenario);
    SpanIsText(input, paths.corpus, form, Corpus);
    SpanIsText(input, paths.journal, form, Journal);
  }

  lemma LoadsSoNumbers(forms: seq<Form>)
    requires ConfigStatus(forms) == Ok
    ensures forms != [] && forms[0].Group? && forms[0].items != []
    ensures Promised(FieldsOf(forms[0])) && NumbersStatus(FieldsOf(forms[0])) == Ok
  {
    hide Obeys, Promised, NumbersStatus, FormOk;
    SchemaPromises(forms);
  }
}
