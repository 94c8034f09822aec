/** Schemas in their own words: what a form must look like, counted from its own elements. */
module SchemaForms {
  import opened Statuses
  import opened SexprRead
  import opened Schema

  // ---- Depth ------------------------------------------------------------------------------------------

  /** Going down along these positions stays inside the form. */
  predicate Path(f: Form, p: seq<nat>)
    decreases |p|
  {
    p == [] || (f.Group? && p[0] < |f.items| && Path(f.items[p[0]], p[1..]))
  }

  /** Nested at most d deep: no way down has d steps. */
  lemma {:induction false} DepthIsPaths(f: Form, d: nat)
    ensures DepthWithin(f, d) <==> forall p | Path(f, p) :: |p| < d
    decreases d
  {
    if d == 0 {
      assert Path(f, []);
    } else if f.Group? {
      forall item | item in f.items
        ensures DepthWithin(item, d - 1) <==> forall p | Path(item, p) :: |p| < d - 1
      {
        DepthIsPaths(item, d - 1);
      }
      if DepthWithin(f, d) {
        forall p | Path(f, p)
          ensures |p| < d
        {
          if p != [] {
            assert f.items[p[0]] in f.items && Path(f.items[p[0]], p[1..]);
          }
        }
      }
      if forall p | Path(f, p) :: |p| < d {
        forall item | item in f.items
          ensures DepthWithin(item, d - 1)
        {
          var i :| 0 <= i < |f.items| && f.items[i] == item;
          forall p | Path(item, p)
            ensures |p| < d - 1
          {
            StepDown(f, i, p);
          }
        }
      }
    } else {
      forall p | Path(f, p)
        ensures |p| < d
      {
      }
    }
  }

  lemma StepDown(f: Form, i: nat, p: seq<nat>)
    requires f.Group? && i < |f.items| && Path(f.items[i], p)
    ensures Path(f, [i] + p) && |[i] + p| == |p| + 1
  {
    assert ([i] + p)[1..] == p;
  }

  // ---- Fields and forms -----------------------------------------------------------------------------

  predicate OfKind(kind: ValueKind, value: Form) {
    && (kind == SymbolValue ==> value.Word?) && (kind == StringValue ==> value.Quoted?)
    && (kind == ListValue ==> value.Group?)
  }

  /** As many values as the rule allows, each of its kind. */
  predicate ValuesFit(rule: FieldRule, field: Form)
    requires field.Group?
  {
    && rule.minValues + 1 <= |field.items| <= rule.maxValues + 1
    && forall v | 1 <= v < |field.items| :: OfKind(rule.kind, field.items[v])
  }

  /** The fields of this name: their values fit, not two of them if there may be one only, and one at least
      if there must be. */
  ghost predicate FieldsFit(rule: FieldRule, form: Form)
    requires form.Group?
  {
    && (forall j | 1 <= j < |form.items| && Headed(form.items[j], rule.name) :: ValuesFit(rule, form.items[j]))
    && (rule.unique ==> forall j, k | 1 <= j < k < |form.items| ::
          !(Headed(form.items[j], rule.name) && Headed(form.items[k], rule.name)))
    && (rule.required ==> exists j :: 1 <= j < |form.items| && Headed(form.items[j], rule.name))
  }

  ghost predicate NamedByRule(rules: seq<FieldRule>, field: Form) {
    exists i :: 0 <= i < |rules| && Headed(field, rules[i].name)
  }

  /** So many fields, each rule kept, and no other field unless these are allowed. */
  ghost predicate FormFits(rule: FormRule, form: Form) {
    && form.Group? && rule.minFields + 1 <= |form.items| <= rule.maxFields + 1
    && (forall i | 0 <= i < |rule.fields| :: FieldsFit(rule.fields[i], form))
    && (rule.fields != [] || !rule.allowUnknown ==> forall j | 1 <= j < |form.items| :: form.items[j].Group?)
    && (!rule.allowUnknown ==> forall j | 1 <= j < |form.items| :: NamedByRule(rule.fields, form.items[j]))
  }

  /** Rule r is the first of the form's name. */
  predicate FirstOfName(rules: seq<FormRule>, form: Form, r: nat) {
    r < |rules| && Headed(form, rules[r].name) && forall q | 0 <= q < r :: !Headed(form, rules[q].name)
  }

  predicate Unnamed(rules: seq<FormRule>, form: Form) {
    forall q | 0 <= q < |rules| :: !Headed(form, rules[q].name)
  }

  /** Every form is a list that fits the first rule of its name, or has no rule where that is allowed; there
      are not too many, and none is nested too deeply; 0 is no limit. */
  ghost predicate Fits(rules: Rules, forms: seq<Form>) {
    && (rules.maxTopLevel == 0 || |forms| <= rules.maxTopLevel)
    && (rules.maxDepth == 0 || forall k, p | 0 <= k < |forms| && Path(forms[k], p) :: |p| < rules.maxDepth)
    && forall k | 0 <= k < |forms| :: TopFits(rules, forms[k])
  }

  ghost predicate TopFits(rules: Rules, form: Form) {
    && form.Group?
    && ((exists r: nat :: FirstOfName(rules.forms, form, r) && FormFits(rules.forms[r], form))
        || (rules.allowUnknown && Unnamed(rules.forms, form)))
  }

  lemma {:induction false} ValuesOkIs(rule: FieldRule, field: Form)
    requires field.Group? && field.items != []
    ensures ValuesOk(rule, field) <==> ValuesFit(rule, field)
  {
    forall v | 1 <= v < |field.items|
      ensures KindMatches(rule.kind, field.items[v]) <==> OfKind(rule.kind, field.items[v])
    {
    }
    hide KindMatches, OfKind;
  }

  lemma {:induction false} RuleKeptIs(rule: FieldRule, form: Form)
    requires form.Group? && form.items != []
    ensures RuleKept(rule, form.items[1..]) <==> FieldsFit(rule, form)
  {
    var fields := form.items[1..];
    forall j | 1 <= j < |form.items|
      ensures fields[j - 1] == form.items[j] && form.items[j] in fields
      ensures Headed(form.items[j], rule.name) ==> (ValuesOk(rule, form.items[j]) <==> ValuesFit(rule, form.items[j]))
    {
      if Headed(form.items[j], rule.name) {
        ValuesOkIs(rule, form.items[j]);
      }
    }
    forall f | f in fields
      ensures exists j :: 1 <= j < |form.items| && form.items[j] == f
    {
      var i :| 0 <= i < |fields| && fields[i] == f;
      assert form.items[i + 1] == f;
    }
    hide Headed, ValuesOk, ValuesFit;
    if FieldsFit(rule, form) {
      forall i, j | 0 <= i < j < |fields|
        ensures rule.unique ==> !(Headed(fields[i], rule.name) && Headed(fields[j], rule.name))
      {
        assert fields[i] == form.items[i + 1] && fields[j] == form.items[j + 1];
      }
    }
    if RuleKept(rule, fields) {
      forall j, k | 1 <= j < k < |form.items|
        ensures rule.unique ==> !(Headed(form.items[j], rule.name) && Headed(form.items[k], rule.name))
      {
        assert fields[j - 1] == form.items[j] && fields[k - 1] == form.items[k];
      }
    }
  }

  lemma {:induction false} KnownIs(rules: seq<FieldRule>, field: Form)
    ensures Known(rules, field) <==> NamedByRule(rules, field)
  {
    if Known(rules, field) {
      var r :| r in rules && Headed(field, r.name);
      var i :| 0 <= i < |rules| && rules[i] == r;
      assert Headed(field, rules[i].name);
    }
    if NamedByRule(rules, field) {
      var i :| 0 <= i < |rules| && Headed(field, rules[i].name);
      assert rules[i] in rules;
    }
  }

  lemma {:induction false} FormOkIs(rule: FormRule, form: Form)
    ensures FormOk(rule, form) <==> FormFits(rule, form)
  {
    if form.Group? && form.items != [] {
      var fields := form.items[1..];
      forall i | 0 <= i < |rule.fields|
        ensures RuleKept(rule.fields[i], fields) <==> FieldsFit(rule.fields[i], form)
      {
        RuleKeptIs(rule.fields[i], form);
      }
      forall j | 1 <= j < |form.items|
        ensures fields[j - 1] == form.items[j] && form.items[j] in fields
        ensures Known(rule.fields, form.items[j]) <==> NamedByRule(rule.fields, form.items[j])
      {
        KnownIs(rule.fields, form.items[j]);
      }
      forall f | f in fields
        ensures exists j :: 1 <= j < |form.items| && form.items[j] == f
      {
        var i :| 0 <= i < |fields| && fields[i] == f;
        assert form.items[i + 1] == f;
      }
      forall r | r in rule.fields
        ensures exists i :: 0 <= i < |rule.fields| && rule.fields[i] == r
      {
      }
      hide RuleKept, FieldsFit, Known, NamedByRule;
    }
  }

  lemma {:induction false} RuleForIs(rules: seq<FormRule>, form: Form, r: nat)
    requires FirstOfName(rules, form, r)
    ensures RuleFor(rules, form) == Some(rules[r])
  {
    if r > 0 {
      forall q | 0 <= q < r - 1
        ensures !Headed(form, rules[1..][q].name)
      {
        assert rules[1..][q] == rules[q + 1];
      }
      RuleForIs(rules[1..], form, r - 1);
    }
  }

  lemma {:induction false} NoRuleFor(rules: seq<FormRule>, form: Form)
    ensures Unnamed(rules, form) <==> RuleFor(rules, form) == None
  {
    if rules != [] {
      NoRuleFor(rules[1..], form);
      assert forall q | 0 <= q < |rules| - 1 :: rules[1..][q] == rules[q + 1];
      if Unnamed(rules[1..], form) && !Headed(form, rules[0].name) {
        forall q | 0 <= q < |rules|
          ensures !Headed(form, rules[q].name)
        {
          assert q > 0 ==> rules[1..][q - 1] == rules[q];
        }
      }
    }
  }

  lemma {:induction false} FirstRule(rules: seq<FormRule>, form: Form) returns (r: nat)
    requires !Unnamed(rules, form)
    ensures FirstOfName(rules, form, r)
  {
    r := 0;
    while !Headed(form, rules[r].name)
      invariant r < |rules| && forall q | 0 <= q < r :: !Headed(form, rules[q].name)
      decreases |rules| - r
    {
      r := r + 1;
    }
  }

  lemma {:induction false} TopFormIs(rules: Rules, form: Form)
    ensures TopFormOk(rules, form) <==> TopFits(rules, form)
  {
    NoRuleFor(rules.forms, form);
    hide FormOk, FormFits, RuleFor;
    if Unnamed(rules.forms, form) {
      forall r: nat
        ensures !FirstOfName(rules.forms, form, r)
      {
      }
    } else {
      var r := FirstRule(rules.forms, form);
      RuleForIs(rules.forms, form, r);
      FormOkIs(rules.forms[r], form);
      forall q: nat | FirstOfName(rules.forms, form, q)
        ensures q == r
      {
      }
      assert Headed(form, rules.forms[r].name) && !Unnamed(rules.forms, form);
    }
  }

  /** Schema validation accepts exactly these. */
  lemma {:induction false} ObeysIs(rules: Rules, forms: seq<Form>)
    ensures Obeys(rules, forms) <==> Fits(rules, forms)
  {
    forall k | 0 <= k < |forms|
      ensures TopFormOk(rules, forms[k]) <==> TopFits(rules, forms[k])
      ensures DepthWithin(forms[k], rules.maxDepth) <==> forall p | Path(forms[k], p) :: |p| < rules.maxDepth
    {
      TopFormIs(rules, forms[k]);
      DepthIsPaths(forms[k], rules.maxDepth);
    }
    hide TopFormOk, TopFits, DepthWithin, Path;
    forall f | f in forms
      ensures exists k :: 0 <= k < |forms| && forms[k] == f
    {
    }
    forall k | 0 <= k < |forms|
      ensures forms[k] in forms
    {
    }
  }
}
