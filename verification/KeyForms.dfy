/** Shape keys in their own words: what a key is made of, character by character. */
module KeyForms {
  import opened Statuses
  import opened SexprRead
  import opened Eval
  import opened Keys
  import W = ReplyForms
  import R = Recommendation

  // ---- The order of tokens --------------------------------------------------------------------------

  /** The first difference decides; a text stands before its continuations. */
  predicate DiffersAt(a: string, b: string, k: nat) {
    && k <= |a| && k < |b| && a[..k] == b[..k]
    && (k == |a| || a[k] < b[k])
  }

  ghost predicate Before(a: string, b: string) {
    exists k: nat :: DiffersAt(a, b, k)
  }

  lemma {:induction false} LessIsBefore(a: string, b: string)
    ensures Less(a, b) <==> Before(a, b)
  {
    if a == [] && b != [] {
      assert DiffersAt(a, b, 0);
    } else if a != [] && b != [] && a[0] != b[0] {
      if a[0] < b[0] {
        assert DiffersAt(a, b, 0);
      }
      forall k: nat | 0 < k <= |a| && k <= |b|
        ensures !DiffersAt(a, b, k)
      {
        assert a[..k][0] == a[0] && b[..k][0] == b[0];
      }
    } else if a != [] && b != [] {
      LessIsBefore(a[1..], b[1..]);
      forall k: nat
        ensures DiffersAt(a, b, k + 1) <==> DiffersAt(a[1..], b[1..], k)
        ensures !DiffersAt(a, b, 0)
      {
        DiffersFurther(a, b, k);
      }
      if Before(a, b) {
        var k: nat :| DiffersAt(a, b, k);
        assert DiffersAt(a[1..], b[1..], k - 1);
      }
      if Before(a[1..], b[1..]) {
        var k: nat :| DiffersAt(a[1..], b[1..], k);
        assert DiffersAt(a, b, k + 1);
      }
    }
  }

  lemma {:induction false} DiffersFurther(a: string, b: string, k: nat)
    requires a != [] && b != [] && a[0] == b[0]
    ensures DiffersAt(a, b, k + 1) <==> DiffersAt(a[1..], b[1..], k)
    ensures !DiffersAt(a, b, 0)
  {
    if k < |a| && k < |b| {
      assert a[..k + 1] == [a[0]] + a[1..][..k] && b[..k + 1] == [b[0]] + b[1..][..k];
      assert a[1..][..k] == a[..k + 1][1..] && b[1..][..k] == b[..k + 1][1..];
    }
  }

  ghost predicate Ascending(tokens: seq<string>) {
    forall i, j | 0 <= i < j < |tokens| :: Before(tokens[i], tokens[j])
  }

  // ---- Which tokens a key has ---------------------------------------------------------------------------

  /** The first occurrences stay first, whatever follows. */
  lemma {:induction false} FirstsGrow<T>(a: seq<T>, b: seq<T>)
    ensures Firsts(a) <= Firsts(a + b)
    decreases |b|
  {
    if b == [] {
      assert a + b == a;
    } else {
      var n := |b| - 1;
      assert (a + b)[..|a + b| - 1] == a + b[..n];
      FirstsGrow(a, b[..n]);
    }
  }

  /** The tokens of a set key: ascending, and of the first sixteen different tokens; all of them while
      there are no more. */
  lemma {:induction false} SetTokensAre(tokens: seq<string>)
    ensures Ascending(Shape(tokens)) && |Shape(tokens)| <= 16
    ensures var n := if |Firsts(tokens)| <= 16 then |Firsts(tokens)| else 16;
            forall t :: t in Shape(tokens) <==> t in Firsts(tokens)[..n]
    ensures |Firsts(tokens)| <= 16 ==> forall t :: t in Shape(tokens) <==> t in tokens
  {
    ShapeMeans(tokens);
    ShapeIsLeading(tokens);
    FirstsElements(tokens);
    forall i, j | 0 <= i < j < |Shape(tokens)|
      ensures Before(Shape(tokens)[i], Shape(tokens)[j])
    {
      LessIsBefore(Shape(tokens)[i], Shape(tokens)[j]);
    }
    hide Shape, Firsts, Less;
    forall t
      ensures t in Shape(tokens) <==> t in Leading(tokens)
      ensures t in Firsts(tokens) <==> t in tokens
    {
      InElements(Shape(tokens), t);
      InElements(Leading(tokens), t);
      InElements(Firsts(tokens), t);
      InElements(tokens, t);
    }
    if |Firsts(tokens)| <= 16 {
      assert Leading(tokens) == Firsts(tokens);
    }
  }

  /** Runs of two lists: the run at the seam counts once. */
  lemma {:induction false} RunsJoin<T>(a: seq<T>, b: seq<T>)
    requires a != [] && b != []
    ensures Runs(b) != [] && Runs(b)[0] == b[0]
    ensures Runs(a + b) == Runs(a) + if a[|a| - 1] == b[0] then Runs(b)[1..] else Runs(b)
    decreases |b|
  {
    var n := |b| - 1;
    assert (a + b)[..|a + b| - 1] == a + b[..n];
    if n == 0 {
      assert a + b[..0] == a && b[..0] == [];
      assert Runs(b) == [b[0]];
    } else {
      RunsJoin(a, b[..n]);
      assert (a + b[..n])[|a + b[..n]| - 1] == b[n - 1];
    }
  }

  /** The tokens of a sequence key: the first sixteen runs. */
  lemma {:induction false} SequenceTokensAre(tokens: seq<string>)
    ensures Collapse(tokens) == Runs(tokens)[..if |Runs(tokens)| <= 16 then |Runs(tokens)| else 16]
    ensures |tokens| == 1 ==> Collapse(tokens) == tokens
  {
    CollapseIsFirstRuns(tokens);
    if |tokens| == 1 {
      assert tokens[..0] == [] && Runs(tokens) == [tokens[0]];
    }
  }

  // ---- The characters of a key ------------------------------------------------------------------------------

  /** Where token i begins. */
  function Start(tokens: seq<string>, i: nat): nat
    requires i <= |tokens|
  {
    if i == 0 then 0 else Start(tokens, i - 1) + |tokens[i - 1]| + 1
  }

  lemma {:induction false} StartFront(front: seq<string>, tokens: seq<string>, i: nat)
    requires i <= |front| && front <= tokens
    ensures Start(front, i) == Start(tokens, i)
  {
    if i > 0 {
      StartFront(front, tokens, i - 1);
    }
  }

  /** Token i stands in the key, and the joiner in front of it unless it is the first. */
  predicate Stands(key: string, tokens: seq<string>, joiner: char, i: nat)
    requires i < |tokens|
  {
    var at := Start(tokens, i);
    && at + |tokens[i]| <= |key| && key[at..at + |tokens[i]|] == tokens[i]
    && (i > 0 ==> at > 0 && key[at - 1] == joiner)
  }

  /** A key is its tokens one after the other with a joiner between two, and nothing else. */
  lemma {:induction false} KeyIs(tokens: seq<string>, joiner: char)
    ensures |Join(tokens, joiner)| == if tokens == [] then 0 else Start(tokens, |tokens|) - 1
    ensures forall i: nat | i < |tokens| :: Stands(Join(tokens, joiner), tokens, joiner, i)
  {
    if tokens != [] {
      var n := |tokens| - 1;
      var front, key := tokens[..n], Join(tokens, joiner);
      KeyIs(front, joiner);
      StartFront(front, tokens, n);
      hide Join;
      assert Stands(key, tokens, joiner, n) by {
        LastStands(tokens, joiner);
      }
      forall i: nat | i < n
        ensures Stands(key, tokens, joiner, i)
      {
        StartFront(front, tokens, i);
        JoinPrefix(tokens, joiner);
        StandsOn(Join(front, joiner), key, front, tokens, joiner, i);
      }
    }
  }

  lemma {:induction false} JoinPrefix(tokens: seq<string>, joiner: char)
    requires |tokens| > 1
    ensures Join(tokens[..|tokens| - 1], joiner) <= Join(tokens, joiner)
  {
  }

  lemma {:induction false} LastStands(tokens: seq<string>, joiner: char)
    requires tokens != []
    requires var front := tokens[..|tokens| - 1];
             |Join(front, joiner)| == if front == [] then 0 else Start(front, |front|) - 1
    ensures |Join(tokens, joiner)| == Start(tokens, |tokens|) - 1
    ensures Stands(Join(tokens, joiner), tokens, joiner, |tokens| - 1)
  {
    var n := |tokens| - 1;
    var front := tokens[..n];
    StartFront(front, tokens, n);
    if n > 0 {
      var before := Join(front, joiner);
      assert Join(tokens, joiner) == before + [joiner] + tokens[n];
      hide Join;
    }
  }

  lemma {:induction false} StandsOn(short: string, long: string, front: seq<string>, tokens: seq<string>, joiner: char, i: nat)
    requires i < |front| && front <= tokens && short <= long && Stands(short, front, joiner, i)
    requires Start(front, i) == Start(tokens, i)
    ensures Stands(long, tokens, joiner, i)
  {
    var at := Start(tokens, i);
    assert long[at..at + |tokens[i]|] == short[at..at + |tokens[i]|];
  }

  // ---- What a reply adds -------------------------------------------------------------------------------

  /** The first 48 characters. */
  function Cell(text: string): string {
    if |text| <= 48 then text else text[..48]
  }

  lemma TruncateIsCell(text: string)
    ensures Truncate(text) == Cell(text)
  {
    assert |text| <= 48 ==> text[..|text|] == text;
  }

  lemma LabelIs(kind: R.Kind, capability: string)
    ensures Label(kind, capability)
         == if capability == "" then R.KindName(kind) else Cell(R.KindName(kind) + ":" + capability)
  {
    TruncateIsCell(R.KindName(kind) + ":" + capability);
    hide R.KindName;
  }

  lemma {:induction false} ValidFormsAdd(forms: seq<Form>, kind: string, capability: string)
    requires forms != [] && W.ReplySpelled(forms[0], kind)
    requires kind != "finish" ==> W.Gives(forms[0], "capability", Quoted(capability))
    ensures FormsToken(forms) == if kind == "finish" then None
                                 else Some(if capability == "" then kind else Cell(kind + ":" + capability))
  {
    var table := TableOf(forms, kind);
    if kind != "finish" {
      CapabilityIs(forms[0], table, capability);
    }
    W.KindsAre(R.KindIn(table));
    LabelIs(R.KindIn(table), capability);
    hide *;
    FormsTokenIs(forms, table);
  }

  lemma FormsTokenIs(forms: seq<Form>, table: R.Table)
    requires R.Fault(forms) == None && forms != [] && forms[0].Group? && forms[0].items != []
    requires table == R.Collect(forms[0].items[1..]).table
    ensures FormsToken(forms) == if R.KindIn(table) == R.Finish then None
                                 else Some(Label(R.KindIn(table), CapabilityIn(table)))
  {
    hide R.Fault, R.Collect, R.KindIn, CapabilityIn, Label;
  }

  lemma {:induction false} TableOf(forms: seq<Form>, kind: string) returns (table: R.Table)
    requires forms != [] && W.ReplySpelled(forms[0], kind)
    ensures W.FieldsSpelled(forms[0]) && W.IsTable(forms[0], table) && forms[0].Group? && forms[0].items != []
    ensures R.Fault(forms) == None && table == R.Collect(forms[0].items[1..]).table && R.KindName(R.KindIn(table)) == kind
  {
    W.ValidIff(forms);
    R.ValidMeans(forms);
    hide R.Fault, R.Collect, W.Filled, W.Allowed, R.Says, R.KindIn, R.KindName;
    table := R.Collect(forms[0].items[1..]).table;
    W.SaysTable(forms, table);
    W.KindOfGiven(forms[0], table, kind);
  }

  /** A valid reply adds its kind, with a colon and the capability if that is not empty, as far as 48
      characters reach; a finish adds nothing. */
  lemma {:induction false} ValidReplyAdds(reply: string, kind: string, capability: string)
    requires TextStatus(reply, 256, 256) == Ok && Spelled(reply, kind)
    requires kind != "finish" ==>
      W.Gives(FormsOf(reply, ForestOf(reply, 256, 256))[0], "capability", Quoted(capability))
    ensures ReplyToken(reply) == if kind == "finish" then None
                                 else Some(if capability == "" then kind else Cell(kind + ":" + capability))
  {
    var forms := FormsOf(reply, ForestOf(reply, 256, 256));
    ValidFormsAdd(forms, kind, capability);
    hide FormsToken, Cell, W.ReplySpelled, W.Gives;
  }

  lemma {:induction false} CapabilityIs(form: Form, table: R.Table, capability: string)
    requires W.FieldsSpelled(form) && W.IsTable(form, table) && W.Gives(form, "capability", Quoted(capability))
    ensures CapabilityIn(table) == capability
  {
    hide W.FieldsSpelled, W.IsTable, W.Gives;
    W.GivenIs(form, table, R.Capability, Quoted(capability));
  }

  /** What a text adds that is no valid reply: nothing if it does not fit 256 tokens, and else as if it were a
      shell command without a capability. */
  lemma {:induction false} OtherReplyAdds(reply: string)
    ensures TextStatus(reply, 256, 256) == Limit ==> ReplyToken(reply) == None
    ensures TextStatus(reply, 256, 256) != Limit && (forall kind :: !Spelled(reply, kind)) ==>
      ReplyToken(reply) == Some("local_shell")
  {
    if TextStatus(reply, 256, 256) == Ok && forall kind :: !Spelled(reply, kind) {
      var forms := FormsOf(reply, ForestOf(reply, 256, 256));
      hide W.ReplySpelled, R.Fault, TextStatus;
      W.ValidIff(forms);
      forall kind
        ensures forms != [] ==> !W.ReplySpelled(forms[0], kind)
      {
        assert !Spelled(reply, kind);
      }
    }
  }

  /** The reply parses and begins with a recommendation of this kind. */
  ghost predicate Spelled(reply: string, kind: string) {
    && TextStatus(reply, 256, 256) == Ok
    && var forms := FormsOf(reply, ForestOf(reply, 256, 256));
       forms != [] && W.ReplySpelled(forms[0], kind)
  }

  // ---- What a capability adds ---------------------------------------------------------------------------

  /** Each capability of a policy stands for one kind of action. */
  function KindOf(kind: CapabilityKind): string {
    match kind
    case CapLocalShell => "local_shell"
    case CapSshAuthProbe => "ssh_auth_probe"
    case CapSimulator => "simulator"
    case CapMemory => "memory_save"
    case CapMachineProcess => "machine_pause_process"
    case CapDevice => "device_write"
  }

  lemma {:induction false} CapabilityAdds(text: string, c: PolicyCapability)
    ensures PolicyTokens(text, [c])
         == if c.enabled && c.name.In(text) then [Cell(KindOf(c.kind) + ":" + c.name.Text(text))] else []
  {
    assert [c][..0] == [] && PolicyTokens(text, []) == [];
    assert R.KindName(PrimaryKind(c.kind)) == KindOf(c.kind);
    hide R.KindName, PrimaryKind, KindOf;
    if Enabled(text, c) {
      TruncateIsCell(KindOf(c.kind) + ":" + c.name.Text(text));
      assert PolicyTokens(text, [c]) == [] + [PolicyLabel(text, c)];
      assert PolicyLabel(text, c) == Cell(KindOf(c.kind) + ":" + c.name.Text(text));
    }
  }

  lemma {:induction false} PoliciesJoin(text: string, a: seq<PolicyCapability>, b: seq<PolicyCapability>)
    ensures PolicyTokens(text, a + b) == PolicyTokens(text, a) + PolicyTokens(text, b)
    decreases |b|
  {
    if b == [] {
      assert a + b == a;
    } else {
      var n := |b| - 1;
      assert (a + b)[..|a + b| - 1] == a + b[..n];
      PoliciesJoin(text, a, b[..n]);
    }
  }
}
