/** Replies written out: what a printed s-expression says to the readers behind the parser, and replies
    that do what the lemmas about keys speak of. */
module PrintedReplies {
  import opened Statuses
  import opened SexprLex
  import opened SexprTree
  import opened SexprParse
  import opened SexprRead
  import opened Eval
  import opened Keys
  import Entries
  import SexprText
  import P = SexprPrint
  import R = Recommendation

  // ---- What a printed datum says ------------------------------------------------------------------

  /** Readers see escapes as they are written. */
  function Said(d: P.Datum): Form
    decreases d, 0
  {
    match d
    case Name(name) => Word(name)
    case Text(text) => Quoted(P.Escape(text))
    case Form(items) => Group(SaidAll(items))
  }

  function SaidAll(items: seq<P.Datum>): (forms: seq<Form>)
    ensures |forms| == |items|
    decreases items, |items|
  {
    if items == [] then [] else [Said(items[0])] + SaidAll(items[1..])
  }

  lemma {:induction false} PrintedForm(input: string, p: Position, d: P.Datum)
    requires P.Printable(d) && TextAt(input, p.offset, P.Print(d))
    ensures TextIn(input, P.TreeOf(d, p)) && FormOf(input, P.TreeOf(d, p)) == Said(d)
    decreases d, 0
  {
    P.DatumBack(input, p, d);
    match d
    case Name(_) =>
    case Text(text) =>
      assert P.Quote(text)[1..|P.Quote(text)| - 1] == P.Escape(text);
    case Form(items) =>
      P.FormParts(input, p.offset, items);
      PrintedForms(input, Advance(p, p.offset + 1), items);
  }

  lemma {:induction false} PrintedForms(input: string, p: Position, items: seq<P.Datum>)
    requires (forall item | item in items :: P.Printable(item)) && TextAt(input, p.offset, P.PrintAll(items))
    ensures TextInAll(input, P.TreesOf(items, p)) && FormsOf(input, P.TreesOf(items, p)) == SaidAll(items)
    decreases items, |items|
  {
    P.DataBack(input, p, items);
    if items != [] {
      P.ItemsParts(input, p.offset, items);
      FirstTree(items, p);
      assert P.Printable(items[0]) && forall item | item in items[1..] :: P.Printable(item);
      hide *;
      PrintedForm(input, p, items[0]);
      PrintedForms(input, Advance(p, p.offset + |P.Print(items[0])| + 1), items[1..]);
      SaidTogether(input, P.TreesOf(items, p), items);
    }
  }

  lemma SaidTogether(input: string, f: seq<Tree>, items: seq<P.Datum>)
    requires f != [] && items != [] && TextInAll(input, f) && TextIn(input, f[0]) && TextInAll(input, f[1..])
    requires FormOf(input, f[0]) == Said(items[0]) && FormsOf(input, f[1..]) == SaidAll(items[1..])
    ensures FormsOf(input, f) == SaidAll(items)
  {
    hide Said, FormOf;
    FirstForm(input, f);
  }

  lemma FirstTree(items: seq<P.Datum>, p: Position)
    requires items != []
    ensures var f := P.TreesOf(items, p);
            && f != [] && f[0] == P.TreeOf(items[0], p)
            && f[1..] == P.TreesOf(items[1..], Advance(p, p.offset + |P.Print(items[0])| + 1))
  {
    hide P.TreeOf, P.Print;
  }

  lemma FirstForm(input: string, f: seq<Tree>)
    requires f != [] && TextInAll(input, f)
    ensures TextIn(input, f[0]) && TextInAll(input, f[1..])
    ensures FormsOf(input, f) == [FormOf(input, f[0])] + FormsOf(input, f[1..])
  {
    P.TextInFront(input, f);
    hide FormOf, TextIn, TextInAll;
  }

  /** How many tokens a printed datum has. */
  function Weight(d: P.Datum): nat
    decreases d, 0
  {
    if d.Form? then 2 + WeightAll(d.items) else 1
  }

  function WeightAll(items: seq<P.Datum>): nat
    decreases items, |items|
  {
    if items == [] then 0 else Weight(items[0]) + WeightAll(items[1..])
  }

  lemma {:induction false} WeightIs(d: P.Datum, p: Position)
    ensures |Flatten(P.TreeOf(d, p))| == Weight(d)
    decreases d, 0
  {
    if d.Form? {
      WeightsAre(d.items, Advance(p, p.offset + 1));
    }
  }

  lemma {:induction false} WeightsAre(items: seq<P.Datum>, p: Position)
    ensures |FlattenAll(P.TreesOf(items, p))| == WeightAll(items)
    decreases items, |items|
  {
    if items != [] {
      hide P.TreeOf, Flatten, Weight;
      var next := Advance(p, p.offset + |P.Print(items[0])| + 1);
      WeightIs(items[0], p);
      WeightsAre(items[1..], next);
      var f := P.TreesOf(items, p);
      assert f[0] == P.TreeOf(items[0], p) && f[1..] == P.TreesOf(items[1..], next);
      hide P.TreesOf;
      FlattenFront(f);
    }
  }

  lemma {:induction false} PrintedIsRead(d: P.Datum)
    requires P.Printable(d) && Weight(d) <= REPLY_TOKENS
    ensures Reads(P.Print(d), REPLY_TOKENS, REPLY_TOKENS, [P.TreeOf(d, START)])
  {
    var input, t := P.Print(d), P.TreeOf(d, START);
    P.RoundTrip(d);
    WeightIs(d, START);
    hide Lex, P.Print, P.TreeOf, Flatten, Run, Reads, P.DatumOf, TextIn, Weight, P.Printable;
    ReadsFrom(input, REPLY_TOKENS, REPLY_TOKENS, [t]);
  }

  /** A printed datum of at most 256 tokens is read back as the form it says. */
  lemma {:induction false} PrintedReads(d: P.Datum)
    requires P.Printable(d) && Weight(d) <= REPLY_TOKENS
    ensures TextStatus(P.Print(d), REPLY_TOKENS, REPLY_TOKENS) == Ok
    ensures FormsOf(P.Print(d), ForestOf(P.Print(d), REPLY_TOKENS, REPLY_TOKENS)) == [Said(d)]
  {
    var input, t := P.Print(d), P.TreeOf(d, START);
    PrintedIsRead(d);
    StatusMeans(input, REPLY_TOKENS, REPLY_TOKENS);
    ReadsOnce(input, REPLY_TOKENS, REPLY_TOKENS, [t], REPLY_TOKENS, REPLY_TOKENS,
              ForestOf(input, REPLY_TOKENS, REPLY_TOKENS));
    assert input[0..|input|] == input;
    PrintedForm(input, START, d);
    hide P.Print, P.TreeOf, FormOf, Said, Reads, TextStatus;
    assert FormsOf(input, [t]) == [FormOf(input, t)];
  }

  // ---- Replies ------------------------------------------------------------------------------------

  function FieldDatum(f: R.Field, value: P.Datum): P.Datum {
    P.Form([P.Name(R.FieldName(f)), value])
  }

  const COMMON: seq<R.Field> := [R.KindField, R.Capability, R.Cost, R.UsesNetwork, R.ConfidenceBp, R.Reason]

  function CommonValues(kind: R.Kind, capability: string): seq<P.Datum> {
    [P.Name(R.KindName(kind)), P.Text(capability), P.Name("1"), P.Name("false"), P.Name("1"), P.Text("x")]
  }

  function FieldData(fields: seq<R.Field>, values: seq<P.Datum>): (data: seq<P.Datum>)
    requires |fields| == |values|
    ensures |data| == |fields|
  {
    seq(|fields|, i requires 0 <= i < |fields| => FieldDatum(fields[i], values[i]))
  }

  function Recommend(fields: seq<R.Field>, values: seq<P.Datum>): P.Datum
    requires |fields| == |values|
  {
    P.Form([P.Name("recommend")] + FieldData(fields, values))
  }

  lemma {:induction false} SaidAt(items: seq<P.Datum>, k: nat)
    requires k < |items|
    ensures SaidAll(items)[k] == Said(items[k])
    decreases |items|
  {
    if k > 0 {
      SaidAt(items[1..], k - 1);
    }
  }

  predicate Distinct(fields: seq<R.Field>) {
    forall i, j | 0 <= i < j < |fields| :: fields[i] != fields[j]
  }

  function Place(f: R.Field): nat {
    match f
    case KindField => 0
    case Capability => 1
    case Cost => 2
    case UsesNetwork => 3
    case ConfidenceBp => 4
    case Reason => 5
    case Command => 6
    case Target => 7
    case Slug => 8
    case Description => 9
    case Body => 10
    case ValueField => 11
  }

  lemma PlaceOf(i: nat)
    requires i < |R.FIELDS|
    ensures Place(R.FIELDS[i]) == i
  {
  }

  lemma FieldsDiffer()
    ensures Distinct(R.FIELDS)
  {
    forall i, j | 0 <= i < j < |R.FIELDS|
      ensures R.FIELDS[i] != R.FIELDS[j]
    {
      PlaceOf(i);
      PlaceOf(j);
      hide R.FIELDS, Place;
    }
  }

  /** What a field of a printed reply sets. */
  lemma {:induction false} FieldSets(k: nat, value: P.Datum)
    requires k < |R.FIELDS| && R.ValueOf(R.FIELDS[k], Said(value)).Some?
    ensures R.EntryOf(Said(FieldDatum(R.FIELDS[k], value)))
         == Entries.Sets(R.FIELDS[k], R.ValueOf(R.FIELDS[k], Said(value)).value)
  {
    var f := R.FIELDS[k];
    R.FieldNamedIff(R.FieldName(f), f);
    hide R.FieldName, R.FieldNamed, R.ValueOf;
    var items := [P.Name(R.FieldName(f)), value];
    SaidAt(items, 0);
    SaidAt(items, 1);
  }

  /** A printed reply with these fields says the table they make up. */
  lemma {:induction false} RecommendSays(fields: seq<R.Field>, values: seq<P.Datum>, table: R.Table)
    requires |fields| == |values| && fields <= R.FIELDS
    requires forall i | 0 <= i < |fields| ::
      fields[i] in table && R.ValueOf(fields[i], Said(values[i])) == Some(table[fields[i]])
    requires forall f :: f in table ==> f in fields
    requires R.Complete(table) && R.KindRules(table)
    ensures R.Says([Said(Recommend(fields, values))], table)
  {
    var forms := FormsOfFields(fields, values);
    hide R.Complete, R.KindRules, Said, R.EntryOf, R.ValueOf, R.FieldName;
    forall i | 0 <= i < |fields|
      ensures R.EntryOf(forms[i]) == Entries.Sets(fields[i], table[fields[i]])
    {
      FieldSets(i, values[i]);
    }
    FieldsDiffer();
    TableOfFields(forms, fields, table);
  }

  /** The fields of a printed reply, as they are read. */
  lemma {:induction false} FormsOfFields(fields: seq<R.Field>, values: seq<P.Datum>) returns (forms: seq<Form>)
    requires |fields| == |values|
    ensures |forms| == |fields| && Said(Recommend(fields, values)) == Group([Word("recommend")] + forms)
    ensures forall i | 0 <= i < |forms| :: forms[i] == Said(FieldDatum(fields[i], values[i]))
  {
    var items := [P.Name("recommend")] + FieldData(fields, values);
    var said := SaidAll(items);
    forms := said[1..];
    SaidAt(items, 0);
    forall i | 0 <= i < |forms|
      ensures forms[i] == Said(FieldDatum(fields[i], values[i]))
    {
      SaidAt(items, i + 1);
    }
    assert said == [said[0]] + forms;
  }

  lemma {:induction false} TableOfFields(forms: seq<Form>, fields: seq<R.Field>, table: R.Table)
    requires |forms| == |fields| && Distinct(fields)
    requires forall i | 0 <= i < |fields| ::
      fields[i] in table && R.EntryOf(forms[i]) == Entries.Sets(fields[i], table[fields[i]])
    requires forall f :: f in table ==> f in fields
    ensures Entries.IsTable(forms, R.EntryOf, table)
  {
    hide R.EntryOf;
    forall f | f in table
      ensures Entries.HasKey(forms, R.EntryOf, f)
    {
      var i :| 0 <= i < |fields| && fields[i] == f;
      assert forms[i] in forms;
    }
  }

  // ---- A simulator step and a finish ----------------------------------------------------------------

  /** A reply with the fields that all kinds know. */
  function ReplyOf(kind: R.Kind, capability: string): string {
    P.Print(Recommend(COMMON, CommonValues(kind, capability)))
  }

  function TableOf(kind: R.Kind, capability: string): R.Table {
    map[R.KindField := R.KindIs(kind), R.Capability := R.TextIs(P.Escape(capability)), R.Cost := R.NumberIs(1),
        R.UsesNetwork := R.FlagIs(false), R.ConfidenceBp := R.NumberIs(1), R.Reason := R.TextIs(P.Escape("x"))]
  }

  lemma KindNameFound(kind: R.Kind)
    requires kind == R.Simulator || kind == R.Finish
    ensures R.KindNamed(R.KindName(kind), R.KINDS) == Some(kind)
  {
    R.KindNamedIff(R.KindName(kind), kind);
  }

  lemma OneIsNumber()
    ensures R.Unsigned("1") == Some(1)
  {
    assert SexprText.DigitRun("1") == ['1'] + SexprText.DigitRun([]);
    assert SexprText.Value("1") == 10 * SexprText.Value([]) + 1;
  }

  lemma {:induction false} CommonValueOf(kind: R.Kind, capability: string, i: nat)
    requires kind == R.Simulator || kind == R.Finish
    requires i < |COMMON|
    ensures COMMON[i] in TableOf(kind, capability)
    ensures R.ValueOf(COMMON[i], Said(CommonValues(kind, capability)[i]))
         == Some(TableOf(kind, capability)[COMMON[i]])
  {
    KindNameFound(kind);
    OneIsNumber();
    hide R.KindName, R.KindNamed, R.Unsigned, P.Escape;
  }

  lemma {:induction false} ReplySays(kind: R.Kind, capability: string)
    requires kind == R.Simulator || kind == R.Finish
    ensures R.Says([Said(Recommend(COMMON, CommonValues(kind, capability)))], TableOf(kind, capability))
  {
    var values, table := CommonValues(kind, capability), TableOf(kind, capability);
    assert R.Complete(table) && R.KindRules(table);
    assert COMMON <= R.FIELDS;
    forall i | 0 <= i < |COMMON|
      ensures COMMON[i] in table && R.ValueOf(COMMON[i], Said(values[i])) == Some(table[COMMON[i]])
    {
      CommonValueOf(kind, capability, i);
    }
    hide R.Complete, R.KindRules, R.Says, R.ValueOf, Said, Recommend;
    RecommendSays(COMMON, values, table);
  }

  /** Small letters and underscores. */
  predicate Lower(name: string) {
    forall c | c in name :: 'a' <= c <= 'z' || c == '_'
  }

  lemma LowerPrintable(name: string)
    requires Lower(name) && name != []
    ensures P.Printable(P.Name(name))
  {
  }

  lemma FieldNameLower(f: R.Field)
    ensures Lower(R.FieldName(f)) && R.FieldName(f) != []
  {
  }

  lemma KindNameLower(kind: R.Kind)
    ensures Lower(R.KindName(kind)) && R.KindName(kind) != []
  {
  }

  lemma {:induction false} ReplyPrintable(kind: R.Kind, capability: string)
    requires '\0' !in capability
    ensures P.Printable(Recommend(COMMON, CommonValues(kind, capability)))
  {
    var values := CommonValues(kind, capability);
    var data := FieldData(COMMON, values);
    forall i | 0 <= i < |COMMON|
      ensures P.Printable(data[i])
    {
      FieldNameLower(COMMON[i]);
      LowerPrintable(R.FieldName(COMMON[i]));
      KindNameLower(kind);
      LowerPrintable(R.KindName(kind));
      hide R.FieldName, R.KindName;
      LowerPrintable("false");
      assert P.Printable(values[i]);
      assert data[i] == P.Form([P.Name(R.FieldName(COMMON[i])), values[i]]);
    }
    LowerPrintable("recommend");
    hide FieldData, CommonValues;
    forall item | item in [P.Name("recommend")] + data
      ensures P.Printable(item)
    {
      if item != P.Name("recommend") {
        var i :| 0 <= i < |data| && data[i] == item;
      }
    }
  }

  lemma {:induction false} WeightsBelow(items: seq<P.Datum>, n: nat)
    requires forall item | item in items :: Weight(item) <= n
    ensures WeightAll(items) <= n * |items|
    decreases |items|
  {
    if items != [] {
      WeightsBelow(items[1..], n);
      assert n * |items| == n * |items[1..]| + n;
    }
  }

  lemma {:induction false} ReplyWeight(kind: R.Kind, capability: string)
    ensures Weight(Recommend(COMMON, CommonValues(kind, capability))) <= REPLY_TOKENS
  {
    var values := CommonValues(kind, capability);
    var items := [P.Name("recommend")] + FieldData(COMMON, values);
    forall item | item in items
      ensures Weight(item) <= 4
    {
      if item != P.Name("recommend") {
        var i :| 0 <= i < |COMMON| && item == FieldDatum(COMMON[i], values[i]);
        assert WeightAll(item.items) == Weight(item.items[0]) + WeightAll(item.items[1..]);
        assert item.items[1..] == [values[i]] && [values[i]][1..] == [] && !values[i].Form?;
        assert WeightAll([values[i]]) == Weight(values[i]) + WeightAll([]);
      }
    }
    WeightsBelow(items, 4);
  }

  lemma {:induction false} ReplyReplies(kind: R.Kind, capability: string)
    requires (kind == R.Simulator || kind == R.Finish) && '\0' !in capability
    ensures Replies(ReplyOf(kind, capability), TableOf(kind, capability))
  {
    ReplyPrintable(kind, capability);
    ReplyWeight(kind, capability);
    hide P.Printable, P.Print, Weight, Recommend, CommonValues, R.Says, TextStatus, Said, TableOf;
    PrintedReads(Recommend(COMMON, CommonValues(kind, capability)));
    ReplySays(kind, capability);
  }

  /** What the printed reply does: its kind and capability are an action, or it finishes. */
  lemma {:induction false} ReplyDoes(kind: R.Kind, capability: string)
    requires (kind == R.Simulator || kind == R.Finish) && '\0' !in capability
    ensures Replies(ReplyOf(kind, capability), TableOf(kind, capability))
    ensures ActionOf(ReplyOf(kind, capability))
         == if kind == R.Finish then None else Some(Action(R.Simulator, P.Escape(capability)))
  {
    ReplyReplies(kind, capability);
    ReplyNames(kind, capability);
    hide Replies, ActionOf, ReplyOf, TableOf;
    ActionIs(ReplyOf(kind, capability), TableOf(kind, capability));
  }

  lemma ReplyNames(kind: R.Kind, capability: string)
    ensures R.KindIn(TableOf(kind, capability)) == kind
    ensures CapabilityIn(TableOf(kind, capability)) == P.Escape(capability)
  {
  }

  /** A printed finish adds no token, although it has a kind. */
  lemma {:induction false} FinishReply(capability: string)
    requires '\0' !in capability
    ensures Finishes(ReplyOf(R.Finish, capability)) && ReplyToken(ReplyOf(R.Finish, capability)) == None
  {
    hide ReplyToken, Replies, ReplyOf, TableOf;
    ReplyDoes(R.Finish, capability);
    ReplyNames(R.Finish, capability);
    FinishToken(ReplyOf(R.Finish, capability));
  }

  // ---- Replies that share a key ---------------------------------------------------------------------

  /** Nothing to escape, and no NUL. */
  predicate Literal(text: string) {
    forall c | c in text :: P.EscapeChar(c) == [c] && c != '\0'
  }

  lemma {:induction false} EscapeLiteral(text: string)
    requires Literal(text)
    ensures P.Escape(text) == text
  {
    if text != [] {
      assert text[0] in text;
      EscapeLiteral(text[1..]);
    }
  }

  lemma {:induction false} SimulatorStep(capability: string)
    requires Literal(capability)
    ensures Actions([ReplyOf(R.Simulator, capability)]) == [Action(R.Simulator, capability)]
  {
    EscapeLiteral(capability);
    ReplyDoes(R.Simulator, capability);
    hide ReplyOf, ActionOf;
    OneAction(ReplyOf(R.Simulator, capability));
  }

  lemma OneAction(reply: string)
    ensures Actions([reply]) == if ActionOf(reply).Some? then [ActionOf(reply).value] else []
  {
    hide ActionOf;
    assert [reply][..0] == [];
  }

  /** One reply whose capability holds the joiner, and two replies of the same set-mode key. */
  lemma {:induction false} JoinedRepliesShareKey(x: string, y: string)
    requires x != [] && Less(x, y) && Literal(x) && Literal(y) && Joined(x, y).Fits()
    ensures var a := [ReplyOf(R.Simulator, Joined(x, y).capability)];
            var b := [ReplyOf(R.Simulator, x), ReplyOf(R.Simulator, y)];
            Elements(Actions(a)) != Elements(Actions(b)) && SetKey(Actions(a)) == SetKey(Actions(b))
  {
    JoinedLiteral(x, y);
    KeysCollide(x, y);
    hide *;
    SimulatorStep(Joined(x, y).capability);
    TwoSteps(x, y);
    assert Joined(x, y) == Action(R.Simulator, Joined(x, y).capability);
  }

  lemma {:induction false} TwoSteps(x: string, y: string)
    requires Literal(x) && Literal(y)
    ensures Actions([ReplyOf(R.Simulator, x), ReplyOf(R.Simulator, y)])
         == [Action(R.Simulator, x), Action(R.Simulator, y)]
  {
    var u, v := ReplyOf(R.Simulator, x), ReplyOf(R.Simulator, y);
    hide *;
    SimulatorStep(x);
    SimulatorStep(y);
    ActionsAppend([u], v);
    assert [u] + [v] == [u, v];
  }

  lemma {:induction false} JoinedLiteral(x: string, y: string)
    requires Literal(x) && Literal(y)
    ensures Literal(Joined(x, y).capability) && Joined(x, y).kind == R.Simulator
  {
    var name := R.KindName(R.Simulator);
    KindNameLower(R.Simulator);
    hide R.KindName;
    forall c | c in x + (['+'] + (name + ([':'] + y)))
      ensures P.EscapeChar(c) == [c] && c != '\0'
    {
      assert c in x || c == '+' || c in name || c == ':' || c in y;
    }
  }

  lemma {:induction false} ActionsAppend(replies: seq<string>, reply: string)
    ensures Actions(replies + [reply]) == Actions(replies) + Actions([reply])
  {
    OneAction(reply);
    hide ActionOf;
    assert (replies + [reply])[..|replies|] == replies;
  }

  /** Two replies that differ in their capability, behind the end of the token cell: each of them alone
      is a trajectory with the same keys. */
  lemma {:induction false} LongRepliesShareKeys(stem: string)
    requires Literal(stem) && '+' !in stem && |stem| >= TOKEN_MAX - 1 - |R.KindName(R.Simulator)|
    ensures var a, b := [ReplyOf(R.Simulator, stem + "a")], [ReplyOf(R.Simulator, stem + "b")];
            && Elements(Actions(a)) != Elements(Actions(b))
            && SetKey(Actions(a)) == SetKey(Actions(b)) && SequenceKey(Actions(a)) == SequenceKey(Actions(b))
  {
    hide ReplyOf, Actions, SetKey, SequenceKey, R.KindName;
    SimulatorStep(stem + "a");
    SimulatorStep(stem + "b");
    LongNamesCollide(stem);
  }
}
