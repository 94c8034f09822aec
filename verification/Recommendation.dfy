/** Reading a model's reply, from src/actor/recommendation.c: a recommend form whose fields may
    come in any order. */
module Recommendation {
  import opened Statuses
  import opened SexprLex
  import opened SexprTree
  import opened SexprRead
  import opened SexprText
  import Entries

  const INT64_MAX: int := 0x7FFF_FFFF_FFFF_FFFF

  datatype Kind =
    | LocalShell | SshAuthProbe | Simulator | MemorySave | MemoryDelete | MemoryRead
    | MachinePause | MachineResume | DeviceWrite | Finish

  function KindName(k: Kind): string {
    match k
    case LocalShell => "local_shell"
    case SshAuthProbe => "ssh_auth_probe"
    case Simulator => "simulator"
    case MemorySave => "memory_save"
    case MemoryDelete => "memory_delete"
    case MemoryRead => "memory_read"
    case MachinePause => "machine_pause_process"
    case MachineResume => "machine_resume_process"
    case DeviceWrite => "device_write"
    case Finish => "finish"
  }

  const KINDS: seq<Kind> := [Simulator, LocalShell, SshAuthProbe, MemorySave, MemoryDelete, MemoryRead,
                             MachinePause, MachineResume, DeviceWrite, Finish]

  datatype Field =
    | KindField | Capability | Cost | UsesNetwork | ConfidenceBp | Reason
    | Command | Target | Slug | Description | Body | ValueField

  function FieldName(f: Field): string {
    match f
    case KindField => "kind"
    case Capability => "capability"
    case Cost => "cost"
    case UsesNetwork => "uses_network"
    case ConfidenceBp => "confidence_bp"
    case Reason => "reason"
    case Command => "command"
    case Target => "target"
    case Slug => "slug"
    case Description => "description"
    case Body => "body"
    case ValueField => "value"
  }

  const FIELDS: seq<Field> := [KindField, Capability, Cost, UsesNetwork, ConfidenceBp, Reason,
                               Command, Target, Slug, Description, Body, ValueField]

  predicate Textual(f: Field) {
    f in {Capability, Reason, Command, Target, Slug, Description, Body}
  }

  /** The first of `fields` with this name. */
  function FieldNamed(name: string, fields: seq<Field>): Option<Field> {
    if fields == [] then None
    else if FieldName(fields[0]) == name then Some(fields[0])
    else FieldNamed(name, fields[1..])
  }

  function KindNamed(name: string, kinds: seq<Kind>): Option<Kind> {
    if kinds == [] then None
    else if KindName(kinds[0]) == name then Some(kinds[0])
    else KindNamed(name, kinds[1..])
  }

  // ---- Names --------------------------------------------------------------------------------------

  lemma FieldNameUnique(f: Field, g: Field)
    requires FieldName(f) == FieldName(g)
    ensures f == g
  {
  }

  lemma KindNameUnique(k: Kind, l: Kind)
    requires KindName(k) == KindName(l)
    ensures k == l
  {
  }

  lemma {:induction false} FieldFound(f: Field, fields: seq<Field>)
    requires f in fields
    ensures FieldNamed(FieldName(f), fields) == Some(f)
  {
    hide FieldName;
    if fields[0] != f {
      if FieldName(fields[0]) == FieldName(f) {
        FieldNameUnique(fields[0], f);
      }
      FieldFound(f, fields[1..]);
    }
  }

  lemma {:induction false} KindFound(kind: Kind, kinds: seq<Kind>)
    requires kind in kinds
    ensures KindNamed(KindName(kind), kinds) == Some(kind)
  {
    hide KindName;
    if kinds[0] != kind {
      if KindName(kinds[0]) == KindName(kind) {
        KindNameUnique(kinds[0], kind);
      }
      KindFound(kind, kinds[1..]);
    }
  }

  lemma {:induction false} NamedHasName(name: string, fields: seq<Field>)
    ensures FieldNamed(name, fields).Some? ==> FieldName(FieldNamed(name, fields).value) == name
  {
    if fields != [] {
      hide FieldName;
      NamedHasName(name, fields[1..]);
    }
  }

  lemma {:induction false} NamedHasKind(name: string, kinds: seq<Kind>)
    ensures KindNamed(name, kinds).Some? ==> KindName(KindNamed(name, kinds).value) == name
  {
    if kinds != [] {
      hide KindName;
      NamedHasKind(name, kinds[1..]);
    }
  }

  /** A name finds the field, or the kind, that has it. */
  lemma {:induction false} FieldNamedIff(name: string, f: Field)
    ensures FieldNamed(name, FIELDS) == Some(f) <==> name == FieldName(f)
  {
    assert f in FIELDS;
    hide FieldName, FieldNamed;
    NamedHasName(name, FIELDS);
    FieldFound(f, FIELDS);
  }

  lemma {:induction false} KindNamedIff(name: string, kind: Kind)
    ensures KindNamed(name, KINDS) == Some(kind) <==> name == KindName(kind)
  {
    assert kind in KINDS;
    hide KindName, KindNamed;
    NamedHasKind(name, KINDS);
    KindFound(kind, KINDS);
  }

  // ---- What a field says ----------------------------------------------------------------------

  datatype Value = KindIs(kind: Kind) | TextIs(text: string) | NumberIs(number: int) | FlagIs(flag: bool)

  /** Digits with an optional minus sign; the most negative 64-bit number is not one. */
  function Signed(text: string): Option<int> {
    var negative := text != [] && text[0] == '-';
    var digits := if negative then text[1..] else text;
    if digits == [] || NumberStatus(digits) != Ok || SexprText.Value(digits) > INT64_MAX then None
    else
      var magnitude: int := SexprText.Value(digits);
      Some(if negative then -magnitude else magnitude)
  }

  function Unsigned(text: string): Option<nat> {
    if NumberStatus(text) == Ok then Some(SexprText.Value(text)) else None
  }

  /** The value of a field, if it is one. */
  function ValueOf(f: Field, form: Form): Option<Value> {
    match form
    case Group(_) => None
    case Quoted(payload) => if Textual(f) then Some(TextIs(payload)) else None
    case Word(text) => WordValue(f, text)
  }

  function WordValue(f: Field, text: string): Option<Value> {
    match f
    case KindField =>
      var k := KindNamed(text, KINDS);
      if k.Some? then Some(KindIs(k.value)) else None
    case Cost =>
      var n := Unsigned(text);
      if n.Some? && n.value != 0 then Some(NumberIs(n.value)) else None
    case ConfidenceBp =>
      var n := Unsigned(text);
      if n.Some? && n.value <= 10000 then Some(NumberIs(n.value)) else None
    case ValueField =>
      var n := Signed(text);
      if n.Some? then Some(NumberIs(n.value)) else None
    case UsesNetwork =>
      if text == "true" then Some(FlagIs(true)) else if text == "false" then Some(FlagIs(false)) else None
    case _ => None
  }

  predicate Shaped(form: Form) {
    form.Group? && |form.items| == 2 && form.items[0].Word?
  }

  /** What a field form sets, if it is well formed. */
  function EntryOf(form: Form): Entries.Entry<Field, Value> {
    if !Shaped(form) then Entries.Bad
    else
      var f := FieldNamed(form.items[0].text, FIELDS);
      if f == None then Entries.Bad
      else
        var v := ValueOf(f.value, form.items[1]);
        if v == None then Entries.Bad else Entries.Sets(f.value, v.value)
  }

  // ---- What a recommendation must say ------------------------------------------------------------

  /** The contents of a recommendation, field by field. */
  type Table = map<Field, Value>

  function KindIn(table: Table): Kind {
    if KindField in table && table[KindField].KindIs? then table[KindField].kind else LocalShell
  }

  predicate NetworkIn(table: Table) {
    UsesNetwork in table && table[UsesNetwork].FlagIs? && table[UsesNetwork].flag
  }

  /** The fields every recommendation of a kind has. */
  function RequiredFields(kind: Kind): set<Field> {
    if kind == Finish then {KindField, Reason}
    else {KindField, Capability, Cost, UsesNetwork, ConfidenceBp, Reason}
  }

  /** The side-effect fields of a kind: which it needs, and which it must not have. */
  function NeededFields(kind: Kind): set<Field> {
    match kind
    case LocalShell => {Command}
    case SshAuthProbe => {Target}
    case MemorySave => {Slug, Description, Body}
    case MemoryDelete | MemoryRead => {Slug}
    case MachinePause | MachineResume => {Target}
    case DeviceWrite => {Target, ValueField}
    case Simulator | Finish => {}
  }

  function ForbiddenFields(kind: Kind): set<Field> {
    match kind
    case Simulator => {Command, ValueField}
    case LocalShell => {Target, ValueField}
    case SshAuthProbe => {Command, ValueField}
    case MemorySave => {Command, Target, ValueField}
    case MemoryDelete | MemoryRead => {Command, Target, Description, Body, ValueField}
    case MachinePause | MachineResume => {Command, Slug, Description, Body, ValueField}
    case DeviceWrite => {Command, Slug, Description, Body}
    case Finish => {Command, Target, Slug, Description, Body, ValueField}
  }

  /** The per-kind rules: needed and forbidden fields, and the network only for a probe. */
  predicate KindRules(table: Table) {
    var kind := KindIn(table);
    && NeededFields(kind) <= table.Keys && ForbiddenFields(kind) !! table.Keys
    && (kind != Finish ==> (NetworkIn(table) <==> kind == SshAuthProbe))
  }

  predicate Complete(table: Table) {
    RequiredFields(KindIn(table)) <= table.Keys
  }

  /** A reply says `table` when it is a recommend form whose fields are well formed, set it, and
      satisfy the rules; forms behind the first do not matter. */
  ghost predicate Says(forms: seq<Form>, table: Table) {
    && forms != [] && forms[0].Group? && forms[0].items != [] && forms[0].items[0] == Word("recommend")
    && Entries.IsTable(forms[0].items[1..], EntryOf, table)
    && Complete(table) && KindRules(table)
  }

  // ---- Why a reply is rejected -------------------------------------------------------------------

  datatype RejectReason =
    Empty | Syntax | BadSchema | UnknownKind | MissingField | DuplicateField | WrongValue | KindMismatch

  /** The fields read so far, and the first fault. */
  datatype Collected = Collected(table: Table, fault: Option<RejectReason>)

  function CollectStep(table: Table, form: Form): Collected {
    if !Shaped(form) then Collected(table, Some(BadSchema))
    else
      var f := FieldNamed(form.items[0].text, FIELDS);
      if f == None then Collected(table, Some(BadSchema))
      else if f.value in table then Collected(table, Some(DuplicateField))
      else
        var v := ValueOf(f.value, form.items[1]);
        if v == None then Collected(table, Some(ValueFault(f.value, form.items[1])))
        else Collected(table[f.value := v.value], None)
  }

  function ValueFault(f: Field, value: Form): RejectReason {
    if f == KindField && value.Word? then UnknownKind else WrongValue
  }

  function Collect(fields: seq<Form>): Collected {
    if fields == [] then Collected(map[], None)
    else
      var before := Collect(fields[..|fields| - 1]);
      if before.fault.Some? then before else CollectStep(before.table, fields[|fields| - 1])
  }

  predicate IsRecommend(form: Form) {
    Headed(form, "recommend")
  }

  /** The reason for which the code rejects a parsed reply, if it does. */
  function Fault(forms: seq<Form>): Option<RejectReason> {
    if forms == [] then Some(Empty)
    else if !IsRecommend(forms[0]) then Some(BadSchema)
    else
      var c := Collect(forms[0].items[1..]);
      if c.fault.Some? then c.fault
      else if !Complete(c.table) then Some(MissingField)
      else if !KindRules(c.table) then Some(KindMismatch)
      else None
  }

  lemma {:induction false} StepMeans(table: Table, form: Form)
    ensures var e := EntryOf(form);
            if e.Sets? && e.key !in table then CollectStep(table, form) == Collected(table[e.key := e.value], None)
            else CollectStep(table, form).fault.Some?
  {
  }

  lemma {:induction false} CollectMeans(fields: seq<Form>)
    ensures Collect(fields).fault == None <==> Entries.Ok(fields, EntryOf)
    ensures Collect(fields).fault == None ==> Entries.IsTable(fields, EntryOf, Collect(fields).table)
  {
    if fields != [] {
      var front, last := fields[..|fields| - 1], fields[|fields| - 1];
      hide *;
      CollectMeans(front);
      assert fields == front + [last];
      Entries.OkStep(front, last, EntryOf);
      var table := Collect(front).table;
      StepMeans(table, last);
      if Collect(front).fault == None {
        if EntryOf(last).Sets? {
          Entries.TableHas(front, EntryOf, table, EntryOf(last).key);
        }
        if Entries.Ok(fields, EntryOf) {
          Entries.TableStep(front, last, EntryOf, table);
        }
      }
    }
  }

  /** The code takes a reply as valid exactly when it says something, and then that is what it reads. */
  lemma {:induction false} ValidMeans(forms: seq<Form>)
    ensures Fault(forms) == None <==> exists table :: Says(forms, table)
    ensures Fault(forms) == None ==> Says(forms, Collect(forms[0].items[1..]).table)
  {
    hide Collect, Complete, KindRules, Entries.Ok, Entries.IsTable, EntryOf;
    forall table | Says(forms, table)
      ensures Fault(forms) == None
    {
      var fields := forms[0].items[1..];
      CollectMeans(fields);
      TableIsOk(fields, table);
      Entries.TableOnce(fields, EntryOf, table, Collect(fields).table);
    }
    if Fault(forms) == None {
      CollectMeans(forms[0].items[1..]);
      assert Says(forms, Collect(forms[0].items[1..]).table);
    }
  }

  /** A reply says one thing. */
  lemma {:induction false} SaysOnce(forms: seq<Form>, a: Table, b: Table)
    requires Says(forms, a) && Says(forms, b)
    ensures a == b
  {
    hide Complete, KindRules, Entries.IsTable, EntryOf;
    Entries.TableOnce(forms[0].items[1..], EntryOf, a, b);
  }

  lemma TableIsOk(fields: seq<Form>, table: Table)
    requires Entries.IsTable(fields, EntryOf, table)
    ensures Entries.Ok(fields, EntryOf)
  {
  }

  /** Reordering the fields of a recommendation changes neither whether it is valid nor what it says. */
  lemma {:induction false} FieldOrderIrrelevant(a: seq<Form>, b: seq<Form>, rest: seq<Form>, rest': seq<Form>, table: Table)
    requires multiset(a) == multiset(b)
    requires Says([Group([Word("recommend")] + a)] + rest, table)
    ensures Says([Group([Word("recommend")] + b)] + rest', table)
  {
    hide Complete, KindRules, Entries.Ok, Entries.IsTable, EntryOf;
    var x, y := [Group([Word("recommend")] + a)] + rest, [Group([Word("recommend")] + b)] + rest';
    assert x[0].items[1..] == a && y[0].items[1..] == b;
    Entries.TableOfPermutation(a, b, EntryOf, table);
  }

  // ---- Signed values --------------------------------------------------------------------------------

  function SignedDec(n: int): string {
    if n < 0 then ['-'] + Dec(-n) else Dec(n)
  }

  /** A device value lies strictly inside the signed 64-bit range, and every such number can be
      written. */
  lemma {:induction false} SignedRange(n: int)
    ensures Signed(SignedDec(n)) == if -INT64_MAX <= n <= INT64_MAX then Some(n) else None
    ensures forall text :: var v := Signed(text); v.Some? ==> -INT64_MAX <= v.value <= INT64_MAX
  {
    var magnitude := if n < 0 then -n else n;
    ValueOfDec(magnitude);
    DigitRunAll(Dec(magnitude));
    assert ['-'] + Dec(magnitude) != [] && (['-'] + Dec(magnitude))[1..] == Dec(magnitude);
    assert Dec(magnitude)[0] != '-';
    hide Dec, DigitRun, SexprText.Value;
  }

  // ---- The reader ---------------------------------------------------------------------------------------

  /** The result record; a missing option is a field that was not there. */
  datatype Rec = Rec(kind: Kind, capability: Span, cost: nat, usesNetwork: bool, confidenceBp: nat, reason: Span,
                     command: Option<Span>, target: Option<Span>, slug: Option<Span>, description: Option<Span>,
                     body: Option<Span>, deviceValue: Option<int>)

  const NO_SPAN := Span(0, 0)

  /** The record before any field is read: the kind of the zeroed record is local_shell. */
  const ZERO := Rec(LocalShell, NO_SPAN, 0, false, 0, NO_SPAN, None, None, None, None, None, None)

  datatype Verdict = Rejected(reason: RejectReason) | Valid(rec: Rec)

  predicate SpanField(input: string, table: Table, f: Field, span: Span) {
    if f in table then table[f].TextIs? && span.In(input) && span.Text(input) == table[f].text else span == NO_SPAN
  }

  predicate OptionField(input: string, table: Table, f: Field, option: Option<Span>) {
    if f in table then
      table[f].TextIs? && option.Some? && option.value.In(input) && option.value.Text(input) == table[f].text
    else option == None
  }

  predicate NumberField(table: Table, f: Field, n: int) {
    if f in table then table[f] == NumberIs(n) else n == 0
  }

  /** The record says of one field what the table says. */
  predicate FieldSays(input: string, rec: Rec, table: Table, f: Field) {
    match f
    case KindField => rec.kind == KindIn(table)
    case UsesNetwork => rec.usesNetwork == NetworkIn(table)
    case Capability => SpanField(input, table, Capability, rec.capability)
    case Reason => SpanField(input, table, Reason, rec.reason)
    case Cost => NumberField(table, Cost, rec.cost)
    case ConfidenceBp => NumberField(table, ConfidenceBp, rec.confidenceBp)
    case Command => OptionField(input, table, Command, rec.command)
    case Target => OptionField(input, table, Target, rec.target)
    case Slug => OptionField(input, table, Slug, rec.slug)
    case Description => OptionField(input, table, Description, rec.description)
    case Body => OptionField(input, table, Body, rec.body)
    case ValueField =>
      if ValueField in table then rec.deviceValue.Some? && table[ValueField] == NumberIs(rec.deviceValue.value)
      else rec.deviceValue == None
  }

  predicate RecSays(input: string, rec: Rec, table: Table) {
    forall f: Field :: FieldSays(input, rec, table, f)
  }

  /** What a value node holds: a kind, a number or a flag, or where a text is. */
  datatype Slot = KindSlot(kind: Kind) | SpanSlot(span: Span) | NumberSlot(number: int) | FlagSlot(flag: bool)

  predicate SlotSays(input: string, slot: Slot, value: Value) {
    match slot
    case KindSlot(kind) => value == KindIs(kind)
    case SpanSlot(span) => span.In(input) && value == TextIs(span.Text(input))
    case NumberSlot(number) => value == NumberIs(number)
    case FlagSlot(flag) => value == FlagIs(flag)
  }

  /** The kind of slot a field has. */
  predicate Fits(f: Field, slot: Slot) {
    match f
    case KindField => slot.KindSlot?
    case Cost | ConfidenceBp => slot.NumberSlot? && slot.number >= 0
    case ValueField => slot.NumberSlot?
    case UsesNetwork => slot.FlagSlot?
    case _ => slot.SpanSlot?
  }

  function Assign(rec: Rec, f: Field, slot: Slot): Rec
    requires Fits(f, slot)
  {
    match f
    case KindField => rec.(kind := slot.kind)
    case Capability => rec.(capability := slot.span)
    case Cost => rec.(cost := slot.number)
    case UsesNetwork => rec.(usesNetwork := slot.flag)
    case ConfidenceBp => rec.(confidenceBp := slot.number)
    case Reason => rec.(reason := slot.span)
    case Command => rec.(command := Some(slot.span))
    case Target => rec.(target := Some(slot.span))
    case Slug => rec.(slug := Some(slot.span))
    case Description => rec.(description := Some(slot.span))
    case Body => rec.(body := Some(slot.span))
    case ValueField => rec.(deviceValue := Some(slot.number))
  }

  lemma {:induction false} AssignKeeps(input: string, rec: Rec, table: Table, f: Field, slot: Slot, value: Value, g: Field)
    requires FieldSays(input, rec, table, g) && g != f && Fits(f, slot)
    ensures FieldSays(input, Assign(rec, f, slot), table[f := value], g)
  {
  }

  lemma {:induction false} AssignSets(input: string, rec: Rec, table: Table, f: Field, slot: Slot, value: Value)
    requires Fits(f, slot) && SlotSays(input, slot, value)
    ensures FieldSays(input, Assign(rec, f, slot), table[f := value], f)
  {
  }

  lemma {:induction false} AssignSays(input: string, rec: Rec, table: Table, f: Field, slot: Slot, value: Value)
    requires RecSays(input, rec, table) && Fits(f, slot) && SlotSays(input, slot, value)
    ensures RecSays(input, Assign(rec, f, slot), table[f := value])
  {
    hide FieldSays, Assign, Fits, SlotSays;
    var rec', table' := Assign(rec, f, slot), table[f := value];
    forall g: Field
      ensures FieldSays(input, rec', table', g)
    {
      if g == f {
        AssignSets(input, rec, table, f, slot, value);
      } else {
        AssignKeeps(input, rec, table, f, slot, value, g);
      }
    }
  }

  /** The source's order of tests: fields every kind needs, then the table per kind. */
  predicate RequiredFieldsSeen(seen: set<Field>, kind: Kind) {
    if kind == Finish then KindField in seen && Reason in seen
    else
      && KindField in seen && Capability in seen && Cost in seen && UsesNetwork in seen && ConfidenceBp in seen
      && Reason in seen
  }

  predicate KindFieldsMatch(rec: Rec) {
    if rec.deviceValue.Some? && rec.kind != DeviceWrite then false
    else match rec.kind
      case Simulator => !rec.usesNetwork && rec.command == None
      case LocalShell => !rec.usesNetwork && rec.command.Some? && rec.target == None
      case SshAuthProbe => rec.usesNetwork && rec.command == None && rec.target.Some?
      case MemorySave =>
        !rec.usesNetwork && rec.command == None && rec.target == None && rec.slug.Some? && rec.description.Some?
        && rec.body.Some?
      case MemoryDelete | MemoryRead =>
        !rec.usesNetwork && rec.command == None && rec.target == None && rec.slug.Some? && rec.description == None
        && rec.body == None
      case MachinePause | MachineResume =>
        !rec.usesNetwork && rec.command == None && rec.target.Some? && rec.slug == None && rec.description == None
        && rec.body == None
      case DeviceWrite =>
        !rec.usesNetwork && rec.command == None && rec.target.Some? && rec.deviceValue.Some? && rec.slug == None
        && rec.description == None && rec.body == None
      case Finish =>
        rec.command == None && rec.target == None && rec.slug == None && rec.description == None && rec.body == None
  }

  /** The switch over kinds is the table of needed and forbidden fields. */
  lemma {:induction false} KindFieldsMatchMeans(input: string, rec: Rec, table: Table)
    requires RecSays(input, rec, table)
    ensures KindFieldsMatch(rec) <==> KindRules(table)
    ensures RequiredFieldsSeen(table.Keys, rec.kind) <==> Complete(table)
  {
    assert FieldSays(input, rec, table, KindField) && FieldSays(input, rec, table, UsesNetwork);
    assert FieldSays(input, rec, table, Command) && FieldSays(input, rec, table, Target);
    assert FieldSays(input, rec, table, Slug) && FieldSays(input, rec, table, Description);
    assert FieldSays(input, rec, table, Body) && FieldSays(input, rec, table, ValueField);
  }

  method ReadSigned(input: string, node: Node) returns (n: Option<int>)
    requires node.span.offset < |input|
    requires node.kind == SymbolNode ==> node.span.In(input) && node.span.length > 0
    ensures n == if node.kind == SymbolNode then Signed(node.span.Text(input)) else None
  {
    hide *;
    var digits, negative := node.span, false;
    if digits.length > 0 && input[digits.offset] == '-' {
      negative := true;
      digits := Span(digits.offset + 1, digits.length - 1);
    }
    if node.kind == SymbolNode {
      SignedText(input, node.span, digits, negative);
    }
    if node.kind != SymbolNode || digits.length == 0 {
      return None;
    }
    var status, magnitude := ParseUint64(input, digits);
    if status != Ok || magnitude > INT64_MAX {
      return None;
    }
    return Some(if negative then -magnitude else magnitude);
  }

  lemma {:induction false} SignedText(input: string, span: Span, digits: Span, negative: bool)
    requires span.In(input) && span.length > 0 && (negative <==> input[span.offset] == '-')
    requires digits == if negative then Span(span.offset + 1, span.length - 1) else span
    ensures digits.In(input) && (digits.length == 0 ==> Signed(span.Text(input)) == None)
    ensures digits.length > 0 && NumberStatus(digits.Text(input)) != Ok ==> Signed(span.Text(input)) == None
    ensures digits.length > 0 && NumberStatus(digits.Text(input)) == Ok ==>
      var magnitude: int := SexprText.Value(digits.Text(input));
      Signed(span.Text(input)) == if magnitude > INT64_MAX then None else Some(if negative then -magnitude else magnitude)
  {
    hide SexprText.Value, NumberStatus;
    var text := span.Text(input);
    assert digits.Text(input) == if negative then text[1..] else text;
    assert digits.length > 0 ==> |digits.Text(input)| > 0;
  }

  /** The slot is the field's value, if the form is one. */
  predicate ReadsValue(input: string, f: Field, form: Form, slot: Option<Slot>) {
    var value := ValueOf(f, form);
    if value == None then slot == None else slot.Some? && Fits(f, slot.value) && SlotSays(input, slot.value, value.value)
  }

  method ReadUnsigned(input: string, node: Node) returns (n: Option<nat>)
    requires node.kind == SymbolNode ==> node.span.In(input) && node.span.length > 0
    ensures n == if node.kind == SymbolNode then Unsigned(node.span.Text(input)) else None
  {
    hide SexprText.Value, NumberStatus;
    if node.kind != SymbolNode {
      return None;
    }
    var status, value := ParseUint64(input, node.span);
    return if status == Ok then Some(value) else None;
  }

  method ReadNumber(input: string, nodes: seq<Node>, c: nat, f: Field, ghost t: Tree) returns (slot: Option<Slot>)
    requires |nodes| <= INVALID && Stands(nodes, c, t) && TextIn(input, t) && (f == Cost || f == ConfidenceBp)
    ensures ReadsValue(input, f, FormOf(input, t), slot)
  {
    NodeSays(input, nodes, c, t);
    hide Stands, TextIn, FormOf, Unsigned;
    var n := ReadUnsigned(input, nodes[c]);
    if n == None || (f == Cost && n.value == 0) || (f == ConfidenceBp && n.value > 10000) {
      return None;
    }
    return Some(NumberSlot(n.value));
  }

  method KindForName(input: string, name: Span) returns (k: Option<Kind>)
    requires name.In(input)
    ensures k == KindNamed(name.Text(input), KINDS)
  {
    hide KindName;
    assert KINDS[0..] == KINDS;
    for i := 0 to |KINDS|
      invariant KindNamed(name.Text(input), KINDS) == KindNamed(name.Text(input), KINDS[i..])
    {
      if SpanIs(input, name, KindName(KINDS[i])) {
        return Some(KINDS[i]);
      }
      assert KINDS[i..][1..] == KINDS[i + 1..];
    }
    return None;
  }

  method ReadKind(input: string, nodes: seq<Node>, c: nat, ghost t: Tree) returns (slot: Option<Slot>)
    requires |nodes| <= INVALID && Stands(nodes, c, t) && TextIn(input, t)
    ensures ReadsValue(input, KindField, FormOf(input, t), slot)
  {
    NodeSays(input, nodes, c, t);
    hide Stands, TextIn, FormOf, KindNamed;
    if nodes[c].kind != SymbolNode {
      return None;
    }
    var k := KindForName(input, nodes[c].span);
    slot := if k.Some? then Some(KindSlot(k.value)) else None;
  }

  method ReadFlag(input: string, nodes: seq<Node>, c: nat, ghost t: Tree) returns (slot: Option<Slot>)
    requires |nodes| <= INVALID && Stands(nodes, c, t) && TextIn(input, t)
    ensures ReadsValue(input, UsesNetwork, FormOf(input, t), slot)
  {
    NodeSays(input, nodes, c, t);
    hide Stands, TextIn, FormOf;
    if nodes[c].kind != SymbolNode {
      return None;
    }
    if SpanIs(input, nodes[c].span, "true") {
      return Some(FlagSlot(true));
    }
    if SpanIs(input, nodes[c].span, "false") {
      return Some(FlagSlot(false));
    }
    return None;
  }

  lemma SignedReads(input: string, form: Form, n: Option<int>)
    requires n == if form.Word? then Signed(form.text) else None
    ensures ReadsValue(input, ValueField, form, if n.Some? then Some(NumberSlot(n.value)) else None)
  {
    hide Signed;
  }

  method ReadDeviceValue(input: string, nodes: seq<Node>, c: nat, ghost t: Tree) returns (slot: Option<Slot>)
    requires |nodes| <= INVALID && Stands(nodes, c, t) && TextIn(input, t)
    ensures ReadsValue(input, ValueField, FormOf(input, t), slot)
  {
    NodeSays(input, nodes, c, t);
    hide *;
    var n := ReadSigned(input, nodes[c]);
    SignedReads(input, FormOf(input, t), n);
    slot := if n.Some? then Some(NumberSlot(n.value)) else None;
  }

  method ReadText(input: string, nodes: seq<Node>, c: nat, f: Field, ghost t: Tree) returns (slot: Option<Slot>)
    requires |nodes| <= INVALID && Stands(nodes, c, t) && TextIn(input, t) && Textual(f)
    ensures ReadsValue(input, f, FormOf(input, t), slot)
  {
    NodeSays(input, nodes, c, t);
    hide Stands, TextIn, FormOf;
    var payload := PayloadSpan(nodes[c]);
    slot := if payload.Some? then Some(SpanSlot(payload.value)) else None;
  }

  /** The value of a field, from its node. */
  method ReadSlot(input: string, nodes: seq<Node>, c: nat, f: Field, ghost t: Tree) returns (slot: Option<Slot>)
    requires |nodes| <= INVALID && Stands(nodes, c, t) && TextIn(input, t)
    ensures ReadsValue(input, f, FormOf(input, t), slot)
  {
    hide ReadsValue, Stands, TextIn, FormOf;
    match f
    case KindField => slot := ReadKind(input, nodes, c, t);
    case Cost | ConfidenceBp => slot := ReadNumber(input, nodes, c, f, t);
    case ValueField => slot := ReadDeviceValue(input, nodes, c, t);
    case UsesNetwork => slot := ReadFlag(input, nodes, c, t);
    case Capability | Reason | Command | Target | Slug | Description | Body =>
      slot := ReadText(input, nodes, c, f, t);
  }

  /** The field with the name at a span. */
  method FieldForName(input: string, name: Span) returns (f: Option<Field>)
    requires name.In(input)
    ensures f == FieldNamed(name.Text(input), FIELDS)
  {
    hide FieldName;
    assert FIELDS[0..] == FIELDS;
    for i := 0 to |FIELDS|
      invariant FieldNamed(name.Text(input), FIELDS) == FieldNamed(name.Text(input), FIELDS[i..])
    {
      if SpanIs(input, name, FieldName(FIELDS[i])) {
        return Some(FIELDS[i]);
      }
      assert FIELDS[i..][1..] == FIELDS[i + 1..];
    }
    return None;
  }

  /** The name and the value of a field, if it has exactly these two. */
  method FieldParts(input: string, nodes: seq<Node>, c: nat, ghost t: Tree) returns (parts: Option<(Span, nat)>)
    requires |nodes| <= INVALID && Stands(nodes, c, t) && TextIn(input, t)
    ensures parts.Some? <==> Shaped(FormOf(input, t))
    ensures parts.Some? ==>
      && parts.value.0.In(input) && FormOf(input, t).items[0] == Word(parts.value.0.Text(input))
      && |t.items| == 2 && TextIn(input, t.items[1])
      && parts.value.1 < |nodes| && Stands(nodes, parts.value.1, t.items[1])
      && FormOf(input, t).items[1] == FormOf(input, t.items[1])
  {
    NodeSays(input, nodes, c, t);
    hide Stands, FormOf, TextIn;
    if nodes[c].kind != ListNode {
      return None;
    }
    FirstChildren(nodes, c, t);
    var name, value := FirstChild(nodes, c), SecondChild(nodes, c);
    if |t.items| >= 1 {
      ItemSays(input, nodes, c, t, 0, name);
    }
    if |t.items| >= 2 {
      ChildSays(input, nodes, c, t, 1);
    }
    if |t.items| > 2 {
      ChildSays(input, nodes, c, t, 2);
    }
    if name == INVALID || value == INVALID || nodes[value].nextSibling != INVALID || nodes[name].kind != SymbolNode {
      return None;
    }
    return Some((nodes[name].span, value));
  }

  method ReadField(input: string, nodes: seq<Node>, c: nat, seen: set<Field>, rec: Rec, ghost t: Tree, ghost table: Table)
    returns (fault: Option<RejectReason>, seen': set<Field>, rec': Rec)
    requires |nodes| <= INVALID && Stands(nodes, c, t) && TextIn(input, t)
    requires RecSays(input, rec, table) && seen == table.Keys
    ensures var step := CollectStep(table, FormOf(input, t));
            fault == step.fault && RecSays(input, rec', step.table) && (fault == None ==> seen' == step.table.Keys)
  {
    hide Stands, FormOf, TextIn, RecSays, FieldNamed, ValueOf, Assign, Fits, SlotSays;
    seen', rec' := seen, rec;
    var parts := FieldParts(input, nodes, c, t);
    if parts == None {
      return Some(BadSchema), seen, rec;
    }
    var f := FieldForName(input, parts.value.0);
    if f == None {
      return Some(BadSchema), seen, rec;
    }
    if f.value in seen {
      return Some(DuplicateField), seen, rec;
    }
    seen' := seen + {f.value};
    ghost var value := t.items[1];
    var slot := ReadSlot(input, nodes, parts.value.1, f.value, value);
    if slot == None {
      NodeSays(input, nodes, parts.value.1, value);
      var unknown := f.value == KindField && nodes[parts.value.1].kind == SymbolNode;
      return Some(if unknown then UnknownKind else WrongValue), seen, rec;
    }
    AssignSays(input, rec, table, f.value, slot.value, ValueOf(f.value, FormOf(input, value)).value);
    return None, seen', Assign(rec, f.value, slot.value);
  }

  /** The fields of the form at node 0, one after the other. */
  method ReadFields(input: string, nodes: seq<Node>, ghost t: Tree, ghost fields: seq<Form>)
    returns (fault: Option<RejectReason>, seen: set<Field>, rec: Rec)
    requires |nodes| <= INVALID && Stands(nodes, 0, t) && t.List? && t.items != [] && TextIn(input, t)
    requires fields == FormOf(input, t).items[1..]
    ensures var c := Collect(fields);
            fault == c.fault && (fault == None ==> seen == c.table.Keys && RecSays(input, rec, c.table))
  {
    seen, rec := {}, ZERO;
    ghost var table: Table := map[];
    assert fields[..0] == [];
    hide Stands, FormOf, TextIn, RecSays, CollectStep, ChildIndex;
    FirstChildren(nodes, 0, t);
    var field := SecondChild(nodes, 0);
    ghost var k := 0;
    while field != INVALID
      invariant k <= |fields| == |t.items| - 1 && field == ChildIndex(0, t.items, k + 1)
      invariant Collect(fields[..k]) == Collected(table, None) && seen == table.Keys && RecSays(input, rec, table)
      decreases |fields| - k
    {
      ChildIndexEnds(0, t.items, k + 1);
      ChildSays(input, nodes, 0, t, k + 1);
      CollectFront(fields, k, table);
      assert fields[k] == FormOf(input, t.items[k + 1]);
      fault, seen, rec := ReadField(input, nodes, field, seen, rec, t.items[k + 1], table);
      if fault.Some? {
        return;
      }
      table := CollectStep(table, fields[k]).table;
      k := k + 1;
      field := nodes[field].nextSibling;
    }
    if k < |fields| {
      ChildSays(input, nodes, 0, t, k + 1);
    }
    assert fields[..k] == fields;
    fault := None;
  }

  /** One field more; a fault is final. */
  lemma {:induction false} CollectFront(fields: seq<Form>, k: nat, table: Table)
    requires k < |fields| && Collect(fields[..k]) == Collected(table, None)
    ensures Collect(fields[..k + 1]) == CollectStep(table, fields[k])
    ensures CollectStep(table, fields[k]).fault.Some? ==> Collect(fields) == CollectStep(table, fields[k])
  {
    hide CollectStep;
    var next := fields[..k + 1];
    assert next[..k] == fields[..k] && next[k] == fields[k];
    if CollectStep(table, fields[k]).fault.Some? {
      CollectStuck(fields, k + 1);
    }
  }

  lemma {:induction false} CollectStuck(fields: seq<Form>, k: nat)
    requires k <= |fields| && Collect(fields[..k]).fault.Some?
    ensures Collect(fields) == Collect(fields[..k])
    decreases |fields|
  {
    if k == |fields| {
      assert fields[..k] == fields;
    } else {
      assert fields[..|fields| - 1][..k] == fields[..k];
      CollectStuck(fields[..|fields| - 1], k);
    }
  }

  /** The verdict on a parsed reply. */
  predicate Judges(input: string, forms: seq<Form>, verdict: Verdict) {
    match Fault(forms)
    case Some(reason) => verdict == Rejected(reason)
    case None =>
      verdict.Valid? && forms != [] && forms[0].Group? && forms[0].items != []
      && RecSays(input, verdict.rec, Collect(forms[0].items[1..]).table)
  }

  method Judge(input: string, nodes: seq<Node>, ghost forest: seq<Tree>, ghost forms: seq<Form>) returns (verdict: Verdict)
    requires |nodes| <= INVALID && Represents(nodes, forest) && TextInAll(input, forest)
    requires forms == FormsOf(input, forest)
    ensures Judges(input, forms, verdict)
  {
    if |nodes| == 0 {
      return Rejected(Empty);
    }
    RootStands(nodes, forest, 0);
    assert RootIndex(0, forest, 0) == 0;
    ghost var t := forest[0];
    assert forms[0] == FormOf(input, t);
    hide Represents, Stands, TextIn, FormOf, RecSays, Complete, KindRules, Collect;
    verdict := JudgeFirst(input, nodes, t, forms);
  }

  method JudgeFirst(input: string, nodes: seq<Node>, ghost t: Tree, ghost forms: seq<Form>) returns (verdict: Verdict)
    requires 0 < |nodes| <= INVALID && Stands(nodes, 0, t) && TextIn(input, t) && nodes[0].parent == INVALID
    requires forms != [] && forms[0] == FormOf(input, t)
    ensures Judges(input, forms, verdict)
  {
    NodeSays(input, nodes, 0, t);
    hide Stands, TextIn, FormOf, RecSays, Complete, KindRules, Collect, KindFieldsMatch, RequiredFieldsSeen;
    if nodes[0].kind != ListNode || nodes[0].parent != INVALID {
      return Rejected(BadSchema);
    }
    FirstChildren(nodes, 0, t);
    var name := FirstChild(nodes, 0);
    if |t.items| >= 1 {
      ItemSays(input, nodes, 0, t, 0, name);
    }
    if name == INVALID || nodes[name].kind != SymbolNode || !SpanIs(input, nodes[name].span, "recommend") {
      return Rejected(BadSchema);
    }
    var fault, seen, rec := ReadFields(input, nodes, t, forms[0].items[1..]);
    if fault.Some? {
      return Rejected(fault.value);
    }
    KindFieldsMatchMeans(input, rec, Collect(forms[0].items[1..]).table);
    if !RequiredFieldsSeen(seen, rec.kind) {
      return Rejected(MissingField);
    }
    if !KindFieldsMatch(rec) {
      return Rejected(KindMismatch);
    }
    return Valid(rec);
  }

  /** Read a reply. `forest` is what the text reads as, if it reads as anything; a reply that does
      not fit the arrays is the only one with a status of its own. */
  method Parse(input: string, tokens: array<Token>, nodes: array<Node>)
    returns (status: Status, verdict: Verdict, ghost forest: Option<seq<Tree>>)
    requires nodes.Length <= INVALID
    modifies tokens, nodes
    ensures tokens.Length == 0 || nodes.Length == 0 ==> status == InvalidArg && verdict == Rejected(BadSchema)
    ensures tokens.Length > 0 && nodes.Length > 0 ==>
      if TextStatus(input, tokens.Length, nodes.Length) == Ok then forest.Some?
      else if TextStatus(input, tokens.Length, nodes.Length) == Limit then
        forest == None && status == Limit && verdict == Rejected(BadSchema)
      else forest == None && status == Ok && verdict == Rejected(Syntax)
    ensures tokens.Length > 0 && nodes.Length > 0 && forest.Some? ==>
      && Reads(input, tokens.Length, nodes.Length, forest.value)
      && status == Ok && Judges(input, FormsOf(input, forest.value), verdict)
  {
    forest := None;
    if tokens.Length == 0 || nodes.Length == 0 {
      return InvalidArg, Rejected(BadSchema), None;
    }
    hide Represents, Judges, Lex;
    var count;
    ghost var f;
    status, count, f := ParseText(input, tokens, nodes);
    if status == Limit {
      return Limit, Rejected(BadSchema), None;
    }
    if status != Ok {
      return Ok, Rejected(Syntax), None;
    }
    forest := Some(f);
    verdict := Judge(input, nodes[..count], f, FormsOf(input, f));
  }
}
