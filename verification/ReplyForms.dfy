/** Replies in their own words: which forms are a valid recommendation, what is wrong with the others,
    and what the record then holds. */
module ReplyForms {
  import opened Statuses
  import opened SexprLex
  import opened SexprRead
  import opened Recommendation
  import T = SexprText
  import Entries

  // ---- The form of a valid reply --------------------------------------------------------------------

  /** Some field has this name. */
  ghost predicate Has(form: Form, name: string) {
    form.Group? && exists k :: 1 <= k < |form.items| && Headed(form.items[k], name)
  }

  /** Some field gives this name the value. */
  ghost predicate Gives(form: Form, name: string, value: Form) {
    form.Group? && exists k :: 1 <= k < |form.items| && form.items[k] == Group([Word(name), value])
  }

  predicate KindWord(word: string) {
    word in {"simulator", "local_shell", "ssh_auth_probe", "memory_save", "memory_delete", "memory_read",
             "machine_pause_process", "machine_resume_process", "device_write", "finish"}
  }

  predicate TextName(name: string) {
    name in {"capability", "reason", "command", "target", "slug", "description", "body"}
  }

  predicate FieldWord(name: string) {
    TextName(name) || name in {"kind", "cost", "uses_network", "confidence_bp", "value"}
  }

  predicate Magnitude(text: string) {
    text != [] && T.Digits(text) && T.Positional(text) <= 9223372036854775807
  }

  predicate SignedNumber(text: string) {
    Magnitude(text) || (text != [] && text[0] == '-' && Magnitude(text[1..]))
  }

  function SignedValue(text: string): int
    requires SignedNumber(text)
  {
    var magnitude: int := T.Positional(if Magnitude(text) then text else text[1..]);
    if Magnitude(text) then magnitude else -magnitude
  }

  /** A value that may stand behind the name. */
  predicate ValueSpelled(name: string, value: Form) {
    || (value.Quoted? && TextName(name))
    || (value.Word? && name == "kind" && KindWord(value.text))
    || (value.Word? && name == "cost" && T.Number(value.text) && T.Positional(value.text) > 0)
    || (value.Word? && name == "confidence_bp" && T.Number(value.text) && T.Positional(value.text) <= 10000)
    || (value.Word? && name == "uses_network" && (value.text == "true" || value.text == "false"))
    || (value.Word? && name == "value" && SignedNumber(value.text))
  }

  /** A name and one value. */
  predicate Pair(field: Form) {
    field.Group? && |field.items| == 2 && field.items[0].Word?
  }

  predicate FieldSpelled(field: Form) {
    Pair(field) && ValueSpelled(field.items[0].text, field.items[1])
  }

  ghost predicate NoneTwice(form: Form)
    requires form.Group?
  {
    forall name, j, k | FieldWord(name) && 1 <= j < k < |form.items| ::
      !(Headed(form.items[j], name) && Headed(form.items[k], name))
  }

  ghost predicate Filled(form: Form, kind: string) {
    && Has(form, "reason")
    && (kind != "finish" ==>
          Has(form, "capability") && Has(form, "cost") && Has(form, "uses_network") && Has(form, "confidence_bp"))
  }

  predicate ForTarget(kind: string) {
    kind in {"ssh_auth_probe", "machine_pause_process", "machine_resume_process", "device_write"}
  }

  predicate ForMemory(kind: string) {
    kind in {"memory_save", "memory_delete", "memory_read"}
  }

  predicate ForMachine(kind: string) {
    kind in {"machine_pause_process", "machine_resume_process", "device_write"}
  }

  /** What a kind allows and needs. */
  ghost predicate Allowed(form: Form, kind: string) {
    && (Gives(form, "uses_network", Word("true")) ==> kind == "ssh_auth_probe" || kind == "finish")
    && (kind == "ssh_auth_probe" ==> Gives(form, "uses_network", Word("true")))
    && (Has(form, "command") <==> kind == "local_shell")
    && (Has(form, "value") <==> kind == "device_write")
    && (ForTarget(kind) ==> Has(form, "target"))
    && (kind == "local_shell" || ForMemory(kind) || kind == "finish" ==> !Has(form, "target"))
    && (ForMemory(kind) ==> Has(form, "slug"))
    && (ForMachine(kind) || kind == "finish" ==> !Has(form, "slug"))
    && (kind == "memory_save" ==> Has(form, "description") && Has(form, "body"))
    && (kind == "memory_delete" || kind == "memory_read" || ForMachine(kind) || kind == "finish" ==>
          !Has(form, "description") && !Has(form, "body"))
  }

  ghost predicate FieldsSpelled(form: Form) {
    && Headed(form, "recommend") && NoneTwice(form)
    && forall k | 1 <= k < |form.items| :: FieldSpelled(form.items[k])
  }

  /** A valid recommendation of a kind. */
  ghost predicate ReplySpelled(form: Form, kind: string) {
    FieldsSpelled(form) && Gives(form, "kind", Word(kind)) && Filled(form, kind) && Allowed(form, kind)
  }

  // ---- One field --------------------------------------------------------------------------------------

  lemma {:induction false} SignedMeans(text: string)
    ensures Signed(text).Some? <==> SignedNumber(text)
    ensures SignedNumber(text) ==> Signed(text) == Some(SignedValue(text))
  {
    var negative := text != [] && text[0] == '-';
    var digits := if negative then text[1..] else text;
    T.NumberIff(digits);
    hide T.Positional, T.NumberStatus, SexprText.Value;
    assert negative ==> !T.Digits(text);
  }

  lemma {:induction false} UnsignedMeans(text: string)
    ensures Unsigned(text).Some? <==> T.Number(text)
    ensures T.Number(text) ==> Unsigned(text) == Some(T.Positional(text))
  {
    T.NumberIff(text);
    hide T.Positional, T.NumberStatus, SexprText.Value;
  }

  lemma {:induction false} KindMeans(word: string)
    ensures KindNamed(word, KINDS).Some? <==> KindWord(word)
  {
    NamedHasKind(word, KINDS);
    hide KindNamed;
    forall kind: Kind
      ensures KindNamed(word, KINDS) == Some(kind) <==> word == KindName(kind)
    {
      KindNamedIff(word, kind);
    }
    KindWords(word);
    hide KindName, KindWord;
  }

  lemma {:induction false} KindWords(word: string)
    ensures KindWord(word) <==> exists kind: Kind :: KindName(kind) == word
  {
    assert forall kind: Kind :: KindWord(KindName(kind));
    if KindWord(word) {
      var kind := [LocalShell, SshAuthProbe, Simulator, MemorySave, MemoryDelete, MemoryRead, MachinePause,
                   MachineResume, DeviceWrite, Finish];
      assert exists i :: 0 <= i < 10 && KindName(kind[i]) == word by {
        assert KindName(kind[0]) == "local_shell" && KindName(kind[1]) == "ssh_auth_probe";
        assert KindName(kind[2]) == "simulator" && KindName(kind[3]) == "memory_save";
        assert KindName(kind[4]) == "memory_delete" && KindName(kind[5]) == "memory_read";
        assert KindName(kind[6]) == "machine_pause_process" && KindName(kind[7]) == "machine_resume_process";
        assert KindName(kind[8]) == "device_write" && KindName(kind[9]) == "finish";
      }
    }
  }

  lemma {:induction false} FieldWords(word: string)
    ensures FieldWord(word) <==> exists f: Field :: FieldName(f) == word
  {
    assert forall f: Field :: FieldWord(FieldName(f));
    if FieldWord(word) {
      assert FieldName(KindField) == "kind" && FieldName(Capability) == "capability" && FieldName(Cost) == "cost";
      assert FieldName(UsesNetwork) == "uses_network" && FieldName(ConfidenceBp) == "confidence_bp";
      assert FieldName(Reason) == "reason" && FieldName(Command) == "command" && FieldName(Target) == "target";
      assert FieldName(Slug) == "slug" && FieldName(Description) == "description" && FieldName(Body) == "body";
      assert FieldName(ValueField) == "value";
    }
  }

  lemma {:induction false} FieldMeans(name: string)
    ensures FieldNamed(name, FIELDS).Some? <==> FieldWord(name)
  {
    NamedHasName(name, FIELDS);
    hide FieldNamed;
    forall f: Field
      ensures FieldNamed(name, FIELDS) == Some(f) <==> name == FieldName(f)
    {
      FieldNamedIff(name, f);
    }
    FieldWords(name);
    hide FieldName, FieldWord;
  }

  lemma {:induction false} WordMeans(f: Field, text: string)
    ensures WordValue(f, text).Some? <==> ValueSpelled(FieldName(f), Word(text))
  {
    SignedMeans(text);
    UnsignedMeans(text);
    KindMeans(text);
    hide Signed, Unsigned, KindNamed, KindWord, SignedNumber, T.Number, T.Positional, TextName;
  }

  lemma TextNames(f: Field)
    ensures TextName(FieldName(f)) <==> Textual(f)
  {
  }

  /** What may stand behind the name of a field. */
  lemma {:induction false} ValueMeans(f: Field, value: Form)
    ensures ValueOf(f, value).Some? <==> ValueSpelled(FieldName(f), value)
  {
    if value.Word? {
      WordMeans(f, value.text);
    }
    TextNames(f);
    hide WordValue, FieldName, TextName;
  }

  lemma {:induction false} EntryMeans(field: Form)
    ensures EntryOf(field).Sets? <==> FieldSpelled(field)
  {
    if Pair(field) {
      var name := field.items[0].text;
      FieldMeans(name);
      var f := FieldNamed(name, FIELDS);
      if f.Some? {
        FieldNamedIff(name, f.value);
        ValueMeans(f.value, field.items[1]);
      } else {
        NoName(name, field.items[1]);
      }
      hide FieldNamed, ValueOf, ValueSpelled, FieldWord, FieldName;
    }
  }

  lemma NoName(name: string, value: Form)
    requires !FieldWord(name)
    ensures !ValueSpelled(name, value)
  {
  }

  /** A field sets what its name says. */
  lemma {:induction false} EntryNamed(field: Form, f: Field)
    requires FieldSpelled(field)
    ensures EntryOf(field).Sets? && (EntryOf(field).key == f <==> Headed(field, FieldName(f)))
    ensures EntryOf(field).key == f ==> ValueOf(f, field.items[1]) == Some(EntryOf(field).value)
  {
    EntryMeans(field);
    FieldNamedIff(field.items[0].text, f);
    hide FieldNamed, FieldSpelled, ValueOf, FieldName;
  }

  // ---- The table of a spelled form --------------------------------------------------------------------

  /** Fields as the words say. */
  lemma {:induction false} SpelledOk(form: Form)
    requires form.Group? && form.items != []
    ensures Entries.Ok(form.items[1..], EntryOf)
       <==> NoneTwice(form) && forall k | 1 <= k < |form.items| :: FieldSpelled(form.items[k])
  {
    var fields := form.items[1..];
    forall k | 1 <= k < |form.items|
      ensures fields[k - 1] == form.items[k] && form.items[k] in fields
      ensures EntryOf(form.items[k]).Sets? <==> FieldSpelled(form.items[k])
    {
      EntryMeans(form.items[k]);
    }
    hide EntryOf, FieldSpelled, NoneTwice;
    if forall k | 1 <= k < |form.items| :: FieldSpelled(form.items[k]) {
      OnceMeans(form);
      forall x | x in fields
        ensures EntryOf(x).Sets?
      {
        var i :| 0 <= i < |fields| && fields[i] == x;
        assert FieldSpelled(form.items[i + 1]);
      }
    } else {
      var k :| 1 <= k < |form.items| && !FieldSpelled(form.items[k]);
      assert !EntryOf(form.items[k]).Sets?;
    }
  }

  lemma {:induction false} OnceMeans(form: Form)
    requires form.Group? && form.items != [] && forall k | 1 <= k < |form.items| :: FieldSpelled(form.items[k])
    ensures NoneTwice(form) <==>
      forall i, j | 0 <= i < j < |form.items[1..]| ::
        EntryOf(form.items[1..][i]).Sets? && EntryOf(form.items[1..][j]).Sets? ==>
          EntryOf(form.items[1..][i]).key != EntryOf(form.items[1..][j]).key
  {
    var fields := form.items[1..];
    forall k, f: Field | 1 <= k < |form.items|
      ensures EntryOf(form.items[k]).Sets? && (EntryOf(form.items[k]).key == f <==> Headed(form.items[k], FieldName(f)))
    {
      assert FieldSpelled(form.items[k]);
      EntryNamed(form.items[k], f);
    }
    hide EntryOf, FieldSpelled, FieldName, FieldWord, Headed;
    if NoneTwice(form) {
      forall i, j | 0 <= i < j < |fields|
        ensures EntryOf(fields[i]).key != EntryOf(fields[j]).key
      {
        assert fields[i] == form.items[i + 1] && fields[j] == form.items[j + 1];
        FieldWords(FieldName(EntryOf(fields[i]).key));
      }
    } else {
      var name, j, k :| FieldWord(name) && 1 <= j < k < |form.items|
                        && Headed(form.items[j], name) && Headed(form.items[k], name);
      FieldWords(name);
      var f: Field :| FieldName(f) == name;
      assert fields[j - 1] == form.items[j] && fields[k - 1] == form.items[k];
    }
  }

  ghost predicate IsTable(form: Form, table: Table) {
    form.Group? && form.items != [] && Entries.IsTable(form.items[1..], EntryOf, table)
  }

  lemma {:induction false} FieldSets(form: Form, table: Table, f: Field, k: nat)
    requires FieldsSpelled(form) && IsTable(form, table) && 1 <= k < |form.items| && Headed(form.items[k], FieldName(f))
    ensures f in table && Pair(form.items[k]) && ValueOf(f, form.items[k].items[1]) == Some(table[f])
  {
    assert form.items[1..][k - 1] == form.items[k];
    assert FieldSpelled(form.items[k]);
    EntryNamed(form.items[k], f);
    hide EntryOf, ValueOf, FieldName, Entries.Ok, NoneTwice;
  }

  lemma {:induction false} FieldStands(form: Form, table: Table, f: Field) returns (k: nat)
    requires FieldsSpelled(form) && IsTable(form, table) && f in table
    ensures 1 <= k < |form.items| && Pair(form.items[k]) && Headed(form.items[k], FieldName(f))
    ensures ValueOf(f, form.items[k].items[1]) == Some(table[f])
  {
    hide EntryOf, ValueOf, FieldName, NoneTwice, Entries.Ok, FieldSpelled;
    k := FieldSetsIt(form, table, f);
    var field := form.items[k];
    assert FieldSpelled(field);
    EntryNamed(field, f);
    FieldSets(form, table, f, k);
  }

  lemma {:induction false} FieldSetsIt(form: Form, table: Table, f: Field) returns (k: nat)
    requires IsTable(form, table) && f in table
    ensures 1 <= k < |form.items| && EntryOf(form.items[k]).Sets? && EntryOf(form.items[k]).key == f
  {
    var fields := form.items[1..];
    hide EntryOf;
    Entries.TableHas(fields, EntryOf, table, f);
    hide Entries.Ok, Entries.IsTable;
    var x :| x in fields && EntryOf(x).Sets? && EntryOf(x).key == f;
    var i :| 0 <= i < |fields| && fields[i] == x;
    k := i + 1;
  }

  lemma {:induction false} FieldGives(form: Form, table: Table, f: Field) returns (value: Form)
    requires FieldsSpelled(form) && IsTable(form, table) && f in table
    ensures Gives(form, FieldName(f), value) && ValueOf(f, value) == Some(table[f])
  {
    hide ValueOf, FieldName, Entries.IsTable;
    var k := FieldStands(form, table, f);
    hide FieldsSpelled, IsTable;
    var field := form.items[k];
    value := field.items[1];
    assert field.items == [field.items[0], value];
    assert form.items[k] == Group([Word(FieldName(f)), value]);
  }

  lemma {:induction false} GivesHas(form: Form, name: string, value: Form)
    requires Gives(form, name, value)
    ensures Has(form, name)
  {
    var k :| 1 <= k < |form.items| && form.items[k] == Group([Word(name), value]);
    assert Headed(form.items[k], name);
  }

  /** A field is in the table exactly when its name is in the form, with the value that stands there. */
  lemma {:induction false} InTable(form: Form, table: Table, f: Field)
    requires FieldsSpelled(form) && IsTable(form, table)
    ensures f in table <==> Has(form, FieldName(f))
    ensures f in table ==> exists value :: Gives(form, FieldName(f), value) && ValueOf(f, value) == Some(table[f])
  {
    assert form.Group?;
    hide FieldsSpelled, IsTable, ValueOf, FieldName;
    if f in table {
      var value := FieldGives(form, table, f);
      GivesHas(form, FieldName(f), value);
    }
    if Has(form, FieldName(f)) {
      var k :| 1 <= k < |form.items| && Headed(form.items[k], FieldName(f));
      FieldSets(form, table, f, k);
    }
  }

  lemma {:induction false} GivenIs(form: Form, table: Table, f: Field, value: Form)
    requires FieldsSpelled(form) && IsTable(form, table) && Gives(form, FieldName(f), value)
    ensures f in table && ValueOf(f, value) == Some(table[f])
  {
    hide FieldsSpelled, IsTable, ValueOf, FieldName;
    var k :| 1 <= k < |form.items| && form.items[k] == Group([Word(FieldName(f)), value]);
    FieldSets(form, table, f, k);
    assert form.items[k].items[1] == value;
  }

  lemma {:induction false} KindValue(value: Form, said: Value)
    requires ValueOf(KindField, value) == Some(said)
    ensures said.KindIs? && value == Word(KindName(said.kind))
    ensures KindNamed(KindName(said.kind), KINDS) == Some(said.kind)
  {
    NamedHasKind(value.text, KINDS);
    hide KindName, KindNamed;
  }

  lemma {:induction false} FlagValue(value: Form, said: Value)
    requires ValueOf(UsesNetwork, value) == Some(said)
    ensures said.FlagIs? && (said.flag <==> value == Word("true"))
  {
  }

  lemma {:induction false} KindInTable(form: Form, table: Table, kind: Kind)
    requires FieldsSpelled(form) && IsTable(form, table)
    ensures Gives(form, "kind", Word(KindName(kind))) <==> KindField in table && KindIn(table) == kind
  {
    InTable(form, table, KindField);
    KindNamedIff(KindName(kind), kind);
    assert FieldName(KindField) == "kind";
    hide FieldsSpelled, IsTable, Gives, KindName, KindNamed, ValueOf, FieldName;
    if Gives(form, "kind", Word(KindName(kind))) {
      GivenIs(form, table, KindField, Word(KindName(kind)));
      KindValue(Word(KindName(kind)), table[KindField]);
    }
    if KindField in table && KindIn(table) == kind {
      var value :| Gives(form, FieldName(KindField), value) && ValueOf(KindField, value) == Some(table[KindField]);
      KindValue(value, table[KindField]);
    }
  }

  lemma {:induction false} NetworkInTable(form: Form, table: Table)
    requires FieldsSpelled(form) && IsTable(form, table)
    ensures Gives(form, "uses_network", Word("true")) <==> NetworkIn(table)
  {
    InTable(form, table, UsesNetwork);
    assert FieldName(UsesNetwork) == "uses_network";
    hide FieldsSpelled, IsTable, Gives, ValueOf, FieldName;
    if Gives(form, "uses_network", Word("true")) {
      GivenIs(form, table, UsesNetwork, Word("true"));
      FlagValue(Word("true"), table[UsesNetwork]);
    }
    if NetworkIn(table) {
      var value :| Gives(form, FieldName(UsesNetwork), value) && ValueOf(UsesNetwork, value) == Some(table[UsesNetwork]);
      FlagValue(value, table[UsesNetwork]);
    }
  }

  lemma KindsAre(kind: Kind)
    ensures KindName(kind) == "finish" <==> kind == Finish
    ensures KindName(kind) == "local_shell" <==> kind == LocalShell
    ensures KindName(kind) == "ssh_auth_probe" <==> kind == SshAuthProbe
    ensures KindName(kind) == "device_write" <==> kind == DeviceWrite
    ensures KindName(kind) == "memory_save" <==> kind == MemorySave
    ensures KindName(kind) == "memory_delete" <==> kind == MemoryDelete
    ensures KindName(kind) == "memory_read" <==> kind == MemoryRead
    ensures KindName(kind) == "machine_pause_process" <==> kind == MachinePause
    ensures KindName(kind) == "machine_resume_process" <==> kind == MachineResume
  {
  }

  lemma {:induction false} FieldsIn(form: Form, table: Table)
    requires FieldsSpelled(form) && IsTable(form, table)
    ensures (Reason in table <==> Has(form, "reason")) && (Capability in table <==> Has(form, "capability"))
    ensures (Cost in table <==> Has(form, "cost")) && (UsesNetwork in table <==> Has(form, "uses_network"))
    ensures (ConfidenceBp in table <==> Has(form, "confidence_bp")) && (Command in table <==> Has(form, "command"))
    ensures (Target in table <==> Has(form, "target")) && (Slug in table <==> Has(form, "slug"))
    ensures (Description in table <==> Has(form, "description")) && (Body in table <==> Has(form, "body"))
    ensures ValueField in table <==> Has(form, "value")
  {
    hide FieldsSpelled, IsTable, Gives, Has, ValueOf;
    InTable(form, table, Reason);
    InTable(form, table, Capability);
    InTable(form, table, Cost);
    InTable(form, table, UsesNetwork);
    InTable(form, table, ConfidenceBp);
    InTable(form, table, Command);
    InTable(form, table, Target);
    InTable(form, table, Slug);
    InTable(form, table, Description);
    InTable(form, table, Body);
    InTable(form, table, ValueField);
  }

  lemma KindsFor(kind: Kind)
    ensures ForTarget(KindName(kind))
       <==> kind == SshAuthProbe || kind == MachinePause || kind == MachineResume || kind == DeviceWrite
    ensures ForMemory(KindName(kind)) <==> kind == MemorySave || kind == MemoryDelete || kind == MemoryRead
    ensures ForMachine(KindName(kind)) <==> kind == MachinePause || kind == MachineResume || kind == DeviceWrite
  {
  }

  lemma CompleteMeans(table: Table)
    ensures Complete(table) <==>
      && KindField in table && Reason in table
      && (KindIn(table) != Finish ==>
            Capability in table && Cost in table && UsesNetwork in table && ConfidenceBp in table)
  {
    hide KindIn;
  }

  lemma {:induction false} RulesMean(table: Table, kind: Kind)
    requires kind == KindIn(table)
    ensures KindRules(table) <==>
      && (NetworkIn(table) ==> kind == SshAuthProbe || kind == Finish) && (kind == SshAuthProbe ==> NetworkIn(table))
      && (Command in table <==> kind == LocalShell) && (ValueField in table <==> kind == DeviceWrite)
      && TextRules(table, kind)
  {
    hide NetworkIn, KindIn;
    match kind
    case _ =>
  }

  predicate TextRules(table: Table, kind: Kind) {
    match kind
    case Simulator => true
    case LocalShell => Target !in table
    case SshAuthProbe => Target in table
    case MemorySave => Target !in table && Slug in table && Description in table && Body in table
    case MemoryDelete | MemoryRead => Target !in table && Slug in table && Description !in table && Body !in table
    case MachinePause | MachineResume | DeviceWrite =>
      Target in table && Slug !in table && Description !in table && Body !in table
    case Finish => Target !in table && Slug !in table && Description !in table && Body !in table
  }

  lemma {:induction false} RulesAre(form: Form, table: Table)
    requires FieldsSpelled(form) && IsTable(form, table) && KindField in table
    ensures Filled(form, KindName(KindIn(table))) <==> Complete(table)
    ensures Allowed(form, KindName(KindIn(table))) <==> KindRules(table)
  {
    KindsAre(KindIn(table));
    KindsFor(KindIn(table));
    FieldsIn(form, table);
    NetworkInTable(form, table);
    CompleteMeans(table);
    RulesMean(table, KindIn(table));
    hide FieldsSpelled, IsTable, Gives, Has, KindIn, NetworkIn, KindName, Complete, KindRules;
    hide ForTarget, ForMemory, ForMachine;
  }

  // ---- Valid replies, and the others -------------------------------------------------------------------

  /** A reply says something exactly when its first form is spelled so, with the kind that it names. */
  lemma {:induction false} ValidIsSpelled(forms: seq<Form>, table: Table)
    requires Says(forms, table)
    ensures ReplySpelled(forms[0], KindName(KindIn(table)))
  {
    var form := forms[0];
    SpelledOk(form);
    hide Complete, KindRules, Entries.IsTable, EntryOf, NoneTwice, FieldSpelled, KindIn, KindName, Filled, Allowed;
    assert Entries.Ok(form.items[1..], EntryOf) by {
      TableIsOk(form.items[1..], table);
    }
    assert FieldsSpelled(form) && IsTable(form, table);
    assert KindField in table by {
      CompleteHasKind(table);
    }
    KindInTable(form, table, KindIn(table));
    RulesAre(form, table);
  }

  lemma CompleteHasKind(table: Table)
    requires Complete(table)
    ensures KindField in table
  {
  }

  lemma {:induction false} SpelledIsValid(forms: seq<Form>, kind: string) returns (table: Table)
    requires forms != [] && ReplySpelled(forms[0], kind)
    ensures Says(forms, table)
  {
    var form := forms[0];
    var fields := form.items[1..];
    SpelledOk(form);
    CollectMeans(fields);
    hide Complete, KindRules, EntryOf, NoneTwice, FieldSpelled, KindIn, KindName, Filled, Allowed;
    hide Entries.IsTable, Entries.Ok, Collect;
    table := Collect(fields).table;
    InTable(form, table, KindField);
    var k :| 1 <= k < |form.items| && form.items[k] == Group([Word("kind"), Word(kind)]);
    assert Headed(form.items[k], "kind");
    KindOfGiven(form, table, kind);
    RulesAre(form, table);
  }

  lemma {:induction false} KindOfGiven(form: Form, table: Table, kind: string)
    requires FieldsSpelled(form) && IsTable(form, table) && Gives(form, "kind", Word(kind))
    ensures KindField in table && KindName(KindIn(table)) == kind
  {
    hide FieldsSpelled, IsTable, Gives, KindNamed;
    GivenIs(form, table, KindField, Word(kind));
    NamedHasKind(kind, KINDS);
  }

  /** The code takes a reply as valid exactly when its first form is spelled as a recommendation of some kind. */
  lemma {:induction false} ValidIff(forms: seq<Form>)
    ensures Fault(forms) == None <==> forms != [] && exists kind :: ReplySpelled(forms[0], kind)
  {
    hide Fault, ReplySpelled, Says, KindName, KindIn;
    ValidMeans(forms);
    if Fault(forms) == None {
      var table :| Says(forms, table);
      SaysForms(forms, table);
      ValidIsSpelled(forms, table);
    }
    if forms != [] && exists kind :: ReplySpelled(forms[0], kind) {
      var kind :| ReplySpelled(forms[0], kind);
      var table := SpelledIsValid(forms, kind);
    }
  }

  lemma SaysForms(forms: seq<Form>, table: Table)
    requires Says(forms, table)
    ensures forms != []
  {
    hide Complete, KindRules, Entries.IsTable;
  }

  // ---- What is wrong with the others -------------------------------------------------------------------

  /** The fields in front of field k. */
  function Front(form: Form, k: nat): Form
    requires form.Group? && k <= |form.items|
  {
    Group(form.items[..k])
  }

  /** Field k is the first that is wrong: it is not spelled as a field, or has the name of one before it. */
  ghost predicate FirstWrong(form: Form, k: nat) {
    form.Group? && 1 <= k < |form.items| && FieldsSpelled(Front(form, k)) && !FieldsSpelled(Front(form, k + 1))
  }

  /** Why field k is wrong. */
  ghost function WrongReason(form: Form, k: nat): RejectReason
    requires form.Group? && k < |form.items|
  {
    var field := form.items[k];
    if !Pair(field) || !FieldWord(field.items[0].text) then BadSchema
    else if Has(Front(form, k), field.items[0].text) then DuplicateField
    else if field.items[0] == Word("kind") && field.items[1].Word? then UnknownKind
    else WrongValue
  }

  lemma {:induction false} FrontCollected(form: Form, k: nat)
    requires form.Group? && 1 <= k <= |form.items| && FieldsSpelled(Front(form, k))
    ensures Collect(form.items[1..k]).fault == None && IsTable(Front(form, k), Collect(form.items[1..k]).table)
  {
    var front := Front(form, k);
    assert front.items[1..] == form.items[1..k];
    SpelledOk(front);
    CollectMeans(form.items[1..k]);
    hide Entries.Ok, Entries.IsTable, NoneTwice, FieldSpelled, Collect;
  }

  lemma {:induction false} StepWrong(front: Form, table: Table, field: Form)
    requires FieldsSpelled(front) && IsTable(front, table)
    ensures CollectStep(table, field).fault ==
      if !Pair(field) || !FieldWord(field.items[0].text) then Some(BadSchema)
      else if Has(front, field.items[0].text) then Some(DuplicateField)
      else if ValueSpelled(field.items[0].text, field.items[1]) then None
      else if field.items[0] == Word("kind") && field.items[1].Word? then Some(UnknownKind)
      else Some(WrongValue)
  {
    if Pair(field) {
      var name := field.items[0].text;
      FieldMeans(name);
      NamedHasName(name, FIELDS);
      var f := FieldNamed(name, FIELDS);
      if f.Some? {
        InTable(front, table, f.value);
        ValueMeans(f.value, field.items[1]);
        KindFieldName(f.value);
      }
      hide FieldNamed, ValueOf, ValueSpelled, FieldWord, FieldName, FieldsSpelled, IsTable, Has, Gives;
    }
  }

  lemma KindFieldName(f: Field)
    ensures FieldName(f) == "kind" <==> f == KindField
  {
  }

  /** One more field that is right. */
  lemma {:induction false} OneFieldMore(front: Form, field: Form)
    requires FieldsSpelled(front)
    ensures FieldSpelled(field) && !Has(front, field.items[0].text) ==> FieldsSpelled(Group(front.items + [field]))
  {
    var next := Group(front.items + [field]);
    hide FieldWord, ValueSpelled;
    forall i | 0 <= i < |front.items|
      ensures next.items[i] == front.items[i]
    {
    }
    assert next.items[|front.items|] == field && Headed(next, "recommend");
    forall i | 1 <= i < |front.items|
      ensures FieldSpelled(next.items[i])
    {
      assert FieldSpelled(front.items[i]);
    }
    hide FieldSpelled;
    forall other, i, j | FieldWord(other) && 1 <= i < j < |front.items|
      ensures !(Headed(next.items[i], other) && Headed(next.items[j], other))
    {
      assert Headed(next.items[i], other) == Headed(front.items[i], other);
    }
    forall other, i | 1 <= i < |front.items| && Headed(next.items[i], other)
      ensures Has(front, other)
    {
      assert Headed(front.items[i], other);
    }
    forall other | Headed(field, other)
      ensures FieldSpelled(field) ==> other == field.items[0].text
    {
    }
  }

  lemma {:induction false} WrongIsSo(form: Form, k: nat)
    requires FirstWrong(form, k) && Pair(form.items[k]) && FieldWord(form.items[k].items[0].text)
    requires !Has(Front(form, k), form.items[k].items[0].text)
    ensures !ValueSpelled(form.items[k].items[0].text, form.items[k].items[1])
  {
    hide FieldsSpelled, Has, FieldWord, ValueSpelled;
    OneFieldMore(Front(form, k), form.items[k]);
    assert Front(form, k + 1).items == Front(form, k).items + [form.items[k]];
  }

  /** The first wrong field decides. */
  lemma {:induction false} FirstWrongDecides(forms: seq<Form>, k: nat)
    requires forms != [] && FirstWrong(forms[0], k)
    ensures Fault(forms) == Some(WrongReason(forms[0], k))
  {
    var form := forms[0];
    var fields := form.items[1..];
    FrontCollected(form, k);
    var front, table := Front(form, k), Collect(form.items[1..k]).table;
    assert fields[..k - 1] == form.items[1..k] && fields[k - 1] == form.items[k];
    assert IsRecommend(form) by {
      assert form.items[0] == front.items[0];
    }
    StepWrong(front, table, form.items[k]);
    if Pair(form.items[k]) && FieldWord(form.items[k].items[0].text) && !Has(front, form.items[k].items[0].text) {
      WrongIsSo(form, k);
    }
    hide FirstWrong, FieldsSpelled, IsTable, Has, FieldWord, ValueSpelled, CollectStep, Collect, Complete, KindRules;
    CollectFront(fields, k - 1, table);
  }

  /** With every field right, the reason is a missing field or a rule of the kind. */
  lemma {:induction false} RulesDecide(forms: seq<Form>, kind: string)
    requires forms != [] && FieldsSpelled(forms[0]) && Gives(forms[0], "kind", Word(kind))
    ensures Fault(forms) == if !Filled(forms[0], kind) then Some(MissingField)
                            else if !Allowed(forms[0], kind) then Some(KindMismatch)
                            else None
  {
    var form := forms[0];
    FrontCollected(Front(form, |form.items|), |form.items|);
    assert form.items[..|form.items|] == form.items;
    var table := Collect(form.items[1..]).table;
    KindOfGiven(form, table, kind);
    RulesAre(form, table);
    assert IsRecommend(form);
    hide FieldsSpelled, IsTable, Gives, Filled, Allowed, Complete, KindRules, KindIn, KindName, Collect;
  }

  lemma {:induction false} NeverEmpty(fields: seq<Form>)
    ensures Collect(fields).fault != Some(Empty)
  {
    if fields != [] {
      NeverEmpty(fields[..|fields| - 1]);
      hide FieldNamed, ValueOf;
    }
  }

  /** A reply without a form is empty, and a form of another name is no recommendation. */
  lemma {:induction false} OtherFaults(forms: seq<Form>)
    ensures Fault(forms) == Some(Empty) <==> forms == []
    ensures forms != [] && !Headed(forms[0], "recommend") ==> Fault(forms) == Some(BadSchema)
    ensures forms != [] && FieldsSpelled(forms[0]) && !Has(forms[0], "kind") ==> Fault(forms) == Some(MissingField)
  {
    if forms != [] && IsRecommend(forms[0]) {
      NeverEmpty(forms[0].items[1..]);
    }
    hide Complete, KindRules, Collect;
    if forms != [] && FieldsSpelled(forms[0]) && !Has(forms[0], "kind") {
      var form := forms[0];
      assert form.items[..|form.items|] == form.items;
      FrontCollected(form, |form.items|);
      InTable(form, Collect(form.items[1..]).table, KindField);
      NoKind(Collect(form.items[1..]).table);
    }
  }

  lemma NoKind(table: Table)
    requires KindField !in table
    ensures !Complete(table)
  {
  }

  // ---- What the record then holds -----------------------------------------------------------------------

  /** The option is the text of the field of this name, if there is one. */
  ghost predicate IsText(input: string, option: Option<Span>, form: Form, name: string) {
    if option.Some? then option.value.In(input) && Gives(form, name, Quoted(option.value.Text(input)))
    else !Has(form, name)
  }

  /** The span is the text of the field of this name, and empty without one. */
  ghost predicate IsSpan(input: string, span: Span, form: Form, name: string) {
    || (span.In(input) && Gives(form, name, Quoted(span.Text(input))))
    || (!Has(form, name) && span == Span(0, 0))
  }

  /** The number is that of the field of this name, and 0 without one. */
  ghost predicate IsNumber(n: int, form: Form, name: string) {
    || (exists text :: Gives(form, name, Word(text)) && T.Number(text) && n == T.Positional(text))
    || (!Has(form, name) && n == 0)
  }

  ghost predicate IsValue(option: Option<int>, form: Form) {
    if option.Some? then
      exists text :: Gives(form, "value", Word(text)) && SignedNumber(text) && option.value == SignedValue(text)
    else !Has(form, "value")
  }

  ghost predicate IsKind(kind: Kind, form: Form) {
    && (kind == LocalShell <==> Gives(form, "kind", Word("local_shell")))
    && (kind == SshAuthProbe <==> Gives(form, "kind", Word("ssh_auth_probe")))
    && (kind == Simulator <==> Gives(form, "kind", Word("simulator")))
    && (kind == MemorySave <==> Gives(form, "kind", Word("memory_save")))
    && (kind == MemoryDelete <==> Gives(form, "kind", Word("memory_delete")))
    && (kind == MemoryRead <==> Gives(form, "kind", Word("memory_read")))
    && (kind == MachinePause <==> Gives(form, "kind", Word("machine_pause_process")))
    && (kind == MachineResume <==> Gives(form, "kind", Word("machine_resume_process")))
    && (kind == DeviceWrite <==> Gives(form, "kind", Word("device_write")))
    && (kind == Finish <==> Gives(form, "kind", Word("finish")))
  }

  /** The record holds what the form says, word for word. */
  ghost predicate SaysForm(input: string, rec: Rec, form: Form) {
    && IsKind(rec.kind, form) && (rec.usesNetwork <==> Gives(form, "uses_network", Word("true")))
    && IsSpan(input, rec.capability, form, "capability") && IsSpan(input, rec.reason, form, "reason")
    && IsNumber(rec.cost, form, "cost") && IsNumber(rec.confidenceBp, form, "confidence_bp")
    && IsText(input, rec.command, form, "command") && IsText(input, rec.target, form, "target")
    && IsText(input, rec.slug, form, "slug") && IsText(input, rec.description, form, "description")
    && IsText(input, rec.body, form, "body") && IsValue(rec.deviceValue, form)
  }

  lemma {:induction false} TextIs(input: string, option: Option<Span>, form: Form, table: Table, f: Field)
    requires FieldsSpelled(form) && IsTable(form, table) && Textual(f) && OptionField(input, table, f, option)
    ensures IsText(input, option, form, FieldName(f))
  {
    InTable(form, table, f);
    hide FieldsSpelled, IsTable, Gives, Has, FieldName;
    if f in table {
      var value :| Gives(form, FieldName(f), value) && ValueOf(f, value) == Some(table[f]);
      TextValue(f, value, table[f]);
    }
  }

  lemma TextValue(f: Field, value: Form, said: Value)
    requires ValueOf(f, value) == Some(said) && Textual(f)
    ensures said.TextIs? && value == Quoted(said.text)
  {
  }

  lemma {:induction false} SpanIs(input: string, span: Span, form: Form, table: Table, f: Field)
    requires FieldsSpelled(form) && IsTable(form, table) && Textual(f) && SpanField(input, table, f, span)
    ensures IsSpan(input, span, form, FieldName(f))
  {
    InTable(form, table, f);
    hide FieldsSpelled, IsTable, Gives, Has, FieldName;
    if f in table {
      var value :| Gives(form, FieldName(f), value) && ValueOf(f, value) == Some(table[f]);
      TextValue(f, value, table[f]);
    }
  }

  lemma {:induction false} NumberIs(n: int, form: Form, table: Table, f: Field)
    requires FieldsSpelled(form) && IsTable(form, table) && (f == Cost || f == ConfidenceBp) && NumberField(table, f, n)
    ensures IsNumber(n, form, FieldName(f))
  {
    InTable(form, table, f);
    hide FieldsSpelled, IsTable, Gives, Has, FieldName;
    if f in table {
      var value :| Gives(form, FieldName(f), value) && ValueOf(f, value) == Some(table[f]);
      NumberValue(f, value, n);
    }
  }

  lemma {:induction false} NumberValue(f: Field, value: Form, n: int)
    requires (f == Cost || f == ConfidenceBp) && ValueOf(f, value) == Some(Value.NumberIs(n))
    ensures value.Word? && T.Number(value.text) && n == T.Positional(value.text)
  {
    UnsignedMeans(value.text);
    hide T.Number, T.Positional;
  }

  lemma {:induction false} DeviceValueIs(option: Option<int>, form: Form, table: Table)
    requires FieldsSpelled(form) && IsTable(form, table)
    requires if ValueField in table then option.Some? && table[ValueField] == Value.NumberIs(option.value) else option == None
    ensures IsValue(option, form)
  {
    InTable(form, table, ValueField);
    hide FieldsSpelled, IsTable, Gives, Has;
    if ValueField in table {
      var value :| Gives(form, "value", value) && ValueOf(ValueField, value) == Some(table[ValueField]);
      SignedMeans(value.text);
      hide SignedNumber, SignedValue;
    }
  }

  lemma {:induction false} KindIs(form: Form, table: Table)
    requires FieldsSpelled(form) && IsTable(form, table) && KindField in table
    ensures IsKind(KindIn(table), form)
  {
    hide FieldsSpelled, IsTable, Gives, KindIn;
    KindInTable(form, table, LocalShell);
    KindInTable(form, table, SshAuthProbe);
    KindInTable(form, table, Simulator);
    KindInTable(form, table, MemorySave);
    KindInTable(form, table, MemoryDelete);
    KindInTable(form, table, MemoryRead);
    KindInTable(form, table, MachinePause);
    KindInTable(form, table, MachineResume);
    KindInTable(form, table, DeviceWrite);
    KindInTable(form, table, Finish);
  }

  lemma {:induction false} RecFields(input: string, rec: Rec, table: Table)
    requires RecSays(input, rec, table)
    ensures rec.kind == KindIn(table) && rec.usesNetwork == NetworkIn(table)
    ensures SpanField(input, table, Capability, rec.capability) && SpanField(input, table, Reason, rec.reason)
    ensures NumberField(table, Cost, rec.cost) && NumberField(table, ConfidenceBp, rec.confidenceBp)
    ensures OptionField(input, table, Command, rec.command) && OptionField(input, table, Target, rec.target)
    ensures OptionField(input, table, Slug, rec.slug) && OptionField(input, table, Description, rec.description)
    ensures OptionField(input, table, Body, rec.body)
    ensures if ValueField in table then
              rec.deviceValue.Some? && table[ValueField] == Value.NumberIs(rec.deviceValue.value)
            else rec.deviceValue == None
  {
    assert FieldSays(input, rec, table, KindField) && FieldSays(input, rec, table, UsesNetwork);
    assert FieldSays(input, rec, table, Capability) && FieldSays(input, rec, table, Reason);
    assert FieldSays(input, rec, table, Cost) && FieldSays(input, rec, table, ConfidenceBp);
    assert FieldSays(input, rec, table, Command) && FieldSays(input, rec, table, Target);
    assert FieldSays(input, rec, table, Slug) && FieldSays(input, rec, table, Description);
    assert FieldSays(input, rec, table, Body) && FieldSays(input, rec, table, ValueField);
    hide KindIn, NetworkIn, SpanField, NumberField, OptionField;
  }

  lemma {:induction false} TextsAre(input: string, rec: Rec, form: Form, table: Table)
    requires FieldsSpelled(form) && IsTable(form, table)
    requires OptionField(input, table, Command, rec.command) && OptionField(input, table, Target, rec.target)
    requires OptionField(input, table, Slug, rec.slug) && OptionField(input, table, Description, rec.description)
    requires OptionField(input, table, Body, rec.body)
    ensures IsText(input, rec.command, form, "command") && IsText(input, rec.target, form, "target")
    ensures IsText(input, rec.slug, form, "slug") && IsText(input, rec.description, form, "description")
    ensures IsText(input, rec.body, form, "body")
  {
    hide FieldsSpelled, IsTable, OptionField, IsText;
    TextIs(input, rec.command, form, table, Command);
    TextIs(input, rec.target, form, table, Target);
    TextIs(input, rec.slug, form, table, Slug);
    TextIs(input, rec.description, form, table, Description);
    TextIs(input, rec.body, form, table, Body);
  }

  lemma {:induction false} CommonAre(input: string, rec: Rec, form: Form, table: Table)
    requires FieldsSpelled(form) && IsTable(form, table)
    requires SpanField(input, table, Capability, rec.capability) && SpanField(input, table, Reason, rec.reason)
    requires NumberField(table, Cost, rec.cost) && NumberField(table, ConfidenceBp, rec.confidenceBp)
    ensures IsSpan(input, rec.capability, form, "capability") && IsSpan(input, rec.reason, form, "reason")
    ensures IsNumber(rec.cost, form, "cost") && IsNumber(rec.confidenceBp, form, "confidence_bp")
  {
    hide FieldsSpelled, IsTable, SpanField, NumberField, IsSpan, IsNumber;
    SpanIs(input, rec.capability, form, table, Capability);
    SpanIs(input, rec.reason, form, table, Reason);
    NumberIs(rec.cost, form, table, Cost);
    NumberIs(rec.confidenceBp, form, table, ConfidenceBp);
  }

  lemma {:induction false} RecSaysForm(input: string, rec: Rec, form: Form, table: Table)
    requires FieldsSpelled(form) && IsTable(form, table) && KindField in table && RecSays(input, rec, table)
    ensures SaysForm(input, rec, form)
  {
    RecFields(input, rec, table);
    KindIs(form, table);
    NetworkInTable(form, table);
    CommonAre(input, rec, form, table);
    TextsAre(input, rec, form, table);
    DeviceValueIs(rec.deviceValue, form, table);
    hide RecSays, FieldSays, FieldsSpelled, IsTable, KindIn, NetworkIn, SpanField, OptionField, NumberField;
    hide IsKind, IsText, IsSpan, IsNumber, IsValue, Gives;
  }

  /** A reply that was judged is valid exactly when its first form is spelled as a recommendation, and the
      record is then what that form says. */
  lemma {:induction false} JudgedInWords(input: string, forms: seq<Form>, verdict: Verdict)
    requires Judges(input, forms, verdict)
    ensures verdict.Valid? <==> forms != [] && exists kind :: ReplySpelled(forms[0], kind)
    ensures verdict.Valid? ==> SaysForm(input, verdict.rec, forms[0])
  {
    ValidIff(forms);
    ValidMeans(forms);
    hide Fault, Collect, ReplySpelled, Says, RecSays, SaysForm;
    if verdict.Valid? {
      var table := Collect(forms[0].items[1..]).table;
      SaysTable(forms, table);
      RecSaysForm(input, verdict.rec, forms[0], table);
    }
  }

  lemma {:induction false} SaysTable(forms: seq<Form>, table: Table)
    requires Says(forms, table)
    ensures forms != [] && FieldsSpelled(forms[0]) && IsTable(forms[0], table) && KindField in table
  {
    hide KindRules, Complete, Entries.IsTable, FieldsSpelled, KindIn, KindName;
    CompleteHasKind(table);
    ValidIsSpelled(forms, table);
  }
}
