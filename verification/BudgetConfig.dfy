/** The budgets of a run, from src/core/budget_config.c: named numbers in any order, written
    straight into the result while they are read. */
module BudgetConfig {
  import opened Statuses
  import opened SexprLex
  import opened SexprTree
  import opened SexprRead
  import opened SexprText
  import opened Entries
  import opened Sequences

  datatype BudgetField = BudgetField(name: string, optional: bool)

  const FIELDS: seq<BudgetField> := [
    BudgetField("inference_steps", false), BudgetField("tokens", false), BudgetField("shell_actions", false),
    BudgetField("sim_actions", false), BudgetField("memory_actions", true), BudgetField("machine_actions", true),
    BudgetField("wall_ms", false)]

  const COUNT: nat := 7

  /** What a field that is left out is worth: no limit. */
  const FALLBACK: nat := UINT64_MAX

  // ---- One item -----------------------------------------------------------------------------

  function FieldIndexFrom(name: string, i: nat): (r: nat)
    requires i <= COUNT
    ensures i <= r <= COUNT
    ensures r < COUNT ==> FIELDS[r].name == name
    decreases COUNT - i
  {
    if i == COUNT || FIELDS[i].name == name then i else FieldIndexFrom(name, i + 1)
  }

  function FieldIndex(name: string): nat {
    FieldIndexFrom(name, 0)
  }

  predicate Shaped(item: Form) {
    item.Group? && |item.items| == 2 && item.items[0].Word? && item.items[1].Word?
  }

  /** What is wrong with an item by itself. */
  function ItemStatus(item: Form): Status {
    if !Shaped(item) then Schema
    else if NumberStatus(item.items[1].text) != Ok then NumberStatus(item.items[1].text)
    else if FieldIndex(item.items[0].text) == COUNT then Schema
    else Ok
  }

  function ItemField(item: Form): (i: nat)
    requires ItemStatus(item) == Ok
    ensures i < COUNT
  {
    FieldIndex(item.items[0].text)
  }

  function ItemValue(item: Form): nat
    requires ItemStatus(item) == Ok
  {
    Value(item.items[1].text)
  }

  // ---- What a list of items means, whatever its order ---------------------------------------------

  /** The field an item sets, if it is well formed. */
  function EntryOf(item: Form): Entry<nat, nat> {
    if ItemStatus(item) == Ok then Entry.Sets(ItemField(item), ItemValue(item)) else Entry.Bad
  }

  /** Every item is well formed, and no field is set twice. */
  ghost predicate ItemsOk(items: seq<Form>) {
    Entries.Ok(items, EntryOf)
  }

  ghost predicate Given(items: seq<Form>, i: nat) {
    HasKey(items, EntryOf, i)
  }

  ghost predicate Accepts(items: seq<Form>) {
    ItemsOk(items) && forall i: nat | i < COUNT :: FIELDS[i].optional || Given(items, i)
  }

  /** The budgets an accepted list stands for. */
  ghost predicate Means(items: seq<Form>, values: seq<nat>) {
    && Accepts(items) && |values| == COUNT
    && (forall item | item in items :: ItemStatus(item) == Ok && values[ItemField(item)] == ItemValue(item))
    && forall i: nat | i < COUNT :: Given(items, i) || values[i] == FALLBACK
  }

  // ---- What the code computes ------------------------------------------------------------------------

  /** The fields written so far, and why reading stopped. */
  datatype Filled = Filled(table: map<nat, nat>, status: Status)

  function FillStep(table: map<nat, nat>, item: Form): Filled {
    if ItemStatus(item) != Ok then Filled(table, ItemStatus(item))
    else if ItemField(item) in table then Filled(table, Schema)
    else Filled(table[ItemField(item) := ItemValue(item)], Ok)
  }

  function Fill(items: seq<Form>): Filled {
    if items == [] then Filled(map[], Ok)
    else
      var before := Fill(items[..|items| - 1]);
      if before.status != Ok then before else FillStep(before.table, items[|items| - 1])
  }

  /** The first field that must be set and is not. */
  function Missing(table: map<nat, nat>, i: nat): (r: nat)
    requires i <= COUNT
    ensures i <= r <= COUNT
    ensures forall k | i <= k < r :: FIELDS[k].optional || k in table
    ensures r < COUNT ==> !FIELDS[r].optional && r !in table
    decreases COUNT - i
  {
    if i == COUNT || (!FIELDS[i].optional && i !in table) then i else Missing(table, i + 1)
  }

  /** The result array: fallbacks reach up to the first missing field. */
  function Values(table: map<nat, nat>, end: nat): seq<nat> {
    seq(COUNT, i requires 0 <= i < COUNT => if i in table then table[i] else if i < end then Fallback(i) else 0)
  }

  function Fallback(i: nat): nat
    requires i < COUNT
  {
    if FIELDS[i].optional then FALLBACK else 0
  }

  function Outcome(items: seq<Form>): (Status, seq<nat>) {
    var filled := Fill(items);
    if filled.status != Ok then (filled.status, Values(filled.table, 0))
    else
      var missing := Missing(filled.table, 0);
      (if missing < COUNT then Schema else Ok, Values(filled.table, missing))
  }

  lemma {:induction false} StepMeans(table: map<nat, nat>, item: Form)
    ensures var e := EntryOf(item);
            if e.Sets? && e.key !in table then FillStep(table, item) == Filled(table[e.key := e.value], Ok)
            else FillStep(table, item).status != Ok && FillStep(table, item).table == table
  {
  }

  lemma {:induction false} FillMeans(items: seq<Form>)
    ensures Fill(items).status == Ok <==> ItemsOk(items)
    ensures Fill(items).status == Ok ==> IsTable(items, EntryOf, Fill(items).table)
  {
    if items != [] {
      var front, last := items[..|items| - 1], items[|items| - 1];
      hide Fill, FillStep, EntryOf, Entries.Ok, HasKey, IsTable;
      FillMeans(front);
      assert items == front + [last];
      OkStep(front, last, EntryOf);
      var table := Fill(front).table;
      StepMeans(table, last);
      if Fill(front).status == Ok {
        if EntryOf(last).Sets? {
          TableHas(front, EntryOf, table, EntryOf(last).key);
        }
        if ItemsOk(items) {
          TableStep(front, last, EntryOf, table);
        }
      }
    }
  }

  /** The keys of a table are field numbers, and each item's value is in it. */
  lemma {:induction false} TableFacts(items: seq<Form>, table: map<nat, nat>)
    requires IsTable(items, EntryOf, table)
    ensures forall i | i in table :: i < COUNT
    ensures forall i: nat :: i in table <==> Given(items, i)
    ensures forall item | item in items ::
              ItemStatus(item) == Ok && ItemField(item) in table && table[ItemField(item)] == ItemValue(item)
  {
    forall i: nat
      ensures i in table <==> Given(items, i)
      ensures i in table ==> i < COUNT
    {
      TableHas(items, EntryOf, table, i);
    }
  }

  /** The code accepts exactly the lists that are well formed, set no field twice and every
      required field, and returns what they mean. */
  lemma {:induction false} OutcomeMeans(items: seq<Form>)
    ensures Outcome(items).0 == Ok <==> Accepts(items)
    ensures Accepts(items) ==> Means(items, Outcome(items).1)
  {
    FillMeans(items);
    hide ItemStatus, ItemField, ItemValue, Fill, ItemsOk, Given, IsTable;
    if ItemsOk(items) {
      TableFacts(items, Fill(items).table);
    }
  }

  lemma {:induction false} IndexOfName(k: nat, i: nat)
    requires i <= k < COUNT
    ensures FieldIndexFrom(FIELDS[k].name, i) == k
    decreases k - i
  {
    if i < k {
      IndexOfName(k, i + 1);
    }
  }

  /** The documented rule: every budget is named, and exactly once. */
  ghost predicate NamesAll(items: seq<Form>) {
    ItemsOk(items) && forall i: nat | i < COUNT :: Given(items, i)
  }

  /** It decides as the code does exactly when it is not the optional budgets alone that are missing. */
  lemma {:induction false} AllNamedIff(items: seq<Form>)
    ensures (Outcome(items).0 == Ok <==> NamesAll(items)) <==> !(Accepts(items) && !(Given(items, 4) && Given(items, 5)))
  {
    OutcomeMeans(items);
    hide Outcome, ItemsOk, Given;
  }

  lemma {:induction false} OneOf(k: nat)
    requires k < COUNT
    ensures EntryOf(Group([Word(FIELDS[k].name), Word("1")])) == Entry.Sets(k, Value("1"))
  {
    OneIsNumber();
    IndexOfName(k, 0);
    hide NumberStatus, FieldIndexFrom, Value;
  }

  /** The required fields, each given as 1, are enough. */
  lemma {:induction false} RequiredSuffice(items: seq<Form>, at: seq<nat>)
    requires at == [0, 1, 2, 3, 6] && |items| == 5
    requires forall i | 0 <= i < 5 :: items[i] == Group([Word(FIELDS[at[i]].name), Word("1")])
    ensures Outcome(items).0 == Ok
  {
    OutcomeMeans(items);
    hide EntryOf, Outcome, NumberStatus, Fill, Value, Means;
    forall i | 0 <= i < 5
      ensures EntryOf(items[i]).Sets? && EntryOf(items[i]).key == at[i]
    {
      OneOf(at[i]);
    }
    forall k: nat | k < COUNT && !FIELDS[k].optional
      ensures Given(items, k)
    {
      var i := if k == 6 then 4 else k;
      assert at[i] == k && items[i] in items;
    }
  }

  lemma OneIsNumber()
    ensures NumberStatus("1") == Ok
  {
    assert DigitRun("1") == ['1'] + DigitRun([]);
    assert Value("1") == 10 * Value([]) + 1;
  }

  // ---- The same in words -------------------------------------------------------------------------------

  /** The name of each number of the result. */
  function NameOf(i: nat): string
    requires i < 7
  {
    match i
    case 0 => "inference_steps"
    case 1 => "tokens"
    case 2 => "shell_actions"
    case 3 => "sim_actions"
    case 4 => "memory_actions"
    case 5 => "machine_actions"
    case _ => "wall_ms"
  }

  predicate Optional(i: nat) {
    i == 4 || i == 5
  }

  /** The item is a list of the name and a number. */
  predicate SaysNumber(item: Form, i: nat)
    requires i < 7
    ensures SaysNumber(item, i) ==> item.Group? && |item.items| == 2 && item.items[1].Word? && Digits(item.items[1].text)
  {
    && item.Group? && |item.items| == 2 && item.items[0] == Word(NameOf(i))
    && item.items[1].Word? && Number(item.items[1].text)
  }

  predicate SaysSome(item: Form) {
    exists i: nat | i < 7 :: SaysNumber(item, i)
  }

  /** Every item is one of the seven names with a 64-bit number, no name comes twice, and the five that are
      not optional are there. */
  ghost predicate Spelled(items: seq<Form>) {
    && (forall item | item in items :: SaysSome(item))
    && (forall i: nat, j, k | i < 7 && 0 <= j < k < |items| :: !(SaysNumber(items[j], i) && SaysNumber(items[k], i)))
    && forall i: nat | i < 7 && !Optional(i) :: exists item | item in items :: SaysNumber(item, i)
  }

  lemma NamesAre(i: nat)
    requires i < 7
    ensures FIELDS[i].name == NameOf(i) && (FIELDS[i].optional <==> Optional(i))
  {
  }

  lemma {:induction false} SaysIs(item: Form, i: nat)
    requires i < 7
    ensures SaysNumber(item, i) <==> ItemStatus(item) == Ok && ItemField(item) == i
    ensures SaysNumber(item, i) ==> Digits(item.items[1].text) && ItemValue(item) == Positional(item.items[1].text)
  {
    NamesAre(i);
    IndexOfName(i, 0);
    hide FieldIndexFrom, NameOf, Value, Positional, NumberStatus;
    if Shaped(item) {
      var name, text := item.items[0].text, item.items[1].text;
      NumberIff(text);
    }
  }

  lemma {:induction false} SaysAre()
    ensures forall item, i: nat | i < 7 :: SaysNumber(item, i) <==> EntryOf(item).Sets? && EntryOf(item).key == i
    ensures forall item :: SaysSome(item) <==> EntryOf(item).Sets?
    ensures forall item :: EntryOf(item).Sets? ==> EntryOf(item).key < 7
    ensures forall i: nat | i < 7 :: FIELDS[i].optional <==> Optional(i)
  {
    forall item, i: nat | i < 7
      ensures SaysNumber(item, i) <==> EntryOf(item).Sets? && EntryOf(item).key == i
      ensures FIELDS[i].optional <==> Optional(i)
    {
      SaysIs(item, i);
      NamesAre(i);
    }
    forall item
      ensures SaysSome(item) <==> EntryOf(item).Sets?
      ensures EntryOf(item).Sets? ==> EntryOf(item).key < 7
    {
      if EntryOf(item).Sets? {
        SaysIs(item, ItemField(item));
        assert SaysNumber(item, ItemField(item));
      }
    }
  }

  lemma {:induction false} SpelledAccepts(items: seq<Form>)
    requires Spelled(items)
    ensures Accepts(items)
  {
    SaysAre();
    hide SaysNumber, SaysSome, EntryOf, Optional;
    forall j, k | 0 <= j < k < |items|
      ensures EntryOf(items[j]).Sets? && EntryOf(items[k]).Sets? ==> EntryOf(items[j]).key != EntryOf(items[k]).key
    {
      if EntryOf(items[j]).Sets? {
        assert !(SaysNumber(items[j], EntryOf(items[j]).key) && SaysNumber(items[k], EntryOf(items[j]).key));
      }
    }
    forall i: nat | i < 7 && !Optional(i)
      ensures Given(items, i)
    {
      var item :| item in items && SaysNumber(item, i);
    }
  }

  lemma {:induction false} AcceptsSpelled(items: seq<Form>)
    requires Accepts(items)
    ensures Spelled(items)
  {
    SaysAre();
    hide SaysNumber, SaysSome, EntryOf, Optional;
    forall i: nat | i < 7 && !Optional(i)
      ensures exists item | item in items :: SaysNumber(item, i)
    {
      assert Given(items, i);
    }
  }

  /** Budgets load exactly when they are spelled so. */
  lemma {:induction false} LoadsIff(items: seq<Form>)
    ensures Outcome(items).0 == Ok <==> Spelled(items)
  {
    OutcomeMeans(items);
    hide Outcome, Spelled, Accepts, Means;
    if Spelled(items) {
      SpelledAccepts(items);
    }
    if Accepts(items) {
      AcceptsSpelled(items);
    }
  }

  /** The first item that is wrong, and why: it is no list of two words, its number is none, or its name is
      unknown or was there before. */
  lemma {:induction false} FirstFaultDecides(items: seq<Form>, k: nat)
    requires k < |items| && ItemsOk(items[..k]) && !ItemsOk(items[..k + 1])
    ensures var item := items[k];
            Outcome(items).0 == if item.Group? && |item.items| == 2 && item.items[0].Word? && item.items[1].Word?
                                   && !Number(item.items[1].text) then NumberStatus(item.items[1].text)
                                else Schema
    ensures SaysSome(items[k]) ==>
      exists j, i: nat | i < 7 && 0 <= j < k :: SaysNumber(items[j], i) && SaysNumber(items[k], i)
  {
    var front, item := items[..k], items[k];
    assert items[..k + 1] == front + [item];
    FillMeans(front);
    FillMeans(items[..k + 1]);
    assert items[..k + 1][..k] == front;
    if Shaped(item) {
      NumberIff(item.items[1].text);
    }
    StepFault(front, item);
    hide FillStep, ItemsOk, ItemStatus, EntryOf, SaysSome, SaysNumber, Number, NumberStatus, Shaped, IsTable;
    FillStuck(items, k + 1);
  }

  /** Where a step goes wrong. */
  lemma {:induction false} StepFault(front: seq<Form>, item: Form)
    requires ItemsOk(front) && !ItemsOk(front + [item])
    ensures FillStep(Fill(front).table, item).status == if ItemStatus(item) != Ok then ItemStatus(item) else Schema
    ensures SaysSome(item) ==>
      exists j, i: nat | i < 7 && 0 <= j < |front| :: SaysNumber(front[j], i) && SaysNumber(item, i)
  {
    FillMeans(front);
    SaysAre();
    OkStep(front, item, EntryOf);
    hide Fill, SaysSome, SaysNumber, Entries.Ok, IsTable;
    if EntryOf(item).Sets? {
      TableHas(front, EntryOf, Fill(front).table, EntryOf(item).key);
      var x :| x in front && EntryOf(x).Sets? && EntryOf(x).key == EntryOf(item).key;
      var j :| 0 <= j < |front| && front[j] == x;
      assert SaysNumber(front[j], EntryOf(item).key) && SaysNumber(item, EntryOf(item).key);
    }
  }

  /** With every item right, a name that is not optional and not there is the only fault. */
  lemma {:induction false} MissingIsFault(items: seq<Form>)
    requires ItemsOk(items)
    ensures Outcome(items).0 == if Spelled(items) then Ok else Schema
  {
    FillMeans(items);
    LoadsIff(items);
    hide ItemsOk, Spelled, Fill;
  }

  /** What is loaded: the number that stands with a name, and no limit, the largest 64-bit number, where
      an optional name is missing. */
  lemma {:induction false} LoadedNumbers(items: seq<Form>, i: nat)
    requires Outcome(items).0 == Ok && i < 7
    ensures |Outcome(items).1| == 7
    ensures forall item | item in items && SaysNumber(item, i) ::
      Digits(item.items[1].text) && Outcome(items).1[i] == Positional(item.items[1].text)
    ensures (forall item | item in items :: !SaysNumber(item, i)) ==> Outcome(items).1[i] == 18446744073709551615
  {
    OutcomeMeans(items);
    forall item | item in items
      ensures SaysNumber(item, i) <==> EntryOf(item).Sets? && EntryOf(item).key == i
      ensures SaysNumber(item, i) ==> ItemStatus(item) == Ok && ItemField(item) == i
      ensures SaysNumber(item, i) ==> Digits(item.items[1].text) && ItemValue(item) == Positional(item.items[1].text)
    {
      SaysIs(item, i);
    }
    hide Outcome, SaysNumber, EntryOf, ItemStatus, ItemField, ItemValue, Positional;
  }

  /** A budget that is not given is no limit. */
  lemma {:induction false} AbsentIsNoLimit(items: seq<Form>, i: nat, n: nat)
    requires Accepts(items) && i < 7 && !Given(items, i) && n <= 18446744073709551615
    ensures n <= Outcome(items).1[i] <= 18446744073709551615
  {
    OutcomeMeans(items);
  }

  lemma {:induction false} MeansOnce(items: seq<Form>, a: seq<nat>, b: seq<nat>)
    requires Means(items, a) && Means(items, b)
    ensures a == b
  {
    hide ItemStatus, ItemField, ItemValue;
    forall i: nat | i < COUNT
      ensures a[i] == b[i]
    {
      if Given(items, i) {
        var item :| item in items && EntryOf(item).Sets? && EntryOf(item).key == i;
      }
    }
  }

  // ---- The order of items -------------------------------------------------------------------------

  lemma {:induction false} MeansOfPermutation(a: seq<Form>, b: seq<Form>, values: seq<nat>)
    requires multiset(a) == multiset(b) && Means(a, values)
    ensures Means(b, values)
  {
    OkOfPermutation(a, b, EntryOf);
    SameElements(a, b);
    hide ItemStatus, ItemField, ItemValue, EntryOf, ItemsOk;
    forall i: nat
      ensures Given(a, i) <==> Given(b, i)
    {
    }
  }

  /** Whether the budgets load, and what they are, does not depend on the order of the items. */
  lemma {:induction false} OrderIrrelevant(a: seq<Form>, b: seq<Form>)
    requires multiset(a) == multiset(b) && Outcome(a).0 == Ok
    ensures Outcome(b) == Outcome(a)
  {
    hide Means, Accepts, Outcome;
    OutcomeMeans(a);
    OutcomeMeans(b);
    MeansOfPermutation(a, b, Outcome(a).1);
    MeansAccepts(b, Outcome(a).1);
    MeansOnce(b, Outcome(a).1, Outcome(b).1);
  }

  lemma MeansAccepts(items: seq<Form>, values: seq<nat>)
    requires Means(items, values)
    ensures Accepts(items)
  {
  }

  /** Which error is reported does depend on it. */
  lemma {:induction false} ErrorDependsOnOrder()
    ensures var x, y := Word("x"), Group([Word("tokens"), Word("-1")]);
            Outcome([x, y]).0 == Schema && Outcome([y, x]).0 == Format
  {
    var x, y := Word("x"), Group([Word("tokens"), Word("-1")]);
    FillTwo(x, y);
    FillTwo(y, x);
    assert ItemStatus(y) == Format by { assert DigitRun("-1") == ""; }
  }

  lemma {:induction false} FillTwo(x: Form, y: Form)
    ensures Fill([x]) == FillStep(map[], x)
    ensures Fill([x, y]) == if Fill([x]).status != Ok then Fill([x]) else FillStep(Fill([x]).table, y)
  {
    assert [x][..0] == [] && [x, y][..1] == [x];
  }

  // ---- The result of a failed load --------------------------------------------------------------------

  const ZEROS: seq<nat> := [0, 0, 0, 0, 0, 0, 0]

  /** The items read before a load stops. */
  lemma {:induction false} FillPrefix(items: seq<Form>) returns (k: nat)
    ensures k <= |items| && IsTable(items[..k], EntryOf, Fill(items).table)
    ensures if Fill(items).status == Ok then k == |items| else k < |items| && !ItemsOk(items[..k + 1])
  {
    hide IsTable, ItemsOk, FillStep;
    FillMeans(items);
    if Fill(items).status == Ok {
      k := |items|;
      assert items[..k] == items;
    } else {
      assert items != [];
      var front := items[..|items| - 1];
      FillMeans(front);
      if Fill(front).status == Ok {
        k := |items| - 1;
        assert items[..k + 1] == items;
        StepMeans(Fill(front).table, items[|items| - 1]);
      } else {
        k := FillPrefix(front);
        assert front[..k] == items[..k] && front[..k + 1] == items[..k + 1];
      }
    }
  }

  ghost predicate AllZero(items: seq<Form>) {
    forall item | item in items :: ItemStatus(item) == Ok && ItemValue(item) == 0
  }

  /** A failed load leaves the result all zero exactly when every item read before the failure was
      zero and, if what failed was a missing field, no fallback had been filled in before it. */
  lemma {:induction false} ZeroOnErrorIff(items: seq<Form>) returns (k: nat)
    requires Outcome(items).0 != Ok
    ensures k <= |items| && ItemsOk(items[..k]) && (k < |items| ==> !ItemsOk(items[..k + 1]))
    ensures Outcome(items).1 == ZEROS <==>
      && AllZero(items[..k])
      && (k == |items| ==>
            forall i: nat | i < COUNT && FIELDS[i].optional && !Given(items[..k], i) ::
              exists r: nat | r < i :: !FIELDS[r].optional && !Given(items[..k], r))
  {
    k := FillPrefix(items);
    hide ItemStatus, ItemField, ItemValue, Fill, AllZero, Given;
    var read, filled := items[..k], Fill(items);
    var values, missing := Outcome(items).1, if filled.status == Ok then Missing(filled.table, 0) else 0;
    assert values == Values(filled.table, missing);
    ValuesZero(read, filled.table, missing);
    TableFacts(read, filled.table);
  }

  lemma {:induction false} ValuesZero(items: seq<Form>, table: map<nat, nat>, end: nat)
    requires IsTable(items, EntryOf, table)
    ensures Values(table, end) == ZEROS <==>
      AllZero(items) && forall i: nat | i < COUNT && FIELDS[i].optional && i !in table :: end <= i
  {
    TableFacts(items, table);
    hide ItemStatus, ItemField, ItemValue, IsTable;
    var values := Values(table, end);
    forall item | item in items
      ensures values[ItemField(item)] == ItemValue(item)
    {
    }
    assert values == ZEROS <==> forall i | 0 <= i < COUNT :: values[i] == 0;
    forall i: nat | i < COUNT && FIELDS[i].optional && i !in table
      ensures values[i] == 0 <==> end <= i
    {
    }
    if AllZero(items) && forall i: nat | i < COUNT && FIELDS[i].optional && i !in table :: end <= i {
      forall i: nat | i < COUNT
        ensures values[i] == 0
      {
        if i in table {
          assert Given(items, i);
          var item :| item in items && EntryOf(item).Sets? && EntryOf(item).key == i;
        }
      }
    }
  }

  /** The header promises zeros on error; here a value read before the error stays. */
  lemma {:induction false} ValueStaysOnError()
    ensures Outcome([Group([Word("tokens"), Word("5")]), Word("x")]) == (Schema, [0, 5, 0, 0, 0, 0, 0])
  {
    var x, y := Group([Word("tokens"), Word("5")]), Word("x");
    FillTwo(x, y);
    assert Dec(5) == "5";
    DecimalRoundTrip(5);
    assert FIELDS[0].name != "tokens" && FieldIndexFrom("tokens", 1) == 1;
    assert FillStep(map[], x) == Filled(map[1 := 5], Ok);
    assert Outcome([x, y]) == (Schema, Values(map[1 := 5], 0));
    assert Values(map[1 := 5], 0) == [0, 5, 0, 0, 0, 0, 0];
  }

  // ---- The loader --------------------------------------------------------------------------------------

  /** The result array and the flags hold the table. */
  predicate Holds(table: map<nat, nat>, values: seq<nat>, seen: seq<bool>) {
    && |values| == |seen| == COUNT
    && forall i | 0 <= i < COUNT :: (seen[i] <==> i in table) && values[i] == if i in table then table[i] else 0
  }

  /** An item is a name and a number. */
  predicate Pair(item: Form, name: string, value: nat) {
    && Shaped(item) && item.items[0].text == name
    && NumberStatus(item.items[1].text) == Ok && Value(item.items[1].text) == value
  }

  method ReadPair(input: string, nodes: seq<Node>, c: nat, ghost t: Tree) returns (status: Status, name: Span, value: nat)
    requires |nodes| <= INVALID && Stands(nodes, c, t) && TextIn(input, t) && t.List?
    ensures var item := FormOf(input, t);
            status == if !Shaped(item) then Schema else NumberStatus(item.items[1].text)
    ensures status == Ok ==> name.In(input) && Pair(FormOf(input, t), name.Text(input), value)
  {
    assert c < |nodes|;
    hide Stands, FormOf, TextIn, NumberStatus, Value;
    name, value := Span(0, 0), 0;
    FirstChildren(nodes, c, t);
    var nameNode, valueNode := FirstChild(nodes, c), SecondChild(nodes, c);
    if |t.items| >= 1 {
      ItemSays(input, nodes, c, t, 0, nameNode);
    }
    if |t.items| >= 2 {
      ItemSays(input, nodes, c, t, 1, valueNode);
    }
    if |t.items| > 2 {
      ChildSays(input, nodes, c, t, 2);
    }
    if nameNode == INVALID || valueNode == INVALID || nodes[valueNode].nextSibling != INVALID
       || nodes[nameNode].kind != SymbolNode || nodes[valueNode].kind != SymbolNode {
      return Schema, name, value;
    }
    status, value := ParseUint64(input, nodes[valueNode].span);
    name := nodes[nameNode].span;
  }

  method SetField(input: string, name: Span, value: nat, out: array<nat>, seen: array<bool>, ghost table: map<nat, nat>)
    returns (status: Status)
    requires Holds(table, out[..], seen[..]) && name.In(input)
    modifies out, seen
    ensures var i := FieldIndex(name.Text(input));
            if i == COUNT || i in table then status == Schema && Holds(table, out[..], seen[..])
            else status == Ok && Holds(table[i := value], out[..], seen[..])
  {
    for i := 0 to COUNT
      invariant FieldIndex(name.Text(input)) == FieldIndexFrom(name.Text(input), i)
      invariant Holds(table, out[..], seen[..])
    {
      if SpanIs(input, name, FIELDS[i].name) {
        if seen[i] {
          return Schema;
        }
        seen[i] := true;
        out[i] := value;
        return Ok;
      }
    }
    return Schema;
  }

  method ParseBudgetItem(input: string, nodes: seq<Node>, c: nat, out: array<nat>, seen: array<bool>,
                         ghost t: Tree, ghost table: map<nat, nat>)
    returns (status: Status)
    requires |nodes| <= INVALID && Stands(nodes, c, t) && TextIn(input, t) && t.List?
    requires Holds(table, out[..], seen[..])
    modifies out, seen
    ensures status == FillStep(table, FormOf(input, t)).status
    ensures Holds(FillStep(table, FormOf(input, t)).table, out[..], seen[..])
  {
    hide Stands, FormOf, TextIn, NumberStatus, Value, Holds, FieldIndexFrom;
    var name, value;
    status, name, value := ReadPair(input, nodes, c, t);
    if status == Ok {
      status := SetField(input, name, value, out, seen, table);
    }
  }

  /** The items of a budgets field: everything behind its name. */
  function ItemsOf(field: Form): seq<Form>
    requires field.Group?
  {
    if field.items == [] then [] else field.items[1..]
  }

  /** The cursor of a walk over the items. */
  function ItemCursor(c: nat, items: seq<Tree>, k: nat): nat
    requires k < |items| || (items == [] && k == 0)
  {
    if items == [] then INVALID else ChildIndex(c, items, k + 1)
  }

  /** One more item: what it is, and how far the table gets with it. */
  lemma {:induction false} NextItem(input: string, t: Tree, items: seq<Form>, k: nat)
    requires t.List? && TextIn(input, t) && items == ItemsOf(FormOf(input, t)) && k + 1 < |t.items|
    requires Fill(items[..k]).status == Ok
    ensures var step := FillStep(Fill(items[..k]).table, FormOf(input, t.items[k + 1]));
            && Fill(items[..k + 1]) == step && (step.status != Ok ==> Fill(items) == step)
    ensures !t.items[k + 1].List? ==>
      Fill(items[..k + 1]) == Filled(Fill(items[..k]).table, Schema)
  {
    ItemForm(input, t, k + 1);
    var next := items[..k + 1];
    assert next[..k] == items[..k] && next[k] == FormOf(input, t.items[k + 1]);
    if Fill(next).status != Ok {
      FillStuck(items, k + 1);
    }
  }

  /** The array and the flags after k items. */
  ghost predicate FilledTo(items: seq<Form>, k: nat, status: Status, out: seq<nat>, seen: seq<bool>) {
    && k <= |items| && Fill(items[..k]).status == status && Holds(Fill(items[..k]).table, out, seen)
    && (status != Ok ==> Fill(items) == Fill(items[..k]))
  }

  method ReadItem(input: string, nodes: seq<Node>, out: array<nat>, seen: array<bool>, ghost t: Tree,
                  ghost k: nat, item: nat, ghost items: seq<Form>)
    returns (status: Status)
    requires |nodes| <= INVALID && t.List? && TextIn(input, t) && k + 1 < |t.items| && TextIn(input, t.items[k + 1])
    requires Stands(nodes, item, t.items[k + 1]) && items == ItemsOf(FormOf(input, t))
    requires FilledTo(items, k, Ok, out[..], seen[..])
    modifies out, seen
    ensures FilledTo(items, k + 1, status, out[..], seen[..])
  {
    NodeSays(input, nodes, item, t.items[k + 1]);
    NextItem(input, t, items, k);
    hide Stands, FormOf, TextIn, Holds, FillStep, Fill;
    if nodes[item].kind != ListNode {
      return Schema;
    }
    status := ParseBudgetItem(input, nodes, item, out, seen, t.items[k + 1], Fill(items[..k]).table);
  }

  method ReadItems(input: string, nodes: seq<Node>, c: nat, out: array<nat>, seen: array<bool>, ghost t: Tree,
                   ghost items: seq<Form>)
    returns (status: Status)
    requires |nodes| <= INVALID && Stands(nodes, c, t) && TextIn(input, t) && t.List?
    requires items == ItemsOf(FormOf(input, t)) && Holds(map[], out[..], seen[..])
    modifies out, seen
    ensures status == Fill(items).status && Holds(Fill(items).table, out[..], seen[..])
  {
    assert FilledTo(items, 0, Ok, out[..], seen[..]) by { assert items[..0] == []; }
    hide *;
    FirstChildren(nodes, c, t);
    var item := SecondChild(nodes, c);
    ghost var k := 0;
    while item != INVALID
      invariant k <= |items| && (k < |t.items| || (t.items == [] && k == 0)) && item == ItemCursor(c, t.items, k)
      invariant FilledTo(items, k, Ok, out[..], seen[..])
      decreases |items| - k
    {
      ChildSays(input, nodes, c, t, k + 1);
      status := ReadItem(input, nodes, out, seen, t, k, item, items);
      if status != Ok {
        FilledEnd(items, k + 1, status, out[..], seen[..]);
        return;
      }
      k := k + 1;
      item := nodes[item].nextSibling;
    }
    if k < |items| {
      ChildSays(input, nodes, c, t, k + 1);
    }
    FilledEnd(items, k, Ok, out[..], seen[..]);
    return Ok;
  }

  lemma {:induction false} FilledEnd(items: seq<Form>, k: nat, status: Status, out: seq<nat>, seen: seq<bool>)
    requires FilledTo(items, k, status, out, seen) && (status != Ok || k == |items|)
    ensures status == Fill(items).status && Holds(Fill(items).table, out, seen)
  {
    assert k == |items| ==> items[..k] == items;
  }

  method ParseBudgets(input: string, nodes: seq<Node>, c: nat, out: array<nat>, ghost t: Tree) returns (status: Status)
    requires |nodes| <= INVALID && Stands(nodes, c, t) && TextIn(input, t) && t.List?
    requires out.Length == COUNT
    modifies out
    ensures (status, out[..]) == Outcome(ItemsOf(FormOf(input, t)))
  {
    for i := 0 to COUNT
      invariant forall k | 0 <= k < i :: out[k] == 0
    {
      out[i] := 0;
    }
    var seen := new bool[COUNT](_ => false);
    hide Stands, FormOf, TextIn, Fill, Missing, Values;
    ghost var items := ItemsOf(FormOf(input, t));
    status := ReadItems(input, nodes, c, out, seen, t, items);
    ghost var table := Fill(items).table;
    if status != Ok {
      HeldValues(table, out[..], seen[..]);
      return;
    }
    status := FillMissing(out, seen, table);
  }

  lemma {:induction false} HeldValues(table: map<nat, nat>, values: seq<nat>, seen: seq<bool>)
    requires Holds(table, values, seen)
    ensures values == Values(table, 0)
  {
  }

  /** Once reading has stopped, later items change nothing. */
  lemma {:induction false} FillStuck(items: seq<Form>, k: nat)
    requires k <= |items| && Fill(items[..k]).status != Ok
    ensures Fill(items) == Fill(items[..k])
    decreases |items|
  {
    if k == |items| {
      assert items[..k] == items;
    } else {
      assert items[..|items| - 1][..k] == items[..k];
      FillStuck(items[..|items| - 1], k);
    }
  }

  /** What field i adds, unless it is the first that is missing. */
  lemma {:induction false} NextMissing(table: map<nat, nat>, i: nat)
    requires i < COUNT
    ensures |Values(table, i)| == COUNT
    ensures Missing(table, i) == if i !in table && !FIELDS[i].optional then i else Missing(table, i + 1)
    ensures i in table ==> Values(table, i + 1) == Values(table, i)
    ensures i !in table && FIELDS[i].optional ==> Values(table, i + 1) == Values(table, i)[i := FALLBACK]
  {
  }

  method FillMissing(out: array<nat>, seen: array<bool>, ghost table: map<nat, nat>) returns (status: Status)
    requires Holds(table, out[..], seen[..])
    modifies out
    ensures var missing := Missing(table, 0);
            status == (if missing < COUNT then Schema else Ok) && out[..] == Values(table, missing)
  {
    HeldValues(table, out[..], seen[..]);
    assert forall k | 0 <= k < COUNT :: seen[k] <==> k in table;
    hide Values, Missing, Holds, Fallback;
    for i := 0 to COUNT
      invariant Missing(table, 0) == Missing(table, i)
      invariant forall k | 0 <= k < COUNT :: seen[k] <==> k in table
      invariant out[..] == Values(table, i)
    {
      NextMissing(table, i);
      if seen[i] {
        continue;
      }
      if FIELDS[i].optional {
        out[i] := FALLBACK;
        continue;
      }
      return Schema;
    }
    NoneMissing(table);
    return Ok;
  }

  lemma NoneMissing(table: map<nat, nat>)
    ensures Missing(table, COUNT) == COUNT
  {
  }
}
