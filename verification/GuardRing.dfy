/** The positive-guard ring of src/eval/guard_ring.c: one guard per task shape, the least
    recently recorded shape evicted first. */
module GuardRing {
  import opened Statuses

  const CAP: nat := 32
  const SHAPE_MAX: nat := 128
  const PATH_MAX: nat := 256

  datatype Guard = Guard(shape: string, configPath: string, lastSeen: nat, used: bool)

  const EMPTY := Guard("", "", 0, false)

  /** copy_field: what fits. */
  function Stored(text: string, max: nat): string {
    if |text| <= max then text else text[..max]
  }

  predicate Matches(g: Guard, shape: string) {
    g.used && g.shape == shape
  }

  // ---- What one record does to the slots ------------------------------------------------

  function FirstMatch(slots: seq<Guard>, shape: string, from: nat): (i: nat)
    requires from <= |slots|
    ensures from <= i <= |slots| && (i < |slots| ==> Matches(slots[i], shape))
    ensures forall k :: from <= k < i ==> !Matches(slots[k], shape)
    decreases |slots| - from
  {
    if from == |slots| || Matches(slots[from], shape) then from else FirstMatch(slots, shape, from + 1)
  }

  function FirstFree(slots: seq<Guard>, from: nat): (i: nat)
    requires from <= |slots|
    ensures from <= i <= |slots| && (i < |slots| ==> !slots[i].used)
    ensures forall k :: from <= k < i ==> slots[k].used
    decreases |slots| - from
  {
    if from == |slots| || !slots[from].used then from else FirstFree(slots, from + 1)
  }

  /** The first of the first n slots with the smallest stamp. */
  function Oldest(slots: seq<Guard>, n: nat): (i: nat)
    requires 0 < n <= |slots|
    ensures i < n && (forall k :: 0 <= k < n ==> slots[i].lastSeen <= slots[k].lastSeen)
    ensures forall k :: 0 <= k < i ==> slots[i].lastSeen < slots[k].lastSeen
  {
    if n == 1 then 0
    else
      var best := Oldest(slots, n - 1);
      if slots[n - 1].lastSeen < slots[best].lastSeen then n - 1 else best
  }

  /** The slot a record goes to: the shape's own, else the first free one, else the oldest. */
  function Target(slots: seq<Guard>, shape: string): (i: nat)
    requires slots != []
    ensures i < |slots|
  {
    if FirstMatch(slots, shape, 0) < |slots| then FirstMatch(slots, shape, 0)
    else if FirstFree(slots, 0) < |slots| then FirstFree(slots, 0)
    else Oldest(slots, |slots|)
  }

  /** A matching slot keeps its stored shape; any other slot gets the truncated new one. */
  function Recorded(g: Guard, shape: string, path: string, clock: nat): Guard {
    Guard(if Matches(g, shape) then g.shape else Stored(shape, SHAPE_MAX), Stored(path, PATH_MAX), clock, true)
  }

  /** The slots after recording these shapes and paths, in order, into an empty ring. */
  function RingOf(history: seq<Entry>): (slots: seq<Guard>)
    ensures |slots| == CAP
  {
    if history == [] then seq(CAP, _ => EMPTY)
    else
      var before, e := RingOf(history[..|history| - 1]), history[|history| - 1];
      var t := Target(before, e.shape);
      before[t := Recorded(before[t], e.shape, e.path, |history|)]
  }

  class Ring {
    const slots: array<Guard>
    var clock: nat
    /** Every record so far. */
    ghost var history: seq<Entry>

    ghost predicate Valid()
      reads this, slots
    {
      slots.Length == CAP && slots[..] == RingOf(history) && clock == |history|
    }

    constructor ()
      ensures Valid() && fresh(slots) && history == []
    {
      slots := new Guard[CAP](_ => EMPTY);
      clock, history := 0, [];
    }

    /** The scan for a slot: stops at the shape's own, and on the way remembers the first free
        and the oldest one. */
    method Locate(shape: string) returns (slot: nat)
      requires slots.Length == CAP
      ensures slot == Target(slots[..], shape)
    {
      var freeSlot, lruSlot := CAP, 0;
      ghost var before := slots[..];
      for i := 0 to CAP
        invariant FirstMatch(before, shape, 0) == FirstMatch(before, shape, i)
        invariant FirstFree(before, 0) == if freeSlot == CAP then FirstFree(before, i) else freeSlot
        invariant freeSlot <= CAP && lruSlot == (if i > 0 then Oldest(before, i) else 0)
      {
        if slots[i].used && slots[i].shape == shape {
          return i;
        }
        if !slots[i].used && freeSlot == CAP {
          freeSlot := i;
        }
        if slots[i].lastSeen < slots[lruSlot].lastSeen {
          lruSlot := i;
        }
      }
      return if freeSlot != CAP then freeSlot else lruSlot;
    }

    method Record(shape: string, configPath: string) returns (slot: nat)
      requires Valid()
      modifies this, slots
      ensures Valid() && history == old(history) + [Entry(shape, configPath)]
      ensures slot == Target(old(slots[..]), shape)
    {
      hide RingOf, Target;
      ghost var before := slots[..];
      clock := clock + 1;
      slot := Locate(shape);
      if !(slots[slot].used && slots[slot].shape == shape) {
        slots[slot] := slots[slot].(shape := Stored(shape, SHAPE_MAX));
        slots[slot] := slots[slot].(used := true);
      }
      slots[slot] := slots[slot].(configPath := Stored(configPath, PATH_MAX));
      slots[slot] := slots[slot].(lastSeen := clock);
      history := history + [Entry(shape, configPath)];
      RingOfNext(history, before, slots[..]);
    }

    method Count() returns (n: nat)
      requires Valid()
      ensures n == CountUsed(slots[..])
    {
      n := 0;
      for i := 0 to CAP
        invariant n == CountUsed(slots[..i])
      {
        assert slots[..i + 1][..i] == slots[..i];
        n := n + if slots[i].used then 1 else 0;
      }
      assert slots[..CAP] == slots[..];
    }

    /** The config path stored for `shape`. */
    method Find(shape: string) returns (found: Option<Guard>)
      requires Valid()
      ensures found == Lookup(slots[..], shape)
    {
      for i := 0 to CAP
        invariant FirstMatch(slots[..], shape, 0) == FirstMatch(slots[..], shape, i)
      {
        if slots[i].used && slots[i].shape == shape {
          return Some(slots[i]);
        }
      }
      return None;
    }

    /** Whether a lesson survives every guard; `run(path, withLesson)` runs one guard. */
    method Gate(run: (string, bool) -> bool) returns (ok: bool)
      requires Valid()
      ensures slots.Length == 32
      ensures ok <==> forall i :: 0 <= i < 32 && slots[i].used && run(slots[i].configPath, false)
                                  ==> run(slots[i].configPath, true)
    {
      for i := 0 to CAP
        invariant forall k :: 0 <= k < i && slots[k].used && run(slots[k].configPath, false)
                              ==> run(slots[k].configPath, true)
      {
        if !slots[i].used {
          continue;
        }
        var baseline := run(slots[i].configPath, false);
        var trial := run(slots[i].configPath, true);
        if !Survives(baseline, trial) {
          return false;
        }
      }
      return true;
    }
  }

  lemma {:induction false} RingOfNext(history: seq<Entry>, before: seq<Guard>, after: seq<Guard>)
    requires history != [] && before == RingOf(history[..|history| - 1])
    requires var e := history[|history| - 1]; var t := Target(before, e.shape);
             after == before[t := Recorded(before[t], e.shape, e.path, |history|)]
    ensures after == RingOf(history)
  {
  }

  /** Only a guard that passed without the lesson and fails with it rejects the lesson. */
  predicate Survives(baselinePassed: bool, trialPassed: bool) {
    trialPassed || !baselinePassed
  }

  function CountUsed(slots: seq<Guard>): nat {
    if slots == [] then 0 else CountUsed(slots[..|slots| - 1]) + if slots[|slots| - 1].used then 1 else 0
  }

  function Lookup(slots: seq<Guard>, shape: string): Option<Guard> {
    var i := FirstMatch(slots, shape, 0);
    if i < |slots| then Some(slots[i]) else None
  }

  // ---- The abstract map: distinct shapes by last recording ---------------------------------

  datatype Entry = Entry(shape: string, path: string)

  /** x in front of the list, instead of element j when there is one. */
  function MoveToFront<T>(s: seq<T>, x: T, j: nat): (m: seq<T>)
    ensures |m| == (if j < |s| then |s| else |s| + 1) && m[0] == x
    ensures forall k :: 1 <= k < |m| ==> m[k] == if k <= j then s[k - 1] else s[k]
  {
    if j < |s| then [x] + s[..j] + s[j + 1..] else [x] + s
  }

  function IndexOf(entries: seq<Entry>, shape: string): (i: nat)
    ensures i <= |entries| && (i < |entries| ==> entries[i].shape == shape)
    ensures forall k :: 0 <= k < i ==> entries[k].shape != shape
  {
    if entries == [] || entries[0].shape == shape then 0 else 1 + IndexOf(entries[1..], shape)
  }

  /** Every shape ever recorded, once, most recently recorded first, with its latest path. */
  function Recency(history: seq<Entry>): seq<Entry> {
    if history == [] then []
    else
      var before, e := Recency(history[..|history| - 1]), history[|history| - 1];
      MoveToFront(before, e, IndexOf(before, e.shape))
  }

  /** What the ring should hold: the 32 most recently recorded distinct shapes. */
  function Newest(history: seq<Entry>): seq<Entry> {
    var r := Recency(history);
    r[..if |r| <= 32 then |r| else 32]
  }

  predicate DistinctShapes(entries: seq<Entry>) {
    forall i, j :: 0 <= i < j < |entries| ==> entries[i].shape != entries[j].shape
  }

  /** Slot where[k] holds entry k; stamps fall along the list; no other slot is used. */
  predicate Holds(slots: seq<Guard>, clock: nat, entries: seq<Entry>, where: seq<nat>) {
    && |slots| == CAP && |where| == |entries|
    && DistinctShapes(entries) && Placed(slots, clock, entries, where)
    && Falling(slots, where) && Covers(slots, where)
  }

  predicate Placed(slots: seq<Guard>, clock: nat, entries: seq<Entry>, where: seq<nat>)
    requires |where| == |entries|
  {
    forall k :: 0 <= k < |where| ==> where[k] < |slots| && HoldsEntry(slots[where[k]], entries[k], clock)
  }

  predicate HoldsEntry(g: Guard, e: Entry, clock: nat) {
    g.used && g.shape == e.shape && g.configPath == StoredPath(e.path) && g.lastSeen <= clock
  }

  /** Of a path the first 256 characters are stored. */
  function StoredPath(path: string): string {
    if |path| <= 256 then path else path[..256]
  }

  predicate Falling(slots: seq<Guard>, where: seq<nat>) {
    forall j, k :: 0 <= j < k < |where| ==>
      where[j] < |slots| && where[k] < |slots| && slots[where[k]].lastSeen < slots[where[j]].lastSeen
  }

  predicate Covers(slots: seq<Guard>, where: seq<nat>) {
    forall i :: 0 <= i < |slots| && slots[i].used ==> i in where
  }

  // ---- Last recordings ------------------------------------------------------------------------

  /** Index of the last record of a shape, or the length of the history. */
  function LastIndex(history: seq<Entry>, shape: string): (i: nat)
    ensures i <= |history| && (i < |history| ==> history[i].shape == shape)
    ensures forall k :: i < k < |history| ==> history[k].shape != shape
    ensures i == |history| ==> forall k :: 0 <= k < |history| ==> history[k].shape != shape
  {
    if history == [] then 0
    else if history[|history| - 1].shape == shape then |history| - 1
    else
      var i := LastIndex(history[..|history| - 1], shape);
      if i == |history| - 1 then |history| else i
  }

  /** Recency, without its recursion: entry k is the last record of its shape, and last records
      get older along the list. */
  predicate IsLast(history: seq<Entry>, e: Entry) {
    var i := LastIndex(history, e.shape);
    i < |history| && history[i] == e
  }

  /** Another shape's record changes nothing about the last record of this one. */
  lemma {:induction false} LastIndexNext(history: seq<Entry>, d: Entry)
    requires history != []
    ensures var n := |history| - 1;
            if history[n].shape == d.shape then LastIndex(history, d.shape) == n
            else IsLast(history[..n], d) ==>
              IsLast(history, d) && LastIndex(history, d.shape) == LastIndex(history[..n], d.shape) < n
  {
  }

  predicate Falls(history: seq<Entry>, a: Entry, b: Entry) {
    LastIndex(history, b.shape) < LastIndex(history, a.shape)
  }

  predicate LastRecords(history: seq<Entry>, entries: seq<Entry>) {
    && (forall k :: 0 <= k < |entries| ==> IsLast(history, entries[k]))
    && (forall j, k :: 0 <= j < k < |entries| ==> Falls(history, entries[j], entries[k]))
  }

  lemma {:induction false} RecencyIsLastRecords(history: seq<Entry>)
    ensures LastRecords(history, Recency(history))
  {
    if history != [] {
      RecencyIsLastRecords(history[..|history| - 1]);
      var before, e := Recency(history[..|history| - 1]), history[|history| - 1];
      assert Recency(history) == MoveToFront(before, e, IndexOf(before, e.shape));
      LastRecordsNext(history, before, IndexOf(before, e.shape));
    }
  }

  lemma {:induction false} OthersDiffer(history: seq<Entry>, before: seq<Entry>, shape: string, k: nat)
    requires LastRecords(history, before) && k < |before| && k != IndexOf(before, shape)
    ensures before[k].shape != shape
  {
    if k > IndexOf(before, shape) {
      assert Falls(history, before[IndexOf(before, shape)], before[k]);
    }
  }

  lemma {:induction false} LastRecordsNext(history: seq<Entry>, before: seq<Entry>, own: nat)
    requires history != [] && LastRecords(history[..|history| - 1], before)
    requires own == IndexOf(before, history[|history| - 1].shape)
    ensures LastRecords(history, MoveToFront(before, history[|history| - 1], own))
  {
    var front, e := history[..|history| - 1], history[|history| - 1];
    var after := MoveToFront(before, e, own);
    assert own <= |before|;
    LastIndexNext(history, e);
    hide LastIndex, IndexOf, IsLast, MoveToFront, Falls;
    forall b | 1 <= b < |after|
      ensures IsLast(history, after[b]) && Falls(history, e, after[b])
    {
      MovedBack(before, e, own, b);
      OlderEntry(history, before, own, Back(own, b));
    }
    forall a, b | 1 <= a < b < |after|
      ensures Falls(history, after[a], after[b])
    {
      MovedBack(before, e, own, a);
      MovedBack(before, e, own, b);
      OlderFall(history, before, own, Back(own, a), Back(own, b));
    }
  }

  lemma {:induction false} OlderFall(history: seq<Entry>, before: seq<Entry>, own: nat, a: nat, b: nat)
    requires history != [] && LastRecords(history[..|history| - 1], before)
    requires own == IndexOf(before, history[|history| - 1].shape) && a != own && b != own && a < b < |before|
    ensures Falls(history, before[a], before[b])
  {
    var front, shape := history[..|history| - 1], history[|history| - 1].shape;
    OthersDiffer(front, before, shape, a);
    OthersDiffer(front, before, shape, b);
    hide LastIndex, IndexOf, IsLast, Falls;
    StillFalls(history, before[a], before[b]);
  }

  /** Another shape's last record is still its last, and older than the newest record. */
  lemma {:induction false} OlderEntry(history: seq<Entry>, before: seq<Entry>, own: nat, k: nat)
    requires history != [] && LastRecords(history[..|history| - 1], before) && k < |before| && k != own
    requires own == IndexOf(before, history[|history| - 1].shape)
    ensures IsLast(history, before[k]) && Falls(history, history[|history| - 1], before[k])
  {
    var e := history[|history| - 1];
    OthersDiffer(history[..|history| - 1], before, e.shape, k);
    LastIndexNext(history, before[k]);
    LastIndexNext(history, e);
  }

  lemma {:induction false} StillFalls(history: seq<Entry>, a: Entry, b: Entry)
    requires history != []
    requires var front, shape := history[..|history| - 1], history[|history| - 1].shape;
             a.shape != shape && b.shape != shape && IsLast(front, a) && IsLast(front, b) && Falls(front, a, b)
    ensures Falls(history, a, b)
  {
    LastIndexNext(history, a);
    LastIndexNext(history, b);
  }

  /** No recorded shape is missing from the list. */
  lemma {:induction false} RecencyIsComplete(history: seq<Entry>, e: Entry)
    requires e in history
    ensures IndexOf(Recency(history), e.shape) < |Recency(history)|
  {
    var front, last := history[..|history| - 1], history[|history| - 1];
    var before, after := Recency(front), Recency(history);
    if e.shape == last.shape {
      assert after[0].shape == e.shape;
    } else {
      assert e in front;
      RecencyIsComplete(front, e);
      var i, own := IndexOf(before, e.shape), IndexOf(before, last.shape);
      assert after == MoveToFront(before, last, own);
      hide Recency, IndexOf;
      MovedForth(before, last, own, i);
    }
  }

  // ---- The ring holds the newest shapes ----------------------------------------------------

  /** Which entry a record replaces: the shape's own, else the oldest of a full ring, else none. */
  function Replaced(entries: seq<Entry>, shape: string): (j: nat)
    requires |entries| <= CAP
  {
    var own := IndexOf(entries, shape);
    if own == |entries| && own == CAP then CAP - 1 else own
  }

  /** A record moves its entry to the front of the newest ones, and at most the oldest drops out. */
  lemma {:induction false} NewestNext(history: seq<Entry>, e: Entry)
    ensures Newest(history + [e]) == MoveToFront(Newest(history), e, Replaced(Newest(history), e.shape))
  {
    assert (history + [e])[..|history|] == history;
    FrontOfMoved(Recency(history), e);
  }

  lemma {:induction false} FrontOfMoved(r: seq<Entry>, e: Entry)
    ensures var top := r[..Min(|r|, CAP)]; var moved := MoveToFront(r, e, IndexOf(r, e.shape));
            moved[..Min(|moved|, CAP)] == MoveToFront(top, e, Replaced(top, e.shape))
  {
    IndexInFront(r, e.shape);
    var top, j := r[..Min(|r|, CAP)], IndexOf(r, e.shape);
    var i := Replaced(top, e.shape);
    hide IndexOf;
    var moved, kept := MoveToFront(r, e, j), MoveToFront(top, e, i);
    forall k | 1 <= k < |kept|
      ensures k < |moved| && kept[k] == moved[k]
    {
      MovedBack(top, e, i, k);
      MovedBack(r, e, j, k);
    }
  }

  lemma {:induction false} IndexInFront(r: seq<Entry>, shape: string)
    ensures var top := r[..Min(|r|, CAP)];
            IndexOf(top, shape) == if IndexOf(r, shape) < |top| then IndexOf(r, shape) else |top|
  {
    var top := r[..Min(|r|, CAP)];
    var j, own := IndexOf(r, shape), IndexOf(top, shape);
    assert own < |top| ==> r[own].shape == shape;
    assert j < |top| ==> top[j].shape == shape;
  }

  function Numbers(n: nat): (all: set<nat>)
    ensures |all| == n && forall i :: i in all <==> 0 <= i < n
  {
    if n == 0 then {} else Numbers(n - 1) + {n - 1}
  }

  function Elements(s: seq<nat>): (elements: set<nat>)
    ensures forall i :: i in elements <==> i in s
  {
    if s == [] then {} else Elements(s[..|s| - 1]) + {s[|s| - 1]}
  }

  predicate NoRepeats(s: seq<nat>) {
    forall j, k :: 0 <= j < k < |s| ==> s[j] != s[k]
  }

  lemma {:induction false} ElementCount(s: seq<nat>)
    requires NoRepeats(s)
    ensures |Elements(s)| == |s|
  {
    if s != [] {
      ElementCount(s[..|s| - 1]);
    }
  }

  /** Numbers below n without repetition: there are at most n, and n of them are all of them. */
  lemma {:induction false} Pigeonhole(s: seq<nat>, n: nat)
    requires NoRepeats(s) && forall k :: 0 <= k < |s| ==> s[k] < n
    ensures |s| <= n
    ensures |s| == n <==> forall i :: 0 <= i < n ==> i in s
  {
    var all, elements := Numbers(n), Elements(s);
    ElementCount(s);
    assert all == elements + (all - elements);
    assert |s| == n ==> all - elements == {};
    assert (forall i :: 0 <= i < n ==> i in s) <==> all - elements == {};
  }

  /** What the slots hold after `start` records and then `entries`, newest first: slot where[k] holds
      entry k, and every other slot is older than all of them and comes after a slot of its shape. */
  predicate Since(slots: seq<Guard>, clock: nat, start: nat, entries: seq<Entry>, where: seq<nat>) {
    && |slots| == CAP && |where| == |entries|
    && DistinctShapes(entries) && Placed(slots, clock, entries, where) && Falling(slots, where)
    && Fresh(slots, start, where) && Stale(slots, start, entries, where)
  }

  predicate Fresh(slots: seq<Guard>, start: nat, where: seq<nat>) {
    forall k :: 0 <= k < |where| ==> where[k] < |slots| && slots[where[k]].lastSeen > start
  }

  predicate Stale(slots: seq<Guard>, start: nat, entries: seq<Entry>, where: seq<nat>)
    requires |where| == |entries|
  {
    forall i :: 0 <= i < |slots| && i !in where ==> StaleSlot(slots[i], i, start, entries, where)
  }

  predicate StaleSlot(g: Guard, i: nat, start: nat, entries: seq<Entry>, where: seq<nat>)
    requires |where| == |entries|
  {
    && g.lastSeen <= start && (g.used ==> start > 0)
    && forall k :: 0 <= k < |where| && Matches(g, entries[k].shape) ==> where[k] < i
  }

  /** The slot of an entry is the first one of its shape. */
  lemma {:induction false} OwnSlot(slots: seq<Guard>, clock: nat, start: nat, entries: seq<Entry>, where: seq<nat>, k: nat)
    requires Since(slots, clock, start, entries, where) && k < |where|
    ensures FirstMatch(slots, entries[k].shape, 0) == where[k]
  {
    var shape := entries[k].shape;
    assert HoldsEntry(slots[where[k]], entries[k], clock) && Matches(slots[where[k]], shape);
    forall i | 0 <= i < where[k]
      ensures !Matches(slots[i], shape)
    {
      if i in where {
        var m :| 0 <= m < |where| && where[m] == i;
        assert HoldsEntry(slots[where[m]], entries[m], clock) && entries[m].shape != shape;
      } else {
        assert StaleSlot(slots[i], i, start, entries, where);
      }
    }
  }

  lemma {:induction false} NewSlot(slots: seq<Guard>, clock: nat, start: nat, entries: seq<Entry>, where: seq<nat>,
                                   shape: string)
    requires Since(slots, clock, start, entries, where) && |entries| < CAP && IndexOf(entries, shape) == |entries|
    ensures Target(slots, shape) !in where
  {
    var t := Target(slots, shape);
    Pigeonhole(where, CAP);
    var i :| 0 <= i < CAP && i !in where;
    assert StaleSlot(slots[i], i, start, entries, where);
    forall k | 0 <= k < |where|
      ensures where[k] != t
    {
      assert HoldsEntry(slots[where[k]], entries[k], clock);
    }
  }

  /** The slot a record goes to holds exactly the entry the abstract list replaces, and no earlier
      slot has the shape. */
  lemma {:induction false} TargetIsReplaced(slots: seq<Guard>, clock: nat, start: nat, entries: seq<Entry>,
                                            where: seq<nat>, shape: string)
    requires Since(slots, clock, start, entries, where) && |entries| <= CAP
    ensures var j, t := Replaced(entries, shape), Target(slots, shape);
            j <= |where| && if j < |where| then t == where[j] else t !in where
    ensures forall i :: 0 <= i < |slots| && Matches(slots[i], shape) ==> Target(slots, shape) <= i
  {
    var t, own := Target(slots, shape), IndexOf(entries, shape);
    if own < |entries| {
      OwnSlot(slots, clock, start, entries, where, own);
    } else if |where| == CAP {
      Pigeonhole(where, CAP);
      assert t in where && forall i | 0 <= i < CAP :: i in where;
      forall i | 0 <= i < CAP
        ensures slots[i].used && slots[i].shape != shape
      {
        assert i in where;
        var k :| 0 <= k < |where| && where[k] == i;
        assert HoldsEntry(slots[where[k]], entries[k], clock);
      }
      assert slots[t].lastSeen <= slots[where[CAP - 1]].lastSeen;
    } else {
      NewSlot(slots, clock, start, entries, where, shape);
    }
  }

  /** Where element k > 0 of a list came from when element j moved to the front. */
  function Back(j: nat, k: nat): nat
    requires k > 0
  {
    if k <= j then k - 1 else k
  }

  lemma {:induction false} MovedBack<T>(s: seq<T>, x: T, j: nat, k: nat)
    requires j <= |s| && 1 <= k < |MoveToFront(s, x, j)|
    ensures Back(j, k) < |s| && Back(j, k) != j && MoveToFront(s, x, j)[k] == s[Back(j, k)]
  {
  }

  lemma {:induction false} MovedForth<T>(s: seq<T>, x: T, j: nat, i: nat)
    requires j <= |s| && i < |s| && i != j
    ensures var k := if i < j then i + 1 else i;
            j < |s| ==> k < |MoveToFront(s, x, j)| && MoveToFront(s, x, j)[k] == s[i]
    ensures j == |s| ==> i + 1 < |MoveToFront(s, x, j)| && MoveToFront(s, x, j)[i + 1] == s[i]
  {
  }

  lemma {:induction false} MovedDistinct(entries: seq<Entry>, e: Entry, j: nat, moved: seq<Entry>)
    requires DistinctShapes(entries) && j <= |entries| && moved == MoveToFront(entries, e, j)
    requires forall k :: 0 <= k < |entries| && k != j ==> entries[k].shape != e.shape
    ensures DistinctShapes(moved)
  {
    forall a, b | 0 <= a < b < |moved|
      ensures moved[a].shape != moved[b].shape
    {
      MovedBack(entries, e, j, b);
      if a > 0 {
        MovedBack(entries, e, j, a);
      }
    }
  }

  /** Slot t after the change, and the slots it does not touch. */
  predicate Changed(slots: seq<Guard>, after: seq<Guard>, where: seq<nat>, t: nat, j: nat, g: Guard) {
    && j <= |where| && t < |slots| && after == slots[t := g]
    && forall k :: 0 <= k < |where| && k != j ==> where[k] < |slots| && where[k] != t
  }

  lemma {:induction false} MovedPlaced(slots: seq<Guard>, clock: nat, entries: seq<Entry>, where: seq<nat>,
                                       e: Entry, g: Guard, j: nat, t: nat, after: seq<Guard>)
    requires |where| == |entries| && Placed(slots, clock, entries, where) && Changed(slots, after, where, t, j, g)
    requires HoldsEntry(g, e, clock + 1)
    ensures Placed(after, clock + 1, MoveToFront(entries, e, j), MoveToFront(where, t, j))
  {
    var moved, places := MoveToFront(entries, e, j), MoveToFront(where, t, j);
    forall k | 0 <= k < |places|
      ensures places[k] < |after| && HoldsEntry(after[places[k]], moved[k], clock + 1)
    {
      if k > 0 {
        MovedBack(entries, e, j, k);
        MovedBack(where, t, j, k);
      }
    }
  }

  lemma {:induction false} MovedFalling(slots: seq<Guard>, clock: nat, where: seq<nat>,
                                        g: Guard, j: nat, t: nat, after: seq<Guard>)
    requires Falling(slots, where) && Changed(slots, after, where, t, j, g) && g.lastSeen == clock + 1
    requires forall k :: 0 <= k < |where| ==> where[k] < |slots| && slots[where[k]].lastSeen <= clock
    ensures Falling(after, MoveToFront(where, t, j))
  {
    var places := MoveToFront(where, t, j);
    forall a, b | 0 <= a < b < |places|
      ensures places[a] < |after| && places[b] < |after| && after[places[b]].lastSeen < after[places[a]].lastSeen
    {
      MovedBack(where, t, j, b);
      if a > 0 {
        MovedBack(where, t, j, a);
      }
    }
  }

  lemma {:induction false} MovedFresh(slots: seq<Guard>, start: nat, where: seq<nat>, g: Guard, j: nat, t: nat,
                                      after: seq<Guard>)
    requires Fresh(slots, start, where) && Changed(slots, after, where, t, j, g) && g.lastSeen > start
    ensures Fresh(after, start, MoveToFront(where, t, j))
  {
    var places := MoveToFront(where, t, j);
    forall k | 0 <= k < |places|
      ensures places[k] < |after| && after[places[k]].lastSeen > start
    {
      if k > 0 {
        MovedBack(where, t, j, k);
      }
    }
  }

  lemma {:induction false} MovedStale(slots: seq<Guard>, start: nat, entries: seq<Entry>, where: seq<nat>,
                                      e: Entry, g: Guard, j: nat, t: nat, after: seq<Guard>)
    requires |where| == |entries| && Stale(slots, start, entries, where) && Changed(slots, after, where, t, j, g)
    requires j < |where| ==> t == where[j]
    requires forall i :: 0 <= i < |slots| && Matches(slots[i], e.shape) ==> t <= i
    requires |MoveToFront(entries, e, j)| == |MoveToFront(where, t, j)|
    ensures Stale(after, start, MoveToFront(entries, e, j), MoveToFront(where, t, j))
  {
    var moved, places := MoveToFront(entries, e, j), MoveToFront(where, t, j);
    forall i | 0 <= i < |after| && i !in places
      ensures StaleSlot(after[i], i, start, moved, places)
    {
      assert places[0] == t;
      NotMoved(where, t, j, i);
      assert after[i] == slots[i] && StaleSlot(slots[i], i, start, entries, where);
      forall k | 0 <= k < |places| && Matches(after[i], moved[k].shape)
        ensures places[k] < i
      {
        if k > 0 {
          MovedBack(entries, e, j, k);
          MovedBack(where, t, j, k);
        }
      }
    }
  }

  lemma {:induction false} NotMoved(where: seq<nat>, t: nat, j: nat, i: nat)
    requires j <= |where| && (j < |where| ==> t == where[j]) && i !in MoveToFront(where, t, j)
    ensures i != t && i !in where
  {
    assert MoveToFront(where, t, j)[0] == t;
    forall k | 0 <= k < |where|
      ensures where[k] != i
    {
      if k != j {
        MovedForth(where, t, j, k);
      }
    }
  }

  /** Putting a guard with a fresh stamp into slot t, for entry j or as an additional one. */
  lemma {:induction false} ReplaceKeepsHolding(slots: seq<Guard>, clock: nat, start: nat, entries: seq<Entry>,
                                               where: seq<nat>, e: Entry, g: Guard, j: nat, t: nat, after: seq<Guard>)
    requires Since(slots, clock, start, entries, where) && start <= clock
    requires j <= |where| && t < CAP && if j < |where| then t == where[j] else t !in where
    requires forall k :: 0 <= k < |entries| && k != j ==> entries[k].shape != e.shape
    requires forall i :: 0 <= i < |slots| && Matches(slots[i], e.shape) ==> t <= i
    requires HoldsEntry(g, e, clock + 1) && g.lastSeen == clock + 1 && after == slots[t := g]
    ensures Since(after, clock + 1, start, MoveToFront(entries, e, j), MoveToFront(where, t, j))
  {
    hide MoveToFront, Stale;
    assert Changed(slots, after, where, t, j, g);
    MovedLengths(entries, where, e, t, j);
    MovedDistinct(entries, e, j, MoveToFront(entries, e, j));
    MovedPlaced(slots, clock, entries, where, e, g, j, t, after);
    MovedFalling(slots, clock, where, g, j, t, after);
    MovedFresh(slots, start, where, g, j, t, after);
    MovedStale(slots, start, entries, where, e, g, j, t, after);
  }

  lemma {:induction false} MovedLengths(entries: seq<Entry>, where: seq<nat>, e: Entry, t: nat, j: nat)
    requires |entries| == |where|
    ensures |MoveToFront(entries, e, j)| == |MoveToFront(where, t, j)|
  {
  }

  lemma {:induction false} RecordKeepsHolding(slots: seq<Guard>, clock: nat, start: nat, entries: seq<Entry>,
                                              where: seq<nat>, e: Entry)
    requires Since(slots, clock, start, entries, where) && start <= clock
    requires |entries| <= CAP && |e.shape| <= SHAPE_MAX
    ensures var j, t := Replaced(entries, e.shape), Target(slots, e.shape);
            Since(slots[t := Recorded(slots[t], e.shape, e.path, clock + 1)], clock + 1, start,
                  MoveToFront(entries, e, j), MoveToFront(where, t, j))
  {
    TargetIsReplaced(slots, clock, start, entries, where, e.shape);
    var t, j := Target(slots, e.shape), Replaced(entries, e.shape);
    var g := Recorded(slots[t], e.shape, e.path, clock + 1);
    assert forall k | 0 <= k < |entries| && k != j :: entries[k].shape != e.shape;
    hide Target, Since, MoveToFront, Replaced;
    ReplaceKeepsHolding(slots, clock, start, entries, where, e, g, j, t, slots[t := g]);
  }

  lemma {:induction false} StampsBounded(history: seq<Entry>)
    ensures forall i :: 0 <= i < CAP ==>
      RingOf(history)[i].lastSeen <= |history| && (RingOf(history)[i].used ==> history != [])
  {
    if history != [] {
      StampsBounded(history[..|history| - 1]);
    }
  }

  /** Whatever was recorded before, short shapes recorded since stand in the ring as they should. */
  lemma {:induction false} RingSince(front: seq<Entry>, back: seq<Entry>) returns (where: seq<nat>)
    requires Short(back)
    ensures Since(RingOf(front + back), |front + back|, |front|, Newest(back), where)
    decreases |back|
  {
    if back == [] {
      StampsBounded(front);
      where := [];
      assert front + back == front && Newest(back) == [];
    } else {
      var short, e := back[..|back| - 1], back[|back| - 1];
      assert short + [e] == back && front + back == front + short + [e];
      var before := RingSince(front, short);
      where := RingNext(front + short, short, |front|, e, before);
    }
  }

  lemma {:induction false} RingNext(history: seq<Entry>, back: seq<Entry>, start: nat, e: Entry, before: seq<nat>)
    returns (where: seq<nat>)
    requires |e.shape| <= SHAPE_MAX && start <= |history|
    requires Since(RingOf(history), |history|, start, Newest(back), before)
    ensures Since(RingOf(history + [e]), |history| + 1, start, Newest(back + [e]), where)
  {
    hide RingOf, Recency, Newest, Since, MoveToFront, Replaced, Target, Recorded;
    var all, ring := history + [e], RingOf(history);
    assert all[..|all| - 1] == history;
    NewestSize(history);
    NewestSize(back);
    var t, j := Target(ring, e.shape), Replaced(Newest(back), e.shape);
    RecordKeepsHolding(ring, |history|, start, Newest(back), before, e);
    NewestNext(back, e);
    RingOfNext(all, ring, ring[t := Recorded(ring[t], e.shape, e.path, |all|)]);
    where := MoveToFront(before, t, j);
  }

  lemma NewestSize(history: seq<Entry>)
    ensures |Newest(history)| <= CAP && |RingOf(history)| == CAP
    ensures forall shape :: Target(RingOf(history), shape) < CAP
  {
  }

  /** No shape is longer than a slot can store. */
  predicate Short(entries: seq<Entry>) {
    forall e :: e in entries ==> |e.shape| <= 128
  }

  /** The number of records up to the last one with a shape that is too long. */
  function LongUntil(history: seq<Entry>): (n: nat)
    ensures n <= |history| && Short(history[n..])
    ensures n > 0 ==> |history[n - 1].shape| > SHAPE_MAX
  {
    if history == [] then 0
    else if |history[|history| - 1].shape| > SHAPE_MAX then |history|
    else
      var n := LongUntil(history[..|history| - 1]);
      assert history[n..] == history[..|history| - 1][n..] + [history[|history| - 1]];
      n
  }

  /** The recency of the last records comes first in that of all, and then the record before them, if
      its shape is not among them. */
  lemma {:induction false} RecencyOfBack(front: seq<Entry>, back: seq<Entry>)
    ensures Recency(back) <= Recency(front + back)
    ensures front != [] && (forall e :: e in back ==> e.shape != front[|front| - 1].shape) ==>
      var n := |Recency(back)|;
      n < |Recency(front + back)| && Recency(front + back)[n] == front[|front| - 1]
    decreases |back|
  {
    if back == [] {
      assert front + back == front;
    } else {
      var short, e := back[..|back| - 1], back[|back| - 1];
      assert (front + back)[..|front + back| - 1] == front + short;
      RecencyOfBack(front, short);
      assert e in back && forall x :: x in short ==> x in back;
      var r, all := Recency(short), Recency(front + short);
      assert Recency(back) == MoveToFront(r, e, IndexOf(r, e.shape));
      assert Recency(front + back) == MoveToFront(all, e, IndexOf(all, e.shape));
      hide Recency;
      MovedPrefix(r, all, e);
    }
  }

  lemma {:induction false} MovedPrefix(r: seq<Entry>, all: seq<Entry>, e: Entry)
    requires r <= all
    ensures var m, moved := MoveToFront(r, e, IndexOf(r, e.shape)), MoveToFront(all, e, IndexOf(all, e.shape));
            m <= moved
            && (|r| < |all| && all[|r|].shape != e.shape ==> |m| < |moved| && moved[|m|] == all[|r|])
  {
    var i, j := IndexOf(r, e.shape), IndexOf(all, e.shape);
    assert if i < |r| then j == i else j >= |r|;
    hide IndexOf;
    PrefixMoved(r, all, e, i, j);
  }

  lemma {:induction false} PrefixMoved(r: seq<Entry>, all: seq<Entry>, e: Entry, i: nat, j: nat)
    requires r <= all && if i < |r| then j == i else i == |r| <= j
    ensures var m, moved := MoveToFront(r, e, i), MoveToFront(all, e, j);
            m <= moved && (|r| < |all| && j != |r| ==> |m| < |moved| && moved[|m|] == all[|r|])
  {
    var m, moved := MoveToFront(r, e, i), MoveToFront(all, e, j);
    forall k | 0 <= k < |m|
      ensures k < |moved| && m[k] == moved[k]
    {
      if k > 0 {
        MovedBack(r, e, i, k);
      }
    }
  }

  /** The newest entries are those recorded last, unless a record before these is among them. */
  lemma {:induction false} NewestOfBack(front: seq<Entry>, back: seq<Entry>)
    requires Short(back) && (front != [] ==> |front[|front| - 1].shape| > SHAPE_MAX)
    ensures || front == [] || |Newest(back)| == CAP || front[|front| - 1] in Newest(front + back)
    ensures front == [] || |Newest(back)| == CAP ==> Newest(front + back) == Newest(back)
  {
    if front == [] {
      assert front + back == back;
    } else {
      RecencyOfBack(front, back);
      var n := |Recency(back)|;
      hide Recency;
      if n < CAP {
        assert Newest(front + back)[n] == front[|front| - 1];
      }
    }
  }

  /** The ring holds exactly the CAP most recently recorded distinct shapes, each with its latest path,
      in pairwise different slots, if all of these fit a slot, whatever was recorded before. */
  lemma {:induction false} RingHoldsNewest(history: seq<Entry>) returns (where: seq<nat>)
    requires Short(Newest(history))
    ensures Holds(RingOf(history), |history|, Newest(history), where)
  {
    var n := LongUntil(history);
    var front, back := history[..n], history[n..];
    assert history == front + back;
    where := RingSince(front, back);
    NewestOfBack(front, back);
    hide RingOf, Newest, Recency, Since, Holds;
    SinceHolds(RingOf(history), |history|, n, Newest(history), where);
  }

  lemma {:induction false} SinceHolds(slots: seq<Guard>, clock: nat, start: nat, entries: seq<Entry>, where: seq<nat>)
    requires Since(slots, clock, start, entries, where) && (start == 0 || |entries| == CAP)
    ensures Holds(slots, clock, entries, where)
  {
    if start > 0 {
      Pigeonhole(where, CAP);
    } else {
      forall i | 0 <= i < |slots| && i !in where
        ensures !slots[i].used
      {
        assert StaleSlot(slots[i], i, start, entries, where);
      }
    }
  }

  /** That condition is exact. */
  lemma {:induction false} RingHoldsNewestIff(history: seq<Entry>)
    ensures (exists where :: Holds(RingOf(history), |history|, Newest(history), where)) <==> Short(Newest(history))
  {
    var ring, newest := RingOf(history), Newest(history);
    if where :| Holds(ring, |history|, newest, where) {
      StoredShapesFit(history);
      forall e | e in newest
        ensures |e.shape| <= SHAPE_MAX
      {
        var k :| 0 <= k < |newest| && newest[k] == e;
        assert HoldsEntry(ring[where[k]], e, |history|) && ring[where[k]] in ring;
      }
    }
    if Short(newest) {
      var where := RingHoldsNewest(history);
    }
  }

  ghost function UsedSlots(slots: seq<Guard>): set<nat> {
    set i: nat | i < |slots| && slots[i].used
  }

  lemma {:induction false} CountUsedIs(slots: seq<Guard>)
    ensures CountUsed(slots) == |UsedSlots(slots)|
  {
    if slots != [] {
      var n := |slots| - 1;
      CountUsedIs(slots[..n]);
      assert UsedSlots(slots) == UsedSlots(slots[..n]) + if slots[n].used then {n} else {};
    }
  }

  /** As many slots are used as there are newest entries. */
  lemma {:induction false} CountIsNewest(history: seq<Entry>)
    requires Short(Newest(history))
    ensures CountUsed(RingOf(history)) == |Newest(history)|
  {
    var where := RingHoldsNewest(history);
    hide RingOf, Newest, Holds, CountUsed;
    CountHeld(RingOf(history), |history|, Newest(history), where);
  }

  lemma {:induction false} CountHeld(slots: seq<Guard>, clock: nat, entries: seq<Entry>, where: seq<nat>)
    requires Holds(slots, clock, entries, where)
    ensures CountUsed(slots) == |entries|
  {
    CountUsedIs(slots);
    ElementCount(where);
    hide CountUsed, Elements;
    forall i | i in where
      ensures i < |slots| && slots[i].used
    {
      var k :| 0 <= k < |where| && where[k] == i;
      assert HoldsEntry(slots[where[k]], entries[k], clock);
    }
    assert UsedSlots(slots) == Elements(where);
  }

  /** Finding a shape in the ring is finding it among the newest entries. */
  predicate FoundAsNewest(history: seq<Entry>, shape: string) {
    var found, i := Lookup(RingOf(history), shape), IndexOf(Newest(history), shape);
    if i < |Newest(history)| then
      found.Some? && found.value.shape == shape
      && found.value.configPath == StoredPath(Newest(history)[i].path)
    else found.None?
  }

  /** Every shape, recorded or not, is found as it should be exactly when all of the newest entries
      have shapes that fit a slot. */
  lemma {:induction false} FindIsNewestIff(history: seq<Entry>)
    ensures (forall shape :: FoundAsNewest(history, shape)) <==> Short(Newest(history))
  {
    if Short(Newest(history)) {
      var where := RingHoldsNewest(history);
      forall shape
        ensures FoundAsNewest(history, shape)
      {
        FoundWhere(history, where, shape);
      }
    }
    StoredShapesFit(history);
    if k :| 0 <= k < |Newest(history)| && |Newest(history)[k].shape| > SHAPE_MAX {
      hide RingOf, Newest;
      assert !FoundAsNewest(history, Newest(history)[k].shape);
    }
  }

  lemma {:induction false} FoundWhere(history: seq<Entry>, where: seq<nat>, shape: string)
    requires Holds(RingOf(history), |history|, Newest(history), where)
    ensures FoundAsNewest(history, shape)
  {
    hide RingOf, Newest, Holds;
    WhereFound(RingOf(history), |history|, Newest(history), where, shape);
  }

  lemma {:induction false} WhereFound(ring: seq<Guard>, clock: nat, newest: seq<Entry>, where: seq<nat>, shape: string)
    requires Holds(ring, clock, newest, where)
    ensures var i, found := IndexOf(newest, shape), FirstMatch(ring, shape, 0);
            if i < |newest| then found < |ring| && ring[found].configPath == StoredPath(newest[i].path)
            else found == |ring|
  {
    var i, found := IndexOf(newest, shape), FirstMatch(ring, shape, 0);
    hide IndexOf, FirstMatch;
    if i < |newest| {
      assert HoldsEntry(ring[where[i]], newest[i], clock) && Matches(ring[where[i]], shape);
    }
    if found < |ring| {
      var k :| 0 <= k < |where| && where[k] == found;
      assert HoldsEntry(ring[where[k]], newest[k], clock);
      assert k < |newest| && newest[k].shape == shape;
    }
  }

  // ---- Which shapes are found ------------------------------------------------------------------

  /** The different shapes of these records. */
  function ShapesIn(entries: seq<Entry>): set<string> {
    set e | e in entries :: e.shape
  }

  lemma {:induction false} ShapesNext(front: seq<Entry>, e: Entry)
    ensures ShapesIn(front + [e]) == ShapesIn(front) + {e.shape}
  {
    assert forall x :: x in front + [e] <==> x in front || x == e;
  }

  lemma {:induction false} InRecency(history: seq<Entry>, shape: string)
    ensures shape in ShapesIn(history) <==> IndexOf(Recency(history), shape) < |Recency(history)|
  {
    hide Recency, IndexOf;
    if shape in ShapesIn(history) {
      var e :| e in history && e.shape == shape;
      RecencyIsComplete(history, e);
    }
    RecencyIsLastRecords(history);
    var i := IndexOf(Recency(history), shape);
    if i < |Recency(history)| {
      assert IsLast(history, Recency(history)[i]);
      assert Recency(history)[i] in history;
    }
  }

  lemma {:induction false} RecencySize(history: seq<Entry>)
    ensures |Recency(history)| == |ShapesIn(history)|
  {
    if history != [] {
      var front, e := history[..|history| - 1], history[|history| - 1];
      assert history == front + [e];
      RecencySize(front);
      InRecency(front, e.shape);
      ShapesNext(front, e);
      hide ShapesIn, IndexOf;
    }
  }

  /** The last record of a shape stands behind as many others as there are shapes recorded since. */
  lemma {:induction false} PlaceOfShape(history: seq<Entry>, k: nat)
    requires k < |history| && history[k].shape !in ShapesIn(history[k + 1..])
    ensures var n := |ShapesIn(history[k + 1..])|;
            && IndexOf(Newest(history), history[k].shape) == (if n < 32 then n else |Newest(history)|)
            && (n < 32 ==> n < |Newest(history)| && Newest(history)[n] == history[k])
  {
    var front, back := history[..k + 1], history[k + 1..];
    assert history == front + back && front[|front| - 1] == history[k];
    RecencyOfBack(front, back);
    RecencySize(back);
    forall e | e in back
      ensures e.shape != history[k].shape
    {
      assert e.shape in ShapesIn(back);
    }
    NotEarlier(back, Recency(history), history[k].shape);
    hide Recency, ShapesIn, IndexOf;
    FirstAt(Newest(history), history[k].shape, |Recency(back)|);
  }

  /** Of one shape, recorded last by record k, the ring holds the path as far as it can be stored, as long
      as fewer than 32 other shapes were recorded since; then it is lost. */
  lemma {:induction false} FoundUntilEvicted(history: seq<Entry>, k: nat)
    requires k < |history| && history[k].shape !in ShapesIn(history[k + 1..]) && Short(Newest(history))
    ensures var found := Lookup(RingOf(history), history[k].shape);
            if |ShapesIn(history[k + 1..])| < 32 then
              found.Some? && found.value.shape == history[k].shape && found.value.configPath == StoredPath(history[k].path)
            else found == None
  {
    PlaceOfShape(history, k);
    FindIsNewestIff(history);
    assert FoundAsNewest(history, history[k].shape);
    hide Newest, ShapesIn, RingOf, Short, IndexOf, Lookup;
  }

  lemma {:induction false} NotEarlier(back: seq<Entry>, all: seq<Entry>, shape: string)
    requires Recency(back) <= all && shape !in ShapesIn(back)
    ensures forall i :: 0 <= i < |Recency(back)| ==> all[i].shape != shape
  {
    RecencyIsLastRecords(back);
    hide Recency;
    forall i | 0 <= i < |Recency(back)|
      ensures all[i].shape != shape
    {
      assert all[i] == Recency(back)[i] && IsLast(back, Recency(back)[i]);
      assert all[i] in back;
    }
  }

  lemma {:induction false} FirstAt(entries: seq<Entry>, shape: string, n: nat)
    requires forall i :: 0 <= i < n && i < |entries| ==> entries[i].shape != shape
    requires n < |entries| ==> entries[n].shape == shape
    ensures IndexOf(entries, shape) == if n < |entries| then n else |entries|
  {
    hide IndexOf;
  }

  /** A shape that was never recorded is not found. */
  lemma {:induction false} NeverFound(history: seq<Entry>, shape: string)
    requires shape !in ShapesIn(history) && Short(Newest(history))
    ensures Lookup(RingOf(history), shape) == None
  {
    InRecency(history, shape);
    FindIsNewestIff(history);
    assert FoundAsNewest(history, shape);
    hide Recency, ShapesIn, RingOf, Short, IndexOf;
    FirstAt(Newest(history), shape, |Newest(history)|);
  }

  // ---- Shapes too long to store ---------------------------------------------------------------

  lemma {:induction false} StoredShapesFit(history: seq<Entry>)
    ensures forall g :: g in RingOf(history) ==> |g.shape| <= SHAPE_MAX
  {
    if history != [] {
      StoredShapesFit(history[..|history| - 1]);
    }
  }

  /** A shape just recorded is found again exactly when it fits a slot: a longer one is compared
      in full against its own truncation and never matches, so it is recorded anew each time. */
  lemma {:induction false} FoundAfterRecordIff(history: seq<Entry>, e: Entry)
    ensures Lookup(RingOf(history + [e]), e.shape).Some? <==> |e.shape| <= 128
  {
    var h := history + [e];
    StoredShapesFit(h);
    assert h[..|h| - 1] == history;
    if |e.shape| <= SHAPE_MAX {
      assert Matches(RingOf(h)[Target(RingOf(history), e.shape)], e.shape);
    }
  }
}
