/** Choosing what a context shows, from src/context/context.c: the best k candidates, kept
    sorted in a fixed array while the candidates stream by. */
module ContextView {
  import opened Statuses

  /** A reference to a graph node, a fact or a journal record: `key` is its rank or its sequence
      number, `index` breaks ties. */
  datatype Ref = Ref(key: nat, index: nat)

  predicate Before(a: Ref, b: Ref) {
    if a.key != b.key then a.key > b.key else a.index < b.index
  }

  predicate Sorted(s: seq<Ref>) {
    forall i, j :: 0 <= i < j < |s| ==> !Before(s[j], s[i])
  }

  /** x behind everything it does not come before. */
  function Insert(s: seq<Ref>, x: Ref): (r: seq<Ref>)
    ensures |r| == |s| + 1
  {
    if s == [] || !Before(x, s[|s| - 1]) then s + [x]
    else Insert(s[..|s| - 1], x) + [s[|s| - 1]]
  }

  function Sort(candidates: seq<Ref>): (r: seq<Ref>)
    ensures |r| == |candidates|
  {
    if candidates == [] then []
    else Insert(Sort(candidates[..|candidates| - 1]), candidates[|candidates| - 1])
  }

  lemma {:induction false} InsertElements(s: seq<Ref>, x: Ref)
    ensures multiset(Insert(s, x)) == multiset(s) + multiset{x}
  {
    if s != [] && Before(x, s[|s| - 1]) {
      InsertElements(s[..|s| - 1], x);
      assert s == s[..|s| - 1] + [s[|s| - 1]];
    }
  }

  lemma {:induction false} InsertSorted(s: seq<Ref>, x: Ref)
    requires Sorted(s)
    ensures Sorted(Insert(s, x))
  {
    if s != [] && Before(x, s[|s| - 1]) {
      var front, last := s[..|s| - 1], s[|s| - 1];
      InsertSorted(front, x);
      InsertElements(front, x);
      forall i | 0 <= i < |front| + 1
        ensures !Before(last, Insert(front, x)[i])
      {
        assert Insert(front, x)[i] in multiset(Insert(front, x));
      }
    } else if s != [] {
      forall i | 0 <= i < |s|
        ensures !Before(x, s[i])
      {
        assert i < |s| - 1 ==> !Before(s[|s| - 1], s[i]);
      }
    }
  }

  /** Sorting is by the order, and loses and invents nothing. */
  lemma {:induction false} SortIsSorted(candidates: seq<Ref>)
    ensures Sorted(Sort(candidates)) && multiset(Sort(candidates)) == multiset(candidates)
  {
    if candidates != [] {
      var front, x := candidates[..|candidates| - 1], candidates[|candidates| - 1];
      SortIsSorted(front);
      InsertSorted(Sort(front), x);
      InsertElements(Sort(front), x);
      assert candidates == front + [x];
    }
  }

  function Take(s: seq<Ref>, k: nat): seq<Ref> {
    s[..Min(|s|, k)]
  }

  /** Only the first k of a sorted list can influence the first k after an insertion. */
  lemma {:induction false} InsertIntoTake(s: seq<Ref>, x: Ref, k: nat)
    requires Sorted(s)
    ensures Take(Insert(Take(s, k), x), k) == Take(Insert(s, x), k)
    decreases |s|
  {
    if |s| <= k {
      assert Take(s, k) == s;
    } else {
      var front, last := s[..|s| - 1], s[|s| - 1];
      InsertIntoTake(front, x, k);
      assert Take(front, k) == Take(s, k);
      if !Before(x, last) {
        InsertBehind(front, x, last, k);
      } else {
        assert Take(Insert(front, x) + [last], k) == Take(Insert(front, x), k);
      }
    }
  }

  lemma {:induction false} InsertBehind(front: seq<Ref>, x: Ref, last: Ref, k: nat)
    requires Sorted(front + [last]) && !Before(x, last) && |front| >= k
    ensures Take(Insert(front, x), k) == Take(front + [last] + [x], k)
  {
    if front != [] {
      var y := front[|front| - 1];
      assert (front + [last])[|front| - 1] == y && (front + [last])[|front|] == last;
      assert !Before(last, y);
    }
  }

  /** Shift everything x comes before one cell up and put x in the gap. */
  method ShiftIn(refs: array<Ref>, n: nat, x: Ref)
    requires n < refs.Length
    modifies refs
    ensures refs[..n + 1] == Insert(old(refs[..n]), x)
  {
    hide Insert;
    ghost var kept, tail := refs[..n], [];
    var pos := n;
    assert kept[..pos] == kept && Insert(kept, x) + tail == Insert(kept, x);
    while pos > 0 && Before(x, refs[pos - 1])
      invariant 0 <= pos <= n && |tail| == n - pos
      invariant forall k :: 0 <= k < |tail| ==> refs[pos + 1 + k] == tail[k]
      invariant forall k :: 0 <= k < pos ==> refs[k] == kept[k]
      invariant Insert(kept[..pos], x) + tail == Insert(kept, x)
    {
      InsertFront(kept, x, pos, tail);
      refs[pos] := refs[pos - 1];
      pos := pos - 1;
      ghost var behind := tail;
      tail := [kept[pos]] + tail;
      assert forall k :: 1 <= k < |tail| ==> tail[k] == behind[k - 1] == refs[pos + 2 + (k - 1)];
    }
    InsertHere(kept, x, pos);
    refs[pos] := x;
    assert refs[..n + 1] == kept[..pos] + [x] + tail;
  }

  lemma {:induction false} InsertFront(kept: seq<Ref>, x: Ref, pos: nat, tail: seq<Ref>)
    requires 0 < pos <= |kept| && Before(x, kept[pos - 1])
    ensures Insert(kept[..pos], x) + tail == Insert(kept[..pos - 1], x) + ([kept[pos - 1]] + tail)
  {
    assert kept[..pos][..pos - 1] == kept[..pos - 1];
  }

  lemma {:induction false} InsertHere(kept: seq<Ref>, x: Ref, pos: nat)
    requires pos <= |kept| && (pos > 0 ==> !Before(x, kept[pos - 1]))
    ensures Insert(kept[..pos], x) == kept[..pos] + [x]
  {
  }

  /** The insertion of one candidate into the array's first `count` cells. */
  method InsertRef(refs: array<Ref>, count: nat, capacity: nat, x: Ref) returns (newCount: nat, dropped: bool)
    requires count <= capacity <= refs.Length
    modifies refs
    ensures newCount <= capacity && refs[..newCount] == Take(Insert(old(refs[..count]), x), capacity)
    ensures dropped == (count == capacity)
  {
    if capacity == 0 {
      return 0, true;
    }
    ghost var before := refs[..count];
    if count < capacity {
      ShiftIn(refs, count, x);
      return count + 1, false;
    }
    if !Before(x, refs[count - 1]) {
      return count, true;
    }
    assert before[..capacity - 1] == refs[..capacity - 1];
    ShiftIn(refs, capacity - 1, x);
    return count, true;
  }

  /** A source item: whether it is a candidate at all, and its reference. */
  datatype Item = Item(live: bool, ref: Ref)

  function Candidates(items: seq<Item>): seq<Ref> {
    if items == [] then []
    else Candidates(items[..|items| - 1]) + if items[|items| - 1].live then [items[|items| - 1].ref] else []
  }

  /** Stream all items through the array. */
  method Select(items: seq<Item>, refs: array<Ref>, limit: nat) returns (count: nat, truncated: bool)
    modifies refs
    ensures var target := Min(limit, refs.Length);
            && count <= target && refs[..count] == Take(Sort(Candidates(items)), target)
            && truncated == (|Candidates(items)| > target)
  {
    var target := Min(limit, refs.Length);
    count, truncated := 0, false;
    for i := 0 to |items|
      invariant count <= target && refs[..count] == Take(Sort(Candidates(items[..i])), target)
      invariant truncated == (|Candidates(items[..i])| > target)
    {
      CandidatesNext(items, i, target);
      if items[i].live {
        var dropped;
        count, dropped := InsertRef(refs, count, target, items[i].ref);
        truncated := truncated || dropped;
      }
    }
    assert items[..|items|] == items;
  }

  lemma {:induction false} CandidatesNext(items: seq<Item>, i: nat, k: nat)
    requires i < |items|
    ensures var before, after := Candidates(items[..i]), Candidates(items[..i + 1]);
            if items[i].live then
              |after| == |before| + 1 && Take(Sort(after), k) == Take(Insert(Take(Sort(before), k), items[i].ref), k)
            else after == before
  {
    assert items[..i + 1][..i] == items[..i];
    if items[i].live {
      var before, x := Candidates(items[..i]), items[i].ref;
      assert Candidates(items[..i + 1]) == before + [x] && (before + [x])[..|before|] == before;
      SortIsSorted(before);
      InsertIntoTake(Sort(before), x, k);
    }
  }

  function Reverse(s: seq<Ref>): (r: seq<Ref>)
    ensures |r| == |s| && forall i :: 0 <= i < |s| ==> r[i] == s[|s| - 1 - i]
  {
    if s == [] then [] else [s[|s| - 1]] + Reverse(s[..|s| - 1])
  }

  /** The journal's references are selected newest first and then turned round in place. */
  method ReverseRefs(refs: array<Ref>, count: nat)
    requires count <= refs.Length
    modifies refs
    ensures refs[..count] == Reverse(old(refs[..count]))
  {
    ghost var before := refs[..count];
    var i := 0;
    while i < count / 2
      invariant i <= count / 2
      invariant forall k :: 0 <= k < i || count - i <= k < count ==> refs[k] == before[count - 1 - k]
      invariant forall k :: i <= k < count - i ==> refs[k] == before[k]
    {
      var other := count - 1 - i;
      refs[i], refs[other] := refs[other], refs[i];
      i := i + 1;
    }
  }

  method SelectJournal(items: seq<Item>, refs: array<Ref>, limit: nat) returns (count: nat, truncated: bool)
    modifies refs
    ensures var target := Min(limit, refs.Length);
            && count <= target && refs[..count] == Reverse(Take(Sort(Candidates(items)), target))
            && truncated == (|Candidates(items)| > target)
  {
    count, truncated := Select(items, refs, limit);
    ReverseRefs(refs, count);
  }

  /** What a selection means without mentioning a sort: the kept references are candidates, in
      order, and nothing left out comes before anything kept. */
  lemma {:induction false} TakenAreBest(candidates: seq<Ref>, k: nat) returns (rest: seq<Ref>)
    ensures var kept := Take(Sort(candidates), k);
            && |kept| == Min(|candidates|, k) && Sorted(kept)
            && multiset(kept) + multiset(rest) == multiset(candidates)
            && forall a, b :: a in kept && b in rest ==> !Before(b, a)
  {
    var s := Sort(candidates);
    SortIsSorted(candidates);
    hide Sort, Before;
    var n := Min(|s|, k);
    rest := s[n..];
    assert s == s[..n] + rest;
    PrefixIsBest(s, n);
  }

  lemma {:induction false} PrefixIsBest(s: seq<Ref>, n: nat)
    requires Sorted(s) && n <= |s|
    ensures Sorted(s[..n]) && forall a, b :: a in s[..n] && b in s[n..] ==> !Before(b, a)
  {
    hide Before;
    forall a, b | a in s[..n] && b in s[n..]
      ensures !Before(b, a)
    {
      var i :| 0 <= i < n && s[i] == a;
      var j :| n <= j < |s| && s[j] == b;
    }
  }
}
