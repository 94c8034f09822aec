/** Task shapes and the choice among attempts, from src/eval/eval.c and the best-of-N loop of
    src/cli/main.c. A shape is a key made of the actions a trajectory takes. */
module Eval {
  import opened Statuses
  import opened SexprLex
  import opened SexprTree
  import opened SexprParse
  import opened SexprRead
  import opened Sequences
  import R = Recommendation

  const MAX_TOKENS: nat := 16
  const TOKEN_MAX: nat := 48
  const REPLY_TOKENS: nat := 256

  // ---- The order of strings -------------------------------------------------------------------

  /** strcmp(a, b) < 0. */
  predicate Less(a: string, b: string) {
    if b == [] then false
    else if a == [] then true
    else if a[0] != b[0] then a[0] < b[0]
    else Less(a[1..], b[1..])
  }

  lemma {:induction false} LessTransitive(a: string, b: string, c: string)
    requires Less(a, b) && Less(b, c)
    ensures Less(a, c)
  {
    if a != [] && a[0] == b[0] == c[0] {
      LessTransitive(a[1..], b[1..], c[1..]);
    }
  }

  lemma {:induction false} LessTotal(a: string, b: string)
    ensures a == b || Less(a, b) || Less(b, a)
    ensures !(Less(a, b) && Less(b, a)) && !Less(a, a)
  {
    if a != [] {
      LessTotal(a[1..], a[1..]);
      if b != [] && a[0] == b[0] {
        LessTotal(a[1..], b[1..]);
        assert a == [a[0]] + a[1..] && b == [b[0]] + b[1..];
      }
    }
  }

  // ---- The sorted set of tokens -----------------------------------------------------------------

  predicate Sorted(s: seq<string>) {
    forall i, j | 0 <= i < j < |s| :: Less(s[i], s[j])
  }

  /** Where a token belongs: before the first that is not less. */
  function Place(s: seq<string>, t: string): nat {
    if s == [] || !Less(s[0], t) then 0 else 1 + Place(s[1..], t)
  }

  lemma {:induction false} PlaceMeans(s: seq<string>, t: string)
    ensures Place(s, t) <= |s| && (Place(s, t) < |s| ==> !Less(s[Place(s, t)], t))
    ensures forall k | 0 <= k < Place(s, t) :: Less(s[k], t)
  {
    if s != [] && Less(s[0], t) {
      PlaceMeans(s[1..], t);
      forall k | 0 <= k < Place(s, t)
        ensures Less(s[k], t)
      {
        assert k > 0 ==> s[k] == s[1..][k - 1];
      }
    }
  }

  /** Insert a token in order; a duplicate, or a token more than fit, changes nothing. */
  function AddToken(s: seq<string>, t: string): seq<string> {
    var p := Place(s, t);
    PlaceMeans(s, t);
    if (p < |s| && s[p] == t) || |s| >= MAX_TOKENS then s else s[..p] + [t] + s[p..]
  }

  lemma {:induction false} PlaceFinds(s: seq<string>, t: string)
    requires Sorted(s)
    ensures t in s <==> Place(s, t) < |s| && s[Place(s, t)] == t
  {
    PlaceMeans(s, t);
    var p := Place(s, t);
    if t in s {
      var i :| 0 <= i < |s| && s[i] == t;
      LessTotal(t, t);
      assert p <= i;
      if p < i {
        LessTotal(s[p], t);
      }
    }
  }

  lemma {:induction false} AddSorted(s: seq<string>, t: string)
    requires Sorted(s)
    ensures Sorted(AddToken(s, t))
    ensures forall x :: x in AddToken(s, t) <==> x in s || (x == t && |s| < MAX_TOKENS)
    ensures |AddToken(s, t)| == if t in s || |s| >= MAX_TOKENS then |s| else |s| + 1
  {
    PlaceMeans(s, t);
    PlaceFinds(s, t);
    var p, r := Place(s, t), AddToken(s, t);
    if r != s {
      forall k | p <= k < |s|
        ensures Less(t, s[k])
      {
        LessTotal(s[p], t);
        if p < k {
          LessTransitive(t, s[p], s[k]);
        }
      }
    }
  }

  /** Tokens in the order they come, kept as a sorted set of at most 16. */
  function Shape(tokens: seq<string>): seq<string> {
    if tokens == [] then [] else AddToken(Shape(tokens[..|tokens| - 1]), tokens[|tokens| - 1])
  }

  function Elements<T>(tokens: seq<T>): set<T> {
    set t | t in tokens
  }

  lemma {:induction false} ElementsStep<T>(tokens: seq<T>)
    requires tokens != []
    ensures Elements(tokens) == Elements(tokens[..|tokens| - 1]) + {tokens[|tokens| - 1]}
  {
    assert tokens == tokens[..|tokens| - 1] + [tokens[|tokens| - 1]];
  }

  lemma {:induction false} SortedSize(s: seq<string>)
    requires Sorted(s)
    ensures |Elements(s)| == |s|
  {
    if s != [] {
      var front, last := s[..|s| - 1], s[|s| - 1];
      SortedSize(front);
      ElementsStep(s);
      forall x | x in front
        ensures x != last
      {
        var i :| 0 <= i < |front| && front[i] == x;
        assert Less(s[i], s[|s| - 1]);
        LessTotal(x, last);
      }
    }
  }

  /** The shape is sorted without repetition, and as long as at most 16 tokens are distinct it
      has them all. */
  lemma {:induction false} ShapeMeans(tokens: seq<string>)
    ensures Sorted(Shape(tokens)) && |Shape(tokens)| <= MAX_TOKENS
    ensures Elements(Shape(tokens)) <= Elements(tokens)
    ensures |Elements(tokens)| <= MAX_TOKENS <==> Elements(Shape(tokens)) == Elements(tokens)
  {
    if tokens != [] {
      var front, last := tokens[..|tokens| - 1], tokens[|tokens| - 1];
      ShapeMeans(front);
      ElementsStep(tokens);
      AddSorted(Shape(front), last);
      SortedSize(Shape(front));
      SortedSize(Shape(tokens));
      hide AddToken, Sorted, Place;
      SubsetSize(Elements(front), Elements(tokens));
    }
  }

  lemma {:induction false} HeadIsLeast(s: seq<string>, x: string)
    requires Sorted(s) && x in s
    ensures x == s[0] || Less(s[0], x)
  {
    var i :| 0 <= i < |s| && s[i] == x;
  }

  lemma {:induction false} TailElements(s: seq<string>)
    requires Sorted(s) && s != []
    ensures Sorted(s[1..]) && Elements(s[1..]) == Elements(s) - {s[0]}
  {
    assert s == [s[0]] + s[1..];
    forall x | x in s[1..]
      ensures x != s[0]
    {
      var i :| 0 <= i < |s[1..]| && s[1..][i] == x;
      assert Less(s[0], s[i + 1]);
      LessTotal(x, x);
    }
  }

  /** A sorted list is determined by its elements. */
  lemma {:induction false} SortedUnique(a: seq<string>, b: seq<string>)
    requires Sorted(a) && Sorted(b) && Elements(a) == Elements(b)
    ensures a == b
    decreases |a|
  {
    assert a != [] ==> a[0] in Elements(a);
    assert b != [] ==> b[0] in Elements(b);
    if a != [] && b != [] {
      HeadIsLeast(a, b[0]);
      HeadIsLeast(b, a[0]);
      LessTotal(a[0], b[0]);
      TailElements(a);
      TailElements(b);
      SortedUnique(a[1..], b[1..]);
      assert a == [a[0]] + a[1..] && b == [b[0]] + b[1..];
    }
  }

  /** Order and repetition of at most 16 distinct tokens do not matter. */
  lemma {:induction false} SameElementsSameShape(a: seq<string>, b: seq<string>)
    requires |Elements(a)| <= MAX_TOKENS && |Elements(b)| <= MAX_TOKENS
    ensures Shape(a) == Shape(b) <==> Elements(a) == Elements(b)
  {
    ShapeMeans(a);
    ShapeMeans(b);
    if Elements(a) == Elements(b) {
      SortedUnique(Shape(a), Shape(b));
    }
  }

  lemma {:induction false} FirstKept(tokens: seq<string>)
    requires tokens != []
    ensures tokens[0] in Shape(tokens)
  {
    var front, last := tokens[..|tokens| - 1], tokens[|tokens| - 1];
    ShapeMeans(front);
    AddSorted(Shape(front), last);
    if |tokens| > 1 {
      FirstKept(front);
    }
  }

  /** With more than 16 distinct tokens the first ones win, so some reordering has another shape:
      the shape is that of the set exactly when at most 16 tokens are distinct. */
  lemma {:induction false} OrderIrrelevantIff(tokens: seq<string>)
    ensures |Elements(tokens)| <= MAX_TOKENS
       <==> forall us :: multiset(us) == multiset(tokens) ==> Shape(us) == Shape(tokens)
  {
    if |Elements(tokens)| <= MAX_TOKENS {
      forall us | multiset(us) == multiset(tokens)
        ensures Shape(us) == Shape(tokens)
      {
        SameElements(us, tokens);
        assert Elements(us) == Elements(tokens);
        SameElementsSameShape(us, tokens);
      }
    } else {
      var us := OtherOrder(tokens);
      assert multiset(us) == multiset(tokens);
    }
  }

  lemma {:induction false} OtherOrder(tokens: seq<string>) returns (us: seq<string>)
    requires |Elements(tokens)| > MAX_TOKENS
    ensures multiset(us) == multiset(tokens) && Shape(us) != Shape(tokens)
  {
    ShapeMeans(tokens);
    var x :| x in Elements(tokens) && x !in Elements(Shape(tokens));
    var j :| 0 <= j < |tokens| && tokens[j] == x;
    us := [x] + RemoveAt(tokens, j);
    RemoveAtElements(tokens, j);
    FirstKept(us);
    assert x in Shape(us) && x !in Shape(tokens);
  }

  // ---- Sequences of tokens ----------------------------------------------------------------------------

  /** Consecutive duplicates dropped, at most 16 kept. */
  function Collapse(tokens: seq<string>): seq<string> {
    if tokens == [] then [] else CollapseStep(Collapse(tokens[..|tokens| - 1]), tokens[|tokens| - 1])
  }

  function CollapseStep(s: seq<string>, t: string): seq<string> {
    if (s != [] && s[|s| - 1] == t) || |s| >= MAX_TOKENS then s else s + [t]
  }

  /** Consecutive duplicates dropped. */
  function Runs<T(==)>(tokens: seq<T>): seq<T> {
    if tokens == [] then []
    else
      var front, last := tokens[..|tokens| - 1], tokens[|tokens| - 1];
      if front != [] && front[|front| - 1] == last then Runs(front) else Runs(front) + [last]
  }

  lemma {:induction false} RunsEnd<T>(tokens: seq<T>)
    requires tokens != []
    ensures Runs(tokens) != [] && Runs(tokens)[|Runs(tokens)| - 1] == tokens[|tokens| - 1]
  {
    if |tokens| > 1 {
      RunsEnd(tokens[..|tokens| - 1]);
    }
  }

  /** The sequence key is the first 16 runs of equal tokens. */
  lemma {:induction false} CollapseIsFirstRuns(tokens: seq<string>)
    ensures Collapse(tokens) == Runs(tokens)[..Min(|Runs(tokens)|, MAX_TOKENS)]
  {
    if tokens != [] {
      var front := tokens[..|tokens| - 1];
      CollapseIsFirstRuns(front);
      if front != [] {
        RunsEnd(front);
      }
    }
  }

  /** Repeating a step right away does not change the runs, wherever it happens. */
  lemma {:induction false} RunsOfStutter(a: seq<string>, x: string, b: seq<string>)
    ensures Runs(a + [x, x] + b) == Runs(a + [x] + b)
    decreases |b|
  {
    var long, short := a + [x, x] + b, a + [x] + b;
    if b == [] {
      assert long == (a + [x]) + [x] && short == a + [x];
      assert long[..|long| - 1] == a + [x];
    } else {
      var front := b[..|b| - 1];
      assert long[..|long| - 1] == a + [x, x] + front && short[..|short| - 1] == a + [x] + front;
      assert (a + [x, x] + front)[|a| + 1 + |front|] == (a + [x] + front)[|a| + |front|];
      RunsOfStutter(a, x, front);
    }
  }

  lemma {:induction false} StutterIrrelevant(a: seq<string>, x: string, b: seq<string>)
    ensures Collapse(a + [x, x] + b) == Collapse(a + [x] + b)
  {
    RunsOfStutter(a, x, b);
    CollapseIsFirstRuns(a + [x, x] + b);
    CollapseIsFirstRuns(a + [x] + b);
  }

  // ---- Keys ---------------------------------------------------------------------------------------------

  function Join(tokens: seq<string>, joiner: char): string {
    if tokens == [] then []
    else if |tokens| == 1 then tokens[0]
    else Join(tokens[..|tokens| - 1], joiner) + [joiner] + tokens[|tokens| - 1]
  }

  predicate Plain(tokens: seq<string>, joiner: char) {
    forall t | t in tokens :: t != [] && joiner !in t
  }

  lemma {:induction false} JoinFront(tokens: seq<string>, joiner: char)
    requires |tokens| > 1
    ensures Join(tokens, joiner) == tokens[0] + [joiner] + Join(tokens[1..], joiner)
    decreases |tokens|
  {
    if |tokens| == 2 {
      assert tokens[..1] == [tokens[0]] && tokens[1..] == [tokens[1]];
    } else {
      var front, back := tokens[..|tokens| - 1], tokens[1..];
      JoinFront(front, joiner);
      assert front[1..] == back[..|back| - 1];
      Regroup(tokens[0] + [joiner], Join(front[1..], joiner), [joiner], tokens[|tokens| - 1]);
    }
  }

  lemma {:induction false} Regroup(a: string, b: string, c: string, d: string)
    ensures (a + b) + c + d == a + (b + c + d)
  {
  }

  /** The first place of the joiner, or the end of the text. */
  function Cut(text: string, joiner: char): nat {
    if text == [] || text[0] == joiner then 0 else 1 + Cut(text[1..], joiner)
  }

  lemma {:induction false} CutAt(t: string, rest: string, joiner: char)
    requires joiner !in t && (rest == [] || rest[0] == joiner)
    ensures Cut(t + rest, joiner) == |t|
  {
    if t == [] {
      assert t + rest == rest;
    } else {
      assert (t + rest)[1..] == t[1..] + rest;
      CutAt(t[1..], rest, joiner);
    }
  }

  /** What follows the first token of a key. */
  function Rest(tokens: seq<string>, joiner: char): string
    requires tokens != []
  {
    if |tokens| == 1 then [] else [joiner] + Join(tokens[1..], joiner)
  }

  lemma {:induction false} JoinCut(tokens: seq<string>, joiner: char)
    requires Plain(tokens, joiner) && tokens != []
    ensures Join(tokens, joiner) != [] && Cut(Join(tokens, joiner), joiner) == |tokens[0]|
    ensures Join(tokens, joiner) == tokens[0] + Rest(tokens, joiner)
  {
    if |tokens| == 1 {
      CutAt(tokens[0], [], joiner);
      assert tokens[0] + [] == tokens[0];
    } else {
      JoinFront(tokens, joiner);
      var rest := [joiner] + Join(tokens[1..], joiner);
      assert Join(tokens, joiner) == tokens[0] + rest;
      CutAt(tokens[0], rest, joiner);
    }
  }

  lemma PlainTail(tokens: seq<string>, joiner: char)
    requires Plain(tokens, joiner) && tokens != []
    ensures Plain(tokens[1..], joiner)
  {
    forall t | t in tokens[1..]
      ensures t in tokens
    {
    }
  }

  lemma SplitUnique(a: string, rest: string, b: string, rest': string)
    requires a + rest == b + rest' && |a| == |b|
    ensures a == b && rest == rest'
  {
    assert a == (a + rest)[..|a|] && b == (b + rest')[..|b|];
    assert rest == (a + rest)[|a|..] && rest' == (b + rest')[|b|..];
  }

  lemma RestUnique(a: seq<string>, b: seq<string>, joiner: char)
    requires a != [] && b != [] && Rest(a, joiner) == Rest(b, joiner)
    ensures |a| == 1 <==> |b| == 1
    ensures |a| > 1 ==> Join(a[1..], joiner) == Join(b[1..], joiner)
  {
    assert |a| > 1 ==> Rest(a, joiner)[1..] == Join(a[1..], joiner);
    assert |b| > 1 ==> Rest(b, joiner)[1..] == Join(b[1..], joiner);
  }

  /** A key determines its tokens, as long as none contains the joiner. */
  lemma {:induction false} JoinInjective(a: seq<string>, b: seq<string>, joiner: char)
    requires Plain(a, joiner) && Plain(b, joiner) && Join(a, joiner) == Join(b, joiner)
    ensures a == b
    decreases |a|
  {
    assert Join([], joiner) == [];
    hide Join, Rest;
    if a != [] {
      JoinCut(a, joiner);
    }
    if b != [] {
      JoinCut(b, joiner);
    }
    if a != [] && b != [] {
      SplitUnique(a[0], Rest(a, joiner), b[0], Rest(b, joiner));
      RestUnique(a, b, joiner);
      assert a == [a[0]] + a[1..] && b == [b[0]] + b[1..];
      if |a| > 1 {
        PlainTail(a, joiner);
        PlainTail(b, joiner);
        JoinInjective(a[1..], b[1..], joiner);
      }
    }
  }

  /** A key determines the tokens it was made of, if none contains the joiner. */
  lemma {:induction false} KeyDecidesShape(a: seq<string>, b: seq<string>)
    requires Plain(a, '+') && Plain(b, '+')
    ensures Join(Shape(a), '+') == Join(Shape(b), '+') <==> Shape(a) == Shape(b)
  {
    ShapeMeans(a);
    ShapeMeans(b);
    PlainElements(a, Shape(a), '+');
    PlainElements(b, Shape(b), '+');
    hide Shape, Elements, Join, Plain;
    if Join(Shape(a), '+') == Join(Shape(b), '+') {
      JoinInjective(Shape(a), Shape(b), '+');
    }
  }

  lemma {:induction false} KeyDecidesRuns(a: seq<string>, b: seq<string>)
    requires Plain(a, '>') && Plain(b, '>')
    ensures Join(Collapse(a), '>') == Join(Collapse(b), '>') <==> Collapse(a) == Collapse(b)
  {
    CollapseElements(a);
    CollapseElements(b);
    PlainElements(a, Collapse(a), '>');
    PlainElements(b, Collapse(b), '>');
    hide Collapse, Join, Plain;
    if Join(Collapse(a), '>') == Join(Collapse(b), '>') {
      JoinInjective(Collapse(a), Collapse(b), '>');
    }
  }

  lemma {:induction false} CollapseElements(tokens: seq<string>)
    ensures Elements(Collapse(tokens)) <= Elements(tokens)
  {
    if tokens != [] {
      CollapseElements(tokens[..|tokens| - 1]);
      ElementsStep(tokens);
    }
  }

  lemma {:induction false} PlainElements(a: seq<string>, b: seq<string>, joiner: char)
    requires Plain(a, joiner) && Elements(b) <= Elements(a)
    ensures Plain(b, joiner)
  {
    forall t | t in b
      ensures t in a
    {
      assert t in Elements(b);
    }
  }

  // ---- The token of a reply -------------------------------------------------------------------------------

  function Truncate(text: string): string {
    text[..Min(|text|, TOKEN_MAX)]
  }

  /** A kind alone, or a kind with its capability, cut to the size of a token cell. */
  function Label(kind: R.Kind, capability: string): string {
    if capability == [] then R.KindName(kind) else Truncate(R.KindName(kind) + ":" + capability)
  }

  function CapabilityIn(table: R.Table): string {
    if R.Capability in table && table[R.Capability].TextIs? then table[R.Capability].text else []
  }

  /** What a parsed reply adds. A rejected reply counts as a bare local_shell: its record is zero, and
      zero is that kind. */
  function FormsToken(forms: seq<Form>): Option<string> {
    if R.Fault(forms).Some? then Some(Label(R.LocalShell, []))
    else
      var table := R.Collect(forms[0].items[1..]).table;
      if R.KindIn(table) == R.Finish then None else Some(Label(R.KindIn(table), CapabilityIn(table)))
  }

  /** What a reply adds to a trajectory: nothing if it is too long to parse, or finishes. */
  ghost function ReplyToken(reply: string): Option<string> {
    match TextStatus(reply, REPLY_TOKENS, REPLY_TOKENS)
    case Ok => FormsToken(FormsOf(reply, ForestOf(reply, REPLY_TOKENS, REPLY_TOKENS)))
    case Limit => None
    case _ => Some(Label(R.LocalShell, []))
  }

  ghost function ReplyTokens(replies: seq<string>): seq<string> {
    if replies == [] then []
    else
      var t := ReplyToken(replies[|replies| - 1]);
      ReplyTokens(replies[..|replies| - 1]) + if t.Some? then [t.value] else []
  }

  lemma {:induction false} ReplyTokensAppend(a: seq<string>, b: seq<string>)
    ensures ReplyTokens(a + b) == ReplyTokens(a) + ReplyTokens(b)
  {
    hide ReplyToken;
    if b == [] {
      assert a + b == a;
    } else {
      assert (a + b)[..|a + b| - 1] == a + b[..|b| - 1];
      ReplyTokensAppend(a, b[..|b| - 1]);
    }
  }

  /** A reply that says `table`, in so many words. */
  ghost predicate Replies(reply: string, table: R.Table) {
    && TextStatus(reply, REPLY_TOKENS, REPLY_TOKENS) == Ok
    && R.Says(FormsOf(reply, ForestOf(reply, REPLY_TOKENS, REPLY_TOKENS)), table)
  }

  lemma {:induction false} ReplyTokenMeans(reply: string, table: R.Table)
    requires Replies(reply, table)
    ensures ReplyToken(reply) == if R.KindIn(table) == R.Finish then None
                                 else Some(Label(R.KindIn(table), CapabilityIn(table)))
  {
    var forms := FormsOf(reply, ForestOf(reply, REPLY_TOKENS, REPLY_TOKENS));
    hide R.Fault, R.Collect, R.Complete, R.KindRules;
    R.ValidMeans(forms);
    R.SaysOnce(forms, table, R.Collect(forms[0].items[1..]).table);
  }

  /** A reply that finishes leaves every key as it was, wherever it comes. */
  lemma {:induction false} FinishAddsNothing(a: seq<string>, reply: string, b: seq<string>, table: R.Table)
    requires Replies(reply, table) && R.KindIn(table) == R.Finish
    ensures ReplyTokens(a + [reply] + b) == ReplyTokens(a + b)
  {
    ReplyTokenMeans(reply, table);
    hide Replies, ReplyToken, ReplyTokens;
    TokensAround(a, reply, b);
  }

  lemma OneReply(reply: string)
    ensures ReplyTokens([reply]) == if ReplyToken(reply).Some? then [ReplyToken(reply).value] else []
  {
    hide ReplyToken;
    assert [reply][..0] == [];
  }

  lemma {:induction false} TokensAround(a: seq<string>, reply: string, b: seq<string>)
    ensures var t := ReplyToken(reply);
            && ReplyTokens(a + [reply] + b) == ReplyTokens(a) + (if t.Some? then [t.value] else []) + ReplyTokens(b)
            && ReplyTokens(a + b) == ReplyTokens(a) + ReplyTokens(b)
  {
    hide ReplyToken, ReplyTokens;
    OneReply(reply);
    ReplyTokensAppend(a, b);
    ReplyTokensAppend(a + [reply], b);
    ReplyTokensAppend(a, [reply]);
  }

  ghost predicate Finishes(reply: string) {
    exists table :: Replies(reply, table) && R.KindIn(table) == R.Finish
  }

  lemma {:induction false} FinishToken(reply: string)
    requires Finishes(reply)
    ensures ReplyToken(reply) == None
  {
    hide ReplyToken, Replies;
    var table :| Replies(reply, table) && R.KindIn(table) == R.Finish;
    ReplyTokenMeans(reply, table);
  }

  /** A reply that fits the parser's arrays and is no valid recommendation. */
  ghost predicate Rejected(reply: string) {
    TextStatus(reply, REPLY_TOKENS, REPLY_TOKENS) != Limit && forall table :: !Replies(reply, table)
  }

  const REJECTED_TOKEN: string := "local_shell"

  /** A rejected reply is not skipped: it adds the token of a shell command without capability. */
  lemma {:induction false} RejectedToken(reply: string)
    requires Rejected(reply)
    ensures ReplyToken(reply) == Some(REJECTED_TOKEN)
  {
    if TextStatus(reply, REPLY_TOKENS, REPLY_TOKENS) == Ok {
      var forms := FormsOf(reply, ForestOf(reply, REPLY_TOKENS, REPLY_TOKENS));
      hide R.Fault, R.Collect, R.Complete, R.KindRules, TextStatus;
      R.ValidMeans(forms);
      forall table
        ensures !R.Says(forms, table)
      {
        assert R.Says(forms, table) == Replies(reply, table);
      }
    }
  }

  /** A reply adds nothing exactly when it is too long to parse or finishes. */
  lemma {:induction false} AddsNothingIff(reply: string)
    ensures ReplyToken(reply) == None <==> TextStatus(reply, REPLY_TOKENS, REPLY_TOKENS) == Limit || Finishes(reply)
  {
    if Finishes(reply) {
      FinishToken(reply);
    } else if Rejected(reply) {
      RejectedToken(reply);
    } else if TextStatus(reply, REPLY_TOKENS, REPLY_TOKENS) != Limit {
      var table :| Replies(reply, table);
      ReplyTokenMeans(reply, table);
    }
  }

  /** A single parenthesis does not parse, and still adds a token. */
  lemma {:induction false} UnparseableAdds()
    ensures TextStatus(")", REPLY_TOKENS, REPLY_TOKENS) == Format && Rejected(")")
    ensures ReplyToken(")") == Some(REJECTED_TOKEN)
  {
    CloseParen(")");
    hide TextStatus, ReplyToken;
    RejectedToken(")");
  }

  lemma {:induction false} CloseParen(reply: string)
    requires |reply| == 1 && reply[0] == ')'
    ensures TextStatus(reply, REPLY_TOKENS, REPLY_TOKENS) == Format
  {
    LexCloseParen(reply);
    var token := TokenAt(RParen, START, 1);
    hide Lex;
    assert StatusFrom(0, [token], REPLY_TOKENS) == Format;
  }

  lemma {:induction false} LexCloseParen(reply: string)
    requires |reply| == 1 && reply[0] == ')'
    ensures Lex(reply, START) == Lexed([TokenAt(RParen, START, 1)], None)
  {
    hide StringScan, SymbolScan, LineEnd;
    var token, end := TokenAt(RParen, START, 1), Advance(START, 1);
    assert Lex(reply, end) == Lexed([], None);
    assert Lex(reply, START) == Prepend([token], Lex(reply, end));
    hide Lex;
    assert [token] + [] == [token];
  }

  // ---- What one more token does to a shape ----------------------------------------------------------

  /** A shape depends on the tokens before only through their shape. */
  lemma {:induction false} ShapeGoesOn(a: seq<string>, b: seq<string>, more: seq<string>)
    requires Shape(a) == Shape(b)
    ensures Shape(a + more) == Shape(b + more)
    decreases |more|
  {
    if more == [] {
      assert a + more == a && b + more == b;
    } else {
      var front := more[..|more| - 1];
      ShapeGoesOn(a, b, front);
      assert (a + more)[..|a + more| - 1] == a + front && (b + more)[..|b + more| - 1] == b + front;
    }
  }

  lemma {:induction false} ShapeNext(tokens: seq<string>, t: string)
    ensures Sorted(Shape(tokens)) && Sorted(Shape(tokens + [t]))
    ensures Elements(Shape(tokens + [t])) == Elements(Shape(tokens)) + if |Shape(tokens)| < MAX_TOKENS then {t} else {}
    ensures |Shape(tokens + [t])| == if t in Shape(tokens) || |Shape(tokens)| >= MAX_TOKENS then |Shape(tokens)|
                                     else |Shape(tokens)| + 1
  {
    ShapeMeans(tokens);
    AddSorted(Shape(tokens), t);
    assert (tokens + [t])[..|tokens|] == tokens;
  }

  lemma InElements<T>(s: seq<T>, x: T)
    ensures x in Elements(s) <==> x in s
  {
  }

  /** How shapes with and without x put in compare. */
  predicate WithAdded(long: seq<string>, short: seq<string>, x: string) {
    && x in long
    && (x in short ==> Elements(long) == Elements(short) && |long| == |short|)
    && (x !in short && |short| < MAX_TOKENS ==> Elements(long) == Elements(short) + {x} && |long| == |short| + 1)
  }

  lemma {:induction false} WithAddedNext(long: seq<string>, short: seq<string>, x: string, t: string)
    requires WithAdded(Shape(long), Shape(short), x)
    ensures WithAdded(Shape(long + [t]), Shape(short + [t]), x)
  {
    ShapeNext(long, t);
    ShapeNext(short, t);
    InElements(Shape(long), x);
    InElements(Shape(long), t);
    InElements(Shape(long + [t]), x);
    InElements(Shape(short), x);
    InElements(Shape(short), t);
    InElements(Shape(short + [t]), x);
    hide Shape, Elements, Sorted;
  }

  lemma {:induction false} ShapeWith(a: seq<string>, x: string, b: seq<string>)
    requires x !in Shape(a) && |Shape(a)| < MAX_TOKENS
    ensures WithAdded(Shape(a + [x] + b), Shape(a + b), x)
    decreases |b|
  {
    hide Shape, Elements, Sorted;
    if b == [] {
      assert a + [x] + b == a + [x] && a + b == a;
      ShapeNext(a, x);
      InElements(Shape(a + [x]), x);
    } else {
      hide WithAdded;
      var front, last := b[..|b| - 1], b[|b| - 1];
      ShapeWith(a, x, front);
      WithAddedNext(a + [x] + front, a + front, x, last);
      assert a + [x] + b == a + [x] + front + [last] && a + b == a + front + [last];
    }
  }

  /** One more token anywhere leaves the shape as it was exactly when the shape has it anyway or was
      full before. */
  lemma {:induction false} ShapeUnchangedIff(a: seq<string>, x: string, b: seq<string>)
    ensures Shape(a + [x] + b) == Shape(a + b) <==> x in Shape(a + b) || |Shape(a)| == MAX_TOKENS
  {
    ShapeMeans(a);
    ShapeMeans(a + b);
    ShapeMeans(a + [x] + b);
    ShapeNext(a, x);
    hide Shape, Sorted;
    if |Shape(a)| == MAX_TOKENS || x in Shape(a) {
      assert Elements(Shape(a + [x])) == Elements(Shape(a));
      SortedUnique(Shape(a + [x]), Shape(a));
      ShapeGoesOn(a + [x], a, b);
      ShapeKeeps(a, x, b);
    } else {
      ShapeWith(a, x, b);
      if x in Shape(a + b) {
        SortedUnique(Shape(a + [x] + b), Shape(a + b));
      }
    }
  }

  lemma {:induction false} ShapeKeeps(a: seq<string>, x: string, b: seq<string>)
    ensures x in Shape(a) ==> x in Shape(a + b)
    decreases |b|
  {
    if b == [] {
      assert a + b == a;
    } else {
      var front, last := b[..|b| - 1], b[|b| - 1];
      ShapeKeeps(a, x, front);
      assert a + b == a + front + [last];
      ShapeNext(a + front, last);
      assert x in Shape(a + front) ==> x in Elements(Shape(a + front));
    }
  }

  // ---- The tokens that count ------------------------------------------------------------------------

  /** Every element once, in the order they come. */
  function Firsts<T(==)>(s: seq<T>): seq<T> {
    if s == [] then []
    else
      var before, last := Firsts(s[..|s| - 1]), s[|s| - 1];
      if last in before then before else before + [last]
  }

  /** The first 16 different ones. */
  function Leading<T(==)>(s: seq<T>): seq<T> {
    Firsts(s)[..Min(|Firsts(s)|, MAX_TOKENS)]
  }

  lemma {:induction false} FirstsElements<T>(s: seq<T>)
    ensures Elements(Firsts(s)) == Elements(s) && |Firsts(s)| == |Elements(s)|
  {
    if s != [] {
      FirstsElements(s[..|s| - 1]);
      ElementsStep(s);
      ElementsStep(Firsts(s[..|s| - 1]) + [s[|s| - 1]]);
    }
  }

  /** The shape is made of the first 16 different tokens. */
  lemma {:induction false} ShapeIsLeading(tokens: seq<string>)
    ensures Elements(Shape(tokens)) == Elements(Leading(tokens)) && |Shape(tokens)| == |Leading(tokens)|
  {
    if tokens != [] {
      var front, last := tokens[..|tokens| - 1], tokens[|tokens| - 1];
      assert front + [last] == tokens;
      ShapeIsLeading(front);
      ShapeNext(front, last);
      InElements(Shape(front), last);
      InElements(Leading(front), last);
      hide Shape, Sorted;
      var before, after := Leading(front), Leading(tokens);
      if last !in Firsts(front) && |before| < MAX_TOKENS {
        assert after == before + [last];
        ElementsStep(after);
      } else {
        assert after == before;
      }
    }
  }

  /** Two shapes are the same exactly when the first 16 different tokens are, in whatever order. */
  lemma {:induction false} SameShapeIff(a: seq<string>, b: seq<string>)
    ensures Shape(a) == Shape(b) <==> Elements(Leading(a)) == Elements(Leading(b))
  {
    ShapeIsLeading(a);
    ShapeIsLeading(b);
    ShapeMeans(a);
    ShapeMeans(b);
    if Elements(Leading(a)) == Elements(Leading(b)) {
      SortedUnique(Shape(a), Shape(b));
    }
  }

  lemma {:induction false} RejectedTokens(a: seq<string>, reply: string, b: seq<string>)
    requires Rejected(reply)
    ensures ReplyTokens(a + [reply] + b) == ReplyTokens(a) + [REJECTED_TOKEN] + ReplyTokens(b)
    ensures ReplyTokens(a + b) == ReplyTokens(a) + ReplyTokens(b)
  {
    RejectedToken(reply);
    TokensAround(a, reply, b);
  }

  /** A rejected reply leaves the shape of a trajectory as it was exactly when the trajectory's shape
      has a bare local_shell anyway, or was full before the reply. */
  lemma {:induction false} RejectedUnchangedIff(a: seq<string>, reply: string, b: seq<string>)
    requires Rejected(reply)
    ensures Shape(ReplyTokens(a + [reply] + b)) == Shape(ReplyTokens(a + b))
       <==> REJECTED_TOKEN in Shape(ReplyTokens(a + b)) || |Shape(ReplyTokens(a))| == MAX_TOKENS
  {
    RejectedTokens(a, reply, b);
    ShapeUnchangedIff(ReplyTokens(a), REJECTED_TOKEN, ReplyTokens(b));
  }

  lemma PlainAround(a: seq<string>, x: string, b: seq<string>, joiner: char)
    requires Plain(a + b, joiner) && x != [] && joiner !in x
    ensures Plain(a + [x] + b, joiner)
  {
    forall t | t in a + [x] + b
      ensures t == x || t in a + b
    {
    }
  }

  /** The same for the key, if no token of the others contains the joiner. */
  lemma {:induction false} RejectedKeyIff(a: seq<string>, reply: string, b: seq<string>)
    requires Rejected(reply) && Plain(ReplyTokens(a + b), '+')
    ensures Join(Shape(ReplyTokens(a + [reply] + b)), '+') == Join(Shape(ReplyTokens(a + b)), '+')
       <==> REJECTED_TOKEN in Shape(ReplyTokens(a + b)) || |Shape(ReplyTokens(a))| == MAX_TOKENS
  {
    RejectedTokens(a, reply, b);
    RejectedUnchangedIff(a, reply, b);
    hide ReplyTokens, Shape, Join;
    var long, short := ReplyTokens(a + [reply] + b), ReplyTokens(a + b);
    PlainAround(ReplyTokens(a), REJECTED_TOKEN, ReplyTokens(b), '+');
    hide Plain;
    KeyDecidesShape(long, short);
  }

  method TokenOf(reply: string) returns (token: Option<string>)
    ensures token == ReplyToken(reply)
  {
    var tokens, nodes := new Token[REPLY_TOKENS], new Node[REPLY_TOKENS];
    var status, verdict;
    ghost var forest;
    status, verdict, forest := R.Parse(reply, tokens, nodes);
    if status != Ok {
      return None;
    }
    var rec := if verdict.Valid? then verdict.rec else R.ZERO;
    if forest.Some? {
      ReadsOnce(reply, REPLY_TOKENS, REPLY_TOKENS, forest.value, REPLY_TOKENS, REPLY_TOKENS,
                ForestOf(reply, REPLY_TOKENS, REPLY_TOKENS));
      RecToken(reply, FormsOf(reply, forest.value), verdict);
    }
    if rec.kind == R.Finish {
      return None;
    }
    if rec.capability.length > 0 {
      return Some(Truncate(R.KindName(rec.kind) + ":" + rec.capability.Text(reply)));
    }
    return Some(R.KindName(rec.kind));
  }

  /** The record of a reply holds the kind and the capability that its token is made of. */
  lemma {:induction false} RecToken(reply: string, forms: seq<Form>, verdict: R.Verdict)
    requires R.Judges(reply, forms, verdict)
    ensures var rec := if verdict.Valid? then verdict.rec else R.ZERO;
            rec.capability.In(reply)
            && FormsToken(forms) == if rec.kind == R.Finish then None else Some(Label(rec.kind, rec.capability.Text(reply)))
  {
    hide R.Fault, R.Collect;
    if verdict.Valid? {
      var table := R.Collect(forms[0].items[1..]).table;
      assert R.FieldSays(reply, verdict.rec, table, R.KindField) && R.FieldSays(reply, verdict.rec, table, R.Capability);
    }
  }

  // ---- Building a shape in place ---------------------------------------------------------------------------

  lemma {:induction false} PlaceNext(s: seq<string>, t: string, k: nat)
    requires k < |s|
    ensures Place(s[k..], t) == if Less(s[k], t) then 1 + Place(s[k + 1..], t) else 0
  {
    assert s[k..][1..] == s[k + 1..];
  }

  method FindPlace(tokens: array<string>, count: nat, t: string) returns (pos: nat)
    requires count <= tokens.Length
    ensures pos <= count && pos == Place(tokens[..count], t)
  {
    ghost var s := tokens[..count];
    hide Place, Less;
    pos := 0;
    assert s[0..] == s;
    while pos < count && Less(tokens[pos], t)
      invariant pos <= count && Place(s, t) == pos + Place(s[pos..], t)
    {
      PlaceNext(s, t, pos);
      pos := pos + 1;
    }
    PlaceEnds(s, t, pos);
  }

  /** Put a token in its place among the first `count`. */
  method AddInPlace(tokens: array<string>, count: nat, t: string) returns (newCount: nat)
    requires tokens.Length == MAX_TOKENS && count <= MAX_TOKENS
    modifies tokens
    ensures newCount <= MAX_TOKENS && tokens[..newCount] == AddToken(old(tokens[..count]), t)
  {
    hide Place, AddToken;
    var pos := FindPlace(tokens, count, t);
    AddTokenAt(tokens[..count], t, pos);
    if (pos < count && tokens[pos] == t) || count == MAX_TOKENS {
      return count;
    }
    InsertAt(tokens, count, pos, t);
    newCount := count + 1;
  }

  /** Shift the tokens from `pos` on one cell up, and fill the gap. */
  method InsertAt(tokens: array<string>, count: nat, pos: nat, t: string)
    requires pos <= count < tokens.Length
    modifies tokens
    ensures tokens[..count + 1] == old(tokens[..pos] + [t] + tokens[pos..count])
  {
    ghost var s := tokens[..count];
    var j := count;
    while j > pos
      invariant pos <= j <= count
      invariant forall k | 0 <= k < j :: tokens[k] == s[k]
      invariant forall k | j < k <= count :: tokens[k] == s[k - 1]
    {
      tokens[j] := tokens[j - 1];
      j := j - 1;
    }
    tokens[pos] := t;
    Inserted(tokens[..count + 1], s, pos, t);
  }

  lemma Inserted(after: seq<string>, s: seq<string>, pos: nat, t: string)
    requires pos <= |s| && |after| == |s| + 1 && after[pos] == t
    requires forall k | 0 <= k < pos :: after[k] == s[k]
    requires forall k | pos < k <= |s| :: after[k] == s[k - 1]
    ensures after == s[..pos] + [t] + s[pos..]
  {
  }

  lemma AddTokenAt(s: seq<string>, t: string, p: nat)
    requires Place(s, t) == p <= |s|
    ensures AddToken(s, t) == if (p < |s| && s[p] == t) || |s| >= MAX_TOKENS then s else s[..p] + [t] + s[p..]
  {
  }

  lemma {:induction false} PlaceEnds(s: seq<string>, t: string, k: nat)
    requires k <= |s| && Place(s, t) == k + Place(s[k..], t) && (k < |s| ==> !Less(s[k], t))
    ensures Place(s, t) == k
  {
  }

  lemma {:induction false} JoinNext(tokens: seq<string>, joiner: char, i: nat)
    requires i < |tokens|
    ensures Join(tokens[..i + 1], joiner) == Join(tokens[..i], joiner) + (if i > 0 then [joiner] else []) + tokens[i]
  {
    assert tokens[..i + 1][..i] == tokens[..i];
  }

  lemma {:induction false} JoinGrows(tokens: seq<string>, joiner: char, i: nat)
    requires i <= |tokens|
    ensures |Join(tokens[..i], joiner)| <= |Join(tokens, joiner)|
    decreases |tokens| - i
  {
    if i == |tokens| {
      assert tokens[..i] == tokens;
    } else {
      JoinNext(tokens, joiner, i);
      JoinGrows(tokens, joiner, i + 1);
    }
  }

  /** A key that fits with its NUL is written whole; one that does not is an error of length 0. */
  predicate KeyWritten(key: string, buffer: string, status: Status, len: nat) {
    if |key| < |buffer| then
      status == Ok && len == |key| && buffer[..len] == key && buffer[len] == '\0'
    else status == Limit && len == 0
  }

  method JoinInto(tokens: seq<string>, joiner: char, out: array<char>) returns (status: Status, len: nat)
    requires out.Length > 0
    modifies out
    ensures KeyWritten(Join(tokens, joiner), out[..], status, len)
  {
    hide Join;
    var w := 0;
    assert Join(tokens[..0], joiner) == [] by { JoinNothing(tokens[..0], joiner); }
    for i := 0 to |tokens|
      invariant w < out.Length && out[..w] == Join(tokens[..i], joiner)
    {
      var token, sep := tokens[i], if i > 0 then 1 else 0;
      JoinNext(tokens, joiner, i);
      JoinGrows(tokens, joiner, i + 1);
      if w + sep + |token| + 1 > out.Length {
        out[w] := '\0';
        return Limit, 0;
      }
      ghost var before := out[..w];
      if sep > 0 {
        out[w] := joiner;
        w := w + 1;
        assert out[..w] == before + [joiner];
        before := out[..w];
      }
      forall k | 0 <= k < |token| {
        out[w + k] := token[k];
      }
      w := w + |token|;
      assert out[..w] == before + token;
    }
    out[w] := '\0';
    assert tokens[..|tokens|] == tokens && out[..][..w] == out[..w];
    return Ok, w;
  }

  lemma JoinNothing(tokens: seq<string>, joiner: char)
    requires tokens == []
    ensures Join(tokens, joiner) == []
  {
  }

  // ---- The shape of a script -----------------------------------------------------------------------------------

  datatype Mode = SetMode | SequenceMode {
    function Joiner(): char {
      if SetMode? then '+' else '>'
    }

    function Keep(tokens: seq<string>): seq<string> {
      if SetMode? then Shape(tokens) else Collapse(tokens)
    }
  }

  /** One token more, in either mode. */
  method AddToKept(mode: Mode, tokens: array<string>, count: nat, token: string, ghost all: seq<string>)
    returns (newCount: nat)
    requires tokens.Length == MAX_TOKENS && count <= MAX_TOKENS && tokens[..count] == mode.Keep(all)
    modifies tokens
    ensures newCount <= MAX_TOKENS && tokens[..newCount] == mode.Keep(all + [token])
  {
    hide AddToken;
    assert (all + [token])[..|all|] == all;
    if mode.SetMode? {
      newCount := AddInPlace(tokens, count, token);
    } else if (count > 0 && tokens[count - 1] == token) || count == MAX_TOKENS {
      newCount := count;
    } else {
      ghost var before := tokens[..count];
      tokens[count] := token;
      newCount := count + 1;
      assert tokens[..newCount] == before + [token];
    }
  }

  method ShapeFromScript(replies: seq<string>, mode: Mode, out: array<char>) returns (status: Status, len: nat)
    modifies out
    ensures out.Length == 0 ==> status == InvalidArg
    ensures out.Length > 0 ==>
      KeyWritten(Join(mode.Keep(ReplyTokens(replies)), mode.Joiner()), out[..], status, len)
    ensures out.Length > 0 && mode == SetMode ==>
      KeyWritten(Join(Shape(ReplyTokens(replies)), '+'), out[..], status, len)
    ensures out.Length > 0 && mode == SequenceMode ==>
      KeyWritten(Join(Collapse(ReplyTokens(replies)), '>'), out[..], status, len)
  {
    if out.Length == 0 {
      return InvalidArg, 0;
    }
    var tokens, count: nat := new string[MAX_TOKENS], 0;
    ghost var all := [];
    assert replies[..0] == [] && mode.Keep([]) == [];
    hide ReplyToken, AddToken, Mode.Keep;
    for i := 0 to |replies|
      invariant count <= MAX_TOKENS && all == ReplyTokens(replies[..i])
      invariant tokens[..count] == mode.Keep(all)
    {
      assert replies[..i + 1][..i] == replies[..i];
      var token := TokenOf(replies[i]);
      if token.Some? {
        count := AddToKept(mode, tokens, count, token.value, all);
        all := all + [token.value];
      }
    }
    assert replies[..|replies|] == replies;
    status, len := JoinInto(tokens[..count], mode.Joiner(), out);
    KeepsTokens(mode, all);
    hide Join, KeyWritten;
  }

  lemma KeepsTokens(mode: Mode, tokens: seq<string>)
    ensures mode == SetMode ==> mode.Keep(tokens) == Shape(tokens) && mode.Joiner() == '+'
    ensures mode == SequenceMode ==> mode.Keep(tokens) == Collapse(tokens) && mode.Joiner() == '>'
  {
  }

  // ---- The shape of a policy --------------------------------------------------------------------------------------

  datatype CapabilityKind =
    CapLocalShell | CapSshAuthProbe | CapSimulator | CapMemory | CapMachineProcess | CapDevice

  datatype PolicyCapability = PolicyCapability(name: Span, kind: CapabilityKind, enabled: bool)

  function PrimaryKind(kind: CapabilityKind): R.Kind {
    match kind
    case CapLocalShell => R.LocalShell
    case CapSshAuthProbe => R.SshAuthProbe
    case CapSimulator => R.Simulator
    case CapMemory => R.MemorySave
    case CapMachineProcess => R.MachinePause
    case CapDevice => R.DeviceWrite
  }

  predicate Enabled(text: string, c: PolicyCapability) {
    c.enabled && c.name.In(text)
  }

  function PolicyLabel(text: string, c: PolicyCapability): string
    requires c.name.In(text)
  {
    Truncate(R.KindName(PrimaryKind(c.kind)) + ":" + c.name.Text(text))
  }

  function PolicyTokens(text: string, capabilities: seq<PolicyCapability>): seq<string> {
    if capabilities == [] then []
    else
      var c := capabilities[|capabilities| - 1];
      PolicyTokens(text, capabilities[..|capabilities| - 1]) + if Enabled(text, c) then [PolicyLabel(text, c)] else []
  }

  method ShapeFromPolicy(text: string, capabilities: seq<PolicyCapability>, out: array<char>)
    returns (status: Status, len: nat)
    modifies out
    ensures out.Length == 0 ==> status == InvalidArg
    ensures out.Length > 0 ==> KeyWritten(Join(Shape(PolicyTokens(text, capabilities)), '+'), out[..], status, len)
  {
    if out.Length == 0 {
      return InvalidArg, 0;
    }
    var tokens, count: nat := new string[MAX_TOKENS], 0;
    ghost var all := [];
    assert capabilities[..0] == [] && SetMode.Keep([]) == [];
    hide Shape, PolicyLabel, PolicyTokens, Mode.Keep;
    NoPolicyTokens(text);
    for i := 0 to |capabilities|
      invariant count <= MAX_TOKENS && all == PolicyTokens(text, capabilities[..i])
      invariant tokens[..count] == SetMode.Keep(all)
    {
      var c := capabilities[i];
      PolicyTokensNext(text, capabilities, i);
      if !Enabled(text, c) {
        continue;
      }
      count := AddToKept(SetMode, tokens, count, PolicyLabel(text, c), all);
      all := all + [PolicyLabel(text, c)];
    }
    assert capabilities[..|capabilities|] == capabilities;
    KeepsShape(all);
    status, len := JoinInto(tokens[..count], '+', out);
  }

  lemma NoPolicyTokens(text: string)
    ensures PolicyTokens(text, []) == []
  {
  }

  lemma {:induction false} PolicyTokensNext(text: string, capabilities: seq<PolicyCapability>, i: nat)
    requires i < |capabilities|
    ensures PolicyTokens(text, capabilities[..i + 1])
         == PolicyTokens(text, capabilities[..i])
            + if Enabled(text, capabilities[i]) then [PolicyLabel(text, capabilities[i])] else []
  {
    assert capabilities[..i + 1][..i] == capabilities[..i];
  }

  lemma KeepsShape(tokens: seq<string>)
    ensures SetMode.Keep(tokens) == Shape(tokens)
  {
  }

  // ---- Script and policy agree -----------------------------------------------------------------------------------------

  /** A reply that acts through an enabled capability, by the primary kind of that capability. */
  ghost predicate ActsThrough(reply: string, text: string, c: PolicyCapability) {
    exists table :: Replies(reply, table) && Acts(table, text, c)
  }

  predicate Acts(table: R.Table, text: string, c: PolicyCapability) {
    && Enabled(text, c) && R.KindIn(table) == PrimaryKind(c.kind)
    && CapabilityIn(table) == c.name.Text(text) != []
  }

  /** A trajectory uses exactly the enabled capabilities of a policy: every reply acts through one
      or finishes, and every one is acted through. */
  ghost predicate UsesExactly(replies: seq<string>, text: string, capabilities: seq<PolicyCapability>) {
    && (forall r | r in replies :: Finishes(r) || exists c | c in capabilities :: ActsThrough(r, text, c))
    && forall c | c in capabilities :: Enabled(text, c) ==> exists r | r in replies :: ActsThrough(r, text, c)
  }

  lemma {:induction false} ReplyTokenSource(replies: seq<string>, x: string)
    ensures x in ReplyTokens(replies) <==> exists r | r in replies :: ReplyToken(r) == Some(x)
  {
    if replies != [] {
      hide ReplyToken;
      var front, last := replies[..|replies| - 1], replies[|replies| - 1];
      assert replies == front + [last];
      ReplyTokenSource(front, x);
      var t := ReplyToken(last);
      assert ReplyTokens(replies) == ReplyTokens(front) + if t.Some? then [t.value] else [];
      if t == Some(x) {
        assert last in replies;
      }
    }
  }

  lemma {:induction false} PolicyTokenSource(text: string, capabilities: seq<PolicyCapability>, x: string)
    ensures x in PolicyTokens(text, capabilities)
       <==> exists c | c in capabilities :: Enabled(text, c) && PolicyLabel(text, c) == x
  {
    if capabilities != [] {
      hide PolicyLabel;
      var front, last := capabilities[..|capabilities| - 1], capabilities[|capabilities| - 1];
      assert capabilities == front + [last];
      PolicyTokenSource(text, front, x);
      if Enabled(text, last) && PolicyLabel(text, last) == x {
        assert last in capabilities;
      }
    }
  }

  lemma {:induction false} ActsToken(reply: string, text: string, c: PolicyCapability)
    requires ActsThrough(reply, text, c)
    ensures Enabled(text, c) && ReplyToken(reply) == Some(PolicyLabel(text, c))
  {
    hide ReplyToken, Replies;
    var table :| Replies(reply, table) && Acts(table, text, c);
    ReplyTokenMeans(reply, table);
  }

  lemma {:induction false} SameTokens(replies: seq<string>, text: string, capabilities: seq<PolicyCapability>)
    requires UsesExactly(replies, text, capabilities)
    ensures Elements(ReplyTokens(replies)) == Elements(PolicyTokens(text, capabilities))
  {
    var a, b := ReplyTokens(replies), PolicyTokens(text, capabilities);
    hide ReplyToken, ReplyTokens, PolicyTokens, PolicyLabel, ActsThrough, Finishes;
    forall x
      ensures x in a <==> x in b
    {
      ReplyTokenSource(replies, x);
      PolicyTokenSource(text, capabilities, x);
      if x in a {
        var r :| r in replies && ReplyToken(r) == Some(x);
        if Finishes(r) {
          FinishToken(r);
        } else {
          var c :| c in capabilities && ActsThrough(r, text, c);
          ActsToken(r, text, c);
        }
      }
      if x in b {
        var c :| c in capabilities && Enabled(text, c) && PolicyLabel(text, c) == x;
        var r :| r in replies && ActsThrough(r, text, c);
        ActsToken(r, text, c);
      }
    }
  }

  /** A trajectory that uses exactly the enabled capabilities of a policy has the policy's shape if
      these have at most 16 different tokens, and otherwise exactly when its first 16 are the policy's. */
  lemma {:induction false} PolicyMatchesScript(replies: seq<string>, text: string, capabilities: seq<PolicyCapability>)
    requires UsesExactly(replies, text, capabilities)
    ensures var a, b := ReplyTokens(replies), PolicyTokens(text, capabilities);
            && (Shape(a) == Shape(b) <==> Elements(Leading(a)) == Elements(Leading(b)))
            && (|Elements(b)| <= MAX_TOKENS ==> Shape(a) == Shape(b))
  {
    var a, b := ReplyTokens(replies), PolicyTokens(text, capabilities);
    SameTokens(replies, text, capabilities);
    hide ReplyTokens, PolicyTokens, UsesExactly;
    SameShapeIff(a, b);
    if |Elements(b)| <= MAX_TOKENS {
      SameElementsSameShape(a, b);
    }
  }

  /** That is so whatever the order of the replies exactly when there are at most 16. */
  lemma {:induction false} PolicyMatchesAllIff(replies: seq<string>, text: string, capabilities: seq<PolicyCapability>)
    requires UsesExactly(replies, text, capabilities)
    ensures |Elements(PolicyTokens(text, capabilities))| <= MAX_TOKENS
       <==> forall us :: multiset(us) == multiset(replies) ==>
              Shape(ReplyTokens(us)) == Shape(PolicyTokens(text, capabilities))
  {
    var a, b := ReplyTokens(replies), PolicyTokens(text, capabilities);
    SameTokens(replies, text, capabilities);
    hide ReplyTokens, PolicyTokens, Shape, Elements;
    if |Elements(b)| <= MAX_TOKENS {
      forall us | multiset(us) == multiset(replies)
        ensures Shape(ReplyTokens(us)) == Shape(b)
      {
        SameElements(us, replies);
        UsesInAnyOrder(us, replies, text, capabilities);
        PolicyMatchesScript(us, text, capabilities);
      }
    } else {
      var us := OtherScript(replies);
      assert Shape(ReplyTokens(us)) != Shape(b) || Shape(ReplyTokens(replies)) != Shape(b);
    }
  }

  lemma UsesInAnyOrder(us: seq<string>, replies: seq<string>, text: string, capabilities: seq<PolicyCapability>)
    requires UsesExactly(replies, text, capabilities) && forall r :: r in us <==> r in replies
    ensures UsesExactly(us, text, capabilities)
  {
  }

  /** With more than 16 different tokens some reordering of the replies has another shape. */
  lemma {:induction false} OtherScript(replies: seq<string>) returns (us: seq<string>)
    requires |Elements(ReplyTokens(replies))| > MAX_TOKENS
    ensures multiset(us) == multiset(replies) && Shape(ReplyTokens(us)) != Shape(ReplyTokens(replies))
  {
    ShapeMeans(ReplyTokens(replies));
    var x :| x in Elements(ReplyTokens(replies)) && x !in Elements(Shape(ReplyTokens(replies)));
    ReplyTokenSource(replies, x);
    hide ReplyToken, ReplyTokens, Shape;
    var j :| 0 <= j < |replies| && ReplyToken(replies[j]) == Some(x);
    us := [replies[j]] + RemoveAt(replies, j);
    RemoveAtElements(replies, j);
    FirstReplyKept(replies[j], RemoveAt(replies, j), x);
  }

  lemma {:induction false} FirstReplyKept(reply: string, rest: seq<string>, x: string)
    requires ReplyToken(reply) == Some(x)
    ensures x in Shape(ReplyTokens([reply] + rest))
  {
    hide ReplyToken, ReplyTokens, Shape;
    OneReply(reply);
    ReplyTokensAppend([reply], rest);
    FirstKept(ReplyTokens([reply] + rest));
  }

  lemma {:induction false} LabelCut(kind: R.Kind, capability: string)
    ensures Cut(Truncate(R.KindName(kind) + ":" + capability), ':') == |R.KindName(kind)| < TOKEN_MAX - 1
    ensures |Truncate(R.KindName(kind) + ":" + capability)| > |R.KindName(kind)| + if capability == [] then 0 else 1
    ensures Cut(R.KindName(kind), ':') == |R.KindName(kind)|
  {
    var name := R.KindName(kind);
    KindNamePlain(kind);
    var whole := name + ":" + capability;
    var rest := Truncate(whole)[|name|..];
    assert Truncate(whole) == name + rest;
    CutAt(name, rest, ':');
    assert name + [] == name;
    CutAt(name, [], ':');
  }

  lemma KindNamePlain(kind: R.Kind)
    ensures ':' !in R.KindName(kind) && |R.KindName(kind)| <= 22
  {
  }

  /** A capability without a name is in the policy's key, but no reply has its token. */
  lemma {:induction false} NamelessNeverMatches(reply: string, text: string, c: PolicyCapability)
    requires Enabled(text, c) && c.name.Text(text) == []
    ensures ReplyToken(reply) != Some(PolicyLabel(text, c))
  {
    if ReplyToken(reply).Some? {
      var kind, capability := TokenIsLabel(reply);
      hide ReplyToken, R.KindName, Truncate, Cut;
      LabelCut(PrimaryKind(c.kind), []);
      LabelCut(kind, capability);
    }
  }

  lemma {:induction false} TokenIsLabel(reply: string) returns (kind: R.Kind, capability: string)
    requires ReplyToken(reply).Some?
    ensures ReplyToken(reply).value == Label(kind, capability)
  {
    hide Label, R.Collect, R.Complete, R.KindRules, TextStatus;
    kind, capability := R.LocalShell, [];
    if ReplyToken(reply).value != Label(kind, capability) {
      var forms := FormsOf(reply, ForestOf(reply, REPLY_TOKENS, REPLY_TOKENS));
      var table := R.Collect(forms[0].items[1..]).table;
      kind, capability := R.KindIn(table), CapabilityIn(table);
    }
  }

  // ---- The best of several attempts ------------------------------------------------------------

  datatype Termination = Finished | MaxSteps | Budget | Denied | RejectedRun | Error

  /** How good a run is without knowing the answer. */
  function RunRank(status: Status, termination: Termination): int {
    if status != Ok then -1
    else match termination
      case Finished => 4
      case MaxSteps => 3
      case Budget => 2
      case Denied => 1
      case RejectedRun => 0
      case Error => -1
  }

  /** A finished attempt: its steps, whether the marker was in some observation, and the last one. */
  datatype Attempt = Attempt(status: Status, termination: Termination, steps: nat, markerSeen: bool, observation: string)

  /** A limit of 0 steps is no limit. */
  datatype Expectation = Expectation(termination: Option<Termination>, minSteps: nat, maxSteps: nat,
                                     observation: Option<string>)

  datatype Outcome = Pass | RunError | WrongTermination | WrongSteps | NoObservation

  predicate OccursAt(text: string, marker: string, i: nat) {
    i + |marker| <= |text| && text[i..i + |marker|] == marker
  }

  predicate Occurs(text: string, marker: string) {
    exists i: nat | i <= |text| :: OccursAt(text, marker, i)
  }

  function JudgeRun(e: Expectation, a: Attempt): Outcome {
    if a.status != Ok then RunError
    else if e.termination.Some? && a.termination != e.termination.value then WrongTermination
    else if (e.minSteps > 0 && a.steps < e.minSteps) || (e.maxSteps > 0 && a.steps > e.maxSteps) then WrongSteps
    else if e.observation.Some? && !a.markerSeen && !Occurs(a.observation, e.observation.value) then NoObservation
    else Pass
  }

  const SATISFIED: int := 100

  function Verdict(a: Attempt, wanted: Option<Expectation>): Outcome {
    if wanted.Some? then JudgeRun(wanted.value, a) else Pass
  }

  function AttemptRank(a: Attempt, wanted: Option<Expectation>): int {
    if wanted.Some? && Verdict(a, wanted) == Pass then SATISFIED else RunRank(a.status, a.termination)
  }

  /** What an expectation asks of a run: it went through, ended as wanted within the wanted number of steps, a
      greatest number of 0 being no limit, and the marker was seen, or stands in what was observed last. */
  ghost predicate Meets(a: Attempt, e: Expectation) {
    && a.status == Ok && (e.termination.Some? ==> a.termination == e.termination.value)
    && e.minSteps <= a.steps && (e.maxSteps == 0 || a.steps <= e.maxSteps)
    && (e.observation.Some? ==> a.markerSeen || exists before, after :: a.observation == before + e.observation.value + after)
  }

  lemma {:induction false} OccursMeans(text: string, marker: string)
    ensures Occurs(text, marker) <==> exists before, after :: text == before + marker + after
  {
    if Occurs(text, marker) {
      var i: nat :| i <= |text| && OccursAt(text, marker, i);
      assert text == text[..i] + marker + text[i + |marker|..];
    }
    forall before, after | text == before + marker + after
      ensures Occurs(text, marker)
    {
      assert OccursAt(text, marker, |before|);
    }
  }

  /** A run passes exactly when it meets the expectation; the first part that fails names the outcome. */
  lemma {:induction false} JudgeMeans(e: Expectation, a: Attempt)
    ensures JudgeRun(e, a) == Pass <==> Meets(a, e)
    ensures a.status != Ok ==> JudgeRun(e, a) == RunError
    ensures a.status == Ok && e.termination.Some? && a.termination != e.termination.value ==>
      JudgeRun(e, a) == WrongTermination
    ensures var inRange := e.minSteps <= a.steps && (e.maxSteps == 0 || a.steps <= e.maxSteps);
            a.status == Ok && (e.termination.Some? ==> a.termination == e.termination.value) && !Meets(a, e) ==>
              JudgeRun(e, a) == if inRange then NoObservation else WrongSteps
  {
    if e.observation.Some? {
      OccursMeans(a.observation, e.observation.value);
    }
    hide Occurs;
  }

  /** The run went through and ended so, and did not meet what was wanted, if anything was. */
  ghost predicate Ended(a: Attempt, wanted: Option<Expectation>, t: Termination) {
    a.status == Ok && a.termination == t && !Met(a, wanted)
  }

  ghost predicate Met(a: Attempt, wanted: Option<Expectation>) {
    wanted.Some? && Meets(a, wanted.value)
  }

  /** From the best run to the worst: one that meets the expectation, a finished one, one out of steps, out of
      budget, denied, rejected, and last an error, whichever way it shows. */
  ghost predicate Better(a: Attempt, b: Attempt, wanted: Option<Expectation>) {
    || (Met(a, wanted) && !Met(b, wanted))
    || (Ended(a, wanted, Finished) && !Met(b, wanted) && !Ended(b, wanted, Finished))
    || (Ended(a, wanted, MaxSteps) && !Met(b, wanted) && !Ended(b, wanted, Finished) && !Ended(b, wanted, MaxSteps))
    || (Ended(a, wanted, Budget)
        && (Ended(b, wanted, Denied) || Ended(b, wanted, RejectedRun) || b.status != Ok || Ended(b, wanted, Error)))
    || (Ended(a, wanted, Denied) && (Ended(b, wanted, RejectedRun) || b.status != Ok || Ended(b, wanted, Error)))
    || (Ended(a, wanted, RejectedRun) && (b.status != Ok || Ended(b, wanted, Error)))
  }

  lemma {:induction false} RankIsOrder(a: Attempt, b: Attempt, wanted: Option<Expectation>)
    ensures AttemptRank(a, wanted) > AttemptRank(b, wanted) <==> Better(a, b, wanted)
  {
    if wanted.Some? {
      JudgeMeans(wanted.value, a);
      JudgeMeans(wanted.value, b);
    }
    hide JudgeRun, Meets;
  }

  /** Nothing can be better than this one. */
  ghost predicate Unbeatable(a: Attempt, wanted: Option<Expectation>) {
    if wanted.Some? then Meets(a, wanted.value) else a.status == Ok && a.termination == Finished
  }

  lemma {:induction false} UnbeatableIs(a: Attempt, wanted: Option<Expectation>)
    ensures AttemptRank(a, wanted) == SATISFIED || (wanted.None? && AttemptRank(a, wanted) >= 4) <==> Unbeatable(a, wanted)
  {
    if wanted.Some? {
      JudgeMeans(wanted.value, a);
    }
    hide JudgeRun, Meets;
  }

  /** Stop early when no later attempt can be better. An attempt that meets the expectation is chosen
      whenever there is one. */
  method BestAttempt(attempts: seq<Attempt>, wanted: Option<Expectation>)
    returns (chosen: nat, used: nat, bestRank: int, verdict: Outcome)
    requires attempts != []
    ensures chosen < used <= |attempts| && bestRank == AttemptRank(attempts[chosen], wanted)
    ensures forall k | 0 <= k < |attempts| :: AttemptRank(attempts[k], wanted) <= bestRank
    ensures forall k | 0 <= k < chosen :: AttemptRank(attempts[k], wanted) < bestRank
    ensures verdict == Pass <==> exists a | a in attempts :: Verdict(a, wanted) == Pass
    ensures verdict == Verdict(attempts[chosen], wanted)
    ensures forall k | 0 <= k < |attempts| :: !Better(attempts[k], attempts[chosen], wanted)
    ensures forall k | 0 <= k < chosen :: Better(attempts[chosen], attempts[k], wanted)
    ensures used == |attempts| || Unbeatable(attempts[used - 1], wanted)
    ensures forall k | 0 <= k < used - 1 :: !Unbeatable(attempts[k], wanted)
  {
    hide Occurs;
    chosen, used, bestRank, verdict := 0, 0, -2, Pass;
    while used < |attempts|
      invariant used <= |attempts| && (used > 0 ==> chosen < used)
      invariant bestRank == if used == 0 then -2 else AttemptRank(attempts[chosen], wanted)
      invariant used > 0 ==> verdict == Verdict(attempts[chosen], wanted)
      invariant forall k | 0 <= k < used :: AttemptRank(attempts[k], wanted) <= bestRank
      invariant used > 0 ==> forall k | 0 <= k < chosen :: AttemptRank(attempts[k], wanted) < bestRank
      invariant forall k | 0 <= k < used :: !Unbeatable(attempts[k], wanted)
    {
      UnbeatableIs(attempts[used], wanted);
      var attemptVerdict, rank := Verdict(attempts[used], wanted), AttemptRank(attempts[used], wanted);
      used := used + 1;
      if rank > bestRank {
        bestRank, chosen, verdict := rank, used - 1, attemptVerdict;
      }
      if rank == SATISFIED || (wanted.None? && rank >= 4) {
        break;
      }
    }
    forall k | 0 <= k < |attempts|
      ensures AttemptRank(attempts[k], wanted) > AttemptRank(attempts[chosen], wanted) <==>
        Better(attempts[k], attempts[chosen], wanted)
      ensures AttemptRank(attempts[chosen], wanted) > AttemptRank(attempts[k], wanted) <==>
        Better(attempts[chosen], attempts[k], wanted)
    {
      RankIsOrder(attempts[k], attempts[chosen], wanted);
      RankIsOrder(attempts[chosen], attempts[k], wanted);
    }
  }
}
