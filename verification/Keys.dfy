/** What the keys of src/eval/eval.c tell apart: actions that differ behind the end of a token cell,
    or that contain the joiner, share a key. */
module Keys {
  import opened Statuses
  import opened SexprRead
  import opened Eval
  import R = Recommendation

  // ---- Labels -------------------------------------------------------------------------------------

  /** A step of a trajectory, as a reply names it. */
  datatype Action = Action(kind: R.Kind, capability: string) {
    function Token(): string {
      Label(kind, capability)
    }

    /** How much of a capability a token cell holds behind the kind and the colon. */
    function Room(): nat {
      KindNamePlain(kind);
      TOKEN_MAX - 1 - |R.KindName(kind)|
    }

    function Clipped(): Action {
      Action(kind, capability[..Min(|capability|, Room())])
    }

    predicate Fits() {
      |capability| <= Room()
    }
  }

  lemma {:induction false} TokenParts(a: Action)
    ensures var name, stem := R.KindName(a.kind), a.Clipped().capability;
            a.Token() == name + if stem == [] then [] else [':'] + stem
  {
    KindNamePlain(a.kind);
    hide R.KindName;
    var name, whole := R.KindName(a.kind), R.KindName(a.kind) + ":" + a.capability;
    if a.capability != [] {
      assert Truncate(whole) == name + ([':'] + a.Clipped().capability);
    }
  }

  /** Two actions have the same token exactly when they are of one kind and their capabilities agree as
      far as a token cell reaches. */
  lemma {:induction false} TokenIff(a: Action, b: Action)
    ensures a.Token() == b.Token() <==> a.Clipped() == b.Clipped()
  {
    TokenParts(a);
    TokenParts(b);
    hide Action.Token;
    if a.Token() == b.Token() {
      KindNamePlain(a.kind);
      KindNamePlain(b.kind);
      var x, y := a.Clipped().capability, b.Clipped().capability;
      var s, t := if x == [] then [] else [':'] + x, if y == [] then [] else [':'] + y;
      CutAt(R.KindName(a.kind), s, ':');
      CutAt(R.KindName(b.kind), t, ':');
      SplitUnique(R.KindName(a.kind), s, R.KindName(b.kind), t);
      R.KindNameUnique(a.kind, b.kind);
      assert x == if s == [] then [] else s[1..];
      assert y == if t == [] then [] else t[1..];
    }
  }

  lemma ClippedToken(a: Action)
    ensures a.Clipped().Token() == a.Token() && a.Clipped().Clipped() == a.Clipped()
  {
    TokenIff(a, a.Clipped());
  }

  function Tokens(actions: seq<Action>): (tokens: seq<string>)
    ensures |tokens| == |actions|
  {
    seq(|actions|, i requires 0 <= i < |actions| => actions[i].Token())
  }

  function Clips(actions: seq<Action>): (clips: seq<Action>)
    ensures |clips| == |actions|
  {
    seq(|actions|, i requires 0 <= i < |actions| => actions[i].Clipped())
  }

  // ---- Replies as actions -------------------------------------------------------------------------

  /** What a reply does as far as keys are concerned: a rejected one counts as a shell command without
      capability. */
  ghost function ActionOf(reply: string): Option<Action> {
    if table :| Replies(reply, table) then
      if R.KindIn(table) == R.Finish then None else Some(Action(R.KindIn(table), CapabilityIn(table)))
    else if Rejected(reply) then Some(Action(R.LocalShell, []))
    else None
  }

  lemma {:induction false} ActionIs(reply: string, table: R.Table)
    requires Replies(reply, table)
    ensures ActionOf(reply) == if R.KindIn(table) == R.Finish then None
                               else Some(Action(R.KindIn(table), CapabilityIn(table)))
  {
    forall other | Replies(reply, other)
      ensures other == table
    {
      R.SaysOnce(FormsOf(reply, ForestOf(reply, REPLY_TOKENS, REPLY_TOKENS)), table, other);
    }
  }

  lemma {:induction false} ActionToken(reply: string)
    ensures ReplyToken(reply) == if ActionOf(reply) == None then None else Some(ActionOf(reply).value.Token())
  {
    hide ReplyToken, Replies;
    if table :| Replies(reply, table) {
      var said :| Replies(reply, said) && ActionOf(reply) == if R.KindIn(said) == R.Finish then None
                                          else Some(Action(R.KindIn(said), CapabilityIn(said)));
      ReplyTokenMeans(reply, said);
    } else if Rejected(reply) {
      RejectedToken(reply);
    } else {
      AddsNothingIff(reply);
    }
  }

  /** What a trajectory does. */
  ghost function Actions(replies: seq<string>): seq<Action> {
    if replies == [] then []
    else
      var action := ActionOf(replies[|replies| - 1]);
      Actions(replies[..|replies| - 1]) + if action.Some? then [action.value] else []
  }

  lemma {:induction false} TokensNext(actions: seq<Action>, a: Action)
    ensures Tokens(actions + [a]) == Tokens(actions) + [a.Token()]
    ensures Clips(actions + [a]) == Clips(actions) + [a.Clipped()]
  {
    hide Action.Token, Action.Clipped;
  }

  lemma {:induction false} TokensOfActions(replies: seq<string>)
    ensures ReplyTokens(replies) == Tokens(Actions(replies))
  {
    if replies == [] {
      assert Tokens([]) == [];
    } else {
      var front, last := replies[..|replies| - 1], replies[|replies| - 1];
      TokensOfActions(front);
      hide ReplyToken, ActionOf, Tokens, Action.Token, Action.Clipped;
      ActionToken(last);
      TokensMore(Actions(front), ActionOf(last));
    }
  }

  lemma TokensMore(actions: seq<Action>, more: Option<Action>)
    ensures Tokens(actions + if more.Some? then [more.value] else [])
         == Tokens(actions) + if more.Some? then [more.value.Token()] else []
  {
    hide Action.Token;
  }

  /** No capability contains the joiner, as far as its token goes. */
  predicate JoinerFree(actions: seq<Action>, joiner: char) {
    forall a | a in actions :: joiner !in a.Clipped().capability
  }

  lemma KindNameJoinerFree(k: R.Kind, joiner: char)
    requires joiner == '+' || joiner == '>'
    ensures joiner !in R.KindName(k) && R.KindName(k) != []
  {
  }

  lemma {:induction false} TokensPlain(actions: seq<Action>, joiner: char)
    requires JoinerFree(actions, joiner) && (joiner == '+' || joiner == '>')
    ensures Plain(Tokens(actions), joiner)
  {
    hide Action.Token, Action.Clipped;
    forall t | t in Tokens(actions)
      ensures t != [] && joiner !in t
    {
      var i :| 0 <= i < |actions| && actions[i].Token() == t;
      KindNameJoinerFree(actions[i].kind, joiner);
      assert actions[i] in actions;
      TokenParts(actions[i]);
    }
  }

  // ---- Set mode -----------------------------------------------------------------------------------

  lemma {:induction false} TokenIn(actions: seq<Action>, a: Action)
    requires Clips(actions) == actions
    ensures a.Token() in Tokens(actions) <==> a.Clipped() in actions
  {
    hide Action.Token, Action.Clipped;
    if a.Token() in Tokens(actions) {
      var i :| 0 <= i < |actions| && Tokens(actions)[i] == a.Token();
      TokenIff(actions[i], a);
      assert Clips(actions)[i] == actions[i];
    }
    if a.Clipped() in actions {
      var i :| 0 <= i < |actions| && actions[i] == a.Clipped();
      ClippedToken(a);
      assert Tokens(actions)[i] == a.Token();
    }
  }

  /** The different tokens are those of the different actions, once these are clipped. */
  lemma {:induction false} FirstsOfTokens(actions: seq<Action>)
    ensures Firsts(Tokens(actions)) == Tokens(Firsts(Clips(actions)))
    ensures Clips(Firsts(Clips(actions))) == Firsts(Clips(actions))
  {
    if actions == [] {
      assert Tokens(actions) == [] && Clips(actions) == [];
    } else {
      hide Tokens, Clips, Action.Token, Action.Clipped;
      var front, last := actions[..|actions| - 1], actions[|actions| - 1];
      assert actions == front + [last];
      FirstsOfTokens(front);
      TokensNext(front, last);
      FirstsNext(Tokens(front), last.Token());
      FirstsNext(Clips(front), last.Clipped());
      hide Firsts;
      var before := Firsts(Clips(front));
      TokenIn(before, last);
      ClippedToken(last);
      TokensNext(before, last.Clipped());
    }
  }

  lemma FirstsNext<T>(s: seq<T>, x: T)
    ensures Firsts(s + [x]) == if x in Firsts(s) then Firsts(s) else Firsts(s) + [x]
  {
    assert (s + [x])[..|s|] == s;
  }

  lemma {:induction false} LeadingOfTokens(actions: seq<Action>)
    ensures Leading(Tokens(actions)) == Tokens(Leading(Clips(actions)))
    ensures Clips(Leading(Clips(actions))) == Leading(Clips(actions))
  {
    FirstsOfTokens(actions);
    var firsts := Firsts(Clips(actions));
    hide Firsts;
    assert forall i | 0 <= i < |firsts| :: firsts[i] == Clips(firsts)[i];
  }

  lemma {:induction false} SameTokenSet(a: seq<Action>, b: seq<Action>)
    requires Clips(a) == a && Clips(b) == b
    ensures Elements(Tokens(a)) == Elements(Tokens(b)) <==> Elements(a) == Elements(b)
  {
    TokensWithin(a, b);
    TokensWithin(b, a);
    hide Tokens;
  }

  lemma {:induction false} TokensWithin(a: seq<Action>, b: seq<Action>)
    requires Clips(a) == a && Clips(b) == b
    ensures Elements(Tokens(a)) <= Elements(Tokens(b)) <==> Elements(a) <= Elements(b)
  {
    hide Action.Token, Action.Clipped;
    forall i | 0 <= i < |a|
      ensures Tokens(a)[i] in Tokens(b) <==> a[i] in b
    {
      assert Clips(a)[i] == a[i];
      TokenIn(b, a[i]);
    }
    hide Tokens, Clips;
    if Elements(Tokens(a)) <= Elements(Tokens(b)) {
      forall x | x in a
        ensures x in b
      {
        var i :| 0 <= i < |a| && a[i] == x;
        InElements(Tokens(a), Tokens(a)[i]);
        InElements(Tokens(b), Tokens(a)[i]);
      }
    }
    if Elements(a) <= Elements(b) {
      forall t | t in Tokens(a)
        ensures t in Tokens(b)
      {
        var i :| 0 <= i < |Tokens(a)| && Tokens(a)[i] == t;
        InElements(a, a[i]);
        InElements(b, a[i]);
      }
    }
  }

  function SetKey(actions: seq<Action>): string {
    Join(Shape(Tokens(actions)), '+')
  }

  /** The key that a script is given is that of what its replies do. */
  lemma {:induction false} KeysOfReplies(replies: seq<string>)
    ensures Join(Shape(ReplyTokens(replies)), '+') == SetKey(Actions(replies))
    ensures Join(Collapse(ReplyTokens(replies)), '>') == SequenceKey(Actions(replies))
  {
    TokensOfActions(replies);
  }

  /** Without the joiner two trajectories have the same set-mode key exactly when the first 16 different
      actions of each are the same, in whatever order, each clipped to its token. */
  lemma {:induction false} SetKeyIff(a: seq<Action>, b: seq<Action>)
    requires JoinerFree(a, '+') && JoinerFree(b, '+')
    ensures SetKey(a) == SetKey(b) <==> Elements(Leading(Clips(a))) == Elements(Leading(Clips(b)))
  {
    TokensPlain(a, '+');
    TokensPlain(b, '+');
    hide JoinerFree, Tokens, Clips, Leading, Shape, Join, Plain, Elements;
    KeyDecidesShape(Tokens(a), Tokens(b));
    SameShapeIff(Tokens(a), Tokens(b));
    LeadingOfTokens(a);
    LeadingOfTokens(b);
    SameTokenSet(Leading(Clips(a)), Leading(Clips(b)));
  }

  /** At most 16 different actions, and every one fits its token. */
  predicate Small(actions: seq<Action>) {
    |Elements(actions)| <= MAX_TOKENS && forall a | a in actions :: a.Fits()
  }

  lemma FitsWhole(a: Action)
    requires a.Fits()
    ensures a.Clipped() == a && a.Token() == R.KindName(a.kind) + if a.capability == [] then [] else [':'] + a.capability
  {
    TokenParts(a);
  }

  lemma {:induction false} SmallIsLeading(actions: seq<Action>)
    requires Small(actions)
    ensures Elements(Leading(Clips(actions))) == Elements(actions)
  {
    forall i | 0 <= i < |actions|
      ensures Clips(actions)[i] == actions[i]
    {
      assert actions[i] in actions;
      FitsWhole(actions[i]);
    }
    assert Clips(actions) == actions;
    FirstsElements(actions);
    hide Firsts, Clips;
    assert Leading(actions) == Firsts(actions);
  }

  /** Two trajectories of at most 16 different actions, none with the joiner and none longer than its
      token, have the same set-mode key exactly when they take the same actions. */
  lemma {:induction false} SameKeyIff(a: seq<Action>, b: seq<Action>)
    requires JoinerFree(a, '+') && JoinerFree(b, '+') && Small(a) && Small(b)
    ensures SetKey(a) == SetKey(b) <==> Elements(a) == Elements(b)
  {
    SetKeyIff(a, b);
    SmallIsLeading(a);
    SmallIsLeading(b);
  }

  /** A capability may contain the joiner; then different actions can share a key, whatever else they
      are called. */
  lemma {:induction false} KeysCollide(x: string, y: string)
    requires x != [] && Less(x, y) && Joined(x, y).Fits()
    ensures var a, b := [Joined(x, y)], [Action(R.Simulator, x), Action(R.Simulator, y)];
            SetKey(a) == SetKey(b) && Elements(a) != Elements(b) && Small(a) && Small(b)
  {
    var j, u, v := Joined(x, y), Action(R.Simulator, x), Action(R.Simulator, y);
    JoinedToken(x, y);
    OneElement(j);
    TwoElements(u, v);
    assert u.Fits() && v.Fits() && j != u && j != v;
    hide R.KindName, Less, Action.Token, Shape, Join, Joined;
    TwoTokens(u.Token(), v.Token());
    OneToken(j.Token());
    assert Tokens([j]) == [j.Token()] && Tokens([u, v]) == [u.Token(), v.Token()];
    assert j in Elements([j]);
  }

  lemma {:induction false} JoinedToken(x: string, y: string)
    requires x != [] && Less(x, y) && Joined(x, y).Fits()
    ensures var u, v := Action(R.Simulator, x).Token(), Action(R.Simulator, y).Token();
            Less(u, v) && Joined(x, y).Token() == u + ['+'] + v
  {
    var name := R.KindName(R.Simulator);
    FitsWhole(Joined(x, y));
    FitsWhole(Action(R.Simulator, x));
    FitsWhole(Action(R.Simulator, y));
    LessBehind(name + [':'], x, y);
    hide R.KindName, Less, Action.Token;
    assert name + ([':'] + x) == name + [':'] + x && name + ([':'] + y) == name + [':'] + y;
  }

  /** The action whose capability looks like a key of two. */
  function Joined(x: string, y: string): Action {
    Action(R.Simulator, x + (['+'] + (R.KindName(R.Simulator) + ([':'] + y))))
  }

  lemma OneElement(a: Action)
    ensures Elements([a]) == {a}
  {
  }

  lemma TwoElements(a: Action, b: Action)
    ensures Elements([a, b]) == {a, b}
  {
    assert Elements([a, b]) == set t | t in [a, b];
  }

  lemma {:induction false} LessBehind(p: string, a: string, b: string)
    requires Less(a, b)
    ensures Less(p + a, p + b)
  {
    if p == [] {
      assert p + a == a && p + b == b;
    } else {
      assert (p + a)[1..] == p[1..] + a && (p + b)[1..] == p[1..] + b;
      LessBehind(p[1..], a, b);
    }
  }

  lemma {:induction false} TwoTokens(y: string, z: string)
    requires Less(y, z)
    ensures Join(Shape([y]), '+') == y && Join(Shape([y, z]), '+') == y + ['+'] + z
  {
    hide Less;
    assert [y][..0] == [] && [y, z][..1] == [y];
    assert Shape([y]) == [y];
    assert Place([y], z) == 1 + Place([y][1..], z) == 1;
    assert Shape([y, z]) == [y] + [z] + [];
    hide Shape;
    assert Join([y, z], '+') == Join([y, z][..1], '+') + ['+'] + z;
  }

  lemma {:induction false} OneToken(x: string)
    ensures Join(Shape([x]), '+') == x
  {
    assert [x][..0] == [];
  }

  /** A capability may be longer than its token; then different actions have the same one, and their
      trajectories the same keys in both modes. */
  lemma {:induction false} LongNamesCollide(stem: string)
    requires |stem| >= TOKEN_MAX - 1 - |R.KindName(R.Simulator)| && '+' !in stem
    ensures var a, b := [Action(R.Simulator, stem + "a")], [Action(R.Simulator, stem + "b")];
            && Elements(a) != Elements(b) && JoinerFree(a, '+') && JoinerFree(b, '+')
            && SetKey(a) == SetKey(b) && SequenceKey(a) == SequenceKey(b)
  {
    var x, y := Action(R.Simulator, stem + "a"), Action(R.Simulator, stem + "b");
    assert x.capability[|stem|] != y.capability[|stem|];
    assert x.Clipped() == y.Clipped();
    TokenIff(x, y);
    assert [x][0] in Elements([x]) && x !in Elements([y]);
    assert Tokens([x]) == Tokens([y]);
    hide SetKey, SequenceKey;
  }

  // ---- Sequence mode --------------------------------------------------------------------------------

  function SequenceKey(actions: seq<Action>): string {
    Join(Collapse(Tokens(actions)), '>')
  }

  function FirstRuns<T(==)>(s: seq<T>): seq<T> {
    Runs(s)[..Min(|Runs(s)|, MAX_TOKENS)]
  }

  lemma RunsNext<T>(s: seq<T>, x: T)
    ensures Runs(s + [x]) == if s != [] && s[|s| - 1] == x then Runs(s) else Runs(s) + [x]
  {
    var t := s + [x];
    assert t[..|t| - 1] == s && t[|t| - 1] == x;
  }

  /** The runs of tokens are those of the actions, once these are clipped. */
  lemma {:induction false} RunsOfTokens(actions: seq<Action>)
    ensures Runs(Tokens(actions)) == Tokens(Runs(Clips(actions)))
    ensures Clips(Runs(Clips(actions))) == Runs(Clips(actions))
  {
    if actions == [] {
      assert Tokens(actions) == [] && Clips(actions) == [];
    } else {
      hide Runs, Tokens, Clips;
      var front, last := actions[..|actions| - 1], actions[|actions| - 1];
      RunsOfTokens(front);
      RunsOfTokensNext(front, last);
      assert front + [last] == actions;
    }
  }

  lemma {:induction false} RunsOfTokensNext(front: seq<Action>, last: Action)
    requires Runs(Tokens(front)) == Tokens(Runs(Clips(front))) && Clips(Runs(Clips(front))) == Runs(Clips(front))
    ensures Runs(Tokens(front + [last])) == Tokens(Runs(Clips(front + [last])))
    ensures Clips(Runs(Clips(front + [last]))) == Runs(Clips(front + [last]))
  {
    hide Runs, Tokens, Clips, Action.Token, Action.Clipped;
    TokensNext(front, last);
    RunsNext(Tokens(front), last.Token());
    RunsNext(Clips(front), last.Clipped());
    SameRun(front, last);
    ClippedToken(last);
    TokensNext(Runs(Clips(front)), last.Clipped());
  }

  lemma SameRun(actions: seq<Action>, a: Action)
    ensures actions != [] ==>
      var n := |actions| - 1; (Tokens(actions)[n] == a.Token() <==> Clips(actions)[n] == a.Clipped())
  {
    hide Action.Token, Action.Clipped;
    if actions != [] {
      TokenIff(actions[|actions| - 1], a);
    }
  }

  lemma {:induction false} SameTokens(a: seq<Action>, b: seq<Action>)
    requires Clips(a) == a && Clips(b) == b
    ensures Tokens(a) == Tokens(b) <==> a == b
  {
    hide Action.Token, Action.Clipped;
    if Tokens(a) == Tokens(b) {
      forall i | 0 <= i < |a|
        ensures a[i] == b[i]
      {
        assert Tokens(a)[i] == Tokens(b)[i] && Clips(a)[i] == a[i] && Clips(b)[i] == b[i];
        TokenIff(a[i], b[i]);
      }
    }
  }

  lemma {:induction false} CollapseOfTokens(actions: seq<Action>)
    ensures Collapse(Tokens(actions)) == Tokens(FirstRuns(Clips(actions)))
    ensures Clips(FirstRuns(Clips(actions))) == FirstRuns(Clips(actions))
  {
    CollapseIsFirstRuns(Tokens(actions));
    RunsOfTokens(actions);
    var runs := Runs(Clips(actions));
    hide Runs, Collapse, Action.Token, Action.Clipped;
    assert forall i | 0 <= i < |runs| :: runs[i] == Clips(runs)[i];
  }

  /** Without the joiner two trajectories have the same sequence-mode key exactly when the first 16 runs
      of equal actions are the same, each clipped to its token. */
  lemma {:induction false} SequenceKeyIff(a: seq<Action>, b: seq<Action>)
    requires JoinerFree(a, '>') && JoinerFree(b, '>')
    ensures SequenceKey(a) == SequenceKey(b) <==> FirstRuns(Clips(a)) == FirstRuns(Clips(b))
  {
    TokensPlain(a, '>');
    TokensPlain(b, '>');
    hide JoinerFree, Tokens, Clips, FirstRuns, Collapse, Join, Plain;
    KeyDecidesRuns(Tokens(a), Tokens(b));
    CollapseOfTokens(a);
    CollapseOfTokens(b);
    SameTokens(FirstRuns(Clips(a)), FirstRuns(Clips(b)));
  }

  /** The runs of two parts one behind the other: a run may go on across the seam. */
  lemma {:induction false} RunsConcat(a: seq<string>, b: seq<string>)
    requires b != []
    ensures Runs(b) != [] && Runs(b)[0] == b[0]
    ensures Runs(a + b) == Runs(a) + if a != [] && a[|a| - 1] == b[0] then Runs(b)[1..] else Runs(b)
    decreases |b|
  {
    var front, last := b[..|b| - 1], b[|b| - 1];
    assert b == front + [last] && a + b == a + front + [last];
    RunsNext(a + front, last);
    RunsNext(front, last);
    hide Runs;
    if front == [] {
      NoRuns();
      assert a + front == a;
    } else {
      RunsConcat(a, front);
    }
  }

  lemma NoRuns()
    ensures Runs<string>([]) == []
  {
  }

  /** Behind the first run, m runs go on as if x came first: x and the first run in turn. */
  predicate Alternates(runs: seq<string>, x: string, m: nat) {
    |runs| > m && runs[1..m + 1] == ([x] + runs)[..m]
  }

  /** x between a and b is not seen in the key: 16 runs come before it, it repeats a neighbour, or it
      splits a run behind which x and that run alternate until 16 runs are full. */
  predicate Unseen(a: seq<string>, x: string, b: seq<string>) {
    || |Runs(a)| >= MAX_TOKENS
    || (a != [] && a[|a| - 1] == x)
    || (b != [] && b[0] == x)
    || (a != [] && b != [] && a[|a| - 1] == b[0] && Alternates(Runs(b), x, MAX_TOKENS - |Runs(a)|))
  }

  /** One more token anywhere leaves the first 16 runs as they were exactly when it is not seen. */
  lemma {:induction false} CollapseUnchangedIff(a: seq<string>, x: string, b: seq<string>)
    ensures Collapse(a + [x] + b) == Collapse(a + b) <==> Unseen(a, x, b)
  {
    CollapseIsFirstRuns(a + [x] + b);
    CollapseIsFirstRuns(a + b);
    hide Collapse;
    if (a != [] && a[|a| - 1] == x) || (b != [] && b[0] == x) {
      RunsOfRepeated(a, x, b);
    } else {
      RunsNext(a, x);
      if b == [] {
        assert a + [x] + b == a + [x] && a + b == a;
      } else {
        RunsConcat(a + [x], b);
        RunsConcat(a, b);
        var ra, rb := Runs(a), Runs(b);
        hide Runs;
        FirstRunsOf(ra, x, rb, a != [] && a[|a| - 1] == b[0]);
      }
    }
  }

  lemma {:induction false} RunsOfRepeated(a: seq<string>, x: string, b: seq<string>)
    requires (a != [] && a[|a| - 1] == x) || (b != [] && b[0] == x)
    ensures Runs(a + [x] + b) == Runs(a + b)
  {
    hide Runs;
    if a != [] && a[|a| - 1] == x {
      var front := a[..|a| - 1];
      assert a == front + [x] && a + [x] + b == front + [x, x] + b;
      RunsOfStutter(front, x, b);
    } else {
      var back := b[1..];
      assert b == [x] + back && a + [x] + b == a + [x, x] + back && a + b == a + [x] + back;
      RunsOfStutter(a, x, back);
    }
  }

  function Most(s: seq<string>, n: nat): seq<string> {
    s[..Min(|s|, n)]
  }

  /** What the first 16 runs are when x comes between, and when it does not. */
  lemma {:induction false} FirstRunsOf(ra: seq<string>, x: string, rb: seq<string>, goesOn: bool)
    requires rb != [] && rb[0] != x
    ensures Most(ra + [x] + rb, MAX_TOKENS) == Most(ra + if goesOn then rb[1..] else rb, MAX_TOKENS)
       <==> |ra| >= MAX_TOKENS || (goesOn && Alternates(rb, x, MAX_TOKENS - |ra|))
  {
    var rest := if goesOn then rb[1..] else rb;
    assert ra + [x] + rb == ra + ([x] + rb);
    if |ra| >= MAX_TOKENS {
      assert Most(ra + ([x] + rb), MAX_TOKENS) == ra[..MAX_TOKENS] == Most(ra + rest, MAX_TOKENS);
    } else {
      var m := MAX_TOKENS - |ra|;
      BehindPrefix(ra, [x] + rb, rest, m);
      assert !goesOn ==> Most([x] + rb, m)[0] != Most(rest, m)[0];
      if goesOn && |rb| > m {
        assert Most(rest, m) == rb[1..m + 1];
      }
    }
  }

  lemma BehindPrefix(a: seq<string>, b: seq<string>, c: seq<string>, m: nat)
    ensures Most(a + b, |a| + m) == Most(a + c, |a| + m) <==> Most(b, m) == Most(c, m)
  {
    assert Most(a + b, |a| + m) == a + Most(b, m);
    assert Most(a + c, |a| + m) == a + Most(c, m);
    assert Most(b, m) == (a + Most(b, m))[|a|..] && Most(c, m) == (a + Most(c, m))[|a|..];
  }

  /** A rejected reply leaves a trajectory's first 16 runs, and with them its sequence-mode key, as they
      were exactly when a bare local_shell is not seen at its place. */
  lemma {:induction false} RejectedRunsIff(a: seq<string>, reply: string, b: seq<string>)
    requires Rejected(reply)
    ensures Collapse(ReplyTokens(a + [reply] + b)) == Collapse(ReplyTokens(a + b))
       <==> Unseen(ReplyTokens(a), REJECTED_TOKEN, ReplyTokens(b))
    ensures Plain(ReplyTokens(a + b), '>') ==>
      (Join(Collapse(ReplyTokens(a + [reply] + b)), '>') == Join(Collapse(ReplyTokens(a + b)), '>')
       <==> Unseen(ReplyTokens(a), REJECTED_TOKEN, ReplyTokens(b)))
  {
    RejectedTokens(a, reply, b);
    var x, y := ReplyTokens(a), ReplyTokens(b);
    hide ReplyTokens, Collapse, Join, Unseen;
    CollapseUnchangedIff(x, REJECTED_TOKEN, y);
    if Plain(x + y, '>') {
      PlainAround(x, REJECTED_TOKEN, y, '>');
      KeyDecidesRuns(x + [REJECTED_TOKEN] + y, x + y);
    }
  }
}
