/** The learning loop, from src/cli/main.c, src/improve/improve.c and include/geistshell/improve.h:
    lessons are tried in the store, and kept only if they pass the gate. */
module Improve {
  import opened Statuses
  import G = GuardRing

  datatype Text = Text(description: string, body: string)

  /** What the memory store holds, by slug. */
  type Contents = map<string, Text>

  datatype Lesson = Lesson(slug: string, text: Text, originCase: nat)

  /** How a suite went: which of its cases passed. */
  datatype Report = Report(passed: nat, outcomes: seq<bool>)

  /** A deterministic evaluator: what suites and guards give depends on the store alone. A suite that
      cannot be run gives nothing; a mutation that does not apply gives the empty text. */
  datatype World = World(gate: Contents -> Option<Report>, train: Contents -> Option<Report>,
                         guard: (string, Contents) -> bool, mutate: (nat, string) -> string)

  class Store {
    var contents: Contents

    method Save(slug: string, text: Text)
      modifies this
      ensures contents == old(contents)[slug := text]
    {
      contents := contents[slug := text];
    }

    /** `fails`: the file is there and cannot be removed. */
    method Delete(slug: string, fails: bool) returns (status: Status)
      modifies this
      ensures status == if slug !in old(contents) then NotFound else if fails then Io else Ok
      ensures contents == if status == Io then old(contents) else old(contents) - {slug}
    {
      if slug !in contents {
        return NotFound;
      }
      if fails {
        return Io;
      }
      contents := contents - {slug};
      return Ok;
    }

    /** Keep a lesson that was saved for trial, or take it back; one that is not there is taken back
        already. */
    method Commit(lesson: Lesson, accepted: bool, fails: bool) returns (status: Status, kept: bool)
      modifies this
      ensures kept == accepted
      ensures status == if !accepted && fails && lesson.slug in old(contents) then Io else Ok
      ensures contents == if accepted || status == Io then old(contents) else old(contents) - {lesson.slug}
    {
      if accepted {
        return Ok, true;
      }
      status := Delete(lesson.slug, fails);
      return if status == Ok || status == NotFound then Ok else Io, false;
    }
  }

  // ---- The gate --------------------------------------------------------------------------------

  /** A lesson that neither helps nor hurts is kept. */
  predicate AcceptSuite(baseline: nat, trial: nat) {
    trial >= baseline
  }

  predicate PassGate(suiteOk: bool, guardsOk: bool, proveBenefit: bool, caseNowPasses: bool) {
    suiteOk && guardsOk && (!proveBenefit || caseNowPasses)
  }

  /** Taking back a trial restores the store exactly when the slug was not there before: a lesson
      that was already stored under it is lost. */
  lemma {:induction false} RevertRestoresIff(before: Contents, slug: string, text: Text)
    ensures before[slug := text] - {slug} == before <==> slug !in before
  {
    if slug in before {
      assert slug !in before[slug := text] - {slug};
    }
  }

  /** Every guard that passed without the lesson passes with it. */
  ghost predicate GuardsSurvive(w: World, guards: seq<G.Guard>, before: Contents, after: Contents) {
    forall i | 0 <= i < |guards| && guards[i].used ::
      w.guard(guards[i].configPath, before) ==> w.guard(guards[i].configPath, after)
  }

  /** The store after is no worse: no case fewer, no guard lost, nothing forgotten or changed. */
  ghost predicate NoWorse(w: World, guards: seq<G.Guard>, before: Contents, after: Contents) {
    && w.gate(before).Some? && w.gate(after).Some? && w.gate(before).value.passed <= w.gate(after).value.passed
    && GuardsSurvive(w, guards, before, after)
    && before.Keys <= after.Keys && forall s | s in before :: after[s] == before[s]
  }

  lemma {:induction false} NoWorseTransitive(w: World, guards: seq<G.Guard>, a: Contents, b: Contents, c: Contents)
    requires NoWorse(w, guards, a, b) && NoWorse(w, guards, b, c)
    ensures NoWorse(w, guards, a, c)
  {
    forall i | 0 <= i < |guards| && guards[i].used
      ensures w.guard(guards[i].configPath, a) ==> w.guard(guards[i].configPath, c)
    {
    }
  }

  /** What a run is given. */
  datatype Setup = Setup(world: World, guards: seq<G.Guard>, prove: bool, validate: bool, candidates: seq<Lesson>) {
    /** The case a lesson comes from passes: in the trial itself, or in a run of its own when the gate
        is another suite. */
    ghost predicate Proven(lesson: Lesson, after: Contents) {
      var report := if validate then world.train(after) else world.gate(after);
      report.Some? && lesson.originCase < |report.value.outcomes| && report.value.outcomes[lesson.originCase]
    }

    /** A lesson is worth keeping: with it no fewer than `current` cases pass, no guard is lost, and, on
        demand, its own case passes. */
    ghost predicate Worthy(lesson: Lesson, current: nat, absent: Contents, present: Contents)
      requires world.gate(present).Some?
    {
      && current <= world.gate(present).value.passed
      && GuardsSurvive(world, guards, absent, present) && (prove ==> Proven(lesson, present))
    }

    /** A trial ends the whole run: the gate suite cannot be run with the lesson, or, when no fewer cases pass
        and the case must be proven in a suite of its own, that suite cannot. */
    predicate Breaks(current: nat, present: Contents) {
      || world.gate(present) == None
      || (prove && validate && current <= world.gate(present).value.passed && world.train(present) == None)
    }

    /** Some guard passes without the lesson and fails with it. */
    ghost predicate LosesGuard(absent: Contents, present: Contents) {
      exists i :: 0 <= i < |guards| && guards[i].used
                  && world.guard(guards[i].configPath, absent) && !world.guard(guards[i].configPath, present)
    }

    /** Exactly three things speak against a lesson: fewer cases pass, a guard is lost, or its own case must be
        proven and does not pass. One that changes nothing is worth keeping. */
    lemma {:induction false} WorthyIff(lesson: Lesson, current: nat, absent: Contents, present: Contents)
      requires world.gate(present).Some?
      ensures Worthy(lesson, current, absent, present) <==>
        && !(world.gate(present).value.passed < current) && !LosesGuard(absent, present)
        && !(prove && !Proven(lesson, present))
      ensures world.gate(present).value.passed == current && !prove
              && (forall path :: world.guard(path, present) == world.guard(path, absent)) ==>
        Worthy(lesson, current, absent, present)
    {
    }

    /** What trying candidate k does to the store: the lesson is there afterwards, with the wording that was
        tried, exactly when it is worth keeping. */
    ghost predicate Decided(evolve: bool, stores: seq<Contents>, texts: seq<Text>, k: nat)
      requires k < |candidates| && k < |texts| && k + 1 < |stores|
    {
      var lesson, before := candidates[k], stores[k];
      var present := before[lesson.slug := texts[k]];
      && Worded(evolve, lesson, before, texts[k])
      && world.gate(before).Some? && world.gate(present).Some?
      && stores[k + 1] == if Worthy(lesson, world.gate(before).value.passed, before, present) then present else before
    }

    /** The wording that is tried: the lesson's own, or the fittest. */
    ghost predicate Worded(evolve: bool, lesson: Lesson, before: Contents, text: Text) {
      if evolve then exists op: nat :: text == Wording(world, op, lesson)
                                       && Fittest(world, op, lesson, before[lesson.slug := lesson.text])
      else text == lesson.text
    }

    /** The run stopped at the candidate behind the last of these stores. */
    ghost predicate Broken(evolve: bool, stores: seq<Contents>, texts: seq<Text>)
      requires |stores| == |texts|
    {
      && 0 < |stores| <= |candidates|
      && var k := |stores| - 1;
         && world.gate(stores[k]).Some? && Worded(evolve, candidates[k], stores[k], texts[k])
         && Breaks(world.gate(stores[k]).value.passed, stores[k][candidates[k].slug := texts[k]])
    }

    /** What holds between the stores before and after a lesson is kept. */
    ghost predicate Kept(lesson: Lesson, before: Contents, after: Contents) {
      && lesson.slug !in before && after.Keys == before.Keys + {lesson.slug}
      && after[lesson.slug].body == lesson.text.body
      && NoWorse(world, guards, before, after) && (prove ==> Proven(lesson, after))
    }

    /** The stores after each kept lesson, in order. */
    ghost predicate Chain(trace: seq<Contents>) {
      && trace != []
      && (|trace| == 1
          || (&& Chain(trace[..|trace| - 1])
              && exists lesson | lesson in candidates :: Kept(lesson, trace[|trace| - 2], trace[|trace| - 1])))
    }

    /** Over a whole run the pass count of the gate suite does not drop, no guard that passed at the
        start fails at the end, and nothing that was stored is lost or changed. */
    lemma {:induction false} NothingRegresses(trace: seq<Contents>)
      requires Chain(trace) && world.gate(trace[0]).Some?
      ensures NoWorse(world, guards, trace[0], trace[|trace| - 1])
    {
      if |trace| > 1 {
        var front := trace[..|trace| - 1];
        NothingRegresses(front);
        hide NoWorse;
        NoWorseTransitive(world, guards, trace[0], front[|front| - 1], trace[|trace| - 1]);
      }
    }
  }

  // ---- Searching for a better wording -----------------------------------------------------------

  const OPERATORS: nat := 4

  /** The first of the highest scores: the incumbent wins ties. Without scores it is 0. */
  method Select(scores: seq<nat>) returns (best: nat)
    ensures scores == [] ==> best == 0
    ensures scores != [] ==> best < |scores| && forall k | 0 <= k < |scores| :: scores[k] <= scores[best]
    ensures scores != [] ==> forall k | 0 <= k < best :: scores[k] < scores[best]
  {
    best := 0;
    if scores == [] {
      return;
    }
    for i := 1 to |scores|
      invariant best < |scores| && best < i
      invariant forall k | 0 <= k < i :: scores[k] <= scores[best]
      invariant forall k | 0 <= k < best :: scores[k] < scores[best]
    {
      if scores[i] > scores[best] {
        best := i;
      }
    }
  }

  /** A suite that cannot be run scores nothing. */
  function Score(w: World, contents: Contents): nat {
    var report := w.gate(contents);
    if report.Some? then report.value.passed else 0
  }

  function Variant(w: World, op: nat, description: string): string {
    if op == 0 then description else w.mutate(op, description)
  }

  /** An operator that does not apply gives no text; the first one is the wording as it is. */
  predicate Applies(w: World, op: nat, lesson: Lesson) {
    op == 0 || Variant(w, op, lesson.text.description) != []
  }

  function Wording(w: World, op: nat, lesson: Lesson): Text {
    Text(Variant(w, op, lesson.text.description), lesson.text.body)
  }

  function Rating(w: World, op: nat, lesson: Lesson, before: Contents): nat {
    Score(w, before[lesson.slug := Wording(w, op, lesson)])
  }

  /** How many cases pass with a wording: none if the suite cannot be run. */
  function PassedWith(w: World, lesson: Lesson, before: Contents, description: string): nat {
    match w.gate(before[lesson.slug := Text(description, lesson.text.body)])
    case None => 0
    case Some(report) => report.passed
  }

  /** Four wordings are rated: the lesson's own and three changed ones, of which those without text do not
      count. The first with the most passed cases is taken. */
  lemma {:induction false} FittestIs(w: World, best: nat, lesson: Lesson, before: Contents)
    requires Fittest(w, best, lesson, before)
    ensures best < 4
    ensures var own := lesson.text.description;
            var chosen := if best == 0 then own else w.mutate(best, own);
            && Wording(w, best, lesson) == Text(chosen, lesson.text.body) && (best > 0 ==> chosen != "")
            && (if best == 0 then true
                else PassedWith(w, lesson, before, own) < PassedWith(w, lesson, before, chosen))
            && (forall op | 0 < op < best && w.mutate(op, own) != "" ::
                  PassedWith(w, lesson, before, w.mutate(op, own)) < PassedWith(w, lesson, before, chosen))
            && (forall op | best < op < 4 && w.mutate(op, own) != "" ::
                  PassedWith(w, lesson, before, w.mutate(op, own)) <= PassedWith(w, lesson, before, chosen))
  {
    forall op: nat | op < 4
      ensures Rating(w, op, lesson, before) == PassedWith(w, lesson, before, Variant(w, op, lesson.text.description))
    {
    }
    forall op: nat | op < 4 && (op == 0 || w.mutate(op, lesson.text.description) != "")
      ensures Rating(w, op, lesson, before) <= Rating(w, best, lesson, before)
      ensures op < best ==> Rating(w, op, lesson, before) < Rating(w, best, lesson, before)
    {
      assert Applies(w, op, lesson);
    }
    assert Rating(w, 0, lesson, before) == PassedWith(w, lesson, before, lesson.text.description);
    hide Rating, PassedWith;
  }

  /** Operator `best` applies, no other that does rates higher, and no earlier one as high. */
  predicate Fittest(w: World, best: nat, lesson: Lesson, before: Contents) {
    && best < OPERATORS && Applies(w, best, lesson)
    && forall op | 0 <= op < OPERATORS && Applies(w, op, lesson) ::
         && Rating(w, op, lesson, before) <= Rating(w, best, lesson, before)
         && (op < best ==> Rating(w, op, lesson, before) < Rating(w, best, lesson, before))
  }

  /** Try every wording that applies, and leave the fittest in the store. */
  method Evolve(w: World, store: Store, lesson: Lesson) returns (best: nat, text: Text, score: nat)
    modifies store
    ensures Fittest(w, best, lesson, old(store.contents)) && text == Wording(w, best, lesson)
    ensures store.contents == old(store.contents)[lesson.slug := text] && score == Score(w, store.contents)
  {
    var description, body := lesson.text.description, lesson.text.body;
    ghost var before := store.contents;
    var scores := seq(OPERATORS, _ => 0);
    for op := 0 to OPERATORS
      invariant |scores| == OPERATORS
      invariant forall s | s != lesson.slug :: s in store.contents <==> s in before
      invariant forall s | s != lesson.slug && s in before :: store.contents[s] == before[s]
      invariant forall k | 0 <= k < OPERATORS ::
                  scores[k] == if k < op && Applies(w, k, lesson) then Rating(w, k, lesson, before) else 0
    {
      var variant := Variant(w, op, description);
      if op > 0 && variant == [] {
        continue;
      }
      store.Save(lesson.slug, Text(variant, body));
      assert store.contents == before[lesson.slug := Text(variant, body)];
      scores := scores[op := Score(w, store.contents)];
    }
    best := Select(scores);
    assert best != 0 ==> scores[best] > scores[0];
    text := Text(Variant(w, best, description), body);
    store.Save(lesson.slug, text);
    assert store.contents == before[lesson.slug := text];
    score := scores[best];
  }

  // ---- The loop over candidates ---------------------------------------------------------------------

  /** Whether the case a lesson comes from passes now. */
  method CheckCase(setup: Setup, lesson: Lesson, contents: Contents, trial: Report) returns (aborted: bool, proven: bool)
    requires setup.world.gate(contents) == Some(trial)
    ensures !aborted ==> (proven <==> setup.Proven(lesson, contents))
    ensures aborted <==> setup.validate && setup.world.train(contents) == None
  {
    var report := trial;
    if setup.validate {
      var run := setup.world.train(contents);
      if run == None {
        return true, false;
      }
      report := run.value;
    }
    return false, lesson.originCase < |report.outcomes| && report.outcomes[lesson.originCase];
  }

  /** Run all guards without and with the lesson; the store ends with it. */
  method CheckGuards(setup: Setup, store: Store, ring: G.Ring, slug: string, text: Text) returns (ok: bool)
    requires ring.Valid() && setup.guards == ring.slots[..]
    requires slug in store.contents && store.contents[slug] == text
    modifies store
    ensures store.contents == old(store.contents)
    ensures ok <==> GuardsSurvive(setup.world, setup.guards, old(store.contents) - {slug}, old(store.contents))
  {
    var w, present, absent := setup.world, store.contents, store.contents - {slug};
    ok := ring.Gate((path, withLesson) => w.guard(path, if withLesson then present else absent));
    // The last guard run may have left the lesson in or out.
    if * {
      var status := store.Delete(slug, false);
    }
    store.Save(slug, text);
    assert store.contents == present;
  }

  /** Whether a lesson that has been saved for trial is worth keeping. */
  method JudgeLesson(setup: Setup, store: Store, ring: G.Ring, lesson: Lesson, wording: Text, current: nat)
    returns (aborted: bool, accepted: bool, trialPassed: nat)
    requires ring.Valid() && setup.guards == ring.slots[..]
    requires lesson.slug in store.contents && store.contents[lesson.slug] == wording
    modifies store
    ensures store.contents == old(store.contents)
    ensures aborted <==> setup.Breaks(current, store.contents)
    ensures !aborted ==>
      && setup.world.gate(store.contents).Some? && setup.world.gate(store.contents).value.passed == trialPassed
      && (accepted <==> setup.Worthy(lesson, current, store.contents - {lesson.slug}, store.contents))
  {
    hide GuardsSurvive, Setup.Proven;
    var trial := setup.world.gate(store.contents);
    if trial == None {
      return true, false, 0;
    }
    trialPassed := trial.value.passed;
    var suiteOk, proven := AcceptSuite(current, trialPassed), !setup.prove;
    if setup.prove && suiteOk {
      aborted, proven := CheckCase(setup, lesson, store.contents, trial.value);
      if aborted {
        return true, false, 0;
      }
    }
    var guardsOk := true;
    if suiteOk && proven {
      guardsOk := CheckGuards(setup, store, ring, lesson.slug, wording);
    }
    return false, PassGate(suiteOk, guardsOk, setup.prove, proven), trialPassed;
  }

  /** Try one lesson: it is kept exactly when it is worth it, and otherwise nothing is left under its
      slug. */
  method TryLesson(setup: Setup, store: Store, ring: G.Ring, evolve: bool, lesson: Lesson, current: nat)
    returns (aborted: bool, kept: bool, passed: nat, ghost text: Text)
    requires ring.Valid() && setup.guards == ring.slots[..]
    modifies store
    ensures text.body == lesson.text.body && (!evolve ==> text == lesson.text)
    ensures setup.Worded(evolve, lesson, old(store.contents), text)
    ensures aborted <==> setup.Breaks(current, old(store.contents)[lesson.slug := text])
    ensures !aborted ==> var present := old(store.contents)[lesson.slug := text];
                         && setup.world.gate(present).Some?
                         && (kept <==> setup.Worthy(lesson, current, old(store.contents) - {lesson.slug}, present))
                         && passed == (if kept then setup.world.gate(present).value.passed else current)
                         && store.contents == if kept then present else old(store.contents) - {lesson.slug}
  {
    var slug, wording := lesson.slug, lesson.text;
    ghost var before := store.contents;
    store.Save(slug, wording);
    if evolve {
      var op, score;
      op, wording, score := Evolve(setup.world, store, lesson);
    }
    text := wording;
    assert store.contents == before[slug := wording];
    assert store.contents - {slug} == before - {slug};
    var accepted, trialPassed;
    aborted, accepted, trialPassed := JudgeLesson(setup, store, ring, lesson, wording, current);
    if aborted {
      return true, false, 0, text;
    }
    // The loop ignores the status.
    var status;
    status, kept := store.Commit(Lesson(slug, wording, lesson.originCase), accepted, false);
    passed := if kept then trialPassed else current;
  }

  /** A slug that is new: a lesson that is not kept leaves the store as it was. */
  lemma {:induction false} FreshStep(setup: Setup, lesson: Lesson, text: Text, current: nat, before: Contents)
    requires lesson.slug !in before && text.body == lesson.text.body
    requires setup.world.gate(before).Some? && setup.world.gate(before).value.passed == current
    requires setup.world.gate(before[lesson.slug := text]).Some?
    ensures before - {lesson.slug} == before
    ensures setup.Worthy(lesson, current, before - {lesson.slug}, before[lesson.slug := text])
       ==> setup.Kept(lesson, before, before[lesson.slug := text])
  {
    assert before - {lesson.slug} == before;
  }

  /** A slug that is taken: when the new lesson is not kept the old one is lost, and the pass count that
      the loop carries along is no longer that of the store. */
  lemma {:induction false} TakenSlugLosesLesson()
    ensures var taken := Text("old", "old");
            var before := map["slug" := taken];
            var gate := (c: Contents) => Some(Report(if "slug" in c && c["slug"] == taken then 1 else 0, []));
            var setup := Setup(World(gate, gate, (_, _) => true, (_, _) => ""), [], false, false, []);
            var lesson := Lesson("slug", Text("new", "new"), 0);
            var present := before[lesson.slug := lesson.text];
            && gate(before).value.passed == 1
            && !setup.Worthy(lesson, 1, before - {lesson.slug}, present)
            && gate(before - {lesson.slug}).value.passed == 0
  {
    assert map["slug" := Text("old", "old")]["slug" := Text("new", "new")]["slug"].description == "new";
  }

  /** How often a step changed the store. */
  function Changes(stores: seq<Contents>): nat {
    if |stores| <= 1 then 0
    else
      var n := |stores| - 1;
      Changes(stores[..n]) + if stores[n] != stores[n - 1] then 1 else 0
  }

  lemma {:induction false} DecidedStay(setup: Setup, evolve: bool, stores: seq<Contents>, texts: seq<Text>,
                                       stores': seq<Contents>, texts': seq<Text>)
    requires |stores| == |texts| + 1 && stores <= stores' && texts <= texts' && |texts'| <= |setup.candidates|
    requires forall i :: 0 <= i < |texts| ==> setup.Decided(evolve, stores, texts, i)
    ensures forall i :: 0 <= i < |texts| ==> setup.Decided(evolve, stores', texts', i)
  {
    hide Setup.Worthy, Setup.Worded;
    forall i | 0 <= i < |texts|
      ensures setup.Decided(evolve, stores', texts', i)
    {
      assert setup.Decided(evolve, stores, texts, i);
    }
  }

  /** The first k candidates have been tried. */
  ghost predicate SoFar(setup: Setup, evolve: bool, stores: seq<Contents>, texts: seq<Text>, k: nat, kept: nat) {
    && |stores| == k + 1 && |texts| == k && k <= |setup.candidates| && kept == Changes(stores)
    && forall i :: 0 <= i < k ==> setup.Decided(evolve, stores, texts, i)
  }

  /** One candidate more. */
  lemma {:induction false} DecidedNext(setup: Setup, evolve: bool, stores: seq<Contents>, texts: seq<Text>, k: nat,
                                       kept: nat, text: Text, after: Contents)
    requires k < |setup.candidates| && SoFar(setup, evolve, stores, texts, k, kept)
    requires var lesson, before := setup.candidates[k], stores[k];
             var present := before[lesson.slug := text];
             && lesson.slug !in before && setup.Worded(evolve, lesson, before, text)
             && setup.world.gate(before).Some? && setup.world.gate(present).Some?
             && after == if setup.Worthy(lesson, setup.world.gate(before).value.passed, before - {lesson.slug}, present)
                         then present else before - {lesson.slug}
    ensures SoFar(setup, evolve, stores + [after], texts + [text], k + 1,
                  if setup.candidates[k].slug in after then kept + 1 else kept)
  {
    hide Setup.Worthy, Setup.Worded;
    var slug, more, texts' := setup.candidates[k].slug, stores + [after], texts + [text];
    assert stores[k] - {slug} == stores[k];
    DecidedStay(setup, evolve, stores, texts, more, texts');
    assert setup.Decided(evolve, more, texts', k);
    assert more[..k + 1] == stores;
  }

  /** The run stops at candidate k. */
  lemma {:induction false} Stopped(setup: Setup, evolve: bool, stores: seq<Contents>, texts: seq<Text>, k: nat,
                                   kept: nat, text: Text)
    requires k < |setup.candidates| && SoFar(setup, evolve, stores, texts, k, kept)
    requires var lesson, before := setup.candidates[k], stores[k];
             && setup.Worded(evolve, lesson, before, text) && setup.world.gate(before).Some?
             && setup.Breaks(setup.world.gate(before).value.passed, before[lesson.slug := text])
    ensures |texts + [text]| == |stores| && kept == Changes(stores) && setup.Broken(evolve, stores, texts + [text])
    ensures forall i :: 0 <= i < k ==> setup.Decided(evolve, stores, texts + [text], i)
  {
    hide Setup.Worded, Setup.Breaks, Setup.Decided;
    DecidedStay(setup, evolve, stores, texts, stores, texts + [text]);
  }

  lemma AllTried(setup: Setup, evolve: bool, stores: seq<Contents>, texts: seq<Text>, kept: nat)
    requires SoFar(setup, evolve, stores, texts, |setup.candidates|, kept)
    ensures |stores| == |setup.candidates| + 1 && |texts| == |setup.candidates| && kept == Changes(stores)
    ensures forall i :: 0 <= i < |stores| - 1 ==> setup.Decided(evolve, stores, texts, i)
  {
    hide Setup.Decided;
  }

  /** A chain from the first store to the last. */
  ghost predicate Traced(setup: Setup, trace: seq<Contents>, kept: nat, first: Contents, last: Contents) {
    setup.Chain(trace) && |trace| == kept + 1 && trace[0] == first && trace[kept] == last
  }

  lemma {:induction false} TracedNext(setup: Setup, trace: seq<Contents>, kept: nat, first: Contents, last: Contents,
                                      lesson: Lesson, after: Contents)
    requires Traced(setup, trace, kept, first, last) && lesson in setup.candidates && setup.Kept(lesson, last, after)
    ensures Traced(setup, trace + [after], kept + 1, first, after)
  {
    hide Setup.Kept;
    var longer := trace + [after];
    assert longer[..|longer| - 1] == trace && longer[|longer| - 2] == last;
  }

  lemma TracedMeans(setup: Setup, trace: seq<Contents>, kept: nat, first: Contents, last: Contents)
    requires Traced(setup, trace, kept, first, last)
    ensures setup.Chain(trace) && |trace| == kept + 1 && trace[0] == first && trace[kept] == last
  {
    hide Setup.Chain;
  }

  /** Run the whole loop. With slugs that are new and differ from each other, the pass count the loop
      carries along is always that of the gate suite on the current store. */
  method ImproveStore(setup: Setup, store: Store, ring: G.Ring, evolve: bool)
    returns (aborted: bool, kept: nat, passed: nat, ghost trace: seq<Contents>, ghost stores: seq<Contents>,
             ghost texts: seq<Text>)
    requires ring.Valid() && setup.guards == ring.slots[..]
    requires forall lesson | lesson in setup.candidates :: lesson.slug !in store.contents
    requires forall i, j | 0 <= i < j < |setup.candidates| :: setup.candidates[i].slug != setup.candidates[j].slug
    modifies store
    ensures !aborted ==>
      && setup.Chain(trace) && |trace| == kept + 1
      && trace[0] == old(store.contents) && trace[kept] == store.contents
      && setup.world.gate(store.contents).Some? && setup.world.gate(store.contents).value.passed == passed
      && NoWorse(setup.world, setup.guards, old(store.contents), store.contents)
    ensures stores != [] && stores[0] == old(store.contents) && |texts| <= |setup.candidates|
    ensures !aborted ==> |stores| == |setup.candidates| + 1 && stores[|stores| - 1] == store.contents
    ensures |texts| >= |stores| - 1
    ensures forall k :: 0 <= k < |stores| - 1 ==> setup.Decided(evolve, stores, texts, k)
    ensures aborted ==>
      setup.world.gate(old(store.contents)) == None || (|texts| == |stores| && setup.Broken(evolve, stores, texts))
    ensures kept == Changes(stores)
  {
    trace, stores, texts := [store.contents], [store.contents], [];
    var baseline := setup.world.gate(store.contents);
    if baseline == None {
      return true, 0, 0, trace, stores, texts;
    }
    ghost var start := store.contents;
    aborted, kept, passed := false, 0, baseline.value.passed;
    assert SoFar(setup, evolve, stores, texts, 0, 0) && Traced(setup, trace, 0, start, start);
    hide Setup.Worthy, NoWorse, GuardsSurvive, Setup.Proven, Setup.Worded, Setup.Decided, Setup.Breaks, SoFar, Traced;
    hide Setup.Kept, Setup.Chain;
    for k := 0 to |setup.candidates|
      invariant setup.world.gate(store.contents).Some? && setup.world.gate(store.contents).value.passed == passed
      invariant Traced(setup, trace, kept, start, store.contents)
      invariant forall i | k <= i < |setup.candidates| :: setup.candidates[i].slug !in store.contents
      invariant |stores| == k + 1 && stores[0] == start && stores[k] == store.contents
      invariant SoFar(setup, evolve, stores, texts, k, kept)
    {
      var lesson, wasKept := setup.candidates[k], false;
      ghost var last := store.contents;
      ghost var text;
      ghost var current := passed;
      aborted, wasKept, passed, text := TryLesson(setup, store, ring, evolve, lesson, passed);
      if aborted {
        Stopped(setup, evolve, stores, texts, k, kept, text);
        texts := texts + [text];
        return;
      }
      FreshStep(setup, lesson, text, current, last);
      DecidedNext(setup, evolve, stores, texts, k, kept, text, store.contents);
      stores, texts := stores + [store.contents], texts + [text];
      if wasKept {
        TracedNext(setup, trace, kept, start, last, lesson, store.contents);
        trace := trace + [store.contents];
        kept := kept + 1;
      }
    }
    TracedMeans(setup, trace, kept, start, store.contents);
    setup.NothingRegresses(trace);
    AllTried(setup, evolve, stores, texts, kept);
  }
}
