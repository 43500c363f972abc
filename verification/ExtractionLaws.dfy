/**
 What holds over every life of a file row: retries are bounded and scheduled exactly while queued,
 an override outlives kickoffs and re-inferences, and the cache answers the same document the same
 way without ever keeping a failed answer.
 */
module ExtractionLaws {
  import opened Wrappers
  import opened Extraction

  /** Everything that can happen to a row.  Retry, Settle and Succeed end a run. */
  datatype Event = Kickoff | Sweep(now: int) | Infer(i: Inference, force: bool)
                 | Retry(now: int) | Settle(skipped: bool) | Succeed | Override(slug: string, p: Patch)

  /** A run can only end while one is going on. */
  function Step(f: File, e: Event): File {
    match e
    case Kickoff => Kicked(f)
    case Sweep(now) => if Due(f, now) then Kicked(f) else f
    case Infer(i, force) => Inferring(f, i, force)
    case Retry(now) => if f.status == Processing then Queued(f, now) else f
    case Settle(skipped) => if f.status == Processing then Terminated(f, if skipped then Skipped else Failed) else f
    case Succeed => if f.status == Processing then Finished(f) else f
    case Override(slug, p) => if Overridden(f, slug, p).Ok? then Overridden(f, slug, p).value else f
  }

  function After(f: File, events: seq<Event>): File {
    if events == [] then f else Step(After(f, events[..|events| - 1]), events[|events| - 1])
  }

  // ── Retries ───────────────────────────────────────────────────────────────

  /** A retry time is set exactly while a retry is queued, and attempts stay within the maximum. */
  ghost predicate Sound(f: File) {
    && (f.retryAt.Some? <==> f.status == RetryQueued)
    && f.attempts <= MAX_RETRY_ATTEMPTS
    && (f.status == RetryQueued ==> f.attempts >= 1)
  }

  lemma StepKeepsSound(f: File, e: Event)
    requires Sound(f)
    ensures Sound(Step(f, e))
  {
    hide ManualOnly, Overlaid, Patched, Delay;
  }

  /** Over every life of a row. */
  lemma {:induction false} LifeIsSound(f: File, events: seq<Event>)
    requires Sound(f)
    ensures Sound(After(f, events))
  {
    hide Sound, Step;
    if events == [] {
    } else {
      LifeIsSound(f, events[..|events| - 1]);
      StepKeepsSound(After(f, events[..|events| - 1]), events[|events| - 1]);
    }
  }

  /** Runs still possible without a manual kickoff. */
  function RunsLeft(f: File): nat
    requires Sound(f)
  {
    if f.status == RetryQueued then MAX_RETRY_ATTEMPTS + 1 - f.attempts
    else if f.status == Processing then MAX_RETRY_ATTEMPTS - f.attempts
    else 0
  }

  predicate StartsRun(f: File, e: Event) {
    f.status != Processing && Step(f, e).status == Processing
  }

  function Runs(f: File, events: seq<Event>): nat {
    if events == [] then 0
    else
      var init := events[..|events| - 1];
      Runs(f, init) + if StartsRun(After(f, init), events[|events| - 1]) then 1 else 0
  }

  lemma RunsLeftStep(f: File, e: Event)
    requires Sound(f) && !e.Kickoff? && Sound(Step(f, e))
    ensures RunsLeft(Step(f, e)) + (if StartsRun(f, e) then 1 else 0) <= RunsLeft(f)
  {
    hide ManualOnly, Overlaid, Patched, Delay;
  }

  /** With sweeps as the only kickoffs, the runs started and those still possible never exceed
      those possible at the start. */
  lemma {:induction false} RunsAreBounded(f: File, events: seq<Event>)
    requires Sound(f) && forall k :: 0 <= k < |events| ==> !events[k].Kickoff?
    ensures Sound(After(f, events)) && Runs(f, events) + RunsLeft(After(f, events)) <= RunsLeft(f)
  {
    hide Sound, Step, RunsLeft, StartsRun;
    LifeIsSound(f, events);
    if events == [] {
    } else {
      var init := events[..|events| - 1];
      RunsAreBounded(f, init);
      RunsLeftStep(After(f, init), events[|events| - 1]);
    }
  }

  /** One kickoff by hand of a row with a attempts behind it leads to at most 6 - a runs: six for a
      new file, a single one for a file whose retries are used up. */
  lemma SixRunsAtMost(f: File, events: seq<Event>)
    requires Sound(f) && f.status != Processing
    requires forall k :: 0 <= k < |events| ==> !events[k].Kickoff?
    ensures 1 + Runs(Kicked(f), events) <= 6 - f.attempts
  {
    hide Runs, After;
    StepKeepsSound(f, Kickoff);
    assert Kicked(f) == Step(f, Kickoff);
    RunsAreBounded(Kicked(f), events);
  }

  /** A row that is being rate limited on every run: each retry is swept when its delay is over. */
  function Storm(attempts: nat, now: int): (events: seq<Event>)
    requires attempts <= MAX_RETRY_ATTEMPTS
    decreases MAX_RETRY_ATTEMPTS - attempts
  {
    if attempts == MAX_RETRY_ATTEMPTS then [Retry(now)]
    else [Retry(now), Sweep(now + Delay(attempts + 1))] + Storm(attempts + 1, now + Delay(attempts + 1))
  }

  lemma {:induction false} AfterTwo(f: File, a: seq<Event>, b: seq<Event>)
    ensures After(f, a + b) == After(After(f, a), b)
    ensures Runs(f, a + b) == Runs(f, a) + Runs(After(f, a), b)
  {
    hide Step, StartsRun;
    if b == [] {
      assert a + b == a;
    } else {
      assert (a + b)[..|a + b| - 1] == a + b[..|b| - 1];
      AfterTwo(f, a, b[..|b| - 1]);
    }
  }

  lemma RetryThenSweep(f: File, now: int)
    requires f.status == Processing && f.attempts < MAX_RETRY_ATTEMPTS
    ensures var g := After(f, [Retry(now), Sweep(now + Delay(f.attempts + 1))]);
            g.status == Processing && g.attempts == f.attempts + 1
    ensures Runs(f, [Retry(now), Sweep(now + Delay(f.attempts + 1))]) == 1
  {
    hide ManualOnly, Delay;
    var e0, e1 := Retry(now), Sweep(now + Delay(f.attempts + 1));
    assert [e0, e1][..1] == [e0] && [e0][..0] == [];
    assert After(f, [e0]) == Queued(f, now);
    assert Runs(f, [e0]) == 0;
  }

  /** The bound is met: rate limited every time, a row is run exactly 5 - a more times and then fails. */
  lemma {:induction false} StormExhausts(f: File, now: int)
    requires f.status == Processing && f.attempts <= MAX_RETRY_ATTEMPTS
    ensures After(f, Storm(f.attempts, now)).status == Failed
    ensures Runs(f, Storm(f.attempts, now)) == MAX_RETRY_ATTEMPTS - f.attempts
    decreases MAX_RETRY_ATTEMPTS - f.attempts
  {
    hide Delay, After, Runs, Step;
    if f.attempts == MAX_RETRY_ATTEMPTS {
      LastRetry(f, now);
    } else {
      var next := now + Delay(f.attempts + 1);
      var pair := [Retry(now), Sweep(next)];
      RetryThenSweep(f, now);
      StormExhausts(After(f, pair), next);
      AfterTwo(f, pair, Storm(f.attempts + 1, next));
    }
  }

  lemma LastRetry(f: File, now: int)
    requires f.status == Processing && f.attempts == MAX_RETRY_ATTEMPTS
    ensures After(f, [Retry(now)]).status == Failed && Runs(f, [Retry(now)]) == 0
  {
    hide ManualOnly;
    assert [Retry(now)][..0] == [];
  }

  /** A queued row is due from its retry time on, 90 seconds to 10 minutes after it was queued, and
      never sooner for a later attempt. */
  lemma RetryIsScheduled(f: File, now: int, later: int)
    requires Sound(f) && f.status == Processing && f.attempts < MAX_RETRY_ATTEMPTS
    ensures var g := Step(f, Retry(now)); var wait := Delay(g.attempts);
            && g.status == RetryQueued && (Due(g, later) <==> later >= now + wait)
            && 90_000 <= wait <= 600_000 && (f.attempts > 0 ==> Delay(f.attempts) <= wait)
  {
  }

  predicate Moving(s: Status) {
    s != Legacy && s != Pending
  }

  lemma {:induction false} LifeIsMoving(f: File, events: seq<Event>)
    requires Moving(f.status)
    ensures Moving(After(f, events).status)
  {
    hide ManualOnly, Overlaid, Patched, Delay;
    if events == [] {
    } else {
      LifeIsMoving(f, events[..|events| - 1]);
    }
  }

  // ── Settling ──────────────────────────────────────────────────────────────

  /** What happens at every moment, for ever. */
  type Schedule = nat -> Event

  function Prefix(events: Schedule, n: nat): (r: seq<Event>)
    ensures |r| == n && forall i :: 0 <= i < n ==> r[i] == events(i)
  {
    seq(n, (i: nat) => events(i))
  }

  function At(f: File, events: Schedule, n: nat): File {
    After(f, Prefix(events, n))
  }

  lemma AtStep(f: File, events: Schedule, n: nat)
    ensures At(f, events, n + 1) == Step(At(f, events, n), events(n))
  {
    hide Step;
    assert Prefix(events, n + 1)[..n] == Prefix(events, n);
  }

  predicate EndsRun(e: Event) {
    e.Retry? || e.Settle? || e.Succeed?
  }

  predicate SweepsAt(e: Event, time: int) {
    e.Sweep? && e.now >= time
  }

  /** Every run is ended some time, and every queued row swept some time after it is due. */
  ghost predicate Diligent(f: File, events: Schedule) {
    forall n: nat :: Served(At(f, events, n), events, n)
  }

  ghost predicate Served(g: File, events: Schedule, n: nat) {
    && (g.status == Processing ==> exists m: nat :: n <= m && EndsRun(events(m)))
    && (g.status == RetryQueued && g.retryAt.Some? ==> exists m: nat :: n <= m && SweepsAt(events(m), g.retryAt.value))
  }

  predicate Settled(s: Status) {
    s == Ready || s == Failed || s == Skipped
  }

  /** Two steps for every run still possible, and one to end the run going on. */
  function StepsLeft(f: File): nat
    requires Sound(f)
  {
    2 * RunsLeft(f) + if f.status == Processing then 1 else 0
  }

  lemma StepsLeftStep(f: File, e: Event)
    requires Sound(f) && !e.Kickoff? && Sound(Step(f, e)) && Moving(f.status)
    ensures StepsLeft(Step(f, e)) < StepsLeft(f) || (Step(f, e).status == f.status && Step(f, e).retryAt == f.retryAt)
    ensures StepsLeft(Step(f, e)) <= StepsLeft(f)
    ensures f.status == Processing && EndsRun(e) ==> StepsLeft(Step(f, e)) < StepsLeft(f)
    ensures f.retryAt.Some? && SweepsAt(e, f.retryAt.value) ==> StepsLeft(Step(f, e)) < StepsLeft(f)
  {
    hide ManualOnly, Overlaid, Patched, Delay;
  }

  ghost predicate NoKickoffs(events: Schedule) {
    forall n: nat :: !events(n).Kickoff?
  }

  lemma AtIsSound(f: File, events: Schedule, n: nat)
    requires Sound(f) && Moving(f.status)
    ensures Sound(At(f, events, n)) && Moving(At(f, events, n).status)
  {
    hide Sound, After;
    LifeIsSound(f, Prefix(events, n));
    LifeIsMoving(f, Prefix(events, n));
  }

  /** Until a step counts, the row stays as it is. */
  lemma {:induction false} Waiting(f: File, events: Schedule, n: nat, m: nat)
    requires Sound(f) && Moving(f.status) && NoKickoffs(events) && n <= m
    requires Sound(At(f, events, n)) && Sound(At(f, events, m))
    ensures || StepsLeft(At(f, events, m)) < StepsLeft(At(f, events, n))
            || (At(f, events, m).status == At(f, events, n).status && At(f, events, m).retryAt == At(f, events, n).retryAt)
    ensures StepsLeft(At(f, events, m)) <= StepsLeft(At(f, events, n))
    decreases m - n
  {
    hide Step, At, Sound, StepsLeft;
    if n == m {
    } else {
      AtIsSound(f, events, m - 1);
      AtIsSound(f, events, m);
      Waiting(f, events, n, m - 1);
      AtStep(f, events, m - 1);
      StepsLeftStep(At(f, events, m - 1), events(m - 1));
    }
  }

  /** From every moment the row is settled some time later. */
  lemma {:induction false} SettlesFrom(f: File, events: Schedule, n: nat) returns (k: nat)
    requires Sound(f) && Moving(f.status) && NoKickoffs(events) && Diligent(f, events)
    requires Sound(At(f, events, n))
    ensures n <= k && Settled(At(f, events, k).status)
    decreases StepsLeft(At(f, events, n))
  {
    hide Step, At, StepsLeft;
    var g := At(f, events, n);
    AtIsSound(f, events, n);
    if Settled(g.status) {
      k := n;
    } else {
      assert Served(g, events, n);
      var m: nat;
      if g.status == Processing {
        m :| n <= m && EndsRun(events(m));
      } else {
        m :| n <= m && SweepsAt(events(m), g.retryAt.value);
      }
      AtIsSound(f, events, m);
      AtIsSound(f, events, m + 1);
      Waiting(f, events, n, m);
      AtStep(f, events, m);
      StepsLeftStep(At(f, events, m), events(m));
      k := SettlesFrom(f, events, m + 1);
    }
  }

  lemma {:induction false} StaysSettled(f: File, events: Schedule, k: nat, m: nat)
    requires NoKickoffs(events) && k <= m && Settled(At(f, events, k).status)
    ensures At(f, events, m).status == At(f, events, k).status
    decreases m - k
  {
    hide ManualOnly, Overlaid, Patched, Delay, At;
    if k == m {
    } else {
      StaysSettled(f, events, k, m - 1);
      AtStep(f, events, m - 1);
    }
  }

  /** Once kicked off, on every schedule that ends each run and sweeps each queued row once it is due,
      the row settles as ready, failed or skipped, and stays so, after at most 6 - a runs. */
  lemma EveryRowSettles(f: File, events: Schedule) returns (k: nat)
    requires Sound(f) && f.status != Processing && NoKickoffs(events) && Diligent(Kicked(f), events)
    ensures Settled(At(Kicked(f), events, k).status)
    ensures forall m :: k <= m ==> At(Kicked(f), events, m).status == At(Kicked(f), events, k).status
    ensures forall m: nat :: 1 + Runs(Kicked(f), Prefix(events, m)) <= 6 - f.attempts
  {
    hide Diligent, Sound, At, Runs, NoKickoffs;
    var g := Kicked(f);
    StepKeepsSound(f, Kickoff);
    assert g == Step(f, Kickoff) && Moving(g.status);
    AtIsSound(g, events, 0);
    k := SettlesFrom(g, events, 0);
    forall m | k <= m ensures At(g, events, m).status == At(g, events, k).status {
      StaysSettled(g, events, k, m);
    }
    forall m: nat ensures 1 + Runs(g, Prefix(events, m)) <= 6 - f.attempts {
      NoKickoffBefore(events, m);
      SixRunsAtMost(f, Prefix(events, m));
    }
  }

  lemma NoKickoffBefore(events: Schedule, m: nat)
    requires NoKickoffs(events)
    ensures forall i :: 0 <= i < m ==> !Prefix(events, m)[i].Kickoff?
  {
  }

  // ── Overrides ─────────────────────────────────────────────────────────────

  function First(es: seq<Entity>, slug: string): Option<Entity> {
    var i := IndexOf(es, slug);
    if i < |es| then Some(es[i]) else None
  }

  lemma FirstOfTwo(a: seq<Entity>, b: seq<Entity>, slug: string)
    ensures First(a + b, slug) == if First(a, slug).Some? then First(a, slug) else First(b, slug)
  {
    hide IndexOf;
    var i, j, k := IndexOf(a + b, slug), IndexOf(a, slug), IndexOf(b, slug);
    if j < |a| {
      assert (a + b)[j].slug == slug;
    } else if k < |b| {
      assert (a + b)[j + k].slug == slug;
    }
    assert i < |a| ==> (a + b)[i] == a[i];
    assert |a| <= i < |a| + |b| ==> (a + b)[i] == b[i - |a|];
  }

  lemma {:induction false} FirstManual(es: seq<Entity>, slug: string)
    requires First(es, slug).Some? && First(es, slug).value.source == Manual
    ensures First(ManualOnly(es), slug) == First(es, slug)
  {
    hide First;
    if es == [] {
      EmptyFirst(slug);
      assert false;
    } else {
      var init, e := es[..|es| - 1], es[|es| - 1];
      assert es == init + [e];
      FirstOfTwo(init, [e], slug);
      SingleFirst(e, slug);
      if First(init, slug).Some? {
        FirstManual(init, slug);
        FirstOfTwo(ManualOnly(init), [e], slug);
      } else {
        NoneFirst(init, slug);
        FirstOfTwo(ManualOnly(init), [e], slug);
      }
      assert ManualOnly(init) + [] == ManualOnly(init);
    }
  }

  lemma EmptyFirst(slug: string)
    ensures First([], slug) == None
  {
  }

  lemma SingleFirst(e: Entity, slug: string)
    ensures First([e], slug) == if e.slug == slug then Some(e) else None
  {
  }

  lemma NoneFirst(es: seq<Entity>, slug: string)
    requires First(es, slug).None?
    ensures First(ManualOnly(es), slug).None?
  {
    hide IndexOf, ManualOnly;
    var m := ManualOnly(es);
    forall k | 0 <= k < |m| ensures m[k].slug != slug {
      assert m[k] in m && m[k] in es;
    }
  }

  lemma StepKeepsOverride(f: File, e: Event, slug: string)
    requires First(f.entities, slug).Some? && First(f.entities, slug).value.source == Manual
    requires !(e.Override? && e.slug == slug)
    ensures First(Step(f, e).entities, slug) == First(f.entities, slug)
  {
    hide First, IndexOf, Delay, ManualOnly, Without, Patched;
    FirstManual(f.entities, slug);
    match e
    case Infer(i, force) =>
      FirstOfTwo(ManualOnly(f.entities), Without(i.inferred, Slugs(ManualOnly(f.entities))), slug);
    case Override(other, p) =>
      if Overridden(f, other, p).Ok? {
        UpdateElsewhere(f.entities, other, p, slug);
      }
    case _ =>
  }

  lemma UpdateElsewhere(es: seq<Entity>, other: string, p: Patch, slug: string)
    requires other != slug && IndexOf(es, other) < |es|
    ensures var i := IndexOf(es, other); First(es[i := Patched(es[i], p)], slug) == First(es, slug)
  {
    hide IndexOf;
    var i := IndexOf(es, other);
    var fs := es[i := Patched(es[i], p)];
    assert forall k :: 0 <= k < |es| ==> fs[k].slug == es[k].slug;
    assert IndexOf(fs, slug) == IndexOf(es, slug);
  }

  lemma {:induction false} OverrideSurvives(f: File, events: seq<Event>, slug: string)
    requires First(f.entities, slug).Some? && First(f.entities, slug).value.source == Manual
    requires forall k :: 0 <= k < |events| ==> !(events[k].Override? && events[k].slug == slug)
    ensures First(After(f, events).entities, slug) == First(f.entities, slug)
  {
    hide First, Step;
    if events == [] {
    } else {
      var n := |events| - 1;
      OverrideSurvives(f, events[..n], slug);
      StepKeepsOverride(After(f, events[..n]), events[n], slug);
    }
  }

  lemma PatchMeans(e: Entity, p: Patch)
    ensures SetByHand(e, p, Patched(e, p))
  {
  }

  /** After a successful override of a slug, its first entity keeps what was set by hand through every later
      kickoff, sweep, inference, outcome and override of other slugs: the positive scope, the methodology and
      the customer type of the patch, the entity's own where the patch has none, and confidence 1. */
  lemma OverridePersists(f: File, slug: string, p: Patch, events: seq<Event>)
    requires Overridden(f, slug, p).Ok?
    requires forall k :: 0 <= k < |events| ==> !(events[k].Override? && events[k].slug == slug)
    ensures First(f.entities, slug).Some? && First(After(Overridden(f, slug, p).value, events).entities, slug).Some?
    ensures var e := First(f.entities, slug).value; var kept := First(After(Overridden(f, slug, p).value, events).entities, slug).value;
      && kept.slug == slug && kept.source == Manual && kept.confidence == 1.0
      && kept.scope == (if p.scope != None && p.scope.value > 0.0 then p.scope.value else e.scope)
      && kept.methodology == (if p.methodology != None then p.methodology.value else e.methodology)
      && kept.customerType == (if p.customerType != None then p.customerType.value else e.customerType)
  {
    hide IndexOf, Patched, After;
    var i := IndexOf(f.entities, slug);
    var g := Overridden(f, slug, p).value;
    PatchMeans(f.entities[i], p);
    assert g.entities[i].slug == slug;
    assert IndexOf(g.entities, slug) == i;
    OverrideSurvives(g, events, slug);
  }

  lemma ManualInOrder(es: seq<Entity>, e: Entity)
    ensures ManualOnly([]) == [] && ManualOnly(es + [e]) == ManualOnly(es) + if e.source == Manual then [e] else []
  {
    assert (es + [e])[..|es|] == es;
  }

  lemma WithoutInOrder(es: seq<Entity>, e: Entity, slugs: set<string>)
    ensures Without([], slugs) == [] && Without(es + [e], slugs) == Without(es, slugs) + if e.slug in slugs then [] else [e]
  {
    assert (es + [e])[..|es|] == es;
  }

  /** Overlaying keeps what was set by hand in its order, and then what was inferred for other slugs in
      its order. */
  lemma OverlayInOrder(prior: seq<Entity>, e: Entity, inferred: seq<Entity>, x: Entity)
    ensures Overlaid([], []) == []
    ensures Overlaid(prior + [e], []) == Overlaid(prior, []) + if e.source == Manual then [e] else []
    ensures Overlaid(prior, inferred + [x])
         == Overlaid(prior, inferred) + if exists m :: m in prior && m.source == Manual && m.slug == x.slug then [] else [x]
  {
    hide ManualOnly, Without;
    var slugs := Slugs(ManualOnly(prior));
    ManualInOrder(prior, e);
    WithoutInOrder(inferred, x, slugs);
    WithoutInOrder(inferred, x, Slugs(ManualOnly(prior + [e])));
    WithoutInOrder(inferred, x, Slugs([]));
    assert x.slug in slugs <==> exists m :: m in prior && m.source == Manual && m.slug == x.slug;
    assert ManualOnly(prior) + [] == ManualOnly(prior) && ManualOnly(prior + [e]) + [] == ManualOnly(prior + [e]);
  }

  /** What an inference that is not answered from the cache leaves: what was set by hand, and what
      was inferred for slugs nobody set.  So overriding one of several entities of a slug drops its
      siblings at the next inference. */
  lemma InferenceLeaves(f: File, i: Inference, force: bool, e: Entity)
    requires force || !CacheHit(f, i)
    ensures e in Inferring(f, i, force).entities
            <==> || (e in f.entities && e.source == Manual)
                 || (e in i.inferred && forall m :: m in f.entities && m.source == Manual ==> m.slug != e.slug)
  {
    hide ManualOnly, Without;
    assert forall s :: s in Slugs(ManualOnly(f.entities)) <==> exists m :: m in f.entities && m.source == Manual && m.slug == s;
  }

  // ── The inference cache ───────────────────────────────────────────────────

  /** The same inputs again, unforced, change nothing whatever the model would answer, exactly when
      there is something cached: an empty result is never answered from the cache. */
  lemma CacheIsStable(f: File, inputHash: string)
    requires f.hash == Some(inputHash)
    ensures (forall i: Inference :: i.inputHash == inputHash ==> Inferring(f, i, false) == f) <==> f.entities != []
  {
    hide ManualOnly, Without;
    if f.entities == [] {
      var e := Entity("s", 1.0, None, External, 1.0, "", Inferred);
      var i := Inference(inputHash, [e], None);
      InferenceLeaves(f, i, false, e);
      assert Inferring(f, i, false) != f;
    }
  }

  /** Unforced re-inferences of the same inputs repeat the first answer for ever. */
  lemma {:induction false} SameInputsSameEntities(f: File, i: Inference, events: seq<Event>)
    requires f.hash == Some(i.inputHash) && f.entities != []
    requires forall k :: 0 <= k < |events| ==> events[k].Infer? && !events[k].force && events[k].i.inputHash == i.inputHash
    ensures After(f, events) == f
  {
    if events == [] {
    } else {
      SameInputsSameEntities(f, i, events[..|events| - 1]);
    }
  }

  /** The step replaces what was inferred: a run starts, or an inference is no cache hit. */
  predicate Rewrites(f: File, e: Event) {
    StartsRun(f, e) || (e.Infer? && (e.force || !CacheHit(f, e.i)))
  }

  /** The k-th event is the last that replaced what was inferred: an inference that did not fail, of
      the inputs with this hash, and everything not set by hand comes from its answer. */
  ghost predicate Certified(f: File, events: seq<Event>, k: nat, hash: string) {
    && k < |events| && events[k].Infer? && Rewrites(After(f, events[..k]), events[k])
    && events[k].i.inputHash == hash && Cacheable(events[k].i)
    && (forall j :: k < j < |events| ==> !Rewrites(After(f, events[..j]), events[j]))
    && (forall e :: e in After(f, events).entities && e.source != Manual ==> e in events[k].i.inferred)
  }

  lemma OtherSteps(f: File, e: Event)
    requires !Rewrites(f, e)
    ensures Step(f, e).hash == f.hash
    ensures forall x :: x in Step(f, e).entities && x.source != Manual ==> x in f.entities
  {
    hide ManualOnly, Without, Delay;
  }

  lemma RewritingStep(f: File, e: Event)
    requires Rewrites(f, e) && Step(f, e).hash.Some?
    ensures e.Infer? && e.i.inputHash == Step(f, e).hash.value && Cacheable(e.i)
    ensures forall x :: x in Step(f, e).entities && x.source != Manual ==> x in e.i.inferred
  {
    hide ManualOnly, Without, Delay;
  }

  /** Over every life, a stored hash certifies the row: whatever was not set by hand was inferred, for
      the very inputs with this hash, by the last inference that was no cache hit, and no run has
      started since. */
  lemma {:induction false} HashIsEarned(f: File, events: seq<Event>) returns (k: nat)
    requires f.hash == None && After(f, events).hash.Some?
    ensures Certified(f, events, k, After(f, events).hash.value)
  {
    hide Step, Rewrites, Cacheable;
    if events == [] {
      assert false;
    } else {
      var n := |events| - 1;
      var g := After(f, events[..n]);
      if Rewrites(g, events[n]) {
        RewritingStep(g, events[n]);
        k := n;
      } else {
        OtherSteps(g, events[n]);
        k := HashIsEarned(f, events[..n]);
        forall j | 0 <= j < n ensures events[..n][..j] == events[..j] && events[..n][j] == events[j] {
        }
      }
    }
  }
}
