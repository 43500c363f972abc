/**
 The promotion planner: inferred entities are bucketed by loop and application, applications are
 ranked into iterations, and one answer is planned per (node, iteration) still free.
 */
module Promotion {
  import opened Wrappers
  import opened Texts

  // ── Data model ────────────────────────────────────────────────────────────

  datatype Entity = Entity(slug: Text, appId: Option<Text>, value: real)

  datatype Body = Body(nodeId: Text, loopId: Text)

  /** Where a template binds its slugs: inside a loop, or at the top level. */
  datatype Bindings = Bindings(bodies: map<Text, Body>, tops: map<Text, Text>)

  /** The place of an answer. */
  datatype Slot = Slot(nodeId: Text, iter: nat)

  datatype Write = Write(slot: Slot, value: real)

  datatype Plan = Plan(writes: seq<Write>, stale: map<Text, nat>, iterations: nat)

  /** '_solo', the application of an entity that names none. */
  function AppKey(e: Entity): Text {
    if e.appId.Some? then e.appId.value else [95, 115, 111, 108, 111]
  }

  // ── Routing ───────────────────────────────────────────────────────────────

  predicate InBody(t: Bindings, e: Entity) {
    e.slug in t.bodies
  }

  predicate InLoop(t: Bindings, e: Entity, loop: Text) {
    InBody(t, e) && t.bodies[e.slug].loopId == loop
  }

  predicate AtTop(t: Bindings, e: Entity) {
    !InBody(t, e) && e.slug in t.tops
  }

  predicate IsStale(t: Bindings, e: Entity) {
    !InBody(t, e) && e.slug !in t.tops
  }

  /** The loops that entities bind to, in order of first appearance. */
  function Loops(t: Bindings, es: seq<Entity>): (r: seq<Text>)
    ensures forall l :: l in r <==> exists e :: e in es && InLoop(t, e, l)
    ensures forall i, j :: 0 <= i < j < |r| ==> r[i] != r[j]
  {
    if es == [] then []
    else
      var r := Loops(t, es[..|es| - 1]);
      var e := es[|es| - 1];
      assert es == es[..|es| - 1] + [e];
      assert InBody(t, e) ==> InLoop(t, e, t.bodies[e.slug].loopId);
      if InBody(t, e) && t.bodies[e.slug].loopId !in r then r + [t.bodies[e.slug].loopId] else r
  }

  /** The applications seen in one loop. */
  function Apps(t: Bindings, es: seq<Entity>, loop: Text): set<Text> {
    set e | e in es && InLoop(t, e, loop) :: AppKey(e)
  }

  predicate InGroup(t: Bindings, e: Entity, loop: Text, app: Text) {
    InLoop(t, e, loop) && AppKey(e) == app
  }

  /** One application's entities in one loop, in input order. */
  function Group(t: Bindings, es: seq<Entity>, loop: Text, app: Text): (g: seq<Entity>)
    ensures forall e :: e in g <==> e in es && InGroup(t, e, loop, app)
  {
    if es == [] then []
    else
      var e := es[|es| - 1];
      assert es == es[..|es| - 1] + [e];
      Group(t, es[..|es| - 1], loop, app) + if InGroup(t, e, loop, app) then [e] else []
  }

  function Tops(t: Bindings, es: seq<Entity>): (r: seq<Entity>)
    ensures forall e :: e in r <==> e in es && AtTop(t, e)
  {
    if es == [] then []
    else
      var e := es[|es| - 1];
      assert es == es[..|es| - 1] + [e];
      Tops(t, es[..|es| - 1]) + if AtTop(t, e) then [e] else []
  }

  /** How many entities carry each slug that no binding knows. */
  function Stale(t: Bindings, es: seq<Entity>): map<Text, nat> {
    if es == [] then map[]
    else
      var m := Stale(t, es[..|es| - 1]);
      var e := es[|es| - 1];
      if IsStale(t, e) then m[e.slug := (if e.slug in m then m[e.slug] else 0) + 1] else m
  }

  // ── Candidate writes, before any is refused ───────────────────────────────

  function Batch(t: Bindings, group: seq<Entity>, iter: nat): seq<Write> {
    if group == [] then []
    else
      var e := group[|group| - 1];
      Batch(t, group[..|group| - 1], iter)
      + if InBody(t, e) then [Write(Slot(t.bodies[e.slug].nodeId, iter), e.value)] else []
  }

  /** A loop's first n iterations: the applications in sorted order. */
  function LoopBatches(t: Bindings, es: seq<Entity>, loop: Text, n: nat): seq<Write>
    requires n <= |Sorted(Apps(t, es, loop))|
  {
    if n == 0 then []
    else LoopBatches(t, es, loop, n - 1) + Batch(t, Group(t, es, loop, Sorted(Apps(t, es, loop))[n - 1]), n - 1)
  }

  function LoopCandidates(t: Bindings, es: seq<Entity>, loops: seq<Text>): seq<Write> {
    if loops == [] then []
    else
      var loop := loops[|loops| - 1];
      LoopCandidates(t, es, loops[..|loops| - 1]) + LoopBatches(t, es, loop, |Sorted(Apps(t, es, loop))|)
  }

  /** A top-level slug bound to an empty node id is passed over. */
  function TopCandidates(t: Bindings, tops: seq<Entity>): seq<Write> {
    if tops == [] then []
    else
      var e := tops[|tops| - 1];
      TopCandidates(t, tops[..|tops| - 1])
      + if e.slug in t.tops && t.tops[e.slug] != [] then [Write(Slot(t.tops[e.slug], 0), e.value)] else []
  }

  function Candidates(t: Bindings, es: seq<Entity>): seq<Write> {
    LoopCandidates(t, es, Loops(t, es)) + TopCandidates(t, Tops(t, es))
  }

  // ── The writes that are admitted ──────────────────────────────────────────

  function Slots(ws: seq<Write>): set<Slot> {
    set w | w in ws :: w.slot
  }

  /** The first candidate for every slot that is not taken. */
  function Admit(cs: seq<Write>, taken: set<Slot>): seq<Write> {
    if cs == [] then []
    else
      var r := Admit(cs[..|cs| - 1], taken);
      var c := cs[|cs| - 1];
      if c.slot in taken || c.slot in Slots(r) then r else r + [c]
  }

  lemma AdmitOne(cs: seq<Write>, c: Write, taken: set<Slot>)
    ensures var r := Admit(cs, taken);
            Admit(cs + [c], taken) == if c.slot in taken + Slots(r) then r else r + [c]
  {
    assert (cs + [c])[..|cs|] == cs;
  }

  lemma SlotsOfOneMore(ws: seq<Write>, w: Write)
    ensures Slots(ws + [w]) == Slots(ws) + {w.slot}
  {
    assert forall x :: x in ws + [w] <==> x in ws || x == w;
  }

  // ── How many iterations gained a write ────────────────────────────────────

  function Gained(t: Bindings, es: seq<Entity>, loop: Text, before: seq<Write>, n: nat, taken: set<Slot>): nat
    requires n <= |Sorted(Apps(t, es, loop))|
  {
    if n == 0 then 0
    else
      var a := Admit(before + LoopBatches(t, es, loop, n - 1), taken);
      var b := Admit(before + LoopBatches(t, es, loop, n), taken);
      Gained(t, es, loop, before, n - 1, taken) + if |a| < |b| then 1 else 0
  }

  function Iterations(t: Bindings, es: seq<Entity>, loops: seq<Text>, taken: set<Slot>): nat {
    if loops == [] then 0
    else
      var loop := loops[|loops| - 1];
      var init := loops[..|loops| - 1];
      Iterations(t, es, init, taken)
      + Gained(t, es, loop, LoopCandidates(t, es, init), |Sorted(Apps(t, es, loop))|, taken)
  }

  function PlanOf(t: Bindings, es: seq<Entity>, taken: set<Slot>): Plan {
    Plan(Admit(Candidates(t, es), taken), Stale(t, es), Iterations(t, es, Loops(t, es), taken))
  }

  // ── The planner ───────────────────────────────────────────────────────────

  type Buckets = map<Text, map<Text, seq<Entity>>>

  ghost predicate Bucketed(t: Bindings, es: seq<Entity>, buckets: Buckets) {
    && (forall l :: l in buckets <==> l in Loops(t, es))
    && (forall l :: l in buckets ==> BucketedLoop(t, es, l, buckets[l]))
  }

  ghost predicate BucketedLoop(t: Bindings, es: seq<Entity>, loop: Text, groups: map<Text, seq<Entity>>) {
    && groups.Keys == Apps(t, es, loop)
    && forall a :: a in groups ==> groups[a] == Group(t, es, loop, a)
  }

  lemma GroupStep(t: Bindings, es: seq<Entity>, e: Entity, loop: Text, app: Text)
    ensures Group(t, es + [e], loop, app) == Group(t, es, loop, app) + if InGroup(t, e, loop, app) then [e] else []
  {
    assert (es + [e])[..|es|] == es;
  }

  lemma AppsStep(t: Bindings, es: seq<Entity>, e: Entity, loop: Text)
    ensures Apps(t, es + [e], loop) == Apps(t, es, loop) + if InLoop(t, e, loop) then {AppKey(e)} else {}
  {
    hide InLoop, AppKey;
    assert forall x :: x in es + [e] <==> x in es || x == e;
  }

  lemma NoGroup(t: Bindings, es: seq<Entity>, loop: Text, app: Text)
    ensures Group(t, es, loop, app) != [] ==> app in Apps(t, es, loop)
  {
    hide InLoop, AppKey;
    var g := Group(t, es, loop, app);
    if g != [] {
      assert g[0] in g;
    }
  }

  lemma NoApps(t: Bindings, es: seq<Entity>, loop: Text)
    requires loop !in Loops(t, es)
    ensures BucketedLoop(t, es, loop, map[])
  {
  }

  lemma BucketStep(t: Bindings, es: seq<Entity>, e: Entity, loop: Text, groups: map<Text, seq<Entity>>)
    requires BucketedLoop(t, es, loop, groups)
    ensures InLoop(t, e, loop) ==>
      BucketedLoop(t, es + [e], loop, groups[AppKey(e) := (if AppKey(e) in groups then groups[AppKey(e)] else []) + [e]])
    ensures !InLoop(t, e, loop) ==> BucketedLoop(t, es + [e], loop, groups)
  {
    hide InLoop, AppKey, Apps, Group;
    AppsStep(t, es, e, loop);
    forall a {
      GroupStep(t, es, e, loop, a);
    }
    NoGroup(t, es, loop, AppKey(e));
  }

  function Put(t: Bindings, buckets: Buckets, e: Entity): Buckets
    requires InBody(t, e)
  {
    var loop := t.bodies[e.slug].loopId;
    var groups := if loop in buckets then buckets[loop] else map[];
    buckets[loop := groups[AppKey(e) := (if AppKey(e) in groups then groups[AppKey(e)] else []) + [e]]]
  }

  lemma LoopsStep(t: Bindings, es: seq<Entity>, e: Entity)
    ensures var r := Loops(t, es);
            Loops(t, es + [e]) == if InBody(t, e) && t.bodies[e.slug].loopId !in r then r + [t.bodies[e.slug].loopId] else r
  {
    assert (es + [e])[..|es|] == es;
  }

  lemma BucketedStep(t: Bindings, es: seq<Entity>, e: Entity, buckets: Buckets)
    requires Bucketed(t, es, buckets)
    ensures Bucketed(t, es + [e], if InBody(t, e) then Put(t, buckets, e) else buckets)
  {
    hide BucketedLoop, Loops, AppKey;
    LoopsStep(t, es, e);
    forall l | l in buckets {
      BucketStep(t, es, e, l, buckets[l]);
    }
    if InBody(t, e) {
      var own := t.bodies[e.slug].loopId;
      if own !in buckets {
        NoApps(t, es, own);
        BucketStep(t, es, e, own, map[]);
      }
      var after := Put(t, buckets, e);
      forall l | l in after ensures BucketedLoop(t, es + [e], l, after[l]) {
        assert l != own ==> after[l] == buckets[l] && !InLoop(t, e, l);
      }
    }
  }

  /** One turn of the first pass. */
  lemma RouteStep(t: Bindings, es: seq<Entity>, i: nat)
    requires i < |es|
    ensures es[..i + 1] == es[..i] + [es[i]]
    ensures Tops(t, es[..i + 1]) == Tops(t, es[..i]) + if AtTop(t, es[i]) then [es[i]] else []
    ensures var m := Stale(t, es[..i]); var slug := es[i].slug;
            Stale(t, es[..i + 1]) == if IsStale(t, es[i]) then m[slug := (if slug in m then m[slug] else 0) + 1] else m
  {
    assert es[..i + 1][..i] == es[..i];
  }

  lemma NothingRouted(t: Bindings)
    ensures Loops(t, []) == [] && Tops(t, []) == [] && Stale(t, []) == map[] && Bucketed(t, [], map[])
  {
  }

  /** First pass: every entity goes to a bucket, to the top level, or to the stale counts. */
  method Route(t: Bindings, es: seq<Entity>)
    returns (loops: seq<Text>, buckets: Buckets, tops: seq<Entity>, stale: map<Text, nat>)
    ensures loops == Loops(t, es) && Bucketed(t, es, buckets)
    ensures tops == Tops(t, es) && stale == Stale(t, es)
  {
    hide BucketedLoop, AppKey, Loops, Bucketed, Tops, Stale;
    loops, buckets, tops, stale := [], map[], [], map[];
    NothingRouted(t);
    for i := 0 to |es|
      invariant loops == Loops(t, es[..i]) && Bucketed(t, es[..i], buckets)
      invariant tops == Tops(t, es[..i]) && stale == Stale(t, es[..i])
    {
      var e := es[i];
      RouteStep(t, es, i);
      LoopsStep(t, es[..i], e);
      BucketedStep(t, es[..i], e, buckets);
      if e.slug in t.bodies {
        var loop := t.bodies[e.slug].loopId;
        var groups := if loop in buckets then buckets[loop] else map[];
        var app := AppKey(e);
        var list := if app in groups then groups[app] else [];
        if loop !in loops {
          loops := loops + [loop];
        }
        buckets := buckets[loop := groups[app := list + [e]]];
      } else if e.slug in t.tops {
        tops := tops + [e];
      } else {
        stale := stale[e.slug := (if e.slug in stale then stale[e.slug] else 0) + 1];
      }
    }
    assert es[..|es|] == es;
  }

  lemma BatchStart(t: Bindings, iter: nat, before: seq<Write>)
    ensures before + Batch(t, [], iter) == before
  {
  }

  lemma BatchStep(t: Bindings, group: seq<Entity>, iter: nat, before: seq<Write>, k: nat)
    requires k < |group|
    ensures var e := group[k]; var so := before + Batch(t, group[..k], iter);
            before + Batch(t, group[..k + 1], iter)
            == if InBody(t, e) then so + [Write(Slot(t.bodies[e.slug].nodeId, iter), e.value)] else so
  {
    assert group[..k + 1][..k] == group[..k];
  }

  /** One iteration of one loop. */
  method EmitGroup(t: Bindings, group: seq<Entity>, iter: nat, ghost before: seq<Write>, ghost taken: set<Slot>,
                   writes0: seq<Write>, seen0: set<Slot>)
    returns (writes: seq<Write>, seen: set<Slot>, written: nat)
    requires writes0 == Admit(before, taken) && seen0 == taken + Slots(writes0)
    ensures writes == Admit(before + Batch(t, group, iter), taken) && seen == taken + Slots(writes)
    ensures written == |writes| - |writes0|
  {
    hide Admit, Slots, Batch;
    writes, seen, written := writes0, seen0, 0;
    BatchStart(t, iter, before);
    for k := 0 to |group|
      invariant writes == Admit(before + Batch(t, group[..k], iter), taken) && seen == taken + Slots(writes)
      invariant written == |writes| - |writes0|
    {
      var e := group[k];
      BatchStep(t, group, iter, before, k);
      if e.slug in t.bodies {
        var w := Write(Slot(t.bodies[e.slug].nodeId, iter), e.value);
        AdmitOne(before + Batch(t, group[..k], iter), w, taken);
        SlotsOfOneMore(writes, w);
        if w.slot !in seen {
          seen := seen + {w.slot};
          writes := writes + [w];
          written := written + 1;
        }
      }
    }
    assert group[..|group|] == group;
  }

  lemma TopStart(t: Bindings, before: seq<Write>)
    ensures before + TopCandidates(t, []) == before
  {
  }

  lemma TopStep(t: Bindings, tops: seq<Entity>, before: seq<Write>, k: nat)
    requires k < |tops|
    ensures var e := tops[k]; var so := before + TopCandidates(t, tops[..k]);
            before + TopCandidates(t, tops[..k + 1])
            == if e.slug in t.tops && t.tops[e.slug] != [] then so + [Write(Slot(t.tops[e.slug], 0), e.value)] else so
  {
    assert tops[..k + 1][..k] == tops[..k];
  }

  method EmitTops(t: Bindings, tops: seq<Entity>, ghost before: seq<Write>, ghost taken: set<Slot>,
                  writes0: seq<Write>, seen0: set<Slot>)
    returns (writes: seq<Write>)
    requires writes0 == Admit(before, taken) && seen0 == taken + Slots(writes0)
    ensures writes == Admit(before + TopCandidates(t, tops), taken)
  {
    hide Admit, Slots, TopCandidates;
    writes := writes0;
    var seen := seen0;
    TopStart(t, before);
    for k := 0 to |tops|
      invariant writes == Admit(before + TopCandidates(t, tops[..k]), taken) && seen == taken + Slots(writes)
    {
      var e := tops[k];
      TopStep(t, tops, before, k);
      if e.slug in t.tops && t.tops[e.slug] != [] {
        var w := Write(Slot(t.tops[e.slug], 0), e.value);
        AdmitOne(before + TopCandidates(t, tops[..k]), w, taken);
        SlotsOfOneMore(writes, w);
        if w.slot !in seen {
          seen := seen + {w.slot};
          writes := writes + [w];
        }
      }
    }
    assert tops[..|tops|] == tops;
  }

  lemma LoopStart(t: Bindings, es: seq<Entity>, loop: Text, before: seq<Write>, taken: set<Slot>)
    ensures before + LoopBatches(t, es, loop, 0) == before && Gained(t, es, loop, before, 0, taken) == 0
  {
  }

  lemma LoopStep(t: Bindings, es: seq<Entity>, loop: Text, before: seq<Write>, iter: nat, taken: set<Slot>)
    requires iter < |Sorted(Apps(t, es, loop))|
    ensures var done := before + LoopBatches(t, es, loop, iter);
            var after := before + LoopBatches(t, es, loop, iter + 1);
            && after == done + Batch(t, Group(t, es, loop, Sorted(Apps(t, es, loop))[iter]), iter)
            && Gained(t, es, loop, before, iter + 1, taken)
               == Gained(t, es, loop, before, iter, taken) + if |Admit(done, taken)| < |Admit(after, taken)| then 1 else 0
  {
    hide Admit, Batch, Apps, Group;
  }

  lemma GroupOnShelf(t: Bindings, es: seq<Entity>, loop: Text, groups: map<Text, seq<Entity>>, app: Text)
    requires BucketedLoop(t, es, loop, groups) && app in groups
    ensures groups[app] == Group(t, es, loop, app)
  {
    hide Group, Apps;
  }

  /** All iterations of one loop, in the order of the sorted applications. */
  method EmitLoop(t: Bindings, groups: map<Text, seq<Entity>>, ghost es: seq<Entity>, ghost loop: Text,
                  ghost before: seq<Write>, ghost taken: set<Slot>, writes0: seq<Write>, seen0: set<Slot>)
    returns (writes: seq<Write>, seen: set<Slot>, created: nat)
    requires BucketedLoop(t, es, loop, groups)
    requires writes0 == Admit(before, taken) && seen0 == taken + Slots(writes0)
    ensures var n := |Sorted(Apps(t, es, loop))|;
            writes == Admit(before + LoopBatches(t, es, loop, n), taken) && created == Gained(t, es, loop, before, n, taken)
    ensures seen == taken + Slots(writes)
  {
    hide Admit, Slots, Batch, Apps, Group, LoopBatches, Gained;
    writes, seen, created := writes0, seen0, 0;
    var apps := Sorted(groups.Keys);
    LoopStart(t, es, loop, before, taken);
    for iter := 0 to |apps|
      invariant writes == Admit(before + LoopBatches(t, es, loop, iter), taken) && seen == taken + Slots(writes)
      invariant created == Gained(t, es, loop, before, iter, taken)
    {
      assert apps[iter] in groups;
      GroupOnShelf(t, es, loop, groups, apps[iter]);
      LoopStep(t, es, loop, before, iter, taken);
      var written;
      writes, seen, written := EmitGroup(t, groups[apps[iter]], iter, before + LoopBatches(t, es, loop, iter), taken, writes, seen);
      if written > 0 {
        created := created + 1;
      }
    }
  }

  method BuildPromotionPlan(t: Bindings, passing: seq<Entity>, existing: set<Slot>) returns (plan: Plan)
    ensures plan == PlanOf(t, passing, existing)
  {
    hide Admit, Slots, LoopBatches, Gained, Stale, TopCandidates, Tops, Apps, BucketedLoop;
    var loops, buckets, tops, stale := Route(t, passing);
    var writes, seen, iterations := [], existing, 0;
    Nothing(existing);
    for m := 0 to |loops|
      invariant writes == Admit(LoopCandidates(t, passing, loops[..m]), existing) && seen == existing + Slots(writes)
      invariant iterations == Iterations(t, passing, loops[..m], existing)
    {
      assert loops[..m + 1][..m] == loops[..m];
      var created;
      writes, seen, created := EmitLoop(t, buckets[loops[m]], passing, loops[m],
                                        LoopCandidates(t, passing, loops[..m]), existing, writes, seen);
      iterations := iterations + created;
    }
    assert loops[..|loops|] == loops;
    writes := EmitTops(t, tops, LoopCandidates(t, passing, loops), existing, writes, seen);
    return Plan(writes, stale, iterations);
  }

  lemma Nothing(taken: set<Slot>)
    ensures Admit([], taken) == [] && Slots([]) == {}
  {
  }
}
