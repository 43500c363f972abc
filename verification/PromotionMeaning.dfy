/** What a promotion plan holds, in terms of the bindings, the entities and the answers already there. */
module PromotionMeaning {
  import opened Wrappers
  import opened Texts
  import opened Promotion
  import opened PromotionLaws

  /** The application of an entity; "_solo" when it names none. */
  predicate Named(e: Entity, app: Text) {
    match e.appId
    case Some(id) => app == id
    case None => app == [95, 115, 111, 108, 111]
  }

  predicate Bound(t: Bindings, e: Entity, loop: Text) {
    e.slug in t.bodies && t.bodies[e.slug].loopId == loop
  }

  /** The applications seen in a loop, each once, in the order of their texts. */
  ghost predicate Ranking(t: Bindings, es: seq<Entity>, loop: Text, order: seq<Text>) {
    && (forall i, j :: 0 <= i < j < |order| ==> Before(order[i], order[j]))
    && (forall app :: app in order <==> exists e :: e in es && Bound(t, e, loop) && Named(e, app))
  }

  lemma KeyIsName(e: Entity, app: Text)
    ensures AppKey(e) == app <==> Named(e, app)
  {
  }

  lemma SortedRanks(t: Bindings, es: seq<Entity>, loop: Text)
    ensures Ranking(t, es, loop, Sorted(Apps(t, es, loop)))
  {
    hide Less, Before, AppKey, Named;
    var order := Sorted(Apps(t, es, loop));
    forall i, j | 0 <= i < j < |order| ensures Before(order[i], order[j]) {
      LessMeans(order[i], order[j]);
    }
    forall app ensures app in order <==> exists e :: e in es && Bound(t, e, loop) && Named(e, app) {
      forall e ensures AppKey(e) == app <==> Named(e, app) {
        KeyIsName(e, app);
      }
    }
  }

  lemma {:induction false} SortedOnce(a: seq<Text>, b: seq<Text>)
    requires forall i, j :: 0 <= i < j < |a| ==> Less(a[i], a[j])
    requires forall i, j :: 0 <= i < j < |b| ==> Less(b[i], b[j])
    requires forall x :: x in a <==> x in b
    ensures a == b
  {
    hide Less;
    assert forall i :: 0 <= i < |a| ==> a[i] in a;
    assert forall i :: 0 <= i < |b| ==> b[i] in b;
    if a == [] || b == [] {
    } else {
      assert a[0] in b && b[0] in a;
      var i :| 0 <= i < |a| && a[i] == b[0];
      var k :| 0 <= k < |b| && b[k] == a[0];
      LessIsTotal(a[0], b[0]);
      forall x | x in a[1..] || x in b[1..] ensures x != a[0] {
        LessIsTotal(x, a[0]);
      }
      assert forall x :: x in a <==> x == a[0] || x in a[1..];
      assert forall x :: x in b <==> x == b[0] || x in b[1..];
      SortedOnce(a[1..], b[1..]);
      assert a == [a[0]] + a[1..] && b == [b[0]] + b[1..];
    }
  }

  /** There is one ranking. */
  lemma OneRanking(t: Bindings, es: seq<Entity>, loop: Text, order: seq<Text>)
    requires Ranking(t, es, loop, order)
    ensures order == Sorted(Apps(t, es, loop))
  {
    hide Less, Before, Named, Bound;
    SortedRanks(t, es, loop);
    var sorted := Sorted(Apps(t, es, loop));
    forall i, j | 0 <= i < j < |order| ensures Less(order[i], order[j]) {
      LessMeans(order[i], order[j]);
    }
    SortedOnce(order, sorted);
  }

  /** Where an entity goes: in a loop to its bound node at the place of its application; outside loops to
      its bound node, if that has an id, at 0. */
  ghost predicate Wants(t: Bindings, es: seq<Entity>, e: Entity, slot: Slot) {
    if e.slug in t.bodies then
      && slot.nodeId == t.bodies[e.slug].nodeId
      && exists order :: Ranking(t, es, t.bodies[e.slug].loopId, order) && slot.iter < |order| && Named(e, order[slot.iter])
    else
      e.slug in t.tops && t.tops[e.slug] != [] && slot == Slot(t.tops[e.slug], 0)
  }

  lemma AimMeans(t: Bindings, es: seq<Entity>, e: Entity, slot: Slot)
    requires e in es
    ensures Aim(t, es, e) == Some(slot) <==> Wants(t, es, e, slot)
  {
    hide Less, Rank, Apps, Named, Ranking, AppKey;
    if e.slug in t.bodies {
      var loop := t.bodies[e.slug].loopId;
      var order := Sorted(Apps(t, es, loop));
      SortedRanks(t, es, loop);
      forall o | Ranking(t, es, loop, o) ensures o == order {
        OneRanking(t, es, loop, o);
      }
      InApps(t, es, e, loop);
      RankIsIndex(Apps(t, es, loop), AppKey(e));
      KeyIsName(e, AppKey(e));
      forall i | 0 <= i < |order| && Named(e, order[i]) ensures i == Rank(Apps(t, es, loop), AppKey(e)) {
        KeyIsName(e, order[i]);
        SortedRank(Apps(t, es, loop), i);
      }
    }
  }

  /** The plan fills exactly the free places that entities want, each once, each with the value of an entity
      that wants it. */
  lemma PlanMeans(t: Bindings, es: seq<Entity>, existing: set<Slot>)
    ensures var ws := PlanOf(t, es, existing).writes;
      && (forall i, j :: 0 <= i < j < |ws| ==> ws[i].slot != ws[j].slot)
      && (forall w :: w in ws ==> w.slot !in existing && exists e :: e in es && Wants(t, es, e, w.slot) && w.value == e.value)
      && (forall e, slot :: e in es && Wants(t, es, e, slot) && slot !in existing ==> exists w :: w in ws && w.slot == slot)
  {
    hide Candidates, Admit, Aim, Wants, Stale;
    PlanFillsFreeAims(t, es, existing);
    var ws := PlanOf(t, es, existing).writes;
    forall e, slot | e in es ensures Aim(t, es, e) == Some(slot) <==> Wants(t, es, e, slot) {
      AimMeans(t, es, e, slot);
    }
    forall w | w in ws ensures w.slot !in existing && exists e :: e in es && Wants(t, es, e, w.slot) && w.value == e.value {
      assert w.slot in Slots(ws);
      var e :| Asks(t, es, e, w);
    }
    forall e, slot | e in es && Wants(t, es, e, slot) && slot !in existing ensures exists w :: w in ws && w.slot == slot {
      assert slot in Aims(t, es);
      assert slot in Slots(ws);
    }
  }

  /** Entities of one loop share an iteration exactly when their applications are the same, an absent one
      counting as "_solo"; and the iterations follow the order of the applications. */
  lemma SharedIteration(t: Bindings, es: seq<Entity>, e: Entity, d: Entity, loop: Text, a: Text, b: Text, s: Slot, u: Slot)
    requires e in es && d in es && Bound(t, e, loop) && Bound(t, d, loop) && Named(e, a) && Named(d, b)
    requires Wants(t, es, e, s) && Wants(t, es, d, u)
    ensures (s.iter == u.iter <==> a == b) && (s.iter < u.iter <==> Before(a, b))
  {
    hide Less, Before;
    var order :| Ranking(t, es, loop, order) && s.iter < |order| && Named(e, order[s.iter]);
    var other :| Ranking(t, es, loop, other) && u.iter < |other| && Named(d, other[u.iter]);
    OneRanking(t, es, loop, order);
    OneRanking(t, es, loop, other);
    LessMeans(a, b);
    LessMeans(b, a);
    LessIsTotal(a, b);
  }

  // ── Stale slugs ───────────────────────────────────────────────────────────

  function Times(es: seq<Entity>, slug: Text): nat {
    if es == [] then 0 else Times(es[..|es| - 1], slug) + if es[|es| - 1].slug == slug then 1 else 0
  }

  /** A slug that no binding knows is reported with the number of its entities; no other slug is. */
  lemma {:induction false} StaleMeans(t: Bindings, es: seq<Entity>, slug: Text)
    ensures var stale := Stale(t, es);
      && (slug in stale <==> slug !in t.bodies && slug !in t.tops && Times(es, slug) > 0)
      && (slug in stale ==> stale[slug] == Times(es, slug))
  {
    if es == [] {
    } else {
      StaleMeans(t, es[..|es| - 1], slug);
    }
  }

  // ── Iterations ────────────────────────────────────────────────────────────

  /** The iterations of loops that writes fall into. */
  function Places(t: Bindings, ws: seq<Write>): set<(Text, nat)> {
    set slug, w | slug in t.bodies.Keys && w in ws && t.bodies[slug].nodeId == w.slot.nodeId :: (t.bodies[slug].loopId, w.slot.iter)
  }

  lemma PlacesOfTwo(t: Bindings, a: seq<Write>, b: seq<Write>)
    ensures Places(t, a + b) == Places(t, a) + Places(t, b)
  {
    assert forall w :: w in a + b <==> w in a || w in b;
  }

  lemma {:induction false} AdmitAppend(cs: seq<Write>, ds: seq<Write>, taken: set<Slot>) returns (added: seq<Write>)
    ensures Admit(cs + ds, taken) == Admit(cs, taken) + added
    ensures forall w :: w in added ==> w in ds
  {
    hide Admit, Slots;
    if ds == [] {
      added := [];
      assert cs + ds == cs && Admit(cs, taken) + [] == Admit(cs, taken);
    } else {
      var front, last := ds[..|ds| - 1], ds[|ds| - 1];
      added := AdmitAppend(cs, front, taken);
      assert cs + ds == cs + front + [last] && ds == front + [last];
      AdmitOne(cs + front, last, taken);
      if last.slot !in taken + Slots(Admit(cs + front, taken)) {
        assert Admit(cs, taken) + added + [last] == Admit(cs, taken) + (added + [last]);
        added := added + [last];
      }
    }
  }

  lemma BatchPlaces(t: Bindings, es: seq<Entity>, loop: Text, app: Text, iter: nat, added: seq<Write>)
    requires Consistent(t) && forall w :: w in added ==> w in Batch(t, Group(t, es, loop, app), iter)
    ensures Places(t, added) == if added == [] then {} else {(loop, iter)}
  {
    hide Group, Batch, AppKey;
    forall w | w in added
      ensures w.slot.iter == iter
      ensures exists slug :: slug in t.bodies && t.bodies[slug].nodeId == w.slot.nodeId && t.bodies[slug].loopId == loop
    {
      BatchMembers(t, Group(t, es, loop, app), iter, w);
    }
    if added != [] {
      assert added[0] in added;
      assert (loop, iter) in Places(t, added);
    }
  }

  ghost predicate OnlyIn(t: Bindings, cs: seq<Write>, loops: seq<Text>) {
    forall w, slug :: w in cs && slug in t.bodies && t.bodies[slug].nodeId == w.slot.nodeId ==> t.bodies[slug].loopId in loops
  }

  lemma CandidatesOnlyIn(t: Bindings, es: seq<Entity>, loops: seq<Text>)
    requires Consistent(t)
    ensures OnlyIn(t, LoopCandidates(t, es, loops), loops)
  {
    hide LoopCandidates, Rank, Apps, AppKey;
    forall w, slug | w in LoopCandidates(t, es, loops) && slug in t.bodies && t.bodies[slug].nodeId == w.slot.nodeId
      ensures t.bodies[slug].loopId in loops
    {
      LoopCandidatesMembers(t, es, loops, w);
      var l :| l in loops && AskedIn(t, es, l, w);
      var e :| InLoop(t, e, l) && Asks(t, es, e, w);
    }
  }

  /** Before the n-th iteration of a loop nothing falls into it. */
  lemma NotYet(t: Bindings, es: seq<Entity>, loop: Text, loops: seq<Text>, before: seq<Write>, n: nat, taken: set<Slot>)
    requires Consistent(t) && OnlyIn(t, before, loops) && loop !in loops && n < |Sorted(Apps(t, es, loop))|
    ensures (loop, n) !in Places(t, Admit(before + LoopBatches(t, es, loop, n), taken))
  {
    hide Admit, LoopBatches, Apps, Group;
    Admitted(before + LoopBatches(t, es, loop, n), taken);
    forall w | w in LoopBatches(t, es, loop, n) ensures w.slot.iter < n {
      LoopBatchMembers(t, es, loop, n, w);
    }
  }

  lemma {:induction false} GainedMeans(t: Bindings, es: seq<Entity>, loop: Text, loops: seq<Text>, before: seq<Write>, n: nat, taken: set<Slot>)
    requires Consistent(t) && OnlyIn(t, before, loops) && loop !in loops && n <= |Sorted(Apps(t, es, loop))|
    ensures |Places(t, Admit(before + LoopBatches(t, es, loop, n), taken))|
         == |Places(t, Admit(before, taken))| + Gained(t, es, loop, before, n, taken)
  {
    hide Admit, LoopBatches, Apps, Group, Batch, Places, Consistent, OnlyIn, Gained;
    LoopStart(t, es, loop, before, taken);
    if n == 0 {
    } else {
      GainedMeans(t, es, loop, loops, before, n - 1, taken);
      LoopStep(t, es, loop, before, n - 1, taken);
      var done := before + LoopBatches(t, es, loop, n - 1);
      var app := Sorted(Apps(t, es, loop))[n - 1];
      var added := AdmitAppend(done, Batch(t, Group(t, es, loop, app), n - 1), taken);
      BatchPlaces(t, es, loop, app, n - 1, added);
      PlacesOfTwo(t, Admit(done, taken), added);
      NotYet(t, es, loop, loops, before, n - 1, taken);
    }
  }

  lemma {:induction false} IterationsOfLoops(t: Bindings, es: seq<Entity>, loops: seq<Text>, taken: set<Slot>)
    requires Consistent(t) && forall i, j :: 0 <= i < j < |loops| ==> loops[i] != loops[j]
    ensures Iterations(t, es, loops, taken) == |Places(t, Admit(LoopCandidates(t, es, loops), taken))|
  {
    hide Admit, LoopBatches, Apps, Places, Consistent, OnlyIn, Gained;
    if loops == [] {
      Nothing(taken);
      NoPlaces(t);
    } else {
      var loop, init := loops[|loops| - 1], loops[..|loops| - 1];
      IterationsOfLoops(t, es, init, taken);
      CandidatesOnlyIn(t, es, init);
      GainedMeans(t, es, loop, init, LoopCandidates(t, es, init), |Sorted(Apps(t, es, loop))|, taken);
    }
  }

  lemma NoPlaces(t: Bindings)
    ensures Places(t, []) == {}
  {
  }

  /** The iterations a plan reports are those that its writes fall into. */
  lemma IterationsMean(t: Bindings, es: seq<Entity>, existing: set<Slot>)
    requires Consistent(t)
    ensures PlanOf(t, es, existing).iterations == |Places(t, PlanOf(t, es, existing).writes)|
  {
    hide Admit, LoopCandidates, TopCandidates, Iterations;
    var loops := Loops(t, es);
    IterationsOfLoops(t, es, loops, existing);
    var added := AdmitAppend(LoopCandidates(t, es, loops), TopCandidates(t, Tops(t, es)), existing);
    PlacesOfTwo(t, Admit(LoopCandidates(t, es, loops), existing), added);
    forall w | w in added ensures forall slug :: slug in t.bodies ==> t.bodies[slug].nodeId != w.slot.nodeId {
      TopCandidatesMembers(t, Tops(t, es), w);
    }
    assert Places(t, added) == {};
  }
}
