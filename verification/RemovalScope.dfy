/**
 What a removed iteration does to the quote: the scope vector loses that iteration's entities, and
 those of later iterations are renumbered.
 */
module RemovalScope {
  import opened Wrappers
  import opened Engine
  import opened Bodies
  import opened Pricing
  import opened Normalise
  import Gathering
  import Progress
  import Removal

  // ── Entities without one iteration ────────────────────────────────────────

  function IterOf(id: EntityId): Option<(string, nat)> {
    match id
    case LoopEntity(loop, iter) => Some((loop, iter))
    case DriverEntity(loop, iter, _) => Some((loop, iter))
    case _ => None
  }

  function AtIter(id: EntityId, iter: nat): EntityId {
    match id
    case LoopEntity(loop, _) => LoopEntity(loop, iter)
    case DriverEntity(loop, _, child) => DriverEntity(loop, iter, child)
    case _ => id
  }

  function Renumbered(e: Entity, loopId: string, k: nat): Entity {
    var at := IterOf(e.id);
    if at.Some? && at.value.0 == loopId && at.value.1 > k then e.(id := AtIter(e.id, at.value.1 - 1)) else e
  }

  /** The entities of one loop's k-th iteration dropped, and those of later ones renumbered. */
  function WithoutIteration(es: seq<Entity>, loopId: string, k: nat): seq<Entity> {
    if es == [] then []
    else
      var e := es[|es| - 1];
      WithoutIteration(es[..|es| - 1], loopId, k) + if IterOf(e.id) == Some((loopId, k)) then [] else [Renumbered(e, loopId, k)]
  }

  lemma {:induction false} WithoutOfTwo(a: seq<Entity>, b: seq<Entity>, loopId: string, k: nat)
    ensures WithoutIteration(a + b, loopId, k) == WithoutIteration(a, loopId, k) + WithoutIteration(b, loopId, k)
  {
    hide Renumbered, IterOf;
    if b == [] {
      assert a + b == a;
    } else {
      assert (a + b)[..|a + b| - 1] == a + b[..|b| - 1];
      WithoutOfTwo(a, b[..|b| - 1], loopId, k);
    }
  }

  ghost predicate Elsewhere(es: seq<Entity>, loopId: string) {
    forall e :: e in es ==> IterOf(e.id).None? || IterOf(e.id).value.0 != loopId
  }

  lemma {:induction false} ElsewhereStays(es: seq<Entity>, loopId: string, k: nat)
    requires Elsewhere(es, loopId)
    ensures WithoutIteration(es, loopId, k) == es
  {
    if es == [] {
    } else {
      var front, last := es[..|es| - 1], es[|es| - 1];
      assert es == front + [last];
      assert last in es;
      ElsewhereStays(front, loopId, k);
    }
  }

  /** The same entities under another iteration number. */
  function MovedTo(es: seq<Entity>, iter: nat): seq<Entity> {
    if es == [] then [] else MovedTo(es[..|es| - 1], iter) + [es[|es| - 1].(id := AtIter(es[|es| - 1].id, iter))]
  }

  ghost predicate AllAt(es: seq<Entity>, loopId: string, iter: nat) {
    forall e :: e in es ==> IterOf(e.id) == Some((loopId, iter))
  }

  lemma {:induction false} MovedOfTwo(a: seq<Entity>, b: seq<Entity>, iter: nat)
    ensures MovedTo(a + b, iter) == MovedTo(a, iter) + MovedTo(b, iter)
  {
    hide AtIter;
    if b == [] {
      assert a + b == a;
    } else {
      assert (a + b)[..|a + b| - 1] == a + b[..|b| - 1];
      MovedOfTwo(a, b[..|b| - 1], iter);
    }
  }

  function NewIter(iter: nat, k: nat): nat {
    if iter > k then iter - 1 else iter
  }

  lemma {:induction false} WithoutOneIteration(es: seq<Entity>, loopId: string, iter: nat, k: nat)
    requires AllAt(es, loopId, iter)
    ensures WithoutIteration(es, loopId, k) == if iter == k then [] else MovedTo(es, NewIter(iter, k))
  {
    if es == [] {
    } else {
      var front, last := es[..|es| - 1], es[|es| - 1];
      assert es == front + [last];
      assert last in es;
      WithoutOneIteration(front, loopId, iter, k);
      assert AtIter(last.id, iter) == last.id;
    }
  }

  // ── Answers without one iteration ─────────────────────────────────────────

  ghost predicate Shifted(a: Answers, b: Answers, ids: set<string>, k: nat) {
    forall id, i: nat :: ShiftedAt(a, b, ids, k, id, i)
  }

  predicate ShiftedAt(a: Answers, b: Answers, ids: set<string>, k: nat, id: string, i: nat) {
    var from := if id in ids && i >= k then i + 1 else i;
    ((id, i) in b <==> (id, from) in a) && ((id, i) in b ==> b[(id, i)] == a[(id, from)])
  }

  lemma NoBody(t: Template, loopId: string)
    requires BodyOf(t.nodes, loopId) == []
    ensures Gathering.BodyIds(t, loopId) == {}
  {
    hide BodyOf;
  }

  lemma RemovalShifts(v: Gathering.View, loopId: string, k: nat)
    requires Gathering.RemoveIteration(v, loopId, k).Ok?
    ensures Shifted(v.answers, Gathering.RemoveIteration(v, loopId, k).value.answers, Gathering.BodyIds(v.t, loopId), k)
    ensures loopId in ById(v.t.nodes) && ById(v.t.nodes)[loopId].nodeType.Loop?
  {
    hide ById, BodyOf, Gathering.DeleteAt, Gathering.ShiftDown, Gathering.BodyIds;
    var ids := Gathering.BodyIds(v.t, loopId);
    if BodyOf(v.t.nodes, loopId) == [] {
      NoBody(v.t, loopId);
    } else {
      forall id, i: nat ensures ShiftedAt(v.answers, Gathering.RemoveIteration(v, loopId, k).value.answers, ids, k, id, i) {
        Removal.RemovedAt(v.answers, ids, k, id, i);
      }
    }
  }

  /** The nodes read the same at one iteration of the one and another of the other. */
  ghost predicate Alike(a: Answers, i: nat, b: Answers, j: nat, nodes: seq<Node>) {
    forall n :: n in nodes ==> Filled(a, n.id, i) == Filled(b, n.id, j)
  }

  lemma {:induction false} OverridesAlike(js: Js, a: Answers, i: nat, b: Answers, j: nat, nodes: seq<Node>, d: Defaults)
    requires Alike(a, i, b, j, nodes)
    ensures Overrides(js, a, nodes, i, d) == Overrides(js, b, nodes, j, d)
  {
    hide Filled, MapBound, TextOf;
    if nodes == [] {
    } else {
      var front, last := nodes[..|nodes| - 1], nodes[|nodes| - 1];
      assert nodes == front + [last];
      assert last in nodes;
      OverridesAlike(js, a, i, b, j, front, d);
    }
  }

  lemma ScopeAlike(js: Js, a: Answers, i: nat, b: Answers, j: nat, n: Node)
    requires Filled(a, n.id, i) == Filled(b, n.id, j)
    ensures ScopeAt(js, a, n, i) == ScopeAt(js, b, n, j)
  {
    hide Filled, MapBound, NumberOf;
  }

  lemma {:induction false} MainScopeAlike(js: Js, a: Answers, i: nat, b: Answers, j: nat, body: seq<Node>)
    requires Alike(a, i, b, j, body)
    ensures MainScope(js, a, body, i) == MainScope(js, b, body, j)
  {
    hide Filled, ScopeAt;
    if body == [] {
    } else {
      assert body[0] in body;
      ScopeAlike(js, a, i, b, j, body[0]);
      MainScopeAlike(js, a, i, b, j, body[1..]);
    }
  }

  lemma {:induction false} TopsAlike(js: Js, card: RateCard, a: Answers, b: Answers, nodes: seq<Node>, d: Defaults)
    requires Alike(a, 0, b, 0, nodes)
    ensures Tops(js, card, a, nodes, d) == Tops(js, card, b, nodes, d)
    ensures forall e :: e in Tops(js, card, a, nodes, d) ==> IterOf(e.id).None?
  {
    hide Filled, ScopeAt, BySlug;
    if nodes == [] {
    } else {
      var front, last := nodes[..|nodes| - 1], nodes[|nodes| - 1];
      assert nodes == front + [last];
      assert last in nodes;
      ScopeAlike(js, a, 0, b, 0, last);
      TopsAlike(js, card, a, b, front, d);
    }
  }

  lemma BoundMoved(js: Js, card: RateCard, a: Answers, i: nat, b: Answers, j: nat, loop: Node, n: Node, d: Defaults)
    requires Filled(a, n.id, i) == Filled(b, n.id, j)
    ensures var out := BoundEntity(js, card, a, n, i, DriverEntity(loop.id, i, n.id), d);
      && |out| <= 1 && AllAt(out, loop.id, i)
      && BoundEntity(js, card, b, n, j, DriverEntity(loop.id, j, n.id), d) == MovedTo(out, j)
  {
    hide Filled, ScopeAt, BySlug, MovedTo;
    ScopeAlike(js, a, i, b, j, n);
    MovedOne(BoundEntity(js, card, a, n, i, DriverEntity(loop.id, i, n.id), d), j);
  }

  lemma {:induction false} DriversMoved(js: Js, card: RateCard, a: Answers, i: nat, b: Answers, j: nat, loop: Node, body: seq<Node>, d: Defaults)
    requires Alike(a, i, b, j, body)
    ensures Drivers(js, card, b, loop, body, j, d) == MovedTo(Drivers(js, card, a, loop, body, i, d), j)
    ensures AllAt(Drivers(js, card, a, loop, body, i, d), loop.id, i)
  {
    hide Filled, BoundEntity, IterOf;
    if body == [] {
    } else {
      hide MovedTo;
      var front, last := body[..|body| - 1], body[|body| - 1];
      assert body == front + [last];
      assert last in body;
      BoundMoved(js, card, a, i, b, j, loop, last, d);
      DriversMoved(js, card, a, i, b, j, loop, front, d);
      MovedOfTwo(Drivers(js, card, a, loop, front, i, d), BoundEntity(js, card, a, last, i, DriverEntity(loop.id, i, last.id), d), j);
    }
  }

  lemma MovedOne(out: seq<Entity>, j: nat)
    requires |out| <= 1
    ensures MovedTo(out, j) == if out == [] then [] else [out[0].(id := AtIter(out[0].id, j))]
  {
    assert out != [] ==> out[..0] == [];
  }

  lemma IterationMoved(js: Js, card: RateCard, a: Answers, i: nat, b: Answers, j: nat, loop: Node, body: seq<Node>, d: Defaults)
    requires Alike(a, i, b, j, body)
    ensures IterationEntities(js, card, b, loop, body, j, d) == MovedTo(IterationEntities(js, card, a, loop, body, i, d), j)
    ensures AllAt(IterationEntities(js, card, a, loop, body, i, d), loop.id, i)
  {
    hide Alike, Drivers, MainScope, Overrides, MovedTo, BySlug;
    OverridesAlike(js, a, i, b, j, body, d);
    MainScopeAlike(js, a, i, b, j, body);
    var own := Overrides(js, a, body, i, d);
    var main := MainEntity(card, loop, i, MainScope(js, a, body, i), own);
    DriversMoved(js, card, a, i, b, j, loop, body, own);
    MovedOfTwo(main, Drivers(js, card, a, loop, body, i, own), j);
    MovedOne(main, j);
  }

  /** Moving to where they are leaves entities as they are. */
  lemma {:induction false} MovedNowhere(es: seq<Entity>, loopId: string, iter: nat)
    requires AllAt(es, loopId, iter)
    ensures MovedTo(es, iter) == es
  {
    if es == [] {
    } else {
      var front, last := es[..|es| - 1], es[|es| - 1];
      assert es == front + [last];
      assert last in es;
      MovedNowhere(front, loopId, iter);
      assert last.(id := AtIter(last.id, iter)) == last;
    }
  }

  // ── Iteration numbers ─────────────────────────────────────────────────────

  ghost predicate Increasing(s: seq<nat>) {
    forall i, j :: 0 <= i < j < |s| ==> s[i] < s[j]
  }

  function Closed(iters: seq<nat>, k: nat): seq<nat> {
    if iters == [] then []
    else
      var last := iters[|iters| - 1];
      Closed(iters[..|iters| - 1], k) + if last == k then [] else [NewIter(last, k)]
  }

  lemma {:induction false} ClosedMembers(iters: seq<nat>, k: nat)
    requires Increasing(iters)
    ensures Increasing(Closed(iters, k))
    ensures forall j :: j in Closed(iters, k) <==> (if j < k then j else j + 1) in iters
  {
    if iters == [] {
    } else {
      var front, last := iters[..|iters| - 1], iters[|iters| - 1];
      assert iters == front + [last];
      ClosedMembers(front, k);
      var r := Closed(front, k);
      forall i | 0 <= i < |r| && last != k ensures r[i] < NewIter(last, k) {
        assert r[i] in r;
        var x := if r[i] < k then r[i] else r[i] + 1;
        assert x in front && x < last;
      }
    }
  }

  lemma SomeElement(a: seq<nat>)
    ensures a != [] ==> exists x :: x in a
  {
    if a != [] {
      assert a[0] in a;
    }
  }

  lemma AllButGreatest(a: seq<nat>)
    requires Increasing(a) && a != []
    ensures Increasing(a[..|a| - 1]) && a[|a| - 1] in a
    ensures forall x :: x in a[..|a| - 1] <==> x in a && x != a[|a| - 1]
    ensures forall x :: x in a ==> x <= a[|a| - 1]
  {
    var n := |a| - 1;
    assert a == a[..n] + [a[n]];
  }

  lemma {:induction false} IncreasingUnique(a: seq<nat>, b: seq<nat>)
    requires Increasing(a) && Increasing(b) && forall x :: x in a <==> x in b
    ensures a == b
  {
    hide Increasing;
    if a == [] || b == [] {
      SomeElement(a);
      SomeElement(b);
    } else {
      AllButGreatest(a);
      AllButGreatest(b);
      var m, n := |a| - 1, |b| - 1;
      assert a == a[..m] + [a[m]] && b == b[..n] + [b[n]];
      assert a[m] in b && b[n] in a && a[m] == b[n];
      forall x: nat ensures x in a[..m] <==> x in b[..n] {
        assert x in a[..|a| - 1] <==> x in a && x != a[|a| - 1];
        assert x in b[..|b| - 1] <==> x in b && x != b[|b| - 1];
      }
      IncreasingUnique(a[..m], b[..n]);
    }
  }

  lemma ItersMembers(a: Answers, body: seq<Node>, i: nat)
    ensures i in ItersFilled(a, body) <==> exists n :: n in body && (n.id, i) in a
  {
    if n :| n in body && (n.id, i) in a {
      assert (n.id, i).1 in ItersFilled(a, body);
    }
  }

  lemma ItersClosed(a: Answers, b: Answers, ids: set<string>, k: nat, body: seq<Node>)
    requires Shifted(a, b, ids, k) && forall n :: n in body ==> n.id in ids
    ensures Sorted(ItersFilled(b, body)) == Closed(Sorted(ItersFilled(a, body)), k)
  {
    hide Sorted, ItersFilled, Closed;
    var before, after := Sorted(ItersFilled(a, body)), Sorted(ItersFilled(b, body));
    ClosedMembers(before, k);
    forall j: nat ensures j in after <==> j in Closed(before, k) {
      ItersMembers(b, body, j);
      ItersMembers(a, body, if j < k then j else j + 1);
      assert forall n :: n in body ==> ShiftedAt(a, b, ids, k, n.id, j);
    }
    IncreasingUnique(after, Closed(before, k));
  }

  // ── Loops ─────────────────────────────────────────────────────────────────

  lemma ShiftedAlike(a: Answers, b: Answers, ids: set<string>, k: nat, body: seq<Node>, i: nat)
    requires Shifted(a, b, ids, k) && (forall n :: n in body ==> n.id in ids) && i != k
    ensures Alike(a, i, b, NewIter(i, k), body)
  {
    forall n | n in body ensures Filled(a, n.id, i) == Filled(b, n.id, NewIter(i, k)) {
      assert ShiftedAt(a, b, ids, k, n.id, NewIter(i, k));
    }
  }

  /** The loop that lost the iteration. */
  lemma {:induction false} IterationsRemoved(js: Js, card: RateCard, a: Answers, b: Answers, ids: set<string>, k: nat,
                                             loop: Node, body: seq<Node>, iters: seq<nat>, d: Defaults)
    requires Shifted(a, b, ids, k) && forall n :: n in body ==> n.id in ids
    ensures Iterations(js, card, b, loop, body, Closed(iters, k), d)
         == WithoutIteration(Iterations(js, card, a, loop, body, iters, d), loop.id, k)
  {
    hide Shifted, IterationEntities, WithoutIteration, Alike, AllAt, MovedTo;
    if iters == [] {
      Nothing(loop.id, k);
    } else {
      var front, last := iters[..|iters| - 1], iters[|iters| - 1];
      IterationsRemoved(js, card, a, b, ids, k, loop, body, front, d);
      var earlier, now := Iterations(js, card, a, loop, body, front, d), IterationEntities(js, card, a, loop, body, last, d);
      WithoutOfTwo(earlier, now, loop.id, k);
      Reflexive(a, last, body);
      IterationMoved(js, card, a, last, a, last, loop, body, d);
      WithoutOneIteration(now, loop.id, last, k);
      var closed := Closed(front, k);
      if last != k {
        ShiftedAlike(a, b, ids, k, body, last);
        IterationMoved(js, card, a, last, b, NewIter(last, k), loop, body, d);
        assert (closed + [NewIter(last, k)])[..|closed|] == closed;
      } else {
        assert Closed(iters, k) == closed;
      }
    }
  }

  lemma Nothing(loopId: string, k: nat)
    ensures WithoutIteration([], loopId, k) == []
  {
  }

  lemma Reflexive(a: Answers, i: nat, body: seq<Node>)
    ensures Alike(a, i, a, i, body)
  {
  }

  /** Any other loop. */
  lemma {:induction false} IterationsKept(js: Js, card: RateCard, a: Answers, b: Answers, loop: Node, body: seq<Node>, iters: seq<nat>, d: Defaults)
    requires forall i :: Alike(a, i, b, i, body)
    ensures Iterations(js, card, b, loop, body, iters, d) == Iterations(js, card, a, loop, body, iters, d)
    ensures forall e :: e in Iterations(js, card, a, loop, body, iters, d) ==> IterOf(e.id).Some? && IterOf(e.id).value.0 == loop.id
  {
    hide IterationEntities, Alike, MovedTo, IterOf;
    if iters == [] {
    } else {
      var last := iters[|iters| - 1];
      IterationsKept(js, card, a, b, loop, body, iters[..|iters| - 1], d);
      assert Alike(a, last, b, last, body);
      IterationMoved(js, card, a, last, b, last, loop, body, d);
      MovedNowhere(IterationEntities(js, card, a, loop, body, last, d), loop.id, last);
    }
  }

  lemma LoopKept(js: Js, card: RateCard, a: Answers, b: Answers, ids: set<string>, k: nat, t: Template, loop: Node, d: Defaults)
    requires Shifted(a, b, ids, k) && forall n :: n in LoopBody(t, loop) ==> n.id !in ids
    ensures LoopEntities(js, card, b, t, loop, d) == LoopEntities(js, card, a, t, loop, d)
    ensures forall e :: e in LoopEntities(js, card, a, t, loop, d) ==> IterOf(e.id).Some? && IterOf(e.id).value.0 == loop.id
  {
    hide Iterations, Sorted, ItersFilled, LoopBody, IterOf;
    var body := LoopBody(t, loop);
    forall i ensures Alike(a, i, b, i, body) {
      assert forall n :: n in body ==> ShiftedAt(a, b, ids, k, n.id, i);
    }
    assert ItersFilled(a, body) == ItersFilled(b, body) by {
      forall i: nat ensures i in ItersFilled(a, body) <==> i in ItersFilled(b, body) {
        ItersMembers(a, body, i);
        ItersMembers(b, body, i);
        assert forall n :: n in body ==> ShiftedAt(a, b, ids, k, n.id, i);
      }
    }
    IterationsKept(js, card, a, b, loop, body, Sorted(ItersFilled(a, body)), d);
  }

  lemma LoopRemoved(js: Js, card: RateCard, a: Answers, b: Answers, k: nat, t: Template, loop: Node, d: Defaults)
    requires Shifted(a, b, Gathering.BodyIds(t, loop.id), k) && loop.id != ""
    ensures LoopEntities(js, card, b, t, loop, d) == WithoutIteration(LoopEntities(js, card, a, t, loop, d), loop.id, k)
  {
    hide Iterations, Sorted, ItersFilled, BodyOf, Shifted, WithoutIteration;
    var body := LoopBody(t, loop);
    ItersClosed(a, b, Gathering.BodyIds(t, loop.id), k, body);
    IterationsRemoved(js, card, a, b, Gathering.BodyIds(t, loop.id), k, loop, body, Sorted(ItersFilled(a, body)), d);
  }

  lemma OtherBody(t: Template, loop: Node, loopId: string)
    requires UniqueIds(t) && loop.id != loopId
    ensures forall n :: n in LoopBody(t, loop) ==> n.id !in Gathering.BodyIds(t, loopId)
  {
    hide ById, BodyOf;
    forall n | n in LoopBody(t, loop) ensures n.id !in Gathering.BodyIds(t, loopId) {
      UniqueLookup(t.nodes, n);
      if n.id in Gathering.BodyIds(t, loopId) {
        Progress.BodyIdParent(t, loopId, n.id);
      }
    }
  }

  lemma {:induction false} LoopsRemoved(js: Js, card: RateCard, a: Answers, b: Answers, k: nat, t: Template, loopId: string,
                                        nodes: seq<Node>, d: Defaults)
    requires UniqueIds(t) && Shifted(a, b, Gathering.BodyIds(t, loopId), k) && forall n :: n in nodes ==> n in t.nodes
    ensures Loops(js, card, b, t, nodes, d) == WithoutIteration(Loops(js, card, a, t, nodes, d), loopId, k)
  {
    hide LoopEntities, WithoutIteration, Shifted, Gathering.BodyIds, LoopBody;
    if nodes == [] {
      Nothing(loopId, k);
    } else {
      var front, last := nodes[..|nodes| - 1], nodes[|nodes| - 1];
      assert nodes == front + [last];
      assert last in nodes;
      LoopsRemoved(js, card, a, b, k, t, loopId, front, d);
      var out := if last.nodeType.Loop? then LoopEntities(js, card, a, t, last, d) else [];
      WithoutOfTwo(Loops(js, card, a, t, front, d), out, loopId, k);
      if !last.nodeType.Loop? {
        Nothing(loopId, k);
      } else if last.id == loopId {
        LoopRemoved(js, card, a, b, k, t, last, d);
      } else {
        OtherBody(t, last, loopId);
        LoopKept(js, card, a, b, Gathering.BodyIds(t, loopId), k, t, last, d);
        ElsewhereStays(out, loopId, k);
      }
    }
  }

  lemma TopsShifted(a: Answers, b: Answers, k: nat, t: Template, loopId: string)
    requires UniqueIds(t) && loopId != "" && Shifted(a, b, Gathering.BodyIds(t, loopId), k)
    ensures Alike(a, 0, b, 0, TopNodes(t.nodes))
  {
    hide ById, TopNodes, Gathering.BodyIds;
    forall n | n in TopNodes(t.nodes) ensures Filled(a, n.id, 0) == Filled(b, n.id, 0) {
      UniqueLookup(t.nodes, n);
      if n.id in Gathering.BodyIds(t, loopId) {
        Progress.BodyIdParent(t, loopId, n.id);
      }
      assert ShiftedAt(a, b, Gathering.BodyIds(t, loopId), k, n.id, 0);
    }
  }

  /** After an iteration is removed, the scope vector is the one before without that iteration's
      entities, those of the loop's later iterations renumbered and everything else as it was. */
  lemma RemovalDropsIteration(js: Js, card: RateCard, v: Gathering.View, loopId: string, k: nat, d: Defaults)
    requires UniqueIds(v.t) && Gathering.RemoveIteration(v, loopId, k).Ok?
    ensures ScopeOf(js, card, Gathering.RemoveIteration(v, loopId, k).value.answers, v.t, d)
         == WithoutIteration(ScopeOf(js, card, v.answers, v.t, d), loopId, k)
  {
    hide Gathering.RemoveIteration, ById, Tops, Loops, TopNodes, Shifted, Alike, WithoutIteration, Overrides, Gathering.BodyIds, IterOf;
    var a, b := v.answers, Gathering.RemoveIteration(v, loopId, k).value.answers;
    RemovalShifts(v, loopId, k);
    var top := TopNodes(v.t.nodes);
    TopsShifted(a, b, k, v.t, loopId);
    OverridesAlike(js, a, 0, b, 0, top, d);
    var own := TemplateDefaults(js, a, v.t, d);
    TopsAlike(js, card, a, b, top, own);
    LoopsRemoved(js, card, a, b, k, v.t, loopId, v.t.nodes, own);
    var tops := Tops(js, card, a, top, own);
    WithoutOfTwo(tops, Loops(js, card, a, v.t, v.t.nodes, own), loopId, k);
    ElsewhereStays(tops, loopId, k);
  }
}
