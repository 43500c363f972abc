/**
 What the promotion planner promises: it writes exactly the free slots its entities aim at, the
 first entity winning; the iteration of an application is its rank whatever the input order; and
 planning again after applying a plan writes nothing.
 */
module PromotionLaws {
  import opened Wrappers
  import opened Texts
  import opened Promotion

  // ── Ranks ─────────────────────────────────────────────────────────────────

  /** How many applications sort before this one. */
  function Rank(apps: set<Text>, app: Text): nat {
    |set x | x in apps && Less(x, app)|
  }

  lemma RankStep(s: set<Text>, m: Text, y: Text)
    requires IsLeast(s, m) && y in s && y != m
    ensures Rank(s, y) == Rank(s - {m}, y) + 1
  {
    hide Less;
    var below := set x | x in s - {m} && Less(x, y);
    assert (set x | x in s && Less(x, y)) == below + {m};
    assert m !in below;
  }

  lemma RankOfLeast(s: set<Text>, m: Text)
    requires IsLeast(s, m)
    ensures Rank(s, m) == 0
  {
    hide Less;
    forall x | x in s ensures !Less(x, m) {
      LessIsTotal(x, m);
    }
    assert (set x | x in s && Less(x, m)) == {};
  }

  lemma {:induction false} SortedRank(s: set<Text>, i: nat)
    requires i < |Sorted(s)|
    ensures Rank(s, Sorted(s)[i]) == i
  {
    hide Less, Rank, IsLeast;
    var m := Least(s);
    if i == 0 {
      RankOfLeast(s, m);
    } else {
      SortedRank(s - {m}, i - 1);
      RankStep(s, m, Sorted(s)[i]);
    }
  }

  lemma {:induction false} SortedLength(s: set<Text>)
    ensures |Sorted(s)| == |s|
  {
    if s == {} {
    } else {
      SortedLength(s - {Least(s)});
    }
  }

  lemma RankIsIndex(s: set<Text>, app: Text)
    requires app in s
    ensures Rank(s, app) < |Sorted(s)| == |s| && Sorted(s)[Rank(s, app)] == app
  {
    hide Rank;
    SortedLength(s);
    var i :| 0 <= i < |Sorted(s)| && Sorted(s)[i] == app;
    SortedRank(s, i);
  }

  // ── What an entity aims at ────────────────────────────────────────────────

  /** The slot an entity asks for, told without any sorting or bucketing. */
  function Aim(t: Bindings, es: seq<Entity>, e: Entity): Option<Slot> {
    if InBody(t, e) then
      Some(Slot(t.bodies[e.slug].nodeId, Rank(Apps(t, es, t.bodies[e.slug].loopId), AppKey(e))))
    else if AtTop(t, e) && t.tops[e.slug] != [] then Some(Slot(t.tops[e.slug], 0))
    else None
  }

  predicate Asks(t: Bindings, es: seq<Entity>, e: Entity, w: Write) {
    e in es && Aim(t, es, e) == Some(w.slot) && e.value == w.value
  }

  ghost predicate FromBody(t: Bindings, group: seq<Entity>, iter: nat, w: Write) {
    exists e :: e in group && InBody(t, e) && w == Write(Slot(t.bodies[e.slug].nodeId, iter), e.value)
  }

  lemma {:induction false} BatchMembers(t: Bindings, group: seq<Entity>, iter: nat, w: Write)
    ensures w in Batch(t, group, iter) <==> FromBody(t, group, iter, w)
  {
    if group == [] {
    } else {
      var init := group[..|group| - 1];
      assert group == init + [group[|group| - 1]];
      BatchMembers(t, init, iter, w);
    }
  }

  lemma {:induction false} LoopBatchMembers(t: Bindings, es: seq<Entity>, loop: Text, n: nat, w: Write)
    requires n <= |Sorted(Apps(t, es, loop))|
    ensures w in LoopBatches(t, es, loop, n)
            <==> w.slot.iter < n && FromBody(t, Group(t, es, loop, Sorted(Apps(t, es, loop))[w.slot.iter]), w.slot.iter, w)
  {
    hide Batch, Apps, Group;
    if n == 0 {
    } else {
      LoopBatchMembers(t, es, loop, n - 1, w);
      BatchMembers(t, Group(t, es, loop, Sorted(Apps(t, es, loop))[n - 1]), n - 1, w);
    }
  }

  ghost predicate AskedIn(t: Bindings, es: seq<Entity>, loop: Text, w: Write) {
    exists e :: InLoop(t, e, loop) && Asks(t, es, e, w)
  }

  /** The candidates of one loop are what its entities ask for. */
  lemma LoopAsks(t: Bindings, es: seq<Entity>, loop: Text, w: Write)
    ensures w in LoopBatches(t, es, loop, |Sorted(Apps(t, es, loop))|) <==> AskedIn(t, es, loop, w)
  {
    hide LoopBatches, Rank, AppKey;
    var apps := Apps(t, es, loop);
    var n := |Sorted(apps)|;
    LoopBatchMembers(t, es, loop, n, w);
    forall e | InLoop(t, e, loop) && e in es
      ensures Rank(apps, AppKey(e)) < n && Sorted(apps)[Rank(apps, AppKey(e))] == AppKey(e)
    {
      RankIsIndex(apps, AppKey(e));
    }
    if w in LoopBatches(t, es, loop, n) {
      var iter := w.slot.iter;
      SortedRank(apps, iter);
      var e :| e in Group(t, es, loop, Sorted(apps)[iter]) && InBody(t, e) && w == Write(Slot(t.bodies[e.slug].nodeId, iter), e.value);
      assert InLoop(t, e, loop) && Asks(t, es, e, w);
    }
  }

  lemma {:induction false} LoopCandidatesMembers(t: Bindings, es: seq<Entity>, loops: seq<Text>, w: Write)
    ensures w in LoopCandidates(t, es, loops) <==> exists l :: l in loops && AskedIn(t, es, l, w)
  {
    hide LoopBatches, AskedIn, Apps;
    if loops == [] {
    } else {
      var init := loops[..|loops| - 1];
      assert loops == init + [loops[|loops| - 1]];
      LoopCandidatesMembers(t, es, init, w);
      LoopAsks(t, es, loops[|loops| - 1], w);
    }
  }

  lemma {:induction false} TopCandidatesMembers(t: Bindings, tops: seq<Entity>, w: Write)
    ensures w in TopCandidates(t, tops) <==>
      exists e :: e in tops && e.slug in t.tops && t.tops[e.slug] != [] && w == Write(Slot(t.tops[e.slug], 0), e.value)
  {
    if tops == [] {
    } else {
      var init := tops[..|tops| - 1];
      assert tops == init + [tops[|tops| - 1]];
      TopCandidatesMembers(t, init, w);
    }
  }

  /** Nothing is proposed but what some entity aims at, and everything an entity aims at is proposed. */
  lemma CandidatesAreAims(t: Bindings, es: seq<Entity>, w: Write)
    ensures w in Candidates(t, es) <==> exists e :: Asks(t, es, e, w)
  {
    hide LoopCandidates, TopCandidates, Rank, Apps;
    LoopCandidatesMembers(t, es, Loops(t, es), w);
    TopCandidatesMembers(t, Tops(t, es), w);
    if w in LoopCandidates(t, es, Loops(t, es)) {
      var l :| l in Loops(t, es) && AskedIn(t, es, l, w);
      var e :| InLoop(t, e, l) && Asks(t, es, e, w);
    } else if w in TopCandidates(t, Tops(t, es)) {
      var e :| e in Tops(t, es) && e.slug in t.tops && t.tops[e.slug] != [] && w == Write(Slot(t.tops[e.slug], 0), e.value);
      assert Asks(t, es, e, w);
    }
    if e :| Asks(t, es, e, w) && InBody(t, e) {
      var l := t.bodies[e.slug].loopId;
      assert InLoop(t, e, l);
      assert l in Loops(t, es) && AskedIn(t, es, l, w);
    }
  }

  // ── What is admitted ──────────────────────────────────────────────────────

  lemma {:induction false} Admitted(cs: seq<Write>, taken: set<Slot>)
    ensures var r := Admit(cs, taken);
            && Slots(r) == Slots(cs) - taken
            && (forall w :: w in r ==> w in cs)
            && (forall i, j :: 0 <= i < j < |r| ==> r[i].slot != r[j].slot)
  {
    if cs == [] {
    } else {
      var init := cs[..|cs| - 1];
      var c := cs[|cs| - 1];
      assert cs == init + [c];
      Admitted(init, taken);
      var r := Admit(init, taken);
      SlotsOfOneMore(init, c);
      SlotsOfOneMore(r, c);
      assert forall i :: 0 <= i < |r| ==> r[i] in r;
    }
  }

  /** The slots some entity aims at. */
  function Aims(t: Bindings, es: seq<Entity>): set<Slot> {
    set e | e in es && Aim(t, es, e).Some? :: Aim(t, es, e).value
  }

  lemma SlotsOfCandidates(t: Bindings, es: seq<Entity>)
    ensures Slots(Candidates(t, es)) == Aims(t, es)
  {
    hide Candidates, Aim;
    forall s ensures s in Slots(Candidates(t, es)) <==> s in Aims(t, es) {
      if s in Slots(Candidates(t, es)) {
        var w :| w in Candidates(t, es) && w.slot == s;
        CandidatesAreAims(t, es, w);
        var e :| Asks(t, es, e, w);
        assert e in es && Aim(t, es, e) == Some(s);
      }
      if s in Aims(t, es) {
        var e :| e in es && Aim(t, es, e) == Some(s);
        var w := Write(s, e.value);
        assert Asks(t, es, e, w);
        CandidatesAreAims(t, es, w);
      }
    }
  }

  /** The plan writes exactly the free slots that entities aim at, each once, each with the value of
      an entity that aims there; so it never touches an existing answer. */
  lemma PlanFillsFreeAims(t: Bindings, es: seq<Entity>, existing: set<Slot>)
    ensures var ws := PlanOf(t, es, existing).writes;
            && Slots(ws) == Aims(t, es) - existing
            && (forall i, j :: 0 <= i < j < |ws| ==> ws[i].slot != ws[j].slot)
            && (forall w :: w in ws ==> exists e :: Asks(t, es, e, w))
  {
    hide Candidates, Admit, Aims, Asks, Slots;
    Admitted(Candidates(t, es), existing);
    SlotsOfCandidates(t, es);
    forall w | w in PlanOf(t, es, existing).writes ensures exists e :: Asks(t, es, e, w) {
      CandidatesAreAims(t, es, w);
    }
  }

  lemma SomeWriteSomeSlot(ws: seq<Write>)
    ensures ws != [] ==> Slots(ws) != {}
  {
    if ws != [] {
      assert ws[0].slot in Slots(ws);
    }
  }

  /** After a plan is applied, planning again writes nothing. */
  lemma ReplanningWritesNothing(t: Bindings, es: seq<Entity>, existing: set<Slot>)
    ensures PlanOf(t, es, existing + Slots(PlanOf(t, es, existing).writes)).writes == []
  {
    hide Candidates, Admit, Aims, Asks;
    var after := existing + Slots(PlanOf(t, es, existing).writes);
    PlanFillsFreeAims(t, es, existing);
    PlanFillsFreeAims(t, es, after);
    assert Aims(t, es) - after == {};
    SomeWriteSomeSlot(PlanOf(t, es, after).writes);
  }

  /** Input order never decides which slots are answered, nor the iteration of an application. */
  lemma OrderDoesNotMoveSlots(t: Bindings, es: seq<Entity>, fs: seq<Entity>, existing: set<Slot>)
    requires multiset(es) == multiset(fs)
    ensures Slots(PlanOf(t, es, existing).writes) == Slots(PlanOf(t, fs, existing).writes)
    ensures forall e :: e in es ==> Aim(t, es, e) == Aim(t, fs, e)
  {
    hide Candidates, Admit, AppKey, Rank, Asks, Slots, InLoop;
    assert forall e :: e in es <==> e in multiset(es);
    assert forall e :: e in fs <==> e in multiset(fs);
    forall l ensures Apps(t, es, l) == Apps(t, fs, l) {
    }
    assert forall e :: Aim(t, es, e) == Aim(t, fs, e);
    PlanFillsFreeAims(t, es, existing);
    PlanFillsFreeAims(t, fs, existing);
  }

  /** Iterations are dense: below the number of its applications, every iteration of a loop ends up
      with an answer in the loop's body. */
  lemma EveryIterationIsAnswered(t: Bindings, es: seq<Entity>, existing: set<Slot>, loop: Text, iter: nat)
    requires iter < |Apps(t, es, loop)|
    ensures exists slug :: slug in t.bodies && t.bodies[slug].loopId == loop
              && Slot(t.bodies[slug].nodeId, iter) in existing + Slots(PlanOf(t, es, existing).writes)
  {
    hide Candidates, Admit, AppKey, Rank, Asks, Slots;
    var apps := Apps(t, es, loop);
    SortedLength(apps);
    SortedRank(apps, iter);
    var app := Sorted(apps)[iter];
    assert app in apps;
    var e :| e in es && InLoop(t, e, loop) && AppKey(e) == app;
    assert Aim(t, es, e) == Some(Slot(t.bodies[e.slug].nodeId, iter));
    assert Slot(t.bodies[e.slug].nodeId, iter) in Aims(t, es);
    PlanFillsFreeAims(t, es, existing);
  }

  // ── The first entity wins ─────────────────────────────────────────────────

  /** A node belongs to one loop, or to the top level. */
  ghost predicate Consistent(t: Bindings) {
    && (forall a, b :: a in t.bodies && b in t.bodies && t.bodies[a].nodeId == t.bodies[b].nodeId ==> t.bodies[a].loopId == t.bodies[b].loopId)
    && (forall a, b :: a in t.bodies && b in t.tops ==> t.bodies[a].nodeId != t.tops[b])
  }

  /** The value of the first candidate for a slot. */
  function First(cs: seq<Write>, slot: Slot): Option<real> {
    if cs == [] then None
    else
      var r := First(cs[..|cs| - 1], slot);
      if r.Some? then r else if cs[|cs| - 1].slot == slot then Some(cs[|cs| - 1].value) else None
  }

  lemma {:induction false} FirstOfTwo(a: seq<Write>, b: seq<Write>, slot: Slot)
    ensures First(a + b, slot) == if First(a, slot).Some? then First(a, slot) else First(b, slot)
  {
    if b == [] {
      assert a + b == a;
    } else {
      assert (a + b)[..|a + b| - 1] == a + b[..|b| - 1];
      FirstOfTwo(a, b[..|b| - 1], slot);
    }
  }

  lemma {:induction false} FirstAbsent(cs: seq<Write>, slot: Slot)
    ensures First(cs, slot).None? <==> slot !in Slots(cs)
  {
    if cs == [] {
    } else {
      var init := cs[..|cs| - 1];
      assert cs == init + [cs[|cs| - 1]];
      SlotsOfOneMore(init, cs[|cs| - 1]);
      FirstAbsent(init, slot);
    }
  }

  lemma {:induction false} AdmittedFirst(cs: seq<Write>, taken: set<Slot>)
    ensures forall w :: w in Admit(cs, taken) ==> First(cs, w.slot) == Some(w.value)
  {
    if cs == [] {
    } else {
      var init := cs[..|cs| - 1];
      var c := cs[|cs| - 1];
      AdmittedFirst(init, taken);
      Admitted(init, taken);
      FirstAbsent(init, c.slot);
    }
  }

  /** The value of the first entity of the input that aims at a slot. */
  function FirstAim(t: Bindings, all: seq<Entity>, es: seq<Entity>, slot: Slot): Option<real> {
    if es == [] then None
    else
      var r := FirstAim(t, all, es[..|es| - 1], slot);
      if r.Some? then r else if Aim(t, all, es[|es| - 1]) == Some(slot) then Some(es[|es| - 1].value) else None
  }

  /** Every body slot of this node is in this loop, and no top-level slug names it. */
  ghost predicate Owns(t: Bindings, loop: Text, node: Text) {
    && (forall a :: a in t.bodies && t.bodies[a].nodeId == node ==> t.bodies[a].loopId == loop)
    && (forall b :: b in t.tops ==> t.tops[b] != node)
  }

  lemma OtherLoop(t: Bindings, es: seq<Entity>, loop: Text, other: Text, slot: Slot)
    requires Owns(t, loop, slot.nodeId) && other != loop
    ensures First(LoopBatches(t, es, other, |Sorted(Apps(t, es, other))|), slot) == None
  {
    hide LoopBatches, Apps, Rank, First;
    var cs := LoopBatches(t, es, other, |Sorted(Apps(t, es, other))|);
    FirstAbsent(cs, slot);
    if w :| w in cs && w.slot == slot {
      LoopAsks(t, es, other, w);
    }
  }

  lemma {:induction false} OneIteration(t: Bindings, es: seq<Entity>, loop: Text, n: nat, slot: Slot)
    requires n <= |Sorted(Apps(t, es, loop))|
    ensures First(LoopBatches(t, es, loop, n), slot)
            == if slot.iter < n then First(Batch(t, Group(t, es, loop, Sorted(Apps(t, es, loop))[slot.iter]), slot.iter), slot) else None
  {
    hide Apps, Group, Batch;
    if n == 0 {
    } else {
      hide First, Slots;
      var batch := Batch(t, Group(t, es, loop, Sorted(Apps(t, es, loop))[n - 1]), n - 1);
      OneIteration(t, es, loop, n - 1, slot);
      FirstOfTwo(LoopBatches(t, es, loop, n - 1), batch, slot);
      OtherIteration(t, Group(t, es, loop, Sorted(Apps(t, es, loop))[n - 1]), n - 1, slot);
    }
  }

  lemma OtherIteration(t: Bindings, group: seq<Entity>, iter: nat, slot: Slot)
    ensures slot.iter != iter ==> First(Batch(t, group, iter), slot) == None
  {
    hide Batch, First;
    FirstAbsent(Batch(t, group, iter), slot);
    if w :| w in Batch(t, group, iter) && w.slot == slot {
      BatchMembers(t, group, iter, w);
    }
  }

  lemma {:induction false} OneLoop(t: Bindings, es: seq<Entity>, loops: seq<Text>, loop: Text, slot: Slot)
    requires Owns(t, loop, slot.nodeId)
    requires forall i, j :: 0 <= i < j < |loops| ==> loops[i] != loops[j]
    ensures First(LoopCandidates(t, es, loops), slot)
            == if loop in loops then First(LoopBatches(t, es, loop, |Sorted(Apps(t, es, loop))|), slot) else None
  {
    hide Apps, LoopBatches, Owns;
    if loops == [] {
    } else {
      var init := loops[..|loops| - 1];
      var last := loops[|loops| - 1];
      assert loops == init + [last];
      OneLoop(t, es, init, loop, slot);
      FirstOfTwo(LoopCandidates(t, es, init), LoopBatches(t, es, last, |Sorted(Apps(t, es, last))|), slot);
      if last != loop {
        OtherLoop(t, es, loop, last, slot);
      }
    }
  }

  /** Within the one batch that can fill a slot, input order is kept. */
  lemma {:induction false} BatchFirst(t: Bindings, all: seq<Entity>, es: seq<Entity>, loop: Text, slot: Slot)
    requires Owns(t, loop, slot.nodeId) && slot.iter < |Sorted(Apps(t, all, loop))|
    requires forall e :: e in es ==> e in all
    ensures First(Batch(t, Group(t, es, loop, Sorted(Apps(t, all, loop))[slot.iter]), slot.iter), slot) == FirstAim(t, all, es, slot)
  {
    hide Apps, AppKey, Rank;
    if es == [] {
    } else {
      var init := es[..|es| - 1];
      var e := es[|es| - 1];
      assert es == init + [e];
      BatchFirst(t, all, init, loop, slot);
      var app := Sorted(Apps(t, all, loop))[slot.iter];
      var g := Group(t, init, loop, app);
      SortedRank(Apps(t, all, loop), slot.iter);
      if InLoop(t, e, loop) {
        assert AppKey(e) in Apps(t, all, loop) by { InApps(t, all, e, loop); }
        RankIsIndex(Apps(t, all, loop), AppKey(e));
      }
      if InGroup(t, e, loop, app) {
        assert (g + [e])[..|g|] == g;
        assert Group(t, es, loop, app) == g + [e];
        FirstOfOneMore(Batch(t, g, slot.iter), Write(Slot(t.bodies[e.slug].nodeId, slot.iter), e.value), slot);
      } else {
        assert Group(t, es, loop, app) == g;
      }
    }
  }

  lemma FirstOfOneMore(cs: seq<Write>, c: Write, slot: Slot)
    ensures First(cs + [c], slot)
            == if First(cs, slot).Some? then First(cs, slot) else if c.slot == slot then Some(c.value) else None
  {
    assert (cs + [c])[..|cs|] == cs;
  }

  lemma InApps(t: Bindings, es: seq<Entity>, e: Entity, loop: Text)
    requires e in es && InLoop(t, e, loop)
    ensures AppKey(e) in Apps(t, es, loop)
  {
    hide AppKey, InLoop;
  }

  ghost predicate TopOnly(t: Bindings, slot: Slot) {
    slot.nodeId != [] && slot.iter == 0 && forall a :: a in t.bodies ==> t.bodies[a].nodeId != slot.nodeId
  }

  lemma {:induction false} TopFirst(t: Bindings, all: seq<Entity>, es: seq<Entity>, slot: Slot)
    requires TopOnly(t, slot)
    ensures First(TopCandidates(t, Tops(t, es)), slot) == FirstAim(t, all, es, slot)
  {
    hide Rank, Apps;
    if es == [] {
    } else {
      hide First;
      var e := es[|es| - 1];
      TopFirst(t, all, es[..|es| - 1], slot);
      var r := Tops(t, es[..|es| - 1]);
      if AtTop(t, e) {
        assert Tops(t, es) == r + [e] && (r + [e])[..|r|] == r;
        if t.tops[e.slug] != [] {
          FirstOfOneMore(TopCandidates(t, r), Write(Slot(t.tops[e.slug], 0), e.value), slot);
        } else {
          assert TopCandidates(t, r + [e]) == TopCandidates(t, r);
        }
      } else {
        assert Tops(t, es) == r;
      }
    }
  }

  /** Every planned value is that of the first entity of the input that aims at its slot. */
  lemma FirstEntityWins(t: Bindings, es: seq<Entity>, existing: set<Slot>, w: Write)
    requires Consistent(t) && w in PlanOf(t, es, existing).writes
    ensures FirstAim(t, es, es, w.slot) == Some(w.value)
  {
    hide LoopCandidates, TopCandidates, Admit, First, FirstAim, Rank, Apps, AppKey, LoopBatches, Batch, Group, Slots;
    var slot := w.slot;
    AdmittedFirst(Candidates(t, es), existing);
    Admitted(Candidates(t, es), existing);
    CandidatesAreAims(t, es, w);
    FirstOfTwo(LoopCandidates(t, es, Loops(t, es)), TopCandidates(t, Tops(t, es)), slot);
    var e :| Asks(t, es, e, w);
    if InBody(t, e) {
      var loop := t.bodies[e.slug].loopId;
      assert InLoop(t, e, loop) && loop in Loops(t, es);
      assert Owns(t, loop, slot.nodeId);
      NotTop(t, es, loop, slot);
      OneLoop(t, es, Loops(t, es), loop, slot);
      OneIteration(t, es, loop, |Sorted(Apps(t, es, loop))|, slot);
      InApps(t, es, e, loop);
      RankIsIndex(Apps(t, es, loop), AppKey(e));
      BatchFirst(t, es, es, loop, slot);
    } else {
      TopFirst(t, es, es, slot);
      NotInLoops(t, es, slot);
    }
  }

  lemma NotTop(t: Bindings, es: seq<Entity>, loop: Text, slot: Slot)
    requires Owns(t, loop, slot.nodeId)
    ensures First(TopCandidates(t, Tops(t, es)), slot) == None
  {
    hide First, TopCandidates;
    FirstAbsent(TopCandidates(t, Tops(t, es)), slot);
    if w :| w in TopCandidates(t, Tops(t, es)) && w.slot == slot {
      TopCandidatesMembers(t, Tops(t, es), w);
    }
  }

  lemma NotInLoops(t: Bindings, es: seq<Entity>, slot: Slot)
    requires TopOnly(t, slot)
    ensures First(LoopCandidates(t, es, Loops(t, es)), slot) == None
  {
    hide First, LoopCandidates, Rank, Apps;
    FirstAbsent(LoopCandidates(t, es, Loops(t, es)), slot);
    if w :| w in LoopCandidates(t, es, Loops(t, es)) && w.slot == slot {
      LoopCandidatesMembers(t, es, Loops(t, es), w);
    }
  }

  // ── Conservation ──────────────────────────────────────────────────────────

  function Sum(m: map<Text, nat>, keys: set<Text>): nat
    requires keys <= m.Keys
  {
    if keys == {} then 0 else m[Least(keys)] + Sum(m, keys - {Least(keys)})
  }

  lemma {:induction false} SumTakesAny(m: map<Text, nat>, keys: set<Text>, k: Text)
    requires keys <= m.Keys && k in keys
    ensures Sum(m, keys) == m[k] + Sum(m, keys - {k})
  {
    hide Less;
    var l := Least(keys);
    if k != l {
      SumTakesAny(m, keys - {l}, k);
      assert IsLeast(keys - {k}, l);
      LeastIsUnique(keys - {k});
      assert keys - {k} - {l} == keys - {l} - {k};
    }
  }

  lemma {:induction false} SumIgnores(m: map<Text, nat>, keys: set<Text>, k: Text, v: nat)
    requires keys <= m.Keys && k !in keys
    ensures Sum(m[k := v], keys) == Sum(m, keys)
  {
    if keys == {} {
    } else {
      SumIgnores(m, keys - {Least(keys)}, k, v);
    }
  }

  /** How many entities find a binding. */
  function Routed(t: Bindings, es: seq<Entity>): nat {
    if es == [] then 0
    else Routed(t, es[..|es| - 1]) + if IsStale(t, es[|es| - 1]) then 0 else 1
  }

  /** Every entity is either routed to a binding or counted as stale under its own slug. */
  lemma {:induction false} NoEntityIsLost(t: Bindings, es: seq<Entity>)
    ensures Sum(Stale(t, es), Stale(t, es).Keys) + Routed(t, es) == |es|
    ensures forall s :: s in Stale(t, es) <==> exists e :: e in es && IsStale(t, e) && e.slug == s
  {
    hide Sum;
    if es == [] {
      assert Stale(t, es).Keys == {};
      EmptySum();
    } else {
      var init, e := es[..|es| - 1], es[|es| - 1];
      assert es == init + [e];
      NoEntityIsLost(t, init);
      var m := Stale(t, init);
      var m' := Stale(t, es);
      if IsStale(t, e) {
        var rest := m.Keys - {e.slug};
        assert m'.Keys == m.Keys + {e.slug} && m'.Keys - {e.slug} == rest;
        SumTakesAny(m', m'.Keys, e.slug);
        SumIgnores(m, rest, e.slug, m'[e.slug]);
        if e.slug in m {
          SumTakesAny(m, m.Keys, e.slug);
        } else {
          assert rest == m.Keys;
        }
      }
    }
  }

  lemma EmptySum()
    ensures Sum(map[], {}) == 0
  {
  }
}
