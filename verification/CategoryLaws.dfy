/**
 Every mutation keeps the taxonomy two-level, and then the tree lists each active category exactly
 once; and the two ways in which the tree falls short of the table.
 */
module CategoryLaws {
  import opened Wrappers
  import opened Categories

  // ── Mutations keep two levels ─────────────────────────────────────────────

  /** Top-level rows that stay top-level keep carrying what hangs on them. */
  lemma StillTopLevel(before: seq<Row>, after: seq<Row>, slug: string)
    requires |before| <= |after| && HasTopLevel(before, slug)
    requires forall i :: 0 <= i < |before| && TopLevel(before[i], slug) ==> TopLevel(after[i], slug)
    ensures HasTopLevel(after, slug)
  {
    var i :| 0 <= i < |before| && TopLevel(before[i], slug);
    assert TopLevel(after[i], slug);
  }

  lemma CreateKeepsTwoLevel(rows: seq<Row>, c: Creation)
    requires TwoLevel(rows) && c.parent != Some("") && Created(rows, c).Ok?
    ensures TwoLevel(Created(rows, c).value)
  {
    hide HasTopLevel, SlugFormat, NameFits;
    var after := Created(rows, c).value;
    var n := |rows|;
    assert c.slug != "" by { SlugIsNotEmpty(c.slug); }
    forall i | 0 <= i < |after| && !after[i].archived ensures Fitting(after, after[i]) {
      if i < n {
        assert Fitting(rows, rows[i]);
      }
      if after[i].parent.Some? {
        StillTopLevel(rows, after, after[i].parent.value);
      }
    }
    forall i | 0 <= i < n && !rows[i].archived ensures rows[i].slug != c.slug {
      assert !Active(rows[i], c.slug);
    }
  }

  lemma SlugIsNotEmpty(slug: string)
    requires SlugFormat(slug)
    ensures slug != ""
  {
  }

  lemma UpdateKeepsTwoLevel(rows: seq<Row>, slug: string, c: Change)
    requires TwoLevel(rows) && Updated(rows, slug, c).Ok?
    ensures TwoLevel(Updated(rows, slug, c).value)
  {
    hide HasTopLevel, Find, HasChildren, NameFits;
    var after := Updated(rows, slug, c).value;
    var at := Find(rows, slug);
    forall i | 0 <= i < |after| && !after[i].archived ensures Fitting(after, after[i]) {
      assert Fitting(rows, rows[i]);
      if after[i].parent.Some? {
        var p := after[i].parent.value;
        if i == at && c.parent.Some? {
          ParentIsNamed(rows, p);
          assert p != slug && HasTopLevel(rows, p);
        } else if p == slug && c.parent.Some? && c.parent.value.Some? {
          HasChild(rows, i, slug);
        }
        StillTopLevel(rows, after, p);
      }
    }
  }

  /** Only named slugs are active. */
  lemma ParentIsNamed(rows: seq<Row>, p: string)
    requires TwoLevel(rows)
    ensures HasTopLevel(rows, p) ==> p != ""
  {
    if i :| 0 <= i < |rows| && TopLevel(rows[i], p) {
      assert Fitting(rows, rows[i]);
    }
  }

  lemma HasChild(rows: seq<Row>, i: nat, slug: string)
    requires i < |rows| && ActiveChild(rows[i], slug)
    ensures HasChildren(rows, slug)
  {
  }

  lemma ArchiveKeepsTwoLevel(rows: seq<Row>, slug: string)
    requires TwoLevel(rows) && Archived(rows, slug).Ok?
    ensures TwoLevel(Archived(rows, slug).value)
  {
    hide HasTopLevel, WithArchived, Find;
    var after := Archived(rows, slug).value;
    var doomed := Doomed(rows, slug);
    forall i | 0 <= i < |after| && !after[i].archived ensures Fitting(after, after[i]) {
      assert Fitting(rows, rows[i]);
      if rows[i].parent.Some? {
        DoomedParent(rows, slug, i);
        StillTopLevel(rows, after, rows[i].parent.value);
      }
    }
  }

  /** A row whose parent goes is itself among those that go. */
  lemma DoomedParent(rows: seq<Row>, slug: string, i: nat)
    requires TwoLevel(rows) && Find(rows, slug) < |rows|
    requires i < |rows| && !rows[i].archived && rows[i].parent.Some?
    ensures rows[i].parent.value in Doomed(rows, slug) ==> rows[i].slug in Doomed(rows, slug)
  {
    hide Find;
    var at := Find(rows, slug);
    var p := rows[i].parent.value;
    assert Fitting(rows, rows[i]);
    var k :| 0 <= k < |rows| && TopLevel(rows[k], p);
    if p in Doomed(rows, slug) {
      if p == slug {
        assert k == at;
        assert rows[i] in rows && ActiveChild(rows[i], slug);
      }
    }
  }

  lemma {:induction false} ReorderKeepsTwoLevel(rows: seq<Row>, items: seq<Place>)
    requires TwoLevel(rows)
    ensures TwoLevel(Reordered(rows, items))
  {
    hide HasTopLevel, TwoLevel;
    if items == [] {
    } else {
      ReorderKeepsTwoLevel(rows, items[..|items| - 1]);
      PlaceKeepsTwoLevel(Reordered(rows, items[..|items| - 1]), items[|items| - 1]);
    }
  }

  lemma PlaceKeepsTwoLevel(rows: seq<Row>, p: Place)
    requires TwoLevel(rows)
    ensures TwoLevel(Placed(rows, p))
  {
    hide HasTopLevel, Placed;
    var after := Placed(rows, p);
    forall i | 0 <= i < |after| && !after[i].archived ensures Fitting(after, after[i]) {
      assert Fitting(rows, rows[i]);
      if rows[i].parent.Some? {
        StillTopLevel(rows, after, rows[i].parent.value);
      }
    }
  }

  lemma ResetKeepsTwoLevel(rows: seq<Row>, template: seq<TemplateRow>)
    requires TwoLevel(Cloned(template))
    ensures TwoLevel(Reset(rows, Some(template)).value)
  {
    hide HasTopLevel, AllArchived, Cloned;
    var cloned, archived := Cloned(template), AllArchived(rows);
    var after := archived + cloned;
    forall i | 0 <= i < |after| && !after[i].archived ensures i >= |archived| && Fitting(after, after[i]) {
      assert Fitting(cloned, cloned[i - |archived|]);
      if after[i].parent.Some? {
        LaterTopLevel(archived, cloned, after[i].parent.value);
      }
    }
  }

  lemma LaterTopLevel(a: seq<Row>, b: seq<Row>, slug: string)
    requires HasTopLevel(b, slug)
    ensures HasTopLevel(a + b, slug)
  {
    var i :| 0 <= i < |b| && TopLevel(b[i], slug);
    assert TopLevel((a + b)[|a| + i], slug);
  }

  // ── Every run ─────────────────────────────────────────────────────────────

  datatype Act = Create(c: Creation) | Update(slug: string, change: Change) | Archive(name: string)
               | Reorder(items: seq<Place>) | ResetTo(template: Option<seq<TemplateRow>>)

  function OrElse(r: Result<seq<Row>, Error>, rows: seq<Row>): seq<Row> {
    if r.Ok? then r.value else rows
  }

  /** A rejected mutation changes nothing. */
  function Step(rows: seq<Row>, a: Act): seq<Row> {
    match a
    case Create(c) => OrElse(Created(rows, c), rows)
    case Update(slug, change) => OrElse(Updated(rows, slug, change), rows)
    case Archive(name) => OrElse(Archived(rows, name), rows)
    case Reorder(items) => Reordered(rows, items)
    case ResetTo(template) => OrElse(Reset(rows, template), rows)
  }

  function After(rows: seq<Row>, acts: seq<Act>): seq<Row> {
    if acts == [] then rows else Step(After(rows, acts[..|acts| - 1]), acts[|acts| - 1])
  }

  /** No category is created under an empty parent, and templates are two-level. */
  ghost predicate Legal(a: Act) {
    && (a.Create? ==> a.c.parent != Some(""))
    && (a.ResetTo? && a.template.Some? ==> TwoLevel(Cloned(a.template.value)))
  }

  lemma StepKeepsTwoLevel(rows: seq<Row>, a: Act)
    requires TwoLevel(rows) && Legal(a)
    ensures TwoLevel(Step(rows, a))
  {
    hide TwoLevel, Created, Updated, Archived, Reordered, Cloned;
    match a
    case Create(c) => if Created(rows, c).Ok? { CreateKeepsTwoLevel(rows, c); }
    case Update(slug, change) => if Updated(rows, slug, change).Ok? { UpdateKeepsTwoLevel(rows, slug, change); }
    case Archive(name) => if Archived(rows, name).Ok? { ArchiveKeepsTwoLevel(rows, name); }
    case Reorder(items) => ReorderKeepsTwoLevel(rows, items);
    case ResetTo(template) => if template.Some? { ResetKeepsTwoLevel(rows, template.value); }
  }

  /** Over every legal run, active slugs stay unique and every active child's parent stays active
      and top-level. */
  lemma {:induction false} RunsKeepTwoLevel(rows: seq<Row>, acts: seq<Act>)
    requires TwoLevel(rows) && forall k :: 0 <= k < |acts| ==> Legal(acts[k])
    ensures TwoLevel(After(rows, acts))
  {
    hide TwoLevel, Step, Legal;
    if acts == [] {
    } else {
      RunsKeepTwoLevel(rows, acts[..|acts| - 1]);
      StepKeepsTwoLevel(After(rows, acts[..|acts| - 1]), acts[|acts| - 1]);
    }
  }

  // ── The tree ──────────────────────────────────────────────────────────────

  ghost predicate Mentions(t: Tree, r: Row) {
    r in t.topLevel || exists p :: p in t.childrenByParent && r in t.childrenByParent[p]
  }

  lemma {:induction false} CountTops(rows: seq<Row>, r: Row)
    ensures multiset(Tops(rows))[r] == if !r.archived && r.parent == None then multiset(rows)[r] else 0
  {
    if rows == [] {
    } else {
      assert rows == rows[..|rows| - 1] + [rows[|rows| - 1]];
      CountTops(rows[..|rows| - 1], r);
    }
  }

  lemma {:induction false} CountChildren(rows: seq<Row>, p: string, r: Row)
    ensures multiset(ChildrenOf(rows, p))[r] == if ActiveChild(r, p) then multiset(rows)[r] else 0
  {
    if rows == [] {
    } else {
      assert rows == rows[..|rows| - 1] + [rows[|rows| - 1]];
      CountChildren(rows[..|rows| - 1], p, r);
    }
  }

  lemma {:induction false} ActiveOnce(rows: seq<Row>, r: Row)
    requires forall i, k :: 0 <= i < k < |rows| && !rows[i].archived && !rows[k].archived ==> rows[i].slug != rows[k].slug
    requires r in rows && !r.archived
    ensures multiset(rows)[r] == 1
  {
    var n := |rows| - 1;
    assert rows == rows[..n] + [rows[n]];
    if r in rows[..n] {
      ActiveOnce(rows[..n], r);
    }
  }

  /** Listed at the top level only, or under its own parent only, and there once. */
  ghost predicate ListedOnce(t: Tree, r: Row) {
    if r.parent == None then
      && multiset(t.topLevel)[r] == 1
      && forall p :: p in t.childrenByParent ==> r !in t.childrenByParent[p]
    else
      && r !in t.topLevel
      && r.parent.value in t.childrenByParent && multiset(t.childrenByParent[r.parent.value])[r] == 1
      && (forall p :: p in t.childrenByParent && p != r.parent.value ==> r !in t.childrenByParent[p])
      && exists top :: top in t.topLevel && top.slug == r.parent.value
  }

  /** A two-level table is shown completely: each active category is listed exactly once, a child
      under a listed top-level category, and nothing archived is listed. */
  lemma TreeListsEachActiveOnce(t: Tree, rows: seq<Row>, r: Row)
    requires Shows(t, rows) && TwoLevel(rows) && r in rows
    ensures if r.archived then !Mentions(t, r) else ListedOnce(t, r)
  {
    hide Tops, ChildrenOf, ByPosition, HasTopLevel, HasChildren;
    MentionsIff(t, rows, r);
    CountTops(rows, r);
    forall p | p in t.childrenByParent {
      CountChildren(rows, p, r);
    }
    if !r.archived {
      ActiveOnce(rows, r);
      var i :| 0 <= i < |rows| && rows[i] == r;
      assert Fitting(rows, rows[i]);
      if r.parent.Some? {
        HasChild(rows, i, r.parent.value);
        TopIsListed(t, rows, r.parent.value);
      }
    }
    InMultiset(t, r);
  }

  lemma InMultiset(t: Tree, r: Row)
    ensures r in t.topLevel <==> multiset(t.topLevel)[r] > 0
    ensures forall p :: p in t.childrenByParent ==> (r in t.childrenByParent[p] <==> multiset(t.childrenByParent[p])[r] > 0)
  {
  }

  lemma TopIsListed(t: Tree, rows: seq<Row>, slug: string)
    requires Shows(t, rows) && HasTopLevel(rows, slug)
    ensures exists top :: top in t.topLevel && top.slug == slug
  {
    hide Tops, ChildrenOf, ByPosition;
    var i :| 0 <= i < |rows| && TopLevel(rows[i], slug);
    assert rows[i] in Tops(rows) && rows[i] in multiset(Tops(rows));
    assert rows[i] in multiset(t.topLevel) && rows[i] in t.topLevel;
  }

  /** Whatever the table, a row is in the tree exactly when it is active and its parent is not the
      empty slug. */
  lemma MentionsIff(t: Tree, rows: seq<Row>, r: Row)
    requires Shows(t, rows) && r in rows
    ensures Mentions(t, r) <==> !r.archived && r.parent != Some("")
  {
    hide Tops, ChildrenOf, ByPosition;
    InMultiset(t, r);
    assert r in Tops(rows) <==> r in multiset(Tops(rows));
    assert forall p :: r in ChildrenOf(rows, p) <==> r in multiset(ChildrenOf(rows, p));
    if !r.archived && r.parent.Some? && r.parent.value != "" {
      var i :| 0 <= i < |rows| && rows[i] == r;
      HasChild(rows, i, r.parent.value);
      assert r in ChildrenOf(rows, r.parent.value);
    }
  }

  /** A category created under the empty parent is accepted, and missing from every tree. */
  lemma EmptyParentVanishes(rows: seq<Row>, c: Creation, t: Tree)
    requires Created(rows, c).Ok? && Shows(t, Created(rows, c).value)
    ensures Mentions(t, Created(rows, c).value[|rows|]) <==> c.parent != Some("")
  {
    hide Shows, Mentions, CreationError;
    MentionsIff(t, Created(rows, c).value, Created(rows, c).value[|rows|]);
  }

  lemma EmptyParentIsAccepted()
    ensures Created([], Creation("web", "Web", Some(""), None)) == Ok([Row("web", "Web", Some(""), 0, false)])
  {
    var c := Creation("web", "Web", Some(""), None);
    assert SlugFormat(c.slug) && NameFits(c.name) && !Exists([], c.slug);
    assert [] + [Row("web", "Web", Some(""), 0, false)] == [Row("web", "Web", Some(""), 0, false)];
  }

  /** A legal run after which reading the tree fails: a child of a category called constructor. */
  lemma ConstructorBreaksTheTree()
    ensures var acts := [Create(Creation("constructor", "Constructor", None, None)), Create(Creation("roofing", "Roofing", Some("constructor"), None))];
            && (forall k :: 0 <= k < |acts| ==> Legal(acts[k]))
            && exists r :: r in After([], acts) && Fails(r)
  {
    var top := Creation("constructor", "Constructor", None, None);
    var child := Creation("roofing", "Roofing", Some("constructor"), None);
    var acts := [Create(top), Create(child)];
    assert acts[..1] == [Create(top)] && [Create(top)][..0] == [];
    var one := [Row("constructor", "Constructor", None, 0, false)];
    assert After([], [Create(top)]) == one;
    assert TopLevel(one[0], "constructor");
    var two := one + [Row("roofing", "Roofing", Some("constructor"), 0, false)];
    assert Step(one, Create(child)) == two;
    assert After([], acts) == two;
    assert two[1] in two && Fails(two[1]);
  }
}
