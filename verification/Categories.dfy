/**
 The two-level category taxonomy of a tenant: a table of rows that are created, updated, archived,
 reordered and replaced, and the tree that is read back from it.
 */
module Categories {
  import opened Wrappers

  // ── Data model ────────────────────────────────────────────────────────────

  /** A row of the table.  Archived rows stay behind. */
  datatype Row = Row(slug: string, name: string, parent: Option<string>, position: int, archived: bool)

  /** Names arrive trimmed. */
  datatype Creation = Creation(slug: string, name: string, parent: Option<string>, position: Option<int>)

  /** A field left out is None; a parent set to null is Some(None). */
  datatype Change = Change(name: Option<string>, parent: Option<Option<string>>, position: Option<int>)

  datatype Place = Place(slug: string, position: int)

  datatype TemplateRow = TemplateRow(slug: string, name: string, parent: Option<string>, position: int)

  datatype Error = InvalidSlugFormat | InvalidName | CannotParentToSelf | ParentNotFoundOrNotTopLevel | SlugAlreadyExists
                 | CategoryNotFound | CannotDemoteCategoryWithChildren | NoFieldsToUpdate | UnknownTemplate

  const MAX_NAME_LEN: nat := 120

  predicate IsLower(c: char) {
    'a' <= c <= 'z'
  }

  predicate SlugFormat(s: string) {
    s != "" && IsLower(s[0]) && forall i :: 0 < i < |s| ==> IsLower(s[i]) || '0' <= s[i] <= '9' || s[i] == '_'
  }

  predicate NameFits(name: string) {
    0 < |name| <= MAX_NAME_LEN
  }

  // ── Queries ───────────────────────────────────────────────────────────────

  predicate Active(r: Row, slug: string) {
    !r.archived && r.slug == slug
  }

  predicate TopLevel(r: Row, slug: string) {
    Active(r, slug) && r.parent == None
  }

  predicate ActiveChild(r: Row, slug: string) {
    !r.archived && r.parent == Some(slug)
  }

  /** The first active row with a slug, or the length. */
  function Find(rows: seq<Row>, slug: string): (i: nat)
    ensures i <= |rows| && (i < |rows| ==> Active(rows[i], slug))
    ensures forall k :: 0 <= k < i ==> !Active(rows[k], slug)
  {
    if rows == [] || Active(rows[0], slug) then 0 else 1 + Find(rows[1..], slug)
  }

  predicate HasTopLevel(rows: seq<Row>, slug: string) {
    exists i :: 0 <= i < |rows| && TopLevel(rows[i], slug)
  }

  predicate HasChildren(rows: seq<Row>, slug: string) {
    exists i :: 0 <= i < |rows| && ActiveChild(rows[i], slug)
  }

  predicate Exists(rows: seq<Row>, slug: string) {
    exists i :: 0 <= i < |rows| && Active(rows[i], slug)
  }

  // ── The two-level invariant ───────────────────────────────────────────────

  /** Active slugs are distinct and not empty, and every active child's parent is active and top-level. */
  ghost predicate TwoLevel(rows: seq<Row>) {
    && (forall i, k :: 0 <= i < k < |rows| && !rows[i].archived && !rows[k].archived ==> rows[i].slug != rows[k].slug)
    && (forall i :: 0 <= i < |rows| && !rows[i].archived ==> Fitting(rows, rows[i]))
  }

  predicate Fitting(rows: seq<Row>, r: Row) {
    r.slug != "" && (r.parent.Some? ==> r.parent.value != "" && HasTopLevel(rows, r.parent.value))
  }

  // ── Mutations on values ───────────────────────────────────────────────────

  function CreationError(rows: seq<Row>, c: Creation): Option<Error> {
    if !SlugFormat(c.slug) then Some(InvalidSlugFormat)
    else if !NameFits(c.name) then Some(InvalidName)
    else if c.parent == Some(c.slug) then Some(CannotParentToSelf)
    else if c.parent.Some? && c.parent.value != "" && !HasTopLevel(rows, c.parent.value) then Some(ParentNotFoundOrNotTopLevel)
    else if Exists(rows, c.slug) then Some(SlugAlreadyExists)
    else None
  }

  function Created(rows: seq<Row>, c: Creation): Result<seq<Row>, Error> {
    var e := CreationError(rows, c);
    if e.Some? then Err(e.value)
    else Ok(rows + [Row(c.slug, c.name, c.parent, if c.position.Some? then c.position.value else 0, false)])
  }

  function ChangeError(rows: seq<Row>, slug: string, c: Change): Option<Error> {
    if c.name.Some? && !NameFits(c.name.value) then Some(InvalidName)
    else if c.parent == Some(Some(slug)) then Some(CannotParentToSelf)
    else if c.parent.Some? && c.parent.value.Some? && !HasTopLevel(rows, c.parent.value.value) then Some(ParentNotFoundOrNotTopLevel)
    else if c.parent.Some? && c.parent.value.Some? && HasChildren(rows, slug) then Some(CannotDemoteCategoryWithChildren)
    else if c == Change(None, None, None) then Some(NoFieldsToUpdate)
    else None
  }

  function Changed(r: Row, c: Change): Row {
    r.(name := if c.name.Some? then c.name.value else r.name,
       parent := if c.parent.Some? then c.parent.value else r.parent,
       position := if c.position.Some? then c.position.value else r.position)
  }

  function Updated(rows: seq<Row>, slug: string, c: Change): Result<seq<Row>, Error> {
    var i := Find(rows, slug);
    if i == |rows| then Err(CategoryNotFound)
    else
      var e := ChangeError(rows, slug, c);
      if e.Some? then Err(e.value) else Ok(rows[i := Changed(rows[i], c)])
  }

  /** The slugs an archive takes down: the category, and the children of a top-level one. */
  function Doomed(rows: seq<Row>, slug: string): set<string>
    requires Find(rows, slug) < |rows|
  {
    {slug} + if rows[Find(rows, slug)].parent == None then (set r | r in rows && ActiveChild(r, slug) :: r.slug) else {}
  }

  function WithArchived(rows: seq<Row>, slugs: set<string>): (r: seq<Row>)
    ensures |r| == |rows|
    ensures forall i :: 0 <= i < |rows| ==> r[i] == if rows[i].slug in slugs then rows[i].(archived := true) else rows[i]
  {
    if rows == [] then []
    else
      var last := rows[|rows| - 1];
      WithArchived(rows[..|rows| - 1], slugs) + [if last.slug in slugs then last.(archived := true) else last]
  }

  lemma ArchiveTwice(rows: seq<Row>, a: set<string>, b: set<string>)
    ensures WithArchived(WithArchived(rows, a), b) == WithArchived(rows, a + b)
  {
    hide WithArchived;
  }

  function Archived(rows: seq<Row>, slug: string): Result<seq<Row>, Error> {
    if Find(rows, slug) == |rows| then Err(CategoryNotFound) else Ok(WithArchived(rows, Doomed(rows, slug)))
  }

  function Placed(rows: seq<Row>, p: Place): (r: seq<Row>)
    ensures |r| == |rows|
    ensures forall i :: 0 <= i < |rows| ==> r[i] == if Active(rows[i], p.slug) then rows[i].(position := p.position) else rows[i]
  {
    if rows == [] then []
    else
      var last := rows[|rows| - 1];
      Placed(rows[..|rows| - 1], p) + [if Active(last, p.slug) then last.(position := p.position) else last]
  }

  function Reordered(rows: seq<Row>, items: seq<Place>): (r: seq<Row>)
    ensures |r| == |rows|
  {
    if items == [] then rows else Placed(Reordered(rows, items[..|items| - 1]), items[|items| - 1])
  }

  function AllArchived(rows: seq<Row>): (r: seq<Row>)
    ensures |r| == |rows| && forall i :: 0 <= i < |rows| ==> r[i] == rows[i].(archived := true)
  {
    if rows == [] then [] else AllArchived(rows[..|rows| - 1]) + [rows[|rows| - 1].(archived := true)]
  }

  function Cloned(template: seq<TemplateRow>): (r: seq<Row>)
    ensures |r| == |template|
    ensures forall i :: 0 <= i < |r| ==> r[i] == Row(template[i].slug, template[i].name, template[i].parent, template[i].position, false)
  {
    if template == [] then []
    else
      var t := template[|template| - 1];
      Cloned(template[..|template| - 1]) + [Row(t.slug, t.name, t.parent, t.position, false)]
  }

  function Reset(rows: seq<Row>, template: Option<seq<TemplateRow>>): Result<seq<Row>, Error> {
    if template.None? then Err(UnknownTemplate) else Ok(AllArchived(rows) + Cloned(template.value))
  }

  // ── The tree ──────────────────────────────────────────────────────────────

  /** What a plain object already answers to: listing a child under one of these fails. */
  const INHERITED: set<string> := {"constructor", "hasOwnProperty", "isPrototypeOf", "propertyIsEnumerable",
    "toLocaleString", "toString", "valueOf", "__defineGetter__", "__defineSetter__", "__lookupGetter__",
    "__lookupSetter__", "__proto__"}

  datatype Tree = Tree(topLevel: seq<Row>, childrenByParent: map<string, seq<Row>>)

  function InsertRow(r: Row, sorted: seq<Row>): (s: seq<Row>)
    ensures multiset(s) == multiset(sorted) + multiset{r}
  {
    if sorted == [] then [r]
    else
      var n := |sorted| - 1;
      assert sorted == sorted[..n] + [sorted[n]];
      if r.position < sorted[n].position then InsertRow(r, sorted[..n]) + [sorted[n]] else sorted + [r]
  }

  /** A stable sort by position. */
  function SortRows(rows: seq<Row>): (s: seq<Row>)
    ensures multiset(s) == multiset(rows)
  {
    if rows == [] then []
    else
      assert rows == rows[..|rows| - 1] + [rows[|rows| - 1]];
      InsertRow(rows[|rows| - 1], SortRows(rows[..|rows| - 1]))
  }

  ghost predicate ByPosition(rows: seq<Row>) {
    forall i, k :: 0 <= i < k < |rows| ==> rows[i].position <= rows[k].position
  }

  lemma InsertBelow(r: Row, sorted: seq<Row>, top: int)
    requires r.position <= top && forall i :: 0 <= i < |sorted| ==> sorted[i].position <= top
    ensures forall i :: 0 <= i < |InsertRow(r, sorted)| ==> InsertRow(r, sorted)[i].position <= top
  {
    hide InsertRow;
    var s := InsertRow(r, sorted);
    forall i | 0 <= i < |s| ensures s[i].position <= top {
      assert s[i] in multiset(s);
      assert s[i] in multiset(sorted) || s[i] == r;
    }
  }

  lemma {:induction false} InsertKeepsOrder(r: Row, sorted: seq<Row>)
    requires ByPosition(sorted)
    ensures ByPosition(InsertRow(r, sorted))
  {
    if sorted == [] {
    } else {
      var n := |sorted| - 1;
      assert sorted == sorted[..n] + [sorted[n]];
      if r.position < sorted[n].position {
        InsertKeepsOrder(r, sorted[..n]);
        InsertBelow(r, sorted[..n], sorted[n].position);
      }
    }
  }

  lemma {:induction false} SortOrders(rows: seq<Row>)
    ensures ByPosition(SortRows(rows))
  {
    if rows == [] {
    } else {
      SortOrders(rows[..|rows| - 1]);
      InsertKeepsOrder(rows[|rows| - 1], SortRows(rows[..|rows| - 1]));
    }
  }

  /** Active rows without a parent. */
  function Tops(rows: seq<Row>): (r: seq<Row>)
    ensures forall x :: x in r <==> x in rows && !x.archived && x.parent == None
  {
    if rows == [] then []
    else
      var last := rows[|rows| - 1];
      assert rows == rows[..|rows| - 1] + [last];
      Tops(rows[..|rows| - 1]) + if !last.archived && last.parent == None then [last] else []
  }

  function ChildrenOf(rows: seq<Row>, parent: string): (r: seq<Row>)
    ensures forall x :: x in r <==> x in rows && ActiveChild(x, parent)
  {
    if rows == [] then []
    else
      var last := rows[|rows| - 1];
      assert rows == rows[..|rows| - 1] + [last];
      ChildrenOf(rows[..|rows| - 1], parent) + if ActiveChild(last, parent) then [last] else []
  }

  predicate Fails(r: Row) {
    !r.archived && r.parent.Some? && r.parent.value in INHERITED
  }

  /** A tree that shows the table: every list complete and in order of position. */
  ghost predicate Shows(t: Tree, rows: seq<Row>) {
    && multiset(t.topLevel) == multiset(Tops(rows)) && ByPosition(t.topLevel)
    && (forall p :: p in t.childrenByParent <==> p != "" && HasChildren(rows, p))
    && (forall p :: p in t.childrenByParent ==>
          multiset(t.childrenByParent[p]) == multiset(ChildrenOf(rows, p)) && ByPosition(t.childrenByParent[p]))
  }

  // ── The table ─────────────────────────────────────────────────────────────

  class Taxonomy {
    var rows: seq<Row>
    /** The categories that routing rules point at. */
    var rules: set<string>

    constructor ()
      ensures rows == [] && rules == {}
    {
      rows, rules := [], {};
    }

    method Create(c: Creation) returns (r: Result<Row, Error>)
      modifies this`rows
      ensures match Created(old(rows), c)
              case Ok(after) => rows == after && r == Ok(rows[|rows| - 1])
              case Err(e) => rows == old(rows) && r == Err(e)
    {
      if !SlugFormat(c.slug) { return Err(InvalidSlugFormat); }
      if |c.name| == 0 || |c.name| > MAX_NAME_LEN { return Err(InvalidName); }
      if c.parent.Some? && c.parent.value != "" && c.parent.value == c.slug { return Err(CannotParentToSelf); }
      if c.parent.Some? && c.parent.value != "" && !HasTopLevel(rows, c.parent.value) { return Err(ParentNotFoundOrNotTopLevel); }
      if Exists(rows, c.slug) { return Err(SlugAlreadyExists); }
      var row := Row(c.slug, c.name, c.parent, if c.position.Some? then c.position.value else 0, false);
      rows := rows + [row];
      return Ok(row);
    }

    method Update(slug: string, c: Change) returns (r: Result<Row, Error>)
      modifies this`rows
      ensures match Updated(old(rows), slug, c)
              case Ok(after) => rows == after && r == Ok(rows[Find(old(rows), slug)])
              case Err(e) => rows == old(rows) && r == Err(e)
    {
      var i := Find(rows, slug);
      if i == |rows| { return Err(CategoryNotFound); }
      var row := rows[i];
      var fields := false;
      if c.name.Some? {
        if |c.name.value| == 0 || |c.name.value| > MAX_NAME_LEN { return Err(InvalidName); }
        row := row.(name := c.name.value);
        fields := true;
      }
      if c.parent.Some? {
        if c.parent.value.Some? {
          if c.parent.value.value == slug { return Err(CannotParentToSelf); }
          if !HasTopLevel(rows, c.parent.value.value) { return Err(ParentNotFoundOrNotTopLevel); }
        }
        if HasChildren(rows, slug) && c.parent.value != None { return Err(CannotDemoteCategoryWithChildren); }
        row := row.(parent := c.parent.value);
        fields := true;
      }
      if c.position.Some? {
        row := row.(position := c.position.value);
        fields := true;
      }
      if !fields { return Err(NoFieldsToUpdate); }
      rows := rows[i := row];
      return Ok(row);
    }

    method ArchiveSlugs(slugs: set<string>)
      modifies this`rows
      ensures rows == WithArchived(old(rows), slugs)
    {
      var after := [];
      for i := 0 to |rows|
        invariant rows == old(rows) && after == WithArchived(rows[..i], slugs)
      {
        assert rows[..i + 1][..i] == rows[..i];
        after := after + [if rows[i].slug in slugs && !rows[i].archived then rows[i].(archived := true) else rows[i]];
      }
      assert rows[..|rows|] == rows;
      rows := after;
    }

    method Archive(slug: string) returns (r: Result<(), Error>)
      modifies this
      ensures match Archived(old(rows), slug)
              case Ok(after) => rows == after && rules == old(rules) - Doomed(old(rows), slug) && r == Ok(())
              case Err(e) => rows == old(rows) && rules == old(rules) && r == Err(e)
    {
      hide Find, WithArchived;
      var i := Find(rows, slug);
      if i == |rows| { return Err(CategoryNotFound); }
      var childSlugs := if rows[i].parent == None then (set r | r in rows && ActiveChild(r, slug) :: r.slug) else {};
      ghost var before := rows;
      ArchiveSlugs({slug});
      ArchiveSlugs(childSlugs);
      ArchiveTwice(before, {slug}, childSlugs);
      rules := rules - ({slug} + childSlugs);
      return Ok(());
    }

    method BulkReorder(items: seq<Place>)
      modifies this`rows
      ensures rows == Reordered(old(rows), items)
    {
      for k := 0 to |items|
        invariant rows == Reordered(old(rows), items[..k])
      {
        assert items[..k + 1][..k] == items[..k];
        rows := Placed(rows, items[k]);
      }
      assert items[..|items|] == items;
    }

    method ResetFromTemplate(template: Option<seq<TemplateRow>>) returns (r: Result<(), Error>)
      modifies this
      ensures match Reset(old(rows), template)
              case Ok(after) => rows == after && rules == {} && r == Ok(())
              case Err(e) => rows == old(rows) && rules == old(rules) && r == Err(e)
    {
      if template.None? { return Err(UnknownTemplate); }
      rows, rules := AllArchived(rows) + Cloned(template.value), {};
      return Ok(());
    }

    /** None when reading the tree fails. */
    method GetTree() returns (tree: Option<Tree>)
      ensures tree == None <==> exists r :: r in rows && Fails(r)
      ensures tree.Some? ==> Shows(tree.value, rows)
    {
      hide ChildrenOf, HasChildren, SortRows, Tops, Fails, ByPosition;
      var children := ChildLists(rows);
      if children.None? {
        return None;
      }
      var sorted: map<string, seq<Row>> := map p | p in children.value :: SortRows(children.value[p]);
      forall p | p in sorted {
        SortOrders(children.value[p]);
      }
      SortOrders(Tops(rows));
      return Some(Tree(SortRows(Tops(rows)), sorted));
    }
  }

  /** The active rows under each parent; None when one of the parents is an inherited name. */
  method ChildLists(rows: seq<Row>) returns (lists: Option<map<string, seq<Row>>>)
    ensures lists == None <==> exists r :: r in rows && Fails(r)
    ensures lists.Some? ==> Listed(rows, lists.value)
  {
    var children: map<string, seq<Row>> := map[];
    for i := 0 to |rows|
      invariant forall r :: r in rows[..i] ==> !Fails(r)
      invariant Listed(rows[..i], children)
    {
      hide Listed;
      var c := rows[i];
      assert rows[..i + 1] == rows[..i] + [c];
      ListedStep(rows[..i], c, children);
      if !c.archived && c.parent.Some? && c.parent.value != "" {
        var p := c.parent.value;
        if p in INHERITED {
          assert Fails(c);
          return None;
        }
        var list := if p in children then children[p] else [];
        children := children[p := list + [c]];
      }
    }
    assert rows[..|rows|] == rows;
    return Some(children);
  }

  ghost predicate Listed(rows: seq<Row>, children: map<string, seq<Row>>) {
    && (forall p :: p in children <==> p != "" && HasChildren(rows, p))
    && (forall p :: p in children ==> children[p] == ChildrenOf(rows, p))
  }

  lemma ListedStep(rows: seq<Row>, c: Row, children: map<string, seq<Row>>)
    requires Listed(rows, children)
    ensures var lists := !c.archived && c.parent.Some? && c.parent.value != "";
            Listed(rows + [c], if lists then
                                 children[c.parent.value := (if c.parent.value in children then children[c.parent.value] else []) + [c]]
                               else children)
  {
    hide HasChildren, ChildrenOf, ActiveChild;
    forall p {
      ChildrenStep(rows, c, p);
    }
  }

  lemma ChildrenStep(rows: seq<Row>, c: Row, p: string)
    ensures HasChildren(rows + [c], p) <==> HasChildren(rows, p) || ActiveChild(c, p)
    ensures ChildrenOf(rows + [c], p) == ChildrenOf(rows, p) + if ActiveChild(c, p) then [c] else []
    ensures !HasChildren(rows, p) ==> ChildrenOf(rows, p) == []
    ensures ActiveChild(c, p) <==> !c.archived && c.parent == Some(p)
  {
    assert (rows + [c])[..|rows|] == rows;
    assert forall i :: 0 <= i < |rows| ==> (rows + [c])[i] == rows[i];
    assert (rows + [c])[|rows|] == c;
    if !HasChildren(rows, p) {
      NoChildren(rows, p);
    }
  }

  lemma {:induction false} NoChildren(rows: seq<Row>, p: string)
    requires forall i :: 0 <= i < |rows| ==> !ActiveChild(rows[i], p)
    ensures ChildrenOf(rows, p) == []
  {
    if rows == [] {
    } else {
      NoChildren(rows[..|rows| - 1], p);
    }
  }
}
