/** What each mutation of the taxonomy accepts and what it does to the table, written out. */
module CategoryMeaning {
  import opened Wrappers
  import opened Categories

  /** A lower-case letter, then lower-case letters, digits and underscores. */
  predicate GoodSlug(s: string) {
    && |s| > 0 && 'a' <= s[0] <= 'z'
    && forall i :: 0 <= i < |s| ==> 'a' <= s[i] <= 'z' || '0' <= s[i] <= '9' || s[i] == '_'
  }

  predicate GoodName(name: string) {
    1 <= |name| <= 120
  }

  /** An active category of its own, under no other. */
  ghost predicate IsTop(rows: seq<Row>, slug: string) {
    exists r :: r in rows && !r.archived && r.slug == slug && r.parent == None
  }

  ghost predicate IsTaken(rows: seq<Row>, slug: string) {
    exists r :: r in rows && !r.archived && r.slug == slug
  }

  ghost predicate IsParent(rows: seq<Row>, slug: string) {
    exists r :: r in rows && !r.archived && r.parent == Some(slug)
  }

  lemma QueriesMean(rows: seq<Row>, slug: string)
    ensures HasTopLevel(rows, slug) <==> IsTop(rows, slug)
    ensures Exists(rows, slug) <==> IsTaken(rows, slug)
    ensures HasChildren(rows, slug) <==> IsParent(rows, slug)
  {
    assert forall r :: r in rows <==> exists i :: 0 <= i < |rows| && rows[i] == r;
  }

  lemma SlugMeans(s: string)
    ensures SlugFormat(s) <==> GoodSlug(s)
  {
  }

  /** A creation fails with the first of its errors, and otherwise adds one active row at the end. */
  lemma CreateMeans(rows: seq<Row>, c: Creation)
    ensures Created(rows, c) ==
      if !GoodSlug(c.slug) then Err(InvalidSlugFormat)
      else if !GoodName(c.name) then Err(InvalidName)
      else if c.parent == Some(c.slug) then Err(CannotParentToSelf)
      else if c.parent != None && c.parent != Some("") && !IsTop(rows, c.parent.value) then Err(ParentNotFoundOrNotTopLevel)
      else if IsTaken(rows, c.slug) then Err(SlugAlreadyExists)
      else Ok(rows + [Row(c.slug, c.name, c.parent, match c.position case Some(p) => p case None => 0, false)])
  {
    hide HasTopLevel, Exists, IsTop, IsTaken, SlugFormat, GoodSlug;
    SlugMeans(c.slug);
    QueriesMean(rows, c.slug);
    if c.parent.Some? {
      QueriesMean(rows, c.parent.value);
    }
  }

  /** A field given replaces the row's own. */
  predicate Edited(r: Row, c: Change, s: Row) {
    && s.slug == r.slug && s.archived == r.archived
    && (match c.name case Some(name) => s.name == name case None => s.name == r.name)
    && (match c.parent case Some(parent) => s.parent == parent case None => s.parent == r.parent)
    && (match c.position case Some(position) => s.position == position case None => s.position == r.position)
  }

  /** An update of an active category fails with the first of its errors, and otherwise edits its row and
      no other. */
  lemma UpdateMeans(rows: seq<Row>, slug: string, c: Change)
    ensures !IsTaken(rows, slug) <==> Updated(rows, slug, c) == Err(CategoryNotFound)
    ensures IsTaken(rows, slug) ==>
      if c.name != None && !GoodName(c.name.value) then Updated(rows, slug, c) == Err(InvalidName)
      else if c.parent == Some(Some(slug)) then Updated(rows, slug, c) == Err(CannotParentToSelf)
      else if c.parent != None && c.parent.value != None && !IsTop(rows, c.parent.value.value) then
        Updated(rows, slug, c) == Err(ParentNotFoundOrNotTopLevel)
      else if c.parent != None && c.parent.value != None && IsParent(rows, slug) then
        Updated(rows, slug, c) == Err(CannotDemoteCategoryWithChildren)
      else if c.name == None && c.parent == None && c.position == None then Updated(rows, slug, c) == Err(NoFieldsToUpdate)
      else Updated(rows, slug, c).Ok?
    ensures Updated(rows, slug, c).Ok? ==> exists i, s :: 0 <= i < |rows| && IsFirst(rows, slug, i) && Edited(rows[i], c, s)
                                             && Updated(rows, slug, c).value == rows[i := s]
  {
    hide HasTopLevel, HasChildren, IsTop, IsParent, Find;
    FoundMeans(rows, slug);
    QueriesMean(rows, slug);
    if c.parent.Some? && c.parent.value.Some? {
      QueriesMean(rows, c.parent.value.value);
    }
    var i := Find(rows, slug);
    if Updated(rows, slug, c).Ok? {
      assert Edited(rows[i], c, Changed(rows[i], c));
    }
  }

  /** The first active row of the slug. */
  ghost predicate IsFirst(rows: seq<Row>, slug: string, i: nat)
    requires i < |rows|
  {
    && !rows[i].archived && rows[i].slug == slug
    && forall j :: 0 <= j < i ==> rows[j].archived || rows[j].slug != slug
  }

  lemma FoundMeans(rows: seq<Row>, slug: string)
    ensures Find(rows, slug) < |rows| <==> IsTaken(rows, slug)
    ensures Find(rows, slug) < |rows| ==> IsFirst(rows, slug, Find(rows, slug))
  {
    hide Find;
    var i := Find(rows, slug);
    if i < |rows| {
      assert rows[i] in rows;
    }
  }

  /** What an archive takes: the slug itself, and the slugs of its active children when it is on top. */
  ghost predicate Taken(rows: seq<Row>, slug: string, other: string) {
    || other == slug
    || exists i, child :: 0 <= i < |rows| && IsFirst(rows, slug, i) && rows[i].parent == None
         && child in rows && !child.archived && child.parent == Some(slug) && child.slug == other
  }

  lemma FirstOnce(rows: seq<Row>, slug: string, i: nat, j: nat)
    requires i < |rows| && j < |rows| && IsFirst(rows, slug, i) && IsFirst(rows, slug, j)
    ensures i == j
  {
  }

  /** An archive marks the rows of the slugs it takes, and no other row changes; the same slugs lose their
      rules. */
  lemma ArchiveMeans(rows: seq<Row>, slug: string)
    ensures Archived(rows, slug) == Err(CategoryNotFound) <==> !IsTaken(rows, slug)
    ensures IsTaken(rows, slug) ==> Find(rows, slug) < |rows| && forall s :: s in Doomed(rows, slug) <==> Taken(rows, slug, s)
    ensures IsTaken(rows, slug) ==> Archived(rows, slug).Ok? && |Archived(rows, slug).value| == |rows| && forall i :: 0 <= i < |rows| ==>
      Archived(rows, slug).value[i] == if Taken(rows, slug, rows[i].slug) then rows[i].(archived := true) else rows[i]
  {
    hide Find, WithArchived, IsTaken, IsFirst;
    FoundMeans(rows, slug);
    if Find(rows, slug) < |rows| {
      var at := Find(rows, slug);
      forall s ensures s in Doomed(rows, slug) <==> Taken(rows, slug, s) {
        forall i | 0 <= i < |rows| && IsFirst(rows, slug, i) ensures i == at {
          FirstOnce(rows, slug, i, at);
        }
      }
    }
  }

  /** The last item of the list that names the slug. */
  ghost predicate LastItem(items: seq<Place>, slug: string, k: int) {
    && 0 <= k < |items| && items[k].slug == slug
    && forall j :: k < j < |items| ==> items[j].slug != slug
  }

  /** An active row that an item names takes the position of the last such item; any other row stays. */
  ghost predicate Moved(row: Row, items: seq<Place>, r: Row) {
    if row.archived || forall k :: 0 <= k < |items| ==> items[k].slug != row.slug then r == row
    else exists k :: LastItem(items, row.slug, k) && r == row.(position := items[k].position)
  }

  lemma MovedOnce(row: Row, items: seq<Place>, last: Place, r: Row)
    requires Moved(row, items, r)
    ensures Moved(row, items + [last], if !row.archived && row.slug == last.slug then r.(position := last.position) else r)
  {
    var all := items + [last];
    if !row.archived && row.slug == last.slug {
      assert LastItem(all, row.slug, |items|);
    } else if !row.archived && !(forall k :: 0 <= k < |items| ==> items[k].slug != row.slug) {
      var k :| LastItem(items, row.slug, k) && r == row.(position := items[k].position);
      assert LastItem(all, row.slug, k) && all[k].slug == row.slug;
    }
  }

  /** A reorder moves the rows that its items name, the last item of a slug deciding, and no other. */
  lemma {:induction false} ReorderMeans(rows: seq<Row>, items: seq<Place>)
    ensures |Reordered(rows, items)| == |rows| && forall i :: 0 <= i < |rows| ==> Moved(rows[i], items, Reordered(rows, items)[i])
  {
    hide LastItem, Moved;
    if items == [] {
      forall i | 0 <= i < |rows| ensures Moved(rows[i], items, rows[i]) {
        NoItems(rows[i]);
      }
    } else {
      var front, last := items[..|items| - 1], items[|items| - 1];
      assert items == front + [last];
      ReorderMeans(rows, front);
      forall i | 0 <= i < |rows| ensures Moved(rows[i], items, Reordered(rows, items)[i]) {
        var r := Reordered(rows, front)[i];
        MovedOnce(rows[i], front, last, r);
        MovedKeeps(rows[i], front, r);
      }
    }
  }

  lemma NoItems(row: Row)
    ensures Moved(row, [], row)
  {
  }

  lemma MovedKeeps(row: Row, items: seq<Place>, r: Row)
    requires Moved(row, items, r)
    ensures r == row.(position := r.position)
  {
  }

  /** A reset archives every row there is, keeping its place, and adds the template's rows behind them. */
  lemma ResetMeans(rows: seq<Row>, template: Option<seq<TemplateRow>>)
    ensures template == None <==> Reset(rows, template) == Err(UnknownTemplate)
    ensures template != None ==> Reset(rows, template).Ok? && |Reset(rows, template).value| == |rows| + |template.value|
    ensures template != None ==> forall i :: 0 <= i < |rows| ==> Reset(rows, template).value[i] == rows[i].(archived := true)
    ensures template != None ==> forall i :: 0 <= i < |template.value| ==>
      Reset(rows, template).value[|rows| + i]
      == Row(template.value[i].slug, template.value[i].name, template.value[i].parent, template.value[i].position, false)
  {
  }

  /** A tree that shows the table lists the active categories on top, and under every parent but the empty
      one its active children, each list in order of position. */
  lemma TreeShows(t: Tree, rows: seq<Row>)
    requires Shows(t, rows)
    ensures forall r :: r in t.topLevel <==> r in rows && !r.archived && r.parent == None
    ensures forall p, r :: p in t.childrenByParent ==> (r in t.childrenByParent[p] <==> r in rows && !r.archived && r.parent == Some(p))
    ensures forall p :: p in t.childrenByParent <==> p != "" && IsParent(rows, p)
    ensures forall i, k :: 0 <= i < k < |t.topLevel| ==> t.topLevel[i].position <= t.topLevel[k].position
    ensures forall p, i, k :: p in t.childrenByParent && 0 <= i < k < |t.childrenByParent[p]| ==>
      t.childrenByParent[p][i].position <= t.childrenByParent[p][k].position
  {
    hide Tops, ChildrenOf, HasChildren;
    forall r ensures r in t.topLevel <==> r in Tops(rows) {
      assert r in multiset(t.topLevel) <==> r in multiset(Tops(rows));
    }
    forall p, r | p in t.childrenByParent ensures r in t.childrenByParent[p] <==> r in ChildrenOf(rows, p) {
      assert r in multiset(t.childrenByParent[p]) <==> r in multiset(ChildrenOf(rows, p));
    }
    forall p ensures HasChildren(rows, p) <==> IsParent(rows, p) {
      QueriesMean(rows, p);
    }
  }
}
