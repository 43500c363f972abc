/** What the scope summary shows, group by group and item by item, in terms of the entities alone. */
module SummaryMeaning {
  import opened Wrappers
  import opened Permutations
  import opened ScopeSummary
  import opened ScopeSummaryLaws

  // ── Which entities ────────────────────────────────────────────────────────

  /** An entity survives at the floor or above it, if its slug is on the card. */
  lemma SurvivorsInOrder(card: Card, floor: real, es: seq<Entity>, e: Entity)
    ensures Known(card, floor, []) == []
    ensures Known(card, floor, es + [e]) == Known(card, floor, es) + if floor <= e.confidence && e.slug in card then [e] else []
  {
    assert (es + [e])[..|es|] == es;
  }

  /** The entity is of this domain and this application; "__solo__" when it names none. */
  predicate Under(card: Card, e: Entity, d: Domain, app: string) {
    && e.slug in card && card[e.slug].domain == d
    && match e.appId
       case Some(id) => id == app
       case None => app == "__solo__"
  }

  /** The name its application is shown under: an empty one counts as none. */
  ghost predicate Goes(card: Card, e: Entity, d: Domain, name: string) {
    exists app :: Under(card, e, d, app) && name == if app == "" then "__solo__" else app
  }

  function Those(card: Card, es: seq<Entity>, d: Domain, app: string): (r: seq<Entity>)
    ensures forall e :: e in r <==> e in es && Under(card, e, d, app)
  {
    if es == [] then []
    else
      assert es == es[..|es| - 1] + [es[|es| - 1]];
      Those(card, es[..|es| - 1], d, app) + if Under(card, es[|es| - 1], d, app) then [es[|es| - 1]] else []
  }

  lemma KeyIsUnder(card: Card, e: Entity, d: Domain, app: string)
    requires e.slug in card
    ensures KeyOf(card, e) == Key(d, app) <==> Under(card, e, d, app)
  {
  }

  lemma {:induction false} EntriesAreThose(card: Card, es: seq<Entity>, d: Domain, app: string)
    requires OnCard(card, es)
    ensures EntriesAt(card, es, Key(d, app)) == Those(card, es, d, app)
  {
    hide KeyOf, Under;
    if es == [] {
    } else {
      EntriesAreThose(card, es[..|es| - 1], d, app);
      KeyIsUnder(card, es[|es| - 1], d, app);
    }
  }

  // ── Items ─────────────────────────────────────────────────────────────────

  /** No methodology, or an empty one, no subtitle. */
  predicate Captioned(e: Entity, s: Option<Subtitle>) {
    match e.methodology
    case None => s == None
    case Some(m) => if m == "" then s == None else s == Some(Subtitle(m, e.customerType))
  }

  /** The first entity that has a methodology, or the first of all when none has. */
  predicate Leads(es: seq<Entity>, k: int) {
    && 0 <= k < |es|
    && (forall j :: 0 <= j < k ==> es[j].methodology == None)
    && (es[k].methodology == None ==> k == 0 && forall j :: 0 <= j < |es| ==> es[j].methodology == None)
  }

  lemma {:induction false} FirstSomeMeans(es: seq<Entity>)
    requires exists i :: 0 <= i < |es| && es[i].methodology.Some?
    ensures exists k :: 0 <= k < |es| && es[k] == FirstSome(es) && es[k].methodology.Some? && forall j :: 0 <= j < k ==> es[j].methodology == None
  {
    if es[0].methodology.Some? {
    } else {
      var rest := es[1..];
      var i :| 0 <= i < |es| && es[i].methodology.Some?;
      assert rest[i - 1] == es[i];
      FirstSomeMeans(rest);
      var k :| 0 <= k < |rest| && rest[k] == FirstSome(rest) && rest[k].methodology.Some? && forall j :: 0 <= j < k ==> rest[j].methodology == None;
      assert es[k + 1] == rest[k];
      forall j | 0 <= j < k + 1 ensures es[j].methodology == None {
        assert j > 0 ==> es[j] == rest[j - 1];
      }
    }
  }

  lemma LeadMeans(es: seq<Entity>)
    requires es != []
    ensures exists k :: Leads(es, k) && es[k] == FirstWithMethodology(es)
  {
    if exists i :: 0 <= i < |es| && es[i].methodology.Some? {
      FirstSomeMeans(es);
      var k :| 0 <= k < |es| && es[k] == FirstSome(es) && es[k].methodology.Some? && forall j :: 0 <= j < k ==> es[j].methodology == None;
      assert Leads(es, k);
    } else {
      assert Leads(es, 0);
    }
  }

  /** Each source file once, in order of appearance; no name, no file. */
  lemma FilesInOrder(es: seq<Entity>, e: Entity)
    ensures Files([]) == []
    ensures Files(es + [e]) == Files(es) + match e.sourceFile
      case None => []
      case Some(f) => if f == "" || f in Files(es) then [] else [f]
  {
    assert (es + [e])[..|es|] == es;
  }

  lemma ConfidenceAdds(es: seq<Entity>, e: Entity)
    ensures SumConfidence([]) == 0.0 && SumConfidence(es + [e]) == SumConfidence(es) + e.confidence
  {
    assert (es + [e])[..|es|] == es;
  }

  /** The one item of an application: a bullet for each entity in order, the average confidence. */
  ghost predicate AppItem(card: Card, es: seq<Entity>, app: string, item: Item)
    requires OnCard(card, es)
  {
    && item.title == OfApp(app) && item.sourceFiles == Files(es)
    && |item.bullets| == |es| && (forall i :: 0 <= i < |es| ==> item.bullets[i] == Bullet(card[es[i].slug].driverLabel, es[i].scope))
    && (exists k :: Leads(es, k) && Captioned(es[k], item.subtitle))
    && item.confidence * |es| as real == SumConfidence(es)
  }

  /** The item of an entity without an application. */
  ghost predicate OwnItem(card: Card, e: Entity, item: Item)
    requires e.slug in card
  {
    && item.title == OfLine(e.slug) && Captioned(e, item.subtitle) && item.confidence == e.confidence
    && item.bullets == [Bullet(card[e.slug].driverLabel, e.scope)]
    && item.sourceFiles == match e.sourceFile case None => [] case Some(f) => if f == "" then [] else [f]
  }

  lemma CollatedMeans(card: Card, es: seq<Entity>, app: string)
    requires es != [] && OnCard(card, es)
    ensures AppItem(card, es, app, Collated(card, es, app))
  {
    hide FirstWithMethodology, Files, SumConfidence, Leads;
    LeadMeans(es);
    Quotient(SumConfidence(es), |es| as real);
  }

  lemma Quotient(x: real, y: real)
    requires y != 0.0
    ensures (x / y) * y == x
  {
  }

  lemma SoloMeans(card: Card, e: Entity)
    requires e.slug in card
    ensures OwnItem(card, e, SoloItem(card, e))
  {
    FilesInOrder([], e);
    assert [] + [e] == [e];
  }

  lemma {:induction false} SolosMean(card: Card, es: seq<Entity>)
    requires OnCard(card, es)
    ensures |SoloItems(card, es)| == |es| && forall i :: 0 <= i < |es| ==> OwnItem(card, es[i], SoloItems(card, es)[i])
  {
    hide SoloItem, OwnItem;
    if es == [] {
    } else {
      SolosMean(card, es[..|es| - 1]);
      SoloMeans(card, es[|es| - 1]);
    }
  }

  // ── Buckets ───────────────────────────────────────────────────────────────

  /** Nothing under the other application, or its first entity comes earlier. */
  ghost predicate ComesLater(card: Card, es: seq<Entity>, d: Domain, app: string, other: string) {
    Those(card, es, d, other) == []
    || forall i :: 0 <= i < |es| && Under(card, es[i], d, app) ==> exists j :: 0 <= j < i && Under(card, es[j], d, other)
  }

  /** The application whose entities a name shows: its own; for those without one, the empty or the absent
      one, whichever appears later. */
  ghost predicate ShownFor(card: Card, es: seq<Entity>, d: Domain, name: string, app: string) {
    if name != "__solo__" then app == name
    else (app == "" && ComesLater(card, es, d, "", "__solo__")) || (app == "__solo__" && ComesLater(card, es, d, "__solo__", ""))
  }

  /** The items under one name: one for an application, one for each entity that has none. */
  ghost predicate BucketShows(card: Card, es: seq<Entity>, d: Domain, name: string, part: seq<Item>) {
    exists app :: ShownFor(card, es, d, name, app) && Those(card, es, d, app) != [] && PartShows(card, Those(card, es, d, app), name, part)
  }

  ghost predicate PartShows(card: Card, those: seq<Entity>, name: string, part: seq<Item>) {
    && OnCard(card, those)
    && if name == "__solo__" then |part| == |those| && forall i :: 0 <= i < |those| ==> OwnItem(card, those[i], part[i])
       else |part| == 1 && AppItem(card, those, name, part[0])
  }

  lemma PartMeans(card: Card, those: seq<Entity>, name: string)
    requires those != [] && OnCard(card, those)
    ensures PartShows(card, those, name, BucketItems(card, those, name))
  {
    hide Collated, SoloItems, OwnItem, AppItem;
    if name == SOLO {
      SolosMean(card, those);
    } else {
      CollatedMeans(card, those, name);
    }
  }

  lemma KeyHasEntity(card: Card, es: seq<Entity>, a: nat)
    requires OnCard(card, es) && a < |Keys(card, es)|
    ensures exists j :: 0 <= j < |es| && KeyOf(card, es[j]) == Keys(card, es)[a]
  {
    hide KeyOf, Keys;
    assert Keys(card, es)[a] in Keys(card, es);
    var e :| e in es && KeyOf(card, e) == Keys(card, es)[a];
    var j :| 0 <= j < |es| && es[j] == e;
  }

  lemma EntityHasKey(card: Card, es: seq<Entity>, i: nat)
    requires OnCard(card, es) && i < |es|
    ensures KeyOf(card, es[i]) in Keys(card, es)
  {
    hide KeyOf, Keys;
    assert es[i] in es;
  }

  /** Bucket keys appear in the order of their first entities. */
  lemma {:induction false} KeysByFirst(card: Card, es: seq<Entity>, a: nat, b: nat, i: nat)
    requires OnCard(card, es) && a < b < |Keys(card, es)| && i < |es| && KeyOf(card, es[i]) == Keys(card, es)[b]
    ensures exists j :: 0 <= j < i && KeyOf(card, es[j]) == Keys(card, es)[a]
  {
    hide KeyOf, Keys;
    var front, last := es[..|es| - 1], es[|es| - 1];
    assert es == front + [last];
    KeysStep(card, front, last);
    assert forall k :: 0 <= k < |front| ==> front[k] == es[k];
    if i < |front| {
      EntityHasKey(card, front, i);
      KeyOnce(card, es, b);
      assert b < |Keys(card, front)|;
      KeysByFirst(card, front, a, b, i);
    } else {
      KeyHasEntity(card, front, a);
    }
  }

  /** A key stands where it first appeared, and nowhere else. */
  lemma {:induction false} KeyOnce(card: Card, es: seq<Entity>, b: nat)
    requires OnCard(card, es) && b < |Keys(card, es)|
    ensures Keys(card, es)[b] !in Keys(card, es)[..b]
  {
    hide KeyOf;
    if es == [] {
    } else {
      var front, last := es[..|es| - 1], es[|es| - 1];
      assert es == front + [last];
      var keys := Keys(card, front);
      if b < |keys| {
        KeyOnce(card, front, b);
        assert Keys(card, es)[..b] == keys[..b];
      } else {
        assert Keys(card, es)[..b] == keys;
      }
    }
  }

  lemma {:induction false} WinnerIsLast(keys: seq<Key>, d: Domain, name: string, a: nat)
    requires a < |keys| && keys[a].domain == d && Name(keys[a]) == name
    ensures exists b :: a <= b < |keys| && Winner(keys, d, name) == keys[b]
  {
    hide Name;
    var n := |keys| - 1;
    assert keys == keys[..n] + [keys[n]];
    if keys[n].domain == d && Name(keys[n]) == name {
      assert Winner(keys, d, name) == keys[n];
    } else {
      assert keys[..n][a] == keys[a];
      WinnerIsLast(keys[..n], d, name, a);
      var b :| a <= b < n && Winner(keys[..n], d, name) == keys[..n][b];
      assert keys[b] == keys[..n][b];
    }
  }

  lemma WinnerComesLater(card: Card, es: seq<Entity>, d: Domain, app: string, other: string)
    requires OnCard(card, es) && SOLO in Names(Keys(card, es), d)
    requires Winner(Keys(card, es), d, SOLO) == Key(d, app) && Name(Key(d, other)) == SOLO && app != other
    ensures ComesLater(card, es, d, app, other)
  {
    hide Keys, Names, Winner, KeyOf, Under;
    var keys := Keys(card, es);
    if Those(card, es, d, other) != [] {
      var e := Those(card, es, d, other)[0];
      assert e in Those(card, es, d, other);
      KeyIsUnder(card, e, d, other);
      assert Key(d, other) in keys;
      var a :| 0 <= a < |keys| && keys[a] == Key(d, other);
      WinnerIsLast(keys, d, SOLO, a);
      var b :| a <= b < |keys| && keys[b] == Key(d, app);
      forall i | 0 <= i < |es| && Under(card, es[i], d, app) ensures exists j :: 0 <= j < i && Under(card, es[j], d, other) {
        assert es[i] in es;
        KeyIsUnder(card, es[i], d, app);
        KeysByFirst(card, es, a, b, i);
        var j :| 0 <= j < i && KeyOf(card, es[j]) == keys[a];
        assert es[j] in es;
        KeyIsUnder(card, es[j], d, other);
      }
    }
  }

  lemma BucketMeans(card: Card, es: seq<Entity>, d: Domain, name: string)
    requires OnCard(card, es) && name in Names(Keys(card, es), d)
    ensures BucketShows(card, es, d, name, BucketItems(card, Entries(card, es, d, name), name))
  {
    hide Keys, Names, Winner, Those, EntriesAt, BucketItems, PartShows, ComesLater;
    var w := Winner(Keys(card, es), d, name);
    EntriesAreThose(card, es, d, w.app);
    PartMeans(card, Entries(card, es, d, name), name);
    if name == SOLO {
      WinnerComesLater(card, es, d, w.app, if w.app == "" then SOLO else "");
    }
    assert ShownFor(card, es, d, name, w.app);
  }

  // ── Groups ────────────────────────────────────────────────────────────────

  function Joined(parts: seq<seq<Item>>): seq<Item> {
    if parts == [] then [] else Joined(parts[..|parts| - 1]) + parts[|parts| - 1]
  }

  /** The items of a domain are those of its names, one name after the other. */
  ghost predicate Shelves(card: Card, es: seq<Entity>, d: Domain, names: seq<string>, parts: seq<seq<Item>>, items: seq<Item>) {
    && |parts| == |names| && items == Joined(parts)
    && forall i :: 0 <= i < |names| ==> BucketShows(card, es, d, names[i], parts[i])
  }

  lemma ShelvesNext(card: Card, es: seq<Entity>, d: Domain, names: seq<string>, parts: seq<seq<Item>>, items: seq<Item>, name: string, part: seq<Item>)
    requires Shelves(card, es, d, names, parts, items) && BucketShows(card, es, d, name, part)
    ensures Shelves(card, es, d, names + [name], parts + [part], items + part)
  {
    hide BucketShows;
    assert (parts + [part])[..|parts|] == parts;
  }

  lemma ItemsNext(card: Card, es: seq<Entity>, d: Domain, names: seq<string>, name: string)
    requires OnCard(card, es) && forall n :: n in names + [name] ==> n in Names(Keys(card, es), d)
    ensures name in names + [name]
    ensures DomainItems(card, es, d, names + [name]) == DomainItems(card, es, d, names) + BucketItems(card, Entries(card, es, d, name), name)
  {
    hide Keys, Names, BucketItems, Entries;
    assert (names + [name])[..|names|] == names;
  }

  lemma {:induction false} DomainMeans(card: Card, es: seq<Entity>, d: Domain, names: seq<string>)
    requires OnCard(card, es) && forall n :: n in names ==> n in Names(Keys(card, es), d)
    ensures exists parts :: Shelves(card, es, d, names, parts, DomainItems(card, es, d, names))
  {
    hide Keys, Names, BucketItems, BucketShows, Entries;
    if names == [] {
      assert Shelves(card, es, d, names, [], DomainItems(card, es, d, names));
    } else {
      hide Shelves, DomainItems;
      var front, last := names[..|names| - 1], names[|names| - 1];
      assert names == front + [last];
      DomainMeans(card, es, d, front);
      ItemsNext(card, es, d, front, last);
      BucketMeans(card, es, d, last);
      var parts :| Shelves(card, es, d, front, parts, DomainItems(card, es, d, front));
      ShelvesNext(card, es, d, front, parts, DomainItems(card, es, d, front), last, BucketItems(card, Entries(card, es, d, last), last));
    }
  }

  /** A strict order on names, which the locale comparison is. */
  ghost predicate IsOrder(less: (string, string) -> bool) {
    && (forall a, b :: less(a, b) ==> !less(b, a))
    && (forall a, b, c :: less(a, b) && less(b, c) ==> less(a, c))
    && (forall a, b :: a == b || less(a, b) || less(b, a))
  }

  /** Applications in the order of their names, those without one last. */
  ghost predicate InNameOrder(less: (string, string) -> bool, names: seq<string>) {
    forall i, j :: 0 <= i < j < |names| ==> names[i] != "__solo__" && (names[j] == "__solo__" || less(names[i], names[j]))
  }

  predicate Follows(less: (string, string) -> bool, a: string, b: string) {
    a != "__solo__" && (b == "__solo__" || less(a, b))
  }

  lemma AppendInOrder(less: (string, string) -> bool, names: seq<string>, last: string)
    requires InNameOrder(less, names) && forall n :: n in names ==> Follows(less, n, last)
    ensures InNameOrder(less, names + [last])
  {
    assert forall i :: 0 <= i < |names| ==> names[i] in names;
  }

  lemma FrontInOrder(less: (string, string) -> bool, names: seq<string>, last: string)
    requires InNameOrder(less, names + [last])
    ensures InNameOrder(less, names) && forall n :: n in names ==> Follows(less, n, last)
  {
    var all := names + [last];
    assert forall i :: 0 <= i < |names| ==> all[i] == names[i];
    assert all[|names|] == last;
  }

  lemma Chained(less: (string, string) -> bool, a: string, b: string, c: string)
    requires IsOrder(less)
    ensures Follows(less, a, b) && Follows(less, b, c) ==> Follows(less, a, c)
    ensures a != b && !Comes(less, a, b) ==> Follows(less, b, a)
    ensures Comes(less, a, b) ==> Follows(less, a, b)
  {
  }

  lemma {:induction false} InsertInOrder(less: (string, string) -> bool, a: string, sorted: seq<string>)
    requires IsOrder(less) && InNameOrder(less, sorted) && a !in sorted
    ensures InNameOrder(less, Insert(less, a, sorted))
  {
    hide IsOrder, Comes, Follows;
    if sorted == [] {
    } else {
      hide InNameOrder;
      var n := |sorted| - 1;
      var front, last := sorted[..n], sorted[n];
      assert sorted == front + [last];
      FrontInOrder(less, front, last);
      forall x | x in front {
        Chained(less, x, last, a);
      }
      Chained(less, a, last, a);
      if Comes(less, a, last) {
        InsertInOrder(less, a, front);
        forall x | x in Insert(less, a, front) ensures Follows(less, x, last) {
          assert x in multiset(Insert(less, a, front));
        }
        AppendInOrder(less, Insert(less, a, front), last);
      } else {
        AppendInOrder(less, sorted, a);
      }
    }
  }

  lemma {:induction false} SortInOrder(less: (string, string) -> bool, names: seq<string>)
    requires IsOrder(less) && Distinct(names)
    ensures InNameOrder(less, Sort(less, names))
  {
    hide IsOrder, InNameOrder, Insert;
    if names == [] {
      NothingInOrder(less);
    } else {
      var front, last := names[..|names| - 1], names[|names| - 1];
      SortInOrder(less, front);
      SortKeeps(less, front);
      assert last !in front;
      InsertInOrder(less, last, Sort(less, front));
    }
  }

  lemma NothingInOrder(less: (string, string) -> bool)
    ensures InNameOrder(less, [])
  {
  }

  lemma NamesMean(card: Card, es: seq<Entity>, d: Domain, name: string)
    requires OnCard(card, es)
    ensures name in Names(Keys(card, es), d) <==> exists e :: e in es && Goes(card, e, d, name)
  {
    hide Keys, Names;
    var keys := Keys(card, es);
    if name in Names(keys, d) {
      var k :| k in keys && k.domain == d && Name(k) == name;
      var e :| e in es && KeyOf(card, e) == k;
      assert Under(card, e, d, k.app);
      assert Goes(card, e, d, name);
    }
    if e :| e in es && Goes(card, e, d, name) {
      var app :| Under(card, e, d, app) && name == if app == "" then SOLO else app;
      assert KeyOf(card, e) == Key(d, app);
    }
  }

  /** A domain's group: the names of its entities in order, each with its items. */
  ghost predicate GroupShows(card: Card, es: seq<Entity>, less: (string, string) -> bool, g: Group) {
    exists names, parts ::
      && Shelves(card, es, g.domain, names, parts, g.items) && Distinct(names)
      && (forall n :: n in names <==> exists e :: e in es && Goes(card, e, g.domain, n))
      && (IsOrder(less) ==> InNameOrder(less, names))
  }

  lemma GroupMeans(card: Card, es: seq<Entity>, less: (string, string) -> bool, d: Domain)
    requires OnCard(card, es)
    ensures GroupShows(card, es, less, GroupOf(card, es, less, d)) && GroupOf(card, es, less, d).domain == d
  {
    hide Keys, Names, Sort, DomainItems, Shelves, Goes, IsOrder, InNameOrder;
    var names := Names(Keys(card, es), d);
    SortKeeps(less, names);
    SortedDistinct(less, names);
    DomainMeans(card, es, d, Sort(less, names));
    forall n ensures n in names <==> exists e :: e in es && Goes(card, e, d, n) {
      NamesMean(card, es, d, n);
    }
    if IsOrder(less) {
      SortInOrder(less, names);
    }
    var parts :| Shelves(card, es, d, Sort(less, names), parts, DomainItems(card, es, d, Sort(less, names)));
    assert GroupOf(card, es, less, d).items == DomainItems(card, es, d, Sort(less, names));
  }

  /** Web applications, interfaces, iOS, Android, network, cloud, and the rest. */
  function Place(d: Domain): nat {
    match d
    case WebApp => 0
    case Api => 1
    case MobileIos => 2
    case MobileAndroid => 3
    case Network => 4
    case Cloud => 5
    case Other => 6
  }

  /** Some entity on the card is of the domain. */
  ghost predicate Has(card: Card, es: seq<Entity>, d: Domain) {
    exists e :: e in es && e.slug in card && card[e.slug].domain == d
  }

  /** The groups of the first n domains. */
  ghost predicate GroupsShow(card: Card, es: seq<Entity>, less: (string, string) -> bool, n: nat, groups: seq<Group>) {
    && (forall i :: 0 <= i < |groups| ==> GroupShows(card, es, less, groups[i]) && Place(groups[i].domain) < n)
    && (forall i, j :: 0 <= i < j < |groups| ==> Place(groups[i].domain) < Place(groups[j].domain))
    && (forall e :: e in es && e.slug in card && Place(card[e.slug].domain) < n ==>
          exists i :: 0 <= i < |groups| && groups[i].domain == card[e.slug].domain)
    && (forall i :: 0 <= i < |groups| ==> Has(card, es, groups[i].domain))
  }

  lemma SomeName(card: Card, es: seq<Entity>, d: Domain)
    requires OnCard(card, es)
    ensures Names(Keys(card, es), d) != [] <==> Has(card, es, d)
  {
    hide Keys, Names;
    var names := Names(Keys(card, es), d);
    if names != [] {
      assert names[0] in names;
      var k :| k in Keys(card, es) && k.domain == d;
      var e :| e in es && KeyOf(card, e) == k;
    }
    if e :| e in es && e.slug in card && card[e.slug].domain == d {
      assert KeyOf(card, e) in Keys(card, es);
      assert Name(KeyOf(card, e)) in names;
    }
  }

  lemma SamePlace(a: Domain, b: Domain)
    ensures Place(a) == Place(b) <==> a == b
  {
  }

  lemma GroupsNext(card: Card, es: seq<Entity>, less: (string, string) -> bool, d: Domain, groups: seq<Group>, g: Group)
    requires GroupsShow(card, es, less, Place(d), groups) && GroupShows(card, es, less, g) && g.domain == d
    ensures GroupsShow(card, es, less, Place(d) + 1, if Has(card, es, d) then groups + [g] else groups)
  {
    hide GroupShows, Place, Has;
    forall x ensures Place(x) == Place(d) <==> x == d {
      SamePlace(x, d);
    }
    var r := if Has(card, es, d) then groups + [g] else groups;
    forall e | e in es && e.slug in card && Place(card[e.slug].domain) < Place(d) + 1
      ensures exists i :: 0 <= i < |r| && r[i].domain == card[e.slug].domain
    {
      if card[e.slug].domain == d {
        HasOne(card, es, d, e);
        assert r[|groups|] == g;
      } else {
        var i :| 0 <= i < |groups| && groups[i].domain == card[e.slug].domain;
        assert r[i] == groups[i];
      }
    }
  }

  lemma HasOne(card: Card, es: seq<Entity>, d: Domain, e: Entity)
    requires e in es && e.slug in card && card[e.slug].domain == d
    ensures Has(card, es, d)
  {
  }

  lemma OneMoreDomain(card: Card, es: seq<Entity>, less: (string, string) -> bool, domains: seq<Domain>, d: Domain)
    requires OnCard(card, es)
    ensures var groups := Groups(card, es, less, domains);
      Groups(card, es, less, domains + [d]) == if Has(card, es, d) then groups + [GroupOf(card, es, less, d)] else groups
  {
    hide Keys, Names, GroupOf, Has;
    SomeName(card, es, d);
    assert (domains + [d])[..|domains|] == domains;
  }

  lemma DomainAt(n: nat)
    requires 0 < n <= 7
    ensures |DOMAINS| == 7 && DOMAINS[..n] == DOMAINS[..n - 1] + [DOMAINS[n - 1]] && Place(DOMAINS[n - 1]) == n - 1
  {
  }

  lemma NoGroups(card: Card, es: seq<Entity>, less: (string, string) -> bool)
    requires OnCard(card, es)
    ensures GroupsShow(card, es, less, 0, Groups(card, es, less, []))
  {
  }

  lemma {:induction false} GroupsMean(card: Card, es: seq<Entity>, less: (string, string) -> bool, n: nat)
    requires OnCard(card, es) && n <= 7 == |DOMAINS|
    ensures GroupsShow(card, es, less, n, Groups(card, es, less, DOMAINS[..n]))
  {
    hide *;
    if n == 0 {
      NoGroups(card, es, less);
      assert DOMAINS[..0] == [];
    } else {
      var d := DOMAINS[n - 1];
      DomainAt(n);
      GroupsMean(card, es, less, n - 1);
      GroupMeans(card, es, less, d);
      OneMoreDomain(card, es, less, DOMAINS[..n - 1], d);
      GroupsNext(card, es, less, d, Groups(card, es, less, DOMAINS[..n - 1]), GroupOf(card, es, less, d));
    }
  }

  lemma TotalAdds(groups: seq<Group>, g: Group)
    ensures Total([]) == 0 && Total(groups + [g]) == Total(groups) + |g.items|
  {
    assert (groups + [g])[..|groups|] == groups;
  }

  /** The summary: a group for every domain of a surviving entity and no other, in the fixed order of
      domains; the number of items; and whether there are none. */
  lemma SummaryMeans(card: Card, floor: real, less: (string, string) -> bool, es: seq<Entity>)
    ensures var s := SummaryOf(card, floor, less, es);
      GroupsShow(card, Known(card, floor, es), less, 7, s.groups) && s.totalItems == Total(s.groups) && (s.isEmpty <==> s.totalItems == 0)
  {
    hide Known, Groups, GroupsShow;
    GroupsMean(card, Known(card, floor, es), less, 7);
    assert DOMAINS[..7] == DOMAINS;
  }
}
