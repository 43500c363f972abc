/**
 The client-facing scope summary: inferred entities above a confidence floor are bucketed by domain
 and application, and every bucket becomes one item or, without an application, one item an entity.
 How a slug is classified and how labels are worded is a parameter or left symbolic.
 */
module ScopeSummary {
  import opened Wrappers

  // ── Data model ────────────────────────────────────────────────────────────

  datatype Domain = WebApp | Api | MobileIos | MobileAndroid | Network | Cloud | Other

  /** The order in which domains are rendered. */
  const DOMAINS: seq<Domain> := [WebApp, Api, MobileIos, MobileAndroid, Network, Cloud, Other]

  datatype Meta = Meta(domain: Domain, driverLabel: string)

  datatype Customer = Internal | External

  datatype Entity = Entity(slug: string, scope: real, methodology: Option<string>, customerType: Customer,
                           confidence: real, appId: Option<string>, sourceFile: Option<string>)

  /** The name of one entity's line, or of an application. */
  datatype Title = OfLine(slug: string) | OfApp(appId: string)

  datatype Subtitle = Subtitle(methodology: string, customerType: Customer)

  datatype Bullet = Bullet(driverLabel: string, scope: real)

  datatype Item = Item(title: Title, subtitle: Option<Subtitle>, bullets: seq<Bullet>, confidence: real, sourceFiles: seq<string>)

  datatype Group = Group(domain: Domain, items: seq<Item>)

  datatype Summary = Summary(groups: seq<Group>, totalItems: nat, isEmpty: bool)

  /** Where an entity is bucketed first: its domain and its application, '__solo__' when absent. */
  datatype Key = Key(domain: Domain, app: string)

  const SOLO := "__solo__"

  /** Slugs on the rate card, classified. */
  type Card = map<string, Meta>

  // ── Buckets ───────────────────────────────────────────────────────────────

  predicate Kept(card: Card, floor: real, e: Entity) {
    e.confidence >= floor && e.slug in card
  }

  function KeyOf(card: Card, e: Entity): Key
    requires e.slug in card
  {
    Key(card[e.slug].domain, if e.appId.Some? then e.appId.value else SOLO)
  }

  /** The entities that survive the floor and are on the card, in input order. */
  function Known(card: Card, floor: real, es: seq<Entity>): (r: seq<Entity>)
    ensures forall e :: e in r <==> e in es && Kept(card, floor, e)
  {
    if es == [] then []
    else
      var init, e := es[..|es| - 1], es[|es| - 1];
      assert es == init + [e];
      Known(card, floor, init) + if Kept(card, floor, e) then [e] else []
  }

  ghost predicate OnCard(card: Card, es: seq<Entity>) {
    forall e :: e in es ==> e.slug in card
  }

  /** Bucket keys in order of first appearance. */
  function Keys(card: Card, es: seq<Entity>): (r: seq<Key>)
    requires OnCard(card, es)
    ensures forall k :: k in r <==> exists e :: e in es && KeyOf(card, e) == k
  {
    if es == [] then []
    else
      var init, e := es[..|es| - 1], es[|es| - 1];
      assert es == init + [e];
      var r := Keys(card, init);
      if KeyOf(card, e) in r then r else r + [KeyOf(card, e)]
  }

  function EntriesAt(card: Card, es: seq<Entity>, key: Key): (r: seq<Entity>)
    requires OnCard(card, es)
    ensures forall e :: e in r <==> e in es && KeyOf(card, e) == key
  {
    if es == [] then []
    else
      var init, e := es[..|es| - 1], es[|es| - 1];
      assert es == init + [e];
      EntriesAt(card, init, key) + if KeyOf(card, e) == key then [e] else []
  }

  /** A bucket's name within its domain: an empty application counts as none. */
  function Name(k: Key): string {
    if k.app == "" then SOLO else k.app
  }

  /** The names within one domain, in order of first appearance. */
  function Names(keys: seq<Key>, domain: Domain): (r: seq<string>)
    ensures forall n :: n in r <==> exists k :: k in keys && k.domain == domain && Name(k) == n
    ensures forall i, j :: 0 <= i < j < |r| ==> r[i] != r[j]
  {
    if keys == [] then []
    else
      var init, k := keys[..|keys| - 1], keys[|keys| - 1];
      assert keys == init + [k];
      var r := Names(init, domain);
      if k.domain != domain || Name(k) in r then r else r + [Name(k)]
  }

  /** The bucket that ends up under a name: the last one set. */
  function Winner(keys: seq<Key>, domain: Domain, name: string): (w: Key)
    requires exists k :: k in keys && k.domain == domain && Name(k) == name
    ensures w in keys && w.domain == domain && Name(w) == name
  {
    var init, k := keys[..|keys| - 1], keys[|keys| - 1];
    assert keys == init + [k];
    if k.domain == domain && Name(k) == name then k else Winner(init, domain, name)
  }

  // ── Sorting names ─────────────────────────────────────────────────────────

  /** Named applications first, by a locale comparison that is a parameter; the solo bucket last. */
  predicate Comes(less: (string, string) -> bool, a: string, b: string) {
    a != SOLO && (b == SOLO || less(a, b))
  }

  function Insert(less: (string, string) -> bool, a: string, sorted: seq<string>): (r: seq<string>)
    ensures multiset(r) == multiset(sorted) + multiset{a}
  {
    if sorted == [] then [a]
    else
      var n := |sorted| - 1;
      assert sorted == sorted[..n] + [sorted[n]];
      if Comes(less, a, sorted[n]) then Insert(less, a, sorted[..n]) + [sorted[n]] else sorted + [a]
  }

  /** A stable sort. */
  function Sort(less: (string, string) -> bool, names: seq<string>): (r: seq<string>)
    ensures multiset(r) == multiset(names)
  {
    if names == [] then []
    else
      assert names == names[..|names| - 1] + [names[|names| - 1]];
      Insert(less, names[|names| - 1], Sort(less, names[..|names| - 1]))
  }

  // ── Items ─────────────────────────────────────────────────────────────────

  function SubtitleOf(e: Entity): Option<Subtitle> {
    if e.methodology.None? || e.methodology.value == "" then None
    else Some(Subtitle(e.methodology.value, e.customerType))
  }

  function BulletOf(card: Card, e: Entity): Bullet
    requires e.slug in card
  {
    Bullet(card[e.slug].driverLabel, e.scope)
  }

  function Bullets(card: Card, es: seq<Entity>): (r: seq<Bullet>)
    requires OnCard(card, es)
    ensures |r| == |es| && forall i :: 0 <= i < |es| ==> r[i] == BulletOf(card, es[i])
  {
    if es == [] then [] else Bullets(card, es[..|es| - 1]) + [BulletOf(card, es[|es| - 1])]
  }

  /** Each non-empty source file once, in order. */
  function Files(es: seq<Entity>): seq<string> {
    if es == [] then []
    else
      var r := Files(es[..|es| - 1]);
      var f := es[|es| - 1].sourceFile;
      if f.None? || f.value == "" || f.value in r then r else r + [f.value]
  }

  function SumConfidence(es: seq<Entity>): real {
    if es == [] then 0.0 else SumConfidence(es[..|es| - 1]) + es[|es| - 1].confidence
  }

  /** The subtitle of the first entity that has a methodology, or else of the first. */
  function FirstWithMethodology(es: seq<Entity>): Entity
    requires es != []
  {
    if exists i :: 0 <= i < |es| && es[i].methodology.Some? then FirstSome(es) else es[0]
  }

  function FirstSome(es: seq<Entity>): Entity
    requires exists i :: 0 <= i < |es| && es[i].methodology.Some?
  {
    if es[0].methodology.Some? then es[0] else FirstSome(es[1..])
  }

  function Collated(card: Card, es: seq<Entity>, app: string): Item
    requires es != [] && OnCard(card, es)
  {
    Item(OfApp(app), SubtitleOf(FirstWithMethodology(es)), Bullets(card, es), SumConfidence(es) / |es| as real, Files(es))
  }

  function SoloItem(card: Card, e: Entity): Item
    requires e.slug in card
  {
    Item(OfLine(e.slug), SubtitleOf(e), [BulletOf(card, e)], e.confidence, Files([e]))
  }

  function SoloItems(card: Card, es: seq<Entity>): seq<Item>
    requires OnCard(card, es)
  {
    if es == [] then [] else SoloItems(card, es[..|es| - 1]) + [SoloItem(card, es[|es| - 1])]
  }

  /** The items of one bucket. */
  function BucketItems(card: Card, entries: seq<Entity>, name: string): seq<Item>
    requires entries != [] && OnCard(card, entries)
  {
    if name == SOLO then SoloItems(card, entries) else [Collated(card, entries, name)]
  }

  function Entries(card: Card, es: seq<Entity>, domain: Domain, name: string): (r: seq<Entity>)
    requires OnCard(card, es) && name in Names(Keys(card, es), domain)
    ensures r != [] && OnCard(card, r)
  {
    EntriesNotEmpty(card, es, Winner(Keys(card, es), domain, name));
    EntriesAt(card, es, Winner(Keys(card, es), domain, name))
  }

  lemma EntriesNotEmpty(card: Card, es: seq<Entity>, key: Key)
    requires OnCard(card, es) && key in Keys(card, es)
    ensures EntriesAt(card, es, key) != []
  {
    var e :| e in es && KeyOf(card, e) == key;
    assert e in EntriesAt(card, es, key);
  }

  function DomainItems(card: Card, es: seq<Entity>, domain: Domain, names: seq<string>): seq<Item>
    requires OnCard(card, es) && forall n :: n in names ==> n in Names(Keys(card, es), domain)
  {
    if names == [] then []
    else
      assert names == names[..|names| - 1] + [names[|names| - 1]];
      DomainItems(card, es, domain, names[..|names| - 1])
      + BucketItems(card, Entries(card, es, domain, names[|names| - 1]), names[|names| - 1])
  }

  lemma SortKeeps(less: (string, string) -> bool, names: seq<string>)
    ensures forall n :: n in Sort(less, names) <==> n in names
  {
    hide Sort;
    assert forall n :: n in Sort(less, names) <==> n in multiset(Sort(less, names));
    assert forall n :: n in names <==> n in multiset(names);
  }

  function GroupOf(card: Card, es: seq<Entity>, less: (string, string) -> bool, domain: Domain): Group
    requires OnCard(card, es)
  {
    var names := Names(Keys(card, es), domain);
    SortKeeps(less, names);
    Group(domain, DomainItems(card, es, domain, Sort(less, names)))
  }

  function Groups(card: Card, es: seq<Entity>, less: (string, string) -> bool, domains: seq<Domain>): seq<Group>
    requires OnCard(card, es)
  {
    if domains == [] then []
    else
      var d := domains[|domains| - 1];
      Groups(card, es, less, domains[..|domains| - 1])
      + if Names(Keys(card, es), d) == [] then [] else [GroupOf(card, es, less, d)]
  }

  function Total(groups: seq<Group>): nat {
    if groups == [] then 0 else Total(groups[..|groups| - 1]) + |groups[|groups| - 1].items|
  }

  function SummaryOf(card: Card, floor: real, less: (string, string) -> bool, es: seq<Entity>): Summary {
    var groups := Groups(card, Known(card, floor, es), less, DOMAINS);
    Summary(groups, Total(groups), Total(groups) == 0)
  }

  // ── The summary, step by step ─────────────────────────────────────────────

  ghost predicate Bucketed(card: Card, es: seq<Entity>, keys: seq<Key>, buckets: map<Key, seq<Entity>>)
    requires OnCard(card, es)
  {
    && keys == Keys(card, es)
    && (forall k :: k in buckets <==> k in keys)
    && forall k :: k in buckets ==> buckets[k] == EntriesAt(card, es, k)
  }

  lemma EntriesStep(card: Card, es: seq<Entity>, e: Entity, key: Key)
    requires OnCard(card, es) && e.slug in card
    ensures EntriesAt(card, es + [e], key) == EntriesAt(card, es, key) + if KeyOf(card, e) == key then [e] else []
  {
    hide KeyOf;
    assert (es + [e])[..|es|] == es;
  }

  lemma KeysStep(card: Card, es: seq<Entity>, e: Entity)
    requires OnCard(card, es) && e.slug in card
    ensures var r := Keys(card, es);
            Keys(card, es + [e]) == if KeyOf(card, e) in r then r else r + [KeyOf(card, e)]
  {
    hide KeyOf;
    assert (es + [e])[..|es|] == es;
  }

  lemma NoEntries(card: Card, es: seq<Entity>, key: Key)
    requires OnCard(card, es)
    ensures EntriesAt(card, es, key) != [] ==> key in Keys(card, es)
  {
    hide KeyOf;
    var r := EntriesAt(card, es, key);
    if r != [] {
      assert r[0] in r;
    }
  }

  lemma BucketStep(card: Card, es: seq<Entity>, e: Entity, keys: seq<Key>, buckets: map<Key, seq<Entity>>)
    requires OnCard(card, es) && e.slug in card && Bucketed(card, es, keys, buckets)
    ensures var k := KeyOf(card, e);
            Bucketed(card, es + [e], if k in buckets then keys else keys + [k],
                     buckets[k := (if k in buckets then buckets[k] else []) + [e]])
  {
    hide KeyOf, Keys, EntriesAt;
    KeysStep(card, es, e);
    forall x {
      EntriesStep(card, es, e, x);
    }
    NoEntries(card, es, KeyOf(card, e));
  }

  method Bucketise(card: Card, floor: real, es: seq<Entity>) returns (keys: seq<Key>, buckets: map<Key, seq<Entity>>)
    ensures Bucketed(card, Known(card, floor, es), keys, buckets)
  {
    keys, buckets := [], map[];
    for i := 0 to |es|
      invariant Bucketed(card, Known(card, floor, es[..i]), keys, buckets)
    {
      hide Bucketed, KeyOf;
      var e := es[i];
      assert es[..i + 1][..i] == es[..i];
      if e.confidence >= floor && e.slug in card {
        var key := KeyOf(card, e);
        BucketStep(card, Known(card, floor, es[..i]), e, keys, buckets);
        BucketedKeys(card, Known(card, floor, es[..i]), keys, buckets);
        var entries := [];
        if key in buckets {
          entries := buckets[key];
        } else {
          keys := keys + [key];
        }
        buckets := buckets[key := entries + [e]];
      } else {
        assert Known(card, floor, es[..i + 1]) == Known(card, floor, es[..i]);
      }
    }
    assert es[..|es|] == es;
  }

  lemma BucketedKeys(card: Card, es: seq<Entity>, keys: seq<Key>, buckets: map<Key, seq<Entity>>)
    requires OnCard(card, es) && Bucketed(card, es, keys, buckets)
    ensures keys == Keys(card, es) && forall k :: k in buckets <==> k in keys
  {
  }

  /** One domain's names in order of first appearance, and the bucket under each. */
  datatype Shelf = Shelf(names: seq<string>, at: map<string, Key>)

  ghost predicate Shelved(keys: seq<Key>, domain: Domain, shelf: Shelf) {
    && shelf.names == Names(keys, domain)
    && (forall n :: n in shelf.at <==> n in shelf.names)
    && forall n :: n in shelf.at ==> shelf.at[n] == Winner(keys, domain, n)
  }

  lemma NamesStep(keys: seq<Key>, k: Key, domain: Domain)
    ensures var r := Names(keys, domain);
            Names(keys + [k], domain) == if k.domain != domain || Name(k) in r then r else r + [Name(k)]
  {
    hide Name;
    assert (keys + [k])[..|keys|] == keys;
  }

  lemma WinnerStep(keys: seq<Key>, k: Key, domain: Domain, name: string)
    requires name in Names(keys + [k], domain)
    ensures if k.domain == domain && Name(k) == name then Winner(keys + [k], domain, name) == k
            else name in Names(keys, domain) && Winner(keys + [k], domain, name) == Winner(keys, domain, name)
  {
    hide Name;
    assert (keys + [k])[..|keys|] == keys;
  }

  lemma ShelfStep(keys: seq<Key>, k: Key, domain: Domain, shelf: Shelf)
    requires Shelved(keys, domain, shelf)
    ensures k.domain == domain ==>
      Shelved(keys + [k], domain, Shelf(if Name(k) in shelf.at then shelf.names else shelf.names + [Name(k)], shelf.at[Name(k) := k]))
    ensures k.domain != domain ==> Shelved(keys + [k], domain, shelf)
  {
    hide Name, Winner, Names;
    NamesStep(keys, k, domain);
    forall n | n in Names(keys + [k], domain) {
      WinnerStep(keys, k, domain, n);
    }
  }

  method Shelve(keys: seq<Key>) returns (shelves: map<Domain, Shelf>)
    ensures forall d :: Shelved(keys, d, if d in shelves then shelves[d] else Shelf([], map[]))
    ensures forall d :: d in shelves <==> Names(keys, d) != []
  {
    shelves := map[];
    for i := 0 to |keys|
      invariant forall d :: Shelved(keys[..i], d, if d in shelves then shelves[d] else Shelf([], map[]))
      invariant forall d :: d in shelves ==> shelves[d].names != []
    {
      hide Shelved, Name;
      var k := keys[i];
      assert keys[..i + 1] == keys[..i] + [k];
      forall d {
        ShelfStep(keys[..i], k, d, if d in shelves then shelves[d] else Shelf([], map[]));
      }
      var shelf := if k.domain in shelves then shelves[k.domain] else Shelf([], map[]);
      var names := if Name(k) in shelf.at then shelf.names else shelf.names + [Name(k)];
      assert names != [] by {
        ShelfNames(keys[..i], k.domain, shelf);
      }
      shelves := shelves[k.domain := Shelf(names, shelf.at[Name(k) := k])];
    }
    assert keys[..|keys|] == keys;
  }

  lemma ShelfNames(keys: seq<Key>, domain: Domain, shelf: Shelf)
    requires Shelved(keys, domain, shelf)
    ensures forall n :: n in shelf.at <==> n in shelf.names
  {
  }

  method DedupSourceFiles(es: seq<Entity>) returns (out: seq<string>)
    ensures out == Files(es)
  {
    var seen: set<string> := {};
    out := [];
    for i := 0 to |es|
      invariant out == Files(es[..i]) && forall f :: f in seen <==> f in out
    {
      assert es[..i + 1][..i] == es[..i];
      var f := es[i].sourceFile;
      if f.Some? && f.value != "" && f.value !in seen {
        seen := seen + {f.value};
        out := out + [f.value];
      }
    }
    assert es[..|es|] == es;
  }

  lemma EntriesOnShelf(card: Card, es: seq<Entity>, domain: Domain, shelf: Shelf, buckets: map<Key, seq<Entity>>, name: string)
    requires OnCard(card, es) && Bucketed(card, es, Keys(card, es), buckets) && Shelved(Keys(card, es), domain, shelf)
    requires name in shelf.names
    ensures name in shelf.at && shelf.at[name] in buckets
    ensures name in Names(Keys(card, es), domain) && buckets[shelf.at[name]] == Entries(card, es, domain, name)
  {
    hide Keys, Names, Winner, EntriesAt, KeyOf, Name;
  }

  method ItemsOf(card: Card, ghost es: seq<Entity>, domain: Domain, shelf: Shelf, buckets: map<Key, seq<Entity>>,
                 less: (string, string) -> bool) returns (items: seq<Item>)
    requires OnCard(card, es) && Bucketed(card, es, Keys(card, es), buckets) && Shelved(Keys(card, es), domain, shelf)
    ensures items == GroupOf(card, es, less, domain).items
  {
    hide Sort, Keys, Names, Winner, EntriesAt, Entries, KeyOf, Name, Bucketed;
    hide Bullets, Files, SumConfidence, SubtitleOf, FirstWithMethodology, SoloItems;
    items := [];
    var sorted := Sort(less, shelf.names);
    SortKeeps(less, shelf.names);
    for i := 0 to |sorted|
      invariant items == DomainItems(card, es, domain, sorted[..i])
    {
      assert sorted[..i + 1][..i] == sorted[..i];
      var name := sorted[i];
      assert name in sorted;
      EntriesOnShelf(card, es, domain, shelf, buckets, name);
      var entries := buckets[shelf.at[name]];
      if name == SOLO {
        var solo := SoloOnes(card, entries);
        items := items + solo;
      } else {
        var files := DedupSourceFiles(entries);
        items := items + [Item(OfApp(name), SubtitleOf(FirstWithMethodology(entries)), Bullets(card, entries),
                               SumConfidence(entries) / |entries| as real, files)];
      }
    }
    assert sorted[..|sorted|] == sorted;
  }

  method SoloOnes(card: Card, entries: seq<Entity>) returns (items: seq<Item>)
    requires OnCard(card, entries)
    ensures items == SoloItems(card, entries)
  {
    items := [];
    for i := 0 to |entries|
      invariant items == SoloItems(card, entries[..i])
    {
      hide Files;
      assert entries[..i + 1][..i] == entries[..i];
      var e := entries[i];
      var files := DedupSourceFiles([e]);
      items := items + [Item(OfLine(e.slug), SubtitleOf(e), [BulletOf(card, e)], e.confidence, files)];
    }
    assert entries[..|entries|] == entries;
  }

  method BuildScopeSummary(card: Card, floor: real, less: (string, string) -> bool, es: seq<Entity>) returns (s: Summary)
    ensures s == SummaryOf(card, floor, less, es)
  {
    hide Shelved, Bucketed, Keys, Names, GroupOf, Known;
    var keys, buckets := Bucketise(card, floor, es);
    ghost var known := Known(card, floor, es);
    BucketedKeys(card, known, keys, buckets);
    var shelves := Shelve(keys);
    var groups := [];
    var total := 0;
    for i := 0 to |DOMAINS|
      invariant groups == Groups(card, known, less, DOMAINS[..i]) && total == Total(groups)
    {
      var d := DOMAINS[i];
      assert DOMAINS[..i + 1][..i] == DOMAINS[..i];
      if d in shelves {
        var items := ItemsOf(card, known, d, shelves[d], buckets, less);
        GroupDomain(card, known, less, d);
        assert (groups + [Group(d, items)])[..|groups|] == groups;
        groups := groups + [Group(d, items)];
        total := total + |items|;
      }
    }
    assert DOMAINS[..|DOMAINS|] == DOMAINS;
    return Summary(groups, total, total == 0);
  }

  lemma GroupDomain(card: Card, es: seq<Entity>, less: (string, string) -> bool, domain: Domain)
    requires OnCard(card, es)
    ensures GroupOf(card, es, less, domain) == Group(domain, GroupOf(card, es, less, domain).items)
  {
    hide DomainItems, Sort;
  }
}
