/**
 What the scope summary promises: every entity that survives is shown as exactly one bullet, unless
 an empty application id meets an absent one; averages respect the floor; and it is empty exactly
 when nothing survives.
 */
module ScopeSummaryLaws {
  import opened Wrappers
  import opened Permutations
  import opened ScopeSummary

  // ── The entities behind the bullets ───────────────────────────────────────

  function FlatItems(items: seq<Item>): seq<Bullet> {
    if items == [] then [] else FlatItems(items[..|items| - 1]) + items[|items| - 1].bullets
  }

  /** All bullets of a summary. */
  function Flat(groups: seq<Group>): seq<Bullet> {
    if groups == [] then [] else Flat(groups[..|groups| - 1]) + FlatItems(groups[|groups| - 1].items)
  }

  function Behind(card: Card, es: seq<Entity>, domain: Domain, names: seq<string>): (r: seq<Entity>)
    requires OnCard(card, es) && forall n :: n in names ==> n in Names(Keys(card, es), domain)
    ensures OnCard(card, r)
  {
    if names == [] then []
    else
      assert names == names[..|names| - 1] + [names[|names| - 1]];
      Behind(card, es, domain, names[..|names| - 1]) + Entries(card, es, domain, names[|names| - 1])
  }

  function Shown(card: Card, es: seq<Entity>, less: (string, string) -> bool, domains: seq<Domain>): (r: seq<Entity>)
    requires OnCard(card, es)
    ensures OnCard(card, r)
  {
    if domains == [] then []
    else
      var d := domains[|domains| - 1];
      SortKeeps(less, Names(Keys(card, es), d));
      Shown(card, es, less, domains[..|domains| - 1]) + Behind(card, es, d, Sort(less, Names(Keys(card, es), d)))
  }

  lemma BulletsOfTwo(card: Card, a: seq<Entity>, b: seq<Entity>)
    requires OnCard(card, a) && OnCard(card, b)
    ensures OnCard(card, a + b) && Bullets(card, a + b) == Bullets(card, a) + Bullets(card, b)
  {
    hide Bullets, BulletOf;
  }

  lemma {:induction false} FlatOfTwo(a: seq<Item>, b: seq<Item>)
    ensures FlatItems(a + b) == FlatItems(a) + FlatItems(b)
  {
    if b == [] {
      assert a + b == a;
    } else {
      assert (a + b)[..|a + b| - 1] == a + b[..|b| - 1];
      FlatOfTwo(a, b[..|b| - 1]);
    }
  }

  lemma {:induction false} SoloBullets(card: Card, es: seq<Entity>)
    requires OnCard(card, es)
    ensures FlatItems(SoloItems(card, es)) == Bullets(card, es)
  {
    hide BulletOf, SubtitleOf, Files;
    if es == [] {
    } else {
      SoloBullets(card, es[..|es| - 1]);
      var init, last := SoloItems(card, es[..|es| - 1]), SoloItem(card, es[|es| - 1]);
      assert (init + [last])[..|init|] == init;
    }
  }

  lemma BucketBullets(card: Card, entries: seq<Entity>, name: string)
    requires entries != [] && OnCard(card, entries)
    ensures FlatItems(BucketItems(card, entries, name)) == Bullets(card, entries)
  {
    hide Bullets, SubtitleOf, FirstWithMethodology, Files, SumConfidence, SoloItems;
    if name == SOLO {
      SoloBullets(card, entries);
    } else {
      var item := Collated(card, entries, name);
      assert [item][..0] == [];
    }
  }

  lemma {:induction false} DomainBullets(card: Card, es: seq<Entity>, domain: Domain, names: seq<string>)
    requires OnCard(card, es) && forall n :: n in names ==> n in Names(Keys(card, es), domain)
    ensures FlatItems(DomainItems(card, es, domain, names)) == Bullets(card, Behind(card, es, domain, names))
  {
    hide Bullets, BucketItems, Entries, Keys, Names;
    if names == [] {
    } else {
      var init, n := names[..|names| - 1], names[|names| - 1];
      assert names == init + [n];
      DomainBullets(card, es, domain, init);
      BucketBullets(card, Entries(card, es, domain, n), n);
      FlatOfTwo(DomainItems(card, es, domain, init), BucketItems(card, Entries(card, es, domain, n), n));
      BulletsOfTwo(card, Behind(card, es, domain, init), Entries(card, es, domain, n));
    }
  }

  lemma {:induction false} GroupBullets(card: Card, es: seq<Entity>, less: (string, string) -> bool, domains: seq<Domain>)
    requires OnCard(card, es)
    ensures Flat(Groups(card, es, less, domains)) == Bullets(card, Shown(card, es, less, domains))
  {
    hide Bullets, DomainItems, Keys, Names, Sort, Behind, FlatItems;
    if domains == [] {
    } else {
      var init, d := domains[..|domains| - 1], domains[|domains| - 1];
      var names := Names(Keys(card, es), d);
      GroupBullets(card, es, less, init);
      SortKeeps(less, names);
      DomainBullets(card, es, d, Sort(less, names));
      BulletsOfTwo(card, Shown(card, es, less, init), Behind(card, es, d, Sort(less, names)));
      if names == [] {
        SortNothing(less);
        BehindNothing(card, es, d);
        assert Groups(card, es, less, domains) == Groups(card, es, less, init);
        assert Shown(card, es, less, domains) == Shown(card, es, less, init);
      } else {
        var gs := Groups(card, es, less, init);
        assert (gs + [GroupOf(card, es, less, d)])[..|gs|] == gs;
      }
    }
  }

  lemma SortNothing(less: (string, string) -> bool)
    ensures Sort(less, []) == []
  {
  }

  lemma BehindNothing(card: Card, es: seq<Entity>, domain: Domain)
    requires OnCard(card, es)
    ensures Behind(card, es, domain, []) == []
  {
  }

  // ── Counting one entity ───────────────────────────────────────────────────

  lemma {:induction false} CountAt(card: Card, es: seq<Entity>, key: Key, e: Entity)
    requires OnCard(card, es)
    ensures multiset(EntriesAt(card, es, key))[e] == if e in es && KeyOf(card, e) == key then multiset(es)[e] else 0
  {
    hide KeyOf;
    if es == [] {
    } else {
      var init, x := es[..|es| - 1], es[|es| - 1];
      assert es == init + [x];
      CountAt(card, init, key, e);
    }
  }

  /** Nothing set a later bucket under this entity's name. */
  predicate Visible(card: Card, es: seq<Entity>, e: Entity)
    requires OnCard(card, es) && e in es
  {
    Winner(Keys(card, es), KeyOf(card, e).domain, Name(KeyOf(card, e))) == KeyOf(card, e)
  }

  lemma {:induction false} CountBehind(card: Card, es: seq<Entity>, domain: Domain, names: seq<string>, e: Entity)
    requires OnCard(card, es) && forall n :: n in names ==> n in Names(Keys(card, es), domain)
    requires forall i, j :: 0 <= i < j < |names| ==> names[i] != names[j]
    ensures multiset(Behind(card, es, domain, names))[e]
            == if e in es && KeyOf(card, e).domain == domain && Name(KeyOf(card, e)) in names && Visible(card, es, e)
               then multiset(es)[e] else 0
  {
    hide KeyOf, Name, Keys, Names, Winner, EntriesAt;
    if names == [] {
    } else {
      var init, n := names[..|names| - 1], names[|names| - 1];
      assert names == init + [n];
      assert n in names;
      CountBehind(card, es, domain, init, e);
      CountAt(card, es, Winner(Keys(card, es), domain, n), e);
    }
  }

  lemma SortedDistinct(less: (string, string) -> bool, names: seq<string>)
    requires Distinct(names)
    ensures Distinct(Sort(less, names))
  {
    hide Sort;
    DistinctPermutes(names, Sort(less, names));
  }

  lemma {:induction false} CountShown(card: Card, es: seq<Entity>, less: (string, string) -> bool, domains: seq<Domain>, e: Entity)
    requires OnCard(card, es)
    requires forall i, j :: 0 <= i < j < |domains| ==> domains[i] != domains[j]
    ensures multiset(Shown(card, es, less, domains))[e]
            == if e in es && KeyOf(card, e).domain in domains && Visible(card, es, e) then multiset(es)[e] else 0
  {
    hide KeyOf, Name, Keys, Names, Winner, Sort, Behind, Visible;
    if domains == [] {
    } else {
      var init, d := domains[..|domains| - 1], domains[|domains| - 1];
      assert domains == init + [d];
      var names := Names(Keys(card, es), d);
      CountShown(card, es, less, init, e);
      SortKeeps(less, names);
      SortedDistinct(less, names);
      CountBehind(card, es, d, Sort(less, names), e);
      assert e in es && KeyOf(card, e).domain == d ==> Name(KeyOf(card, e)) in names;
    }
  }

  // ── Conservation ──────────────────────────────────────────────────────────

  /** In some domain one surviving entity has an empty application id and another has none, or the
      reserved one. */
  ghost predicate Collides(card: Card, es: seq<Entity>)
    requires OnCard(card, es)
  {
    exists a, b :: a in es && b in es && Clash(card, a, b)
  }

  predicate Clash(card: Card, a: Entity, b: Entity)
    requires a.slug in card && b.slug in card
  {
    card[a.slug].domain == card[b.slug].domain && a.appId == Some("") && (b.appId == None || b.appId == Some(SOLO))
  }

  lemma VisibleIffNoClash(card: Card, es: seq<Entity>)
    requires OnCard(card, es)
    ensures (forall e :: e in es ==> Visible(card, es, e)) <==> !Collides(card, es)
  {
    hide Winner, Keys;
    if a, b :| a in es && b in es && Clash(card, a, b) {
      assert KeyOf(card, a) != KeyOf(card, b) && Name(KeyOf(card, a)) == Name(KeyOf(card, b));
      assert !(Visible(card, es, a) && Visible(card, es, b));
    }
    forall e | e in es && !Visible(card, es, e) ensures Collides(card, es) {
      var w := Winner(Keys(card, es), KeyOf(card, e).domain, Name(KeyOf(card, e)));
      var x :| x in es && KeyOf(card, x) == w;
      assert Clash(card, e, x) || Clash(card, x, e);
    }
  }

  lemma Fewer(a: multiset<Entity>, b: multiset<Entity>)
    requires forall e :: a[e] <= b[e]
    ensures |a| <= |b| && (|a| == |b| <==> a == b)
  {
    assert b == a + (b - a);
    if |a| == |b| {
      assert |b - a| == 0;
      assert b - a == multiset{};
    }
  }

  lemma ShownIsEverything(card: Card, es: seq<Entity>, less: (string, string) -> bool)
    requires OnCard(card, es)
    ensures var shown := Shown(card, es, less, DOMAINS);
            && (multiset(shown) == multiset(es) <==> !Collides(card, es))
            && |shown| <= |es| && (|shown| == |es| <==> !Collides(card, es))
  {
    hide Shown, Visible, Collides, KeyOf;
    var shown := Shown(card, es, less, DOMAINS);
    forall e ensures multiset(shown)[e] == if e in es && Visible(card, es, e) then multiset(es)[e] else 0 {
      CountShown(card, es, less, DOMAINS, e);
      EveryDomain(card, e);
    }
    VisibleIffNoClash(card, es);
    Fewer(multiset(shown), multiset(es));
    assert |multiset(shown)| == |shown| && |multiset(es)| == |es|;
    if multiset(shown) == multiset(es) {
      forall e | e in es ensures Visible(card, es, e) {
        assert multiset(es)[e] > 0;
      }
    }
  }

  lemma EveryDomain(card: Card, e: Entity)
    ensures e.slug in card ==> KeyOf(card, e).domain in DOMAINS
  {
    if e.slug in card {
      match card[e.slug].domain
      case WebApp => assert DOMAINS[0] == WebApp;
      case Api => assert DOMAINS[1] == Api;
      case MobileIos => assert DOMAINS[2] == MobileIos;
      case MobileAndroid => assert DOMAINS[3] == MobileAndroid;
      case Network => assert DOMAINS[4] == Network;
      case Cloud => assert DOMAINS[5] == Cloud;
      case Other => assert DOMAINS[6] == Other;
    }
  }

  lemma BulletsWithout(card: Card, b: seq<Entity>, i: nat)
    requires OnCard(card, b) && i < |b|
    ensures OnCard(card, RemoveAt(b, i))
    ensures multiset(Bullets(card, b)) == multiset(Bullets(card, RemoveAt(b, i))) + multiset{BulletOf(card, b[i])}
  {
    hide BulletOf, Bullets;
    assert b == b[..i] + [b[i]] + b[i + 1..];
    BulletsOfTwo(card, b[..i], b[i + 1..]);
    BulletsOfTwo(card, b[..i], [b[i]]);
    BulletsOfTwo(card, b[..i] + [b[i]], b[i + 1..]);
    OneBullet(card, b[i]);
  }

  lemma {:induction false} BulletsPermute(card: Card, a: seq<Entity>, b: seq<Entity>)
    requires OnCard(card, a) && OnCard(card, b) && multiset(a) == multiset(b)
    ensures multiset(Bullets(card, a)) == multiset(Bullets(card, b))
  {
    hide BulletOf, Bullets, RemoveAt;
    if a == [] {
      NoneLeft(a, b);
    } else {
      var n := |a| - 1;
      var i := Counterpart(a, b);
      assert RemoveAt(a, n) == a[..n] by { AllButLast(a); }
      BulletsWithout(card, a, n);
      BulletsWithout(card, b, i);
      BulletsPermute(card, a[..n], RemoveAt(b, i));
    }
  }

  lemma AllButLast(a: seq<Entity>)
    requires a != []
    ensures RemoveAt(a, |a| - 1) == a[..|a| - 1]
  {
  }

  lemma OneBullet(card: Card, x: Entity)
    requires x.slug in card
    ensures Bullets(card, [x]) == [BulletOf(card, x)]
  {
    hide BulletOf;
  }

  /** Conservation.  The bullets of a summary are, counted with multiplicity, those of the surviving
      entities on the card, unless an empty application id meets an absent one in some domain: then
      and only then some are missing. */
  lemma EveryEntityHasItsBullet(card: Card, floor: real, less: (string, string) -> bool, es: seq<Entity>)
    ensures var known := Known(card, floor, es);
            var bullets := Flat(SummaryOf(card, floor, less, es).groups);
            && |bullets| <= |known|
            && (|bullets| == |known| <==> !Collides(card, known))
            && (!Collides(card, known) ==> multiset(bullets) == multiset(Bullets(card, known)))
  {
    hide Known, Groups, Shown, Collides, Bullets, Flat;
    var known := Known(card, floor, es);
    GroupBullets(card, known, less, DOMAINS);
    ShownIsEverything(card, known, less);
    if !Collides(card, known) {
      BulletsPermute(card, Shown(card, known, less, DOMAINS), known);
    }
  }

  // ── The floor, and emptiness ──────────────────────────────────────────────

  ghost predicate AtLeast(es: seq<Entity>, floor: real) {
    forall e :: e in es ==> e.confidence >= floor
  }

  lemma {:induction false} SumAtLeast(es: seq<Entity>, floor: real)
    requires AtLeast(es, floor)
    ensures SumConfidence(es) >= floor * |es| as real
  {
    if es == [] {
    } else {
      var init, e := es[..|es| - 1], es[|es| - 1];
      assert es == init + [e];
      SumAtLeast(init, floor);
      assert floor * |es| as real == floor * |init| as real + floor;
    }
  }

  lemma AverageAtLeast(sum: real, n: nat, floor: real)
    requires n > 0 && sum >= floor * n as real
    ensures sum / n as real >= floor
  {
    var q := sum / n as real;
    assert q * n as real == sum;
    if q < floor {
      assert q * n as real < floor * n as real;
    }
  }

  ghost predicate ItemsAtLeast(items: seq<Item>, floor: real) {
    forall i :: 0 <= i < |items| ==> items[i].confidence >= floor && items[i].bullets != []
  }

  lemma {:induction false} SoloAtLeast(card: Card, es: seq<Entity>, floor: real)
    requires OnCard(card, es) && AtLeast(es, floor)
    ensures ItemsAtLeast(SoloItems(card, es), floor) && |SoloItems(card, es)| == |es|
  {
    hide SubtitleOf, Files, BulletOf;
    if es == [] {
    } else {
      var init, e := es[..|es| - 1], es[|es| - 1];
      assert es == init + [e];
      SoloAtLeast(card, init, floor);
    }
  }

  lemma BucketAtLeast(card: Card, es: seq<Entity>, name: string, floor: real)
    requires es != [] && OnCard(card, es) && AtLeast(es, floor)
    ensures ItemsAtLeast(BucketItems(card, es, name), floor) && BucketItems(card, es, name) != []
  {
    hide SubtitleOf, Files, Bullets, FirstWithMethodology, SoloItems, SumConfidence;
    SoloAtLeast(card, es, floor);
    SumAtLeast(es, floor);
    AverageAtLeast(SumConfidence(es), |es|, floor);
  }

  lemma {:induction false} DomainAtLeast(card: Card, es: seq<Entity>, domain: Domain, names: seq<string>, floor: real)
    requires OnCard(card, es) && AtLeast(es, floor) && forall n :: n in names ==> n in Names(Keys(card, es), domain)
    ensures ItemsAtLeast(DomainItems(card, es, domain, names), floor)
    ensures DomainItems(card, es, domain, names) == [] <==> names == []
  {
    hide Keys, Names, Winner, EntriesAt, BucketItems;
    if names == [] {
    } else {
      var init, n := names[..|names| - 1], names[|names| - 1];
      assert names == init + [n];
      DomainAtLeast(card, es, domain, init, floor);
      BucketAtLeast(card, Entries(card, es, domain, n), n, floor);
    }
  }

  ghost predicate GroupsAtLeast(groups: seq<Group>, floor: real) {
    forall i :: 0 <= i < |groups| ==> ItemsAtLeast(groups[i].items, floor)
  }

  lemma {:induction false} AllAtLeast(card: Card, es: seq<Entity>, less: (string, string) -> bool, domains: seq<Domain>, floor: real)
    requires OnCard(card, es) && AtLeast(es, floor)
    ensures GroupsAtLeast(Groups(card, es, less, domains), floor)
    ensures Total(Groups(card, es, less, domains)) == 0 <==> forall d :: d in domains ==> Names(Keys(card, es), d) == []
  {
    hide Keys, Names, Sort, DomainItems, ItemsAtLeast;
    if domains == [] {
    } else {
      var init, d := domains[..|domains| - 1], domains[|domains| - 1];
      assert domains == init + [d];
      AllAtLeast(card, es, less, init, floor);
      var names := Names(Keys(card, es), d);
      if names != [] {
        SortKeeps(less, names);
        assert names[0] in names && names[0] in Sort(less, names);
        DomainAtLeast(card, es, d, Sort(less, names), floor);
        var gs := Groups(card, es, less, init);
        assert (gs + [GroupOf(card, es, less, d)])[..|gs|] == gs;
      } else {
        assert Groups(card, es, less, domains) == Groups(card, es, less, init);
      }
    }
  }

  /** Every item has a bullet and an average confidence at or above the floor, and the summary is
      empty exactly when nothing on the card survives, colliding or not. */
  lemma FloorAndEmptiness(card: Card, floor: real, less: (string, string) -> bool, es: seq<Entity>)
    ensures GroupsAtLeast(SummaryOf(card, floor, less, es).groups, floor)
    ensures SummaryOf(card, floor, less, es).isEmpty <==> forall e :: e in es ==> !Kept(card, floor, e)
  {
    hide Known, Groups, Keys, Names, ItemsAtLeast;
    var known := Known(card, floor, es);
    AllAtLeast(card, known, less, DOMAINS, floor);
    forall d | d in DOMAINS ensures Names(Keys(card, known), d) == [] <==> forall e :: e in known ==> KeyOf(card, e).domain != d {
      NamesEmpty(card, known, d);
    }
    forall e | e in known ensures KeyOf(card, e).domain in DOMAINS {
      EveryDomain(card, e);
    }
  }

  lemma NamesEmpty(card: Card, es: seq<Entity>, domain: Domain)
    requires OnCard(card, es)
    ensures Names(Keys(card, es), domain) == [] <==> forall e :: e in es ==> KeyOf(card, e).domain != domain
  {
    hide KeyOf, Name, Names, Keys;
    var names := Names(Keys(card, es), domain);
    if e :| e in es && KeyOf(card, e).domain == domain {
      assert Name(KeyOf(card, e)) in names;
    }
    if names != [] {
      assert names[0] in names;
      var k :| k in Keys(card, es) && k.domain == domain && Name(k) == names[0];
      var e :| e in es && KeyOf(card, e) == k;
    }
  }

  // ── The collision, concretely ─────────────────────────────────────────────

  const CARD: Card := map["api_endpoints" := Meta(Api, "endpoints")]
  const TAGGED: Entity := Entity("api_endpoints", 3.0, None, External, 0.9, Some(""), None)
  const PLAIN: Entity := Entity("api_endpoints", 5.0, None, External, 0.9, None, None)

  lemma BothKnown()
    ensures Known(CARD, 0.6, [TAGGED, PLAIN]) == [TAGGED, PLAIN]
  {
    assert [TAGGED, PLAIN][..1] == [TAGGED] && [TAGGED][..0] == [];
    assert Known(CARD, 0.6, [TAGGED]) == [TAGGED];
  }

  /** Two counts of one API surface, one of them tagged with an empty application id: only one of
      them is shown. */
  lemma EmptyIdHidesAnEntity(less: (string, string) -> bool)
    ensures |Flat(SummaryOf(CARD, 0.6, less, [TAGGED, PLAIN]).groups)| < 2 == |Known(CARD, 0.6, [TAGGED, PLAIN])|
  {
    hide Known, SummaryOf, Flat;
    var es := [TAGGED, PLAIN];
    BothKnown();
    assert TAGGED in es && PLAIN in es && Clash(CARD, TAGGED, PLAIN);
    EveryEntityHasItsBullet(CARD, 0.6, less, es);
  }
}
