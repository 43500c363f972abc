/**
 What the audit chain promises: an event text determines its event, two logs that verify against
 the same links agree in every sealed window, and over every run of appends and builds `verify`
 fails exactly when some append landed inside a window that was already sealed.
 */
module AuditLaws {
  import opened Wrappers
  import opened Texts
  import opened CanonicalJson
  import opened AuditChain

  // ── An event text determines its event ────────────────────────────────────

  /** Every hashed field equal, the payloads equal as JSON values. */
  predicate SameEvent(a: Event, b: Event) {
    && a.(payload := JNull) == b.(payload := JNull)
    && Same(a.payload, b.payload)
  }

  lemma {:induction false} NatTextInjective(m: nat, n: nat)
    requires NatText(m) == NatText(n)
    ensures m == n
  {
    var s, t := NatText(m), NatText(n);
    assert s[|s| - 1] == 48 + m % 10 && t[|t| - 1] == 48 + n % 10;
    assert |s| == 1 <==> m < 10;
    assert |t| == 1 <==> n < 10;
    if m < 10 {
    } else {
      assert s[..|s| - 1] == NatText(m / 10) && t[..|t| - 1] == NatText(n / 10);
      NatTextInjective(m / 10, n / 10);
    }
  }

  lemma IntTextInjective(m: int, n: int)
    requires IntText(m) == IntText(n)
    ensures m == n
  {
    hide NatText;
    var s, t := IntText(m), IntText(n);
    assert s[0] == 45 <==> m < 0;
    assert t[0] == 45 <==> n < 0;
    if m < 0 {
      assert s[1..] == NatText(-m) && t[1..] == NatText(-n);
      NatTextInjective(-m, -n);
    } else {
      NatTextInjective(m, n);
    }
  }

  lemma EventJsonValid(e: Event)
    ensures Valid(EventJson(e))
  {
    hide Canon, NatText;
  }

  lemma EventJsonFields(a: Event, b: Event)
    requires Same(EventJson(a), EventJson(b))
    ensures Canon(a.payload) == Canon(b.payload) && IntText(a.createdAt) == IntText(b.createdAt)
    ensures a.(payload := JNull, createdAt := 0) == b.(payload := JNull, createdAt := 0)
  {
    hide Canon, IntText;
    var xs, ys := EventJson(a).items, EventJson(b).items;
    assert forall i :: 0 <= i < 8 ==> Same(xs[i], ys[i]);
    assert Same(xs[0], ys[0]) && Same(xs[1], ys[1]) && Same(xs[2], ys[2]) && Same(xs[3], ys[3]);
    assert Same(xs[4], ys[4]) && Same(xs[5], ys[5]) && Same(xs[6], ys[6]) && Same(xs[7], ys[7]);
  }

  /** The hashed text of an event is the same for two events exactly when they agree in every
      hashed field and hold the same payload. */
  lemma EventTextIffSame(a: Event, b: Event)
    requires Valid(a.payload) && Valid(b.payload)
    ensures EventText(a) == EventText(b) <==> SameEvent(a, b)
  {
    hide Canon, Same, IntText, EventJson, Valid;
    EventJsonValid(a);
    EventJsonValid(b);
    CanonIffSame(EventJson(a), EventJson(b));
    CanonIffSame(a.payload, b.payload);
    if EventText(a) == EventText(b) {
      EventJsonFields(a, b);
      IntTextInjective(a.createdAt, b.createdAt);
    }
    if SameEvent(a, b) {
      SameEventJson(a, b);
    }
  }

  lemma SameEventJson(a: Event, b: Event)
    requires Canon(a.payload) == Canon(b.payload) && a.(payload := JNull) == b.(payload := JNull)
    ensures EventJson(a) == EventJson(b)
  {
    hide Canon, IntText;
  }

  // ── Tamper evidence ───────────────────────────────────────────────────────

  /** The root hash a link's own root is chained to. */
  function Prev(links: seq<Link>, i: nat): Digest
    requires i <= |links|
  {
    if i == 0 then Genesis() else links[i - 1].rootHash
  }

  function Under(link: Link, log: seq<Event>): seq<Event> {
    Window(log, link.from, link.to)
  }

  /** Every text a verification hashes. */
  function Fed(h: Hash, links: seq<Link>, log: seq<Event>): set<Text> {
    (set i | 0 <= i < |links| :: RootText(h, Prev(links, i), Under(links[i], log)))
    + (set i, e | 0 <= i < |links| && e in Under(links[i], log) :: EventText(e))
  }

  /** Two different texts with one digest. */
  ghost predicate Collision(h: Hash, texts: set<Text>) {
    exists s, t :: s in texts && t in texts && s != t && h(s) == h(t)
  }

  ghost predicate Passes(h: Hash, links: seq<Link>, log: seq<Event>, i: nat)
    requires i < |links|
  {
    && |Under(links[i], log)| == links[i].eventCount
    && h(RootText(h, Prev(links, i), Under(links[i], log))) == links[i].rootHash
  }

  lemma FailureStep(h: Hash, links: seq<Link>, log: seq<Event>, i: nat)
    requires i < |links|
    ensures var events := Under(links[i], log);
            var computed := h(RootText(h, Prev(links, i), events));
            FirstFailure(h, links[i..], log, Prev(links, i))
            == if |events| != links[i].eventCount then
                 Some(Failure(links[i].sequence, links[i].rootHash, CountMismatch(|events|, links[i].eventCount)))
               else if computed != links[i].rootHash then Some(Failure(links[i].sequence, links[i].rootHash, HashMismatch(computed)))
               else FirstFailure(h, links[i + 1..], log, Prev(links, i + 1))
  {
    hide RootText, Window;
    assert links[i..][0] == links[i] && links[i..][1..] == links[i + 1..];
  }

  /** The link-by-link walk, from link i on. */
  lemma {:induction false} VerdictFrom(h: Hash, links: seq<Link>, log: seq<Event>, i: nat)
    requires i <= |links|
    ensures FirstFailure(h, links[i..], log, Prev(links, i)) == None
            <==> forall k :: i <= k < |links| ==> Passes(h, links, log, k)
    decreases |links| - i
  {
    hide RootText, Window;
    if i == |links| {
    } else {
      hide FirstFailure, Under;
      FailureStep(h, links, log, i);
      VerdictFrom(h, links, log, i + 1);
      assert (forall k :: i <= k < |links| ==> Passes(h, links, log, k))
             <==> Passes(h, links, log, i) && forall k :: i + 1 <= k < |links| ==> Passes(h, links, log, k);
    }
  }

  /** `verify` says ok exactly when every link, chained to the stored root before it, is reproduced
      by the events of its window. */
  lemma VerdictIsEveryLink(h: Hash, links: seq<Link>, log: seq<Event>)
    ensures Verdict(h, links, log) == None <==> forall k :: 0 <= k < |links| ==> Passes(h, links, log, k)
  {
    hide FirstFailure, Passes;
    assert links[0..] == links;
    VerdictFrom(h, links, log, 0);
  }

  lemma {:induction false} HashesLength(h: Hash, events: seq<Event>)
    ensures |EventHashes(h, events)| == 64 * |events|
  {
    hide EventText;
    if events == [] {
    } else {
      HashesLength(h, events[..|events| - 1]);
    }
  }

  /** Equal concatenations of equally many digests are equal digest by digest. */
  lemma {:induction false} HashesUnique(h: Hash, a: seq<Event>, b: seq<Event>)
    requires |a| == |b| && EventHashes(h, a) == EventHashes(h, b)
    ensures forall k :: 0 <= k < |a| ==> h(EventText(a[k])) == h(EventText(b[k]))
  {
    hide EventText;
    if a == [] {
    } else {
      var n := |a| - 1;
      HashesLength(h, a[..n]);
      HashesLength(h, b[..n]);
      Split(EventHashes(h, a[..n]), EventHashes(h, b[..n]), h(EventText(a[n])), h(EventText(b[n])));
      HashesUnique(h, a[..n], b[..n]);
    }
  }

  lemma LinkIsEvidence(h: Hash, links: seq<Link>, a: seq<Event>, b: seq<Event>, i: nat)
    requires i < |links| && Passes(h, links, a, i) && Passes(h, links, b, i)
    requires forall e :: e in a || e in b ==> Valid(e.payload)
    requires !Collision(h, Fed(h, links, a) + Fed(h, links, b))
    ensures |Under(links[i], a)| == |Under(links[i], b)|
    ensures forall k :: 0 <= k < |Under(links[i], a)| ==> SameEvent(Under(links[i], a)[k], Under(links[i], b)[k])
  {
    hide EventText, EventHashes, Valid, Same, Window;
    var u, v := Under(links[i], a), Under(links[i], b);
    var p := Prev(links, i);
    assert RootText(h, p, u) in Fed(h, links, a) && RootText(h, p, v) in Fed(h, links, b);
    assert RootText(h, p, u) == RootText(h, p, v);
    Split(p, p, EventHashes(h, u), EventHashes(h, v));
    HashesUnique(h, u, v);
    forall k | 0 <= k < |u| ensures SameEvent(u[k], v[k]) {
      assert u[k] in u && v[k] in v;
      assert EventText(u[k]) in Fed(h, links, a) && EventText(v[k]) in Fed(h, links, b);
      EventTextIffSame(u[k], v[k]);
    }
  }

  /** Tamper evidence.  Two logs that verify against the same links hold the same events, in the
      same order, in every sealed window; or else the texts hashed on the way contain a collision. */
  lemma TamperEvidence(h: Hash, links: seq<Link>, a: seq<Event>, b: seq<Event>)
    requires Verdict(h, links, a) == None && Verdict(h, links, b) == None
    requires forall e :: e in a || e in b ==> Valid(e.payload)
    ensures || Collision(h, Fed(h, links, a) + Fed(h, links, b))
            || forall i :: 0 <= i < |links| ==>
                 && |Under(links[i], a)| == |Under(links[i], b)|
                 && forall k :: 0 <= k < |Under(links[i], a)| ==> SameEvent(Under(links[i], a)[k], Under(links[i], b)[k])
  {
    hide Verdict, Fed, Passes, Under, SameEvent, Valid;
    VerdictIsEveryLink(h, links, a);
    VerdictIsEveryLink(h, links, b);
    if !Collision(h, Fed(h, links, a) + Fed(h, links, b)) {
      forall i | 0 <= i < |links|
        ensures |Under(links[i], a)| == |Under(links[i], b)|
        ensures forall k :: 0 <= k < |Under(links[i], a)| ==> SameEvent(Under(links[i], a)[k], Under(links[i], b)[k])
      {
        LinkIsEvidence(h, links, a, b, i);
      }
    }
  }

  // ── One more event ────────────────────────────────────────────────────────

  predicate Inside(link: Link, e: Event) {
    InWindow(e, link.from, link.to)
  }

  /** A new event is read by exactly the windows its time lies in. */
  lemma {:induction false} InsertedWindow(log: seq<Event>, e: Event, from: int, to: int)
    ensures InWindow(e, from, to) ==> |Window(Inserted(log, e), from, to)| == |Window(log, from, to)| + 1
    ensures !InWindow(e, from, to) ==> Window(Inserted(log, e), from, to) == Window(log, from, to)
  {
    hide Earlier, InWindow;
    if log == [] {
      assert Inserted(log, e)[1..] == log;
    } else if Earlier(e, log[0]) {
      assert Inserted(log, e)[1..] == log;
    } else {
      InsertedWindow(log[1..], e, from, to);
      assert Inserted(log, e)[1..] == Inserted(log[1..], e);
    }
  }

  ghost predicate FirstInside(links: seq<Link>, e: Event, i: nat, k: int) {
    i <= k < |links| && Inside(links[k], e) && forall j :: i <= j < k ==> !Inside(links[j], e)
  }

  /** One link before and after: reproduced as before outside its window, one event too many inside. */
  lemma InsertedAt(h: Hash, links: seq<Link>, log: seq<Event>, e: Event, i: nat)
    requires i < |links| && Passes(h, links, log, i)
    ensures FirstFailure(h, links[i..], Inserted(log, e), Prev(links, i))
         == if Inside(links[i], e) then
              Some(Failure(links[i].sequence, links[i].rootHash, CountMismatch(links[i].eventCount + 1, links[i].eventCount)))
            else FirstFailure(h, links[i + 1..], Inserted(log, e), Prev(links, i + 1))
  {
    hide RootText, Window, InWindow, Inserted, FirstFailure;
    FailureStep(h, links, Inserted(log, e), i);
    InsertedWindow(log, e, links[i].from, links[i].to);
  }

  lemma {:induction false} InsertedNowhere(h: Hash, links: seq<Link>, log: seq<Event>, e: Event, i: nat)
    requires i <= |links| && forall k :: i <= k < |links| ==> Passes(h, links, log, k) && !Inside(links[k], e)
    ensures FirstFailure(h, links[i..], Inserted(log, e), Prev(links, i)) == None
    decreases |links| - i
  {
    if i == |links| {
    } else {
      hide FirstFailure, Passes, Inside;
      InsertedAt(h, links, log, e, i);
      InsertedNowhere(h, links, log, e, i + 1);
    }
  }

  lemma {:induction false} InsertedFirst(h: Hash, links: seq<Link>, log: seq<Event>, e: Event, i: nat, k: nat)
    requires FirstInside(links, e, i, k) && forall j :: i <= j < |links| ==> Passes(h, links, log, j)
    ensures FirstFailure(h, links[i..], Inserted(log, e), Prev(links, i))
         == Some(Failure(links[k].sequence, links[k].rootHash, CountMismatch(links[k].eventCount + 1, links[k].eventCount)))
    decreases k - i
  {
    hide FirstFailure, Passes, Inside;
    InsertedAt(h, links, log, e, i);
    if i == k {
    } else {
      InsertedFirst(h, links, log, e, i + 1, k);
    }
  }

  /** Adding one event to a log that verifies: `verify` stays ok when no sealed window covers its
      time, and otherwise fails at exactly the first link whose window does, on the count. */
  lemma InsertionIsCaught(h: Hash, links: seq<Link>, log: seq<Event>, e: Event)
    requires Verdict(h, links, log) == None
    ensures (forall k :: 0 <= k < |links| ==> !Inside(links[k], e)) <==> Verdict(h, links, Inserted(log, e)) == None
    ensures forall k :: FirstInside(links, e, 0, k) ==>
      Verdict(h, links, Inserted(log, e))
      == Some(Failure(links[k].sequence, links[k].rootHash, CountMismatch(links[k].eventCount + 1, links[k].eventCount)))
  {
    hide FirstFailure, Passes, Inside;
    assert links[0..] == links;
    VerdictIsEveryLink(h, links, log);
    forall k | FirstInside(links, e, 0, k) {
      InsertedFirst(h, links, log, e, 0, k);
    }
    if forall k :: 0 <= k < |links| ==> !Inside(links[k], e) {
      InsertedNowhere(h, links, log, e, 0);
    } else {
      var k :| 0 <= k < |links| && Inside(links[k], e);
      var first := FirstExists(links, e, k);
      assert FirstInside(links, e, 0, first);
    }
  }

  lemma FirstExists(links: seq<Link>, e: Event, k: nat) returns (first: nat)
    requires k < |links| && Inside(links[k], e)
    ensures FirstInside(links, e, 0, first)
  {
    if j :| 0 <= j < k && Inside(links[j], e) {
      first := FirstExists(links, e, j);
    } else {
      first := k;
    }
  }
}
