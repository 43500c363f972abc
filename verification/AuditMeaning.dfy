/** What the chain stores and what the hash is fed, unit by unit. */
module AuditMeaning {
  import opened Wrappers
  import opened Texts
  import opened CanonicalJson
  import opened AuditChain
  import opened AuditLaws
  import opened AuditRuns

  // ── Order ─────────────────────────────────────────────────────────────────

  /** Time first, then the id. */
  ghost predicate InOrder(log: seq<Event>) {
    forall i, j :: 0 <= i < j < |log| ==>
      log[i].createdAt < log[j].createdAt || (log[i].createdAt == log[j].createdAt && Before(log[i].id, log[j].id))
  }

  lemma OrderMeans(log: seq<Event>)
    ensures Ordered(log) <==> InOrder(log)
  {
    hide Less, Before;
    forall i, j | 0 <= i < j < |log| ensures Less(log[i].id, log[j].id) <==> Before(log[i].id, log[j].id) {
      LessMeans(log[i].id, log[j].id);
    }
  }

  lemma OrderedFront(e: Event, log: seq<Event>)
    requires Ordered(log) && forall x :: x in log ==> Earlier(e, x)
    ensures Ordered([e] + log)
  {
    hide Earlier;
    assert forall j :: 0 <= j < |log| ==> log[j] in log;
  }

  lemma OrderedRest(log: seq<Event>)
    requires log != [] && Ordered(log)
    ensures Ordered(log[1..]) && forall x :: x in log[1..] ==> Earlier(log[0], x)
  {
    hide Earlier;
    assert forall k :: 0 <= k < |log[1..]| ==> log[1..][k] == log[k + 1];
  }

  lemma {:induction false} WindowOrdered(log: seq<Event>, from: int, to: int)
    requires Ordered(log)
    ensures Ordered(Window(log, from, to))
  {
    if log == [] {
    } else {
      hide Earlier, InWindow, Ordered;
      OrderedRest(log);
      WindowOrdered(log[1..], from, to);
      OrderedFront(log[0], Window(log[1..], from, to));
      assert [] + Window(log[1..], from, to) == Window(log[1..], from, to);
    }
  }

  /** A window reads the events between its two times, both included, in order. */
  lemma WindowMeans(log: seq<Event>, from: int, to: int)
    requires InOrder(log)
    ensures InOrder(Window(log, from, to))
    ensures forall e :: e in Window(log, from, to) <==> e in log && from <= e.createdAt && e.createdAt <= to
  {
    hide InOrder, Ordered, Window;
    OrderMeans(log);
    OrderMeans(Window(log, from, to));
    WindowOrdered(log, from, to);
  }

  // ── Roots ─────────────────────────────────────────────────────────────────

  /** The root before it, and then one digest for each event in order. */
  ghost predicate FedIs(h: Hash, prev: Digest, events: seq<Event>, fed: Text) {
    && |fed| == 64 * (|events| + 1) && fed[..64] == prev
    && forall k :: 0 <= k < |events| ==> fed[64 * (k + 1)..64 * (k + 2)] == h(EventText(events[k]))
  }

  ghost predicate RootIs(h: Hash, prev: Digest, events: seq<Event>, root: Digest) {
    exists fed :: FedIs(h, prev, events, fed) && root == h(fed)
  }

  lemma FedNext(h: Hash, prev: Digest, events: seq<Event>, e: Event, fed: Text)
    requires FedIs(h, prev, events, fed)
    ensures FedIs(h, prev, events + [e], fed + h(EventText(e)))
  {
    hide EventText;
    var n, all := |events|, fed + h(EventText(e));
    assert all[..64] == fed[..64];
    forall k | 0 <= k <= n ensures all[64 * (k + 1)..64 * (k + 2)] == h(EventText((events + [e])[k])) {
      if k < n {
        assert all[64 * (k + 1)..64 * (k + 2)] == fed[64 * (k + 1)..64 * (k + 2)];
      } else {
        assert all[64 * (n + 1)..64 * (n + 2)] == h(EventText(e));
      }
    }
  }

  lemma {:induction false} FedMeans(h: Hash, prev: Digest, events: seq<Event>)
    ensures FedIs(h, prev, events, RootText(h, prev, events))
  {
    hide EventText;
    if events == [] {
    } else {
      hide FedIs;
      var front, last := events[..|events| - 1], events[|events| - 1];
      FedMeans(h, prev, front);
      FedNext(h, prev, front, last, RootText(h, prev, front));
      assert events == front + [last];
      assert RootText(h, prev, events) == RootText(h, prev, front) + h(EventText(last));
    }
  }

  /** One text is fed and no other. */
  lemma {:induction false} FedOnce(h: Hash, prev: Digest, events: seq<Event>, a: Text, b: Text)
    requires FedIs(h, prev, events, a) && FedIs(h, prev, events, b)
    ensures a == b
  {
    hide EventText;
    if events == [] {
      assert a == a[..64] && b == b[..64];
    } else {
      var n := |events| - 1;
      var m := 64 * (n + 1);
      var x, y := a[..m], b[..m];
      forall k | 0 <= k < n
        ensures x[64 * (k + 1)..64 * (k + 2)] == h(EventText(events[k])) && y[64 * (k + 1)..64 * (k + 2)] == h(EventText(events[k]))
      {
        assert x[64 * (k + 1)..64 * (k + 2)] == a[64 * (k + 1)..64 * (k + 2)];
        assert y[64 * (k + 1)..64 * (k + 2)] == b[64 * (k + 1)..64 * (k + 2)];
      }
      assert x[..64] == a[..64] && y[..64] == b[..64];
      FedOnce(h, prev, events[..n], x, y);
      assert a[64 * (n + 1)..64 * (n + 2)] == h(EventText(events[n])) && b[64 * (n + 1)..64 * (n + 2)] == h(EventText(events[n]));
      assert a == x + a[m..64 * (n + 2)] && b == y + b[m..64 * (n + 2)];
    }
  }

  lemma RootMeans(h: Hash, prev: Digest, events: seq<Event>, root: Digest)
    ensures root == h(RootText(h, prev, events)) <==> RootIs(h, prev, events, root)
  {
    hide FedIs, RootText;
    FedMeans(h, prev, events);
    forall fed | FedIs(h, prev, events, fed) ensures fed == RootText(h, prev, events) {
      FedOnce(h, prev, events, fed, RootText(h, prev, events));
    }
  }

  /** What each link is chained to: the root before it, and 64 zeros at the start. */
  ghost predicate ChainedTo(links: seq<Link>, i: nat, prev: Digest)
    requires i < |links|
  {
    if i == 0 then forall k :: 0 <= k < 64 ==> prev[k] == 48 else prev == links[i - 1].rootHash
  }

  lemma PrevMeans(links: seq<Link>, i: nat, prev: Digest)
    requires i < |links|
    ensures ChainedTo(links, i, prev) <==> prev == Prev(links, i)
  {
    if i == 0 {
      assert Genesis() == seq(64, _ => 48);
      if ChainedTo(links, i, prev) {
        assert prev == Genesis();
      }
    }
  }

  /** The link counts the events of its window, and its root hashes the root before it and their digests. */
  ghost predicate Reproduced(h: Hash, links: seq<Link>, log: seq<Event>, i: nat)
    requires i < |links|
  {
    var events := Window(log, links[i].from, links[i].to);
    && links[i].eventCount == |events|
    && exists prev :: ChainedTo(links, i, prev) && RootIs(h, prev, events, links[i].rootHash)
  }

  lemma PassesMeans(h: Hash, links: seq<Link>, log: seq<Event>, i: nat)
    requires i < |links|
    ensures Passes(h, links, log, i) <==> Reproduced(h, links, log, i)
  {
    hide RootIs, RootText, Window, ChainedTo;
    var prev := Prev(links, i);
    RootMeans(h, prev, Window(log, links[i].from, links[i].to), links[i].rootHash);
    forall p ensures ChainedTo(links, i, p) <==> p == prev {
      PrevMeans(links, i, p);
    }
  }

  /** What `verify` reports of a link that is not reproduced: its own root, and the count found or, when the
      count is right, the root computed. */
  ghost predicate Reports(h: Hash, links: seq<Link>, log: seq<Event>, i: nat, f: Failure)
    requires i < |links|
  {
    var events := Window(log, links[i].from, links[i].to);
    && f.sequence == links[i].sequence && f.expected == links[i].rootHash
    && if |events| != links[i].eventCount then f.actual == CountMismatch(|events|, links[i].eventCount)
       else f.actual.HashMismatch? && exists prev :: ChainedTo(links, i, prev) && RootIs(h, prev, events, f.actual.computed)
  }

  lemma FailureAt(h: Hash, links: seq<Link>, log: seq<Event>, i: nat)
    requires i < |links| && !Passes(h, links, log, i)
    ensures var f := FirstFailure(h, links[i..], log, Prev(links, i)); f.Some? && Reports(h, links, log, i, f.value)
  {
    hide RootIs, RootText, Window, ChainedTo, FirstFailure;
    FailureStep(h, links, log, i);
    var events := Window(log, links[i].from, links[i].to);
    RootMeans(h, Prev(links, i), events, h(RootText(h, Prev(links, i), events)));
    PrevMeans(links, i, Prev(links, i));
  }

  lemma {:induction false} FirstReported(h: Hash, links: seq<Link>, log: seq<Event>, i: nat)
    requires i <= |links|
    ensures var f := FirstFailure(h, links[i..], log, Prev(links, i));
      f.Some? ==> exists k :: i <= k < |links| && Reports(h, links, log, k, f.value) && !Passes(h, links, log, k)
                              && forall j :: i <= j < k ==> Passes(h, links, log, j)
    decreases |links| - i
  {
    if i == |links| {
    } else {
      hide FirstFailure, Reports, Under, RootText;
      FailureStep(h, links, log, i);
      if Passes(h, links, log, i) {
        FirstReported(h, links, log, i + 1);
      } else {
        FailureAt(h, links, log, i);
      }
    }
  }

  ghost predicate FirstBroken(h: Hash, links: seq<Link>, log: seq<Event>, k: int) {
    0 <= k < |links| && !Reproduced(h, links, log, k) && forall j :: 0 <= j < k ==> Reproduced(h, links, log, j)
  }

  /** `verify` says ok exactly when every link is reproduced, and else reports the first that is not. */
  lemma VerdictMeans(h: Hash, links: seq<Link>, log: seq<Event>)
    ensures Verdict(h, links, log) == None <==> forall i :: 0 <= i < |links| ==> Reproduced(h, links, log, i)
    ensures Verdict(h, links, log) != None ==>
      exists k :: FirstBroken(h, links, log, k) && Reports(h, links, log, k, Verdict(h, links, log).value)
  {
    hide Reproduced, Passes, Reports, FirstFailure;
    VerdictIsEveryLink(h, links, log);
    forall i | 0 <= i < |links| ensures Passes(h, links, log, i) <==> Reproduced(h, links, log, i) {
      PassesMeans(h, links, log, i);
    }
    assert links[0..] == links;
    FirstReported(h, links, log, 0);
    if Verdict(h, links, log) != None {
      var k :| 0 <= k < |links| && Reports(h, links, log, k, Verdict(h, links, log).value) && !Passes(h, links, log, k)
               && forall j :: 0 <= j < k ==> Passes(h, links, log, j);
      assert FirstBroken(h, links, log, k);
    }
  }

  /** Every event later than the last seal, and from the epoch on when nothing is sealed. */
  predicate IsNew(links: seq<Link>, e: Event) {
    if links == [] then e.createdAt >= 0 else e.createdAt > links[|links| - 1].to
  }

  /** A build without new events changes nothing.  Otherwise it adds one link: numbered on, chained on, from
      the first new time to the last, over exactly the new events. */
  lemma BuildMeans(h: Hash, links: seq<Link>, log: seq<Event>)
    requires InOrder(log)
    ensures (forall e :: e in log ==> !IsNew(links, e)) ==> Built(h, links, log) == links
    ensures (exists e :: e in log && IsNew(links, e)) ==> |Built(h, links, log)| == |links| + 1
    ensures |Built(h, links, log)| == |links| + 1 ==>
      var link := Built(h, links, log)[|links|]; var events := Window(log, link.from, link.to);
      && Built(h, links, log)[..|links|] == links
      && (forall e :: e in events <==> e in log && IsNew(links, e))
      && (exists e :: e in events && e.createdAt == link.from) && (exists e :: e in events && e.createdAt == link.to)
      && link.eventCount == |events|
      && link.sequence == (if links == [] then 1 else links[|links| - 1].sequence + 1)
      && link.prevHash == (if links == [] then None else Some(links[|links| - 1].rootHash))
      && exists prev :: ChainedTo(links + [link], |links|, prev) && RootIs(h, prev, events, link.rootHash)
  {
    hide RootIs, RootText, Window, Since, ChainedTo;
    var u := Unsealed(links, log);
    UnsealedIsSince(links, log);
    if u != [] {
      NextLinkWindow(h, links, log);
      var link := NextLink(h, links, u);
      var prev := Prev(links, |links|);
      PrevMeans(links + [link], |links|, prev);
      RootMeans(h, prev, u, link.rootHash);
      assert u[0] in u && u[|u| - 1] in u;
    }
  }
}
