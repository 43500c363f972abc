/**
 Every run of appends and builds, from an empty trail: the shape of the chain, what `verify` says
 and how many events are sealed.
 */
module AuditRuns {
  import opened Wrappers
  import opened Texts
  import opened AuditChain
  import opened AuditLaws

  datatype Act = Append(e: Event) | Build

  datatype State = State(log: seq<Event>, links: seq<Link>)

  function Step(h: Hash, s: State, act: Act): State {
    match act
    case Append(e) => s.(log := Inserted(s.log, e))
    case Build => s.(links := Built(h, s.links, s.log))
  }

  function After(h: Hash, acts: seq<Act>): State {
    if acts == [] then State([], [])
    else Step(h, After(h, acts[..|acts| - 1]), acts[|acts| - 1])
  }

  /** Some append landed inside a window sealed before it. */
  ghost predicate Breached(h: Hash, acts: seq<Act>) {
    exists n :: 0 <= n < |acts| && BreachAt(After(h, acts[..n]).links, acts[n])
  }

  ghost predicate BreachAt(links: seq<Link>, act: Act) {
    act.Append? && exists k :: 0 <= k < |links| && Inside(links[k], act.e)
  }

  /** Every append is strictly later than the last sealed time. */
  ghost predicate Timely(h: Hash, acts: seq<Act>) {
    forall n :: 0 <= n < |acts| ==> TimelyAt(After(h, acts[..n]).links, acts[n])
  }

  predicate TimelyAt(links: seq<Link>, act: Act) {
    act.Append? && links != [] ==> act.e.createdAt > links[|links| - 1].to
  }

  // ── The shape of the chain ────────────────────────────────────────────────

  ghost predicate Chronological(log: seq<Event>) {
    forall i, j :: 0 <= i < j < |log| ==> log[i].createdAt <= log[j].createdAt
  }

  /** Numbered from 1, each chained to the one before, with windows disjoint and in order, none empty. */
  ghost predicate Chained(links: seq<Link>) {
    forall i :: 0 <= i < |links| ==> ChainedAt(links, i)
  }

  ghost predicate ChainedAt(links: seq<Link>, i: int)
    requires 0 <= i < |links|
  {
    && links[i].sequence == i + 1
    && links[i].prevHash == (if i == 0 then None else Some(links[i - 1].rootHash))
    && 0 <= links[i].from <= links[i].to
    && links[i].eventCount > 0
    && (i > 0 ==> links[i - 1].to < links[i].from)
  }

  lemma {:induction false} WindowsInOrder(links: seq<Link>, i: nat, j: nat)
    requires Chained(links) && i < j < |links|
    ensures links[i].to < links[j].from
  {
    assert ChainedAt(links, j);
    if i == j - 1 {
    } else {
      WindowsInOrder(links, i, j - 1);
      assert ChainedAt(links, j - 1);
    }
  }

  lemma {:induction false} InsertedChronological(log: seq<Event>, e: Event)
    requires Chronological(log)
    ensures Chronological(Inserted(log, e))
  {
    if log == [] || Earlier(e, log[0]) {
    } else {
      InsertedChronological(log[1..], e);
      var r := Inserted(log[1..], e);
      assert forall j :: 0 <= j < |r| ==> r[j] in r;
      assert forall x :: x in log[1..] ==> log[0].createdAt <= x.createdAt;
    }
  }

  /** Inserting keeps the order every query asks for, ids being distinct. */
  lemma {:induction false} InsertedOrdered(log: seq<Event>, e: Event)
    requires Ordered(log) && forall x :: x in log ==> x.id != e.id
    ensures Ordered(Inserted(log, e))
  {
    hide Less;
    if log == [] {
    } else {
      if Earlier(e, log[0]) {
        forall j | 0 <= j < |log| ensures Earlier(e, log[j]) {
          if j > 0 {
            EarlierTransitive(e, log[0], log[j]);
          }
        }
      } else {
        LessIsTotal(e.id, log[0].id);
        InsertedOrdered(log[1..], e);
        var r := Inserted(log[1..], e);
        forall j | 0 <= j < |r| ensures Earlier(log[0], r[j]) {
          assert r[j] in r;
        }
      }
    }
  }

  lemma EarlierTransitive(a: Event, b: Event, c: Event)
    requires Earlier(a, b) && Earlier(b, c)
    ensures Earlier(a, c)
  {
    hide Less;
    if Less(a.id, b.id) && Less(b.id, c.id) {
      LessTransitive(a.id, b.id, c.id);
    }
  }

  // ── What a build seals ────────────────────────────────────────────────────

  function LastTo(links: seq<Link>): int {
    if links == [] then -1 else links[|links| - 1].to
  }

  /** The two queries of a build amount to one: everything after the last sealed time. */
  lemma {:induction false} SinceTwice(log: seq<Event>, from: int)
    ensures Since(Since(log, from), from + 1) == Since(log, from + 1)
  {
    if log == [] {
    } else {
      SinceTwice(log[1..], from);
      if from <= log[0].createdAt {
        assert Since(log, from) == [log[0]] + Since(log[1..], from);
        assert Since(log, from)[1..] == Since(log[1..], from);
      } else {
        assert Since(log, from) == Since(log[1..], from);
        assert Since(log, from + 1) == Since(log[1..], from + 1);
      }
    }
  }

  lemma UnsealedIsSince(links: seq<Link>, log: seq<Event>)
    ensures Unsealed(links, log) == Since(log, LastTo(links) + 1)
  {
    hide Since;
    if links != [] {
      SinceTwice(log, LastTo(links));
    }
  }

  lemma {:induction false} SinceChronological(log: seq<Event>, from: int)
    requires Chronological(log)
    ensures Chronological(Since(log, from))
  {
    if log == [] {
    } else {
      SinceChronological(log[1..], from);
      var r := Since(log[1..], from);
      assert forall j :: 0 <= j < |r| ==> r[j] in r;
      assert forall x :: x in log[1..] ==> log[0].createdAt <= x.createdAt;
    }
  }

  /** A window that starts at or after `since`, ends at or after every event and misses none of
      the events since then is just those events. */
  lemma {:induction false} SinceIsWindow(log: seq<Event>, since: int, from: int, to: int)
    requires since <= from
    requires forall e :: e in log && since <= e.createdAt ==> InWindow(e, from, to)
    ensures Window(log, from, to) == Since(log, since)
  {
    if log == [] {
    } else {
      assert log[0] in log;
      SinceIsWindow(log[1..], since, from, to);
    }
  }

  lemma NextLinkWindow(h: Hash, links: seq<Link>, log: seq<Event>)
    requires Chronological(log) && Unsealed(links, log) != []
    ensures var next := NextLink(h, links, Unsealed(links, log));
      && Under(next, log) == Unsealed(links, log)
      && LastTo(links) < next.from <= next.to
      && forall e :: e in log ==> e.createdAt <= next.to
  {
    hide RootText, Since, Window;
    var u := Unsealed(links, log);
    UnsealedIsSince(links, log);
    SinceChronological(log, LastTo(links) + 1);
    var next := NextLink(h, links, u);
    assert u[0] in u && u[|u| - 1] in u;
    forall e | e in log ensures e.createdAt <= next.to && (LastTo(links) < e.createdAt ==> next.from <= e.createdAt) {
      if LastTo(links) < e.createdAt {
        assert e in u;
        var k :| 0 <= k < |u| && u[k] == e;
      }
    }
    SinceIsWindow(log, LastTo(links) + 1, next.from, next.to);
  }

  lemma {:induction false} NothingSince(log: seq<Event>, from: int)
    requires forall e :: e in log ==> e.createdAt < from
    ensures Since(log, from) == []
  {
    if log == [] {
    } else {
      assert log[0] in log;
      NothingSince(log[1..], from);
    }
  }

  /** A build leaves nothing for a second build. */
  lemma BuildTwiceIsBuildOnce(h: Hash, links: seq<Link>, log: seq<Event>)
    requires Chronological(log)
    ensures Built(h, Built(h, links, log), log) == Built(h, links, log)
  {
    hide NextLink, Since, Unsealed;
    if Unsealed(links, log) != [] {
      NextLinkWindow(h, links, log);
      var once := Built(h, links, log);
      UnsealedIsSince(once, log);
      assert once[|once| - 1] == NextLink(h, links, Unsealed(links, log));
      assert forall e :: e in log ==> e.createdAt <= LastTo(once);
      NothingSince(log, LastTo(once) + 1);
    }
  }

  // ── Every run ─────────────────────────────────────────────────────────────

  /** What holds after every act of every run, timely or not. */
  ghost predicate Sound(h: Hash, s: State) {
    && Chronological(s.log) && Chained(s.links)
    && forall k :: 0 <= k < |s.links| ==> SoundAt(h, s, k)
  }

  /** No window has lost an event, and one that gained none still has its root. */
  ghost predicate SoundAt(h: Hash, s: State, k: int)
    requires 0 <= k < |s.links|
  {
    && s.links[k].eventCount <= |Under(s.links[k], s.log)|
    && (s.links[k].eventCount == |Under(s.links[k], s.log)| ==> Passes(h, s.links, s.log, k))
  }

  ghost predicate Swollen(s: State, k: int)
    requires 0 <= k < |s.links|
  {
    s.links[k].eventCount < |Under(s.links[k], s.log)|
  }

  lemma SoundVerdict(h: Hash, s: State)
    requires Sound(h, s)
    ensures Verdict(h, s.links, s.log) == None <==> forall k :: 0 <= k < |s.links| ==> !Swollen(s, k)
  {
    hide Verdict, Under, Chained, Chronological;
    VerdictIsEveryLink(h, s.links, s.log);
    forall k | 0 <= k < |s.links| ensures Passes(h, s.links, s.log, k) <==> !Swollen(s, k) {
      assert SoundAt(h, s, k);
    }
  }

  lemma AppendKeepsSound(h: Hash, s: State, e: Event)
    requires Sound(h, s)
    ensures Sound(h, Step(h, s, Append(e)))
    ensures forall k :: 0 <= k < |s.links| ==> (Swollen(Step(h, s, Append(e)), k) <==> Swollen(s, k) || Inside(s.links[k], e))
  {
    hide RootText, Window, InWindow, Inserted, Chained, Chronological;
    var t := Step(h, s, Append(e));
    InsertedChronological(s.log, e);
    forall k | 0 <= k < |s.links| ensures SoundAt(h, t, k) && (Swollen(t, k) <==> Swollen(s, k) || Inside(s.links[k], e)) {
      assert SoundAt(h, s, k);
      InsertedWindow(s.log, e, s.links[k].from, s.links[k].to);
    }
  }

  lemma BuildKeepsSound(h: Hash, s: State)
    requires Sound(h, s)
    ensures Sound(h, Step(h, s, Build)) && s.links <= Step(h, s, Build).links
    ensures forall k :: 0 <= k < |s.links| ==> (Swollen(Step(h, s, Build), k) <==> Swollen(s, k))
    ensures forall k :: |s.links| <= k < |Step(h, s, Build).links| ==> !Swollen(Step(h, s, Build), k)
  {
    hide RootText, Window, Unsealed, Since, Chronological, Under;
    var t := Step(h, s, Build);
    var n := |s.links|;
    if Unsealed(s.links, s.log) != [] {
      var next := NextLink(h, s.links, Unsealed(s.links, s.log));
      NextLinkWindow(h, s.links, s.log);
      assert t.links == s.links + [next];
      if n > 0 {
        assert ChainedAt(s.links, n - 1);
      }
      forall i | 0 <= i < n + 1 ensures ChainedAt(t.links, i) && SoundAt(h, t, i) && (i < n ==> (Swollen(t, i) <==> Swollen(s, i))) {
        if i < n {
          assert ChainedAt(s.links, i) && SoundAt(h, s, i);
        }
      }
    }
  }

  lemma {:induction false} RunIsSound(h: Hash, acts: seq<Act>)
    ensures Sound(h, After(h, acts))
    ensures (exists k :: 0 <= k < |After(h, acts).links| && Swollen(After(h, acts), k)) <==> Breached(h, acts)
  {
    hide Sound, Swollen, Built, Inserted, Inside;
    if acts == [] {
      EmptySound(h);
    } else {
      var n := |acts| - 1;
      var s, t := After(h, acts[..n]), After(h, acts);
      RunIsSound(h, acts[..n]);
      BreachedStep(h, acts);
      match acts[n]
      case Append(e) =>
        AppendKeepsSound(h, s, e);
      case Build =>
        BuildKeepsSound(h, s);
    }
  }

  lemma EmptySound(h: Hash)
    ensures Sound(h, State([], []))
  {
  }

  lemma BreachedStep(h: Hash, acts: seq<Act>)
    requires acts != []
    ensures var n := |acts| - 1; Breached(h, acts) <==> Breached(h, acts[..n]) || BreachAt(After(h, acts[..n]).links, acts[n])
  {
    hide BreachAt, After;
    var n := |acts| - 1;
    var init := acts[..n];
    forall m | 0 <= m < n ensures init[..m] == acts[..m] && init[m] == acts[m] {
    }
    if Breached(h, acts) {
      var m :| 0 <= m < |acts| && BreachAt(After(h, acts[..m]).links, acts[m]);
      if m < n {
        assert BreachAt(After(h, init[..m]).links, init[m]);
      }
    }
    if Breached(h, init) {
      var m :| 0 <= m < |init| && BreachAt(After(h, init[..m]).links, init[m]);
      assert BreachAt(After(h, acts[..m]).links, acts[m]);
    }
  }

  /** The main result about runs: links are numbered, chained and disjoint whatever happens, and
      `verify` fails exactly when some event was added inside a window already sealed. */
  lemma VerifyTellsBreaches(h: Hash, acts: seq<Act>)
    ensures var s := After(h, acts); Chained(s.links) && Chronological(s.log)
    ensures Verdict(h, After(h, acts).links, After(h, acts).log) == None <==> !Breached(h, acts)
  {
    hide Verdict, After, Swollen, Breached, Chained, Chronological;
    RunIsSound(h, acts);
    assert Sound(h, After(h, acts));
    SoundVerdict(h, After(h, acts));
  }

  /** An honest event recorded in the same millisecond as the last sealed one, but after the build,
      already makes `verify` fail, at the last link. */
  lemma SealedMillisecond(h: Hash, acts: seq<Act>, e: Event)
    requires !Breached(h, acts)
    requires After(h, acts).links != [] && e.createdAt == LastTo(After(h, acts).links)
    ensures var s := After(h, acts); var last := s.links[|s.links| - 1];
            Verdict(h, s.links, Inserted(s.log, e))
            == Some(Failure(|s.links|, last.rootHash, CountMismatch(last.eventCount + 1, last.eventCount)))
  {
    hide Verdict, After, Breached, Chronological;
    var s := After(h, acts);
    var n := |s.links|;
    VerifyTellsBreaches(h, acts);
    assert ChainedAt(s.links, n - 1);
    forall k | 0 <= k < n - 1 ensures !Inside(s.links[k], e) {
      WindowsInOrder(s.links, k, n - 1);
    }
    InsertionIsCaught(h, s.links, s.log, e);
    assert FirstInside(s.links, e, 0, n - 1);
  }

  // ── How many events are sealed ────────────────────────────────────────────

  function Total(links: seq<Link>): nat {
    if links == [] then 0 else Total(links[..|links| - 1]) + links[|links| - 1].eventCount
  }

  /** An append at a time the chain has already passed. */
  predicate LateAt(links: seq<Link>, act: Act) {
    act.Append? && 0 <= act.e.createdAt <= LastTo(links)
  }

  function Late(h: Hash, acts: seq<Act>): nat {
    if acts == [] then 0
    else
      var n := |acts| - 1;
      Late(h, acts[..n]) + if LateAt(After(h, acts[..n]).links, acts[n]) then 1 else 0
  }

  lemma {:induction false} WindowSplits(log: seq<Event>, from: int, mid: int, to: int)
    requires from <= mid + 1 <= to + 1
    ensures |Window(log, from, to)| == |Window(log, from, mid)| + |Window(log, mid + 1, to)|
  {
    if log == [] {
    } else {
      WindowSplits(log[1..], from, mid, to);
    }
  }

  lemma {:induction false} NothingBeforeEpoch(log: seq<Event>)
    ensures Window(log, 0, -1) == []
  {
    if log == [] {
    } else {
      NothingBeforeEpoch(log[1..]);
    }
  }

  lemma BuildCounts(h: Hash, s: State)
    requires Chronological(s.log) && Chained(s.links)
    ensures |Window(s.log, 0, LastTo(Step(h, s, Build).links))| - Total(Step(h, s, Build).links)
            == |Window(s.log, 0, LastTo(s.links))| - Total(s.links)
  {
    hide RootText, Window, Unsealed, Since, Chronological;
    var t := Step(h, s, Build);
    var last := LastTo(s.links);
    if Unsealed(s.links, s.log) != [] {
      var next := NextLink(h, s.links, Unsealed(s.links, s.log));
      NextLinkWindow(h, s.links, s.log);
      assert t.links[..|s.links|] == s.links;
      if s.links != [] {
        assert ChainedAt(s.links, |s.links| - 1);
      }
      WindowSplits(s.log, 0, last, next.to);
      UnsealedIsSince(s.links, s.log);
      SinceIsWindow(s.log, last + 1, last + 1, next.to);
    }
  }

  /** Conservation, over every run: the events from the epoch to the last sealed time are those the
      links count, plus one for every late append. */
  lemma {:induction false} EverySealedEventIsCounted(h: Hash, acts: seq<Act>)
    ensures var s := After(h, acts); |Window(s.log, 0, LastTo(s.links))| == Total(s.links) + Late(h, acts)
  {
    hide Built, Inserted, Chronological, Chained, Window;
    if acts == [] {
      NothingBeforeEpoch([]);
    } else {
      var n := |acts| - 1;
      var s := After(h, acts[..n]);
      EverySealedEventIsCounted(h, acts[..n]);
      VerifyTellsBreaches(h, acts[..n]);
      match acts[n]
      case Append(e) =>
        InsertedWindow(s.log, e, 0, LastTo(s.links));
      case Build =>
        BuildCounts(h, s);
    }
  }

  /** When every append is strictly later than the last sealed time, `verify` is ok after every act
      and the link counts add up to all events from the epoch to the last sealed time. */
  lemma {:induction false} TimelyRunsVerify(h: Hash, acts: seq<Act>)
    requires Timely(h, acts)
    ensures var s := After(h, acts); Verdict(h, s.links, s.log) == None
    ensures var s := After(h, acts); |Window(s.log, 0, LastTo(s.links))| == Total(s.links)
  {
    hide Verdict, After, Chronological, Total, Window, Breached, Late;
    VerifyTellsBreaches(h, acts);
    EverySealedEventIsCounted(h, acts);
    NeverLate(h, acts);
    NeverBreached(h, acts);
  }

  lemma {:induction false} NeverLate(h: Hash, acts: seq<Act>)
    requires Timely(h, acts)
    ensures Late(h, acts) == 0
  {
    hide After;
    if acts == [] {
    } else {
      var n := |acts| - 1;
      forall m | 0 <= m < n ensures TimelyAt(After(h, acts[..n][..m]).links, acts[..n][m]) {
        assert acts[..n][..m] == acts[..m];
      }
      NeverLate(h, acts[..n]);
      assert TimelyAt(After(h, acts[..n]).links, acts[n]);
    }
  }

  lemma NeverBreached(h: Hash, acts: seq<Act>)
    requires Timely(h, acts)
    ensures !Breached(h, acts)
  {
    hide After, Chronological, Verdict;
    forall n | 0 <= n < |acts| ensures !BreachAt(After(h, acts[..n]).links, acts[n]) {
      var links := After(h, acts[..n]).links;
      VerifyTellsBreaches(h, acts[..n]);
      assert TimelyAt(links, acts[n]);
      forall k | 0 <= k < |links| - 1 ensures links[k].to < links[|links| - 1].to {
        WindowsInOrder(links, k, |links| - 1);
        assert ChainedAt(links, |links| - 1);
      }
    }
  }
}
