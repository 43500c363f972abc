/**
 The audit hash chain over thread events: `build` seals the events since the last link, `verify`
 re-derives every link from the events.

 SHA-256 is a parameter: any function from texts to 64-unit digests.  No such function is injective
 on all texts, so tamper evidence is stated for a hash without collisions among the texts that the
 two verifications hash.
 */
module AuditChain {
  import opened Wrappers
  import opened Texts
  import opened CanonicalJson

  // ── Data model ────────────────────────────────────────────────────────────

  type Digest = t: Text | |t| == 64 witness seq(64, _ => 48)

  type Hash = Text -> Digest

  /** '0' repeated 64 times. */
  function Genesis(): Digest {
    seq(64, _ => 48)
  }

  /** Times are epoch milliseconds. */
  datatype Event = Event(id: Text, tenantId: Text, engagementId: Text, eventType: Text, actorType: Text,
                         actorId: Option<Text>, payload: Json, createdAt: int)

  datatype Link = Link(sequence: nat, rootHash: Digest, prevHash: Option<Digest>, from: int, to: int, eventCount: nat)

  datatype Mismatch = CountMismatch(found: nat, sealed: nat) | HashMismatch(computed: Digest)

  datatype Failure = Failure(sequence: nat, expected: Digest, actual: Mismatch)

  // ── Hashing ───────────────────────────────────────────────────────────────

  function NatText(n: nat): (t: Text)
    ensures t != [] && forall i :: 0 <= i < |t| ==> 48 <= t[i] <= 57
  {
    if n < 10 then [48 + n] else NatText(n / 10) + [48 + n % 10]
  }

  function IntText(n: int): Text {
    if n < 0 then [45] + NatText(-n) else NatText(n)
  }

  /** The array of fields the event hash covers; the payload goes in as its canonical text. */
  function EventJson(e: Event): Json {
    JArray([JString(e.id), JString(e.tenantId), JString(e.engagementId), JString(e.eventType), JString(e.actorType),
            if e.actorId.Some? then JString(e.actorId.value) else JNull,
            JString(Canon(e.payload)), JNumber(IntText(e.createdAt))])
  }

  function EventText(e: Event): Text {
    Canon(EventJson(e))
  }

  function EventHashes(h: Hash, events: seq<Event>): Text {
    if events == [] then [] else EventHashes(h, events[..|events| - 1]) + h(EventText(events[|events| - 1]))
  }

  function RootText(h: Hash, prev: Digest, events: seq<Event>): Text {
    prev + EventHashes(h, events)
  }

  method ComputeRoot(h: Hash, prev: Digest, events: seq<Event>) returns (root: Digest)
    ensures root == h(RootText(h, prev, events))
  {
    hide EventText;
    var fed: Text := prev;
    for i := 0 to |events|
      invariant fed == RootText(h, prev, events[..i])
    {
      assert events[..i + 1][..i] == events[..i];
      fed := fed + h(EventText(events[i]));
    }
    assert events[..|events|] == events;
    return h(fed);
  }

  // ── Queries over the event table, which every query reads by (createdAt, id) ──

  predicate Earlier(a: Event, b: Event) {
    a.createdAt < b.createdAt || (a.createdAt == b.createdAt && Less(a.id, b.id))
  }

  ghost predicate Ordered(log: seq<Event>) {
    forall i, j :: 0 <= i < j < |log| ==> Earlier(log[i], log[j])
  }

  predicate InWindow(e: Event, from: int, to: int) {
    from <= e.createdAt <= to
  }

  /** The events of a closed window, in order. */
  function Window(log: seq<Event>, from: int, to: int): (w: seq<Event>)
    ensures forall e :: e in w <==> e in log && InWindow(e, from, to)
  {
    if log == [] then []
    else (if InWindow(log[0], from, to) then [log[0]] else []) + Window(log[1..], from, to)
  }

  /** The events from a time on. */
  function Since(log: seq<Event>, from: int): (w: seq<Event>)
    ensures forall e :: e in w <==> e in log && from <= e.createdAt
  {
    if log == [] then []
    else (if from <= log[0].createdAt then [log[0]] else []) + Since(log[1..], from)
  }

  // ── Verify ────────────────────────────────────────────────────────────────

  /** The first link that the events do not reproduce, if any. */
  function FirstFailure(h: Hash, links: seq<Link>, log: seq<Event>, prev: Digest): Option<Failure> {
    if links == [] then None
    else
      var link := links[0];
      var events := Window(log, link.from, link.to);
      var computed := h(RootText(h, prev, events));
      if |events| != link.eventCount then Some(Failure(link.sequence, link.rootHash, CountMismatch(|events|, link.eventCount)))
      else if computed != link.rootHash then Some(Failure(link.sequence, link.rootHash, HashMismatch(computed)))
      else FirstFailure(h, links[1..], log, link.rootHash)
  }

  function Verdict(h: Hash, links: seq<Link>, log: seq<Event>): Option<Failure> {
    FirstFailure(h, links, log, Genesis())
  }

  // ── Build ─────────────────────────────────────────────────────────────────

  /** The events no link covers yet: from the epoch for the first link, strictly later than the
      last sealed time for the others. */
  function Unsealed(links: seq<Link>, log: seq<Event>): seq<Event> {
    if links == [] then Since(log, 0) else Since(Since(log, links[|links| - 1].to), links[|links| - 1].to + 1)
  }

  function NextLink(h: Hash, links: seq<Link>, unsealed: seq<Event>): Link
    requires unsealed != []
  {
    var prev := if links == [] then Genesis() else links[|links| - 1].rootHash;
    Link(if links == [] then 1 else links[|links| - 1].sequence + 1,
         h(RootText(h, prev, unsealed)),
         if links == [] then None else Some(links[|links| - 1].rootHash),
         unsealed[0].createdAt, unsealed[|unsealed| - 1].createdAt, |unsealed|)
  }

  function Built(h: Hash, links: seq<Link>, log: seq<Event>): seq<Link> {
    var unsealed := Unsealed(links, log);
    if unsealed == [] then links else links + [NextLink(h, links, unsealed)]
  }

  /** Where a new event lands in the order every query reads. */
  function Inserted(log: seq<Event>, e: Event): (r: seq<Event>)
    ensures forall x :: x in r <==> x == e || x in log
  {
    if log == [] then [e]
    else if Earlier(e, log[0]) then [e] + log
    else [log[0]] + Inserted(log[1..], e)
  }

  /** One tenant's events and links. */
  class Trail {
    const h: Hash
    var log: seq<Event>
    var links: seq<Link>

    constructor (h: Hash)
      ensures this.h == h && log == [] && links == []
    {
      this.h := h;
      log, links := [], [];
    }

    method Append(e: Event)
      modifies this`log
      ensures log == Inserted(old(log), e)
    {
      log := Inserted(log, e);
    }

    method Build() returns (link: Option<Link>)
      modifies this`links
      ensures links == Built(h, old(links), log)
      ensures link == if links == old(links) then None else Some(links[|links| - 1])
    {
      hide RootText, Since;
      var since := if |links| > 0 then links[|links| - 1].to else 0;
      var events := Since(log, since);
      var unsealed := if |links| > 0 then Since(events, since + 1) else events;
      if |unsealed| == 0 {
        return None;
      }
      var prevHash := if |links| > 0 then links[|links| - 1].rootHash else Genesis();
      var rootHash := ComputeRoot(h, prevHash, unsealed);
      var sequence := (if |links| > 0 then links[|links| - 1].sequence else 0) + 1;
      var created := Link(sequence, rootHash, if |links| > 0 then Some(links[|links| - 1].rootHash) else None,
                          unsealed[0].createdAt, unsealed[|unsealed| - 1].createdAt, |unsealed|);
      links := links + [created];
      return Some(created);
    }

    method Verify() returns (failure: Option<Failure>)
      ensures failure == Verdict(h, links, log)
    {
      hide RootText, Window;
      var prevHash := Genesis();
      for i := 0 to |links|
        invariant Verdict(h, links, log) == FirstFailure(h, links[i..], log, prevHash)
      {
        var link := links[i];
        assert links[i..][0] == link && links[i..][1..] == links[i + 1..];
        var events := Window(log, link.from, link.to);
        if |events| != link.eventCount {
          return Some(Failure(link.sequence, link.rootHash, CountMismatch(|events|, link.eventCount)));
        }
        var computed := ComputeRoot(h, prevHash, events);
        if computed != link.rootHash {
          return Some(Failure(link.sequence, link.rootHash, HashMismatch(computed)));
        }
        prevHash := link.rootHash;
      }
      return None;
    }
  }
}
