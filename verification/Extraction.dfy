/**
 The per-file extraction row: bounded retries, the content-addressed inference cache and the manual
 overrides laid over every inference.  Each method is one atomic step; what the language model and
 the mapper answer is an arbitrary parameter.
 */
module Extraction {
  import opened Wrappers

  // ── Data model ────────────────────────────────────────────────────────────

  datatype Status = Legacy | Pending | Processing | Ready | RetryQueued | Failed | Skipped

  datatype Source = Manual | Inferred

  datatype CustomerType = Internal | External

  datatype Entity = Entity(slug: string, scope: real, methodology: Option<string>, customerType: CustomerType,
                           confidence: real, reasoning: string, source: Source)

  /** Times are epoch milliseconds. */
  datatype File = File(status: Status, attempts: nat, retryAt: Option<int>, entities: seq<Entity>, hash: Option<string>)

  const MAX_RETRY_ATTEMPTS: nat := 5

  const RETRY_DELAY_MS: seq<nat> := [90_000, 180_000, 300_000, 600_000, 600_000]

  datatype Fallback = NoEntities | Failure

  /** One answer of the mapper: the hash of its inputs, what it inferred, and whether it fell back. */
  datatype Inference = Inference(inputHash: string, inferred: seq<Entity>, fallback: Option<Fallback>)

  /** A field left out of a patch is None, and so is a scope that is not finite; a methodology
      patched to null is Some(None). */
  datatype Patch = Patch(scope: Option<real>, methodology: Option<Option<string>>, customerType: Option<CustomerType>)

  datatype Error = InferredEntityNotFound

  // ── Entity lists ──────────────────────────────────────────────────────────

  /** The entities a person has now. */
  function ManualOnly(es: seq<Entity>): (r: seq<Entity>)
    ensures forall e :: e in r <==> e in es && e.source == Manual
  {
    if es == [] then []
    else
      var init, e := es[..|es| - 1], es[|es| - 1];
      assert es == init + [e];
      ManualOnly(init) + if e.source == Manual then [e] else []
  }

  function Slugs(es: seq<Entity>): set<string> {
    set e | e in es :: e.slug
  }

  function Without(es: seq<Entity>, slugs: set<string>): (r: seq<Entity>)
    ensures forall e :: e in r <==> e in es && e.slug !in slugs
  {
    if es == [] then []
    else
      var init, e := es[..|es| - 1], es[|es| - 1];
      assert es == init + [e];
      Without(init, slugs) + if e.slug in slugs then [] else [e]
  }

  /** Manual entities first, then whatever was inferred for other slugs. */
  function Overlaid(prior: seq<Entity>, inferred: seq<Entity>): seq<Entity> {
    ManualOnly(prior) + Without(inferred, Slugs(ManualOnly(prior)))
  }

  /** The position of the first entity with a slug, or the length. */
  function IndexOf(es: seq<Entity>, slug: string): (i: nat)
    ensures i <= |es| && (i < |es| ==> es[i].slug == slug)
    ensures forall k :: 0 <= k < i ==> es[k].slug != slug
  {
    if es == [] || es[0].slug == slug then 0 else 1 + IndexOf(es[1..], slug)
  }

  function Patched(e: Entity, p: Patch): Entity {
    e.(scope := if p.scope.Some? && p.scope.value > 0.0 then p.scope.value else e.scope,
       methodology := if p.methodology.Some? then p.methodology.value else e.methodology,
       customerType := if p.customerType.Some? then p.customerType.value else e.customerType,
       confidence := 1.0,
       reasoning := "Manually overridden by sales rep",
       source := Manual)
  }

  // ── Steps on values ───────────────────────────────────────────────────────

  function Kicked(f: File): File {
    if f.status == Processing then f
    else f.(status := Processing, retryAt := None, entities := ManualOnly(f.entities), hash := None)
  }

  predicate CacheHit(f: File, i: Inference) {
    f.hash == Some(i.inputHash) && f.entities != []
  }

  predicate Cacheable(i: Inference) {
    i.fallback != Some(Failure)
  }

  function Inferring(f: File, i: Inference, force: bool): File {
    if !force && CacheHit(f, i) then f
    else f.(entities := Overlaid(f.entities, i.inferred), hash := if Cacheable(i) then Some(i.inputHash) else None)
  }

  function Delay(attempt: nat): nat
    requires attempt >= 1
  {
    RETRY_DELAY_MS[if attempt - 1 < |RETRY_DELAY_MS| - 1 then attempt - 1 else |RETRY_DELAY_MS| - 1]
  }

  function Terminated(f: File, status: Status): File {
    f.(status := status)
  }

  function Queued(f: File, now: int): File {
    if f.attempts + 1 > MAX_RETRY_ATTEMPTS then Terminated(f, Failed)
    else f.(status := RetryQueued, attempts := f.attempts + 1, retryAt := Some(now + Delay(f.attempts + 1)))
  }

  function Finished(f: File): File {
    f.(status := Ready, retryAt := None, attempts := 0)
  }

  function Overridden(f: File, slug: string, p: Patch): Result<File, Error> {
    var i := IndexOf(f.entities, slug);
    if i == |f.entities| then Err(InferredEntityNotFound)
    else Ok(f.(entities := f.entities[i := Patched(f.entities[i], p)]))
  }

  /** A minute and a half after the first attempt, then 3, 5, 10 and 10 minutes. */
  predicate WaitsFor(attempts: nat, wait: int) {
    match attempts
    case 0 => wait == 90 * 1000
    case 1 => wait == 3 * 60 * 1000
    case 2 => wait == 5 * 60 * 1000
    case _ => wait == 10 * 60 * 1000
  }

  /** What a person set of an entity: the positive scope, the methodology and the customer type given, the
      old ones where none is, and full confidence. */
  predicate SetByHand(e: Entity, p: Patch, now: Entity) {
    && now.slug == e.slug && now.source == Manual && now.confidence == 1.0
    && (match p.scope case Some(x) => now.scope == (if x > 0.0 then x else e.scope) case None => now.scope == e.scope)
    && (match p.methodology case Some(m) => now.methodology == m case None => now.methodology == e.methodology)
    && (match p.customerType case Some(c) => now.customerType == c case None => now.customerType == e.customerType)
    && now.reasoning == "Manually overridden by sales rep"
  }

  /** The first entity of the slug is replaced and nothing else changes. */
  ghost predicate Replaced(f: File, slug: string, p: Patch, k: nat, g: File)
    requires k < |f.entities|
  {
    && f.entities[k].slug == slug && (forall j :: 0 <= j < k ==> f.entities[j].slug != slug)
    && g == f.(entities := g.entities) && |g.entities| == |f.entities| && SetByHand(f.entities[k], p, g.entities[k])
    && forall j :: 0 <= j < |f.entities| && j != k ==> g.entities[j] == f.entities[j]
  }

  predicate Due(f: File, now: int) {
    f.status == RetryQueued && f.retryAt.Some? && f.retryAt.value <= now
  }

  method NotIn(es: seq<Entity>, slugs: set<string>) returns (kept: seq<Entity>)
    ensures kept == Without(es, slugs)
  {
    kept := [];
    for k := 0 to |es|
      invariant kept == Without(es[..k], slugs)
    {
      assert es[..k + 1][..k] == es[..k];
      if es[k].slug !in slugs {
        kept := kept + [es[k]];
      }
    }
    assert es[..|es|] == es;
  }

  // ── The row ───────────────────────────────────────────────────────────────

  class Row {
    var status: Status
    var attempts: nat
    var retryAt: Option<int>
    var entities: seq<Entity>
    var hash: Option<string>

    constructor ()
      ensures Value() == File(Pending, 0, None, [], None)
    {
      status, attempts, retryAt, entities, hash := Pending, 0, None, [], None;
    }

    function Value(): File
      reads this
    {
      File(status, attempts, retryAt, entities, hash)
    }

    method Kickoff() returns (moved: bool)
      modifies this
      ensures Value() == Kicked(old(Value()))
      ensures moved == (old(status) != Processing)
      ensures Value() == if moved then File(Processing, old(attempts), None, ManualOnly(old(entities)), None) else old(Value())
    {
      if status == Processing {
        return false;
      }
      var kept := Manuals();
      status, retryAt, entities, hash := Processing, None, kept, None;
      return true;
    }

    /** The sweep over due rows, for this row. */
    method Sweep(now: int) returns (moved: bool)
      modifies this
      ensures moved == old(Due(Value(), now))
      ensures moved == (old(status) == RetryQueued && old(retryAt) != None && old(retryAt.value) <= now)
      ensures Value() == if moved then Kicked(old(Value())) else old(Value())
      ensures moved ==> Value() == File(Processing, old(attempts), None, ManualOnly(old(entities)), None)
    {
      moved := false;
      if status == RetryQueued && retryAt.Some? && retryAt.value <= now {
        moved := Kickoff();
      }
    }

    method Manuals() returns (kept: seq<Entity>)
      ensures kept == ManualOnly(entities)
    {
      kept := [];
      for k := 0 to |entities|
        invariant kept == ManualOnly(entities[..k])
      {
        assert entities[..k + 1][..k] == entities[..k];
        if entities[k].source == Manual {
          kept := kept + [entities[k]];
        }
      }
      assert entities[..|entities|] == entities;
    }

    method RunAndCacheInference(i: Inference, force: bool)
      modifies this
      ensures Value() == Inferring(old(Value()), i, force)
      ensures !force && old(hash) == Some(i.inputHash) && old(entities) != [] ==> Value() == old(Value())
      ensures force || old(hash) != Some(i.inputHash) || old(entities) == [] ==>
        Value() == File(old(status), old(attempts), old(retryAt), Overlaid(old(entities), i.inferred),
                        if i.fallback == Some(Failure) then None else Some(i.inputHash))
    {
      hide ManualOnly, Without;
      if !force && hash == Some(i.inputHash) && |entities| > 0 {
        return;
      }
      var cacheable := i.fallback.None? || i.fallback.value == NoEntities;
      var manual := Manuals();
      var others := NotIn(i.inferred, Slugs(manual));
      entities, hash := manual + others, if cacheable then Some(i.inputHash) else None;
    }

    /** The last step of a successful run. */
    method PersistReady()
      modifies this
      ensures Value() == Finished(old(Value()))
      ensures Value() == File(Ready, 0, None, old(entities), old(hash))
    {
      status, retryAt, attempts := Ready, None, 0;
    }

    method MarkTerminal(terminal: Status)
      requires terminal == Failed || terminal == Skipped
      modifies this`status
      ensures Value() == Terminated(old(Value()), terminal)
      ensures Value() == File(terminal, old(attempts), old(retryAt), old(entities), old(hash))
    {
      status := terminal;
    }

    method QueueForRetry(now: int)
      modifies this
      ensures Value() == Queued(old(Value()), now)
      ensures old(attempts) >= 5 ==> Value() == File(Failed, old(attempts), old(retryAt), old(entities), old(hash))
      ensures old(attempts) < 5 ==>
        && retryAt != None && WaitsFor(old(attempts), retryAt.value - now)
        && Value() == File(RetryQueued, old(attempts) + 1, retryAt, old(entities), old(hash))
    {
      var nextAttempt := attempts + 1;
      if nextAttempt > MAX_RETRY_ATTEMPTS {
        MarkTerminal(Failed);
        return;
      }
      var last := |RETRY_DELAY_MS| - 1;
      var delay := RETRY_DELAY_MS[if nextAttempt - 1 < last then nextAttempt - 1 else last];
      status, attempts, retryAt := RetryQueued, nextAttempt, Some(now + delay);
    }

    method OverrideInferredEntity(slug: string, p: Patch) returns (r: Result<(), Error>)
      modifies this`entities
      ensures match Overridden(old(Value()), slug, p)
              case Ok(f) => r == Ok(()) && Value() == f
              case Err(e) => r == Err(e) && Value() == old(Value())
      ensures r == Err(InferredEntityNotFound) <==> forall e :: e in old(entities) ==> e.slug != slug
      ensures r.Ok? ==> exists k :: 0 <= k < |old(entities)| && Replaced(old(Value()), slug, p, k, Value())
    {
      var idx := 0;
      while idx < |entities| && entities[idx].slug != slug
        invariant idx <= |entities| && forall k :: 0 <= k < idx ==> entities[k].slug != slug
      {
        idx := idx + 1;
      }
      if idx == |entities| {
        return Err(InferredEntityNotFound);
      }
      var next := entities[idx];
      if p.scope.Some? && p.scope.value > 0.0 {
        next := next.(scope := p.scope.value);
      }
      if p.methodology.Some? {
        next := next.(methodology := p.methodology.value);
      }
      if p.customerType.Some? {
        next := next.(customerType := p.customerType.value);
      }
      next := next.(confidence := 1.0, source := Manual, reasoning := "Manually overridden by sales rep");
      entities := entities[idx := next];
      assert Replaced(old(Value()), slug, p, idx, Value());
      return Ok(());
    }
  }
}
