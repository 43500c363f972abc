/** The last root hash of a chain that verifies stands for everything sealed under it. */
module AuditHead {
  import opened Wrappers
  import opened Texts
  import opened CanonicalJson
  import opened AuditChain
  import opened AuditLaws

  /** The same events in the same order under the i-th link of either chain. */
  ghost predicate SealsSame(la: seq<Link>, a: seq<Event>, lb: seq<Link>, b: seq<Event>, i: nat)
    requires i < |la| && i < |lb|
  {
    var u, v := Window(a, la[i].from, la[i].to), Window(b, lb[i].from, lb[i].to);
    |u| == |v| && forall k :: 0 <= k < |u| ==> SameEvent(u[k], v[k])
  }

  /** Equal roots at one link: equal roots before it, and the same events under it. */
  lemma RootSeals(h: Hash, la: seq<Link>, a: seq<Event>, lb: seq<Link>, b: seq<Event>, i: nat)
    requires i < |la| && i < |lb| && Passes(h, la, a, i) && Passes(h, lb, b, i) && la[i].rootHash == lb[i].rootHash
    requires forall e :: e in a || e in b ==> Valid(e.payload)
    requires !Collision(h, Fed(h, la, a) + Fed(h, lb, b))
    ensures Prev(la, i) == Prev(lb, i) && SealsSame(la, a, lb, b, i)
  {
    hide EventText, EventHashes, Valid, Same, Window;
    var u, v := Under(la[i], a), Under(lb[i], b);
    var p, q := Prev(la, i), Prev(lb, i);
    assert RootText(h, p, u) in Fed(h, la, a) && RootText(h, q, v) in Fed(h, lb, b);
    assert RootText(h, p, u) == RootText(h, q, v);
    Split(p, q, EventHashes(h, u), EventHashes(h, v));
    HashesLength(h, u);
    HashesLength(h, v);
    HashesUnique(h, u, v);
    forall k | 0 <= k < |u| ensures SameEvent(u[k], v[k]) {
      assert u[k] in u && v[k] in v;
      assert EventText(u[k]) in Fed(h, la, a) && EventText(v[k]) in Fed(h, lb, b);
      EventTextIffSame(u[k], v[k]);
    }
  }

  /** From an equal root backwards, link by link. */
  lemma {:induction false} RootsBefore(h: Hash, la: seq<Link>, a: seq<Event>, lb: seq<Link>, b: seq<Event>, n: nat)
    requires 0 < n <= |la| && n <= |lb| && la[n - 1].rootHash == lb[n - 1].rootHash
    requires forall i :: 0 <= i < n ==> Passes(h, la, a, i) && Passes(h, lb, b, i)
    requires forall e :: e in a || e in b ==> Valid(e.payload)
    requires !Collision(h, Fed(h, la, a) + Fed(h, lb, b))
    ensures forall i :: 0 <= i < n ==> la[i].rootHash == lb[i].rootHash && SealsSame(la, a, lb, b, i)
  {
    hide Passes, SealsSame, Fed, Valid;
    RootSeals(h, la, a, lb, b, n - 1);
    if n == 1 {
    } else {
      RootsBefore(h, la, a, lb, b, n - 1);
    }
  }

  /** The head fixes the history.  Two chains that both verify, are equally long and end in the same root
      hash have the same root at every link and seal the same events in the same order; or else the texts
      hashed on the way contain a collision. */
  lemma HeadFixesHistory(h: Hash, la: seq<Link>, a: seq<Event>, lb: seq<Link>, b: seq<Event>)
    requires Verdict(h, la, a) == None && Verdict(h, lb, b) == None
    requires |la| == |lb| && (la != [] ==> la[|la| - 1].rootHash == lb[|lb| - 1].rootHash)
    requires forall e :: e in a || e in b ==> Valid(e.payload)
    ensures || Collision(h, Fed(h, la, a) + Fed(h, lb, b))
            || forall i :: 0 <= i < |la| ==> la[i].rootHash == lb[i].rootHash && SealsSame(la, a, lb, b, i)
  {
    hide Verdict, Fed, Passes, SealsSame, Valid;
    VerdictIsEveryLink(h, la, a);
    VerdictIsEveryLink(h, lb, b);
    if la != [] && !Collision(h, Fed(h, la, a) + Fed(h, lb, b)) {
      RootsBefore(h, la, a, lb, b, |la|);
    }
  }
}
