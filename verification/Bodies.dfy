/** Loop bodies: the children of a loop, ordered by position. */
module Bodies {
  import opened Engine

  /** The nodes whose parent is `p`, in template order. */
  function ChildrenOf(nodes: seq<Node>, p: string): (children: seq<Node>)
    ensures forall n :: n in children <==> n in nodes && n.parent == p
  {
    if nodes == [] then []
    else
      var last := nodes[|nodes| - 1];
      assert nodes == nodes[..|nodes| - 1] + [last];
      ChildrenOf(nodes[..|nodes| - 1], p) + (if last.parent == p then [last] else [])
  }

  /** Places a node after everything that is not positioned behind it. */
  function Insert(sorted: seq<Node>, n: Node): (r: seq<Node>)
    ensures |r| == |sorted| + 1
    ensures forall x :: x in r <==> x == n || x in sorted
  {
    if sorted == [] || sorted[|sorted| - 1].position <= n.position then sorted + [n]
    else
      assert sorted == sorted[..|sorted| - 1] + [sorted[|sorted| - 1]];
      Insert(sorted[..|sorted| - 1], n) + [sorted[|sorted| - 1]]
  }

  /** The stable `sort((a, b) => a.position - b.position)`. */
  function SortByPosition(nodes: seq<Node>): (r: seq<Node>)
    ensures |r| == |nodes|
    ensures forall x :: x in r <==> x in nodes
  {
    if nodes == [] then []
    else
      assert nodes == nodes[..|nodes| - 1] + [nodes[|nodes| - 1]];
      Insert(SortByPosition(nodes[..|nodes| - 1]), nodes[|nodes| - 1])
  }

  ghost predicate SortedByPosition(s: seq<Node>) {
    forall i, j :: 0 <= i < j < |s| ==> s[i].position <= s[j].position
  }

  lemma {:induction false} InsertSorted(sorted: seq<Node>, n: Node)
    requires SortedByPosition(sorted)
    ensures SortedByPosition(Insert(sorted, n))
  {
    if sorted == [] || sorted[|sorted| - 1].position <= n.position {
    } else {
      var front, last := sorted[..|sorted| - 1], sorted[|sorted| - 1];
      InsertSorted(front, n);
      var r := Insert(front, n);
      forall i, j | 0 <= i < j < |r| + 1 ensures (r + [last])[i].position <= (r + [last])[j].position {
        assert r[i] in r;
      }
    }
  }

  lemma {:induction false} InsertPermutes(sorted: seq<Node>, n: Node)
    ensures multiset(Insert(sorted, n)) == multiset(sorted) + multiset{n}
  {
    if sorted == [] || sorted[|sorted| - 1].position <= n.position {
    } else {
      InsertPermutes(sorted[..|sorted| - 1], n);
      assert sorted == sorted[..|sorted| - 1] + [sorted[|sorted| - 1]];
    }
  }

  lemma {:induction false} SortPermutes(nodes: seq<Node>)
    ensures multiset(SortByPosition(nodes)) == multiset(nodes)
  {
    if nodes == [] {
    } else {
      SortPermutes(nodes[..|nodes| - 1]);
      InsertPermutes(SortByPosition(nodes[..|nodes| - 1]), nodes[|nodes| - 1]);
      assert nodes == nodes[..|nodes| - 1] + [nodes[|nodes| - 1]];
    }
  }

  lemma {:induction false} SortIsSorted(nodes: seq<Node>)
    ensures SortedByPosition(SortByPosition(nodes))
  {
    if nodes == [] {
    } else {
      SortIsSorted(nodes[..|nodes| - 1]);
      InsertSorted(SortByPosition(nodes[..|nodes| - 1]), nodes[|nodes| - 1]);
    }
  }

  /** The body of a loop; its first node is where an iteration starts. */
  function BodyOf(nodes: seq<Node>, loopId: string): (body: seq<Node>)
    ensures forall n :: n in body <==> n in nodes && n.parent == loopId
  {
    SortByPosition(ChildrenOf(nodes, loopId))
  }

  /** An iteration enters the body at a child of lowest position. */
  lemma EntryIsLowest(nodes: seq<Node>, loopId: string, n: Node)
    requires n in nodes && n.parent == loopId
    ensures var body := BodyOf(nodes, loopId);
      body != [] && body[0].parent == loopId && body[0].position <= n.position
  {
    var body := BodyOf(nodes, loopId);
    SortIsSorted(ChildrenOf(nodes, loopId));
    assert n in body;
    var i :| 0 <= i < |body| && body[i] == n;
    assert body[0] in body;
  }

  /** The nodes under one parent at one position, in the order of the list. */
  function At(nodes: seq<Node>, p: string, position: int): seq<Node> {
    if nodes == [] then []
    else
      var last := nodes[|nodes| - 1];
      At(nodes[..|nodes| - 1], p, position) + (if last.parent == p && last.position == position then [last] else [])
  }

  lemma AtLast(nodes: seq<Node>, n: Node, p: string, position: int)
    ensures At(nodes + [n], p, position) == At(nodes, p, position) + (if n.parent == p && n.position == position then [n] else [])
  {
    assert (nodes + [n])[..|nodes|] == nodes;
  }

  lemma {:induction false} InsertStable(sorted: seq<Node>, n: Node, p: string, position: int)
    ensures At(Insert(sorted, n), p, position) == At(sorted + [n], p, position)
  {
    if sorted == [] || sorted[|sorted| - 1].position <= n.position {
    } else {
      var front, last := sorted[..|sorted| - 1], sorted[|sorted| - 1];
      InsertStable(front, n, p, position);
      assert sorted == front + [last];
      AtLast(front, n, p, position);
      AtLast(front, last, p, position);
      AtLast(sorted, n, p, position);
      AtLast(Insert(front, n), last, p, position);
    }
  }

  lemma BodyNext(nodes: seq<Node>, n: Node, p: string)
    ensures BodyOf(nodes + [n], p) == if n.parent == p then Insert(BodyOf(nodes, p), n) else BodyOf(nodes, p)
  {
    hide Insert;
    assert (nodes + [n])[..|nodes|] == nodes;
    var children := ChildrenOf(nodes, p);
    assert (children + [n])[..|children|] == children && children + [] == children;
    assert ChildrenOf(nodes + [n], p) == children + (if n.parent == p then [n] else []);
    assert SortByPosition(children + [n]) == Insert(SortByPosition(children), n);
  }

  /** The body lists the loop's children of each position in template order: the sort is stable. */
  lemma {:induction false} BodyIsStable(nodes: seq<Node>, p: string, position: int)
    ensures At(BodyOf(nodes, p), p, position) == At(nodes, p, position)
  {
    if nodes == [] {
    } else {
      hide Insert, At, BodyOf;
      var front, last := nodes[..|nodes| - 1], nodes[|nodes| - 1];
      BodyIsStable(front, p, position);
      assert nodes == front + [last];
      AtLast(front, last, p, position);
      BodyNext(front, last, p);
      if last.parent == p {
        InsertStable(BodyOf(front, p), last, p, position);
        AtLast(BodyOf(front, p), last, p, position);
      }
    }
  }

  /** The child of lowest position, the first of them in the template. */
  ghost predicate IsEntry(nodes: seq<Node>, p: string, i: int) {
    && 0 <= i < |nodes| && nodes[i].parent == p
    && forall j :: 0 <= j < |nodes| && nodes[j].parent == p ==>
         nodes[i].position < nodes[j].position || (nodes[i].position == nodes[j].position && i <= j)
  }

  lemma {:induction false} InsertHead(sorted: seq<Node>, n: Node)
    requires SortedByPosition(sorted)
    ensures Insert(sorted, n)[0] == if sorted == [] || n.position < sorted[0].position then n else sorted[0]
  {
    if sorted == [] || sorted[|sorted| - 1].position <= n.position {
    } else if |sorted| == 1 {
    } else {
      InsertHead(sorted[..|sorted| - 1], n);
    }
  }

  lemma EntryNext(nodes: seq<Node>, n: Node, p: string, i: int)
    requires IsEntry(nodes, p, i)
    ensures if n.parent == p && n.position < nodes[i].position then IsEntry(nodes + [n], p, |nodes|) else IsEntry(nodes + [n], p, i)
  {
  }

  lemma FirstChild(nodes: seq<Node>, n: Node, p: string)
    requires (forall m :: m in nodes ==> m.parent != p) && n.parent == p
    ensures IsEntry(nodes + [n], p, |nodes|)
  {
  }

  ghost predicate HeadIsEntry(nodes: seq<Node>, p: string, head: Node) {
    exists i :: 0 <= i < |nodes| && IsEntry(nodes, p, i) && head == nodes[i]
  }

  lemma HeadNext(nodes: seq<Node>, n: Node, p: string, head: Node)
    requires HeadIsEntry(nodes, p, head)
    ensures HeadIsEntry(nodes + [n], p, if n.parent == p && n.position < head.position then n else head)
  {
    hide IsEntry;
    var i :| 0 <= i < |nodes| && IsEntry(nodes, p, i) && head == nodes[i];
    EntryNext(nodes, n, p, i);
    assert (nodes + [n])[i] == nodes[i] && (nodes + [n])[|nodes|] == n;
  }

  /** The body starts at the first child of lowest position. */
  lemma {:induction false} BodyHead(nodes: seq<Node>, p: string)
    requires BodyOf(nodes, p) != []
    ensures HeadIsEntry(nodes, p, BodyOf(nodes, p)[0])
  {
    assert nodes != [];
    hide Insert, HeadIsEntry, BodyOf, SortedByPosition;
    var front, last := nodes[..|nodes| - 1], nodes[|nodes| - 1];
    assert nodes == front + [last];
    BodyNext(front, last, p);
    BodySorted(front, p);
    if last.parent == p {
      InsertHead(BodyOf(front, p), last);
    }
    if BodyOf(front, p) == [] {
      OnlyHead(front, last, p);
    } else {
      BodyHead(front, p);
      HeadNext(front, last, p, BodyOf(front, p)[0]);
    }
  }

  lemma OnlyHead(nodes: seq<Node>, n: Node, p: string)
    requires (forall m :: m in nodes ==> m.parent != p) && n.parent == p
    ensures HeadIsEntry(nodes + [n], p, n)
  {
    hide IsEntry;
    FirstChild(nodes, n, p);
    assert (nodes + [n])[|nodes|] == n;
  }

  lemma BodySorted(nodes: seq<Node>, p: string)
    ensures SortedByPosition(BodyOf(nodes, p))
  {
    SortIsSorted(ChildrenOf(nodes, p));
  }

  lemma ChildrenOfNext(nodes: seq<Node>, i: nat, p: string)
    requires i < |nodes|
    ensures ChildrenOf(nodes[..i + 1], p)
         == ChildrenOf(nodes[..i], p) + (if nodes[i].parent == p then [nodes[i]] else [])
  {
    assert nodes[..i + 1][..i] == nodes[..i];
  }

  /** `out` holds the children of every parent named in `nodes`, and nothing else. */
  ghost predicate Grouped(out: map<string, seq<Node>>, nodes: seq<Node>) {
    && (forall p :: p in out <==> p != "" && ChildrenOf(nodes, p) != [])
    && (forall p :: p in out ==> out[p] == ChildrenOf(nodes, p))
  }

  lemma GroupedNext(out: map<string, seq<Node>>, out': map<string, seq<Node>>, nodes: seq<Node>, i: nat)
    requires i < |nodes| && Grouped(out, nodes[..i])
    requires var n := nodes[i];
      out' == if n.parent == "" then out else out[n.parent := (if n.parent in out then out[n.parent] else []) + [n]]
    ensures Grouped(out', nodes[..i + 1])
  {
    hide ChildrenOf;
    forall p ensures p in out' <==> p != "" && ChildrenOf(nodes[..i + 1], p) != []
             ensures p in out' ==> out'[p] == ChildrenOf(nodes[..i + 1], p) {
      ChildrenOfNext(nodes, i, p);
      if p != "" && p !in out {
        assert ChildrenOf(nodes[..i], p) == [];
        assert [] + [nodes[i]] == [nodes[i]];
      }
    }
  }

  method GroupBodiesByLoop(nodes: seq<Node>) returns (out: map<string, seq<Node>>)
    ensures forall p :: p in out <==> p != "" && BodyOf(nodes, p) != []
    ensures forall p :: p in out ==> out[p] == BodyOf(nodes, p)
  {
    out := map[];
    for i := 0 to |nodes|
      invariant Grouped(out, nodes[..i])
    {
      var n := nodes[i];
      ghost var before := out;
      if n.parent != "" {
        var list := if n.parent in out then out[n.parent] else [];
        out := out[n.parent := list + [n]];
      }
      GroupedNext(before, out, nodes, i);
    }
    assert nodes[..|nodes|] == nodes;
    out := SortLists(out);
  }

  method SortLists(lists: map<string, seq<Node>>) returns (out: map<string, seq<Node>>)
    ensures out.Keys == lists.Keys
    ensures forall p :: p in out ==> out[p] == SortByPosition(lists[p])
  {
    out := lists;
    var rest := lists.Keys;
    while rest != {}
      invariant rest <= lists.Keys == out.Keys
      invariant forall p :: p in out ==> out[p] == if p in rest then lists[p] else SortByPosition(lists[p])
    {
      var p :| p in rest;
      out := out[p := SortByPosition(out[p])];
      rest := rest - {p};
    }
  }
}
