/** JavaScript strings: sequences of UTF-16 code units, in the order `sort()` gives them. */
module Texts {

  type Unit = x: int | 0 <= x < 0x1_0000

  type Text = seq<Unit>

  /** The default sort order: code unit by code unit, a proper prefix first. */
  predicate Less(a: Text, b: Text) {
    if a == [] then b != []
    else if b == [] then false
    else if a[0] != b[0] then a[0] < b[0]
    else Less(a[1..], b[1..])
  }

  /** At the first unit where the texts differ the first is lower, or it is a proper prefix. */
  ghost predicate Before(a: Text, b: Text) {
    a < b || exists k :: 0 <= k < |a| && k < |b| && a[..k] == b[..k] && a[k] < b[k]
  }

  lemma {:induction false} LessMeans(a: Text, b: Text)
    ensures Less(a, b) <==> Before(a, b)
  {
    if a == [] || b == [] {
    } else if a[0] != b[0] {
      if a[0] < b[0] {
        assert a[..0] == b[..0];
      }
      assert forall k :: 0 < k < |a| && k < |b| ==> a[..k][0] == a[0] && b[..k][0] == b[0];
    } else {
      LessMeans(a[1..], b[1..]);
      assert a == [a[0]] + a[1..] && b == [b[0]] + b[1..];
      if Before(a[1..], b[1..]) && !(a[1..] < b[1..]) {
        var k :| 0 <= k < |a[1..]| && k < |b[1..]| && a[1..][..k] == b[1..][..k] && a[1..][k] < b[1..][k];
        assert a[..k + 1] == [a[0]] + a[1..][..k] && b[..k + 1] == [b[0]] + b[1..][..k];
      }
      if Before(a, b) && !(a < b) {
        var k :| 0 <= k < |a| && k < |b| && a[..k] == b[..k] && a[k] < b[k];
        assert k > 0;
        assert a[1..][..k - 1] == a[..k][1..] && b[1..][..k - 1] == b[..k][1..];
      }
    }
  }

  lemma {:induction false} LessIsTotal(a: Text, b: Text)
    ensures !(Less(a, b) && Less(b, a)) && !Less(a, a)
    ensures a == b || Less(a, b) || Less(b, a)
  {
    if a == [] {
    } else {
      LessIsTotal(a[1..], if b == [] then [] else b[1..]);
      if b != [] && a[0] == b[0] && a[1..] == b[1..] {
        assert a == [a[0]] + a[1..] && b == [b[0]] + b[1..];
      }
    }
  }

  lemma {:induction false} LessTransitive(a: Text, b: Text, c: Text)
    requires Less(a, b) && Less(b, c)
    ensures Less(a, c)
  {
    if a == [] || a[0] != b[0] || b[0] != c[0] {
    } else {
      LessTransitive(a[1..], b[1..], c[1..]);
    }
  }

  predicate IsLeast(s: set<Text>, m: Text) {
    m in s && forall x :: x in s && x != m ==> Less(m, x)
  }

  lemma LeastExists(s: set<Text>)
    requires s != {}
    ensures exists m :: IsLeast(s, m)
  {
    var x :| x in s;
    var below := set y | y in s && Less(y, x);
    LessIsTotal(x, x);
    if below == {} {
      forall y | y in s && y != x ensures Less(x, y) {
        LessIsTotal(x, y);
        assert y !in below;
      }
      assert IsLeast(s, x);
    } else {
      assert x !in below;
      LeastExists(below);
      var m :| IsLeast(below, m);
      forall y | y in s && y != m ensures Less(m, y) {
        if y !in below {
          LessIsTotal(y, x);
          if y != x {
            LessTransitive(m, x, y);
          }
        }
      }
      assert IsLeast(s, m);
    }
  }

  lemma LeastIsUnique(s: set<Text>)
    ensures forall m, n :: IsLeast(s, m) && IsLeast(s, n) ==> m == n
  {
    forall m, n | IsLeast(s, m) && IsLeast(s, n) ensures m == n {
      LessIsTotal(m, n);
    }
  }

  function Least(s: set<Text>): (m: Text)
    requires s != {}
    ensures IsLeast(s, m)
  {
    LeastExists(s);
    LeastIsUnique(s);
    var m :| m in s && IsLeast(s, m);
    m
  }

  /** `[...keys].sort()` of distinct texts. */
  function Sorted(s: set<Text>): (r: seq<Text>)
    ensures forall x :: x in r <==> x in s
    ensures forall i, j :: 0 <= i < j < |r| ==> Less(r[i], r[j])
  {
    if s == {} then [] else [Least(s)] + Sorted(s - {Least(s)})
  }

  lemma SortedIsDistinct(s: set<Text>)
    ensures forall i, j :: 0 <= i < j < |Sorted(s)| ==> Sorted(s)[i] != Sorted(s)[j]
  {
    forall i, j | 0 <= i < j < |Sorted(s)| ensures Sorted(s)[i] != Sorted(s)[j] {
      LessIsTotal(Sorted(s)[i], Sorted(s)[j]);
    }
  }
}
