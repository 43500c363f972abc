/**
 The stable-key JSON printer behind the audit hashes, and why its text is evidence: two values
 print the same exactly when they are the same JSON value, objects read as key-to-value maps.
 */
module CanonicalJson {
  import opened Texts

  // ── Values ────────────────────────────────────────────────────────────────

  datatype Field = Field(key: Text, value: Json)

  /** A number is represented by its shortest decimal text, which is what JSON.stringify prints.
      An object is its list of fields in insertion order. */
  datatype Json = JNull | JBool(b: bool) | JNumber(token: Text) | JString(s: Text)
                | JArray(items: seq<Json>) | JObject(fields: seq<Field>)

  predicate IsNumberUnit(c: Unit) {
    48 <= c <= 57 || c == 45 || c == 43 || c == 46 || c == 101
  }

  /** Digits, signs, point and exponent, beginning with a digit or a minus sign. */
  predicate IsNumberToken(t: Text) {
    && t != [] && (t[0] == 45 || 48 <= t[0] <= 57)
    && forall i :: 0 <= i < |t| ==> IsNumberUnit(t[i])
  }

  /** Number tokens are well formed and the keys of an object are distinct. */
  predicate Valid(j: Json) {
    match j
    case JNumber(t) => IsNumberToken(t)
    case JArray(items) => forall i :: 0 <= i < |items| ==> Valid(items[i])
    case JObject(fields) =>
      && (forall i :: 0 <= i < |fields| ==> Valid(fields[i].value))
      && (forall i, k :: 0 <= i < k < |fields| ==> fields[i].key != fields[k].key)
    case _ => true
  }

  function KeySet(fields: seq<Field>): set<Text> {
    set f | f in fields :: f.key
  }

  /** The same JSON value: arrays item by item, objects key by key in any order. */
  predicate Same(a: Json, b: Json) {
    match a
    case JArray(xs) => b.JArray? && |xs| == |b.items| && forall i :: 0 <= i < |xs| ==> Same(xs[i], b.items[i])
    case JObject(fs) =>
      && b.JObject? && KeySet(fs) == KeySet(b.fields)
      && forall i, k :: 0 <= i < |fs| && 0 <= k < |b.fields| && fs[i].key == b.fields[k].key ==> Same(fs[i].value, b.fields[k].value)
    case _ => a == b
  }

  // ── Printing strings ──────────────────────────────────────────────────────

  function Hex(n: nat): Unit
    requires n < 16
  {
    if n < 10 then 48 + n else 87 + n
  }

  function Hex4(c: Unit): Text {
    [Hex(c / 4096), Hex(c / 256 % 16), Hex(c / 16 % 16), Hex(c % 16)]
  }

  predicate IsHigh(c: Unit) {
    0xD800 <= c <= 0xDBFF
  }

  predicate IsLow(c: Unit) {
    0xDC00 <= c <= 0xDFFF
  }

  /** The letter of a two-unit escape, or 0. */
  function ShortEscape(c: Unit): Unit {
    if c == 34 || c == 92 then c
    else if c == 8 then 98
    else if c == 9 then 116
    else if c == 10 then 110
    else if c == 12 then 102
    else if c == 13 then 114
    else 0
  }

  /** One code unit that is not half of a surrogate pair. */
  function Escape(c: Unit): Text {
    if ShortEscape(c) != 0 then [92, ShortEscape(c)]
    else if c < 32 || IsHigh(c) || IsLow(c) then [92, 117] + Hex4(c)
    else [c]
  }

  predicate StartsWithPair(s: Text) {
    |s| >= 2 && IsHigh(s[0]) && IsLow(s[1])
  }

  /** The text of a string literal, without its opening quote but with the closing one. */
  function Quoted(s: Text): Text {
    if s == [] then [34]
    else if StartsWithPair(s) then s[..2] + Quoted(s[2..])
    else Escape(s[0]) + Quoted(s[1..])
  }

  function Quote(s: Text): Text {
    [34] + Quoted(s)
  }

  // ── Printing values ───────────────────────────────────────────────────────

  function Canon(j: Json): Text
    decreases j, 1
  {
    match j
    case JNull => [110, 117, 108, 108]
    case JBool(b) => if b then [116, 114, 117, 101] else [102, 97, 108, 115, 101]
    case JNumber(token) => token
    case JString(s) => Quote(s)
    case JArray(items) => [91] + JoinItems(items) + [93]
    case JObject(fields) => [123] + JoinKeys(Sorted(KeySet(fields)), Rendered(fields)) + [125]
  }

  function JoinItems(items: seq<Json>): Text
    decreases items, 0
  {
    if items == [] then []
    else if |items| == 1 then Canon(items[0])
    else Canon(items[0]) + [44] + JoinItems(items[1..])
  }

  /** The printed value of every key. */
  function Rendered(fields: seq<Field>): (m: map<Text, Text>)
    ensures m.Keys == KeySet(fields)
    decreases fields, 0
  {
    if fields == [] then map[]
    else
      assert fields == [fields[0]] + fields[1..];
      Rendered(fields[1..])[fields[0].key := Canon(fields[0].value)]
  }

  function JoinKeys(keys: seq<Text>, m: map<Text, Text>): Text
    requires forall k :: k in keys ==> k in m
  {
    if keys == [] then []
    else Quote(keys[0]) + [58] + m[keys[0]] + (if |keys| == 1 then [] else [44] + JoinKeys(keys[1..], m))
  }

  lemma {:induction false} RenderedAt(fields: seq<Field>, i: nat)
    requires i < |fields| && forall i, k :: 0 <= i < k < |fields| ==> fields[i].key != fields[k].key
    ensures fields[i].key in Rendered(fields) && Rendered(fields)[fields[i].key] == Canon(fields[i].value)
  {
    hide Canon;
    if i == 0 {
    } else {
      RenderedAt(fields[1..], i - 1);
    }
  }

  // ── Key order does not matter ─────────────────────────────────────────────

  lemma {:induction false} SamePrintsSame(a: Json, b: Json)
    requires Valid(a) && Valid(b) && Same(a, b)
    ensures Canon(a) == Canon(b)
    decreases a, 1
  {
    match a
    case JArray(xs) =>
      SameItemsPrintSame(xs, b.items);
    case JObject(fs) =>
      assert Rendered(fs) == Rendered(b.fields) by {
        forall key | key in KeySet(fs) ensures Rendered(fs)[key] == Rendered(b.fields)[key] {
          var i :| 0 <= i < |fs| && fs[i].key == key;
          var k :| 0 <= k < |b.fields| && b.fields[k].key == key;
          RenderedAt(fs, i);
          RenderedAt(b.fields, k);
          SamePrintsSame(fs[i].value, b.fields[k].value);
        }
      }
    case _ =>
  }

  lemma {:induction false} SameItemsPrintSame(xs: seq<Json>, ys: seq<Json>)
    requires |xs| == |ys| && forall i :: 0 <= i < |xs| ==> Valid(xs[i]) && Valid(ys[i]) && Same(xs[i], ys[i])
    ensures JoinItems(xs) == JoinItems(ys)
    decreases xs, 0
  {
    if xs == [] {
    } else {
      SamePrintsSame(xs[0], ys[0]);
      SameItemsPrintSame(xs[1..], ys[1..]);
    }
  }

  // ── The text is unambiguous ───────────────────────────────────────────────

  lemma HexInjective(m: nat, n: nat)
    requires m < 16 && n < 16 && Hex(m) == Hex(n)
    ensures m == n
  {
  }

  lemma Digits(c: Unit)
    ensures c == 4096 * (c / 4096) + 256 * (c / 256 % 16) + 16 * (c / 16 % 16) + c % 16
  {
    assert c / 16 == 16 * (c / 256) + c / 16 % 16;
    assert c / 256 == 16 * (c / 4096) + c / 256 % 16;
  }

  lemma Hex4Injective(c: Unit, d: Unit)
    requires Hex4(c) == Hex4(d)
    ensures c == d
  {
    hide Hex;
    assert Hex4(c)[0] == Hex4(d)[0] && Hex4(c)[1] == Hex4(d)[1] && Hex4(c)[2] == Hex4(d)[2] && Hex4(c)[3] == Hex4(d)[3];
    HexInjective(c / 4096, d / 4096);
    HexInjective(c / 256 % 16, d / 256 % 16);
    HexInjective(c / 16 % 16, d / 16 % 16);
    HexInjective(c % 16, d % 16);
    Digits(c);
    Digits(d);
  }

  /** Escapes of single units never run into one another. */
  lemma EscapeUnique(c: Unit, d: Unit, x: Text, y: Text)
    requires Escape(c) + x == Escape(d) + y
    ensures c == d && x == y
  {
    var s := Escape(c) + x;
    var t := Escape(d) + y;
    assert s[0] == t[0];
    if s[0] == 92 {
      assert s[1] == t[1];
      if s[1] == 117 {
        assert s[2..6] == Hex4(c) && t[2..6] == Hex4(d);
        Hex4Injective(c, d);
      }
    }
    assert x == s[|Escape(c)|..] && y == t[|Escape(d)|..];
  }

  /** The first unit of what is printed for the head of a string. */
  lemma QuotedHead(s: Text)
    ensures Quoted(s) != []
    ensures Quoted(s)[0] == 34 <==> s == []
    ensures s == [] ==> Quoted(s) == [34]
    ensures StartsWithPair(s) <==> IsHigh(Quoted(s)[0])
  {
  }

  /** The printed head of a non-empty string, and how much of the string it stands for. */
  function Head(s: Text): Text
    requires s != []
  {
    if StartsWithPair(s) then s[..2] else Escape(s[0])
  }

  function HeadLength(s: Text): nat
    requires s != []
    ensures 1 <= HeadLength(s) <= |s|
  {
    if StartsWithPair(s) then 2 else 1
  }

  lemma QuotedStep(s: Text)
    requires s != []
    ensures Quoted(s) == Head(s) + Quoted(s[HeadLength(s)..])
  {
    hide Escape;
  }

  lemma HeadUnique(s: Text, t: Text, x: Text, y: Text)
    requires s != [] && t != [] && Head(s) + x == Head(t) + y
    ensures HeadLength(s) == HeadLength(t) && s[..HeadLength(s)] == t[..HeadLength(t)] && x == y
  {
    hide Hex4;
    var p, q := Head(s) + x, Head(t) + y;
    assert p[0] == q[0];
    if StartsWithPair(s) {
      assert p[1] == s[1] && q[1] == t[1];
      Split(Head(s), Head(t), x, y);
    } else {
      EscapeUnique(s[0], t[0], x, y);
    }
  }

  lemma {:induction false} QuotedUnique(s: Text, t: Text, x: Text, y: Text)
    requires Quoted(s) + x == Quoted(t) + y
    ensures s == t && x == y
    decreases |s|
  {
    hide Escape, Quoted, Head, StartsWithPair;
    QuotedHead(s);
    QuotedHead(t);
    assert (Quoted(s) + x)[0] == (Quoted(t) + y)[0];
    if s == [] {
      Split(Quoted(s), Quoted(t), x, y);
    } else {
      QuotedStep(s);
      QuotedStep(t);
      var s', t' := s[HeadLength(s)..], t[HeadLength(t)..];
      assert Head(s) + (Quoted(s') + x) == Quoted(s) + x && Head(t) + (Quoted(t') + y) == Quoted(t) + y;
      HeadUnique(s, t, Quoted(s') + x, Quoted(t') + y);
      QuotedUnique(s', t', x, y);
      assert s == s[..HeadLength(s)] + s' && t == t[..HeadLength(t)] + t';
    }
  }

  lemma QuoteUnique(s: Text, t: Text, x: Text, y: Text)
    requires Quote(s) + x == Quote(t) + y
    ensures s == t && x == y
  {
    hide Quoted;
    assert Quoted(s) + x == (Quote(s) + x)[1..];
    assert Quoted(t) + y == (Quote(t) + y)[1..];
    QuotedUnique(s, t, x, y);
  }

  /** What may follow a value: nothing, a comma, or a closing bracket. */
  predicate Ends(x: Text) {
    x == [] || x[0] == 44 || x[0] == 93 || x[0] == 125
  }

  /** How many number units a text begins with. */
  function Span(s: Text): nat {
    if s == [] || !IsNumberUnit(s[0]) then 0 else 1 + Span(s[1..])
  }

  lemma {:induction false} SpanOfToken(p: Text, x: Text)
    requires Ends(x) && forall i :: 0 <= i < |p| ==> IsNumberUnit(p[i])
    ensures Span(p + x) == |p|
  {
    if p == [] {
      assert p + x == x;
    } else {
      assert (p + x)[1..] == p[1..] + x;
      SpanOfToken(p[1..], x);
    }
  }

  lemma TokenUnique(p: Text, q: Text, x: Text, y: Text)
    requires forall i :: 0 <= i < |p| ==> IsNumberUnit(p[i])
    requires forall i :: 0 <= i < |q| ==> IsNumberUnit(q[i])
    requires Ends(x) && Ends(y) && p + x == q + y
    ensures p == q && x == y
  {
    SpanOfToken(p, x);
    SpanOfToken(q, y);
    Split(p, q, x, y);
  }

  lemma Split(p: Text, q: Text, x: Text, y: Text)
    requires p + x == q + y && |p| == |q|
    ensures p == q && x == y
  {
    assert p == (p + x)[..|p|] && q == (q + y)[..|q|];
    assert x == (p + x)[|p|..] && y == (q + y)[|q|..];
  }

  /** The kind of a value, told from the first unit of its text. */
  function Kind(c: Unit): nat {
    if c == 110 then 0 else if c == 116 || c == 102 then 1 else if IsNumberUnit(c) then 2
    else if c == 34 then 3 else if c == 91 then 4 else if c == 123 then 5 else 6
  }

  function KindOf(j: Json): nat {
    match j case JNull => 0 case JBool(_) => 1 case JNumber(_) => 2 case JString(_) => 3 case JArray(_) => 4 case JObject(_) => 5
  }

  lemma CanonHead(j: Json)
    requires Valid(j)
    ensures Canon(j) != [] && Kind(Canon(j)[0]) == KindOf(j)
  {
    hide Quoted, JoinItems, JoinKeys;
  }

  /** Reading a printed value from the front of a text has one outcome. */
  lemma {:induction false} CanonUnique(a: Json, b: Json, x: Text, y: Text)
    requires Valid(a) && Valid(b) && Ends(x) && Ends(y)
    requires Canon(a) + x == Canon(b) + y
    ensures Same(a, b) && x == y
    decreases a, 1
  {
    hide JoinItems, JoinKeys, Quote, Rendered;
    CanonHead(a);
    CanonHead(b);
    assert (Canon(a) + x)[0] == (Canon(b) + y)[0];
    match a
    case JNull =>
      assert x == (Canon(a) + x)[4..] && y == (Canon(b) + y)[4..];
    case JBool(_) =>
      assert a == b;
      assert x == (Canon(a) + x)[|Canon(a)|..] && y == (Canon(b) + y)[|Canon(b)|..];
    case JNumber(_) =>
      TokenUnique(a.token, b.token, x, y);
    case JString(_) =>
      QuoteUnique(a.s, b.s, x, y);
    case JArray(xs) =>
      Inner([91], JoinItems(xs), [93], x);
      Inner([91], JoinItems(b.items), [93], y);
      ItemsUnique(xs, b.items, x, y);
    case JObject(fs) =>
      var ks, ls := Sorted(KeySet(fs)), Sorted(KeySet(b.fields));
      Inner([123], JoinKeys(ks, Rendered(fs)), [125], x);
      Inner([123], JoinKeys(ls, Rendered(b.fields)), [125], y);
      SortedIsDistinct(KeySet(fs));
      SortedIsDistinct(KeySet(b.fields));
      KeysUnique(fs, b.fields, ks, ls, x, y);
      assert KeySet(fs) == KeySet(b.fields) by {
        assert forall k :: k in KeySet(fs) <==> k in ks;
        assert forall k :: k in KeySet(b.fields) <==> k in ls;
      }
  }

  lemma Inner(open: Text, inner: Text, close: Text, x: Text)
    requires |open| == 1
    ensures (open + inner + close + x)[1..] == inner + (close + x)
  {
  }

  lemma {:induction false} ItemsUnique(xs: seq<Json>, ys: seq<Json>, x: Text, y: Text)
    requires (forall i :: 0 <= i < |xs| ==> Valid(xs[i])) && (forall i :: 0 <= i < |ys| ==> Valid(ys[i]))
    requires JoinItems(xs) + ([93] + x) == JoinItems(ys) + ([93] + y)
    ensures |xs| == |ys| && (forall i :: 0 <= i < |xs| ==> Same(xs[i], ys[i])) && x == y
    decreases xs, 0
  {
    hide Canon, Same, JoinItems;
    var s, t := JoinItems(xs) + ([93] + x), JoinItems(ys) + ([93] + y);
    if xs == [] || ys == [] {
      OneIsEmpty(xs, ys, x, y);
      assert s == [93] + x && t == [93] + y;
      Split([93], [93], x, y);
    } else {
      var xr, yr := AfterItem(xs, [93] + x), AfterItem(ys, [93] + y);
      ItemSplit(xs, [93] + x);
      ItemSplit(ys, [93] + y);
      CanonUnique(xs[0], ys[0], xr, yr);
      assert xr[0] == yr[0];
      if |xs| == 1 {
        Split([93], [93], x, y);
      } else {
        Split([44], [44], JoinItems(xs[1..]) + ([93] + x), JoinItems(ys[1..]) + ([93] + y));
        ItemsUnique(xs[1..], ys[1..], x, y);
        assert forall i :: 0 < i < |xs| ==> xs[i] == xs[1..][i - 1] && ys[i] == ys[1..][i - 1];
      }
    }
  }

  /** What follows the first printed item. */
  function AfterItem(xs: seq<Json>, rest: Text): Text
    requires xs != []
  {
    if |xs| == 1 then rest else [44] + (JoinItems(xs[1..]) + rest)
  }

  lemma ItemSplit(xs: seq<Json>, rest: Text)
    requires xs != []
    ensures JoinItems(xs) + rest == Canon(xs[0]) + AfterItem(xs, rest)
  {
    hide Canon;
  }

  lemma OneIsEmpty(xs: seq<Json>, ys: seq<Json>, x: Text, y: Text)
    requires (forall i :: 0 <= i < |xs| ==> Valid(xs[i])) && (forall i :: 0 <= i < |ys| ==> Valid(ys[i]))
    requires JoinItems(xs) + ([93] + x) == JoinItems(ys) + ([93] + y)
    requires xs == [] || ys == []
    ensures xs == [] && ys == [] && JoinItems(xs) == [] && JoinItems(ys) == []
  {
    hide Canon;
    assert (JoinItems(xs) + ([93] + x))[0] == (JoinItems(ys) + ([93] + y))[0];
    if xs != [] {
      CanonHead(xs[0]);
    }
    if ys != [] {
      CanonHead(ys[0]);
    }
  }

  /** The one field of an object with a key. */
  lemma EntryAt(fields: seq<Field>, key: Text) returns (i: nat)
    requires Valid(JObject(fields)) && key in KeySet(fields)
    ensures i < |fields| && fields[i].key == key && Valid(fields[i].value)
    ensures key in Rendered(fields) && Rendered(fields)[key] == Canon(fields[i].value)
    ensures forall k :: 0 <= k < |fields| && fields[k].key == key ==> k == i
  {
    hide Canon, Rendered;
    i :| 0 <= i < |fields| && fields[i].key == key;
    RenderedAt(fields, i);
  }

  /** The same for the sorted keys of two objects and the values printed behind them. */
  lemma {:induction false} KeysUnique(fs: seq<Field>, gs: seq<Field>, ks: seq<Text>, ls: seq<Text>, x: Text, y: Text)
    requires Valid(JObject(fs)) && Valid(JObject(gs))
    requires (forall k :: k in ks ==> k in KeySet(fs)) && (forall l :: l in ls ==> l in KeySet(gs))
    requires JoinKeys(ks, Rendered(fs)) + ([125] + x) == JoinKeys(ls, Rendered(gs)) + ([125] + y)
    ensures ks == ls && x == y
    ensures forall i, k :: 0 <= i < |fs| && 0 <= k < |gs| && fs[i].key == gs[k].key && fs[i].key in ks ==> Same(fs[i].value, gs[k].value)
    decreases JObject(fs), 0, |ks|
  {
    hide Canon, Rendered, Quote, Same, JoinKeys, Valid;
    var s, t := JoinKeys(ks, Rendered(fs)) + ([125] + x), JoinKeys(ls, Rendered(gs)) + ([125] + y);
    assert s[0] == t[0];
    JoinKeysHead(ks, Rendered(fs));
    JoinKeysHead(ls, Rendered(gs));
    if ks == [] {
      assert x == s[1..] && y == t[1..];
    } else {
      var xr := AfterEntry(ks, Rendered(fs), [125] + x);
      var yr := AfterEntry(ls, Rendered(gs), [125] + y);
      FirstKeyUnique(ks, ls, Rendered(fs), Rendered(gs), [125] + x, [125] + y);
      var i0 := EntryAt(fs, ks[0]);
      var k0 := EntryAt(gs, ks[0]);
      CanonUnique(fs[i0].value, gs[k0].value, xr, yr);
      assert xr[0] == yr[0];
      if |ks| == 1 {
        Split([125], [125], x, y);
      } else {
        Split([44], [44], JoinKeys(ks[1..], Rendered(fs)) + ([125] + x), JoinKeys(ls[1..], Rendered(gs)) + ([125] + y));
        KeysUnique(fs, gs, ks[1..], ls[1..], x, y);
      }
      assert ks == [ks[0]] + ks[1..] && ls == [ls[0]] + ls[1..];
      forall i, k | 0 <= i < |fs| && 0 <= k < |gs| && fs[i].key == gs[k].key && fs[i].key in ks ensures Same(fs[i].value, gs[k].value) {
        if fs[i].key == ks[0] {
          assert i == i0 && k == k0;
        }
      }
    }
  }

  /** What follows the first printed entry. */
  function AfterEntry(ks: seq<Text>, m: map<Text, Text>, rest: Text): Text
    requires ks != [] && forall k :: k in ks ==> k in m
  {
    if |ks| == 1 then rest else [44] + (JoinKeys(ks[1..], m) + rest)
  }

  lemma EntrySplit(ks: seq<Text>, m: map<Text, Text>, rest: Text)
    requires ks != [] && forall k :: k in ks ==> k in m
    ensures JoinKeys(ks, m) + rest == Quote(ks[0]) + ([58] + (m[ks[0]] + AfterEntry(ks, m, rest)))
  {
    hide Quote;
  }

  /** The first key is told from the text, and what is printed behind it remains. */
  lemma FirstKeyUnique(ks: seq<Text>, ls: seq<Text>, m: map<Text, Text>, n: map<Text, Text>, x: Text, y: Text)
    requires ks != [] && ls != [] && (forall k :: k in ks ==> k in m) && forall l :: l in ls ==> l in n
    requires JoinKeys(ks, m) + x == JoinKeys(ls, n) + y
    ensures ks[0] == ls[0] && m[ks[0]] + AfterEntry(ks, m, x) == n[ls[0]] + AfterEntry(ls, n, y)
  {
    hide Quote, JoinKeys, AfterEntry;
    var p, q := m[ks[0]] + AfterEntry(ks, m, x), n[ls[0]] + AfterEntry(ls, n, y);
    EntrySplit(ks, m, x);
    EntrySplit(ls, n, y);
    QuoteUnique(ks[0], ls[0], [58] + p, [58] + q);
    Split([58], [58], p, q);
  }

  lemma JoinKeysHead(ks: seq<Text>, m: map<Text, Text>)
    requires forall k :: k in ks ==> k in m
    ensures if ks == [] then JoinKeys(ks, m) == [] else JoinKeys(ks, m) != [] && JoinKeys(ks, m)[0] == 34
  {
    hide Quoted;
  }

  /** Two payloads print the same exactly when they are the same JSON value: key order never
      matters, and nothing else is ever lost. */
  lemma CanonIffSame(a: Json, b: Json)
    requires Valid(a) && Valid(b)
    ensures Canon(a) == Canon(b) <==> Same(a, b)
  {
    hide Canon, Same;
    if Canon(a) == Canon(b) {
      assert Canon(a) + [] == Canon(b) + [];
      CanonUnique(a, b, [], []);
    }
    if Same(a, b) {
      SamePrintsSame(a, b);
    }
  }
}
