/** The printed forms, written as the characters they are. */
module JsonForms {
  import opened Texts
  import opened CanonicalJson
  import opened AuditChain
  import opened AuditLaws
  import opened Wrappers

  /** The code units of an ASCII literal. */
  function Units(s: string): (t: Text)
    requires forall i :: 0 <= i < |s| ==> s[i] as int < 128
  {
    seq(|s|, i requires 0 <= i < |s| => s[i] as int)
  }

  // ── Numbers ───────────────────────────────────────────────────────────────

  /** What a row of digits is worth in base ten. */
  function Worth(t: Text): int {
    if t == [] then 0
    else
      var digit: int := t[|t| - 1];
      10 * Worth(t[..|t| - 1]) + digit - 48
  }

  /** Times print as decimal numbers without leading zeros. */
  lemma {:induction false} NatMeans(n: nat)
    ensures Worth(NatText(n)) == n && (n > 0 ==> NatText(n)[0] != 48)
    ensures forall i :: 0 <= i < |NatText(n)| ==> '0' as int <= NatText(n)[i] <= '9' as int
  {
    if n < 10 {
      assert [48 + n][..0] == [];
    } else {
      NatMeans(n / 10);
      var t := NatText(n / 10);
      assert (t + [48 + n % 10])[..|t|] == t;
    }
  }

  lemma IntMeans(n: int)
    ensures if n < 0 then IntText(n) == Units("-") + NatText(-n) else IntText(n) == NatText(n)
  {
  }

  // ── Strings ───────────────────────────────────────────────────────────────

  function HexDigits(): Text {
    Units("0123456789abcdef")
  }

  /** A unit alone, half of no pair: a backslash form for quote, backslash, the control units and the
      surrogates, and itself otherwise. */
  predicate Printed(c: Unit, t: Text) {
    if c == '"' as int then t == Units("\\\"")
    else if c == '\\' as int then t == Units("\\\\")
    else if c == 8 then t == Units("\\b")
    else if c == 9 then t == Units("\\t")
    else if c == 10 then t == Units("\\n")
    else if c == 12 then t == Units("\\f")
    else if c == 13 then t == Units("\\r")
    else if c < 32 || 0xD800 <= c <= 0xDFFF then
      exists p, q, r, s :: 0 <= p < 16 && 0 <= q < 16 && 0 <= r < 16 && 0 <= s < 16 && c == 4096 * p + 256 * q + 16 * r + s
                           && t == Units("\\u") + [HexDigits()[p], HexDigits()[q], HexDigits()[r], HexDigits()[s]]
    else t == [c]
  }

  lemma HexMeans(n: nat)
    requires n < 16
    ensures Hex(n) == HexDigits()[n]
  {
  }

  lemma EscapeMeans(c: Unit)
    ensures Printed(c, Escape(c))
  {
    if (c < 32 && ShortEscape(c) == 0) || IsHigh(c) || IsLow(c) {
      hide Hex, HexDigits;
      var p, q, r, s := c / 4096, c / 256 % 16, c / 16 % 16, c % 16;
      Digits(c);
      HexMeans(p);
      HexMeans(q);
      HexMeans(r);
      HexMeans(s);
      assert Escape(c) == Units("\\u") + [HexDigits()[p], HexDigits()[q], HexDigits()[r], HexDigits()[s]];
    }
  }

  lemma PairPrints(c: Unit, d: Unit, s: Text)
    requires IsHigh(c) && IsLow(d)
    ensures Quoted([c, d] + s) == [c, d] + Quoted(s)
  {
    var w := [c, d] + s;
    assert w[..2] == [c, d] && w[2..] == s;
  }

  lemma UnitPrints(c: Unit, s: Text)
    requires !(IsHigh(c) && s != [] && IsLow(s[0]))
    ensures Quoted([c] + s) == Escape(c) + Quoted(s)
  {
    hide Escape;
    var w := [c] + s;
    assert w[1..] == s && !StartsWithPair(w);
  }

  lemma Quotes(s: Text)
    ensures Canon(JString(s)) == Units("\"") + Quoted(s) && Canon(JString(s))[1..] == Quoted(s)
  {
    hide Quoted;
  }

  /** A string prints unit by unit between quotes; a surrogate pair is left as it is. */
  lemma StringPrints(c: Unit, d: Unit, s: Text)
    ensures Canon(JString([])) == Units("\"\"")
    ensures 0xD800 <= c <= 0xDBFF && 0xDC00 <= d <= 0xDFFF ==> Canon(JString([c, d] + s)) == Units("\"") + [c, d] + Canon(JString(s))[1..]
    ensures !(0xD800 <= c <= 0xDBFF && s != [] && 0xDC00 <= s[0] <= 0xDFFF) ==>
      exists t :: Printed(c, t) && Canon(JString([c] + s)) == Units("\"") + t + Canon(JString(s))[1..]
  {
    hide Escape, Printed, Canon, Quoted;
    Quotes(s);
    NothingPrints();
    if IsHigh(c) && IsLow(d) {
      Quotes([c, d] + s);
      PairPrints(c, d, s);
    }
    if !(IsHigh(c) && s != [] && IsLow(s[0])) {
      Quotes([c] + s);
      UnitPrints(c, s);
      EscapeMeans(c);
      assert Canon(JString([c] + s)) == Units("\"") + Escape(c) + Canon(JString(s))[1..];
    }
  }

  lemma NothingPrints()
    ensures Canon(JString([])) == Units("\"\"")
  {
  }

  // ── Values ────────────────────────────────────────────────────────────────

  lemma LiteralsPrint(token: Text)
    ensures Canon(JNull) == Units("null") && Canon(JBool(true)) == Units("true") && Canon(JBool(false)) == Units("false")
    ensures Canon(JNumber(token)) == token
  {
  }

  /** Texts separated by commas. */
  function Commas(parts: seq<Text>): Text {
    if parts == [] then []
    else if |parts| == 1 then parts[0]
    else parts[0] + Units(",") + Commas(parts[1..])
  }

  /** The printed form of every item, in order. */
  function Printouts(items: seq<Json>): (parts: seq<Text>)
    ensures |parts| == |items| && forall i :: 0 <= i < |items| ==> parts[i] == Canon(items[i])
  {
    seq(|items|, i requires 0 <= i < |items| => Canon(items[i]))
  }

  lemma {:induction false} ItemsJoined(items: seq<Json>)
    ensures JoinItems(items) == Commas(Printouts(items))
  {
    hide Canon;
    if |items| <= 1 {
    } else {
      ItemsJoined(items[1..]);
      assert Printouts(items)[1..] == Printouts(items[1..]);
    }
  }

  /** An array prints its items in order, between brackets and separated by commas. */
  lemma ArrayPrints(items: seq<Json>)
    ensures Canon(JArray(items)) == Units("[") + Commas(Printouts(items)) + Units("]")
  {
    hide JoinItems, Commas, Printouts;
    ItemsJoined(items);
  }

  /** A field prints as its key, a colon and its value. */
  function Members(fields: seq<Field>): (parts: seq<Text>)
    ensures |parts| == |fields|
    ensures forall i :: 0 <= i < |fields| ==> parts[i] == Canon(JString(fields[i].key)) + Units(":") + Canon(fields[i].value)
  {
    seq(|fields|, i requires 0 <= i < |fields| => Canon(JString(fields[i].key)) + Units(":") + Canon(fields[i].value))
  }

  lemma {:induction false} KeysJoined(keys: seq<Text>, m: map<Text, Text>, fields: seq<Field>)
    requires |keys| == |fields|
    requires forall i :: 0 <= i < |keys| ==> keys[i] == fields[i].key && keys[i] in m && m[keys[i]] == Canon(fields[i].value)
    ensures JoinKeys(keys, m) == Commas(Members(fields))
  {
    hide Quote;
    if keys == [] {
    } else {
      KeysJoined(keys[1..], m, fields[1..]);
      assert Members(fields)[1..] == Members(fields[1..]);
      MemberPrints(fields[0]);
      assert Members(fields)[0] == Quote(keys[0]) + [58] + m[keys[0]];
    }
  }

  lemma MemberPrints(f: Field)
    ensures Canon(JString(f.key)) + Units(":") + Canon(f.value) == Quote(f.key) + [58] + Canon(f.value)
  {
    hide Quote;
  }

  ghost predicate ByKey(fields: seq<Field>) {
    forall i, j :: 0 <= i < j < |fields| ==> Before(fields[i].key, fields[j].key)
  }

  function WithKey(fields: seq<Field>, key: Text): (f: Field)
    requires key in KeySet(fields)
    ensures f in fields && f.key == key
  {
    if fields[0].key == key then fields[0]
    else
      assert fields == [fields[0]] + fields[1..];
      WithKey(fields[1..], key)
  }

  /** The fields in the order of their keys. */
  function InKeyOrder(fields: seq<Field>): (sorted: seq<Field>)
    ensures |sorted| == |Sorted(KeySet(fields))|
    ensures forall i :: 0 <= i < |sorted| ==> sorted[i] in fields && sorted[i].key == Sorted(KeySet(fields))[i]
  {
    var keys := Sorted(KeySet(fields));
    seq(|keys|, i requires 0 <= i < |keys| => WithKey(fields, keys[i]))
  }

  lemma KeyOrder(fields: seq<Field>)
    requires forall i, k :: 0 <= i < k < |fields| ==> fields[i].key != fields[k].key
    ensures ByKey(InKeyOrder(fields)) && forall f :: f in InKeyOrder(fields) <==> f in fields
  {
    hide Before, Less, InKeyOrder;
    var keys, sorted := Sorted(KeySet(fields)), InKeyOrder(fields);
    forall i, j | 0 <= i < j < |sorted| ensures Before(sorted[i].key, sorted[j].key) {
      LessMeans(keys[i], keys[j]);
    }
    forall f | f in fields ensures f in sorted {
      assert f.key in keys;
      var i :| 0 <= i < |keys| && keys[i] == f.key;
      assert sorted[i] in fields && sorted[i].key == f.key;
    }
  }

  /** An object prints its fields in the order of their keys, between braces and separated by commas. */
  lemma ObjectPrints(fields: seq<Field>)
    requires forall i, k :: 0 <= i < k < |fields| ==> fields[i].key != fields[k].key
    ensures exists sorted :: ByKey(sorted) && (forall f :: f in sorted <==> f in fields)
                             && Canon(JObject(fields)) == Units("{") + Commas(Members(sorted)) + Units("}")
  {
    hide JoinKeys, Commas, Members, InKeyOrder, ByKey, Rendered, Sorted;
    var keys, sorted := Sorted(KeySet(fields)), InKeyOrder(fields);
    KeyOrder(fields);
    forall i | 0 <= i < |keys| ensures keys[i] in Rendered(fields) && Rendered(fields)[keys[i]] == Canon(sorted[i].value) {
      FieldAt(fields, sorted[i]);
    }
    KeysJoined(keys, Rendered(fields), sorted);
  }

  lemma FieldAt(fields: seq<Field>, f: Field)
    requires f in fields && forall i, k :: 0 <= i < k < |fields| ==> fields[i].key != fields[k].key
    ensures f.key in Rendered(fields) && Rendered(fields)[f.key] == Canon(f.value)
  {
    hide Canon, Rendered;
    var i :| 0 <= i < |fields| && fields[i] == f;
    RenderedAt(fields, i);
  }

  // ── Events ────────────────────────────────────────────────────────────────

  /** What is hashed of an event: the eight fields in order, the payload as the string of its own text. */
  lemma EventPrints(e: Event)
    ensures EventText(e) == Units("[") + Commas([Canon(JString(e.id)), Canon(JString(e.tenantId)), Canon(JString(e.engagementId)),
              Canon(JString(e.eventType)), Canon(JString(e.actorType)), if e.actorId == None then Units("null") else Canon(JString(e.actorId.value)),
              Canon(JString(Canon(e.payload))), IntText(e.createdAt)]) + Units("]")
  {
    hide Canon, Commas, IntText;
    ArrayPrints(EventJson(e).items);
    LiteralsPrint(IntText(e.createdAt));
    assert Printouts(EventJson(e).items) == [Canon(JString(e.id)), Canon(JString(e.tenantId)), Canon(JString(e.engagementId)),
              Canon(JString(e.eventType)), Canon(JString(e.actorType)), if e.actorId == None then Units("null") else Canon(JString(e.actorId.value)),
              Canon(JString(Canon(e.payload))), IntText(e.createdAt)];
  }
}
