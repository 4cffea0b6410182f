// The canonical text of scripts/verify-packet.ts: stableStringify, what two values it
// identifies, and the reader that proves it.

module CanonicalJson {
  // Strings are sequences of UTF-16 code units, as the language has them.
  type Unit = n: nat | n < 0x1_0000
  type Text = seq<Unit>

  function Units(s: string): (t: Text)
    ensures |t| == |s|
    ensures forall i :: 0 <= i < |s| && s[i] as int < 0x1_0000 ==> t[i] == s[i] as int
  {
    seq(|s|, i requires 0 <= i < |s| => if s[i] as int < 0x1_0000 then s[i] as int else 0xFFFD)
  }

  const QUOTE: Unit := 0x22
  const BACKSLASH: Unit := 0x5C
  const COMMA: Unit := 0x2C
  const COLON: Unit := 0x3A
  const OPEN_LIST: Unit := 0x5B
  const CLOSE_LIST: Unit := 0x5D
  const OPEN_RECORD: Unit := 0x7B
  const CLOSE_RECORD: Unit := 0x7D
  const NULL: Text := [0x6E, 0x75, 0x6C, 0x6C]
  const TRUE: Text := [0x74, 0x72, 0x75, 0x65]
  const FALSE: Text := [0x66, 0x61, 0x6C, 0x73, 0x65]

  // ---- Values ----

  // A number is known by the numeral the language prints for it; the non-finite ones have
  // none in JSON. Members come in the record's own key order.
  datatype Value =
    | Undefined
    | Null
    | NotFinite
    | Bool(b: bool)
    | Number(numeral: Text)
    | Str(s: Text)
    | List(items: seq<Value>)
    | Record(members: seq<Member>)

  datatype Member = Member(key: Text, value: Value)

  // Digits, sign, decimal point and exponent.
  predicate NumeralUnit(u: Unit) {
    0x30 <= u <= 0x39 || u == 0x2D || u == 0x2B || u == 0x2E || u == 0x65
  }

  predicate IsNumeral(t: Text) {
    && t != [] && (0x30 <= t[0] <= 0x39 || t[0] == 0x2D)
    && forall i :: 0 <= i < |t| ==> NumeralUnit(t[i])
  }

  ghost predicate DistinctKeys(members: seq<Member>) {
    forall i, j :: 0 <= i < j < |members| ==> members[i].key != members[j].key
  }

  // What a JavaScript value satisfies by itself.
  ghost predicate Proper(v: Value) {
    match v
    case Number(numeral) => IsNumeral(numeral)
    case List(items) => forall i :: 0 <= i < |items| ==> Proper(items[i])
    case Record(members) => DistinctKeys(members) && forall i :: 0 <= i < |members| ==> Proper(members[i].value)
    case _ => true
  }

  predicate HasKey(members: seq<Member>, key: Text) {
    exists i :: 0 <= i < |members| && members[i].key == key
  }

  // record[key], which is undefined for a missing member.
  function Get(members: seq<Member>, key: Text): (v: Value)
    ensures v == Undefined || exists i :: 0 <= i < |members| && members[i].key == key && v == members[i].value
  {
    if members == [] then Undefined
    else if members[0].key == key then members[0].value
    else
      var v := Get(members[1..], key);
      assert v == Undefined ||
             exists i :: 0 <= i < |members[1..]| && members[1..][i].key == key && v == members[1..][i].value;
      v
  }

  // The keys whose value is not undefined.
  function DefinedKeys(members: seq<Member>): (keys: seq<Text>)
    ensures forall k :: k in keys ==> HasKey(members, k)
  {
    if members == [] then []
    else
      var rest := DefinedKeys(members[1..]);
      assert forall k :: k in rest ==> HasKey(members[1..], k);
      assert forall k :: HasKey(members[1..], k) ==> HasKey(members, k);
      (if members[0].value == Undefined then [] else [members[0].key]) + rest
  }

  // ---- Key order ----

  // JavaScript compares strings by code units.
  predicate Less(a: Text, b: Text) {
    if b == [] then false
    else if a == [] then true
    else a[0] < b[0] || (a[0] == b[0] && Less(a[1..], b[1..]))
  }

  lemma {:induction false} LessTotal(a: Text, b: Text)
    ensures Less(a, b) || Less(b, a) || a == b
    ensures !(Less(a, b) && Less(b, a)) && !Less(a, a)
  {
    if a != [] && b != [] {
      LessTotal(a[1..], b[1..]);
      if a[0] == b[0] && a[1..] == b[1..] {
        assert a == [a[0]] + a[1..] && b == [b[0]] + b[1..];
      }
    }
    if a != [] {
      LessTotal(a[1..], a[1..]);
    }
  }

  // The two agree up to somewhere, and there the first ends or has the smaller unit.
  ghost predicate FirstDifference(a: Text, b: Text, n: nat) {
    n <= |a| && n < |b| && a[..n] == b[..n] && (n == |a| || a[n] < b[n])
  }

  lemma {:induction false} LessMeans(a: Text, b: Text)
    ensures Less(a, b) <==> exists n: nat :: FirstDifference(a, b, n)
  {
    if b == [] {
    } else if a == [] {
      assert FirstDifference(a, b, 0);
    } else if a[0] != b[0] {
      assert a[0] < b[0] ==> FirstDifference(a, b, 0);
      forall n: nat | 0 < n <= |a| && n <= |b|
        ensures a[..n] != b[..n]
      {
        assert a[..n][0] == a[0] && b[..n][0] == b[0];
      }
    } else {
      LessMeans(a[1..], b[1..]);
      forall n: nat
        ensures FirstDifference(a, b, n + 1) <==> FirstDifference(a[1..], b[1..], n)
      {
        DifferenceBehind(a, b, n);
      }
      forall n: nat | FirstDifference(a, b, n)
        ensures n > 0 && FirstDifference(a[1..], b[1..], n - 1)
      {
        assert FirstDifference(a, b, n - 1 + 1);
      }
    }
  }

  lemma {:induction false} DifferenceBehind(a: Text, b: Text, n: nat)
    requires a != [] && b != [] && a[0] == b[0]
    ensures FirstDifference(a, b, n + 1) <==> FirstDifference(a[1..], b[1..], n)
  {
    if n + 1 <= |a| && n + 1 < |b| {
      assert a[..n + 1] == [a[0]] + a[1..][..n] && b[..n + 1] == [b[0]] + b[1..][..n];
      assert a[..n + 1][1..] == a[1..][..n] && b[..n + 1][1..] == b[1..][..n];
    }
  }

  lemma {:induction false} LessTransitive(a: Text, b: Text, c: Text)
    requires Less(a, b) && Less(b, c)
    ensures Less(a, c)
  {
    if a != [] && a[0] == b[0] && b[0] == c[0] {
      LessTransitive(a[1..], b[1..], c[1..]);
    }
  }

  ghost predicate Sorted(keys: seq<Text>) {
    forall i, j :: 0 <= i < j < |keys| ==> Less(keys[i], keys[j])
  }

  function Insert(key: Text, keys: seq<Text>): seq<Text> {
    if keys == [] || Less(key, keys[0]) then [key] + keys else [keys[0]] + Insert(key, keys[1..])
  }

  function Sort(keys: seq<Text>): seq<Text> {
    if keys == [] then [] else Insert(keys[0], Sort(keys[1..]))
  }

  lemma {:induction false} InsertSorts(key: Text, keys: seq<Text>)
    ensures forall k :: k in Insert(key, keys) <==> k == key || k in keys
    ensures Sorted(keys) && key !in keys ==> Sorted(Insert(key, keys))
  {
    if keys != [] && !Less(key, keys[0]) {
      InsertSorts(key, keys[1..]);
      LessTotal(key, keys[0]);
      assert keys == [keys[0]] + keys[1..];
      if Sorted(keys) && key !in keys {
        forall x | x in Insert(key, keys[1..])
          ensures Less(keys[0], x)
        {
          assert x != key ==> x in keys[1..];
        }
      }
    } else if keys != [] && Sorted(keys) {
      forall j | 0 <= j < |keys|
        ensures Less(key, keys[j])
      {
        if j > 0 {
          LessTransitive(key, keys[0], keys[j]);
        }
      }
    }
  }

  ghost predicate Distinct(keys: seq<Text>) {
    forall i, j :: 0 <= i < j < |keys| ==> keys[i] != keys[j]
  }

  lemma {:induction false} SortSorts(keys: seq<Text>)
    ensures forall k :: k in Sort(keys) <==> k in keys
    ensures Distinct(keys) ==> Sorted(Sort(keys))
  {
    if keys != [] {
      SortSorts(keys[1..]);
      InsertSorts(keys[0], Sort(keys[1..]));
      assert keys == [keys[0]] + keys[1..];
    }
  }

  // A set of keys has one sorted listing.
  lemma {:induction false} SortedIsUnique(a: seq<Text>, b: seq<Text>)
    requires Sorted(a) && Sorted(b) && forall k :: k in a <==> k in b
    ensures a == b
  {
    if b != [] {
      HasMember(b);
    }
    if a != [] {
      HasMember(a);
      assert b[0] in a && a[0] in b;
      LessTotal(a[0], b[0]);
      forall k
        ensures k in a[1..] <==> k in b[1..]
      {
        SortedTail(a, k);
        SortedTail(b, k);
      }
      SortedIsUnique(a[1..], b[1..]);
      assert a == [a[0]] + a[1..] && b == [b[0]] + b[1..];
    }
  }

  lemma {:induction false} HasMember(keys: seq<Text>)
    requires keys != []
    ensures exists k :: k in keys
  {
    assert keys[0] in keys;
  }

  lemma {:induction false} SortedTail(a: seq<Text>, k: Text)
    requires a != [] && Sorted(a)
    ensures k in a[1..] <==> k in a && k != a[0]
  {
    assert a == [a[0]] + a[1..];
    if k in a[1..] {
      LessTotal(a[0], k);
    }
  }

  // ---- Printing ----

  predicate IsHigh(u: Unit) {
    0xD800 <= u < 0xDC00
  }

  predicate IsLow(u: Unit) {
    0xDC00 <= u < 0xE000
  }

  // A lower-case hexadecimal digit.
  function Hex(d: nat): Unit
    requires d < 16
  {
    if d < 10 then 0x30 + d else 0x61 + d - 10
  }

  // One code unit inside a string literal: section 7 of RFC 8259, with the short escapes
  // where there is one, and lone surrogates escaped.
  function EscapeUnit(u: Unit): Text {
    if u == QUOTE || u == BACKSLASH then [BACKSLASH, u]
    else if u == 8 then [BACKSLASH, 0x62]
    else if u == 9 then [BACKSLASH, 0x74]
    else if u == 10 then [BACKSLASH, 0x6E]
    else if u == 12 then [BACKSLASH, 0x66]
    else if u == 13 then [BACKSLASH, 0x72]
    else if u < 0x20 || IsHigh(u) || IsLow(u) then
      [BACKSLASH, 0x75, Hex(u / 0x1000), Hex(u / 0x100 % 16), Hex(u / 16 % 16), Hex(u % 16)]
    else [u]
  }

  // The bytes themselves: seven short escapes,
  lemma {:induction false} ShortEscapes()
    ensures EscapeUnit(0x22) == Units("\\\"") && EscapeUnit(0x5C) == Units("\\\\")
    ensures EscapeUnit(8) == Units("\\b") && EscapeUnit(9) == Units("\\t") && EscapeUnit(10) == Units("\\n")
    ensures EscapeUnit(12) == Units("\\f") && EscapeUnit(13) == Units("\\r")
  {
  }

  // lower-case hexadecimal for the other control characters and lone surrogates,
  lemma {:induction false} HexEscape(u: Unit)
    requires (u < 0x20 && u !in {8, 9, 10, 12, 13}) || 0xD800 <= u < 0xE000
    ensures |EscapeUnit(u)| == 6 && EscapeUnit(u)[..2] == Units("\\u")
    ensures forall i :: 2 <= i < 6 ==> 0x30 <= EscapeUnit(u)[i] <= 0x39 || 0x61 <= EscapeUnit(u)[i] <= 0x66
  {
    hide Hex;
    HexCase(u / 0x1000);
    HexCase(u / 0x100 % 16);
    HexCase(u / 16 % 16);
    HexCase(u % 16);
    assert EscapeUnit(u) ==
           [BACKSLASH, 0x75, Hex(u / 0x1000), Hex(u / 0x100 % 16), Hex(u / 16 % 16), Hex(u % 16)];
    assert EscapeUnit(u)[..2] == [BACKSLASH, 0x75];
  }

  lemma {:induction false} HexCase(d: nat)
    requires d < 16
    ensures 0x30 <= Hex(d) <= 0x39 || 0x61 <= Hex(d) <= 0x66
  {
  }

  // and every other unit as it is.
  lemma {:induction false} LiteralUnit(u: Unit)
    ensures EscapeUnit(u) == [u] <==> u >= 0x20 && u != 0x22 && u != 0x5C && !(0xD800 <= u < 0xE000)
  {
  }

  function Escape(s: Text): Text {
    if s == [] then []
    else if |s| >= 2 && IsHigh(s[0]) && IsLow(s[1]) then [s[0], s[1]] + Escape(s[2..])
    else EscapeUnit(s[0]) + Escape(s[1..])
  }

  function Quote(s: Text): Text {
    [QUOTE] + Escape(s) + [QUOTE]
  }

  // stableStringify.
  function Print(v: Value): Text
    decreases v, 0
  {
    match v
    case Undefined => NULL
    case Null => NULL
    case NotFinite => NULL
    case Bool(b) => if b then TRUE else FALSE
    case Number(numeral) => numeral
    case Str(s) => Quote(s)
    case List(items) => [OPEN_LIST] + PrintItems(items) + [CLOSE_LIST]
    case Record(members) => [OPEN_RECORD] + PrintFields(members, Sort(DefinedKeys(members))) + [CLOSE_RECORD]
  }

  // The literal bytes: undefined and the non-finite numbers print as null, a number as its
  // numeral, and there is no space anywhere.
  lemma {:induction false} PlainBytes(numeral: Text)
    ensures Print(Undefined) == Print(Null) == Print(NotFinite) == Units("null")
    ensures Print(Bool(true)) == Units("true") && Print(Bool(false)) == Units("false")
    ensures Print(Number(numeral)) == numeral
    ensures Print(List([])) == Units("[]") && Print(Record([])) == Units("{}")
  {
  }

  function PrintItems(items: seq<Value>): Text
    decreases items, 0
  {
    if items == [] then []
    else if |items| == 1 then Print(items[0])
    else Print(items[0]) + [COMMA] + PrintItems(items[1..])
  }

  function PrintField(members: seq<Member>, key: Text): Text
    decreases members, 0, 0
  {
    var v := Get(members, key);
    Quote(key) + [COLON] + if v == Undefined then NULL else Print(v)
  }

  function PrintFields(members: seq<Member>, keys: seq<Text>): Text
    decreases members, 1, |keys|
  {
    if keys == [] then []
    else if |keys| == 1 then PrintField(members, keys[0])
    else PrintField(members, keys[0]) + [COMMA] + PrintFields(members, keys[1..])
  }

  // ---- What a value means, with no order and nothing undefined ----

  datatype Json =
    | JNull
    | JBool(b: bool)
    | JNumber(numeral: Text)
    | JString(s: Text)
    | JList(items: seq<Json>)
    | JRecord(members: map<Text, Json>)

  function Meaning(v: Value): Json
    decreases v, 0
  {
    match v
    case Undefined => JNull
    case Null => JNull
    case NotFinite => JNull
    case Bool(b) => JBool(b)
    case Number(numeral) => JNumber(numeral)
    case Str(s) => JString(s)
    case List(items) => JList(seq(|items|, i requires 0 <= i < |items| => Meaning(items[i])))
    case Record(members) => JRecord(map k | k in DefinedKeys(members) :: MeaningOf(members, k))
  }

  function MeaningOf(members: seq<Member>, key: Text): Json
    decreases members, 0
  {
    var v := Get(members, key);
    if v == Undefined then JNull else Meaning(v)
  }
}
