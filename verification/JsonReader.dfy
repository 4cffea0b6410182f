// A reader for the canonical text, and the proof that it reads back exactly what was
// printed, whatever follows: two values print alike only if they mean the same.

module JsonReader {
  import opened Wrappers
  import opened CanonicalJson

  datatype Parsed<+T> = Parsed(value: T, rest: Text)

  // ---- Strings ----

  function HexValue(u: Unit): Option<nat> {
    if 0x30 <= u <= 0x39 then Some(u - 0x30)
    else if 0x61 <= u <= 0x66 then Some(u - 0x61 + 10)
    else None
  }

  function ReadHex(t: Text): Option<Unit>
    requires |t| >= 4
  {
    match (HexValue(t[0]), HexValue(t[1]), HexValue(t[2]), HexValue(t[3]))
    case (Some(a), Some(b), Some(c), Some(d)) =>
      var n := a * 0x1000 + b * 0x100 + c * 16 + d;
      if n < 0x1_0000 then Some(n) else None
    case _ => None
  }

  // One code unit of a string literal.
  function ReadUnit(t: Text): (r: Option<Parsed<Unit>>)
    ensures r.Some? ==> |r.value.rest| < |t|
  {
    if t == [] || t[0] == QUOTE then None
    else if t[0] != BACKSLASH then Some(Parsed(t[0], t[1..]))
    else if |t| < 2 then None
    else if t[1] == QUOTE || t[1] == BACKSLASH then Some(Parsed(t[1], t[2..]))
    else if t[1] == 0x62 then Some(Parsed(8, t[2..]))
    else if t[1] == 0x74 then Some(Parsed(9, t[2..]))
    else if t[1] == 0x6E then Some(Parsed(10, t[2..]))
    else if t[1] == 0x66 then Some(Parsed(12, t[2..]))
    else if t[1] == 0x72 then Some(Parsed(13, t[2..]))
    else if t[1] == 0x75 && |t| >= 6 then
      match ReadHex(t[2..])
      case Some(u) => Some(Parsed(u, t[6..]))
      case None => None
    else None
  }

  // The rest of a string literal, after its opening quote.
  function ReadString(t: Text): (r: Option<Parsed<Text>>)
    ensures r.Some? ==> |r.value.rest| < |t|
    decreases |t|
  {
    if t == [] then None
    else if t[0] == QUOTE then Some(Parsed([], t[1..]))
    else
      match ReadUnit(t)
      case None => None
      case Some(Parsed(u, rest)) =>
        match ReadString(rest)
        case None => None
        case Some(Parsed(s, rest')) => Some(Parsed([u] + s, rest'))
  }

  lemma {:induction false} HexDigit(d: nat)
    requires d < 16
    ensures HexValue(Hex(d)) == Some(d)
  {
  }

  lemma {:induction false} DivDiv(u: nat)
    ensures u / 0x100 == u / 16 / 16 && u / 0x1000 == u / 16 / 16 / 16
  {
  }

  lemma {:induction false} HexDigits(u: Unit)
    ensures ReadHex([Hex(u / 0x1000), Hex(u / 0x100 % 16), Hex(u / 16 % 16), Hex(u % 16)]) == Some(u)
  {
    hide Hex, HexValue;
    var q1 := u / 16;
    var q2 := q1 / 16;
    var q3 := q2 / 16;
    DivDiv(u);
    assert u == q1 * 16 + u % 16 && q1 == q2 * 16 + q1 % 16 && q2 == q3 * 16 + q2 % 16;
    HexDigit(q3);
    HexDigit(q2 % 16);
    HexDigit(q1 % 16);
    HexDigit(u % 16);
    assert u == q3 * 0x1000 + q2 % 16 * 0x100 + q1 % 16 * 16 + u % 16;
  }

  lemma {:induction false} ReadEscaped(u: Unit, rest: Text)
    ensures ReadUnit(EscapeUnit(u) + rest) == Some(Parsed(u, rest))
  {
    var e := EscapeUnit(u);
    var t := e + rest;
    assert t[|e|..] == rest;
    if |e| == 6 {
      HexDigits(u);
      assert ReadHex(t[2..]) == ReadHex(e[2..]);
    }
  }

  lemma {:induction false} ReadOne(u: Unit, t: Text, s: Text, rest: Text)
    requires t != [] && t[0] != QUOTE
    requires ReadUnit(t).Some? && ReadUnit(t).value.value == u
    requires ReadString(ReadUnit(t).value.rest) == Some(Parsed(s, rest))
    ensures ReadString(t) == Some(Parsed([u] + s, rest))
  {
  }

  // What stands behind the opening quote of a printed string.
  ghost function Behind(s: Text, rest: Text): Text {
    Escape(s) + ([QUOTE] + rest)
  }

  lemma {:induction false} BehindPair(s: Text, rest: Text)
    requires |s| >= 2 && IsHigh(s[0]) && IsLow(s[1])
    ensures Behind(s, rest) == [s[0]] + ([s[1]] + Behind(s[2..], rest))
  {
    assert [s[0], s[1]] + Escape(s[2..]) + ([QUOTE] + rest) == [s[0]] + ([s[1]] + (Escape(s[2..]) + ([QUOTE] + rest)));
  }

  lemma {:induction false} BehindUnit(s: Text, rest: Text)
    requires s != [] && !(|s| >= 2 && IsHigh(s[0]) && IsLow(s[1]))
    ensures Behind(s, rest) == EscapeUnit(s[0]) + Behind(s[1..], rest)
  {
    Associative(EscapeUnit(s[0]), Escape(s[1..]), [QUOTE] + rest);
  }

  lemma {:induction false} Associative(x: Text, y: Text, z: Text)
    ensures (x + y) + z == x + (y + z)
  {
  }

  lemma {:induction false} ReadLiteral(u: Unit, t: Text)
    requires u != QUOTE && u != BACKSLASH
    ensures ReadUnit([u] + t) == Some(Parsed(u, t))
  {
    assert ([u] + t)[1..] == t;
  }

  lemma {:induction false} ReadBack(s: Text, rest: Text)
    ensures ReadString(Behind(s, rest)) == Some(Parsed(s, rest))
  {
    hide Behind, Escape, EscapeUnit, ReadUnit, ReadString;
    if s == [] {
      ReadEnd(rest);
    } else if |s| >= 2 && IsHigh(s[0]) && IsLow(s[1]) {
      var after := Behind(s[2..], rest);
      ReadBack(s[2..], rest);
      BehindPair(s, rest);
      ReadLiteral(s[1], after);
      ReadOne(s[1], [s[1]] + after, s[2..], rest);
      ReadLiteral(s[0], [s[1]] + after);
      ReadOne(s[0], [s[0]] + ([s[1]] + after), [s[1]] + s[2..], rest);
      assert s == [s[0]] + ([s[1]] + s[2..]);
    } else {
      var after := Behind(s[1..], rest);
      ReadBack(s[1..], rest);
      BehindUnit(s, rest);
      ReadEscaped(s[0], after);
      EscapeStarts(s[0], after);
      ReadOne(s[0], EscapeUnit(s[0]) + after, s[1..], rest);
      assert s == [s[0]] + s[1..];
    }
  }

  lemma {:induction false} EscapeStarts(u: Unit, after: Text)
    ensures EscapeUnit(u) + after != [] && (EscapeUnit(u) + after)[0] != QUOTE
  {
  }

  lemma {:induction false} ReadEnd(rest: Text)
    ensures ReadString(Behind([], rest)) == Some(Parsed([], rest))
  {
    assert Behind([], rest) == [QUOTE] + rest;
  }

  // ---- Values ----

  function NumeralLength(t: Text): (n: nat)
    ensures n <= |t|
    ensures t != [] && NumeralUnit(t[0]) ==> n > 0
  {
    if t == [] || !NumeralUnit(t[0]) then 0 else 1 + NumeralLength(t[1..])
  }

  function ReadValue(t: Text): (r: Option<Parsed<Json>>)
    ensures r.Some? ==> |r.value.rest| < |t|
    decreases |t|, 0
  {
    if t == [] then None
    else if NULL <= t then Some(Parsed(JNull, t[4..]))
    else if TRUE <= t then Some(Parsed(JBool(true), t[4..]))
    else if FALSE <= t then Some(Parsed(JBool(false), t[5..]))
    else if t[0] == QUOTE then
      match ReadString(t[1..])
      case Some(Parsed(s, rest)) => Some(Parsed(JString(s), rest))
      case None => None
    else if t[0] == OPEN_LIST then
      if |t| >= 2 && t[1] == CLOSE_LIST then Some(Parsed(JList([]), t[2..]))
      else
        match ReadItems(t[1..])
        case Some(Parsed(js, rest)) => Some(Parsed(JList(js), rest))
        case None => None
    else if t[0] == OPEN_RECORD then
      if |t| >= 2 && t[1] == CLOSE_RECORD then Some(Parsed(JRecord(map[]), t[2..]))
      else
        match ReadFields(t[1..])
        case Some(Parsed(fields, rest)) => Some(Parsed(JRecord(fields), rest))
        case None => None
    else if NumeralUnit(t[0]) then
      Some(Parsed(JNumber(t[..NumeralLength(t)]), t[NumeralLength(t)..]))
    else None
  }

  // The rest of a non-empty list, after its bracket.
  function ReadItems(t: Text): (r: Option<Parsed<seq<Json>>>)
    ensures r.Some? ==> |r.value.rest| < |t|
    decreases |t|, 1
  {
    match ReadValue(t)
    case None => None
    case Some(Parsed(j, rest)) =>
      if rest == [] then None
      else if rest[0] == CLOSE_LIST then Some(Parsed([j], rest[1..]))
      else if rest[0] != COMMA then None
      else
        match ReadItems(rest[1..])
        case None => None
        case Some(Parsed(js, rest')) => Some(Parsed([j] + js, rest'))
  }

  function ReadField(t: Text): (r: Option<Parsed<(Text, Json)>>)
    ensures r.Some? ==> |r.value.rest| < |t|
    decreases |t|, 1
  {
    if t == [] || t[0] != QUOTE then None
    else
      match ReadString(t[1..])
      case None => None
      case Some(Parsed(key, rest)) =>
        if rest == [] || rest[0] != COLON then None
        else
          match ReadValue(rest[1..])
          case None => None
          case Some(Parsed(j, rest')) => Some(Parsed((key, j), rest'))
  }

  // The rest of a non-empty record, after its brace.
  function ReadFields(t: Text): (r: Option<Parsed<map<Text, Json>>>)
    ensures r.Some? ==> |r.value.rest| < |t|
    decreases |t|, 2
  {
    match ReadField(t)
    case None => None
    case Some(Parsed(field, rest)) =>
      if rest == [] then None
      else if rest[0] == CLOSE_RECORD then Some(Parsed(map[field.0 := field.1], rest[1..]))
      else if rest[0] != COMMA then None
      else
        match ReadFields(rest[1..])
        case None => None
        case Some(Parsed(fields, rest')) => Some(Parsed(fields[field.0 := field.1], rest'))
  }

  // What may follow a printed value without running into it.
  predicate Delimited(rest: Text) {
    rest != [] ==> !NumeralUnit(rest[0])
  }

  function Meanings(items: seq<Value>): seq<Json> {
    seq(|items|, i requires 0 <= i < |items| => Meaning(items[i]))
  }

  function Fields(members: seq<Member>, keys: seq<Text>): map<Text, Json> {
    map k | k in keys :: MeaningOf(members, k)
  }

  lemma {:induction false} NumeralRead(numeral: Text, rest: Text)
    requires (forall i :: 0 <= i < |numeral| ==> NumeralUnit(numeral[i])) && Delimited(rest)
    ensures NumeralLength(numeral + rest) == |numeral|
  {
    if numeral == [] {
      assert numeral + rest == rest;
    } else {
      assert (numeral + rest)[1..] == numeral[1..] + rest;
      NumeralRead(numeral[1..], rest);
    }
  }

  // Nothing printed is empty or opens with a closing bracket.
  lemma {:induction false} PrintStarts(v: Value)
    requires Proper(v)
    ensures Print(v) != [] && Print(v)[0] != CLOSE_LIST && Print(v)[0] != CLOSE_RECORD
  {
  }

  lemma {:induction false} ReadNull(rest: Text)
    ensures ReadValue(NULL + rest) == Some(Parsed(JNull, rest))
  {
    hide ReadItems, ReadFields, ReadString;
    assert NULL <= NULL + rest && (NULL + rest)[4..] == rest;
  }

  lemma {:induction false} ReadBool(b: bool, rest: Text)
    ensures ReadValue((if b then TRUE else FALSE) + rest) == Some(Parsed(JBool(b), rest))
  {
    hide ReadItems, ReadFields, ReadString;
    var word := if b then TRUE else FALSE;
    var t := word + rest;
    assert word <= t && t[|word|..] == rest;
    assert t[0] == word[0] && t[0] != NULL[0] && (!b ==> t[0] != TRUE[0]);
  }

  lemma {:induction false} ReadNumber(numeral: Text, rest: Text)
    requires IsNumeral(numeral) && Delimited(rest)
    ensures ReadValue(numeral + rest) == Some(Parsed(JNumber(numeral), rest))
  {
    hide ReadItems, ReadFields, ReadString, NumeralLength;
    var t := numeral + rest;
    NumeralRead(numeral, rest);
    assert t[0] == numeral[0] && NumeralUnit(t[0]);
    assert t[|numeral|..] == rest && t[..|numeral|] == numeral;
  }

  lemma {:induction false} ReadQuoted(s: Text, rest: Text)
    ensures ReadValue(Quote(s) + rest) == Some(Parsed(JString(s), rest))
  {
    hide ReadItems, ReadFields, ReadString, Behind, Quote;
    ReadBack(s, rest);
    QuoteBehind(s, rest);
  }

  lemma {:induction false} ReadAtom(v: Value, rest: Text)
    requires Proper(v) && !v.List? && !v.Record? && Delimited(rest)
    ensures ReadValue(Print(v) + rest) == Some(Parsed(Meaning(v), rest))
  {
    hide ReadValue;
    match v {
      case Number(numeral) => ReadNumber(numeral, rest);
      case Str(s) => ReadQuoted(s, rest);
      case Bool(b) => ReadBool(b, rest);
      case Undefined => ReadNull(rest);
      case Null => ReadNull(rest);
      case NotFinite => ReadNull(rest);
      case List(_) =>
      case Record(_) =>
    }
  }

  lemma {:induction false} QuoteBehind(s: Text, rest: Text)
    ensures Quote(s) + rest == [QUOTE] + Behind(s, rest)
    ensures (Quote(s) + rest)[0] == QUOTE && (Quote(s) + rest)[1..] == Behind(s, rest)
  {
    assert [QUOTE] + Escape(s) + [QUOTE] + rest == [QUOTE] + (Escape(s) + ([QUOTE] + rest));
  }

  // ---- Lists and records ----

  lemma {:induction false} ReadWrappedList(body: Text, js: seq<Json>, rest: Text)
    requires ReadItems(body) == Some(Parsed(js, rest)) && body != [] && body[0] != CLOSE_LIST
    ensures ReadValue([OPEN_LIST] + body) == Some(Parsed(JList(js), rest))
  {
    var t := [OPEN_LIST] + body;
    assert t[1..] == body && t[0] == OPEN_LIST;
  }

  lemma {:induction false} ReadWrappedRecord(body: Text, fields: map<Text, Json>, rest: Text)
    requires ReadFields(body) == Some(Parsed(fields, rest)) && body != [] && body[0] != CLOSE_RECORD
    ensures ReadValue([OPEN_RECORD] + body) == Some(Parsed(JRecord(fields), rest))
  {
    var t := [OPEN_RECORD] + body;
    assert t[1..] == body && t[0] == OPEN_RECORD;
  }

  lemma {:induction false} ReadLastItem(t: Text, j: Json, rest: Text)
    requires ReadValue(t) == Some(Parsed(j, [CLOSE_LIST] + rest))
    ensures ReadItems(t) == Some(Parsed([j], rest))
  {
    assert ([CLOSE_LIST] + rest)[1..] == rest;
  }

  lemma {:induction false} ReadMoreItems(t: Text, j: Json, more: Text, js: seq<Json>, rest: Text)
    requires ReadValue(t) == Some(Parsed(j, [COMMA] + more))
    requires ReadItems(more) == Some(Parsed(js, rest))
    ensures ReadItems(t) == Some(Parsed([j] + js, rest))
  {
    assert ([COMMA] + more)[1..] == more;
  }

  lemma {:induction false} ReadLastField(t: Text, key: Text, j: Json, rest: Text)
    requires ReadField(t) == Some(Parsed((key, j), [CLOSE_RECORD] + rest))
    ensures ReadFields(t) == Some(Parsed(map[key := j], rest))
  {
    assert ([CLOSE_RECORD] + rest)[1..] == rest;
  }

  lemma {:induction false} ReadMoreFields(t: Text, key: Text, j: Json, more: Text, fields: map<Text, Json>, rest: Text)
    requires ReadField(t) == Some(Parsed((key, j), [COMMA] + more))
    requires ReadFields(more) == Some(Parsed(fields, rest))
    ensures ReadFields(t) == Some(Parsed(fields[key := j], rest))
  {
    assert ([COMMA] + more)[1..] == more;
  }

  lemma {:induction false} ReadKeyed(key: Text, j: Json, t: Text, rest: Text)
    requires ReadValue(t) == Some(Parsed(j, rest))
    ensures ReadField(Quote(key) + ([COLON] + t)) == Some(Parsed((key, j), rest))
  {
    ReadBack(key, [COLON] + t);
    QuoteBehind(key, [COLON] + t);
    assert ([COLON] + t)[1..] == t;
  }

  lemma {:induction false} MeaningParts(v: Value)
    ensures v.List? ==> Meaning(v) == JList(Meanings(v.items)) && (v.items == [] ==> Meaning(v) == JList([]))
    ensures v.Record? ==> Meaning(v) == JRecord(Fields(v.members, DefinedKeys(v.members)))
  {
    if v.List? {
      assert Meaning(v).items == Meanings(v.items);
    }
    if v.Record? {
      assert Meaning(v).members == Fields(v.members, DefinedKeys(v.members));
    }
  }

  lemma {:induction false} SameFields(members: seq<Member>, a: seq<Text>, b: seq<Text>)
    requires forall k :: k in a <==> k in b
    ensures Fields(members, a) == Fields(members, b)
  {
  }

  lemma {:induction false} NoFields(members: seq<Member>, keys: seq<Text>)
    requires forall k :: k in keys <==> k in []
    ensures Fields(members, keys) == map[]
  {
  }

  // The headline: the reader gets the meaning back and consumes exactly the printed text,
  // whatever delimited text follows it.
  lemma {:induction false} RoundTrip(v: Value, rest: Text)
    requires Proper(v) && Delimited(rest)
    ensures ReadValue(Print(v) + rest) == Some(Parsed(Meaning(v), rest))
    decreases v, 0
  {
    match v {
      case List(items) => ListTrip(items, rest);
      case Record(members) => RecordTrip(members, rest);
      case _ => ReadAtom(v, rest);
    }
  }

  lemma {:induction false} ListTrip(items: seq<Value>, rest: Text)
    requires Proper(List(items)) && Delimited(rest)
    ensures ReadValue(Print(List(items)) + rest) == Some(Parsed(Meaning(List(items)), rest))
    decreases items, 2
  {
    hide ReadValue, ReadItems, Meanings, Meaning, PrintItems;
    MeaningParts(List(items));
    var body := PrintItems(items) + ([CLOSE_LIST] + rest);
    Enclosed(OPEN_LIST, PrintItems(items), CLOSE_LIST, rest);
    if items == [] {
      ReadEmpty(rest);
      PrintsNothing([]);
    } else {
      ItemsTrip(items, rest);
      ItemsStart(items, [CLOSE_LIST] + rest);
      ReadWrappedList(body, Meanings(items), rest);
    }
  }

  lemma {:induction false} RecordTrip(members: seq<Member>, rest: Text)
    requires Proper(Record(members)) && Delimited(rest)
    ensures ReadValue(Print(Record(members)) + rest) == Some(Parsed(Meaning(Record(members)), rest))
    decreases members, 2
  {
    hide ReadValue, ReadFields, Fields, Meaning, PrintFields, Sort, DefinedKeys;
    MeaningParts(Record(members));
    var keys := Sort(DefinedKeys(members));
    var body := PrintFields(members, keys) + ([CLOSE_RECORD] + rest);
    SortSorts(DefinedKeys(members));
    DefinedDistinct(members);
    SortedDistinct(keys);
    Enclosed(OPEN_RECORD, PrintFields(members, keys), CLOSE_RECORD, rest);
    if keys == [] {
      ReadEmpty(rest);
      PrintsNothing(members);
      NoFields(members, DefinedKeys(members));
    } else {
      FieldsTrip(members, keys, rest);
      FieldsStart(members, keys, [CLOSE_RECORD] + rest);
      ReadWrappedRecord(body, Fields(members, keys), rest);
      SameFields(members, keys, DefinedKeys(members));
    }
  }

  lemma {:induction false} Enclosed(open: Unit, inside: Text, close: Unit, rest: Text)
    ensures [open] + inside + [close] + rest == [open] + (inside + ([close] + rest))
  {
  }

  lemma {:induction false} PrintsNothing(members: seq<Member>)
    ensures PrintItems([]) == [] && PrintFields(members, []) == []
  {
  }

  lemma {:induction false} ReadEmpty(rest: Text)
    ensures ReadValue([OPEN_LIST] + ([] + ([CLOSE_LIST] + rest))) == Some(Parsed(JList([]), rest))
    ensures ReadValue([OPEN_RECORD] + ([] + ([CLOSE_RECORD] + rest))) == Some(Parsed(JRecord(map[]), rest))
  {
    var t, u := [OPEN_LIST] + ([] + ([CLOSE_LIST] + rest)), [OPEN_RECORD] + ([] + ([CLOSE_RECORD] + rest));
    assert t[0] == OPEN_LIST && t[1] == CLOSE_LIST && t[2..] == rest;
    assert u[0] == OPEN_RECORD && u[1] == CLOSE_RECORD && u[2..] == rest;
  }

  lemma {:induction false} ItemsStart(items: seq<Value>, after: Text)
    requires items != [] && Proper(items[0])
    ensures PrintItems(items) + after != [] && (PrintItems(items) + after)[0] != CLOSE_LIST
  {
    PrintStarts(items[0]);
  }

  lemma {:induction false} FieldsStart(members: seq<Member>, keys: seq<Text>, after: Text)
    requires keys != []
    ensures PrintFields(members, keys) + after != [] && (PrintFields(members, keys) + after)[0] != CLOSE_RECORD
  {
    assert PrintField(members, keys[0])[0] == QUOTE;
  }

  lemma {:induction false} ItemsTrip(items: seq<Value>, rest: Text)
    requires items != [] && forall i :: 0 <= i < |items| ==> Proper(items[i])
    ensures ReadItems(PrintItems(items) + ([CLOSE_LIST] + rest)) == Some(Parsed(Meanings(items), rest))
    decreases items, 1
  {
    hide ReadValue, ReadItems, Print, Meaning;
    if |items| == 1 {
      RoundTrip(items[0], [CLOSE_LIST] + rest);
      ReadLastItem(Print(items[0]) + ([CLOSE_LIST] + rest), Meaning(items[0]), rest);
      assert Meanings(items) == [Meaning(items[0])];
    } else {
      var more := PrintItems(items[1..]) + ([CLOSE_LIST] + rest);
      RoundTrip(items[0], [COMMA] + more);
      ItemsTrip(items[1..], rest);
      ReadMoreItems(Print(items[0]) + ([COMMA] + more), Meaning(items[0]), more, Meanings(items[1..]), rest);
      assert PrintItems(items) + ([CLOSE_LIST] + rest) == Print(items[0]) + ([COMMA] + more);
      assert Meanings(items) == [Meaning(items[0])] + Meanings(items[1..]);
    }
  }

  lemma {:induction false} FieldTrip(members: seq<Member>, key: Text, rest: Text)
    requires (forall i :: 0 <= i < |members| ==> Proper(members[i].value)) && Delimited(rest)
    ensures ReadField(PrintField(members, key) + rest) == Some(Parsed((key, MeaningOf(members, key)), rest))
    decreases members, 0
  {
    hide ReadValue, ReadField, Print, Meaning;
    var v := Get(members, key);
    var shown := if v == Undefined then NULL else Print(v);
    if v == Undefined {
      ReadAtom(Null, rest);
      PrintsNull();
    } else {
      RoundTrip(v, rest);
    }
    ReadKeyed(key, MeaningOf(members, key), shown + rest, rest);
    assert PrintField(members, key) + rest == Quote(key) + ([COLON] + (shown + rest));
  }

  lemma {:induction false} PrintsNull()
    ensures Print(Null) == NULL && Meaning(Null) == JNull
  {
  }

  lemma {:induction false} FieldsTrip(members: seq<Member>, keys: seq<Text>, rest: Text)
    requires keys != [] && Distinct(keys) && forall i :: 0 <= i < |members| ==> Proper(members[i].value)
    ensures ReadFields(PrintFields(members, keys) + ([CLOSE_RECORD] + rest)) ==
            Some(Parsed(Fields(members, keys), rest))
    decreases members, 1, |keys|
  {
    hide ReadField, ReadFields, PrintField, MeaningOf;
    var key := keys[0];
    if |keys| == 1 {
      FieldTrip(members, key, [CLOSE_RECORD] + rest);
      ReadLastField(PrintField(members, key) + ([CLOSE_RECORD] + rest), key, MeaningOf(members, key), rest);
      assert Fields(members, keys) == map[key := MeaningOf(members, key)];
    } else {
      var more := PrintFields(members, keys[1..]) + ([CLOSE_RECORD] + rest);
      FieldTrip(members, key, [COMMA] + more);
      FieldsTrip(members, keys[1..], rest);
      ReadMoreFields(PrintField(members, key) + ([COMMA] + more), key, MeaningOf(members, key), more,
                     Fields(members, keys[1..]), rest);
      assert PrintFields(members, keys) + ([CLOSE_RECORD] + rest) == PrintField(members, key) + ([COMMA] + more);
      FieldsStep(members, keys);
    }
  }

  // ---- The order in which members are printed ----

  // The keys of a non-empty record, after its brace, in the order in which they stand.
  function ReadKeys(t: Text): Option<seq<Text>>
    decreases |t|
  {
    match ReadField(t)
    case None => None
    case Some(Parsed(field, rest)) =>
      if rest == [] then None
      else if rest[0] == CLOSE_RECORD then Some([field.0])
      else if rest[0] != COMMA then None
      else
        match ReadKeys(rest[1..])
        case None => None
        case Some(keys) => Some([field.0] + keys)
  }

  lemma {:induction false} ReadLastKey(t: Text, key: Text, j: Json, rest: Text)
    requires ReadField(t) == Some(Parsed((key, j), [CLOSE_RECORD] + rest))
    ensures ReadKeys(t) == Some([key])
  {
    hide ReadField;
  }

  lemma {:induction false} ReadMoreKeys(t: Text, key: Text, j: Json, more: Text, keys: seq<Text>)
    requires ReadField(t) == Some(Parsed((key, j), [COMMA] + more)) && ReadKeys(more) == Some(keys)
    ensures ReadKeys(t) == Some([key] + keys)
  {
    hide ReadField;
    assert ([COMMA] + more)[1..] == more;
  }

  lemma {:induction false} KeysTrip(members: seq<Member>, keys: seq<Text>, rest: Text)
    requires keys != [] && forall i :: 0 <= i < |members| ==> Proper(members[i].value)
    ensures ReadKeys(PrintFields(members, keys) + ([CLOSE_RECORD] + rest)) == Some(keys)
    decreases |keys|
  {
    hide ReadField, ReadKeys, PrintField, MeaningOf;
    var key := keys[0];
    if |keys| == 1 {
      FieldTrip(members, key, [CLOSE_RECORD] + rest);
      ReadLastKey(PrintField(members, key) + ([CLOSE_RECORD] + rest), key, MeaningOf(members, key), rest);
      assert keys == [key];
    } else {
      var more := PrintFields(members, keys[1..]) + ([CLOSE_RECORD] + rest);
      FieldTrip(members, key, [COMMA] + more);
      KeysTrip(members, keys[1..], rest);
      ReadMoreKeys(PrintField(members, key) + ([COMMA] + more), key, MeaningOf(members, key), more, keys[1..]);
      assert PrintFields(members, keys) + ([CLOSE_RECORD] + rest) == PrintField(members, key) + ([COMMA] + more);
      assert keys == [key] + keys[1..];
    }
  }

  // Read off the printed record, the keys are its defined ones in ascending code-unit order.
  lemma {:induction false} PrintedKeysAscend(members: seq<Member>, rest: Text) returns (keys: seq<Text>)
    requires Proper(Record(members)) && DefinedKeys(members) != []
    ensures Print(Record(members)) + rest != []
    ensures ReadKeys((Print(Record(members)) + rest)[1..]) == Some(keys)
    ensures Sorted(keys) && forall k :: k in keys <==> k in DefinedKeys(members)
  {
    keys := Sort(DefinedKeys(members));
    SortSorts(DefinedKeys(members));
    DefinedDistinct(members);
    HasMember(DefinedKeys(members));
    hide Sort, DefinedKeys, ReadKeys, PrintFields;
    Enclosed(OPEN_RECORD, PrintFields(members, keys), CLOSE_RECORD, rest);
    KeysTrip(members, keys, rest);
    assert (Print(Record(members)) + rest)[1..] == PrintFields(members, keys) + ([CLOSE_RECORD] + rest);
  }

  lemma {:induction false} FieldsStep(members: seq<Member>, keys: seq<Text>)
    requires keys != []
    ensures Fields(members, keys) == Fields(members, keys[1..])[keys[0] := MeaningOf(members, keys[0])]
  {
    assert keys == [keys[0]] + keys[1..];
  }

  lemma {:induction false} DefinedDistinct(members: seq<Member>)
    requires DistinctKeys(members)
    ensures Distinct(DefinedKeys(members))
  {
    if members != [] {
      var rest := DefinedKeys(members[1..]);
      DefinedDistinct(members[1..]);
      forall j | 0 <= j < |rest|
        ensures rest[j] != members[0].key
      {
        assert rest[j] in rest;
        assert HasKey(members[1..], rest[j]);
      }
    }
  }

  lemma {:induction false} SortedDistinct(keys: seq<Text>)
    requires Sorted(keys)
    ensures Distinct(keys)
  {
    forall i, j | 0 <= i < j < |keys|
      ensures keys[i] != keys[j]
    {
      LessTotal(keys[i], keys[j]);
    }
  }
}
