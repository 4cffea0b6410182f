// The signed packet of scripts/verify-packet.ts: the envelope, the verifier, and the search
// for a key, over abstract digest functions.

module Packet {
  import opened Wrappers
  import opened CanonicalJson
  import opened JsonReader

  // ---- The canonical form is canonical ----

  lemma {:induction false} MeaningPrints(v: Value, w: Value)
    requires Proper(v) && Proper(w) && Meaning(v) == Meaning(w)
    ensures Print(v) == Print(w)
    decreases v, 0
  {
    MeaningParts(v);
    MeaningParts(w);
    match v {
      case List(items) =>
        assert Meanings(items) == Meanings(w.items);
        ItemsPrint(items, w.items);
      case Record(members) =>
        RecordsPrint(members, w.members);
      case _ =>
    }
  }

  lemma {:induction false} ItemsPrint(items: seq<Value>, other: seq<Value>)
    requires forall i :: 0 <= i < |items| ==> Proper(items[i])
    requires forall i :: 0 <= i < |other| ==> Proper(other[i])
    requires Meanings(items) == Meanings(other)
    ensures PrintItems(items) == PrintItems(other)
    decreases items, 1
  {
    hide Print, Meaning;
    assert |items| == |Meanings(items)| == |other|;
    if items != [] {
      assert Meanings(items)[0] == Meaning(items[0]) && Meanings(other)[0] == Meaning(other[0]);
      MeaningPrints(items[0], other[0]);
      forall i | 0 <= i < |items| - 1
        ensures Meanings(items[1..])[i] == Meanings(other[1..])[i]
      {
        assert Meanings(items)[i + 1] == Meaning(items[i + 1]) && Meanings(other)[i + 1] == Meaning(other[i + 1]);
      }
      assert Meanings(items[1..]) == Meanings(other[1..]);
      ItemsPrint(items[1..], other[1..]);
    }
  }

  lemma {:induction false} RecordsPrint(members: seq<Member>, other: seq<Member>)
    requires Proper(Record(members)) && Proper(Record(other))
    requires Fields(members, DefinedKeys(members)) == Fields(other, DefinedKeys(other))
    ensures Print(Record(members)) == Print(Record(other))
    decreases members, 3
  {
    hide Meaning, DefinedKeys, Sort, PrintFields;
    var a, b := DefinedKeys(members), DefinedKeys(other);
    SameKeys(members, other);
    DefinedDistinct(members);
    DefinedDistinct(other);
    SortSorts(a);
    SortSorts(b);
    SortedIsUnique(Sort(a), Sort(b));
    forall k | k in Sort(a)
      ensures MeaningOf(members, k) == MeaningOf(other, k) && k in a && k in b
    {
      assert Fields(members, a)[k] == Fields(other, b)[k];
    }
    FieldsPrint(members, other, Sort(a));
  }

  lemma {:induction false} SameKeys(members: seq<Member>, other: seq<Member>)
    requires Fields(members, DefinedKeys(members)) == Fields(other, DefinedKeys(other))
    ensures forall k :: k in DefinedKeys(members) <==> k in DefinedKeys(other)
  {
    hide DefinedKeys, MeaningOf;
    forall k
      ensures k in DefinedKeys(members) <==> k in Fields(members, DefinedKeys(members))
      ensures k in DefinedKeys(other) <==> k in Fields(other, DefinedKeys(other))
    {
    }
  }

  lemma {:induction false} FieldsPrint(members: seq<Member>, other: seq<Member>, keys: seq<Text>)
    requires Proper(Record(members)) && Proper(Record(other))
    requires forall k :: k in keys ==> MeaningOf(members, k) == MeaningOf(other, k)
    ensures PrintFields(members, keys) == PrintFields(other, keys)
    decreases members, 2, |keys|
  {
    hide Meaning, MeaningOf;
    if keys != [] {
      FieldPrints(members, other, keys[0]);
      FieldsPrint(members, other, keys[1..]);
    }
  }

  lemma {:induction false} FieldPrints(members: seq<Member>, other: seq<Member>, key: Text)
    requires Proper(Record(members)) && Proper(Record(other))
    requires MeaningOf(members, key) == MeaningOf(other, key)
    ensures PrintField(members, key) == PrintField(other, key)
    decreases members, 1
  {
    var v, w := Get(members, key), Get(other, key);
    if v != Undefined {
      MeaningPrints(v, w);
    } else if w != Undefined {
      assert Meaning(w) == JNull;
    }
  }

  // Two values have the same canonical text exactly when they mean the same.
  lemma {:induction false} CanonicalForm(v: Value, w: Value)
    requires Proper(v) && Proper(w)
    ensures Print(v) == Print(w) <==> Meaning(v) == Meaning(w)
  {
    hide Print, Meaning, ReadValue;
    RoundTrip(v, []);
    RoundTrip(w, []);
    NoTail(Print(v));
    NoTail(Print(w));
    if Meaning(v) == Meaning(w) {
      MeaningPrints(v, w);
    }
  }

  lemma {:induction false} NoTail(t: Text)
    ensures t + [] == t
  {
  }

  // ---- The envelope ----

  const GENERATED_AT: Text := Units("generatedAt")
  const CONTENT_HASH: Text := Units("contentHash")
  const RECORD_HASH: Text := Units("recordHash")
  const SIGNATURE: Text := Units("signature")
  const ALGORITHM: Text := Units("algorithm")
  const AUDIT: Text := Units("audit")
  const PACKET: Text := Units("packet")
  const HMAC_SHA256: Text := Units("HMAC-SHA256")
  const POSTURE_KIND: Text := Units("sentinel-compliance-posture")
  const ENVELOPE: set<Text> := {GENERATED_AT, CONTENT_HASH, RECORD_HASH, SIGNATURE, ALGORITHM}

  // SHA-256, HMAC-SHA256, and whether a foreign algorithm's name happens to read like the
  // verifier's own words about a signature.
  datatype Crypto = Crypto(sha: Text -> Text, mac: (Text, Text) -> Text, readsLikeMismatch: Value -> bool)

  datatype Reason =
    | NotAnObject
    | NotShaped
    | ContentMismatch
    | RecordMismatch(posture: bool)
    | UnknownAlgorithm(algorithm: Value)
    | SignatureMismatch

  datatype Verdict = Verified | Failed(reason: Reason)

  // The record without some of its members.
  function Drop(members: seq<Member>, keys: set<Text>): seq<Member> {
    if members == [] then []
    else (if members[0].key in keys then [] else [members[0]]) + Drop(members[1..], keys)
  }

  function VerifyDocument(c: Crypto, value: Value, key: Text): Verdict {
    if !value.Record? then Failed(NotAnObject)
    else
      var packet := value.members;
      var contentHash, recordHash := Get(packet, CONTENT_HASH), Get(packet, RECORD_HASH);
      var signature := Get(packet, SIGNATURE);
      if !contentHash.Str? || !recordHash.Str? || !signature.Str? then Failed(NotShaped)
      else
        var content := Drop(packet, ENVELOPE);
        if c.sha(Print(Record(content))) != contentHash.s then Failed(ContentMismatch)
        else if c.sha(Print(Record(Drop(content, {AUDIT})))) != recordHash.s then
          Failed(RecordMismatch(Get(packet, PACKET) == Str(POSTURE_KIND)))
        else if Get(packet, ALGORITHM) != Str(HMAC_SHA256) then Failed(UnknownAlgorithm(Get(packet, ALGORITHM)))
        else if c.mac(contentHash.s, key) != signature.s then Failed(SignatureMismatch)
        else Verified
  }

  // What can be said about a document without a key.
  predicate Intact(c: Crypto, value: Value) {
    && value.Record?
    && var packet := value.members;
       var content := Drop(packet, ENVELOPE);
       && Get(packet, SIGNATURE).Str?
       && Get(packet, CONTENT_HASH) == Str(c.sha(Print(Record(content))))
       && Get(packet, RECORD_HASH) == Str(c.sha(Print(Record(Drop(content, {AUDIT})))))
       && Get(packet, ALGORITHM) == Str(HMAC_SHA256)
  }

  // Only an intact document gets as far as the key; every other verdict is the same for all keys.
  lemma {:induction false} KeyMattersOnlyWhenIntact(c: Crypto, value: Value, key: Text, other: Text)
    ensures var v := VerifyDocument(c, value, key);
            && (Intact(c, value) <==> v == Verified || v == Failed(SignatureMismatch))
            && (!Intact(c, value) ==> VerifyDocument(c, value, other) == v)
  {
    hide Print, Drop, Get;
  }

  // The signature member is the key's signature over the content hash.
  predicate SignedUnder(c: Crypto, value: Value, key: Text) {
    && value.Record? && Get(value.members, CONTENT_HASH).Str?
    && Get(value.members, SIGNATURE) == Str(c.mac(Get(value.members, CONTENT_HASH).s, key))
  }

  // A document verifies exactly when it is intact and signed under the key; an intact one
  // that is not is told so.
  lemma {:induction false} VerifiedIff(c: Crypto, value: Value, key: Text)
    ensures VerifyDocument(c, value, key) == Verified <==> Intact(c, value) && SignedUnder(c, value, key)
    ensures VerifyDocument(c, value, key) == Failed(SignatureMismatch) <==>
            Intact(c, value) && !SignedUnder(c, value, key)
  {
    hide Print, Drop, Get;
  }

  predicate Shaped(value: Value) {
    && value.Record? && Get(value.members, CONTENT_HASH).Str?
    && Get(value.members, RECORD_HASH).Str? && Get(value.members, SIGNATURE).Str?
  }

  predicate ContentFits(c: Crypto, packet: seq<Member>) {
    Get(packet, CONTENT_HASH) == Str(c.sha(Print(Record(Drop(packet, ENVELOPE)))))
  }

  // The record is the content without the audit anchor.
  predicate RecordFits(c: Crypto, packet: seq<Member>) {
    Get(packet, RECORD_HASH) == Str(c.sha(Print(Record(Drop(packet, ENVELOPE + {AUDIT})))))
  }

  lemma {:induction false} DropTwice(members: seq<Member>, a: set<Text>, b: set<Text>)
    ensures Drop(Drop(members, a), b) == Drop(members, a + b)
  {
    if members != [] {
      DropTwice(members[1..], a, b);
      var rest := Drop(members[1..], a);
      assert ([members[0]] + rest)[1..] == rest && ([members[0]] + rest)[0] == members[0];
      assert [] + rest == rest && [] + Drop(rest, b) == Drop(rest, b);
    }
  }

  // Every other failure names the first thing that is wrong, in the order object, shape,
  // content, record, algorithm.
  lemma {:induction false} ReasonIff(c: Crypto, value: Value, key: Text)
    ensures var v := VerifyDocument(c, value, key);
            && (v == Failed(NotAnObject) <==> !value.Record?)
            && (v == Failed(NotShaped) <==> value.Record? && !Shaped(value))
            && (v == Failed(ContentMismatch) <==> Shaped(value) && !ContentFits(c, value.members))
            && (v.Failed? && v.reason.RecordMismatch? <==>
                Shaped(value) && ContentFits(c, value.members) && !RecordFits(c, value.members))
            && (v.Failed? && v.reason.UnknownAlgorithm? <==>
                Shaped(value) && ContentFits(c, value.members) && RecordFits(c, value.members) &&
                Get(value.members, ALGORITHM) != Str(HMAC_SHA256))
  {
    hide Print, Drop, Get, ENVELOPE;
    if value.Record? {
      DropTwice(value.members, ENVELOPE, {AUDIT});
    }
  }

  // ---- What dropping members does to the meaning ----

  function FieldsOf(members: seq<Member>): map<Text, Json> {
    Fields(members, DefinedKeys(members))
  }

  lemma {:induction false} GetDefined(members: seq<Member>, key: Text)
    requires DistinctKeys(members)
    ensures key in DefinedKeys(members) <==> Get(members, key) != Undefined
  {
    if members != [] {
      GetDefined(members[1..], key);
      assert members[0].key == key ==> !HasKey(members[1..], key);
    }
  }

  lemma {:induction false} DropKeeps(members: seq<Member>, keys: set<Text>, key: Text)
    ensures Get(Drop(members, keys), key) == if key in keys then Undefined else Get(members, key)
  {
    if members != [] {
      DropKeeps(members[1..], keys, key);
      var rest := Drop(members[1..], keys);
      assert ([members[0]] + rest)[1..] == rest;
      assert [] + rest == rest;
    }
  }

  lemma {:induction false} DropProper(members: seq<Member>, keys: set<Text>)
    requires Proper(Record(members))
    ensures Proper(Record(Drop(members, keys)))
    ensures forall m :: m in Drop(members, keys) ==> m in members
  {
    if members != [] {
      assert Proper(Record(members[1..]));
      DropProper(members[1..], keys);
      var rest := Drop(members[1..], keys);
      forall j | 0 <= j < |rest|
        ensures rest[j].key != members[0].key
      {
        assert rest[j] in members[1..];
      }
    }
  }

  lemma {:induction false} DropField(members: seq<Member>, keys: set<Text>, k: Text)
    requires Proper(Record(members))
    ensures k in DefinedKeys(Drop(members, keys)) <==> k in DefinedKeys(members) && k !in keys
    ensures k !in keys ==> MeaningOf(Drop(members, keys), k) == MeaningOf(members, k)
  {
    hide Meaning, Drop, DefinedKeys;
    DropProper(members, keys);
    DropKeeps(members, keys, k);
    GetDefined(Drop(members, keys), k);
    GetDefined(members, k);
  }

  lemma {:induction false} DropFields(members: seq<Member>, keys: set<Text>)
    requires Proper(Record(members))
    ensures FieldsOf(Drop(members, keys)) == FieldsOf(members) - keys
  {
    hide MeaningOf, Drop, DefinedKeys;
    var left, right := FieldsOf(Drop(members, keys)), FieldsOf(members) - keys;
    forall k
      ensures k in left <==> k in right
    {
      DropField(members, keys, k);
    }
    forall k | k in left
      ensures left[k] == right[k]
    {
      DropField(members, keys, k);
    }
    assert left.Keys == right.Keys;
    assert left == right;
  }

  // A text member is determined by the meaning of the record.
  lemma {:induction false} TextByMeaning(p: seq<Member>, q: seq<Member>, key: Text, s: Text)
    requires Proper(Record(p)) && Proper(Record(q))
    requires key in FieldsOf(p) <==> key in FieldsOf(q)
    requires key in FieldsOf(p) ==> FieldsOf(p)[key] == FieldsOf(q)[key]
    ensures Get(p, key) == Str(s) <==> Get(q, key) == Str(s)
    ensures Get(p, key).Str? <==> Get(q, key).Str?
    ensures Get(p, key).Str? ==> Get(p, key) == Get(q, key)
  {
    GetDefined(p, key);
    GetDefined(q, key);
    if key in FieldsOf(p) {
      TextMeaning(Get(p, key));
      TextMeaning(Get(q, key));
      assert MeaningOf(p, key) == FieldsOf(p)[key] == FieldsOf(q)[key] == MeaningOf(q, key);
    }
  }

  lemma {:induction false} TextMeaning(v: Value)
    ensures v.Str? <==> Meaning(v).JString?
    ensures v.Str? ==> Meaning(v) == JString(v.s)
  {
  }

  // ---- Signing and verifying ----

  // The packet the builders make: the record and its audit anchor, with the envelope around them.
  function EnvelopeOf(c: Crypto, record: seq<Member>, audit: Value, generatedAt: Value, key: Text): seq<Member> {
    var contentHash := c.sha(Print(Record(record + [Member(AUDIT, audit)])));
    [Member(GENERATED_AT, generatedAt),
     Member(RECORD_HASH, Str(c.sha(Print(Record(record))))),
     Member(CONTENT_HASH, Str(contentHash)),
     Member(SIGNATURE, Str(c.mac(contentHash, key))),
     Member(ALGORITHM, Str(HMAC_SHA256))]
  }

  function Seal(c: Crypto, record: seq<Member>, audit: Value, generatedAt: Value, key: Text): Value {
    Record(record + [Member(AUDIT, audit)] + EnvelopeOf(c, record, audit, generatedAt, key))
  }

  lemma {:induction false} NamesDiffer()
    ensures CONTENT_HASH != GENERATED_AT && CONTENT_HASH != RECORD_HASH && CONTENT_HASH != SIGNATURE
    ensures CONTENT_HASH != ALGORITHM && RECORD_HASH != GENERATED_AT && RECORD_HASH != SIGNATURE
    ensures RECORD_HASH != ALGORITHM && SIGNATURE != GENERATED_AT && SIGNATURE != ALGORITHM
    ensures ALGORITHM != GENERATED_AT && AUDIT !in ENVELOPE && PACKET !in ENVELOPE
  {
    assert CONTENT_HASH[0] == 'c' as int && GENERATED_AT[0] == 'g' as int;
    assert SIGNATURE[0] == 's' as int && ALGORITHM[0] == 'a' as int;
    assert |AUDIT| == 5 && |PACKET| == 6 && |CONTENT_HASH| == 11 && |RECORD_HASH| == 10 && |SIGNATURE| == 9;
  }

  lemma {:induction false} DropConcat(a: seq<Member>, b: seq<Member>, keys: set<Text>)
    ensures Drop(a + b, keys) == Drop(a, keys) + Drop(b, keys)
  {
    if a == [] {
      assert a + b == b;
    } else {
      assert (a + b)[1..] == a[1..] + b;
      DropConcat(a[1..], b, keys);
    }
  }

  lemma {:induction false} DropNone(members: seq<Member>, keys: set<Text>)
    requires forall m :: m in members ==> m.key !in keys
    ensures Drop(members, keys) == members
  {
    if members != [] {
      DropNone(members[1..], keys);
    }
  }

  lemma {:induction false} DropAll(members: seq<Member>, keys: set<Text>)
    requires forall m :: m in members ==> m.key in keys
    ensures Drop(members, keys) == []
  {
    if members != [] {
      DropAll(members[1..], keys);
    }
  }

  lemma {:induction false} GetBehind(a: seq<Member>, b: seq<Member>, key: Text)
    requires forall m :: m in a ==> m.key != key
    ensures Get(a + b, key) == Get(b, key)
  {
    if a == [] {
      assert a + b == b;
    } else {
      assert (a + b)[1..] == a[1..] + b;
      GetBehind(a[1..], b, key);
    }
  }

  lemma {:induction false} GetAt(members: seq<Member>, i: nat)
    requires i < |members| && forall j :: 0 <= j < i ==> members[j].key != members[i].key
    ensures Get(members, members[i].key) == members[i].value
  {
    if i > 0 {
      GetAt(members[1..], i - 1);
    }
  }

  // A packet verifies under the key it was signed with, whatever the digests are.
  lemma {:induction false} SealVerifies(c: Crypto, record: seq<Member>, audit: Value, generatedAt: Value, key: Text)
    requires forall m :: m in record ==> m.key !in ENVELOPE && m.key != AUDIT
    ensures VerifyDocument(c, Seal(c, record, audit, generatedAt, key), key) == Verified
  {
    hide Print, Drop, Get, ENVELOPE, VerifyDocument, Units;
    var content := record + [Member(AUDIT, audit)];
    var envelope := EnvelopeOf(c, record, audit, generatedAt, key);
    NamesDiffer();
    InEnvelope(envelope);
    ContentStays(record, audit);
    EnvelopeReads(content, envelope);
    DropBehind(content, envelope, ENVELOPE);
    DropBehind(record, [Member(AUDIT, audit)], {AUDIT});
    FitsTogether(c, content + envelope, content, record, key, c.sha(Print(Record(content))));
  }

  // Under another key it verifies exactly when that key signs the content hash alike.
  lemma {:induction false} SealUnderOtherKey(c: Crypto, record: seq<Member>, audit: Value, generatedAt: Value,
                                             key: Text, other: Text)
    requires forall m :: m in record ==> m.key !in ENVELOPE && m.key != AUDIT
    ensures var h := c.sha(Print(Record(record + [Member(AUDIT, audit)])));
            VerifyDocument(c, Seal(c, record, audit, generatedAt, key), other) ==
            if c.mac(h, other) == c.mac(h, key) then Verified else Failed(SignatureMismatch)
  {
    hide Print, Drop, Get, ENVELOPE, VerifyDocument, Intact, Units;
    var content := record + [Member(AUDIT, audit)];
    var envelope := EnvelopeOf(c, record, audit, generatedAt, key);
    NamesDiffer();
    ContentStays(record, audit);
    EnvelopeReads(content, envelope);
    SealVerifies(c, record, audit, generatedAt, key);
    VerifiedIff(c, Seal(c, record, audit, generatedAt, key), key);
    VerifiedIff(c, Seal(c, record, audit, generatedAt, key), other);
  }

  lemma {:induction false} ContentStays(record: seq<Member>, audit: Value)
    requires forall m :: m in record ==> m.key !in ENVELOPE && m.key != AUDIT
    ensures forall m :: m in record + [Member(AUDIT, audit)] ==> m.key !in ENVELOPE
  {
    hide ENVELOPE;
    NamesDiffer();
    forall m | m in record + [Member(AUDIT, audit)]
      ensures m.key !in ENVELOPE
    {
      assert m in record || m == Member(AUDIT, audit);
    }
  }

  lemma {:induction false} EnvelopeReads(content: seq<Member>, envelope: seq<Member>)
    requires |envelope| == 5 && forall m :: m in content ==> m.key !in ENVELOPE
    requires envelope[0].key == GENERATED_AT && envelope[1].key == RECORD_HASH && envelope[2].key == CONTENT_HASH
    requires envelope[3].key == SIGNATURE && envelope[4].key == ALGORITHM
    ensures Get(content + envelope, RECORD_HASH) == envelope[1].value
    ensures Get(content + envelope, CONTENT_HASH) == envelope[2].value
    ensures Get(content + envelope, SIGNATURE) == envelope[3].value
    ensures Get(content + envelope, ALGORITHM) == envelope[4].value
  {
    InEnvelope(envelope);
    hide *;
    forall i | 1 <= i < 5
      ensures Get(content + envelope, envelope[i].key) == envelope[i].value
    {
      forall j | 0 <= j < i ensures envelope[j].key != envelope[i].key {
        EnvelopeDistinct(envelope, j, i);
      }
      EnvelopeRead(content, envelope, i);
    }
  }

  // A packet whose parts agree verifies.
  lemma {:induction false} FitsTogether(c: Crypto, packet: seq<Member>, content: seq<Member>, record: seq<Member>,
                                        key: Text, contentHash: Text)
    requires Drop(packet, ENVELOPE) == content && Drop(content, {AUDIT}) == record
    requires contentHash == c.sha(Print(Record(content))) && Get(packet, CONTENT_HASH) == Str(contentHash)
    requires Get(packet, RECORD_HASH) == Str(c.sha(Print(Record(record))))
    requires Get(packet, SIGNATURE) == Str(c.mac(contentHash, key)) && Get(packet, ALGORITHM) == Str(HMAC_SHA256)
    ensures VerifyDocument(c, Record(packet), key) == Verified
  {
    hide Print, Drop, Get, ENVELOPE;
  }

  lemma {:induction false} InEnvelope(envelope: seq<Member>)
    requires |envelope| == 5
    requires envelope[0].key == GENERATED_AT && envelope[1].key == RECORD_HASH && envelope[2].key == CONTENT_HASH
    requires envelope[3].key == SIGNATURE && envelope[4].key == ALGORITHM
    ensures forall m :: m in envelope ==> m.key in ENVELOPE
    ensures forall i :: 0 <= i < |envelope| ==> envelope[i].key in ENVELOPE
  {
  }

  lemma {:induction false} DropBehind(kept: seq<Member>, gone: seq<Member>, keys: set<Text>)
    requires (forall m :: m in kept ==> m.key !in keys) && forall m :: m in gone ==> m.key in keys
    ensures Drop(kept + gone, keys) == kept
  {
    DropConcat(kept, gone, keys);
    DropNone(kept, keys);
    DropAll(gone, keys);
    assert kept + [] == kept;
  }

  lemma {:induction false} EnvelopeRead(content: seq<Member>, envelope: seq<Member>, i: nat)
    requires i < |envelope| && (forall j :: 0 <= j < i ==> envelope[j].key != envelope[i].key)
    requires forall m :: m in content ==> m.key != envelope[i].key
    ensures Get(content + envelope, envelope[i].key) == envelope[i].value
  {
    GetBehind(content, envelope, envelope[i].key);
    GetAt(envelope, i);
  }

  // ---- What the verdict depends on ----

  // The same answer; a foreign algorithm may be spelled differently.
  predicate SameVerdict(v: Verdict, w: Verdict) {
    v == w || (v.Failed? && w.Failed? && v.reason.UnknownAlgorithm? && w.reason.UnknownAlgorithm?)
  }

  // Neither key order, nor undefined members, nor the export time changes the verdict.
  lemma {:induction false} VerdictByMeaning(c: Crypto, p: seq<Member>, q: seq<Member>, key: Text)
    requires Proper(Record(p)) && Proper(Record(q))
    requires FieldsOf(p) - {GENERATED_AT} == FieldsOf(q) - {GENERATED_AT}
    ensures SameVerdict(VerifyDocument(c, Record(p), key), VerifyDocument(c, Record(q), key))
  {
    hide Print, Drop, Get, FieldsOf;
    NamesDiffer();
    TextSame(p, q, CONTENT_HASH, "");
    TextSame(p, q, RECORD_HASH, "");
    TextSame(p, q, SIGNATURE, "");
    TextSame(p, q, ALGORITHM, "HMAC-SHA256");
    TextSame(p, q, PACKET, "sentinel-compliance-posture");
    MinusMore(FieldsOf(p), FieldsOf(q), {GENERATED_AT}, ENVELOPE);
    SamePrint(p, q, ENVELOPE);
    DropProper(p, ENVELOPE);
    DropProper(q, ENVELOPE);
    DropFields(p, ENVELOPE);
    DropFields(q, ENVELOPE);
    SamePrint(Drop(p, ENVELOPE), Drop(q, ENVELOPE), {AUDIT});
  }

  lemma {:induction false} SealProper(c: Crypto, record: seq<Member>, audit: Value, generatedAt: Value, key: Text)
    requires Proper(Record(record)) && Proper(audit) && Proper(generatedAt)
    requires forall m :: m in record ==> m.key !in ENVELOPE && m.key != AUDIT
    ensures Proper(Seal(c, record, audit, generatedAt, key))
  {
    hide Print, ENVELOPE, Units;
    var content, envelope := record + [Member(AUDIT, audit)], EnvelopeOf(c, record, audit, generatedAt, key);
    var all := content + envelope;
    NamesDiffer();
    InEnvelope(envelope);
    forall i, j | 0 <= i < j < |all| ensures all[i].key != all[j].key {
      if j < |content| {
        assert record[i] in record && all[i] == record[i];
      } else if i < |content| {
        assert i < |record| ==> all[i] == record[i] && record[i] in record;
        assert all[j] == envelope[j - |content|];
      } else {
        EnvelopeDistinct(envelope, i - |content|, j - |content|);
      }
    }
    forall i | 0 <= i < |all| ensures Proper(all[i].value) {
      assert i < |record| ==> all[i] == record[i];
    }
  }

  lemma {:induction false} EnvelopeDistinct(envelope: seq<Member>, i: nat, j: nat)
    requires |envelope| == 5 && i < j < 5
    requires envelope[0].key == GENERATED_AT && envelope[1].key == RECORD_HASH && envelope[2].key == CONTENT_HASH
    requires envelope[3].key == SIGNATURE && envelope[4].key == ALGORITHM
    ensures envelope[i].key != envelope[j].key
  {
    NamesDiffer();
    hide *;
  }

  // A packet that is sealed, printed, and read back by anyone verifies, whatever value the
  // reader builds from the text as long as it means what the text says.
  lemma {:induction false} SealedTravels(c: Crypto, record: seq<Member>, audit: Value, generatedAt: Value, key: Text,
                                         q: Value)
    requires Proper(Record(record)) && Proper(audit) && Proper(generatedAt) && Proper(q)
    requires forall m :: m in record ==> m.key !in ENVELOPE && m.key != AUDIT
    requires ReadValue(Print(Seal(c, record, audit, generatedAt, key))) == Some(Parsed(Meaning(q), []))
    ensures VerifyDocument(c, q, key) == Verified
  {
    hide Print, ReadValue, ENVELOPE, VerifyDocument, Units;
    var sealed := Seal(c, record, audit, generatedAt, key);
    SealProper(c, record, audit, generatedAt, key);
    RoundTrip(sealed, []);
    NoTail(Print(sealed));
    assert Meaning(q) == Meaning(sealed);
    MeaningParts(sealed);
    MeaningParts(q);
    OnlyRecordsMeanRecords(q);
    hide Meaning, Seal, Proper;
    FieldsOfMeans(sealed.members);
    FieldsOfMeans(q.members);
    hide FieldsOf;
    SealVerifies(c, record, audit, generatedAt, key);
    VerdictByMeaning(c, sealed.members, q.members, key);
  }

  lemma {:induction false} OnlyRecordsMeanRecords(v: Value)
    ensures Meaning(v).JRecord? <==> v.Record?
  {
  }

  lemma {:induction false} MinusMore(m: map<Text, Json>, n: map<Text, Json>, s: set<Text>, t: set<Text>)
    requires m - s == n - s && s <= t
    ensures m - t == n - t
  {
    assert m - t == (m - s) - t && n - t == (n - s) - t;
  }

  lemma {:induction false} SamePrint(p: seq<Member>, q: seq<Member>, keys: set<Text>)
    requires Proper(Record(p)) && Proper(Record(q))
    requires FieldsOf(p) - keys == FieldsOf(q) - keys
    ensures Print(Record(Drop(p, keys))) == Print(Record(Drop(q, keys)))
  {
    hide Print, Meaning, Drop, Fields;
    DropProper(p, keys);
    DropProper(q, keys);
    DropFields(p, keys);
    DropFields(q, keys);
    MeaningParts(Record(Drop(p, keys)));
    MeaningParts(Record(Drop(q, keys)));
    CanonicalForm(Record(Drop(p, keys)), Record(Drop(q, keys)));
  }

  lemma {:induction false} TextSame(p: seq<Member>, q: seq<Member>, key: Text, s: string)
    requires Proper(Record(p)) && Proper(Record(q)) && key != GENERATED_AT
    requires FieldsOf(p) - {GENERATED_AT} == FieldsOf(q) - {GENERATED_AT}
    ensures Get(p, key) == Str(Units(s)) <==> Get(q, key) == Str(Units(s))
    ensures Get(p, key).Str? <==> Get(q, key).Str?
    ensures Get(p, key).Str? ==> Get(p, key) == Get(q, key)
  {
    hide FieldsOf, Get;
    var m, n := FieldsOf(p) - {GENERATED_AT}, FieldsOf(q) - {GENERATED_AT};
    assert key in m <==> key in n;
    assert key in m ==> m[key] == n[key];
    TextByMeaning(p, q, key, Units(s));
  }

  ghost predicate Injective(hash: Text -> Text) {
    forall a, b :: hash(a) == hash(b) ==> a == b
  }

  // With an injective digest the content hash pins the content: two documents that both
  // verify, under any keys, carry the same content exactly when their hashes are equal.
  lemma {:induction false} HashPinsContent(c: Crypto, p: seq<Member>, q: seq<Member>, key: Text, other: Text)
    requires Proper(Record(p)) && Proper(Record(q)) && Injective(c.sha)
    requires VerifyDocument(c, Record(p), key) == Verified && VerifyDocument(c, Record(q), other) == Verified
    ensures Get(p, CONTENT_HASH) == Get(q, CONTENT_HASH) <==> FieldsOf(p) - ENVELOPE == FieldsOf(q) - ENVELOPE
  {
    hide Print, Drop, Get, FieldsOf, Meaning;
    var a, b := Drop(p, ENVELOPE), Drop(q, ENVELOPE);
    DropProper(p, ENVELOPE);
    DropProper(q, ENVELOPE);
    DropFields(p, ENVELOPE);
    DropFields(q, ENVELOPE);
    assert c.sha(Print(Record(a))) == c.sha(Print(Record(b))) ==> Print(Record(a)) == Print(Record(b));
    CanonicalForm(Record(a), Record(b));
    MeaningParts(Record(a));
    MeaningParts(Record(b));
    FieldsOfMeans(a);
    FieldsOfMeans(b);
  }

  lemma {:induction false} FieldsOfMeans(members: seq<Member>)
    ensures FieldsOf(members) == Fields(members, DefinedKeys(members))
  {
  }

  // An edit of the content that keeps the hash is caught as such, under every key.
  lemma {:induction false} EditIsCaught(c: Crypto, p: seq<Member>, q: seq<Member>, key: Text, other: Text)
    requires Proper(Record(p)) && Proper(Record(q)) && Injective(c.sha)
    requires VerifyDocument(c, Record(p), key) == Verified
    requires FieldsOf(p) - ENVELOPE != FieldsOf(q) - ENVELOPE
    requires Get(q, CONTENT_HASH) == Get(p, CONTENT_HASH) && Get(q, RECORD_HASH).Str? && Get(q, SIGNATURE).Str?
    ensures VerifyDocument(c, Record(q), other) == Failed(ContentMismatch)
  {
    hide Print, Drop, Get, FieldsOf, Meaning;
    var a, b := Drop(p, ENVELOPE), Drop(q, ENVELOPE);
    DropProper(p, ENVELOPE);
    DropProper(q, ENVELOPE);
    DropFields(p, ENVELOPE);
    DropFields(q, ENVELOPE);
    CanonicalForm(Record(a), Record(b));
    MeaningParts(Record(a));
    MeaningParts(Record(b));
    FieldsOfMeans(a);
    FieldsOfMeans(b);
    assert c.sha(Print(Record(a))) == c.sha(Print(Record(b))) ==> Print(Record(a)) == Print(Record(b));
  }

  // ---- Which key ----

  datatype CandidateKey = CandidateKey(key: Text, source: Text)

  datatype Search = NoKey | Tried(verdict: Verdict, key: Option<CandidateKey>)

  // Does the printed reason read like the one about the signature?
  predicate BlamesSignature(c: Crypto, v: Verdict) {
    && v.Failed?
    && (v.reason.SignatureMismatch? || (v.reason.UnknownAlgorithm? && c.readsLikeMismatch(v.reason.algorithm)))
  }

  // The first key the document is signed under wins, if it is intact; otherwise a reason
  // that is not about the key is preferred.
  method VerifyWithKeys(c: Crypto, value: Value, keys: seq<CandidateKey>) returns (r: Search)
    ensures keys == [] ==> r == NoKey
    ensures (exists i :: 0 <= i < |keys| && VerifyDocument(c, value, keys[i].key) == Verified) <==>
            (r.Tried? && r.verdict == Verified)
    ensures r.Tried? && r.verdict == Verified ==>
              exists i :: 0 <= i < |keys| && r.key == Some(keys[i]) &&
                VerifyDocument(c, value, keys[i].key) == Verified &&
                forall j :: 0 <= j < i ==> VerifyDocument(c, value, keys[j].key) != Verified
    ensures r.Tried? && r.verdict == Verified <==>
            Intact(c, value) && exists i :: 0 <= i < |keys| && SignedUnder(c, value, keys[i].key)
    ensures r.Tried? && r.verdict == Verified ==>
              exists i :: 0 <= i < |keys| && r.key == Some(keys[i]) && SignedUnder(c, value, keys[i].key) &&
                forall j :: 0 <= j < i ==> !SignedUnder(c, value, keys[j].key)
    ensures r.Tried? && r.verdict != Verified ==>
              && keys != [] && r.key == None && r.verdict == VerifyDocument(c, value, keys[0].key)
              && (r.verdict == Failed(SignatureMismatch) <==> Intact(c, value))
  {
    hide VerifyDocument, Intact, SignedUnder;
    forall i | 0 <= i < |keys|
      ensures VerifyDocument(c, value, keys[i].key) == Verified <==>
              Intact(c, value) && SignedUnder(c, value, keys[i].key)
    {
      VerifiedIff(c, value, keys[i].key);
    }
    var failures: seq<Verdict> := [];
    for i := 0 to |keys|
      invariant |failures| == i
      invariant forall j :: 0 <= j < i ==>
                  failures[j] == VerifyDocument(c, value, keys[j].key) && failures[j] != Verified
    {
      var verdict := VerifyDocument(c, value, keys[i].key);
      if verdict == Verified {
        return Tried(verdict, Some(keys[i]));
      }
      failures := failures + [verdict];
    }
    if failures == [] {
      return NoKey;
    }
    KeyMattersOnlyWhenIntact(c, value, keys[0].key, keys[0].key);
    for i := 0 to |failures| {
      if !BlamesSignature(c, failures[i]) {
        KeyMattersOnlyWhenIntact(c, value, keys[i].key, keys[0].key);
        return Tried(failures[i], None);
      }
    }
    return Tried(failures[0], None);
  }

  // `from[i]` is where the i-th key to try stands among the first `n`: blank and repeated
  // keys are passed over, the first of each is kept.
  ghost predicate Kept(all: seq<CandidateKey>, blank: Text -> bool, keys: seq<CandidateKey>, from: seq<nat>, n: nat)
    requires n <= |all|
  {
    && |from| == |keys|
    && (forall i :: 0 <= i < |from| ==>
          from[i] < n && keys[i] == all[from[i]] && !blank(keys[i].key) &&
          forall j :: 0 <= j < from[i] ==> all[j].key != keys[i].key)
    && (forall i, j :: 0 <= i < j < |from| ==> from[i] < from[j])
  }

  ghost predicate Tries(keys: seq<CandidateKey>, key: Text) {
    exists i :: 0 <= i < |keys| && keys[i].key == key
  }

  lemma {:induction false} KeptStep(all: seq<CandidateKey>, blank: Text -> bool, keys: seq<CandidateKey>,
                                    from: seq<nat>, n: nat)
    requires n < |all| && Kept(all, blank, keys, from, n)
    requires !blank(all[n].key) && forall j :: 0 <= j < n ==> all[j].key != all[n].key
    ensures Kept(all, blank, keys + [all[n]], from + [n], n + 1)
  {
  }

  lemma {:induction false} TriesStep(keys: seq<CandidateKey>, candidate: CandidateKey, key: Text)
    ensures Tries(keys + [candidate], key) <==> Tries(keys, key) || candidate.key == key
  {
    var more := keys + [candidate];
    if Tries(keys, key) {
      var i :| 0 <= i < |keys| && keys[i].key == key;
      assert more[i].key == key;
    }
    if candidate.key == key {
      assert more[|keys|].key == key;
    }
  }

  method CandidateKeys(all: seq<CandidateKey>, blank: Text -> bool)
      returns (keys: seq<CandidateKey>, ghost from: seq<nat>)
    ensures |from| == |keys|
    ensures forall i :: 0 <= i < |from| ==>
              from[i] < |all| && keys[i] == all[from[i]] && !blank(keys[i].key) &&
              forall j :: 0 <= j < from[i] ==> all[j].key != keys[i].key
    ensures forall i, j :: 0 <= i < j < |from| ==> from[i] < from[j]
    ensures forall j :: 0 <= j < |all| && !blank(all[j].key) ==> Tries(keys, all[j].key)
  {
    hide Tries;
    keys, from := [], [];
    var seen: set<Text> := {};
    for n := 0 to |all|
      invariant Kept(all, blank, keys, from, n)
      invariant forall k :: k in seen ==> Tries(keys, k)
      invariant forall j :: 0 <= j < n && !blank(all[j].key) ==> all[j].key in seen
    {
      var candidate := all[n];
      if !blank(candidate.key) && candidate.key !in seen {
        KeptStep(all, blank, keys, from, n);
        forall k ensures Tries(keys + [candidate], k) <==> Tries(keys, k) || candidate.key == k {
          TriesStep(keys, candidate, k);
        }
        seen := seen + {candidate.key};
        keys := keys + [candidate];
        from := from + [n];
      }
    }
  }
}
