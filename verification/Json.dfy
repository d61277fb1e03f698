/** JSON documents, and the environment the provenance code reads them through. */
module JsonDocuments {
  import opened Merkle
  import opened Text
  import opened Wrappers

  /** The object keys the code looks up; any other key is `Other(name)`. */
  datatype Field =
    | Event | Actor | Payload | OutboxEventId | DeliverySemantics
    | Schema | Issuer | Purpose | Algorithm | KeyId | PublicKeyText | Fingerprint
    | Manifest | PublicKey | CheckpointSha256 | SignatureInputSchema | Signature
    | CheckpointId | Sequence | CreatedAt | PreviousCheckpoint | EventCount | Events | MerkleRootSha256
    | KeyFingerprint | ClaimsBoundary | OrdinalField | EventId | SemanticSha256
    | Status | DeliveredAt | EntrySemantics
    | Other(name: string)

  datatype Json =
    | JNull
    | JBool(flag: bool)
    | JInt(value: int)
    | JFloat(text: string)
    | JStr(s: string)
    | JArr(items: seq<Json>)
    | JObj(fields: map<Field, Json>)

  /** Dictionary lookup where a missing key reads as null. */
  function Get(fields: map<Field, Json>, field: Field): Json {
    if field in fields then fields[field] else JNull
  }

  function FieldsOf(v: Json): map<Field, Json> {
    if v.JObj? then v.fields else map[]
  }

  predicate IsText(v: Json) {
    v.JStr? && v.s != ""
  }

  /** Comparison of a document with a count: the source's language takes true and 1.0 to equal 1. */
  predicate EqualsCount(v: Json, n: nat) {
    match v
    case JInt(k) => k == n
    case JBool(flag) => n == if flag then 1 else 0
    case JFloat(text) => text == Decimal(n) + ".0"
    case _ => false
  }

  /** The whole number a document stands for in comparisons, where it is not a float: true counts as 1. */
  function CountOf(v: Json): Option<int> {
    match v
    case JInt(k) => Some(k)
    case JBool(flag) => Some(if flag then 1 else 0)
    case _ => None
  }

  /** A float prints as the whole number k. */
  predicate PrintsAs(text: string, k: int) {
    text == (if k < 0 then "-" + Decimal(-k) else Decimal(k)) + ".0"
  }

  /** Equality of documents in the source's language: numbers are compared by value across whole numbers, truth values
      and floats, arrays and objects entry by entry. */
  predicate SameValue(a: Json, b: Json) {
    match (a, b)
    case (JArr(x), JArr(y)) => |x| == |y| && forall i :: 0 <= i < |x| ==> SameValue(x[i], y[i])
    case (JObj(x), JObj(y)) => x.Keys == y.Keys && forall f :: f in x ==> SameValue(x[f], y[f])
    case (JFloat(s), _) => a == b || (CountOf(b).Some? && PrintsAs(s, CountOf(b).value))
    case (_, JFloat(t)) => CountOf(a).Some? && PrintsAs(t, CountOf(a).value)
    case _ => a == b || (CountOf(a).Some? && CountOf(a) == CountOf(b))
  }

  lemma {:induction false} SameValueReflexive(a: Json)
    ensures SameValue(a, a)
  {
    match a {
      case JArr(x) =>
        forall i | 0 <= i < |x| ensures SameValue(x[i], x[i]) {
          SameValueReflexive(x[i]);
        }
      case JObj(x) =>
        forall f | f in x ensures SameValue(x[f], x[f]) {
          SameValueReflexive(x[f]);
        }
      case _ =>
    }
  }

  /** A whole float equals the number it prints, of either sign. */
  lemma WholeFloats(k: nat)
    ensures SameValue(JFloat(Decimal(k) + ".0"), JInt(k))
    ensures k > 0 ==> SameValue(JInt(-(k as int)), JFloat("-" + (Decimal(k) + ".0")))
  {
    assert ("-" + Decimal(k)) + ".0" == "-" + (Decimal(k) + ".0");
  }

  /** No truth value and no float occurs in the document. */
  predicate Plain(a: Json) {
    match a
    case JBool(_) => false
    case JFloat(_) => false
    case JArr(x) => forall i :: 0 <= i < |x| ==> Plain(x[i])
    case JObj(x) => forall f :: f in x ==> Plain(x[f])
    case _ => true
  }

  /** Documents of texts, whole numbers, arrays and objects are equal in the source's language only if they are. */
  lemma {:induction false} PlainSameValue(a: Json, b: Json)
    requires Plain(a) && Plain(b)
    ensures SameValue(a, b) <==> a == b
  {
    match (a, b) {
      case (JArr(x), JArr(y)) =>
        if |x| == |y| {
          forall i | 0 <= i < |x| ensures SameValue(x[i], y[i]) <==> x[i] == y[i] {
            PlainSameValue(x[i], y[i]);
          }
        }
      case (JObj(x), JObj(y)) =>
        if x.Keys == y.Keys {
          forall f | f in x ensures SameValue(x[f], y[f]) <==> x[f] == y[f] {
            PlainSameValue(x[f], y[f]);
          }
        }
      case _ =>
    }
  }

  lemma {:induction false} SameValueSymmetric(a: Json, b: Json)
    ensures SameValue(a, b) == SameValue(b, a)
  {
    match (a, b) {
      case (JArr(x), JArr(y)) =>
        if |x| == |y| {
          forall i | 0 <= i < |x| ensures SameValue(x[i], y[i]) == SameValue(y[i], x[i]) {
            SameValueSymmetric(x[i], y[i]);
          }
        }
      case (JObj(x), JObj(y)) =>
        if x.Keys == y.Keys {
          forall f | f in x ensures SameValue(x[f], y[f]) == SameValue(y[f], x[f]) {
            SameValueSymmetric(x[f], y[f]);
          }
        }
      case _ =>
    }
  }

  /** A comparison with a count is equality of documents with that count. */
  lemma CountIsSameValue(v: Json, n: nat)
    ensures EqualsCount(v, n) <==> SameValue(v, JInt(n))
  {
  }

  /** JSON writer and reader, hash, timestamp parser and signature check, all supplied from outside. */
  datatype Env = Env(dump: Json -> string, load: string -> Option<Json>, sha: string -> string,
                     validTime: string -> bool, check: (string, string, string) -> bool) {

    /** Reading back what was written gives the same document, and hashes look like SHA-256 digests. */
    ghost predicate Faithful() {
      (forall j :: load(dump(j)) == Some(j)) && ProducesDigests(sha)
    }
  }

  lemma DumpInjective(env: Env, x: Json, y: Json)
    requires env.Faithful() && env.dump(x) == env.dump(y)
    ensures x == y
  {
    assert env.load(env.dump(x)) == Some(x) && env.load(env.dump(y)) == Some(y);
  }
}
