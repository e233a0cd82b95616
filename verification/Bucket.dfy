// internal/core/bucket.go: the bucketing key and the multiply-shift reduction.
//
// xxhash64 is not part of this model: a hash is any function from keys to 64-bit words.
module Bucket {
  import opened Core
  import opened Decimal
  import opened Strings

  // ---- The key ---------------------------------------------------------------------

  /** Value.String: raw bytes, decimal, or true/false. */
  function Render(v: Value): string {
    match v
    case BoolValue(b) => if b then "true" else "false"
    case StringValue(s) => s
    case IntValue(i) => if i < 0 then "-" + Numeral(-i) else Numeral(i)
    case Unset => "<unset>"
  }

  /** `<len(namespace)> ':' <namespace> ':' <subject>` */
  function LengthPrefixed(namespace: string, subject: string): string {
    Numeral(|namespace|) + [':'] + (namespace + [':'] + subject)
  }

  function Namespace(flag: Flag): string {
    if flag.rollout.Some? && flag.rollout.value.bucketNamespace != "" then
      flag.rollout.value.bucketNamespace
    else flag.key
  }

  function SubjectAttribute(flag: Flag): string {
    if flag.rollout.Some? && flag.rollout.value.bucketBy != "" then flag.rollout.value.bucketBy
    else "user_id"
  }

  /** The rendered bucketing subject; absent, unset and empty subjects have none. */
  function Subject(flag: Flag, ctx: EvalContext): Option<string> {
    match ctx.Attribute(SubjectAttribute(flag))
    case None => None
    case Some(v) => Rendered(v)
  }

  function Rendered(v: Value): Option<string> {
    if v.IsUnknown() || Render(v) == "" then None else Some(Render(v))
  }

  function NamespaceKey(flag: Flag, ctx: EvalContext): Option<string> {
    match Subject(flag, ctx)
    case None => None
    case Some(subject) => Some(LengthPrefixed(Namespace(flag), subject))
  }

  method Key(flag: Option<Flag>, ctx: EvalContext) returns (key: Option<string>)
    ensures flag.None? ==> key == None
    ensures flag.Some? ==> key == NamespaceKey(flag.value, ctx)
    ensures key.Some? ==> DecodeKey(key.value) == Some((Namespace(flag.value), Subject(flag.value, ctx).value))
  {
    if flag.None? {
      return None;
    }
    var namespace, subjectAttr := flag.value.key, "user_id";
    if flag.value.rollout.Some? {
      if flag.value.rollout.value.bucketNamespace != "" {
        namespace := flag.value.rollout.value.bucketNamespace;
      }
      if flag.value.rollout.value.bucketBy != "" {
        subjectAttr := flag.value.rollout.value.bucketBy;
      }
    }
    var v := ctx.Attribute(subjectAttr);
    if v.None? || v.value.IsUnknown() {
      return None;
    }
    var subject := Render(v.value);
    if subject == "" {
      return None;
    }
    var b := Numeral(|namespace|);
    b := b + [':'];
    b := b + namespace;
    b := b + [':'];
    b := b + subject;
    assert b == LengthPrefixed(namespace, subject);
    DecodeOfKey(namespace, subject);
    return Some(b);
  }

  /** Reads a key back: the digits before the first ':' say how long the namespace is. */
  function DecodeKey(key: string): Option<(string, string)> {
    var i := IndexByte(key, ':');
    if i < 0 || !AllDigits(key[..i]) then None
    else
      var n, rest := NumeralValue(key[..i]), key[i + 1..];
      if n < |rest| && rest[n] == ':' then Some((rest[..n], rest[n + 1..])) else None
  }

  /** The key determines namespace and subject, whatever bytes they hold. */
  lemma DecodeOfKey(namespace: string, subject: string)
    ensures DecodeKey(LengthPrefixed(namespace, subject)) == Some((namespace, subject))
  {
    var digits, rest := Numeral(|namespace|), namespace + [':'] + subject;
    IndexOfFirst(digits, ':', rest);
    CutAt(digits, ':', rest);
    CutAt(namespace, ':', subject);
    ValueOfNumeral(|namespace|);
  }

  /** The key in full: lengths and names in decimal, the namespace first. */
  lemma AKeyInFull(flag: Flag)
    requires flag.key == "checkout" && flag.rollout.None?
    ensures NamespaceKey(flag, EvalContext("alice", "", map[])) == Some("8:checkout:alice")
  {
    assert Numeral(8) == "8";
    assert "8" + [':'] + ("checkout" + [':'] + "alice") == "8:checkout:alice";
  }

  /** Without `bucket_by` the subject is the user, and without a namespace the flag's own key is. */
  lemma DefaultsOfTheKey(flag: Flag, ctx: EvalContext)
    ensures flag.rollout.None? || flag.rollout.value.bucketNamespace == "" ==> Namespace(flag) == flag.key
    ensures flag.rollout.None? || flag.rollout.value.bucketBy == "" ==>
              && ("user_id" !in ctx.attributes && ctx.userID != "" ==> Subject(flag, ctx) == Some(ctx.userID))
              && ("user_id" !in ctx.attributes && ctx.userID == "" ==> Subject(flag, ctx) == None)
              && ("user_id" in ctx.attributes ==> Subject(flag, ctx) == Rendered(ctx.attributes["user_id"]))
  {
  }

  /** A configured namespace and attribute are used as they are. */
  lemma ConfiguredKey(flag: Flag, ctx: EvalContext)
    requires flag.rollout.Some?
    ensures flag.rollout.value.bucketNamespace != "" ==> Namespace(flag) == flag.rollout.value.bucketNamespace
    ensures flag.rollout.value.bucketBy != "" ==>
              Subject(flag, ctx) == match ctx.Attribute(flag.rollout.value.bucketBy)
                                    case None => None
                                    case Some(v) => Rendered(v)
  {
  }

  /** An unset or empty value buckets nobody; the others read back. */
  lemma RenderedValues(v: Value)
    ensures Rendered(v) == None <==> v == Unset || v == StringValue("")
    ensures forall s :: s != "" ==> Rendered(StringValue(s)) == Some(s)
    ensures Rendered(BoolValue(true)) == Some("true") && Rendered(BoolValue(false)) == Some("false")
    ensures v.IntValue? && v.i >= 0 ==>
              Rendered(v).Some? && AllDigits(Rendered(v).value) && NumeralValue(Rendered(v).value) == v.i
    ensures v.IntValue? && v.i < 0 ==>
              && Rendered(v).Some? && |Rendered(v).value| > 1 && Rendered(v).value[0] == '-'
              && AllDigits(Rendered(v).value[1..]) && NumeralValue(Rendered(v).value[1..]) == -v.i
  {
    if v.IntValue? {
      ValueOfNumeral(if v.i < 0 then -v.i else v.i);
    }
  }

  /** Two flags share a bucket space for two subjects only by sharing the namespace. */
  lemma KeysAreInjective(f: Flag, g: Flag, a: EvalContext, b: EvalContext)
    requires NamespaceKey(f, a).Some? && NamespaceKey(f, a) == NamespaceKey(g, b)
    ensures Namespace(f) == Namespace(g) && Subject(f, a) == Subject(g, b)
  {
    DecodeOfKey(Namespace(f), Subject(f, a).value);
    DecodeOfKey(Namespace(g), Subject(g, b).value);
  }

  // ---- The reduction ---------------------------------------------------------------

  const TWO_32: int := 0x1_0000_0000
  const TWO_64: int := 0x1_0000_0000_0000_0000

  type Word64 = h: int | 0 <= h < TWO_64

  /** `int32((h >> 32) * 10000 >> 32)` in 64-bit arithmetic that wraps. */
  function Reduce(h: Word64): int {
    h / TWO_32 * BUCKET_SPACE % TWO_64 / TWO_32
  }

  /** The bucket of a high word, over the unbounded integers. */
  function BucketOfHigh(hi: int): int { hi * BUCKET_SPACE / TWO_32 }

  /** ceil(b * 2^32 / 10000): the first high word of bucket `b`. */
  function FirstHigh(b: int): int { (b * TWO_32 + (BUCKET_SPACE - 1)) / BUCKET_SPACE }

  /** The product never wraps, the bucket fits, and it depends on the high word alone. */
  lemma ReduceIsExact(h: Word64)
    ensures h / TWO_32 * BUCKET_SPACE < TWO_64
    ensures Reduce(h) == BucketOfHigh(h / TWO_32) == h / 0x1_0000_0000 * 10000 / 0x1_0000_0000
    ensures 0 <= Reduce(h) < BUCKET_SPACE
  {
    assert 0 <= h / TWO_32 < TWO_32;
  }

  lemma ReduceIsMonotone(g: Word64, h: Word64)
    requires g <= h
    ensures Reduce(g) <= Reduce(h)
  {
    ReduceIsExact(g);
    ReduceIsExact(h);
    assert g / TWO_32 <= h / TWO_32;
  }

  /** A bucket holds exactly the high words from its first to the next bucket's first. */
  lemma BucketIsAnInterval(hi: int, b: int)
    ensures BucketOfHigh(hi) == b <==> FirstHigh(b) <= hi < FirstHigh(b + 1)
    ensures BucketOfHigh(hi) < b <==> hi < FirstHigh(b)
  {
  }

  ghost function HighWordsOf(b: int): set<int> {
    set hi | 0 <= hi < TWO_32 && BucketOfHigh(hi) == b
  }

  ghost function EnrolledHighWords(bp: int): set<int> {
    set hi | 0 <= hi < TWO_32 && BucketOfHigh(hi) < bp
  }

  ghost function Interval(lo: int, hi: int): (xs: set<int>)
    requires lo <= hi
    ensures forall x :: x in xs <==> lo <= x < hi
    ensures |xs| == hi - lo
    decreases hi - lo
  {
    if lo == hi then {} else Interval(lo, hi - 1) + {hi - 1}
  }

  /** Buckets are equal up to one high word in 2^32. */
  lemma BucketWidth(b: int)
    requires 0 <= b < BUCKET_SPACE
    ensures |HighWordsOf(b)| == 429496 || |HighWordsOf(b)| == 429497
  {
    var lo, hi := FirstHigh(b), FirstHigh(b + 1);
    assert 0 <= lo && hi <= TWO_32 && 429496 <= hi - lo <= 429497;
    forall x ensures x in HighWordsOf(b) <==> lo <= x < hi {
      BucketIsAnInterval(x, b);
    }
    assert HighWordsOf(b) == Interval(lo, hi);
  }

  /** At `bp` basis points exactly the high words below ceil(bp * 2^32 / 10000) enrol. */
  lemma EnrolmentIsExact(bp: int)
    requires 0 <= bp <= BUCKET_SPACE
    ensures forall hi :: hi in EnrolledHighWords(bp) <==> 0 <= hi < FirstHigh(bp)
    ensures |EnrolledHighWords(bp)| == FirstHigh(bp)
    ensures FirstHigh(0) == 0 && FirstHigh(BUCKET_SPACE) == TWO_32
  {
    assert 0 <= FirstHigh(bp) <= TWO_32;
    forall x ensures x in EnrolledHighWords(bp) <==> 0 <= x < FirstHigh(bp) {
      BucketIsAnInterval(x, bp);
    }
    assert EnrolledHighWords(bp) == Interval(0, FirstHigh(bp));
  }
}
