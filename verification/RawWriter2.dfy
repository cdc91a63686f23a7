/** raw-writer-2: how a request becomes an object, a document and a ready message. */
module RawWriter2 {
  import opened Bytes
  import opened Wrappers
  import opened Strings
  import opened Hex
  import opened Values
  import opened Store
  import opened Lakes
  import opened Addressing
  import opened Objects
  import Inlining

  const STAMP_LENGTH := 16
  const HASH_LENGTH := 8

  /** The UTC second a key is stamped with, in the form 20060102T150405Z. */
  type Stamp = t: text | |t| == STAMP_LENGTH witness seq(STAMP_LENGTH, i => 48)

  /** The first eight bytes of a payload's hash. */
  type Hash = t: text | |t| == HASH_LENGTH witness seq(HASH_LENGTH, i => 0)

  /** A request with its path segments, headers and body. */
  datatype Request = Request(
    provider1: text,
    provider2: text,
    stamp: Stamp,
    timestamp: int,
    provenance: text,
    extra: map<text, text>,
    mediaType: text,
    raw: text)

  /** Configuration, and the two libraries. */
  datatype Env = Env(
    bucket: text,
    dbPrefix: text,
    threshold: nat,
    hash: text -> Hash,
    compress: text -> text,
    decompress: text -> Option<text>)

  predicate ValidMeta(r: Request) {
    r.provider1 != [] && r.provider2 != [] && r.provenance != []
  }

  function Provider(r: Request): text {
    r.provider1 + [SLASH] + r.provider2
  }

  predicate IsText(mediaType: text) {
    || HasPrefix(mediaType, Ascii("text/"))
    || mediaType == Ascii("application/json")
    || mediaType == Ascii("application/xml")
    || mediaType == Ascii("application/yaml")
    || mediaType == Ascii("application/csv")
    || mediaType == Ascii("application/x-www-form-urlencoded")
  }

  /* ---------------------------------------------------------------- spilling */

  predicate Spills(env: Env, r: Request) {
    |r.raw| >= env.threshold
  }

  /** Text is compressed, unless that fails. */
  predicate Compresses(r: Request, compressOk: bool) {
    IsText(r.mediaType) && compressOk
  }

  function ObjectData(env: Env, r: Request, compressOk: bool): text {
    if Compresses(r, compressOk) then env.compress(r.raw) else r.raw
  }

  /** {provider1}/{provider2}/{timestamp}_{hash}, with a suffix when compressed. */
  function ObjectKey(env: Env, r: Request, compressOk: bool): text {
    Provider(r) + [SLASH] + r.stamp + [95] + ToHex(env.hash(r.raw)) + (if Compresses(r, compressOk) then ZST else [])
  }

  /** A key tells whether its object is compressed, as a hash never looks like the suffix. */
  lemma SuffixTellsCompression(env: Env, r: Request, compressOk: bool)
    ensures HasSuffix(ObjectKey(env, r, compressOk), ZST) <==> Compresses(r, compressOk)
  {
    var key, hash := ObjectKey(env, r, compressOk), ToHex(env.hash(r.raw));
    var head := Provider(r) + [SLASH] + r.stamp + [95];
    assert ZST[3] == 't' as int % 256 && |ZST| == 4;
    if Compresses(r, compressOk) {
      assert key == head + hash + ZST && key[|key| - 4..] == ZST;
    } else {
      assert key == head + hash && key[|key| - 4..][3] == hash[|hash| - 1];
      assert hash[|hash| - 1] in hash;
    }
  }

  /** Two requests share a key only with the same provider, second, hash and compression. */
  lemma KeyInjective(env: Env, a: Request, aOk: bool, b: Request, bOk: bool)
    requires ObjectKey(env, a, aOk) == ObjectKey(env, b, bOk)
    ensures Provider(a) == Provider(b) && a.stamp == b.stamp && env.hash(a.raw) == env.hash(b.raw)
    ensures Compresses(a, aOk) == Compresses(b, bOk)
  {
    SuffixTellsCompression(env, a, aOk);
    SuffixTellsCompression(env, b, bOk);
    var key := ObjectKey(env, a, aOk);
    var n := |Provider(a)|;
    assert |Provider(b)| == n;
    assert key[..n] == Provider(a) == Provider(b);
    assert key[n + 1..n + 17] == a.stamp == b.stamp;
    assert key[n + 18..n + 34] == ToHex(env.hash(a.raw)) == ToHex(env.hash(b.raw));
    HexRoundTrip(env.hash(a.raw));
    HexRoundTrip(env.hash(b.raw));
  }

  /* ---------------------------------------------------------------- the document */

  /** Every harvested header is a string. */
  function MetaOf(extra: map<text, text>): map<text, Value> {
    map f | f in extra :: Str(extra[f])
  }

  /** The stored document: a reference, or the payload as text or BSON binary. */
  function BuildDoc(r: Request, id: text, rawRef: text): Record {
    var rawdata :=
      if rawRef != [] then Absent
      else if IsText(r.mediaType) then Text(r.raw)
      else Binary(r.raw);
    Record(id, r.timestamp, MetaOf(r.extra), 0, r.mediaType, rawdata, rawRef)
  }

  /** What a reader of the document should get. */
  function Payload(r: Request): RawData {
    if IsText(r.mediaType) then Text(r.raw) else Bytes(r.raw)
  }

  /** Decompression undoes compression on this body, if it may be compressed at all. */
  predicate RoundTrips(env: Env, r: Request) {
    IsText(r.mediaType) ==> env.decompress(env.compress(r.raw)) == Some(r.raw)
  }

  /** The object under the key unpacks to the payload. */
  predicate Holds(env: Env, objects: map<text, text>, key: text, raw: text) {
    key in objects && Unpacked(key, objects[key], env.decompress) == Some(raw)
  }

  lemma UploadHolds(env: Env, objects: map<text, text>, r: Request, compressOk: bool)
    requires RoundTrips(env, r)
    ensures Holds(env, objects[ObjectKey(env, r, compressOk) := ObjectData(env, r, compressOk)],
                  ObjectKey(env, r, compressOk), r.raw)
  {
    SuffixTellsCompression(env, r, compressOk);
  }

  /** The media types served as text, beside text/ and what follows it. */
  const TEXT_TYPES := [
    "application/json", "application/xml", "application/yaml", "application/csv", "application/x-www-form-urlencoded"]

  /** The two copies of the text test agree: text/ and five more types. */
  lemma SameTextTypes(mediaType: text)
    ensures Inlining.IsText(mediaType) == IsText(mediaType)
    ensures IsText(mediaType) <==>
              Ascii("text/") <= mediaType || exists i | 0 <= i < |TEXT_TYPES| :: mediaType == Ascii(TEXT_TYPES[i])
  {
    assert TEXT_TYPES[0] == "application/json" && TEXT_TYPES[1] == "application/xml" && TEXT_TYPES[2] == "application/yaml";
    assert TEXT_TYPES[3] == "application/csv" && TEXT_TYPES[4] == "application/x-www-form-urlencoded";
  }

  /** What is uploaded: the body, compressed exactly when it is text and compression did not fail, under a key that
      begins with the provider's path and ends in .zst exactly when compressed. */
  lemma SpilledObjectIs(env: Env, r: Request, compressOk: bool)
    ensures var compressed := Inlining.IsText(r.mediaType) && compressOk;
            && ObjectData(env, r, compressOk) == (if compressed then env.compress(r.raw) else r.raw)
            && (HasSuffix(ObjectKey(env, r, compressOk), Ascii(".zst")) <==> compressed)
            && r.provider1 + [SLASH] + r.provider2 + [SLASH] + r.stamp <= ObjectKey(env, r, compressOk)
  {
    SameTextTypes(r.mediaType);
    SuffixTellsCompression(env, r, compressOk);
    var path := r.provider1 + [SLASH] + r.provider2 + [SLASH] + r.stamp;
    assert ObjectKey(env, r, compressOk)[..|path|] == path;
  }

  /** A document with a reference is served with whatever its object unpacks to. */
  lemma ReferenceIsServed(env: Env, objects: map<text, text>, key: text, body: text, d: Record)
    requires env.bucket != [] && COLON !in env.bucket && key != []
    requires Holds(env, objects, key, body) && d.rawRef == S3Urn(env.bucket, key) && d.rawdata == Absent
    ensures Inlining.Inlined(d, Inlining.FetchFrom(env.bucket, objects, env.decompress))
         == Success(d.(rawdata := if IsText(d.contentType) then Text(body) else Bytes(body)))
  {
    S3UrnParsesIff(env.bucket, key);
    var fetch := Inlining.FetchFrom(env.bucket, objects, env.decompress);
    assert HasRetriever(d.rawRef) && fetch(d.rawRef) == Some(body);
    SameTextTypes(d.contentType);
  }

  /** Spill transparency: for every payload, media type and threshold, the payload served for a document is the
      one received, whether it was stored inline or spilled, compressed or not. */
  lemma SpillTransparency(env: Env, r: Request, id: text, objects: map<text, text>, compressOk: bool)
    requires env.bucket != [] && COLON !in env.bucket
    requires Holds(env, objects, ObjectKey(env, r, compressOk), r.raw)
    ensures var fetch := Inlining.FetchFrom(env.bucket, objects, env.decompress);
            var spilled := Inlining.Inlined(BuildDoc(r, id, S3Urn(env.bucket, ObjectKey(env, r, compressOk))), fetch);
            var inline := Inlining.Inlined(BuildDoc(r, id, []), fetch);
            && spilled.Success? && spilled.value.rawdata == Payload(r)
            && inline.Success? && inline.value.rawdata == Payload(r)
  {
    var key := ObjectKey(env, r, compressOk);
    ReferenceIsServed(env, objects, key, r.raw, BuildDoc(r, id, S3Urn(env.bucket, key)));
  }

  datatype ReadyPayload = ReadyPayload(id: text, target: Target, urn: text)

  function MessageFor(r: Request, target: Target, id: text): ReadyPayload {
    ReadyPayload(ToHex(id), target, RawUrn(Provider(r), id))
  }
}
