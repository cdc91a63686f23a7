/** How the bridge turns a stored document into the one it serves. */
module Inlining {
  import opened Bytes
  import opened Wrappers
  import opened Strings
  import opened Store
  import opened Objects

  /** Content types served as text; everything else is base64 in the response. */
  predicate IsText(mediaType: text) {
    || HasPrefix(mediaType, Ascii("text/"))
    || mediaType == Ascii("application/json")
    || mediaType == Ascii("application/xml")
    || mediaType == Ascii("application/yaml")
    || mediaType == Ascii("application/csv")
    || mediaType == Ascii("application/x-www-form-urlencoded")
  }

  /** BSON binary becomes raw bytes. */
  function Normalize(d: Record): (r: Record)
    ensures Storable(d) ==> Storable(r)
  {
    if d.rawdata.Binary? then d.(rawdata := Bytes(d.rawdata.data)) else d
  }

  function WithPayload(d: Record, data: text): (r: Record)
    ensures Storable(d) ==> Storable(r)
  {
    d.(rawdata := if IsText(d.contentType) then Text(data) else Bytes(data))
  }

  /** The served document, or an error when its reference cannot be resolved. */
  function Inlined(d: Record, fetch: text -> Option<text>): Result<Record, FetchError> {
    if d.rawRef == [] then Success(Normalize(d))
    else if !HasRetriever(d.rawRef) then Failure(BadUrn)
    else
      match fetch(d.rawRef)
      case None => Failure(Unavailable)
      case Some(data) => Success(WithPayload(Normalize(d), data))
  }

  /** A document is served exactly when it has no reference, or one that reads urn:s3 and is fetched. Only its payload
      changes: BSON binary becomes bytes, and a reference's payload is text for text media types and bytes otherwise. */
  lemma InlinedIs(d: Record, fetch: text -> Option<text>)
    ensures Inlined(d, fetch).Success? <==>
              || d.rawRef == []
              || ((d.rawRef == Ascii(S3_URN) || Ascii(S3_URN) + [COLON] <= d.rawRef) && fetch(d.rawRef).Some?)
    ensures Inlined(d, fetch).Success? ==>
              var r := Inlined(d, fetch).value;
              && r == d.(rawdata := r.rawdata)
              && (d.rawRef == [] && d.rawdata.Binary? ==> r.rawdata == Bytes(d.rawdata.data))
              && (d.rawRef == [] && !d.rawdata.Binary? ==> r.rawdata == d.rawdata)
              && (d.rawRef != [] && IsText(d.contentType) ==> r.rawdata == Text(fetch(d.rawRef).value))
              && (d.rawRef != [] && !IsText(d.contentType) ==> r.rawdata == Bytes(fetch(d.rawRef).value))
  {
    HasRetrieverIff(d.rawRef);
  }

  /** Fetching from a bucket's objects. */
  function FetchFrom(bucket: text, objects: map<text, text>, decompress: text -> Option<text>): text -> Option<text> {
    (urn: text) =>
      match ParseS3Urn(urn)
      case None => None
      case Some(at) =>
        if at.bucket == bucket && at.key in objects then Unpacked(at.key, objects[at.key], decompress) else None
  }

  /** Attempts that read anything read the object's bytes. */
  predicate Honest(at: Location, attempts: seq<Attempt>, objects: map<text, text>) {
    forall i | 0 <= i < |attempts| && attempts[i].Got? :: at.key in objects && attempts[i].blob == objects[at.key]
  }

  /** Some attempt reads the object before the context ends. */
  ghost predicate ReadsInTime(attempts: seq<Attempt>) {
    exists i | 0 <= i < |attempts| :: attempts[i].Got? && forall j | 0 < j < i :: !attempts[j].Cancelled?
  }

  /** What the bridge retrieves is what the bucket holds: never anything else, and as soon as one attempt reads it
      before the context ends. */
  lemma RetrievedIsHeld(urn: text, at: Location, attempts: seq<Attempt>, objects: map<text, text>, decompress: text -> Option<text>)
    requires ParseS3Urn(urn) == Some(at) && Honest(at, attempts, objects)
    ensures var r := Retrieved(urn, attempts, decompress);
            var held := FetchFrom(at.bucket, objects, decompress)(urn);
            && (r.Success? ==> held == Some(r.value))
            && (held.Some? && ReadsInTime(attempts) ==> r == Success(held.value))
  {
    RetrievedIff(at.key, attempts, 0, decompress);
    var r := RetrievedFrom(at.key, attempts, 0, decompress);
    var held := FetchFrom(at.bucket, objects, decompress)(urn);
    if held.Some? && ReadsInTime(attempts) {
      var i :| 0 <= i < |attempts| && attempts[i].Got? && forall j | 0 < j < i :: !attempts[j].Cancelled?;
      FirstReadWins(at.key, attempts, i, 0, decompress, held.value);
    }
  }

  lemma {:induction false} FirstReadWins(
      key: text, attempts: seq<Attempt>, i: nat, n: nat, decompress: text -> Option<text>, data: text)
    requires n <= i < |attempts| && attempts[i].Got? && forall j | 0 < j < i :: !attempts[j].Cancelled?
    requires forall j | 0 <= j < |attempts| && attempts[j].Got? :: AttemptGives(key, attempts[j], decompress) == Some(data)
    ensures RetrievedFrom(key, attempts, n, decompress) == Success(data)
    decreases i - n
  {
    if !attempts[n].Got? { FirstReadWins(key, attempts, i, n + 1, decompress, data); }
  }
}
