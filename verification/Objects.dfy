/** The object store: references to spilled payloads, and fetching them. */
module Objects {
  import opened Bytes
  import opened Wrappers
  import opened Strings

  const ZST: text := Ascii(".zst")

  /** urn:s3:{bucket}:{key} */
  function S3Urn(bucket: text, key: text): text {
    Ascii("urn") + [COLON] + (Ascii("s3") + [COLON] + (bucket + [COLON] + key))
  }

  datatype Location = Location(bucket: text, key: text)

  /** Split into four parts, so that the key keeps its colons. */
  function ParseS3Urn(urn: text): Option<Location> {
    var parts := SplitN(urn, COLON, 4);
    if |parts| != 4 || parts[0] != Ascii("urn") || parts[1] != Ascii("s3") || parts[2] == [] || parts[3] == [] then None
    else Some(Location(parts[2], parts[3]))
  }

  /** Whether there is a retriever for the URN's scheme; object storage is the only one. */
  predicate HasRetriever(urn: text) {
    var parts := SplitN(urn, COLON, 3);
    |parts| >= 2 && parts[0] == Ascii("urn") && parts[1] == Ascii("s3")
  }

  lemma S3UrnParts(rest: text)
    ensures var urn := Ascii("urn") + [COLON] + (Ascii("s3") + [COLON] + rest);
            && SplitN(urn, COLON, 4) == [Ascii("urn"), Ascii("s3")] + SplitN(rest, COLON, 2)
            && SplitN(urn, COLON, 3) == [Ascii("urn"), Ascii("s3")] + SplitN(rest, COLON, 1)
  {
    var u, s := Ascii("urn"), Ascii("s3");
    assert COLON !in u && COLON !in s;
    SplitNTwice(u, s, rest, COLON, 4);
    SplitNTwice(u, s, rest, COLON, 3);
  }

  /** The last two of four parts are what stands around the next colon. */
  lemma TwoPartsAreCut(rest: text)
    requires COLON in rest
    ensures SplitN(rest, COLON, 2) == Cut(rest, COLON)
  {
    var cut := Cut(rest, COLON);
    assert SplitN(cut[1], COLON, 1) == [cut[1]];
    assert cut == [cut[0]] + [cut[1]];
  }

  lemma ParsedS3Urn(bucket: text, key: text)
    ensures var cut := Cut(bucket + [COLON] + key, COLON);
            && |cut| == 2
            && ParseS3Urn(S3Urn(bucket, key)) == if cut[0] == [] || cut[1] == [] then None else Some(Location(cut[0], cut[1]))
    ensures HasRetriever(S3Urn(bucket, key))
  {
    var rest := bucket + [COLON] + key;
    assert rest[|bucket|] == COLON;
    S3UrnParts(rest);
    TwoPartsAreCut(rest);
  }

  /** A reference parses back to its bucket and key, whatever colons the key has, exactly when the bucket is
      neither empty nor has a colon. */
  lemma S3UrnParsesIff(bucket: text, key: text)
    requires key != []
    ensures HasRetriever(S3Urn(bucket, key))
    ensures ParseS3Urn(S3Urn(bucket, key)) == Some(Location(bucket, key)) <==> bucket != [] && COLON !in bucket
  {
    ParsedS3Urn(bucket, key);
    if COLON !in bucket { CutUnique(bucket, COLON, key); }
  }

  /** And nothing else parses: a reference that does is one that was built. */
  lemma ParsesOnlyBuilt(urn: text, at: Location)
    requires ParseS3Urn(urn) == Some(at)
    ensures urn == S3Urn(at.bucket, at.key) && at.bucket != [] && COLON !in at.bucket && at.key != []
  {
    var c1 := Cut(urn, COLON);
    var c2 := Cut(c1[1], COLON);
    var c3 := Cut(c2[1], COLON);
    assert SplitN(urn, COLON, 4) == [c1[0]] + ([c2[0]] + ([c3[0]] + [c3[1]]));
  }

  const S3_URN := "urn:s3"

  lemma RetrieverReads(urn: text)
    requires HasRetriever(urn)
    ensures urn == Ascii(S3_URN) || Ascii(S3_URN) + [COLON] <= urn
  {
    var c1 := Cut(urn, COLON);
    var c2 := Cut(c1[1], COLON);
    assert SplitN(urn, COLON, 3) == [c1[0]] + SplitN(c1[1], COLON, 2);
    assert c1[0] == Ascii("urn") && c2[0] == Ascii("s3");
    assert Ascii("urn") + [COLON] + Ascii("s3") == Ascii(S3_URN);
    if |c2| == 2 {
      assert urn == Ascii(S3_URN) + [COLON] + c2[1];
    } else {
      assert urn == Ascii(S3_URN);
    }
  }

  lemma ReadsRetriever(urn: text)
    requires urn == Ascii(S3_URN) || Ascii(S3_URN) + [COLON] <= urn
    ensures HasRetriever(urn)
  {
    var u, s := Ascii("urn"), Ascii("s3");
    assert u + [COLON] + s == Ascii(S3_URN) && COLON !in u && COLON !in s;
    if urn == Ascii(S3_URN) {
      assert urn == u + [COLON] + s;
      SplitNStep(u, s, COLON, 3);
    } else {
      var rest := urn[|S3_URN| + 1..];
      assert urn == u + [COLON] + (s + [COLON] + rest);
      SplitNTwice(u, s, rest, COLON, 3);
    }
  }

  /** A reference has a retriever exactly when it reads urn:s3, alone or before a colon. */
  lemma HasRetrieverIff(urn: text)
    ensures HasRetriever(urn) <==> urn == Ascii(S3_URN) || Ascii(S3_URN) + [COLON] <= urn
  {
    if HasRetriever(urn) {
      RetrieverReads(urn);
    } else if urn == Ascii(S3_URN) || Ascii(S3_URN) + [COLON] <= urn {
      ReadsRetriever(urn);
    }
  }

  /** What one attempt met: the object's bytes, or an error getting, reading or decompressing it. */
  datatype Attempt = Got(blob: text) | AttemptFailed | Cancelled

  datatype FetchError = BadUrn | Unavailable | ContextDone

  /** The payload in an object: compressed ones are named so. */
  function Unpacked(key: text, blob: text, decompress: text -> Option<text>): Option<text> {
    if HasSuffix(key, ZST) then decompress(blob) else Some(blob)
  }

  function AttemptGives(key: text, a: Attempt, decompress: text -> Option<text>): Option<text> {
    if a.Got? then Unpacked(key, a.blob, decompress) else None
  }

  const MAX_ATTEMPTS := 3

  /** None of the first n attempts gives a payload. */
  ghost predicate NoneUpTo(key: text, attempts: seq<Attempt>, n: nat, decompress: text -> Option<text>)
    requires n <= |attempts|
  {
    forall j | 0 <= j < n :: AttemptGives(key, attempts[j], decompress) == None
  }

  /** What the attempts from the n-th on come to: a cancelled context is only noticed while waiting before a retry. */
  function RetrievedFrom(key: text, attempts: seq<Attempt>, n: nat, decompress: text -> Option<text>): Result<text, FetchError>
    requires n <= |attempts|
    decreases |attempts| - n
  {
    if n == |attempts| then Failure(Unavailable)
    else if n > 0 && attempts[n].Cancelled? then Failure(ContextDone)
    else
      match AttemptGives(key, attempts[n], decompress)
      case Some(data) => Success(data)
      case None => RetrievedFrom(key, attempts, n + 1, decompress)
  }

  function Retrieved(urn: text, attempts: seq<Attempt>, decompress: text -> Option<text>): Result<text, FetchError> {
    match ParseS3Urn(urn)
    case None => Failure(BadUrn)
    case Some(at) => RetrievedFrom(at.key, attempts, 0, decompress)
  }

  /** Attempt n of the retrieval is made. */
  ghost predicate Comes(key: text, attempts: seq<Attempt>, n: nat, decompress: text -> Option<text>)
    requires n <= |attempts|
  {
    NoneUpTo(key, attempts, n, decompress) && forall j | 0 < j < n :: !attempts[j].Cancelled?
  }

  /** The three ways a retrieval can end, each exactly in its case. */
  lemma {:induction false} RetrievedIff(key: text, attempts: seq<Attempt>, n: nat, decompress: text -> Option<text>)
    requires n <= |attempts| && Comes(key, attempts, n, decompress)
    ensures var r := RetrievedFrom(key, attempts, n, decompress);
            && (forall data :: r == Success(data) <==>
                  exists i | n <= i < |attempts| :: Comes(key, attempts, i, decompress) && (i > 0 ==> !attempts[i].Cancelled?) &&
                    AttemptGives(key, attempts[i], decompress) == Some(data))
            && (r == Failure(ContextDone) <==>
                  exists i | n <= i < |attempts| :: Comes(key, attempts, i, decompress) && i > 0 && attempts[i].Cancelled?)
            && (r == Failure(Unavailable) <==> Comes(key, attempts, |attempts|, decompress))
            && r != Failure(BadUrn)
    decreases |attempts| - n
  {
    if n < |attempts| {
      var stops := (n > 0 && attempts[n].Cancelled?) || AttemptGives(key, attempts[n], decompress).Some?;
      if stops {
        forall i | n < i <= |attempts| ensures !Comes(key, attempts, i, decompress) {}
      } else {
        RetrievedIff(key, attempts, n + 1, decompress);
      }
    }
  }

  /** Tries up to three times and returns the first payload it can read; attempts[i] is what attempt i would meet. */
  method Retrieve(urn: text, attempts: seq<Attempt>, decompress: text -> Option<text>)
    returns (r: Result<text, FetchError>)
    requires |attempts| == 3
    ensures r == Retrieved(urn, attempts, decompress)
  {
    var parsed := ParseS3Urn(urn);
    if parsed == None {
      return Failure(BadUrn);
    }
    var key := parsed.value.key;
    for attempt := 0 to MAX_ATTEMPTS
      invariant RetrievedFrom(key, attempts, 0, decompress) == RetrievedFrom(key, attempts, attempt, decompress)
    {
      if attempt > 0 && attempts[attempt].Cancelled? {
        return Failure(ContextDone);
      }
      var data := AttemptGives(key, attempts[attempt], decompress);
      if data.Some? {
        return Success(data.value);
      }
    }
    return Failure(Unavailable);
  }
}
