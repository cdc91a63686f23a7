/** Where a document is written, what its URN says, and where the bridge and the router look. */
module Addressing {
  import opened Bytes
  import opened Wrappers
  import opened Strings
  import opened Hex
  import opened Lakes

  /* ---------------------------------------------------------------- writers */

  /** raw-writer: the first path is the database, the others the collection. */
  function ConstructTableTarget(provider: text): Option<Target> {
    var tokens := Split(provider, SLASH);
    if |tokens| < 2 then None else Some(Target(tokens[0], Join(tokens[1..], DOT)))
  }

  /** raw-writer-2: everything after the first slash is the collection, and the prefix is part of the result. */
  function ProviderParts(dbPrefix: text, provider: text): Option<Target> {
    var parts := Cut(provider, SLASH);
    if |parts| != 2 || parts[0] == [] || parts[1] == [] then None
    else Some(Target(dbPrefix + parts[0], parts[1]))
  }

  /* ---------------------------------------------------------------- URNs */

  /** urn:raw: and the provider with its slashes turned into colons, then the document's id. */
  function RawUrn(provider: text, id: text): text {
    Ascii("urn") + [COLON] + (Ascii("raw") + [COLON] + (Replace(provider, SLASH, COLON) + [COLON] + ToHex(id)))
  }

  /** The namespace string's tokens. */
  function ParseUrn(urn: text): Option<seq<text>> {
    var tokens := Split(urn, COLON);
    if |tokens| < 3 || tokens[0] != Ascii("urn") then None else Some(tokens[2..])
  }

  function NssWithoutId(nss: seq<text>): seq<text>
    requires nss != []
  {
    nss[..|nss| - 1]
  }

  function ResourceId(nss: seq<text>): text
    requires nss != []
  {
    nss[|nss| - 1]
  }

  datatype Address = Address(target: Target, id: text)

  /** The document a URN addresses: database, collection and ObjectId. */
  function Resolve(urn: text): Option<Address> {
    match ParseUrn(urn)
    case None => None
    case Some(nss) =>
      var tokens := NssWithoutId(nss);
      if |tokens| < 2 then None
      else
        match FromHex(ResourceId(nss))
        case None => None
        case Some(id) => if |id| != 12 then None else Some(Address(Target(tokens[0], Join(tokens[1..], DOT)), id))
  }

  /** The routing key: the tokens without the id, joined with dots. */
  function RoutingKey(urn: text): Option<text> {
    match ParseUrn(urn)
    case None => None
    case Some(nss) => Some(Join(NssWithoutId(nss), DOT))
  }

  /* ---------------------------------------------------------------- agreement */

  /** A published URN parses to the provider's tokens and the id. */
  lemma RawUrnTokens(provider: text, id: text)
    ensures var tokens := Split(Replace(provider, SLASH, COLON), COLON);
            ParseUrn(RawUrn(provider, id)) == Some(tokens + [ToHex(id)])
  {
    var u, r, p, h := Ascii("urn"), Ascii("raw"), Replace(provider, SLASH, COLON), ToHex(id);
    SplitConcat(u, r + [COLON] + (p + [COLON] + h), COLON);
    SplitConcat(r, p + [COLON] + h, COLON);
    SplitConcat(p, h, COLON);
    SplitNone(u, COLON);
    SplitNone(r, COLON);
    SplitNone(h, COLON);
    var tokens := Split(p, COLON) + [h];
    assert Split(RawUrn(provider, id), COLON) == [u] + ([r] + tokens);
    assert ([u] + ([r] + tokens))[2..] == tokens;
  }

  /** What the bridge makes of a published URN. */
  lemma RawUrnResolves(provider: text, id: text)
    requires |id| == 12
    ensures var tokens := Split(Replace(provider, SLASH, COLON), COLON);
            && RoutingKey(RawUrn(provider, id)) == Some(Join(tokens, DOT))
            && Resolve(RawUrn(provider, id)) ==
               if |tokens| < 2 then None else Some(Address(Target(tokens[0], Join(tokens[1..], DOT)), id))
  {
    var tokens := Split(Replace(provider, SLASH, COLON), COLON);
    RawUrnTokens(provider, id);
    HexRoundTrip(id);
    assert NssWithoutId(tokens + [ToHex(id)]) == tokens;
  }

  /** The bridge's tokens hold neither separator. */
  lemma TokensAreClean(provider: text)
    ensures forall t | t in Split(Replace(provider, SLASH, COLON), COLON) :: COLON !in t && SLASH !in t
  {
    var p := Replace(provider, SLASH, COLON);
    PartsLackSep(p, COLON);
    JoinSplit(p, COLON);
    JoinHas(Split(p, COLON), COLON, SLASH);
  }

  /** raw-writer and the bridge mean the same collection exactly when the provider has no colon. */
  lemma WriterAgreesIff(provider: text, id: text)
    requires ConstructTableTarget(provider).Some? && |id| == 12
    ensures Resolve(RawUrn(provider, id)) == Some(Address(ConstructTableTarget(provider).value, id))
            <==> COLON !in provider
  {
    var tokens := Split(Replace(provider, SLASH, COLON), COLON);
    var written := Split(provider, SLASH);
    RawUrnResolves(provider, id);
    if COLON !in provider {
      SplitReplace(provider, SLASH, COLON);
    } else {
      TokensAreClean(provider);
      JoinSplit(provider, SLASH);
      JoinHas(written, SLASH, COLON);
      JoinHas(written[1..], DOT, COLON);
      if |tokens| >= 2 {
        JoinHas(tokens[1..], DOT, COLON);
        assert tokens[0] in tokens;
      }
      assert written == [written[0]] + written[1..];
    }
  }

  /** raw-writer-2 and the bridge, configured with one prefix, mean the same collection exactly when the provider has
      no colon and its second segment no slash. */
  lemma Writer2AgreesIff(dbPrefix: text, provider: text, id: text)
    requires ProviderParts(dbPrefix, provider).Some? && |id| == 12
    ensures (exists a :: Resolve(RawUrn(provider, id)) == Some(a) && a.id == id &&
               Target(dbPrefix + a.target.db, a.target.collection) == ProviderParts(dbPrefix, provider).value)
            <==> COLON !in provider && SLASH !in Cut(provider, SLASH)[1]
  {
    var parts := Cut(provider, SLASH);
    var tokens := Split(Replace(provider, SLASH, COLON), COLON);
    RawUrnResolves(provider, id);
    if COLON !in provider && SLASH !in parts[1] {
      SplitReplace(provider, SLASH, COLON);
      SplitConcat(parts[0], parts[1], SLASH);
      SplitNone(parts[0], SLASH);
      SplitNone(parts[1], SLASH);
      assert tokens == [parts[0], parts[1]] && tokens[1..] == [parts[1]];
    } else if |tokens| >= 2 {
      TokensAreClean(provider);
      JoinHas(tokens[1..], DOT, COLON);
      JoinHas(tokens[1..], DOT, SLASH);
      assert tokens[0] in tokens;
      if dbPrefix + tokens[0] == dbPrefix + parts[0] {
        assert tokens[0] == (dbPrefix + tokens[0])[|dbPrefix|..] == parts[0];
      }
    }
  }

  /** A consumer that splits the routing key at its first dot gets the collection back exactly when the
      database name has no dot. */
  lemma RoutingKeyAgreesIff(provider: text, id: text)
    requires |id| == 12 && Resolve(RawUrn(provider, id)).Some?
    ensures var t := Resolve(RawUrn(provider, id)).value.target;
            && RoutingKey(RawUrn(provider, id)) == Some(t.db + [DOT] + t.collection)
            && (Cut(t.db + [DOT] + t.collection, DOT) == [t.db, t.collection] <==> DOT !in t.db)
  {
    var tokens := Split(Replace(provider, SLASH, COLON), COLON);
    RawUrnResolves(provider, id);
    var t := Target(tokens[0], Join(tokens[1..], DOT));
    if DOT !in t.db { CutUnique(t.db, DOT, t.collection); }
  }

  /** The `db` field of raw-writer-2's ready message carries the prefix; it is the logical name the URN
      carries exactly when there is none. */
  lemma ReadyDbIsLogicalIff(dbPrefix: text, provider: text, id: text)
    requires ProviderParts(dbPrefix, provider).Some? && |id| == 12
    requires COLON !in provider && SLASH !in Cut(provider, SLASH)[1]
    ensures Resolve(RawUrn(provider, id)).Some?
    ensures ProviderParts(dbPrefix, provider).value.db == Resolve(RawUrn(provider, id)).value.target.db
            <==> dbPrefix == []
  {
    Writer2AgreesIff(dbPrefix, provider, id);
  }

  /* ---------------------------------------------------------------- in terms of tokens */

  /** Where raw-writer writes a provider: the first token is the database, the others the collection's dotted name. */
  lemma WriterTargetIs(tokens: seq<text>)
    requires tokens != [] && forall t | t in tokens :: SLASH !in t
    ensures ConstructTableTarget(Join(tokens, SLASH)) ==
            if |tokens| < 2 then None else Some(Target(tokens[0], Join(tokens[1..], DOT)))
  {
    SplitJoin(tokens, SLASH);
  }

  /** Where raw-writer-2 writes: the prefix and the first segment are the database, the second the collection. */
  lemma Writer2TargetIs(dbPrefix: text, first: text, second: text)
    requires SLASH !in first
    ensures ProviderParts(dbPrefix, first + [SLASH] + second) ==
            if first == [] || second == [] then None else Some(Target(dbPrefix + first, second))
  {
    CutUnique(first, SLASH, second);
  }

  lemma {:induction false} ReplaceJoin(tokens: seq<text>, from: byte, to: byte)
    requires tokens != [] && from != to && forall t | t in tokens :: from !in t
    ensures Replace(Join(tokens, from), from, to) == Join(tokens, to)
  {
    ReplaceNone(tokens[0], from, to);
    if |tokens| > 1 {
      ReplaceJoin(tokens[1..], from, to);
      ReplaceConcat(tokens[0] + [from], Join(tokens[1..], from), from, to);
      ReplaceConcat(tokens[0], [from], from, to);
      assert [from][1..] == [] && Replace([from], from, to) == [to];
    }
  }

  lemma {:induction false} ReplaceNone(s: text, from: byte, to: byte)
    requires from !in s
    ensures Replace(s, from, to) == s
  {
    if s != [] {
      ReplaceNone(s[1..], from, to);
      assert [s[0]] + s[1..] == s;
    }
  }

  lemma {:induction false} ReplaceConcat(a: text, b: text, from: byte, to: byte)
    ensures Replace(a + b, from, to) == Replace(a, from, to) + Replace(b, from, to)
  {
    if a == [] {
      assert a + b == b;
    } else {
      ReplaceConcat(a[1..], b, from, to);
      assert (a + b)[1..] == a[1..] + b;
    }
  }

  const RAW_URN := "urn:raw:"

  /** The published URN reads urn:raw: and the provider's tokens and the id between colons. */
  lemma RawUrnReads(tokens: seq<text>, id: text)
    requires tokens != [] && forall t | t in tokens :: SLASH !in t
    ensures RawUrn(Join(tokens, SLASH), id) == Ascii(RAW_URN) + Join(tokens, COLON) + [COLON] + ToHex(id)
  {
    ReplaceJoin(tokens, SLASH, COLON);
    assert Ascii("urn") + [COLON] + (Ascii("raw") + [COLON]) == Ascii(RAW_URN);
  }
}
