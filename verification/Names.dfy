/** Which database, collection and field names a query may use. */
module Names {
  import opened Bytes
  import opened Strings

  const MAX_IDENTIFIER_LENGTH := 128

  predicate IsWordByte(c: byte) {
    65 <= c <= 90 || 97 <= c <= 122 || 48 <= c <= 57 || c == 95
  }

  /** A letter, digit or underscore, then any number of those and hyphens. */
  predicate MatchesName(s: text) {
    s != [] && IsWordByte(s[0]) && forall i | 0 < i < |s| :: IsWordByte(s[i]) || s[i] == 45
  }

  predicate ValidCollectionName(s: text) {
    && s != [] && |s| <= MAX_IDENTIFIER_LENGTH
    && forall seg | seg in Split(s, DOT) :: MatchesName(seg)
  }

  predicate ValidDatabaseName(s: text) {
    s != [] && |s| <= MAX_IDENTIFIER_LENGTH && MatchesName(s)
  }

  predicate ValidFieldName(s: text) {
    s != [] && |s| <= MAX_IDENTIFIER_LENGTH && MatchesName(s)
  }

  /** The field name of a documents cursor. */
  const DOCUMENTS_FIELD: text := Ascii("$documents")

  /** No field can be named like the ordering of the documents view. */
  lemma DocumentsFieldIsReserved(f: text)
    requires ValidFieldName(f)
    ensures f != DOCUMENTS_FIELD
  {
    assert DOCUMENTS_FIELD[0] == '$' as int % 256;
  }

  lemma NamesAreClean(db: text, collection: text)
    requires ValidDatabaseName(db) && ValidCollectionName(collection)
    ensures forall c | c in db :: c != SLASH && c != COLON && c != DOT
    ensures forall c | c in collection :: c != SLASH && c != COLON
  {
    forall c | c in collection ensures c != SLASH && c != COLON {
      if c != DOT {
        JoinSplit(collection, DOT);
        JoinHas(Split(collection, DOT), DOT, c);
      }
    }
  }

  /** A database name is a collection name without dots. */
  lemma DatabaseNameIsDotlessCollectionName(s: text)
    ensures ValidDatabaseName(s) <==> ValidCollectionName(s) && DOT !in s
  {
    if MatchesName(s) { assert DOT !in s; }
    if DOT !in s { SplitNone(s, DOT); assert Split(s, DOT) == [s]; }
  }

  predicate IsWordOrHyphen(c: byte) {
    || 'A' as int <= c <= 'Z' as int || 'a' as int <= c <= 'z' as int || '0' as int <= c <= '9' as int
    || c == '_' as int || c == '-' as int
  }

  /** Byte i can stand where it does: a hyphen or a dot needs a letter, digit, underscore or hyphen before it. */
  predicate InPlace(s: text, i: nat)
    requires i < |s|
  {
    if i == 0 || s[i - 1] == '.' as int then IsWordOrHyphen(s[i]) && s[i] != '-' as int
    else IsWordOrHyphen(s[i]) || s[i] == '.' as int
  }

  /** The bytes of dotted names: no segment is empty or begins with a hyphen. */
  predicate IsDotted(s: text) {
    s != [] && s[|s| - 1] != '.' as int && forall i | 0 <= i < |s| :: InPlace(s, i)
  }

  /** A collection name, byte by byte. */
  lemma CollectionNameIff(s: text)
    ensures ValidCollectionName(s) <==> |s| <= 128 && IsDotted(s)
  {
    SegmentsIff(s);
  }

  lemma {:induction false} SegmentsIff(s: text)
    ensures (forall seg | seg in Split(s, DOT) :: MatchesName(seg)) <==> IsDotted(s)
    decreases |s|
  {
    var cut := Cut(s, DOT);
    var a := cut[0];
    if DOT in s {
      var b := cut[1];
      SplitConcat(a, b, DOT);
      SplitNone(a, DOT);
      SegmentsIff(b);
      DottedConcat(a, b);
      assert Split(s, DOT) == [a] + Split(b, DOT);
    } else {
      SplitNone(s, DOT);
      assert Split(s, DOT) == [s];
      DotlessIff(s);
    }
  }

  lemma DotlessIff(s: text)
    requires DOT !in s
    ensures MatchesName(s) <==> IsDotted(s)
  {
    if IsDotted(s) {
      forall i | 0 <= i < |s| ensures (i == 0 ==> IsWordByte(s[i])) && (IsWordByte(s[i]) || s[i] == 45) { assert InPlace(s, i); }
    }
    if MatchesName(s) {
      forall i | 0 <= i < |s| ensures InPlace(s, i) {}
    }
  }

  lemma InPlaceConcat(a: text, b: text, i: nat)
    requires i < |a| + 1 + |b|
    ensures i < |a| ==> (InPlace(a + [DOT] + b, i) <==> InPlace(a, i))
    ensures i == |a| ==> (InPlace(a + [DOT] + b, i) <==> a != [] && a[|a| - 1] != DOT)
    ensures i > |a| ==> (InPlace(a + [DOT] + b, i) <==> InPlace(b, i - |a| - 1))
  {
    var s := a + [DOT] + b;
    assert i > |a| ==> s[i] == b[i - |a| - 1];
    assert i > |a| + 1 ==> s[i - 1] == b[i - |a| - 2];
  }

  lemma DottedConcat(a: text, b: text)
    requires DOT !in a
    ensures IsDotted(a + [DOT] + b) <==> MatchesName(a) && IsDotted(b)
  {
    DotlessIff(a);
    if IsDotted(a + [DOT] + b) {
      DottedParts(a, b);
    } else if IsDotted(a) && IsDotted(b) {
      PartsDotted(a, b);
    }
  }

  lemma DottedParts(a: text, b: text)
    requires DOT !in a && IsDotted(a + [DOT] + b)
    ensures IsDotted(a) && IsDotted(b)
  {
    var s := a + [DOT] + b;
    InPlaceConcat(a, b, |a|);
    assert InPlace(s, |a|);
    forall i | 0 <= i < |a| ensures InPlace(a, i) { InPlaceConcat(a, b, i); assert InPlace(s, i); }
    assert s[|s| - 1] != DOT;
    forall i | 0 <= i < |b| ensures InPlace(b, i) { InPlaceConcat(a, b, |a| + 1 + i); assert InPlace(s, |a| + 1 + i); }
  }

  lemma PartsDotted(a: text, b: text)
    requires DOT !in a && IsDotted(a) && IsDotted(b)
    ensures IsDotted(a + [DOT] + b)
  {
    var s := a + [DOT] + b;
    forall i | 0 <= i < |s| ensures InPlace(s, i) { InPlaceConcat(a, b, i); }
    assert s[|s| - 1] == b[|b| - 1];
  }

  /** A database or field name, byte by byte. */
  lemma PlainNameIff(s: text)
    ensures ValidDatabaseName(s) <==> |s| <= 128 && IsDotted(s) && DOT !in s
    ensures ValidFieldName(s) <==> ValidDatabaseName(s)
  {
    if DOT !in s {
      DotlessIff(s);
    } else if MatchesName(s) {
      assert false;
    }
  }
}
