/** The signed download URL of a backup, and the script that recovers the object key from such a URL. */
module DownloadUrls {
  import opened JsStrings
  import opened Splitting
  import opened UrlCodec

  /** "/file/" */
  const MARKER: JsString := [47, 102, 105, 108, 101, 47]

  /** "Authorization=" */
  const AUTHORIZATION: JsString := [65, 117, 116, 104, 111, 114, 105, 122, 97, 116, 105, 111, 110, 61]

  // ---------- the printer ----------

  /** Each part through the function; None as soon as one throws. */
  function MapParts(parts: Parts, f: JsString -> Option<JsString>): Option<Parts> {
    match parts
    case One(part) => (match f(part) case None => None case Some(p) => Some(One(p)))
    case More(part, rest) =>
      match (f(part), MapParts(rest, f))
      case (Some(p), Some(ps)) => Some(More(p, ps))
      case _ => None
  }

  function EncodePath(key: JsString): Option<JsString> {
    match MapParts(Split(key, SLASH), Encode)
    case None => None
    case Some(parts) => Some(Join(parts, SLASH))
  }

  function DecodePath(path: JsString): Option<JsString> {
    match MapParts(Split(path, SLASH), Decode)
    case None => None
    case Some(parts) => Some(Join(parts, SLASH))
  }

  function GetSignedUrl(downloadUrl: JsString, bucket: JsString, key: JsString, token: JsString): Option<JsString> {
    match EncodePath(key)
    case None => None
    case Some(encoded) =>
      Some(downloadUrl + MARKER + (bucket + [SLASH] + encoded) + [QUESTION] + (AUTHORIZATION + token))
  }

  /** Up to its first question mark the URL is base, "/file/", bucket and path; behind it comes the token by name. */
  lemma SignedUrlReads(base: JsString, bucket: JsString, key: JsString, token: JsString)
    requires WellFormed(key) && QUESTION !in bucket && QUESTION !in base
    ensures GetSignedUrl(base, bucket, key, token).Some? && EncodePath(key).Some?
    ensures var url, path := GetSignedUrl(base, bucket, key, token).value, EncodePath(key).value;
            var q := IndexOf(url, 0x3F);
            && q < |url|
            && url[..q] == base + [0x2F, 0x66, 0x69, 0x6C, 0x65, 0x2F] + bucket + [0x2F] + path
            && url[q + 1..]
                 == [0x41, 0x75, 0x74, 0x68, 0x6F, 0x72, 0x69, 0x7A, 0x61, 0x74, 0x69, 0x6F, 0x6E, 0x3D] + token
  {
    PathRoundTrip(key);
    var front := base + MARKER + (bucket + [SLASH] + EncodePath(key).value);
    FirstIsFirst(front, QUESTION, AUTHORIZATION + token);
    ConcatAssoc(base + MARKER, bucket, [SLASH]);
    ConcatAssoc(base + MARKER, bucket + [SLASH], EncodePath(key).value);
  }

  // ---------- the parser ----------

  predicate MarkerAt(s: JsString, i: nat) {
    i + |MARKER| <= |s| && s[i..i + |MARKER|] == MARKER
  }

  /** The first marker at or after `from`. */
  function FindMarker(s: JsString, from: nat): (r: Option<nat>)
    ensures r.Some? ==> from <= r.value && MarkerAt(s, r.value)
    ensures forall i :: from <= i < (if r.Some? then r.value else |s|) ==> !MarkerAt(s, i)
    decreases |s| - from
  {
    if from >= |s| then None else if MarkerAt(s, from) then Some(from) else FindMarker(s, from + 1)
  }

  /** What follows the marker: skip the bucket up to the next slash, decode the rest. */
  function KeyAfter(noQuery: JsString, idx: nat): Option<JsString> {
    var rest := if idx + |MARKER| <= |noQuery| then noQuery[idx + |MARKER|..] else [];
    var slash := IndexOf(rest, SLASH);
    if slash == |rest| then None
    else
      var encoded := rest[slash + 1..];
      if encoded == [] then None else DecodePath(encoded)
  }

  function ExtractKey(url: JsString): Option<JsString> {
    match FindMarker(url, 0)
    case None => None
    case Some(idx) => KeyAfter(url[..IndexOf(url, QUESTION)], idx)
  }

  /** What follows position i, nothing when the string ends before. */
  function Behind(s: JsString, i: nat): JsString { if i <= |s| then s[i..] else [] }

  /** A bucket, a slash and a path. */
  ghost predicate BucketAndPath(rest: JsString, bucket: JsString, encoded: JsString) {
    rest == bucket + [SLASH] + encoded && SLASH !in bucket && encoded != []
  }

  ghost predicate HoldsKey(rest: JsString, key: JsString) {
    exists bucket, encoded :: BucketAndPath(rest, bucket, encoded) && DecodePath(encoded) == Some(key)
  }

  ghost predicate FirstMarker(s: JsString, idx: nat) {
    MarkerAt(s, idx) && forall i: nat :: i < idx ==> !MarkerAt(s, i)
  }

  lemma FoundIsFirst(s: JsString, idx: nat)
    ensures FirstMarker(s, idx) <==> FindMarker(s, 0) == Some(idx)
  {
  }

  /** Only a cut at the first slash leaves a bucket without one in front. */
  lemma CutAtSlash(rest: JsString, bucket: JsString, encoded: JsString)
    requires encoded != []
    ensures BucketAndPath(rest, bucket, encoded) <==>
            var slash := IndexOf(rest, SLASH);
            slash < |rest| && bucket == rest[..slash] && encoded == rest[slash + 1..]
  {
    var slash := IndexOf(rest, SLASH);
    if slash < |rest| { CutAt(rest, slash); }
    if BucketAndPath(rest, bucket, encoded) {
      FirstIsFirst(bucket, SLASH, encoded);
      assert rest[|bucket| + 1..] == encoded;
    }
  }

  lemma OneCut(rest: JsString, bucket: JsString, encoded: JsString, key: JsString)
    requires BucketAndPath(rest, bucket, encoded)
    ensures HoldsKey(rest, key) <==> DecodePath(encoded) == Some(key)
  {
    CutAtSlash(rest, bucket, encoded);
    if other, path :| BucketAndPath(rest, other, path) && DecodePath(path) == Some(key) {
      CutAtSlash(rest, other, path);
    }
  }

  lemma KeyIsBehindTheBucket(noQuery: JsString, idx: nat, key: JsString)
    ensures KeyAfter(noQuery, idx) == Some(key) <==> HoldsKey(Behind(noQuery, idx + 6), key)
  {
    var rest := Behind(noQuery, idx + 6);
    var slash := IndexOf(rest, SLASH);
    if slash < |rest| && rest[slash + 1..] != [] {
      CutAtSlash(rest, rest[..slash], rest[slash + 1..]);
      OneCut(rest, rest[..slash], rest[slash + 1..], key);
    } else if bucket, encoded :| BucketAndPath(rest, bucket, encoded) {
      CutAtSlash(rest, bucket, encoded);
    }
  }

  /**
   * A key is found exactly when, right behind the first marker of the URL and before its query, there are a bucket, a
   * slash and a path that decodes to it.
   */
  lemma ExtractsExactlyWhen(url: JsString, key: JsString)
    ensures ExtractKey(url) == Some(key) <==>
            exists idx: nat :: FirstMarker(url, idx) && HoldsKey(Behind(url[..IndexOf(url, QUESTION)], idx + 6), key)
  {
    var found, noQuery := FindMarker(url, 0), url[..IndexOf(url, QUESTION)];
    forall idx: nat ensures FirstMarker(url, idx) <==> found == Some(idx) { FoundIsFirst(url, idx); }
    if found.Some? {
      KeyIsBehindTheBucket(noQuery, found.value, key);
    }
  }

  // ---------- round trip ----------

  lemma {:induction false} PathRoundTrip(key: JsString)
    requires WellFormed(key)
    ensures EncodePath(key).Some? && DecodePath(EncodePath(key).value) == Some(key)
    ensures QUESTION !in EncodePath(key).value
    ensures key != [] ==> EncodePath(key).value != []
    decreases |key|
  {
    var i := IndexOf(key, SLASH);
    if i == |key| {
      DecodeEncode(key);
      EncodeIsPlain(key);
      FirstIsFirst(Encode(key).value, SLASH, []);
    } else {
      var head, tail := key[..i], key[i + 1..];
      CutAt(key, i);
      WellFormedParts(head, SLASH, tail);
      PathRoundTrip(tail);
      DecodeEncode(head);
      EncodeIsPlain(head);
      EncodeAfter(head, tail);
      DecodeAfter(Encode(head).value, EncodePath(tail).value);
    }
  }

  lemma EncodeAfter(head: JsString, tail: JsString)
    requires SLASH !in head && Encode(head).Some? && EncodePath(tail).Some?
    ensures EncodePath(head + [SLASH] + tail) == Some(Encode(head).value + [SLASH] + EncodePath(tail).value)
  {
    SplitAt(head, SLASH, tail);
  }

  lemma DecodeAfter(head: JsString, tail: JsString)
    requires SLASH !in head
    ensures DecodePath(head + [SLASH] + tail)
            == if Decode(head).Some? && DecodePath(tail).Some?
               then Some(Decode(head).value + [SLASH] + DecodePath(tail).value) else None
  {
    SplitAt(head, SLASH, tail);
  }

  /** Decoding a longer path ends in the decoding of its tail, so it is a different, longer key. */
  lemma {:induction false} LongerPathLongerKey(front: JsString, tail: JsString)
    requires DecodePath(tail).Some?
    ensures DecodePath(front + [SLASH] + tail).Some? ==>
              |DecodePath(front + [SLASH] + tail).value| > |DecodePath(tail).value|
    decreases |front|
  {
    var i := IndexOf(front, SLASH);
    if i == |front| {
      DecodeAfter(front, tail);
    } else {
      var head, rest := front[..i], front[i + 1..];
      CutAt(front, i);
      assert front + [SLASH] + tail == head + [SLASH] + (rest + [SLASH] + tail);
      DecodeAfter(head, rest + [SLASH] + tail);
      LongerPathLongerKey(rest, tail);
    }
  }

  /** The base URL neither holds the marker nor ends in all of it but its last slash. */
  predicate CleanBase(base: JsString) {
    FindMarker(base + MARKER, 0) == Some(|base|)
  }

  predicate EndsInFile(base: JsString) {
    |base| >= 5 && base[|base| - 5..] == MARKER[..5]
  }

  lemma CleanBaseMeans(base: JsString)
    ensures CleanBase(base) <==> (forall i: nat :: i < |base| ==> !MarkerAt(base, i)) && !EndsInFile(base)
  {
    var s := base + MARKER;
    assert MarkerAt(s, |base|);
    forall i: nat | i < |base| ensures MarkerAt(s, i) <==> MarkerAt(base, i) || (i == |base| - 5 && EndsInFile(base)) {
      if i + 6 <= |base| {
        assert s[i..i + 6] == base[i..i + 6];
      } else {
        MarkerOverlap(base, i);
      }
    }
    assert CleanBase(base) <==> forall i: nat :: i < |base| ==> !MarkerAt(s, i);
    assert EndsInFile(base) ==> MarkerAt(s, |base| - 5);
  }

  /** The marker can start before the end of the base only by sharing its one slash with the marker after it. */
  lemma MarkerOverlap(base: JsString, i: nat)
    requires i < |base| < i + 6
    ensures MarkerAt(base + MARKER, i) <==> i == |base| - 5 && EndsInFile(base)
  {
    var s := base + MARKER;
    var k := |base| - i;
    assert s[i..i + 6] == base[i..] + MARKER[..6 - k];
    assert MARKER == MARKER[..k] + MARKER[k..];
    if k == 5 {
      assert MARKER[..1] == [SLASH] && MARKER[5..] == [SLASH];
    } else {
      assert s[|base|] == SLASH && s[i..i + 6][k] == SLASH && MARKER[k] != SLASH;
    }
  }

  /** Prefixes do not gain or lose markers that fit in them. */
  lemma FirstMarkerInPrefix(s: JsString, t: JsString, idx: nat)
    requires FindMarker(s, 0) == Some(idx)
    ensures FindMarker(s + t, 0) == Some(idx)
  {
    var r := FindMarker(s + t, 0);
    assert (s + t)[idx..idx + 6] == s[idx..idx + 6];
    assert MarkerAt(s + t, idx);
    assert r.Some? && r.value <= idx;
    assert (s + t)[r.value..r.value + 6] == s[r.value..r.value + 6];
    assert MarkerAt(s, r.value);
  }

  /** Neither the query nor what precedes it after the first marker disturbs where the parse cuts. */
  lemma ParseFront(front: JsString, tail: JsString, query: JsString)
    requires FindMarker(front, 0).Some? && QUESTION !in front && QUESTION !in tail
    ensures ExtractKey(front + tail + [QUESTION] + query) == KeyAfter(front + tail, FindMarker(front, 0).value)
  {
    var path := front + tail;
    var url := path + [QUESTION] + query;
    FirstIsFirst(path, QUESTION, query);
    assert url[..|path|] == path;
    ConcatAssoc(front, tail, [QUESTION]);
    ConcatAssoc(front, tail + [QUESTION], query);
    FirstMarkerInPrefix(front, tail + [QUESTION] + query, FindMarker(front, 0).value);
  }

  /** Cutting right after the base: the bucket is skipped and the path is decoded. */
  lemma CleanCut(front: JsString, idx: nat, bucket: JsString, encoded: JsString)
    requires idx + |MARKER| == |front| && SLASH !in bucket && encoded != []
    ensures KeyAfter(front + (bucket + [SLASH] + encoded), idx) == DecodePath(encoded)
  {
    var rest := bucket + [SLASH] + encoded;
    assert (front + rest)[|front|..] == rest;
    FirstIsFirst(bucket, SLASH, encoded);
    assert rest[|bucket| + 1..] == encoded;
  }

  /** Cutting at an earlier marker leaves at least the bucket in front of the path. */
  lemma EarlyCut(front: JsString, idx: nat, bucket: JsString, encoded: JsString)
    requires idx + |MARKER| < |front| && front[|front| - 1] == SLASH && DecodePath(encoded).Some?
    ensures KeyAfter(front + (bucket + [SLASH] + encoded), idx) != DecodePath(encoded)
  {
    var inner, tail := front[idx + 6..], bucket + [SLASH] + encoded;
    DropLeft(front, tail, idx + 6);
    var slash := IndexOf(inner + tail, SLASH);
    assert (inner + tail)[|inner| - 1] == SLASH;
    assert slash < |inner|;
    DropLeft(inner, tail, slash + 1);
    Regroup(inner[slash + 1..], bucket, encoded);
    LongerPathLongerKey(inner[slash + 1..] + bucket, encoded);
  }

  lemma Regroup(a: JsString, b: JsString, c: JsString)
    ensures a + (b + [SLASH] + c) == (a + b) + [SLASH] + c
  {
  }

  /**
   * Parsing the printed URL gives the key back exactly when the base URL is clean: for every well-formed,
   * non-empty key, every bucket without slash or question mark, every base without question mark, any token.
   */
  lemma ExtractKeyUndoesTheUrl(base: JsString, bucket: JsString, key: JsString, token: JsString)
    requires key != [] && WellFormed(key)
    requires SLASH !in bucket && QUESTION !in bucket && QUESTION !in base
    ensures GetSignedUrl(base, bucket, key, token).Some?
    ensures ExtractKey(GetSignedUrl(base, bucket, key, token).value) == Some(key) <==> CleanBase(base)
  {
    var idx := SignedUrlCut(base, bucket, key, token);
    PathRoundTrip(key);
    CutGivesTheKey(base + MARKER, idx, bucket, EncodePath(key).value);
    assert |base + MARKER| == |base| + 6;
  }

  /** Only a cut at the end of the front gives the path back. */
  lemma CutGivesTheKey(front: JsString, idx: nat, bucket: JsString, encoded: JsString)
    requires idx + |MARKER| <= |front| && front != [] && front[|front| - 1] == SLASH
    requires SLASH !in bucket && encoded != [] && DecodePath(encoded).Some?
    ensures KeyAfter(front + (bucket + [SLASH] + encoded), idx) == DecodePath(encoded) <==> idx + |MARKER| == |front|
  {
    if idx + |MARKER| == |front| {
      CleanCut(front, idx, bucket, encoded);
    } else {
      EarlyCut(front, idx, bucket, encoded);
    }
  }

  /** Where the parser cuts a printed URL: at the first marker of the base with its own marker appended. */
  lemma SignedUrlCut(base: JsString, bucket: JsString, key: JsString, token: JsString) returns (idx: nat)
    requires key != [] && WellFormed(key)
    requires SLASH !in bucket && QUESTION !in bucket && QUESTION !in base
    ensures EncodePath(key).Some? && EncodePath(key).value != [] && GetSignedUrl(base, bucket, key, token).Some?
    ensures idx + |MARKER| <= |base + MARKER| && FindMarker(base + MARKER, 0) == Some(idx)
    ensures ExtractKey(GetSignedUrl(base, bucket, key, token).value)
            == KeyAfter(base + MARKER + (bucket + [SLASH] + EncodePath(key).value), idx)
  {
    PathRoundTrip(key);
    var front := base + MARKER;
    assert MarkerAt(front, |base|);
    idx := FindMarker(front, 0).value;
    ParseFront(front, bucket + [SLASH] + EncodePath(key).value, AUTHORIZATION + token);
  }
}
