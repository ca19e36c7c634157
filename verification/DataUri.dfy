/** Data URIs: RFC 2397 sections 2 and 3, as parsed and printed by the message package. */
module DataUri {
  import opened Messages
  import opened Base64

  datatype Parsed = Parsed(data: string, isBase64: bool, mediaType: string)

  datatype DataContent = DataContent(data: string, mediaType: string)

  datatype Failure =
    | EmptyUri | NotDataUri | NoComma | BadBase64 | BadMediaType

  datatype Result<+T> = Ok(value: T) | Err(why: Failure)

  /** Library code that is not part of this model: whether a media type parses, and the bytes of
      a percent-encoded payload (those of the payload itself when it does not unescape). */
  datatype Library = Library(mimeParses: string -> bool, payloadBytes: string -> seq<Byte>)

  const SCHEME := "data:"
  const BASE64_SUFFIX := ";base64"
  const DEFAULT_MEDIA_TYPE := "text/plain;charset=US-ASCII"

  /** Of the table of media types that are valid without parsing only the default one matters here;
      the others are among those that `mimeParses` may accept. */
  const KNOWN_MEDIA_TYPES: set<string> := {DEFAULT_MEDIA_TYPE}

  predicate IsValidMediaType(lib: Library, mediaType: string) {
    mediaType != "" && (mediaType in KNOWN_MEDIA_TYPES || lib.mimeParses(mediaType))
  }

  function Lower(c: char): char {
    if 'A' <= c <= 'Z' then (c as int + 32) as char else c
  }

  function ToLower(s: string): (r: string)
    ensures |r| == |s| && forall i :: 0 <= i < |s| ==> r[i] == Lower(s[i])
  {
    seq(|s|, i requires 0 <= i < |s| => Lower(s[i]))
  }

  predicate HasSuffix(s: string, suffix: string) {
    |suffix| <= |s| && s[|s| - |suffix|..] == suffix
  }

  /** Position of the first comma, or the length when there is none. */
  function CommaPosition(s: string): (k: nat)
    ensures k <= |s|
  {
    if s == "" || s[0] == ',' then 0 else 1 + CommaPosition(s[1..])
  }

  function TrimSpace(s: string): string {
    if s == "" then ""
    else if IsSpace(s[0]) then TrimSpace(s[1..])
    else if IsSpace(s[|s| - 1]) then TrimSpace(s[..|s| - 1])
    else s
  }

  // ---------------------------------------------------------------- parsing and printing

  /** The media type of trimmed metadata. */
  function MediaTypeOf(lib: Library, metadata: string): Result<string> {
    var mediaType := TrimSpace(metadata);
    if mediaType == "" then Ok(DEFAULT_MEDIA_TYPE)
    else if !IsValidMediaType(lib, mediaType) then Err(BadMediaType)
    else Ok(mediaType)
  }

  ghost function Parse(lib: Library, uri: string): Result<Parsed> {
    if !(SCHEME <= ToLower(uri)) then Err(NotDataUri)
    else
      var rest := uri[|SCHEME|..];
      var comma := CommaPosition(rest);
      if comma == |rest| then Err(NoComma)
      else
        var metadata, data := rest[..comma], rest[comma + 1..];
        if HasSuffix(ToLower(metadata), BASE64_SUFFIX) then
          if !IsBase64(data) then Err(BadBase64)
          else
            var m := MediaTypeOf(lib, metadata[..|metadata| - |BASE64_SUFFIX|]);
            if m.Err? then Err(m.why) else Ok(Parsed(data, true, m.value))
        else
          var m := MediaTypeOf(lib, metadata);
          if m.Err? then Err(m.why) else Ok(Parsed(data, false, m.value))
  }

  /** The parser as it runs, with the validator's loop. */
  method ParseDataUri(lib: Library, uri: string) returns (r: Result<Parsed>)
    ensures r == Parse(lib, uri)
  {
    if !(SCHEME <= ToLower(uri)) { return Err(NotDataUri); }
    var rest := uri[|SCHEME|..];
    var comma := CommaPosition(rest);
    if comma == |rest| { return Err(NoComma); }
    var metadata, data := rest[..comma], rest[comma + 1..];
    var isBase64 := HasSuffix(ToLower(metadata), BASE64_SUFFIX);
    if isBase64 {
      metadata := metadata[..|metadata| - |BASE64_SUFFIX|];
      var valid := IsValidBase64Data(data);
      if !valid { return Err(BadBase64); }
    }
    var m := MediaTypeOf(lib, metadata);
    return if m.Err? then Err(m.why) else Ok(Parsed(data, isBase64, m.value));
  }

  function DataOf(lib: Library, p: Parsed): string {
    if p.isBase64 then p.data else Encode(lib.payloadBytes(p.data))
  }

  /** A data content from a URI; a given media type takes precedence over the one in the URI. */
  ghost function FromUri(lib: Library, uri: string, mediaType: string): Result<DataContent> {
    if uri == "" then Err(EmptyUri)
    else
      var p := Parse(lib, uri);
      if p.Err? then Err(p.why)
      else
        var m := if mediaType != "" then mediaType else p.value.mediaType;
        if !IsValidMediaType(lib, m) then Err(BadMediaType) else Ok(DataContent(DataOf(lib, p.value), m))
  }

  function Uri(d: DataContent): string {
    SCHEME + d.mediaType + BASE64_SUFFIX + "," + d.data
  }

  // ---------------------------------------------------------------- properties

  lemma {:induction false} CommaIsFirst(s: string)
    ensures var k := CommaPosition(s);
      (forall i :: 0 <= i < k ==> s[i] != ',') && (k < |s| ==> s[k] == ',')
  {
    if s != "" && s[0] != ',' { CommaIsFirst(s[1..]); }
  }

  lemma CommaAfter(a: string, b: string)
    requires forall i :: 0 <= i < |a| ==> a[i] != ','
    ensures CommaPosition(a + "," + b) == |a|
  {
    var s := a + "," + b;
    CommaIsFirst(s);
    assert s[|a|] == ',';
    assert forall i :: 0 <= i < |a| ==> s[i] == a[i];
  }

  ghost predicate NoCommaIn(s: string) {
    forall i :: 0 <= i < |s| ==> s[i] != ','
  }

  lemma {:induction false} TrimmedIsInner(s: string)
    ensures |TrimSpace(s)| <= |s|
    ensures NoCommaIn(s) ==> NoCommaIn(TrimSpace(s))
    ensures TrimSpace(TrimSpace(s)) == TrimSpace(s)
  {
    if s != "" {
      if IsSpace(s[0]) {
        TrimmedIsInner(s[1..]);
      } else if IsSpace(s[|s| - 1]) {
        TrimmedIsInner(s[..|s| - 1]);
      }
    }
  }

  /** A media type that survives printing and parsing. */
  ghost predicate IsPlainMediaType(mediaType: string) {
    NoCommaIn(mediaType) && TrimSpace(mediaType) == mediaType
  }

  lemma DefaultIsPlain()
    ensures IsPlainMediaType(DEFAULT_MEDIA_TYPE)
  {
    var s := DEFAULT_MEDIA_TYPE;
    assert s[0] == 't' && s[|s| - 1] == 'I';
    hide IsSpace;
    assert !IsSpace('t') && !IsSpace('I') by { NotSpaces(); }
  }

  lemma NotSpaces()
    ensures !IsSpace('t') && !IsSpace('I')
  {
  }

  /** Whatever parses gives a valid media type of that kind, and valid base64 if marked so. */
  lemma ParseGivesPlain(lib: Library, uri: string)
    requires Parse(lib, uri).Ok?
    ensures var p := Parse(lib, uri).value;
      IsPlainMediaType(p.mediaType) && IsValidMediaType(lib, p.mediaType) && (p.isBase64 ==> IsBase64(p.data))
  {
    var rest := uri[|SCHEME|..];
    var comma := CommaPosition(rest);
    CommaIsFirst(rest);
    var metadata := rest[..comma];
    assert NoCommaIn(metadata);
    var cut := if HasSuffix(ToLower(metadata), BASE64_SUFFIX) then metadata[..|metadata| - |BASE64_SUFFIX|] else metadata;
    assert NoCommaIn(cut);
    hide CommaPosition, IsBase64, ToLower, IsValidMediaType, NoCommaIn, TrimSpace;
    MediaTypePlain(lib, cut);
  }

  lemma MediaTypePlain(lib: Library, metadata: string)
    requires NoCommaIn(metadata) && MediaTypeOf(lib, metadata).Ok?
    ensures var m := MediaTypeOf(lib, metadata).value; IsPlainMediaType(m) && IsValidMediaType(lib, m)
  {
    hide TrimSpace, NoCommaIn;
    TrimmedIsInner(metadata);
    DefaultIsPlain();
  }

  lemma LowerPrefix(s: string)
    ensures SCHEME <= ToLower(SCHEME + s)
  {
  }

  lemma LowerSuffix(s: string)
    ensures HasSuffix(ToLower(s + BASE64_SUFFIX), BASE64_SUFFIX)
  {
    var t := ToLower(s + BASE64_SUFFIX);
    assert t[|t| - 7..] == BASE64_SUFFIX;
  }

  /** Contents may be built without validation. Printing and parsing again gives the same data and
      media type if and only if the media type is valid, without comma and without space around
      it, and the data is valid. */
  lemma PrintParse(lib: Library, d: DataContent)
    ensures Parse(lib, Uri(d)) == Ok(Parsed(d.data, true, d.mediaType))
       <==> IsPlainMediaType(d.mediaType) && IsValidMediaType(lib, d.mediaType) && IsBase64(d.data)
  {
    hide *;
    if IsPlainMediaType(d.mediaType) && IsValidMediaType(lib, d.mediaType) && IsBase64(d.data) { PlainReadsBack(lib, d); }
    if Parse(lib, Uri(d)) == Ok(Parsed(d.data, true, d.mediaType)) { ParseGivesPlain(lib, Uri(d)); }
  }

  lemma PlainReadsBack(lib: Library, d: DataContent)
    requires IsValidMediaType(lib, d.mediaType) && IsBase64(d.data) && IsPlainMediaType(d.mediaType)
    ensures Parse(lib, Uri(d)) == Ok(Parsed(d.data, true, d.mediaType))
  {
    var metadata := d.mediaType + BASE64_SUFFIX;
    var rest := metadata + "," + d.data;
    assert Uri(d) == SCHEME + rest;
    LowerPrefix(rest);
    assert Uri(d)[|SCHEME|..] == rest;
    CommaAfter(metadata, d.data);
    assert rest[..|metadata|] == metadata && rest[|metadata| + 1..] == d.data;
    LowerSuffix(d.mediaType);
    assert metadata[..|metadata| - |BASE64_SUFFIX|] == d.mediaType;
    hide Uri, ToLower, CommaPosition, IsBase64, IsValidMediaType, TrimSpace, HasSuffix;
  }

  lemma DataIsBase64(lib: Library, p: Parsed)
    requires p.isBase64 ==> IsBase64(p.data)
    ensures IsBase64(DataOf(lib, p))
  {
    if !p.isBase64 { EncodeRoundTrip(lib.payloadBytes(p.data)); }
  }

  /** Canonicalization is stable: a content read from a URI prints to a URI that reads back as
      the same content. */
  lemma CanonicalIsStable(lib: Library, uri: string)
    requires FromUri(lib, uri, "").Ok?
    ensures var d := FromUri(lib, uri, "").value;
      && Parse(lib, Uri(d)) == Ok(Parsed(d.data, true, d.mediaType))
      && FromUri(lib, Uri(d), "") == Ok(d)
  {
    var d := FromUri(lib, uri, "").value;
    ParseGivesPlain(lib, uri);
    DataIsBase64(lib, Parse(lib, uri).value);
    PrintParse(lib, d);
  }

  /** With a media type given by the caller the round trip holds exactly for plain ones. */
  lemma OverrideRoundTrip(lib: Library, uri: string, mediaType: string)
    requires FromUri(lib, uri, mediaType).Ok? && mediaType != ""
    ensures var d := FromUri(lib, uri, mediaType).value;
      FromUri(lib, Uri(d), "") == Ok(d) <==> IsPlainMediaType(mediaType)
  {
    var d := FromUri(lib, uri, mediaType).value;
    ParseGivesPlain(lib, uri);
    DataIsBase64(lib, Parse(lib, uri).value);
    PrintParse(lib, d);
    if FromUri(lib, Uri(d), "") == Ok(d) { ParseGivesPlain(lib, Uri(d)); }
  }

  /** The same for reading a content from the URI. */
  lemma ReadsBack(lib: Library, d: DataContent)
    ensures FromUri(lib, Uri(d), "") == Ok(d)
       <==> IsPlainMediaType(d.mediaType) && IsValidMediaType(lib, d.mediaType) && IsBase64(d.data)
    ensures var r := FromUri(lib, Uri(d), "");
      r.Ok? && r.value.mediaType == d.mediaType ==> IsPlainMediaType(d.mediaType) && IsValidMediaType(lib, d.mediaType)
  {
    PrintParse(lib, d);
    assert Uri(d) != "" by { assert |Uri(d)| >= |SCHEME| == 5; }
    hide IsPlainMediaType, Uri, Parse, IsBase64, IsValidMediaType, DataOf;
    if FromUri(lib, Uri(d), "").Ok? {
      ParseGivesPlain(lib, Uri(d));
      DataIsBase64(lib, Parse(lib, Uri(d)).value);
    }
    MarkedData(lib, d);
  }

  lemma MarkedData(lib: Library, d: DataContent)
    ensures DataOf(lib, Parsed(d.data, true, d.mediaType)) == d.data
  {
  }

  /** Raw bytes and their media type come back from the URI made of them exactly for plain valid
      media types. */
  lemma BytesRoundTrip(lib: Library, bytes: seq<Byte>, mediaType: string)
    ensures var r := FromUri(lib, Uri(DataContent(Encode(bytes), mediaType)), "");
      && (r.Ok? && r.value.mediaType == mediaType && Decode(r.value.data) == Some(bytes)
          <==> IsPlainMediaType(mediaType) && IsValidMediaType(lib, mediaType))
      && (IsPlainMediaType(mediaType) && IsValidMediaType(lib, mediaType) ==> TrimmedLength(r.value.data) * 6 / 8 == |bytes|)
  {
    hide *;
    EncodeRoundTrip(bytes);
    ReadsBack(lib, DataContent(Encode(bytes), mediaType));
  }

  /** Trimming takes away all space at both ends and nothing else. */
  lemma {:induction false} TrimsExactly(s: string, t: string)
    ensures t == TrimSpace(s) <==>
      && (t == "" || (!IsSpace(t[0]) && !IsSpace(t[|t| - 1])))
      && exists a, b :: IsFramed(s, a, t, b)
  {
    TrimIsFramed(s);
    hide IsSpace, TrimSpace;
    if (t == "" || (!IsSpace(t[0]) && !IsSpace(t[|t| - 1]))) && exists a, b :: IsFramed(s, a, t, b) {
      var a, b :| IsFramed(s, a, t, b);
      FramedTrims(s, a, t, b);
    }
  }

  ghost predicate IsFramed(s: string, a: string, t: string, b: string) {
    s == a + t + b && (forall c :: c in a ==> IsSpace(c)) && forall c :: c in b ==> IsSpace(c)
  }

  lemma {:induction false} TrimIsFramed(s: string)
    ensures var t := TrimSpace(s);
      (t == "" || (!IsSpace(t[0]) && !IsSpace(t[|t| - 1]))) && exists a, b :: IsFramed(s, a, t, b)
  {
    hide *;
    if s != "" && IsSpace(s[0]) {
      TrimFront(s);
      TrimIsFramed(s[1..]);
      var a, b :| IsFramed(s[1..], a, TrimSpace(s), b);
      FramedFront(s, a, TrimSpace(s), b);
    } else if s != "" && IsSpace(s[|s| - 1]) {
      TrimBack(s);
      TrimIsFramed(s[..|s| - 1]);
      var a, b :| IsFramed(s[..|s| - 1], a, TrimSpace(s), b);
      FramedBack(s, a, TrimSpace(s), b);
    } else {
      TrimDone(s);
      FramedItself(s);
    }
  }

  lemma FramedFront(s: string, a: string, t: string, b: string)
    requires s != "" && IsSpace(s[0]) && IsFramed(s[1..], a, t, b)
    ensures IsFramed(s, [s[0]] + a, t, b)
  {
    hide IsSpace;
    assert s == [s[0]] + s[1..];
  }

  lemma FramedBack(s: string, a: string, t: string, b: string)
    requires s != "" && IsSpace(s[|s| - 1]) && IsFramed(s[..|s| - 1], a, t, b)
    ensures IsFramed(s, a, t, b + [s[|s| - 1]])
  {
    hide IsSpace;
    assert s == s[..|s| - 1] + [s[|s| - 1]];
  }

  lemma FramedItself(s: string)
    ensures IsFramed(s, "", s, "")
  {
  }

  lemma {:induction false} FramedTrims(s: string, a: string, t: string, b: string)
    requires IsFramed(s, a, t, b) && (t == "" || (!IsSpace(t[0]) && !IsSpace(t[|t| - 1])))
    ensures TrimSpace(s) == t
    decreases |a| + |b|
  {
    hide IsSpace, TrimSpace;
    if a != "" {
      assert s[0] == a[0] && a[0] in a;
      assert s[1..] == a[1..] + t + b;
      assert forall c :: c in a[1..] ==> c in a;
      FramedTrims(s[1..], a[1..], t, b);
      TrimFront(s);
    } else if b == "" {
      assert s == t;
      TrimDone(s);
    } else if t == "" {
      assert s == b && s[0] in b && s[1..] == a + t + b[1..];
      assert forall c :: c in b[1..] ==> c in b;
      FramedTrims(s[1..], a, t, b[1..]);
      TrimFront(s);
    } else {
      var n := |b| - 1;
      assert s[|s| - 1] == b[n] && b[n] in b && s[0] == t[0];
      assert s[..|s| - 1] == a + t + b[..n];
      assert forall c :: c in b[..n] ==> c in b;
      FramedTrims(s[..|s| - 1], a, t, b[..n]);
      TrimBack(s);
    }
  }

  lemma TrimFront(s: string)
    requires s != "" && IsSpace(s[0])
    ensures TrimSpace(s) == TrimSpace(s[1..])
  {
    hide IsSpace;
  }

  lemma TrimBack(s: string)
    requires s != "" && !IsSpace(s[0]) && IsSpace(s[|s| - 1])
    ensures TrimSpace(s) == TrimSpace(s[..|s| - 1])
  {
    hide IsSpace;
  }

  lemma TrimDone(s: string)
    requires s == "" || (!IsSpace(s[0]) && !IsSpace(s[|s| - 1]))
    ensures TrimSpace(s) == s
  {
    hide IsSpace;
  }

  // ---------------------------------------------------------------- the grammar

  /** The parts of a data URI: its scheme in any case, a media type, a base64 mark in any case or
      nothing, and what follows the first comma. */
  ghost predicate HasParts(lib: Library, uri: string, p: Parsed, scheme: string, metadata: string, mark: string) {
    && uri == scheme + (metadata + mark + "," + p.data)
    && ToLower(scheme) == "data:" && ',' !in metadata && ',' !in mark
    && (if p.isBase64 then ToLower(mark) == ";base64" && IsBase64(p.data) else mark == "" && !HasSuffix(ToLower(metadata), ";base64"))
    && (if TrimSpace(metadata) == "" then p.mediaType == "text/plain;charset=US-ASCII"
        else p.mediaType == TrimSpace(metadata) && IsValidMediaType(lib, p.mediaType))
  }

  ghost predicate IsDataUri(lib: Library, uri: string, p: Parsed) {
    exists scheme, metadata, mark :: HasParts(lib, uri, p, scheme, metadata, mark)
  }

  lemma LowerSplit(a: string, b: string)
    ensures ToLower(a + b) == ToLower(a) + ToLower(b)
  {
  }

  lemma MediaTypeIs(lib: Library, metadata: string, mediaType: string)
    ensures MediaTypeOf(lib, metadata) == Ok(mediaType) <==>
      if TrimSpace(metadata) == "" then mediaType == "text/plain;charset=US-ASCII"
      else mediaType == TrimSpace(metadata) && IsValidMediaType(lib, mediaType)
  {
    hide TrimSpace;
  }

  /** The parser accepts exactly the data URIs, and gives their parts. */
  lemma ParsesExactly(lib: Library, uri: string, p: Parsed)
    ensures Parse(lib, uri) == Ok(p) <==> IsDataUri(lib, uri, p)
  {
    if Parse(lib, uri) == Ok(p) { ParsedHasParts(lib, uri, p); }
    hide Parse, HasParts;
    if scheme, metadata, mark :| HasParts(lib, uri, p, scheme, metadata, mark) { PartsParse(lib, uri, p, scheme, metadata, mark); }
  }

  lemma ParsedHasParts(lib: Library, uri: string, p: Parsed)
    requires Parse(lib, uri) == Ok(p)
    ensures IsDataUri(lib, uri, p)
  {
    hide *;
    var metadata, cut := Decomposed(lib, uri, p);
    var scheme, m, mark := uri[..5], metadata[..cut], metadata[cut..];
    assert metadata == m + mark;
    assert ',' !in m && ',' !in mark;
    CutMark(metadata, cut);
    MediaTypeIs(lib, m, p.mediaType);
    PartsAre(lib, uri, p, scheme, m, mark);
  }

  /** What the parser takes apart. */
  lemma Decomposed(lib: Library, uri: string, p: Parsed) returns (metadata: string, cut: nat)
    requires Parse(lib, uri) == Ok(p)
    ensures |uri| >= 5 && ToLower(uri[..5]) == "data:" && uri == uri[..5] + (metadata + "," + p.data)
    ensures ',' !in metadata && cut <= |metadata| && MediaTypeOf(lib, metadata[..cut]) == Ok(p.mediaType)
    ensures p.isBase64 == HasSuffix(ToLower(metadata), ";base64") && (p.isBase64 ==> IsBase64(p.data))
    ensures cut == if p.isBase64 then |metadata| - 7 else |metadata|
  {
    hide *;
    ParseOrder(lib, uri);
    var rest := uri[5..];
    CommaIsFirst(rest);
    var comma := CommaPosition(rest);
    metadata, cut := ParsedParts(lib, uri, p);
    assert uri == uri[..5] + rest && rest == metadata + "," + rest[comma + 1..];
  }

  lemma ParsedParts(lib: Library, uri: string, p: Parsed) returns (metadata: string, cut: nat)
    requires Parse(lib, uri) == Ok(p)
    ensures |uri| >= 5 && CommaPosition(uri[5..]) < |uri[5..]|
    ensures metadata == uri[5..][..CommaPosition(uri[5..])] && p.data == uri[5..][CommaPosition(uri[5..]) + 1..]
    ensures cut <= |metadata| && MediaTypeOf(lib, metadata[..cut]) == Ok(p.mediaType)
    ensures p.isBase64 == HasSuffix(ToLower(metadata), ";base64") && (p.isBase64 ==> IsBase64(p.data))
    ensures cut == if p.isBase64 then |metadata| - 7 else |metadata|
  {
    SchemeIs(uri);
    hide IsBase64, MediaTypeOf, CommaPosition;
    metadata := uri[5..][..CommaPosition(uri[5..])];
    cut := if p.isBase64 then |metadata| - 7 else |metadata|;
    assert !p.isBase64 ==> metadata[..cut] == metadata;
  }

  lemma CutMark(metadata: string, cut: nat)
    requires cut <= |metadata| && ((HasSuffix(ToLower(metadata), ";base64") && cut == |metadata| - 7) || cut == |metadata|)
    ensures cut == |metadata| - 7 ==> ToLower(metadata[cut..]) == ";base64"
    ensures cut == |metadata| ==> metadata[cut..] == "" && metadata[..cut] == metadata
  {
    assert ToLower(metadata[cut..]) == ToLower(metadata)[cut..];
  }

  lemma PartsAre(lib: Library, uri: string, p: Parsed, scheme: string, metadata: string, mark: string)
    requires uri == scheme + (metadata + mark + "," + p.data)
    requires ToLower(scheme) == "data:" && ',' !in metadata && ',' !in mark
    requires if p.isBase64 then ToLower(mark) == ";base64" && IsBase64(p.data) else mark == "" && !HasSuffix(ToLower(metadata), ";base64")
    requires if TrimSpace(metadata) == "" then p.mediaType == "text/plain;charset=US-ASCII"
             else p.mediaType == TrimSpace(metadata) && IsValidMediaType(lib, p.mediaType)
    ensures IsDataUri(lib, uri, p)
  {
    assert HasParts(lib, uri, p, scheme, metadata, mark);
  }

  lemma PartsParse(lib: Library, uri: string, p: Parsed, scheme: string, metadata: string, mark: string)
    requires HasParts(lib, uri, p, scheme, metadata, mark)
    ensures Parse(lib, uri) == Ok(p)
  {
    hide TrimSpace, IsBase64, IsValidMediaType, MediaTypeOf;
    var all, rest := metadata + mark, metadata + mark + "," + p.data;
    assert |scheme| == 5 by { assert |ToLower(scheme)| == |scheme|; }
    LowerSplit(scheme, rest);
    assert uri[|SCHEME|..] == rest;
    CommaAfter(all, p.data);
    assert rest[..|all|] == all && rest[|all| + 1..] == p.data;
    LowerSplit(metadata, mark);
    MediaTypeIs(lib, metadata, p.mediaType);
    if p.isBase64 {
      assert |mark| == 7 by { assert |ToLower(mark)| == |mark|; }
      assert ToLower(all)[|all| - 7..] == ToLower(mark);
      assert all[..|all| - 7] == metadata;
    } else {
      assert all == metadata;
    }
    hide ToLower, CommaPosition;
  }

  /** A content can be read from exactly the data URIs, unless a given media type is invalid. Data
      that is not marked as base64 gives the bytes that it escapes. */
  lemma FromUriExactly(lib: Library, uri: string, given: string)
    ensures FromUri(lib, uri, given).Ok? <==> (exists p :: IsDataUri(lib, uri, p)) && (given == "" || IsValidMediaType(lib, given))
    ensures forall p :: IsDataUri(lib, uri, p) && FromUri(lib, uri, given).Ok? ==>
      var d := FromUri(lib, uri, given).value;
      && d.mediaType == (if given != "" then given else p.mediaType)
      && if p.isBase64 then d.data == p.data else IsBase64(d.data) && Decode(d.data) == Some(lib.payloadBytes(p.data))
  {
    hide IsDataUri, IsBase64, Decode, Encode, IsPlainMediaType, Parse, IsValidMediaType;
    forall p ensures Parse(lib, uri) == Ok(p) <==> IsDataUri(lib, uri, p) { ParsesExactly(lib, uri, p); }
    if Parse(lib, uri).Ok? {
      var p := Parse(lib, uri).value;
      assert IsDataUri(lib, uri, p);
      ParseGivesPlain(lib, uri);
      NothingIsNoUri(lib, uri);
      EncodeRoundTrip(lib.payloadBytes(p.data));
    }
  }

  lemma NothingIsNoUri(lib: Library, uri: string)
    requires Parse(lib, uri).Ok?
    ensures uri != ""
  {
  }

  /** The first complaint about what is no data URI: its scheme, a missing comma, data that is marked
      as base64 and is not, or an invalid media type. */
  lemma ErrorsExactly(lib: Library, uri: string)
    ensures Parse(lib, uri) == Err(NotDataUri) <==> |uri| < 5 || ToLower(uri[..5]) != "data:"
    ensures Parse(lib, uri) == Err(NoComma) <==> |uri| >= 5 && ToLower(uri[..5]) == "data:" && ',' !in uri[5..]
    ensures Parse(lib, uri) == Err(BadBase64) <==> exists metadata, data :: HasBadData(uri, metadata, data)
    ensures Parse(lib, uri).Err? ==> Parse(lib, uri).why in {NotDataUri, NoComma, BadBase64, BadMediaType}
  {
    hide *;
    ParseOrder(lib, uri);
    if |uri| >= 5 && ToLower(uri[..5]) == "data:" {
      BadDataIs(lib, uri);
    } else {
      NoBadData(uri);
    }
  }

  lemma ParseOrder(lib: Library, uri: string)
    ensures Parse(lib, uri) == Err(NotDataUri) <==> |uri| < 5 || ToLower(uri[..5]) != "data:"
    ensures Parse(lib, uri) == Err(NoComma) <==> |uri| >= 5 && ToLower(uri[..5]) == "data:" && ',' !in uri[5..]
    ensures Parse(lib, uri).Err? ==> Parse(lib, uri).why in {NotDataUri, NoComma, BadBase64, BadMediaType}
  {
    SchemeIs(uri);
    hide TrimSpace, IsBase64, IsValidMediaType, ToLower, HasSuffix;
    if |uri| >= 5 {
      CommaIsFirst(uri[5..]);
      assert ',' in uri[5..] ==> CommaPosition(uri[5..]) < |uri[5..]|;
    }
    hide CommaPosition, MediaTypeOf;
  }

  lemma SchemeIs(uri: string)
    ensures SCHEME <= ToLower(uri) <==> |uri| >= 5 && ToLower(uri[..5]) == "data:"
  {
    if |uri| >= 5 {
      assert uri == uri[..5] + uri[5..];
      LowerSplit(uri[..5], uri[5..]);
    }
  }

  /** Reading a content complains of nothing at all, then as the parser does, then of the given media
      type. */
  lemma FromUriErrors(lib: Library, uri: string, given: string)
    ensures FromUri(lib, uri, given) == Err(EmptyUri) <==> uri == ""
    ensures uri != "" && Parse(lib, uri).Err? ==> FromUri(lib, uri, given) == Err(Parse(lib, uri).why)
    ensures uri != "" && Parse(lib, uri).Ok? && FromUri(lib, uri, given).Err? ==> FromUri(lib, uri, given) == Err(BadMediaType)
  {
    ParseOrder(lib, uri);
    hide Parse, IsValidMediaType, DataOf;
  }

  ghost predicate HasBadData(uri: string, metadata: string, data: string) {
    && |uri| >= 5 && ToLower(uri[..5]) == "data:" && uri[5..] == metadata + "," + data
    && ',' !in metadata && HasSuffix(ToLower(metadata), ";base64") && !IsBase64(data)
  }

  lemma NoBadData(uri: string)
    requires |uri| < 5 || ToLower(uri[..5]) != "data:"
    ensures forall metadata, data :: !HasBadData(uri, metadata, data)
  {
  }

  lemma BadDataIs(lib: Library, uri: string)
    requires |uri| >= 5 && ToLower(uri[..5]) == "data:"
    ensures Parse(lib, uri) == Err(BadBase64) <==> exists metadata, data :: HasBadData(uri, metadata, data)
  {
    hide TrimSpace, IsBase64, IsValidMediaType;
    SchemeIs(uri);
    var rest := uri[5..];
    var comma := CommaPosition(rest);
    CommaIsFirst(rest);
    if comma < |rest| {
      var m, x := rest[..comma], rest[comma + 1..];
      assert rest == m + "," + x && ',' !in m;
      assert HasBadData(uri, m, x) <==> HasSuffix(ToLower(m), ";base64") && !IsBase64(x);
      forall metadata, data | HasBadData(uri, metadata, data) ensures metadata == m && data == x {
        CommaAfter(metadata, data);
      }
    } else {
      forall metadata, data ensures !HasBadData(uri, metadata, data) {
        if HasBadData(uri, metadata, data) { CommaAfter(metadata, data); }
      }
    }
    hide ToLower, HasSuffix, HasBadData;
  }
}
