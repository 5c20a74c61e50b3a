/** Data URLs (src/backend_ast/builtin_network_api.c:526-676) against section 3 of RFC 2397.
    A C string is the sequence of the bytes before its terminator. */
module DataUrl {
  import opened Bytes
  import PercentCoding
  import Base64
  import opened Wrappers

  /** "data:" */
  const DATA: seq<byte> := [100, 97, 116, 97, 58]
  /** "base64" */
  const BASE64: seq<byte> := [98, 97, 115, 101, 54, 52]
  /** "text/plain" */
  const TEXT_PLAIN: seq<byte> := [116, 101, 120, 116, 47, 112, 108, 97, 105, 110]
  /** "text/plain;charset=US-ASCII" */
  const DEFAULT_TYPE: seq<byte> :=
    TEXT_PLAIN + [59, 99, 104, 97, 114, 115, 101, 116, 61, 85, 83, 45, 65, 83, 67, 73, 73]

  datatype Parsed =
    | Payload(data: seq<byte>, contentType: seq<byte>)
    | NotDataUrl
    | MissingComma
    | InvalidPercent
    | InvalidBase64

  ghost function FirstIndex(s: seq<byte>, c: byte): (k: nat)
    requires c in s
    ensures k < |s| && s[k] == c && c !in s[..k]
  {
    if s[0] == c then 0
    else
      var k := FirstIndex(s[1..], c) + 1;
      assert s[..k] == [s[0]] + s[1..][..k - 1];
      k
  }

  lemma {:induction false} FirstIndexIs(s: seq<byte>, c: byte, k: nat)
    requires k < |s| && s[k] == c && c !in s[..k]
    ensures c in s && FirstIndex(s, c) == k
  {
    if k > 0 {
      assert s[0] == s[..k][0];
      assert s[1..][..k - 1] == s[..k][1..];
      FirstIndexIs(s[1..], c, k - 1);
    }
  }

  // ---- the metadata

  ghost function Split(s: seq<byte>): (tokens: seq<seq<byte>>)
    ensures tokens != []
    decreases |s|
  {
    if SEMICOLON !in s then [s]
    else
      var k := FirstIndex(s, SEMICOLON);
      [s[..k]] + Split(s[k + 1..])
  }

  ghost function Joined(tokens: seq<seq<byte>>): seq<byte> {
    if tokens == [] then []
    else if |tokens| == 1 then tokens[0]
    else Joined(tokens[..|tokens| - 1]) + [SEMICOLON] + tokens[|tokens| - 1]
  }

  predicate IsBase64(token: seq<byte>) {
    AllLower(token) == BASE64
  }

  ghost predicate HasBase64(tokens: seq<seq<byte>>) {
    exists t :: t in tokens && IsBase64(t)
  }

  /** The tokens that describe the media: those that are neither empty nor the base64 mark. */
  ghost function Parts(tokens: seq<seq<byte>>): seq<seq<byte>> {
    if tokens == [] then []
    else
      var t := tokens[|tokens| - 1];
      Parts(tokens[..|tokens| - 1]) + if t == [] || IsBase64(t) then [] else [t]
  }

  /** If the first part names no media type, text/plain stands in front of it. */
  ghost function Media(parts: seq<seq<byte>>): Option<seq<byte>> {
    if parts == [] then None
    else if SLASH in parts[0] then Some(Joined(parts))
    else Some(Joined([TEXT_PLAIN] + parts))
  }

  ghost function ContentType(metadata: seq<byte>): seq<byte> {
    match Media(Parts(Split(metadata)))
    case None => DEFAULT_TYPE
    case Some(m) => m
  }

  lemma JoinedSnoc(tokens: seq<seq<byte>>, t: seq<byte>)
    requires tokens != []
    ensures Joined(tokens + [t]) == Joined(tokens) + [SEMICOLON] + t
  {
    assert (tokens + [t])[..|tokens|] == tokens;
  }

  lemma PartsSnoc(tokens: seq<seq<byte>>, t: seq<byte>)
    ensures Parts(tokens + [t]) == Parts(tokens) + if t == [] || IsBase64(t) then [] else [t]
  {
    assert (tokens + [t])[..|tokens|] == tokens;
  }

  lemma HasBase64Snoc(tokens: seq<seq<byte>>, t: seq<byte>)
    ensures HasBase64(tokens + [t]) <==> HasBase64(tokens) || IsBase64(t)
  {
    hide IsBase64;
    assert t in tokens + [t] && forall u :: u in tokens ==> u in tokens + [t];
  }

  /** One more part. */
  lemma MediaSnoc(parts: seq<seq<byte>>, t: seq<byte>)
    ensures Media(parts + [t]) ==
      match Media(parts)
      case None => (if SLASH in t then Some(t) else Some(TEXT_PLAIN + [SEMICOLON] + t))
      case Some(m) => Some(m + [SEMICOLON] + t)
  {
    if parts == [] {
      assert parts + [t] == [t];
      JoinedSnoc([TEXT_PLAIN], t);
    } else {
      JoinedSnoc(parts, t);
      JoinedSnoc([TEXT_PLAIN] + parts, t);
      assert ([TEXT_PLAIN] + parts) + [t] == [TEXT_PLAIN] + (parts + [t]);
    }
  }

  lemma {:induction false} NoSemicolonInside(s: seq<byte>)
    ensures forall t :: t in Split(s) ==> ';' as int !in t
    decreases |s|
  {
    if SEMICOLON in s { NoSemicolonInside(s[FirstIndex(s, SEMICOLON) + 1..]); }
  }

  lemma {:induction false} JoinedCons(t: seq<byte>, tokens: seq<seq<byte>>)
    requires tokens != []
    ensures Joined([t] + tokens) == t + [SEMICOLON] + Joined(tokens)
  {
    var all := [t] + tokens;
    if |tokens| > 1 {
      JoinedCons(t, tokens[..|tokens| - 1]);
      assert all[..|all| - 1] == [t] + tokens[..|tokens| - 1];
    }
  }

  /** Splitting loses nothing. */
  lemma {:induction false} JoinedSplit(s: seq<byte>)
    ensures Joined(Split(s)) == s
    decreases |s|
  {
    if SEMICOLON in s {
      var k := FirstIndex(s, SEMICOLON);
      JoinedSplit(s[k + 1..]);
      JoinedCons(s[..k], Split(s[k + 1..]));
      assert s == s[..k] + [s[k]] + s[k + 1..];
    }
  }

  /** Splitting cuts at every semicolon and at nothing else. */
  lemma SplitIs(s: seq<byte>)
    ensures Joined(Split(s)) == s && forall t :: t in Split(s) ==> ';' as int !in t
  {
    JoinedSplit(s);
    NoSemicolonInside(s);
    hide Split, Joined;
  }

  lemma {:induction false} AllAreParts(tokens: seq<seq<byte>>)
    requires forall t :: t in tokens ==> t != [] && !IsBase64(t)
    ensures Parts(tokens) == tokens
  {
    hide IsBase64;
    if tokens != [] {
      var front, last := tokens[..|tokens| - 1], tokens[|tokens| - 1];
      assert tokens == front + [last] && last in tokens;
      forall t | t in front
        ensures t != [] && !IsBase64(t)
      {
        assert t in tokens;
      }
      AllAreParts(front);
    }
  }

  /** A media type with its parameters is handed on unchanged. */
  lemma MediaTypeKept(metadata: seq<byte>)
    requires forall t :: t in Split(metadata) ==> t != [] && !IsBase64(t)
    requires SLASH in Split(metadata)[0]
    ensures ContentType(metadata) == metadata
  {
    AllAreParts(Split(metadata));
    JoinedSplit(metadata);
  }

  lemma SplitFirst(head: seq<byte>, rest: seq<byte>)
    requires SEMICOLON !in head
    ensures Split(head + [SEMICOLON] + rest) == [head] + Split(rest) && Split(head) == [head]
  {
    var all := head + [SEMICOLON] + rest;
    assert all[..|head|] == head && all[|head|] == SEMICOLON && all[|head| + 1..] == rest;
    FirstIndexIs(all, SEMICOLON, |head|);
  }

  lemma {:induction false} SplitConcat(s: seq<byte>, t: seq<byte>)
    ensures Split(s + [SEMICOLON] + t) == Split(s) + Split(t)
    decreases |s|
  {
    hide *;
    if SEMICOLON !in s {
      SplitFirst(s, t);
    } else {
      var k := FirstIndex(s, SEMICOLON);
      var head, rest := s[..k], s[k + 1..];
      SplitFirst(head, rest);
      SplitFirst(head, rest + [SEMICOLON] + t);
      SplitConcat(rest, t);
      assert s == head + [SEMICOLON] + rest;
      assert s + [SEMICOLON] + t == head + [SEMICOLON] + (rest + [SEMICOLON] + t);
      assert [head] + (Split(rest) + Split(t)) == ([head] + Split(rest)) + Split(t);
    }
  }

  lemma TheMark()
    ensures IsBase64(BASE64) && SEMICOLON !in BASE64 && COMMA !in BASE64 && 0 !in BASE64
  {
    assert AllLower(BASE64) == BASE64;
  }

  lemma SameParts(metadata: seq<byte>, other: seq<byte>)
    requires Parts(Split(metadata)) == Parts(Split(other))
    ensures ContentType(metadata) == ContentType(other)
  {
  }

  lemma {:induction false} PartsConcat(a: seq<seq<byte>>, b: seq<seq<byte>>)
    ensures Parts(a + b) == Parts(a) + Parts(b)
    decreases |b|
  {
    hide IsBase64;
    if b == [] {
      assert a + b == a && Parts(a) + [] == Parts(a);
    } else {
      var front, last := b[..|b| - 1], b[|b| - 1];
      PartsConcat(a, front);
      assert a + b == (a + front) + [last] && b == front + [last];
      PartsSnoc(a + front, last);
      PartsSnoc(front, last);
      hide Parts;
      var more := if last == [] || IsBase64(last) then [] else [last];
      assert Parts(a) + (Parts(front) + more) == (Parts(a) + Parts(front)) + more;
    }
  }

  lemma HasBase64Concat(a: seq<seq<byte>>, b: seq<seq<byte>>)
    ensures HasBase64(a + b) <==> HasBase64(a) || HasBase64(b)
  {
    hide IsBase64;
    assert forall u :: u in a + b <==> u in a || u in b;
  }

  /** `lower` in small or capital letters, which are those of `upper`. */
  ghost predicate Either(t: seq<byte>, lower: string, upper: string)
    requires |lower| == |upper|
  {
    |t| == |lower| && forall k :: 0 <= k < |t| ==> t[k] as char == lower[k] || t[k] as char == upper[k]
  }

  lemma MarkIs(t: seq<byte>)
    ensures IsBase64(t) <==> Either(t, "base64", "BASE64")
  {
    if |t| == 6 {
      assert AllLower(t) == BASE64 <==> forall k :: 0 <= k < 6 ==> Lower(t[k]) == BASE64[k];
      var lower, upper := "base64", "BASE64";
      assert forall k :: 0 <= k < 6 ==>
        (Lower(t[k]) == BASE64[k] <==> t[k] as char == lower[k] || t[k] as char == upper[k]);
    }
  }

  lemma SchemeIs(s: seq<byte>)
    ensures AllLower(s) == DATA <==> Either(s, "data:", "DATA:")
  {
    if |s| == 5 {
      assert AllLower(s) == DATA <==> forall k :: 0 <= k < 5 ==> Lower(s[k]) == DATA[k];
      var lower, upper := "data:", "DATA:";
      assert forall k :: 0 <= k < 5 ==>
        (Lower(s[k]) == DATA[k] <==> s[k] as char == lower[k] || s[k] as char == upper[k]);
    }
  }

  lemma DroppedToken(m: seq<byte>)
    requires m == [] || Either(m, "base64", "BASE64")
    ensures Split(m) == [m] && Parts([m]) == [] && (HasBase64([m]) <==> m != [])
  {
    MarkIs(m);
    assert !IsBase64([]);
    assert SEMICOLON !in m by { hide IsBase64; }
    assert [m][..0] == [] && Parts([]) == [];
    hide IsBase64;
    assert m in [m];
  }

  /** The base64 mark and empty tokens leave the media type alone wherever they stand, and the mark is seen there. */
  lemma MarkAnywhere(x: seq<byte>, m: seq<byte>, y: seq<byte>)
    requires m == [] || Either(m, "base64", "BASE64")
    ensures var s := [SEMICOLON];
      && ContentType(x + s + m + s + y) == ContentType(x + s + y)
      && ContentType(x + s + m) == ContentType(x) && ContentType(m + s + y) == ContentType(y)
      && (HasBase64(Split(x + s + m + s + y)) <==> m != [] || HasBase64(Split(x + s + y)))
      && (HasBase64(Split(x + s + m)) <==> m != [] || HasBase64(Split(x)))
      && (HasBase64(Split(m + s + y)) <==> m != [] || HasBase64(Split(y)))
  {
    var s := [SEMICOLON];
    var xs, ys := Split(x), Split(y);
    DroppedToken(m);
    hide *;
    SplitConcat(x, m);
    SplitConcat(x + s + m, y);
    SplitConcat(x, y);
    SplitConcat(m, y);
    PartsConcat(xs, [m]);
    PartsConcat(xs + [m], ys);
    PartsConcat(xs, ys);
    PartsConcat([m], ys);
    HasBase64Concat(xs, [m]);
    HasBase64Concat(xs + [m], ys);
    HasBase64Concat(xs, ys);
    HasBase64Concat([m], ys);
    assert Parts(xs) + [] == Parts(xs) && [] + Parts(ys) == Parts(ys);
    SameParts(x + s + m + s + y, x + s + y);
    SameParts(x + s + m, x);
    SameParts(m + s + y, y);
  }

  /** The base64 mark at the end is seen, and the media type is what it was without it. */
  lemma MarkedBase64(metadata: seq<byte>)
    ensures HasBase64(Split(metadata + [SEMICOLON] + BASE64))
    ensures ContentType(metadata + [SEMICOLON] + BASE64) == ContentType(metadata)
  {
    TheMark();
    MarkIs(BASE64);
    assert BASE64 != [];
    hide *;
    MarkAnywhere(metadata, BASE64, []);
  }

  /** Parameters without a media type are those of text/plain. */
  lemma ParametersOnly(metadata: seq<byte>)
    requires forall t :: t in Split(metadata) ==> t != [] && !Either(t, "base64", "BASE64")
    requires '/' as int !in Split(metadata)[0]
    ensures ContentType(metadata) == Ascii("text/plain;") + metadata
  {
    forall t | t in Split(metadata)
      ensures t != [] && !IsBase64(t)
    {
      MarkIs(t);
    }
    AllAreParts(Split(metadata));
    JoinedSplit(metadata);
    JoinedCons(TEXT_PLAIN, Split(metadata));
    assert Ascii("text/plain;") == TEXT_PLAIN + [SEMICOLON];
    hide Split, Joined;
  }

  /** Without either it is plain ASCII text. */
  lemma NothingSaid(m: seq<byte>)
    requires m == [] || Either(m, "base64", "BASE64")
    ensures ContentType(m) == Ascii("text/plain;charset=US-ASCII")
  {
    DroppedToken(m);
    assert Ascii("text/plain;charset=US-ASCII") == DEFAULT_TYPE;
    hide Split, Parts;
  }

  // ---- the whole URL

  ghost function Data(data: seq<byte>, base64: bool, contentType: seq<byte>): Parsed {
    match PercentCoding.Decoded(data)
    case None => InvalidPercent
    case Some(text) =>
      if !base64 then Payload(text, contentType)
      else if Base64.Decoded(text).Decoding? then Payload(Base64.Decoded(text).bytes, contentType)
      else InvalidBase64
  }

  ghost function Meaning(url: seq<byte>): Parsed {
    if |url| < 5 || AllLower(url[..5]) != DATA then NotDataUrl
    else if COMMA !in url[5..] then MissingComma
    else
      var rest := url[5..];
      var k := FirstIndex(rest, COMMA);
      Data(rest[k + 1..], HasBase64(Split(rest[..k])), ContentType(rest[..k]))
  }

  lemma MeaningOf(scheme: seq<byte>, metadata: seq<byte>, data: seq<byte>)
    requires AllLower(scheme) == DATA && COMMA !in metadata
    ensures Meaning(scheme + metadata + [COMMA] + data) ==
      Data(data, HasBase64(Split(metadata)), ContentType(metadata))
  {
    var url := scheme + metadata + [COMMA] + data;
    var rest := metadata + [COMMA] + data;
    hide Data, Split, HasBase64, ContentType;
    assert url[..5] == scheme && url[5..] == rest;
    assert rest[..|metadata|] == metadata && rest[|metadata|] == COMMA && rest[|metadata| + 1..] == data;
    FirstIndexIs(rest, COMMA, |metadata|);
  }

  lemma SchemeHasNoZero(scheme: seq<byte>)
    requires AllLower(scheme) == DATA
    ensures 0 !in scheme
  {
    forall k | 0 <= k < |scheme|
      ensures scheme[k] != 0
    {
      assert Lower(scheme[k]) == DATA[k];
    }
  }

  lemma Base64Data(bs: seq<byte>, text: seq<byte>, urlAlphabet: bool, keep: byte -> bool, upper: bool,
                   contentType: seq<byte>)
    requires Base64.Stripped(text) == Base64.Encoded(bs, urlAlphabet)
    ensures Data(PercentCoding.Encoded(text, keep, upper), true, contentType) == Payload(bs, contentType)
  {
    PercentCoding.PercentRoundTrip(text, keep, upper);
    Base64.Base64RoundTrip(bs, urlAlphabet, text);
    hide Base64.Decoded, PercentCoding.Decoded, PercentCoding.Encoded;
  }

  /** Base64 in either alphabet, whitespace anywhere in it, any bytes escaped, any media type: the bytes come back.
      The URL is a C string, that is, it holds no zero byte, if the metadata is. */
  lemma Base64UrlRoundTrip(scheme: seq<byte>, metadata: seq<byte>, bs: seq<byte>, text: seq<byte>,
                           urlAlphabet: bool, keep: byte -> bool, upper: bool)
    requires AllLower(scheme) == DATA && COMMA !in metadata
    requires Base64.Stripped(text) == Base64.Encoded(bs, urlAlphabet)
    ensures var url := scheme + (metadata + [SEMICOLON] + BASE64) + [COMMA] + PercentCoding.Encoded(text, keep, upper);
      Meaning(url) == Payload(bs, ContentType(metadata)) && (0 !in metadata ==> 0 !in url)
  {
    assert SEMICOLON != COMMA && SEMICOLON != 0 && COMMA != 0;
    hide *;
    TheMark();
    MeaningOf(scheme, metadata + [SEMICOLON] + BASE64, PercentCoding.Encoded(text, keep, upper));
    MarkedBase64(metadata);
    Base64Data(bs, text, urlAlphabet, keep, upper, ContentType(metadata));
    SchemeHasNoZero(scheme);
    Base64.EncodedTextHasNoZero(bs, urlAlphabet, text);
    PercentCoding.EncodedHasNoZero(text, keep, upper);
  }

  /** Percent-encoded bytes come back.  The URL is a C string if the metadata is and no zero byte is left unescaped. */
  lemma PlainUrlRoundTrip(scheme: seq<byte>, metadata: seq<byte>, bs: seq<byte>, keep: byte -> bool, upper: bool)
    requires AllLower(scheme) == DATA && COMMA !in metadata && !HasBase64(Split(metadata))
    ensures var url := scheme + metadata + [COMMA] + PercentCoding.Encoded(bs, keep, upper);
      Meaning(url) == Payload(bs, ContentType(metadata)) && (0 !in metadata && !keep(0) ==> 0 !in url)
  {
    MeaningOf(scheme, metadata, PercentCoding.Encoded(bs, keep, upper));
    PercentCoding.PercentRoundTrip(bs, keep, upper);
    SchemeHasNoZero(scheme);
    if !keep(0) { PercentCoding.EncodedHasNoZero(bs, keep, upper); }
    hide Meaning, Split, HasBase64, ContentType;
  }

  lemma CommaIs(url: seq<byte>, k: nat)
    requires 5 <= k < |url| && url[k] as char == ','
    requires forall j :: 5 <= j < k ==> url[j] as char != ','
    ensures var rest := url[5..]; COMMA in rest && FirstIndex(rest, COMMA) == k - 5
    ensures url[5..][..k - 5] == url[5..k] && url[5..][k - 5 + 1..] == url[k + 1..]
  {
    var rest := url[5..];
    assert rest[k - 5] == url[k] && COMMA !in rest[..k - 5];
    FirstIndexIs(rest, COMMA, k - 5);
  }

  /** When a URL is refused, and for what. */
  lemma Refused(url: seq<byte>)
    ensures Meaning(url) == NotDataUrl <==> |url| < 5 || !Either(url[..5], "data:", "DATA:")
    ensures Meaning(url) == MissingComma <==>
      |url| >= 5 && Either(url[..5], "data:", "DATA:") && forall k :: 5 <= k < |url| ==> url[k] as char != ','
  {
    if |url| >= 5 {
      SchemeIs(url[..5]);
      assert forall k :: 5 <= k < |url| ==> url[k] == url[5..][k - 5];
    }
    hide Data, Split, HasBase64, ContentType, Either;
  }

  /** What stands behind the first comma decides the rest. */
  lemma RefusedData(url: seq<byte>, k: nat)
    requires 5 <= k < |url| && Either(url[..5], "data:", "DATA:") && url[k] as char == ','
    requires forall j :: 5 <= j < k ==> url[j] as char != ','
    ensures var marked := exists t :: t in Split(url[5..k]) && Either(t, "base64", "BASE64");
      var text := PercentCoding.Decoded(url[k + 1..]);
      && (Meaning(url) == InvalidPercent <==> text == None)
      && (Meaning(url) == InvalidBase64 <==> marked && text.Some? && !Base64.Decoded(text.value).Decoding?)
      && (text.Some? && !marked ==> Meaning(url) == Payload(text.value, ContentType(url[5..k])))
      && (text.Some? && marked && Base64.Decoded(text.value).Decoding? ==>
            Meaning(url) == Payload(Base64.Decoded(text.value).bytes, ContentType(url[5..k])))
  {
    SchemeIs(url[..5]);
    CommaIs(url, k);
    MarkedIs(url[5..k]);
    hide Split, HasBase64, ContentType, Either, PercentCoding.Decoded, Base64.Decoded, FirstIndex;
  }

  lemma MarkedIs(metadata: seq<byte>)
    ensures HasBase64(Split(metadata)) <==> exists t :: t in Split(metadata) && Either(t, "base64", "BASE64")
  {
    forall t
      ensures IsBase64(t) <==> Either(t, "base64", "BASE64")
    {
      MarkIs(t);
    }
    hide IsBase64, Split, Either;
  }

  // ---- the code

  method FindByte(s: seq<byte>, from: nat, c: byte) returns (k: nat)
    requires from <= |s|
    ensures from <= k <= |s| && c !in s[from..k] && (k < |s| ==> s[k] == c)
  {
    k := from;
    while k < |s| && s[k] != c
      invariant from <= k <= |s| && c !in s[from..k]
    {
      k := k + 1;
    }
  }

  lemma SplitFrom(s: seq<byte>, from: nat, k: nat)
    requires from <= k <= |s| && SEMICOLON !in s[from..k] && (k < |s| ==> s[k] == SEMICOLON)
    ensures k == |s| ==> Split(s[from..]) == [s[from..k]]
    ensures k < |s| ==> Split(s[from..]) == [s[from..k]] + Split(s[k + 1..])
  {
    var rest := s[from..];
    if k == |s| {
      assert s[from..k] == rest;
    } else {
      assert rest[..k - from] == s[from..k] && rest[k - from + 1..] == s[k + 1..];
      FirstIndexIs(rest, SEMICOLON, k - from);
    }
  }

  /** What the loop has gathered from the tokens before the cursor. */
  ghost predicate Gathered(tokens: seq<seq<byte>>, base64: bool, contentType: Option<seq<byte>>) {
    base64 == HasBase64(tokens) && contentType == Media(Parts(tokens))
  }

  method TakeToken(token: seq<byte>, base64: bool, contentType: Option<seq<byte>>, ghost tokens: seq<seq<byte>>)
    returns (base64': bool, contentType': Option<seq<byte>>)
    requires Gathered(tokens, base64, contentType)
    ensures Gathered(tokens + [token], base64', contentType')
  {
    base64', contentType' := base64, contentType;
    PartsSnoc(tokens, token);
    HasBase64Snoc(tokens, token);
    MediaSnoc(Parts(tokens), token);
    assert IsBase64([]) == false;
    hide Parts, HasBase64, Media, IsBase64, Joined;
    assert Parts(tokens) + [] == Parts(tokens);
    if |token| > 0 {
      if IsBase64(token) {
        base64' := true;
      } else if contentType'.None? && SLASH in token {
        contentType' := Some(token);
      } else {
        if contentType'.None? {
          contentType' := Some(TEXT_PLAIN);
        }
        contentType' := Some(contentType'.value + [SEMICOLON] + token);
      }
    }
  }

  method ParseMetadata(metadata: seq<byte>) returns (base64: bool, contentType: seq<byte>)
    ensures base64 == HasBase64(Split(metadata)) && contentType == ContentType(metadata)
  {
    hide Split, Gathered, HasBase64, Parts, Media;
    var cursor: nat := 0;
    var gathered: Option<seq<byte>>;
    base64, gathered := false, None;
    NothingGathered();
    ghost var done: seq<seq<byte>> := [];
    assert metadata[0..] == metadata;
    while true
      invariant cursor <= |metadata| && done + Split(metadata[cursor..]) == Split(metadata)
      invariant Gathered(done, base64, gathered)
      decreases |metadata| - cursor
    {
      var next := FindByte(metadata, cursor, SEMICOLON);
      SplitFrom(metadata, cursor, next);
      var token := metadata[cursor..next];
      base64, gathered := TakeToken(token, base64, gathered, done);
      done := done + [token];
      if next == |metadata| {
        break;
      }
      cursor := next + 1;
    }
    AllGathered(metadata, base64, gathered);
    contentType := match gathered case None => DEFAULT_TYPE case Some(m) => m;
  }

  lemma NothingGathered()
    ensures Gathered([], false, None)
  {
  }

  lemma AllGathered(metadata: seq<byte>, base64: bool, gathered: Option<seq<byte>>)
    requires Gathered(Split(metadata), base64, gathered)
    ensures base64 == HasBase64(Split(metadata))
    ensures ContentType(metadata) == match gathered case None => DEFAULT_TYPE case Some(m) => m
  {
  }

  method DecodeData(data: seq<byte>, base64: bool, contentType: seq<byte>) returns (r: Parsed)
    ensures r == Data(data, base64, contentType)
  {
    var rc, percent, percentLen := PercentCoding.DecodePercentEncoded(data);
    if rc != 0 {
      return InvalidPercent;
    }
    if !base64 {
      return Payload(percent[..percentLen], contentType);
    }
    var rc64, final, finalLen := Base64.Base64DecodeBuffer(percent[..percentLen]);
    if rc64 != 0 {
      return InvalidBase64;
    }
    return Payload(final[..finalLen], contentType);
  }

  method ParseDataUrl(url: seq<byte>) returns (r: Parsed)
    ensures r == Meaning(url)
  {
    hide Data, Split, HasBase64, ContentType;
    if |url| < 5 || AllLower(url[..5]) != DATA {
      return NotDataUrl;
    }
    var comma := FindByte(url, 5, COMMA);
    if comma == |url| {
      assert url[5..comma] == url[5..];
      return MissingComma;
    }
    ghost var rest := url[5..];
    assert rest[..comma - 5] == url[5..comma] && rest[comma - 5 + 1..] == url[comma + 1..];
    FirstIndexIs(rest, COMMA, comma - 5);
    var base64, contentType := ParseMetadata(url[5..comma]);
    r := DecodeData(url[comma + 1..], base64, contentType);
  }
}
