/** The transport client: the URLs it requests and how it classifies what the
    HTTP getter hands back. The getter itself, the JSON decoder and the table of
    status texts are parameters. */
module Client {
  import opened Data
  import opened Text

  const ListEndpoint := "https://photoslibrary.googleapis.com/v1/mediaItems"
  const PageSize := "25"
  const StatusOK := 200

  /** What the getter returns: a response (status code and body), or an error
      that may come with a body. */
  datatype Reply = Response(statusCode: int, body: Bytes) | GetterError(err: Error, errorBody: Option<Bytes>)

  /** `buildURL`: the download variant of a base URL, "=dv" for videos and "=d"
      for everything else. */
  function BuildURL(mimeType: string, baseURL: string): (r: string)
    ensures (exists i: nat :: OccursAt(mimeType, "video", i)) ==> r == baseURL + "=dv"
    ensures (forall i: nat :: !OccursAt(mimeType, "video", i)) ==> r == baseURL + "=d"
  {
    ContainsIff(mimeType, "video");
    if Contains(mimeType, "video") then baseURL + "=dv" else baseURL + "=d"
  }

  /** The two mime types of the repository's tests. */
  lemma BuildURLExamples()
    ensures BuildURL("video/mpeg", "https://base/videourl") == "https://base/videourl=dv"
    ensures BuildURL("image/jpeg", "https://base/url") == "https://base/url=d"
  {
    assert OccursAt("video/mpeg", "video", 0);
    forall i: nat ensures !OccursAt("image/jpeg", "video", i) {
      if i + 5 <= 10 {
        assert "image/jpeg"[i..i + 5][0] == "image/jpeg"[i] != 'v';
      }
    }
  }

  /** The characters `url.QueryEscape` leaves alone. */
  predicate Unreserved(c: char)
  {
    ('A' <= c <= 'Z') || ('a' <= c <= 'z') || ('0' <= c <= '9') || c == '-' || c == '_' || c == '.' || c == '~'
  }

  /** The UTF-8 encoding of one character, as byte values. */
  function Utf8(c: char): (bytes: seq<nat>)
    ensures 1 <= |bytes| <= 4
    ensures forall i :: 0 <= i < |bytes| ==> bytes[i] < 256
  {
    var n := c as int;
    if n < 0x80 then [n]
    else if n < 0x800 then [0xC0 + n / 64, 0x80 + n % 64]
    else if n < 0x10000 then [0xE0 + n / 4096, 0x80 + (n / 64) % 64, 0x80 + n % 64]
    else [0xF0 + n / 262144, 0x80 + (n / 4096) % 64, 0x80 + (n / 64) % 64, 0x80 + n % 64]
  }

  /** An upper-case hexadecimal digit. */
  function HexDigit(n: nat): (c: char)
    requires n < 16
    ensures ('0' <= c <= '9') || ('A' <= c <= 'F')
  {
    if n < 10 then (n + '0' as int) as char else (n - 10 + 'A' as int) as char
  }

  /** Each byte as '%' and two upper-case hexadecimal digits. */
  function PercentEncode(bytes: seq<nat>): (s: string)
    requires forall i :: 0 <= i < |bytes| ==> bytes[i] < 256
    ensures |s| == 3 * |bytes|
  {
    if bytes == [] then []
    else ['%', HexDigit(bytes[0] / 16), HexDigit(bytes[0] % 16)] + PercentEncode(bytes[1..])
  }

  function EscapeChar(c: char): string
  {
    if Unreserved(c) then [c] else if c == ' ' then "+" else PercentEncode(Utf8(c))
  }

  /** `url.QueryEscape`. */
  function QueryEscape(s: string): string
  {
    if s == [] then [] else EscapeChar(s[0]) + QueryEscape(s[1..])
  }

  /** The query string of a List request, as `url.Values.Encode` writes it: keys
      in sorted order, so `pageSize` always comes first. */
  function ListQuery(nextPageToken: string): string
  {
    "pageSize=" + QueryEscape(PageSize)
      + (if nextPageToken != "" then "&pageToken=" + QueryEscape(nextPageToken) else "")
  }

  function ListURL(nextPageToken: string): string
  {
    ListEndpoint + "?" + ListQuery(nextPageToken)
  }

  /** `Client.List`: the getter is asked for `ListURL(nextPageToken)`; its error
      is passed on unchanged whether or not a body came with it; a status other
      than 200 is an error naming the code and its status text; a 200 body is
      decoded into the page. */
  function List(nextPageToken: string, getter: string -> Reply, decode: Bytes -> Result<MediaResponse>,
                statusText: int -> string): (r: Result<MediaResponse>)
    ensures var reply := getter(ListURL(nextPageToken));
      && (r.Ok? <==> reply.Response? && reply.statusCode == StatusOK && decode(reply.body).Ok?)
      && (r.Ok? ==> r.value == decode(reply.body).value)
      && (reply.GetterError? ==> r == Fail(reply.err))
      && (reply.Response? && reply.statusCode != StatusOK ==>
            r == Fail(Plain("list call returned: " + IntToString(reply.statusCode) + ":" + statusText(reply.statusCode))))
      && (reply.Response? && reply.statusCode == StatusOK ==> r == decode(reply.body))
  {
    match getter(ListURL(nextPageToken))
    case GetterError(err, _) => Fail(err)
    case Response(code, body) =>
      if code != StatusOK then
        Fail(Plain("list call returned: " + IntToString(code) + ":" + statusText(code)))
      else
        decode(body)
  }

  /** `Client.Get`: the getter is asked for the item's download URL; its error
      is wrapped with the item id; a status other than 200 is an error and no
      bytes; a 200 body is returned unchanged. */
  function Get(mediaItem: MediaItem, getter: string -> Reply, statusText: int -> string): (r: Result<Bytes>)
    ensures var reply := getter(BuildURL(mediaItem.mimeType, mediaItem.baseUrl));
      && (r.Ok? <==> reply.Response? && reply.statusCode == StatusOK)
      && (r.Ok? ==> r.value == reply.body)
      && (reply.GetterError? ==> r == Fail(Plain("failed to get (" + mediaItem.id + "): " + reply.err.message)))
      && (reply.Response? && reply.statusCode != StatusOK ==>
            r == Fail(Plain("list call returned: " + IntToString(reply.statusCode) + ":" + statusText(reply.statusCode))))
  {
    match getter(BuildURL(mediaItem.mimeType, mediaItem.baseUrl))
    case GetterError(err, _) => Fail(Plain("failed to get (" + mediaItem.id + "): " + err.message))
    case Response(code, body) =>
      if code != StatusOK then
        Fail(Plain("list call returned: " + IntToString(code) + ":" + statusText(code)))
      else
        Ok(body)
  }

  /** `strings.Split(s, string(sep))`. */
  function Split(s: string, sep: char): (parts: seq<string>)
    ensures |parts| >= 1
  {
    if s == [] then [""]
    else
      var rest := Split(s[1..], sep);
      if s[0] == sep then [""] + rest else [[s[0]] + rest[0]] + rest[1..]
  }

  /** The value of the first `key=value` field of a list of query fields. */
  function FieldValue(fields: seq<string>, key: string): Option<string>
  {
    if fields == [] then None
    else if |key| + 1 <= |fields[0]| && fields[0][..|key| + 1] == key + "=" then Some(fields[0][|key| + 1..])
    else FieldValue(fields[1..], key)
  }

  /** How a server reads a parameter out of a query string. */
  function QueryParam(query: string, key: string): Option<string>
  {
    FieldValue(Split(query, '&'), key)
  }

  lemma {:induction false} SplitNoSep(s: string, sep: char)
    requires sep !in s
    ensures Split(s, sep) == [s]
  {
    if s != [] {
      assert sep !in s[1..];
      SplitNoSep(s[1..], sep);
      assert [s[0]] + s[1..] == s;
    }
  }

  lemma {:induction false} SplitAt(a: string, sep: char, b: string)
    requires sep !in a
    ensures Split(a + [sep] + b, sep) == [a] + Split(b, sep)
  {
    if a != [] {
      assert (a + [sep] + b)[1..] == a[1..] + [sep] + b;
      assert sep !in a[1..];
      SplitAt(a[1..], sep, b);
      assert [a[0]] + a[1..] == a;
    } else {
      assert (a + [sep] + b)[1..] == b;
    }
  }

  /** Escaping leaves tokens made of unreserved characters as they are. */
  lemma {:induction false} QueryEscapeUnreserved(s: string)
    requires forall i :: 0 <= i < |s| ==> Unreserved(s[i])
    ensures QueryEscape(s) == s
  {
    if s != [] {
      QueryEscapeUnreserved(s[1..]);
    }
  }

  lemma {:induction false} PercentEncodeNoSeparators(bytes: seq<nat>)
    requires forall i :: 0 <= i < |bytes| ==> bytes[i] < 256
    ensures '&' !in PercentEncode(bytes) && '=' !in PercentEncode(bytes)
  {
    if bytes != [] {
      PercentEncodeNoSeparators(bytes[1..]);
    }
  }

  /** An escaped value never contains the separators of a query string. */
  lemma {:induction false} QueryEscapeNoSeparators(s: string)
    ensures '&' !in QueryEscape(s) && '=' !in QueryEscape(s)
  {
    if s != [] {
      QueryEscapeNoSeparators(s[1..]);
      if !Unreserved(s[0]) && s[0] != ' ' {
        PercentEncodeNoSeparators(Utf8(s[0]));
      }
    }
  }

  lemma FieldValueMatch(field: string, key: string, rest: seq<string>)
    requires |key| + 1 <= |field| && field[..|key| + 1] == key + "="
    ensures FieldValue([field] + rest, key) == Some(field[|key| + 1..])
  {
  }

  lemma FieldValueSkip(field: string, key: string, rest: seq<string>)
    requires !(|key| + 1 <= |field| && field[..|key| + 1] == key + "=")
    ensures FieldValue([field] + rest, key) == FieldValue(rest, key)
  {
    assert ([field] + rest)[1..] == rest;
  }

  lemma SplitTwo(a: string, sep: char, b: string)
    requires sep !in a && sep !in b
    ensures Split(a + [sep] + b, sep) == [a, b]
  {
    SplitAt(a, sep, b);
    SplitNoSep(b, sep);
  }

  lemma ListQueryFieldsNoToken()
    ensures Split(ListQuery(""), '&') == ["pageSize=" + PageSize]
  {
    QueryEscapeUnreserved(PageSize);
    assert ListQuery("") == "pageSize=" + PageSize;
    SplitNoSep("pageSize=" + PageSize, '&');
  }

  lemma ListQueryFieldsToken(nextPageToken: string)
    requires nextPageToken != ""
    ensures Split(ListQuery(nextPageToken), '&') == ["pageSize=" + PageSize, "pageToken=" + QueryEscape(nextPageToken)]
  {
    QueryEscapeUnreserved(PageSize);
    QueryEscapeNoSeparators(nextPageToken);
    assert ListQuery(nextPageToken) == ("pageSize=" + PageSize) + ['&'] + ("pageToken=" + QueryEscape(nextPageToken));
    SplitTwo("pageSize=" + PageSize, '&', "pageToken=" + QueryEscape(nextPageToken));
  }

  /** The List request carries `pageSize=25` always, and `pageToken=<token>`
      exactly when the token is not empty; nothing else. */
  lemma ListQueryParams(nextPageToken: string)
    ensures QueryParam(ListQuery(nextPageToken), "pageSize") == Some(PageSize)
    ensures QueryParam(ListQuery(nextPageToken), "pageToken")
         == if nextPageToken == "" then None else Some(QueryEscape(nextPageToken))
    ensures |Split(ListQuery(nextPageToken), '&')| == if nextPageToken == "" then 1 else 2
  {
    var first := "pageSize=" + PageSize;
    assert first[..9] == "pageSize" + "=";
    assert first[9..] == PageSize;
    assert !(first[..10] == "pageToken" + "=") by {
      assert first[..10][4] == 'S';
    }
    if nextPageToken == "" {
      ListQueryFieldsNoToken();
      FieldValueMatch(first, "pageSize", []);
      FieldValueSkip(first, "pageToken", []);
      assert [first] + [] == [first];
    } else {
      ListQueryFieldsToken(nextPageToken);
      var second := "pageToken=" + QueryEscape(nextPageToken);
      assert second[..10] == "pageToken" + "=";
      assert second[10..] == QueryEscape(nextPageToken);
      FieldValueMatch(first, "pageSize", [second]);
      FieldValueSkip(first, "pageToken", [second]);
      FieldValueMatch(second, "pageToken", []);
      assert [first] + [second] == [first, second];
      assert [second] + [] == [second];
    }
  }

  /** The request URL of the repository's test without a token. */
  lemma ListURLExampleNoToken()
    ensures ListURL("") == "https://photoslibrary.googleapis.com/v1/mediaItems?pageSize=25"
  {
    QueryEscapeUnreserved(PageSize);
    assert ListQuery("") == "pageSize=" + PageSize;
  }

  /** A token made of unreserved characters is appended to the URL as it is. */
  lemma ListURLUnreservedToken(token: string)
    requires token != "" && forall i :: 0 <= i < |token| ==> Unreserved(token[i])
    ensures ListURL(token) == ListURL("") + "&pageToken=" + token
  {
    QueryEscapeUnreserved(PageSize);
    QueryEscapeUnreserved(token);
    assert ListQuery(token) == ListQuery("") + ("&pageToken=" + token);
  }
}
