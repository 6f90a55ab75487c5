/** The hand-off into the Customizer: `build_customizer_url` with the
    `add_query_arg` and `urlencode` it relies on, and `customizer_redirect`. */
module CustomizerUrl {
  import opened PhpValues
  import opened Posts

  type Byte = x: int | 0 <= x < 256

  /* ---- UTF-8, as PHP strings hold text ---- */

  /** The UTF-8 bytes of one character. */
  function Utf8(c: char): (bs: seq<Byte>)
    ensures 1 <= |bs| <= 4
    ensures c as int < 128 ==> bs == [c as int]
    ensures c as int >= 128 ==> forall i :: 0 <= i < |bs| ==> bs[i] >= 128
  {
    var n := c as int;
    if n < 0x80 then [n]
    else if n < 0x800 then [0xC0 + n / 0x40, 0x80 + n % 0x40]
    else if n < 0x10000 then [0xE0 + n / 0x1000, 0x80 + (n / 0x40) % 0x40, 0x80 + n % 0x40]
    else [0xF0 + n / 0x40000, 0x80 + (n / 0x1000) % 0x40, 0x80 + (n / 0x40) % 0x40, 0x80 + n % 0x40]
  }

  function Utf8String(s: string): seq<Byte> {
    if |s| == 0 then [] else Utf8(s[0]) + Utf8String(s[1..])
  }

  /* ---- urlencode / urldecode ---- */

  /** The bytes `urlencode` leaves alone: letters, digits, `-`, `_` and `.`. */
  predicate Unreserved(b: Byte) {
    || ('A' as int <= b <= 'Z' as int)
    || ('a' as int <= b <= 'z' as int)
    || ('0' as int <= b <= '9' as int)
    || b == '-' as int || b == '_' as int || b == '.' as int
  }

  predicate UnreservedChar(c: char) {
    c as int < 256 && Unreserved(c as int)
  }

  /** The characters an encoded value can contain. None of them is `&`,
      `=`, `#`, `?` or a space, so an encoded value cannot break the query. */
  predicate EncodedChar(c: char) {
    UnreservedChar(c) || c == '+' || c == '%'
  }

  const HexDigits: string := "0123456789ABCDEF"

  predicate IsHex(c: char) {
    ('0' <= c <= '9') || ('A' <= c <= 'F') || ('a' <= c <= 'f')
  }

  function HexValue(c: char): (d: int)
    requires IsHex(c)
    ensures 0 <= d < 16
  {
    if '0' <= c <= '9' then c as int - '0' as int
    else if 'A' <= c <= 'F' then c as int - 'A' as int + 10
    else c as int - 'a' as int + 10
  }

  lemma HexDigitValue(d: int)
    requires 0 <= d < 16
    ensures IsHex(HexDigits[d]) && HexValue(HexDigits[d]) == d
    ensures UnreservedChar(HexDigits[d])
  {
  }

  /** `urlencode` of one byte: kept, `+` for a space, or `%` and two upper-case hex digits. */
  function EncodeByte(b: Byte): (s: string)
    ensures 1 <= |s| <= 3
    ensures forall i :: 0 <= i < |s| ==> EncodedChar(s[i])
  {
    if Unreserved(b) then [b as char]
    else if b == ' ' as int then "+"
    else
      HexDigitValue(b / 16);
      HexDigitValue(b % 16);
      ['%', HexDigits[b / 16], HexDigits[b % 16]]
  }

  function EncodeBytes(bs: seq<Byte>): (s: string)
    ensures forall i :: 0 <= i < |s| ==> EncodedChar(s[i])
  {
    if |bs| == 0 then "" else EncodeByte(bs[0]) + EncodeBytes(bs[1..])
  }

  /** PHP `urlencode` of a string. */
  function UrlEncode(s: string): string {
    EncodeBytes(Utf8String(s))
  }

  /** PHP `urldecode`, to bytes: `+` is a space, `%` with two hex digits is
      that byte, and anything else (a stray `%` included) stands for itself. */
  function UrlDecode(s: string): seq<Byte>
    decreases |s|
  {
    if |s| == 0 then []
    else if s[0] == '+' then [' ' as int] + UrlDecode(s[1..])
    else if s[0] == '%' && |s| >= 3 && IsHex(s[1]) && IsHex(s[2]) then
      [HexValue(s[1]) * 16 + HexValue(s[2])] + UrlDecode(s[3..])
    else Utf8(s[0]) + UrlDecode(s[1..])
  }

  /** Decoding the encoding of one byte, followed by anything, yields that
      byte and then the decoding of what follows. */
  lemma DecodePiece(b: Byte, rest: string)
    ensures UrlDecode(EncodeByte(b) + rest) == [b] + UrlDecode(rest)
  {
    var s := EncodeByte(b) + rest;
    if Unreserved(b) {
      assert s[0] == b as char && s[1..] == rest;
    } else if b == ' ' as int {
      assert s[0] == '+' && s[1..] == rest;
    } else {
      HexDigitValue(b / 16);
      HexDigitValue(b % 16);
      assert s[0] == '%' && s[1] == HexDigits[b / 16] && s[2] == HexDigits[b % 16];
      assert s[3..] == rest;
    }
  }

  /** Decoding an encoding gives back every byte. */
  lemma {:induction false} DecodeEncode(bs: seq<Byte>)
    ensures UrlDecode(EncodeBytes(bs)) == bs
  {
    if |bs| > 0 {
      DecodePiece(bs[0], EncodeBytes(bs[1..]));
      DecodeEncode(bs[1..]);
      assert [bs[0]] + bs[1..] == bs;
    }
  }

  /** A string of unreserved ASCII characters encodes to itself. */
  lemma {:induction false} EncodePlain(s: string)
    requires forall i :: 0 <= i < |s| ==> UnreservedChar(s[i])
    ensures UrlEncode(s) == s
  {
    if |s| > 0 {
      EncodePlain(s[1..]);
      var bs := Utf8String(s);
      assert bs == [s[0] as int] + Utf8String(s[1..]);
      assert bs[0] == s[0] as int && bs[1..] == Utf8String(s[1..]);
      assert EncodeBytes(bs) == [s[0]] + s[1..];
    }
  }

  /* ---- the query string ---- */

  datatype Param = Param(key: string, value: string)

  /** A URL as its base and its query parameters in order. */
  datatype Url = Url(base: string, query: seq<Param>)

  /** What `wp_parse_str` followed by `urlencode_deep` does to a value already
      in the query before `add_query_arg` adds another: decode, then re-encode. */
  function Reencode(value: string): string {
    EncodeBytes(UrlDecode(value))
  }

  /** Every value of the query survives a later `add_query_arg` unchanged. */
  predicate Stable(query: seq<Param>) {
    forall i :: 0 <= i < |query| ==> Reencode(query[i].value) == query[i].value
  }

  /** The decode/re-encode applied to every value of the query, keys kept. */
  function ReencodeAll(query: seq<Param>): (r: seq<Param>)
    ensures |r| == |query|
  {
    if |query| == 0 then []
    else [Param(query[0].key, Reencode(query[0].value))] + ReencodeAll(query[1..])
  }

  /** On a stable query the decode/re-encode pass is the identity. */
  lemma {:induction false} ReencodeAllStable(query: seq<Param>)
    requires Stable(query)
    ensures ReencodeAll(query) == query
  {
    if |query| > 0 {
      var rest := query[1..];
      assert Stable(rest) by {
        forall i | 0 <= i < |rest| ensures Reencode(rest[i].value) == rest[i].value {
          assert rest[i] == query[i + 1];
        }
      }
      ReencodeAllStable(rest);
      assert [query[0]] + rest == query;
    }
  }

  /** A stable query stays stable when a stable parameter is appended. */
  lemma StableAppend(query: seq<Param>, p: Param)
    requires Stable(query) && Reencode(p.value) == p.value
    ensures Stable(query + [p])
  {
    var q := query + [p];
    forall i | 0 <= i < |q| ensures Reencode(q[i].value) == q[i].value {
      if i < |query| {
        assert q[i] == query[i];
      }
    }
  }

  /** `$qs[$key] = $value` on the parsed query: an existing key keeps its place
      and takes the new value, a new key is appended. */
  function Put(query: seq<Param>, key: string, value: string): seq<Param> {
    if |query| == 0 then [Param(key, value)]
    else if query[0].key == key then [Param(key, value)] + query[1..]
    else [query[0]] + Put(query[1..], key, value)
  }

  lemma {:induction false} PutNewKey(query: seq<Param>, key: string, value: string)
    requires forall i :: 0 <= i < |query| ==> query[i].key != key
    ensures Put(query, key, value) == query + [Param(key, value)]
  {
    if |query| > 0 {
      PutNewKey(query[1..], key, value);
      assert [query[0]] + (query[1..] + [Param(key, value)]) == query + [Param(key, value)];
    }
  }

  /** `add_query_arg($key, $value, $url)`. */
  function AddQueryArg(u: Url, key: string, value: string): Url {
    Url(u.base, Put(ReencodeAll(u.query), key, value))
  }

  /** A value produced by `urlencode` survives the decode/re-encode of a
      later `add_query_arg` unchanged. */
  lemma ReencodeEncoded(bs: seq<Byte>)
    ensures Reencode(EncodeBytes(bs)) == EncodeBytes(bs)
  {
    DecodeEncode(bs);
  }

  /** So does a value made of unreserved characters only. */
  lemma ReencodePlain(value: string)
    requires forall i :: 0 <= i < |value| ==> UnreservedChar(value[i])
    ensures Reencode(value) == value
  {
    EncodePlain(value);
    ReencodeEncoded(Utf8String(value));
  }

  /** Adding a key the query does not have yet, to a query whose values all
      survive re-encoding, appends exactly one parameter. */
  lemma {:induction false} AddFreshKey(u: Url, key: string, value: string)
    requires Stable(u.query)
    requires forall i :: 0 <= i < |u.query| ==> u.query[i].key != key
    ensures AddQueryArg(u, key, value) == Url(u.base, u.query + [Param(key, value)])
  {
    ReencodeAllStable(u.query);
    PutNewKey(u.query, key, value);
  }

  /** Consecutive `add_query_arg` calls, one per parameter, in order. */
  function AddQueryArgs(u: Url, params: seq<Param>): Url
    decreases |params|
  {
    if |params| == 0 then u
    else AddQueryArgs(AddQueryArg(u, params[0].key, params[0].value), params[1..])
  }

  predicate DistinctKeys(params: seq<Param>) {
    forall i, j :: 0 <= i < j < |params| ==> params[i].key != params[j].key
  }

  predicate FreshKeys(query: seq<Param>, params: seq<Param>) {
    forall i, j :: 0 <= i < |query| && 0 <= j < |params| ==> query[i].key != params[j].key
  }

  /** After the first parameter is appended, the remaining ones are still
      distinct, stable and new to the longer query. */
  lemma FreshAfterHead(query: seq<Param>, params: seq<Param>)
    requires |params| > 0 && Stable(params)
    requires DistinctKeys(params) && FreshKeys(query, params)
    ensures forall i :: 0 <= i < |query| ==> query[i].key != params[0].key
    ensures Stable(params[1..]) && DistinctKeys(params[1..])
    ensures FreshKeys(query + [params[0]], params[1..])
  {
    var q1 := query + [params[0]];
    var rest := params[1..];
    forall i, j | 0 <= i < |q1| && 0 <= j < |rest|
      ensures q1[i].key != rest[j].key
    {
      assert rest[j] == params[j + 1];
      if i < |query| {
        assert q1[i] == query[i];
      }
    }
    forall i | 0 <= i < |rest| ensures Reencode(rest[i].value) == rest[i].value {
      assert rest[i] == params[i + 1];
    }
    forall i, j | 0 <= i < j < |rest| ensures rest[i].key != rest[j].key {
      assert rest[i] == params[i + 1] && rest[j] == params[j + 1];
    }
  }

  /** Splitting off the head of a sequence and appending it back in two steps. */
  lemma ConcatHead(q: seq<Param>, params: seq<Param>)
    requires |params| > 0
    ensures q + [params[0]] + params[1..] == q + params
  {
    assert [params[0]] + params[1..] == params;
  }

  /** Adding distinct new keys whose values survive re-encoding, one call
      at a time, appends them all in order and changes nothing else. */
  lemma {:induction false} AddQueryArgsAppend(u: Url, params: seq<Param>)
    requires Stable(u.query) && Stable(params)
    requires DistinctKeys(params) && FreshKeys(u.query, params)
    ensures AddQueryArgs(u, params) == Url(u.base, u.query + params)
    decreases |params|
  {
    if |params| > 0 {
      FreshAfterHead(u.query, params);
      AddFreshKey(u, params[0].key, params[0].value);
      StableAppend(u.query, params[0]);
      AddQueryArgsAppend(Url(u.base, u.query + [params[0]]), params[1..]);
      ConcatHead(u.query, params);
    }
  }

  /** Four values that each survive re-encoding form a stable query. */
  lemma StableFour(a: Param, b: Param, c: Param, d: Param)
    requires Reencode(a.value) == a.value && Reencode(b.value) == b.value
    requires Reencode(c.value) == c.value && Reencode(d.value) == d.value
    ensures Stable([a, b, c, d])
  {
    var q := [a, b, c, d];
    forall i | 0 <= i < 4 ensures Reencode(q[i].value) == q[i].value {
      if i == 0 { assert q[i] == a; }
      else if i == 1 { assert q[i] == b; }
      else if i == 2 { assert q[i] == c; }
      else { assert q[i] == d; }
    }
  }

  /** Four consecutive `add_query_arg` calls with distinct keys and values
      that survive re-encoding, on a URL without a query, yield exactly those
      four parameters in order. */
  lemma AddFourToEmpty(base: string, a: Param, b: Param, c: Param, d: Param)
    requires Stable([a, b, c, d])
    requires a.key != b.key && a.key != c.key && a.key != d.key
    requires b.key != c.key && b.key != d.key && c.key != d.key
    ensures AddQueryArgs(Url(base, []), [a, b, c, d]) == Url(base, [a, b, c, d])
  {
    var params := [a, b, c, d];
    assert DistinctKeys(params);
    AddQueryArgsAppend(Url(base, []), params);
  }

  /** A rendered integer is a sign and digits, which `urlencode` leaves alone. */
  lemma IntToStringPlain(n: int)
    ensures forall i :: 0 <= i < |IntToString(n)| ==> UnreservedChar(IntToString(n)[i])
  {
    if n < 0 {
      assert IntToString(n) == "-" + NatToString(-n);
    }
  }

  const FlowFlag: string := "publishing-flow"

  /** `build_customizer_url`: the Customizer URL with, in this order, the
      encoded preview link, the encoded edit link as the return URL, the flag
      `publishing-flow=true` and the post id, every value exactly as appended. */
  function BuildCustomizerUrl(adminUrl: string, previewLink: string, editLink: string, postId: int): (u: Url)
    ensures u.base == adminUrl
    ensures u.query == [Param("url", UrlEncode(previewLink)), Param("return", UrlEncode(editLink)),
                        Param(FlowFlag, "true"), Param("post-id", IntToString(postId))]
  {
    var params := [Param("url", UrlEncode(previewLink)), Param("return", UrlEncode(editLink)),
                   Param(FlowFlag, "true"), Param("post-id", IntToString(postId))];
    ReencodeEncoded(Utf8String(previewLink));
    ReencodeEncoded(Utf8String(editLink));
    ReencodePlain("true");
    IntToStringPlain(postId);
    ReencodePlain(IntToString(postId));
    StableFour(params[0], params[1], params[2], params[3]);
    AddFourToEmpty(adminUrl, params[0], params[1], params[2], params[3]);
    AddQueryArgs(Url(adminUrl, []), params)
  }

  /** The Customizer can read back everything the link carries: the preview
      and edit links byte for byte, the flag, and the post id. */
  lemma CustomizerUrlCarriesLinks(adminUrl: string, previewLink: string, editLink: string, postId: int)
    ensures var u := BuildCustomizerUrl(adminUrl, previewLink, editLink, postId);
            && UrlDecode(u.query[0].value) == Utf8String(previewLink)
            && UrlDecode(u.query[1].value) == Utf8String(editLink)
            && u.query[2].value == "true"
            && |u.query[3].value| > 0
            && AllDigits(if u.query[3].value[0] == '-' then u.query[3].value[1..] else u.query[3].value)
            && ParseInt(u.query[3].value) == postId
  {
    DecodeEncode(Utf8String(previewLink));
    DecodeEncode(Utf8String(editLink));
    IntToStringRoundTrip(postId);
  }

  /** One pair as `add_query_arg` prints it: `key=value`, except that a pair
      with an empty value loses its `=` (the `=(&|$)` clean-up; an encoded
      value never contains `=` itself, so only such pairs are affected). */
  function PairString(p: Param): string {
    if p.value == "" then p.key else p.key + "=" + p.value
  }

  function QueryString(query: seq<Param>): string {
    if |query| == 0 then ""
    else PairString(query[0]) + (if |query| == 1 then "" else "&" + QueryString(query[1..]))
  }

  /** Four pairs print as their four texts joined by `&`. */
  lemma QueryStringFour(a: Param, b: Param, c: Param, d: Param)
    ensures QueryString([a, b, c, d]) ==
              PairString(a) + "&" + PairString(b) + "&" + PairString(c) + "&" + PairString(d)
  {
    var q := [a, b, c, d];
    assert q[1..] == [b, c, d] && [b, c, d][1..] == [c, d] && [c, d][1..] == [d];
    assert QueryString([c, d]) == PairString(c) + "&" + PairString(d);
    assert QueryString([b, c, d]) == PairString(b) + "&" + (PairString(c) + "&" + PairString(d));
  }

  /** The URL as a string: the base, then `?` and the pairs joined by `&`;
      a URL without a query has no `?`. */
  function UrlString(u: Url): string {
    if |u.query| == 0 then u.base else u.base + "?" + QueryString(u.query)
  }

  /** The Customizer link as text: the base, `?` and the four pairs joined
      by `&`. The flag and the id always carry their `=`; an edit link that
      encodes to nothing (one WordPress does not give, say) leaves the key
      bare, as in `…&return&publishing-flow=true…`. */
  lemma CustomizerUrlText(adminUrl: string, previewLink: string, editLink: string, postId: int)
    ensures UrlString(BuildCustomizerUrl(adminUrl, previewLink, editLink, postId)) ==
              adminUrl + "?" + (PairString(Param("url", UrlEncode(previewLink)))
              + "&" + PairString(Param("return", UrlEncode(editLink)))
              + "&" + PairString(Param(FlowFlag, "true"))
              + "&" + PairString(Param("post-id", IntToString(postId))))
    ensures PairString(Param(FlowFlag, "true")) == FlowFlag + "=true"
    ensures PairString(Param("post-id", IntToString(postId))) == "post-id=" + IntToString(postId)
    ensures editLink == "" ==> PairString(Param("return", UrlEncode(editLink))) == "return"
  {
    var u := BuildCustomizerUrl(adminUrl, previewLink, editLink, postId);
    assert IntToString(postId) != "";
    QueryStringFour(u.query[0], u.query[1], u.query[2], u.query[3]);
    assert u.query == [u.query[0], u.query[1], u.query[2], u.query[3]];
  }

  /* ---- customizer_redirect ---- */

  const EnterAction: string := "enter-publishing-flow"

  /** `customizer_redirect`: only when `pf-action` is exactly
      `enter-publishing-flow` does the redirect go to the Customizer, and only
      then is the local publish date bumped to now — for a post whose GMT date
      is empty or the sentinel. Otherwise location and post stay as they are. */
  function CustomizerRedirect(
    location: string, pfAction: Option<string>, postId: int, post: Post, clock: Clock,
    adminUrl: string, previewLink: string, editLink: string): (r: (string, Post))
    ensures pfAction != Some(EnterAction) ==> r == (location, post)
    ensures pfAction == Some(EnterAction) ==>
              r.0 == UrlString(BuildCustomizerUrl(adminUrl, previewLink, editLink, postId))
    ensures r.1.dateGmt == post.dateGmt && r.1.status == post.status && r.1.fields == post.fields
    ensures r.1.date != post.date ==>
              pfAction == Some(EnterAction) && (post.dateGmt.Blank? || post.dateGmt.ZeroDate?)
              && r.1.date == At(LocalNow(clock))
    ensures pfAction == Some(EnterAction) && (post.dateGmt.Blank? || post.dateGmt.ZeroDate?) ==>
              r.1 == post.(date := At(LocalNow(clock)))
    ensures !(pfAction == Some(EnterAction) && (post.dateGmt.Blank? || post.dateGmt.ZeroDate?)) ==>
              r.1 == post
  {
    if pfAction == Some(EnterAction) then
      var bumped :=
        if post.dateGmt.Blank? || post.dateGmt.ZeroDate? then post.(date := At(LocalNow(clock))) else post;
      (UrlString(BuildCustomizerUrl(adminUrl, previewLink, editLink, postId)), bumped)
    else
      (location, post)
  }
}
