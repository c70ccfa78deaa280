/** `linkToIceServers`: the ICE servers announced by the `Link` header of
    the capability-discovery response. Every `", "`-separated entry must
    match, case-insensitively and anchored at its start only,
    `<(.+?)>; rel="ice-server"(; username="(.*?)"; credential="(.*?)"; credential-type="password")?`;
    the regular expression is written out here as the search its lazy
    quantifiers perform. Quoted values are decoded as JSON string bodies. */
module IceServers {
  import opened Results
  import opened Strings

  const RelLiteral: string := ">; rel=\"ice-server\""
  const UserLiteral: string := "; username=\""
  const CredentialLiteral: string := "\"; credential=\""
  const TypeLiteral: string := "\"; credential-type=\"password\""
  const LinkSeparator: string := ", "

  /** Dereferencing the failed match (`m![1]` with `m === null`). */
  const NoMatchError: string := "TypeError: Cannot read properties of null (reading '1')"
  /** `JSON.parse` rejecting a quoted value. The engine's message names the
      input and the position of the fault; this fixed text stands in for it. */
  const JsonSyntaxError: string := "SyntaxError: Bad JSON string"
  /** A `\u` escape naming a UTF-16 surrogate, which a Dafny string cannot hold. */
  const SurrogateEscape: string := "surrogate escape"

  datatype Credentials = Credentials(username: string, credential: string)

  /** `{urls, username?, credential?, credentialType?}`; the credential type
      is `"password"` exactly when credentials are present. */
  datatype IceServer = IceServer(urls: seq<string>, credentials: Option<Credentials>)

  /** The characters `.` does not match: line feed, carriage return, and the
      line and paragraph separators. */
  predicate IsLineTerminator(c: char) {
    c == '\n' || c == '\r' || c == '\U{2028}' || c == '\U{2029}'
  }

  /** The literal `lit` matches at index `i`, ignoring ASCII case (the `i`
      flag of a non-Unicode expression folds no other character onto an
      ASCII one). */
  predicate LiteralAt(s: string, i: nat, lit: string) {
    i <= |s| && StartsWithIgnoreCase(s[i..], lit)
  }

  /** Lazy `(.*?)` or `(.+?)` capture starting at `from`, followed by `lit`:
      the least end `e >= i` such that `lit` matches at `e`, scanning stops at
      the first line terminator the capture would have to swallow. */
  function LazyEnd(s: string, from: nat, i: nat, lit: string): (r: Option<nat>)
    requires from <= i <= |s| + 1
    requires forall k :: from <= k < i && k < |s| ==> !IsLineTerminator(s[k])
    decreases |s| + 1 - i
    ensures r.Some? ==> i <= r.value <= |s| && LiteralAt(s, r.value, lit)
    ensures r.Some? ==> forall k :: from <= k < r.value ==> !IsLineTerminator(s[k])
    ensures r.Some? ==> forall e :: i <= e < r.value ==> !LiteralAt(s, e, lit)
    ensures r.None? ==> forall e :: i <= e <= |s| && LiteralAt(s, e, lit) ==>
      exists k :: from <= k < e && IsLineTerminator(s[k])
  {
    if i > |s| then None
    else if LiteralAt(s, i, lit) then Some(i)
    else if i < |s| && !IsLineTerminator(s[i]) then LazyEnd(s, from, i + 1, lit)
    else None
  }

  /** The optional credentials group once `; username="` has matched and the
      username starts at `q`: the username end is tried from the shortest
      up, and for each one the shortest credential that completes the group
      (backtracking into the username when no credential does). Returns the
      two capture ends. */
  function UserSearch(s: string, q: nat, i: nat): (r: Option<(nat, nat)>)
    requires q <= i <= |s| + 1
    requires forall k :: q <= k < i && k < |s| ==> !IsLineTerminator(s[k])
    decreases |s| + 1 - i
    ensures r.Some? ==> i <= r.value.0 && LiteralAt(s, r.value.0, CredentialLiteral)
    ensures r.Some? ==> forall k :: q <= k < r.value.0 ==> !IsLineTerminator(s[k])
    ensures r.Some? ==> r.value.0 + |CredentialLiteral| <= r.value.1 <= |s|
    ensures r.Some? ==> LiteralAt(s, r.value.1, TypeLiteral)
    ensures r.Some? ==> forall k :: r.value.0 + |CredentialLiteral| <= k < r.value.1 ==> !IsLineTerminator(s[k])
  {
    if i > |s| then None
    else
      var here :=
        if LiteralAt(s, i, CredentialLiteral) then
          var c := i + |CredentialLiteral|;
          match LazyEnd(s, c, c, TypeLiteral)
          case Some(ce) => Some((i, ce))
          case None => None
        else None;
      if here.Some? then here
      else if i < |s| && !IsLineTerminator(s[i]) then UserSearch(s, q, i + 1)
      else None
  }

  /** The raw captures of a successful match: group 1, and groups 3 and 4
      when the optional group matched. */
  datatype LinkMatch = LinkMatch(url: string, rawCredentials: Option<(string, string)>)

  /** The optional group `(; username="(.*?)"; credential="(.*?)"; credential-type="password")?`
      matched against the text `t` that follows `rel="ice-server"`: groups 3
      and 4, or `None` when the group does not match. */
  function CredentialsGroup(t: string): (r: Option<(string, string)>)
    ensures r.Some? ==> LiteralAt(t, 0, UserLiteral)
    ensures r.Some? ==> forall c :: c in r.value.0 || c in r.value.1 ==> !IsLineTerminator(c)
  {
    if LiteralAt(t, 0, UserLiteral) then
      var q := |UserLiteral|;
      match UserSearch(t, q, q)
      case Some((ue, ce)) =>
        var user, cred := t[q..ue], t[ue + |CredentialLiteral|..ce];
        assert forall c :: c in user ==> exists k :: q <= k < ue && t[k] == c;
        assert forall c :: c in cred ==> exists k :: ue + |CredentialLiteral| <= k < ce && t[k] == c;
        Some((user, cred))
      case None => None
    else None
  }

  /** After the leading `<`, the text reaches `>; rel="ice-server"` (ASCII
      case ignored) at index `e >= 2` without crossing a line terminator, so
      that `<(.+?)>; rel="ice-server"` can match there. */
  predicate RelReachable(s: string, e: nat) {
    2 <= e <= |s| && LiteralAt(s, e, RelLiteral) && forall k :: 1 <= k < e ==> !IsLineTerminator(s[k])
  }

  /** `link.match(...)`, `None` for `null`. */
  function MatchLink(s: string): (r: Option<LinkMatch>)
    ensures r.Some? ==> |s| >= 2 && s[0] == '<' && |r.value.url| >= 1
    ensures r.Some? ==> StartsWith(s, "<" + r.value.url) && LiteralAt(s, 1 + |r.value.url|, RelLiteral)
    ensures r.Some? ==> forall c :: c in r.value.url ==> !IsLineTerminator(c)
    ensures r.None? <==> |s| < 2 || s[0] != '<' || forall e :: !RelReachable(s, e)
  {
    if |s| < 2 || s[0] != '<' then None
    else
      RelReachableFirst(s);
      if IsLineTerminator(s[1]) then None
      else
        match LazyEnd(s, 1, 2, RelLiteral)
        case None => None
        case Some(e) =>
          var p := e + |RelLiteral|;
          var rest := if p <= |s| then s[p..] else "";
          assert s[..1 + |s[1..e]|] == "<" + s[1..e];
          Some(LinkMatch(s[1..e], CredentialsGroup(rest)))
  }

  /** The lazy scan of `MatchLink` finds a reachable end when there is one,
      and there is none when it fails (or the first character after `<`
      already ends the line). */
  lemma RelReachableFirst(s: string)
    requires |s| >= 2 && s[0] == '<'
    ensures !IsLineTerminator(s[1]) && LazyEnd(s, 1, 2, RelLiteral).Some? ==>
      RelReachable(s, LazyEnd(s, 1, 2, RelLiteral).value)
    ensures IsLineTerminator(s[1]) || LazyEnd(s, 1, 2, RelLiteral).None? ==>
      forall e :: !RelReachable(s, e)
  {
  }

  /** Value of one hexadecimal digit, either case. */
  function HexValue(c: char): (r: Option<nat>)
    ensures r.Some? ==> r.value < 16
  {
    if '0' <= c <= '9' then Some(c as int - '0' as int)
    else if 'a' <= c <= 'f' then Some(c as int - 'a' as int + 10)
    else if 'A' <= c <= 'F' then Some(c as int - 'A' as int + 10)
    else None
  }

  /** Value of the four hexadecimal digits of a `\u` escape. */
  function Hex4Value(h: string): (r: Option<nat>)
    requires |h| == 4
    ensures r.Some? ==> r.value < 0x10000
  {
    match (HexValue(h[0]), HexValue(h[1]), HexValue(h[2]), HexValue(h[3]))
    case (Some(a), Some(b), Some(c), Some(d)) => Some(((a * 16 + b) * 16 + c) * 16 + d)
    case _ => None
  }

  /** The character a two-character escape `\x` stands for. */
  function SimpleEscape(x: char): Option<char> {
    match x
    case '"' => Some('"')
    case '\\' => Some('\\')
    case '/' => Some('/')
    case 'b' => Some('\U{8}')
    case 'f' => Some('\U{C}')
    case 'n' => Some('\n')
    case 'r' => Some('\r')
    case 't' => Some('\t')
    case _ => None
  }

  /** `unquoteCredential(v)`, that is `JSON.parse('"' + v + '"')`: the body
      of a JSON string (section 7 of RFC 8259). A bare quote or a control
      character is a syntax error, and so is a backslash that starts no
      valid escape. */
  function Unquote(v: string): (r: Result<string>)
    decreases |v|
    ensures r.Ok? ==> |r.value| <= |v|
  {
    if |v| == 0 then Ok("")
    else if v[0] == '"' || v[0] < ' ' then Err(JsonSyntaxError)
    else if v[0] != '\\' then
      var rest :- Unquote(v[1..]);
      Ok([v[0]] + rest)
    else if |v| < 2 then Err(JsonSyntaxError)
    else if v[1] == 'u' then
      if |v| < 6 then Err(JsonSyntaxError)
      else
        match Hex4Value(v[2..6])
        case None => Err(JsonSyntaxError)
        case Some(n) =>
          if 0xD800 <= n <= 0xDFFF then Err(SurrogateEscape)
          else
            var rest :- Unquote(v[6..]);
            Ok([n as char] + rest)
    else
      match SimpleEscape(v[1])
      case None => Err(JsonSyntaxError)
      case Some(c) =>
        var rest :- Unquote(v[2..]);
        Ok([c] + rest)
  }

  /** One entry of the header, converted to a server description. */
  function LinkToIceServer(link: string): (r: Result<IceServer>)
    ensures r.Ok? ==> |r.value.urls| == 1 && |r.value.urls[0]| >= 1
    ensures r.Ok? ==> StartsWith(link, "<" + r.value.urls[0])
    ensures MatchLink(link).None? ==> r == Err(NoMatchError)
  {
    match MatchLink(link)
    case None => Err(NoMatchError)
    case Some(m) =>
      match m.rawCredentials
      case None => Ok(IceServer([m.url], None))
      case Some((u, c)) =>
        var username :- Unquote(u);
        var credential :- Unquote(c);
        Ok(IceServer([m.url], Some(Credentials(username, credential))))
  }

  /** `.map(...)` over the entries: the first failing entry throws. */
  function ConvertLinks(links: seq<string>): (r: Result<seq<IceServer>>)
    decreases |links|
    ensures r.Ok? ==> |r.value| == |links|
    ensures r.Ok? ==> forall k :: 0 <= k < |links| ==> LinkToIceServer(links[k]) == Ok(r.value[k])
    ensures r.Err? ==> exists k :: 0 <= k < |links| && LinkToIceServer(links[k]) == Err(r.message)
                                   && forall j :: 0 <= j < k ==> LinkToIceServer(links[j]).Ok?
  {
    if links == [] then Ok([])
    else
      var first :- LinkToIceServer(links[0]);
      var rest :- ConvertLinks(links[1..]);
      Ok([first] + rest)
  }

  /** `linkToIceServers(links)`; a missing header (`null`) is no server. */
  function LinkToIceServers(header: Option<string>): (r: Result<seq<IceServer>>)
  {
    match header
    case None => Ok([])
    case Some(text) => ConvertLinks(Split(text, LinkSeparator))
  }

  /** A missing header gives no server; an empty but present header is one
      entry that cannot match, so it fails. */
  lemma MissingAndEmptyHeader()
    ensures LinkToIceServers(None) == Ok([])
    ensures LinkToIceServers(Some("")) == Err(NoMatchError)
  {
    assert Split("", LinkSeparator) == [""];
  }

  // ---------------------------------------------------------------------
  // Writing a header: an independent definition of what the parser reads.
  // ---------------------------------------------------------------------

  function HexDigit(d: nat): (c: char)
    requires d < 16
  {
    if d < 10 then ('0' as int + d) as char else ('a' as int + d - 10) as char
  }

  function Hex4(n: nat): (h: string)
    requires n < 0x10000
  {
    [HexDigit(n / 16 / 16 / 16), HexDigit(n / 16 / 16 % 16), HexDigit(n / 16 % 16), HexDigit(n % 16)]
  }

  /** Characters written as `\u` escapes: those JSON forbids raw, the quote,
      the comma (which would split the header) and those `.` does not match. */
  predicate NeedsUnicodeEscape(c: char) {
    c < ' ' || c == '"' || c == ',' || IsLineTerminator(c)
  }

  function EscapeChar(c: char): string {
    if c == '\\' then "\\\\"
    else if NeedsUnicodeEscape(c) then "\\u" + Hex4(c as int)
    else [c]
  }

  /** A JSON string body for `x` that the header grammar can carry. */
  function JsonQuote(x: string): string
    decreases |x|
  {
    if x == [] then "" else EscapeChar(x[0]) + JsonQuote(x[1..])
  }

  /** A URL that fits between `<` and `>` and survives the split. */
  predicate PlainUrl(url: string) {
    |url| >= 1 && forall c :: c in url ==> c != '>' && c != ',' && !IsLineTerminator(c)
  }

  predicate Writable(server: IceServer) {
    |server.urls| == 1 && PlainUrl(server.urls[0])
  }

  function CredentialsText(creds: Option<Credentials>): string {
    match creds
    case None => ""
    case Some(c) =>
      UserLiteral + JsonQuote(c.username) + CredentialLiteral + JsonQuote(c.credential) + TypeLiteral
  }

  /** The header entry announcing `server`. */
  function LinkOf(server: IceServer): string
    requires Writable(server)
  {
    "<" + server.urls[0] + RelLiteral + CredentialsText(server.credentials)
  }

  function LinksOf(servers: seq<IceServer>): (links: seq<string>)
    requires forall k :: 0 <= k < |servers| ==> Writable(servers[k])
    ensures |links| == |servers|
    ensures forall k :: 0 <= k < |servers| ==> links[k] == LinkOf(servers[k])
  {
    seq(|servers|, k requires 0 <= k < |servers| => LinkOf(servers[k]))
  }

  // ---------------------------------------------------------------------
  // Round trip
  // ---------------------------------------------------------------------

  lemma HexRoundTrip(n: nat)
    requires n < 0x10000
    ensures Hex4Value(Hex4(n)) == Some(n)
  {
    var h := Hex4(n);
    var n1 := n / 16;
    var n2 := n1 / 16;
    var n3 := n2 / 16;
    HexDigitValue(n3);
    HexDigitValue(n2 % 16);
    HexDigitValue(n1 % 16);
    HexDigitValue(n % 16);
    assert n3 * 16 + n2 % 16 == n2;
    assert n2 * 16 + n1 % 16 == n1;
    assert n1 * 16 + n % 16 == n;
  }

  lemma HexDigitValue(d: nat)
    requires d < 16
    ensures HexValue(HexDigit(d)) == Some(d)
  {
  }

  /** Decoding one escaped character and then the rest. */
  lemma UnquoteEscapeChar(c: char, rest: string)
    ensures Unquote(EscapeChar(c) + rest) == (
      match Unquote(rest)
      case Ok(t) => Ok([c] + t)
      case Err(m) => Err(m))
  {
    var v := EscapeChar(c) + rest;
    if c == '\\' {
      assert v[0] == '\\' && v[1] == '\\' && v[2..] == rest;
    } else if NeedsUnicodeEscape(c) {
      var n := c as int;
      HexRoundTrip(n);
      assert v[0] == '\\' && v[1] == 'u';
      assert v[2..6] == Hex4(n);
      assert v[6..] == rest;
      assert !(0xD800 <= n <= 0xDFFF);
      assert n as char == c;
    } else {
      assert v[0] == c && v[1..] == rest;
    }
  }

  /** Decoding an encoded value gives the value back. */
  lemma {:induction false} UnquoteJsonQuote(x: string)
    ensures Unquote(JsonQuote(x)) == Ok(x)
    decreases |x|
  {
    if x != [] {
      UnquoteJsonQuote(x[1..]);
      UnquoteEscapeChar(x[0], JsonQuote(x[1..]));
      assert [x[0]] + x[1..] == x;
    }
  }

  /** An encoded value holds no quote, comma or line terminator. */
  lemma {:induction false} JsonQuoteIsPlain(x: string)
    ensures forall c :: c in JsonQuote(x) ==> c != '"' && c != ',' && !IsLineTerminator(c)
    decreases |x|
  {
    if x != [] {
      JsonQuoteIsPlain(x[1..]);
      var e := EscapeChar(x[0]);
      if NeedsUnicodeEscape(x[0]) && x[0] != '\\' {
        var h := Hex4(x[0] as int);
        assert forall c :: c in h ==> ('0' <= c <= '9' || 'a' <= c <= 'f');
        assert e == ['\\', 'u'] + h;
      }
      assert forall c :: c in e ==> c != '"' && c != ',' && !IsLineTerminator(c);
    }
  }

  /** A character that is not an ASCII lower-case letter is only the
      case-folded image of itself. */
  lemma LowerCharOfSymbol(c: char, d: char)
    requires !('a' <= d <= 'z') && !('A' <= d <= 'Z')
    ensures LowerChar(c) == d <==> c == d
  {
  }

  /** A literal whose first character is a symbol cannot match where a
      different character stands. */
  lemma NoLiteralAt(s: string, i: nat, lit: string)
    requires i < |s| && |lit| >= 1 && lit[0] != s[i]
    requires !('a' <= lit[0] <= 'z') && !('A' <= lit[0] <= 'Z')
    ensures !LiteralAt(s, i, lit)
  {
    if LiteralAt(s, i, lit) {
      assert ToLower(s[i..][..|lit|])[0] == ToLower(lit)[0];
      LowerCharOfSymbol(s[i], lit[0]);
    }
  }

  lemma ExactLiteralAt(s: string, i: nat, lit: string)
    requires i + |lit| <= |s| && s[i..i + |lit|] == lit
    ensures LiteralAt(s, i, lit)
  {
    assert s[i..][..|lit|] == lit;
  }

  /** The lazy capture ends at the first place the literal follows, when the
      captured text neither holds the literal's first character nor a line
      terminator. */
  lemma {:induction false} LazyEndFinds(s: string, from: nat, i: nat, e: nat, lit: string)
    requires from <= i <= e && e + |lit| <= |s| && |lit| >= 1
    requires s[e..e + |lit|] == lit
    requires !('a' <= lit[0] <= 'z') && !('A' <= lit[0] <= 'Z')
    requires forall k :: from <= k < e ==> s[k] != lit[0] && !IsLineTerminator(s[k])
    ensures LazyEnd(s, from, i, lit) == Some(e)
    decreases e - i
  {
    if i < e {
      NoLiteralAt(s, i, lit);
      LazyEndFinds(s, from, i + 1, e, lit);
    } else {
      ExactLiteralAt(s, e, lit);
    }
  }

  /** The credentials search ends right after an encoded username and an
      encoded credential. */
  lemma {:induction false} UserSearchFinds(s: string, q: nat, i: nat, ue: nat, ce: nat)
    requires q <= i <= ue && ue + |CredentialLiteral| <= ce && ce + |TypeLiteral| <= |s|
    requires s[ue..ue + |CredentialLiteral|] == CredentialLiteral
    requires s[ce..ce + |TypeLiteral|] == TypeLiteral
    requires forall k :: q <= k < ue ==> s[k] != '"' && !IsLineTerminator(s[k])
    requires forall k :: ue + |CredentialLiteral| <= k < ce ==> s[k] != '"' && !IsLineTerminator(s[k])
    ensures UserSearch(s, q, i) == Some((ue, ce))
    decreases ue - i
  {
    if i < ue {
      NoLiteralAt(s, i, CredentialLiteral);
      UserSearchFinds(s, q, i + 1, ue, ce);
    } else {
      ExactLiteralAt(s, ue, CredentialLiteral);
      var c := ue + |CredentialLiteral|;
      LazyEndFinds(s, c, c, ce, TypeLiteral);
    }
  }

  /** The credentials group of written credentials captures their encoded
      username and credential. */
  lemma CredentialsGroupOf(c: Credentials)
    ensures CredentialsGroup(CredentialsText(Some(c)))
      == Some((JsonQuote(c.username), JsonQuote(c.credential)))
  {
    var qu, qc := JsonQuote(c.username), JsonQuote(c.credential);
    var t := CredentialsText(Some(c));
    JsonQuoteIsPlain(c.username);
    JsonQuoteIsPlain(c.credential);
    var q := |UserLiteral|;
    var ue := q + |qu|;
    var cs := ue + |CredentialLiteral|;
    var ce := cs + |qc|;
    assert t == UserLiteral + qu + CredentialLiteral + qc + TypeLiteral;
    CredentialsLayout(qu, qc);
    ExactLiteralAt(t, 0, UserLiteral);
    SliceChars(t, q, ue, qu);
    SliceChars(t, cs, ce, qc);
    UserSearchFinds(t, q, q, ue, ce);
  }

  /** Where the parts of written credentials stand. */
  lemma CredentialsLayout(qu: string, qc: string)
    ensures var t := UserLiteral + qu + CredentialLiteral + qc + TypeLiteral;
      var q := |UserLiteral|;
      var ue := q + |qu|;
      var cs := ue + |CredentialLiteral|;
      var ce := cs + |qc|;
      && t[q..ue] == qu && t[ue..cs] == CredentialLiteral
      && t[cs..ce] == qc && ce + |TypeLiteral| == |t| && t[ce..ce + |TypeLiteral|] == TypeLiteral
      && t[..q] == UserLiteral
  {
    FiveParts(UserLiteral, qu, CredentialLiteral, qc, TypeLiteral);
  }

  lemma FiveParts<T>(a: seq<T>, b: seq<T>, c: seq<T>, d: seq<T>, e: seq<T>)
    ensures var s := a + b + c + d + e;
      var i, j, k, l := |a|, |a| + |b|, |a| + |b| + |c|, |a| + |b| + |c| + |d|;
      && s[..i] == a && s[i..j] == b && s[j..k] == c && s[k..l] == d && s[l..] == e
      && l + |e| == |s| && s[l..l + |e|] == e
  {
    var s := a + b + c + d + e;
    var i, j, k, l := |a|, |a| + |b|, |a| + |b| + |c|, |a| + |b| + |c| + |d|;
    assert s[..i] == a;
    assert s[i..j] == b;
    assert s[j..k] == c;
    assert s[k..l] == d;
    assert s[l..] == e;
  }

  lemma SliceChars(s: string, i: nat, j: nat, x: string)
    requires i <= j <= |s| && s[i..j] == x
    ensures forall k :: i <= k < j ==> s[k] in x
  {
    forall k | i <= k < j
      ensures s[k] in x
    {
      assert s[k] == x[k - i];
    }
  }

  /** The raw captures of a written entry are its URL and its encoded
      credentials. */
  lemma MatchLinkOf(server: IceServer)
    requires Writable(server)
    ensures MatchLink(LinkOf(server)) == Some(LinkMatch(server.urls[0],
      match server.credentials
      case None => None
      case Some(c) => Some((JsonQuote(c.username), JsonQuote(c.credential)))))
  {
    var url := server.urls[0];
    var tail := CredentialsText(server.credentials);
    assert LinkOf(server) == "<" + url + RelLiteral + tail;
    UrlCapture(url, tail);
    match server.credentials
    case None =>
      assert !LiteralAt(tail, 0, UserLiteral);
    case Some(c) =>
      CredentialsGroupOf(c);
  }

  /** The URL capture of an entry `<url>; rel="ice-server"...` is `url`,
      and the optional group is tried on what follows. */
  lemma UrlCapture(url: string, rest: string)
    requires PlainUrl(url)
    ensures var s := "<" + url + RelLiteral + rest;
      MatchLink(s) == Some(LinkMatch(url, CredentialsGroup(rest)))
  {
    var s := "<" + url + RelLiteral + rest;
    var e := 1 + |url|;
    UrlEnd(url, rest);
    ConcatParts("<", url, RelLiteral, rest);
    assert s[1..e] == url;
    assert s[e + |RelLiteral|..] == rest;
  }

  /** The lazy URL capture of a written entry ends right after the URL. */
  lemma UrlEnd(url: string, rest: string)
    requires PlainUrl(url)
    ensures var s := "<" + url + RelLiteral + rest;
      && |s| >= 2 && s[0] == '<' && !IsLineTerminator(s[1])
      && LazyEnd(s, 1, 2, RelLiteral) == Some(1 + |url|)
  {
    var s := "<" + url + RelLiteral + rest;
    var e := 1 + |url|;
    ConcatParts("<", url, RelLiteral, rest);
    assert s[1] == url[0] && url[0] in url;
    forall k | 1 <= k < e
      ensures s[k] != '>' && !IsLineTerminator(s[k])
    {
      assert s[k] == url[k - 1] && url[k - 1] in url;
    }
    LiteralHeads();
    LazyEndFinds(s, 1, 2, e, RelLiteral);
  }

  lemma LiteralHeads()
    ensures RelLiteral[0] == '>' && CredentialLiteral[0] == '"' && TypeLiteral[0] == '"'
  {
  }

  /** One written entry reads back as the server it announces. */
  lemma LinkToIceServerOf(server: IceServer)
    requires Writable(server)
    ensures LinkToIceServer(LinkOf(server)) == Ok(server)
  {
    MatchLinkOf(server);
    assert [server.urls[0]] == server.urls;
    match server.credentials
    case None =>
    case Some(c) =>
      UnquoteJsonQuote(c.username);
      UnquoteJsonQuote(c.credential);
  }

  lemma {:induction false} ConvertLinksOf(servers: seq<IceServer>)
    requires forall k :: 0 <= k < |servers| ==> Writable(servers[k])
    ensures ConvertLinks(LinksOf(servers)) == Ok(servers)
    decreases |servers|
  {
    if servers != [] {
      var links := LinksOf(servers);
      LinkToIceServerOf(servers[0]);
      LinksOfTail(servers);
      ConvertLinksOf(servers[1..]);
      ConvertLinksStep(links, servers[0], servers[1..]);
      assert [servers[0]] + servers[1..] == servers;
    }
  }

  lemma LinksOfTail(servers: seq<IceServer>)
    requires |servers| >= 1 && forall k :: 0 <= k < |servers| ==> Writable(servers[k])
    ensures LinksOf(servers)[0] == LinkOf(servers[0])
    ensures LinksOf(servers)[1..] == LinksOf(servers[1..])
  {
  }

  lemma ConvertLinksStep(links: seq<string>, first: IceServer, rest: seq<IceServer>)
    requires |links| >= 1 && LinkToIceServer(links[0]) == Ok(first)
    requires ConvertLinks(links[1..]) == Ok(rest)
    ensures ConvertLinks(links) == Ok([first] + rest)
  {
  }

  /** A text without the separator's first character does not contain it. */
  lemma FirstCharAbsent(s: string, sep: string)
    requires |sep| >= 1 && sep[0] !in s
    ensures !Contains(s, sep)
  {
  }

  lemma NoCommaInLink(server: IceServer)
    requires Writable(server)
    ensures ',' !in LinkOf(server)
  {
    var url := server.urls[0];
    var tail := CredentialsText(server.credentials);
    assert ',' !in tail by {
      match server.credentials
      case None =>
      case Some(c) =>
        var qu, qc := JsonQuote(c.username), JsonQuote(c.credential);
        JsonQuoteIsPlain(c.username);
        JsonQuoteIsPlain(c.credential);
        LiteralsCommaFree();
        NotInConcat(',', UserLiteral, qu, CredentialLiteral, qc, TypeLiteral);
    }
    LiteralsCommaFree();
    assert ',' !in "<";
    NotInConcat(',', "<", url, RelLiteral, tail, "");
    assert LinkOf(server) == "<" + url + RelLiteral + tail + "";
  }

  lemma LiteralsCommaFree()
    ensures ',' !in RelLiteral && ',' !in UserLiteral && ',' !in CredentialLiteral && ',' !in TypeLiteral
  {
  }

  lemma NotInConcat(x: char, a: string, b: string, c: string, d: string, e: string)
    requires x !in a && x !in b && x !in c && x !in d && x !in e
    ensures x !in a + b + c + d + e
  {
  }

  /** A header written from one or more servers reads back as those
      servers, in order: URLs free of `>`, `,` and line terminators, and
      any credentials whatsoever. */
  lemma LinkHeaderRoundTrip(servers: seq<IceServer>)
    requires |servers| >= 1
    requires forall k :: 0 <= k < |servers| ==> Writable(servers[k])
    ensures LinkToIceServers(Some(Join(LinksOf(servers), LinkSeparator))) == Ok(servers)
  {
    var links := LinksOf(servers);
    forall k | 0 <= k < |links|
      ensures !Contains(links[k], LinkSeparator)
    {
      NoCommaInLink(servers[k]);
      FirstCharAbsent(links[k], LinkSeparator);
    }
    SeparatorsBorderless();
    SplitJoin(links, LinkSeparator);
    ConvertLinksOf(servers);
  }

  /** The lazy URL capture stops at the first `>; rel="ice-server"`: what
      follows it never becomes part of the URL, whatever it holds. */
  lemma LazyUrlCut(url: string, rest: string)
    requires PlainUrl(url)
    ensures MatchLink("<" + url + RelLiteral + rest).Some?
    ensures MatchLink("<" + url + RelLiteral + rest).value.url == url
  {
    UrlCapture(url, rest);
  }

  /** Without a backslash, decoding succeeds exactly when the value holds no
      quote and no control character, and then changes nothing. */
  lemma {:induction false} UnquotePlain(v: string)
    requires '\\' !in v
    ensures Unquote(v).Ok? <==> forall c :: c in v ==> c != '"' && c >= ' '
    ensures Unquote(v).Ok? ==> Unquote(v).value == v
    decreases |v|
  {
    if v != [] {
      assert v[0] in v;
      assert forall c :: c in v <==> c == v[0] || c in v[1..];
      UnquotePlain(v[1..]);
    }
  }
}
