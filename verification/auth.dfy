/** `processJwtAuth` and `getAuthHeaders`: where the reader finds its
    bearer token, and the URL it sends requests to once the token has been
    taken out of the query. */
module Auth {
  import opened Results
  import opened Strings

  const JwtParam: string := "jwt"

  /** A parsed URL: everything up to the query, and the query's name/value
      pairs in order. */
  datatype Url = Url(base: string, query: seq<(string, string)>)

  /** `searchParams.get(name)`: the value of the first pair with that name. */
  function GetParam(query: seq<(string, string)>, name: string): (r: Option<string>)
    decreases |query|
    ensures r.Some? ==> (name, r.value) in query
    ensures r.None? <==> forall k :: 0 <= k < |query| ==> query[k].0 != name
  {
    if query == [] then None
    else if query[0].0 == name then Some(query[0].1)
    else GetParam(query[1..], name)
  }

  /** `searchParams.delete(name)`: every pair with that name removed, the
      others kept in order. */
  function DeleteParam(query: seq<(string, string)>, name: string): (r: seq<(string, string)>)
    decreases |query|
    ensures |r| <= |query|
    ensures forall p :: p in r <==> p in query && p.0 != name
  {
    if query == [] then []
    else (if query[0].0 == name then [] else [query[0]]) + DeleteParam(query[1..], name)
  }

  /** Deletion distributes over concatenation, so the remaining pairs keep
      their order. */
  lemma {:induction false} DeleteParamConcat(a: seq<(string, string)>, b: seq<(string, string)>, name: string)
    ensures DeleteParam(a + b, name) == DeleteParam(a, name) + DeleteParam(b, name)
    decreases |a|
  {
    if a == [] {
      assert a + b == b;
    } else {
      DeleteParamConcat(a[1..], b, name);
      DeleteParamHead(a, b, name);
      Reassociate(DeleteParam(a + b, name), DeleteParam(a[1..] + b, name), DeleteParam(a, name),
                  if a[0].0 == name then [] else [a[0]],
                  DeleteParam(a[1..], name), DeleteParam(b, name));
    }
  }

  lemma DeleteParamHead(a: seq<(string, string)>, b: seq<(string, string)>, name: string)
    requires a != []
    ensures var head := if a[0].0 == name then [] else [a[0]];
      && DeleteParam(a, name) == head + DeleteParam(a[1..], name)
      && DeleteParam(a + b, name) == head + DeleteParam(a[1..] + b, name)
  {
    assert (a + b)[0] == a[0];
    assert (a + b)[1..] == a[1..] + b;
  }

  /** The reader's configuration as far as authentication goes. */
  datatype AuthConfig = AuthConfig(url: Url, authToken: Option<string>)

  /** `jwtToken` and `cleanUrl` after the constructor ran. */
  datatype AuthState = AuthState(jwtToken: Option<string>, cleanUrl: Url)

  /** JavaScript truthiness of an optional string: present and non-empty. */
  predicate Truthy(s: Option<string>) {
    s.Some? && s.value != ""
  }

  /** `conf.authToken || url.searchParams.get("jwt")`, then the `jwt`
      parameters are deleted. With a truthy token the clean URL is the
      re-serialised URL without them; otherwise there is no token and the
      configured URL is kept as it was. */
  function ProcessJwtAuth(conf: AuthConfig): (a: AuthState)
    ensures a.jwtToken.Some? ==> a.jwtToken.value != ""
    ensures a.jwtToken.None? ==> a.cleanUrl == conf.url
    ensures a.jwtToken.Some? ==> a.cleanUrl.base == conf.url.base && GetParam(a.cleanUrl.query, JwtParam).None?
    ensures a.jwtToken.Some? ==> a.cleanUrl.query == DeleteParam(conf.url.query, JwtParam)
  {
    var jwt := if Truthy(conf.authToken) then conf.authToken else GetParam(conf.url.query, JwtParam);
    if Truthy(jwt) then AuthState(jwt, Url(conf.url.base, DeleteParam(conf.url.query, JwtParam)))
    else AuthState(None, conf.url)
  }

  /** `getAuthHeaders`: a bearer Authorization header exactly when a token
      is held. */
  function AuthHeaders(a: AuthState): (h: seq<(string, string)>)
    ensures |h| <= 1
    ensures h != [] <==> a.jwtToken.Some? && a.jwtToken.value != ""
    ensures h != [] ==> h[0] == ("Authorization", "Bearer " + a.jwtToken.value)
  {
    if Truthy(a.jwtToken) then [("Authorization", "Bearer " + a.jwtToken.value)] else []
  }

  /** A non-empty configured token wins over the query; otherwise the
      first `jwt` parameter is used when it is non-empty. */
  lemma TokenSource(conf: AuthConfig)
    ensures Truthy(conf.authToken) ==> ProcessJwtAuth(conf).jwtToken == conf.authToken
    ensures !Truthy(conf.authToken) ==>
      ProcessJwtAuth(conf).jwtToken
        == if Truthy(GetParam(conf.url.query, JwtParam)) then GetParam(conf.url.query, JwtParam) else None
  {
  }

  /** Deleting one parameter name leaves the lookup of every other name
      as it was. */
  lemma {:induction false} DeleteKeepsOthers(query: seq<(string, string)>, name: string, other: string)
    requires other != name
    ensures GetParam(DeleteParam(query, name), other) == GetParam(query, other)
    decreases |query|
  {
    if query != [] {
      DeleteKeepsOthers(query[1..], name, other);
      var rest := DeleteParam(query[1..], name);
      if query[0].0 != name {
        assert DeleteParam(query, name) == [query[0]] + rest;
        assert ([query[0]] + rest)[1..] == rest;
      } else {
        assert DeleteParam(query, name) == rest;
      }
    }
  }

  /** Once a token has been taken, the clean URL carries no token of its
      own: processing it again finds none and keeps it unchanged. */
  lemma TokenConsumed(conf: AuthConfig)
    requires ProcessJwtAuth(conf).jwtToken.Some?
    ensures var clean := ProcessJwtAuth(conf).cleanUrl;
      ProcessJwtAuth(AuthConfig(clean, None)) == AuthState(None, clean)
  {
  }

  /** An empty `jwt=` parameter gives no token, and since the configured
      URL is then kept as it was, the empty parameter is still sent. */
  lemma EmptyJwtParamKept(conf: AuthConfig)
    requires !Truthy(conf.authToken) && GetParam(conf.url.query, JwtParam) == Some("")
    ensures ProcessJwtAuth(conf) == AuthState(None, conf.url)
    ensures GetParam(ProcessJwtAuth(conf).cleanUrl.query, JwtParam) == Some("")
  {
  }
}
