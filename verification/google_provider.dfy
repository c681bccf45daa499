/** `GoogleProvider`: the per-account cache of Google Drive access objects, the access-token
    provider behind each of them, and the OAuth request texts. */
module GoogleProvider {
  import opened Wrappers
  import opened Strings
  import Records

  /** At most this many access objects are cached. */
  const CacheCapacity: nat := 100

  /** A Google Drive access object; it fetches access tokens with the account's refresh token. */
  datatype GoogleAccess = GoogleAccess(refreshToken: string)

  /** One cached `(id, access)` pair. */
  datatype Entry = Entry(id: string, access: GoogleAccess)

  /** What reading the account's `google.config` file and deserialising it gave: no file,
      text that is not JSON (deserialising throws), or the configuration, whose
      `RefreshToken` may be null. */
  datatype StoredConfig = Missing | Unparsable | Config(refreshToken: Option<string>)

  /** The exceptions `GetAccess` lets through. */
  datatype AccessError = ConfigUnparsable

  /** No id is cached twice. */
  predicate DistinctIds(cache: seq<Entry>) {
    forall i, j :: 0 <= i < j < |cache| ==> cache[i].id != cache[j].id
  }

  /** `_cache.FirstOrDefault(x => id.Equals(x.id)).access`: the access of the first entry
      with this id, or null. */
  function Lookup(cache: seq<Entry>, id: string): (r: Option<GoogleAccess>)
    ensures r.None? <==> forall i :: 0 <= i < |cache| ==> cache[i].id != id
    ensures r.Some? ==> exists i :: 0 <= i < |cache| && cache[i] == Entry(id, r.value) &&
                                    (forall j :: 0 <= j < i ==> cache[j].id != id)
  {
    if cache == [] then None
    else if cache[0].id == id then
      assert cache[0] == Entry(id, cache[0].access);
      Some(cache[0].access)
    else
      var r := Lookup(cache[1..], id);
      assert forall i :: 1 <= i < |cache| ==> cache[i] == cache[1..][i - 1];
      if r.Some? then
        var i :| 0 <= i < |cache[1..]| && cache[1..][i] == Entry(id, r.value) &&
                 (forall j :: 0 <= j < i ==> cache[1..][j].id != id);
        assert cache[i + 1] == Entry(id, r.value);
        r
      else
        r
  }

  /** `while (_cache.Count > 100) _cache.RemoveAt(0)`: the entries that remain, the most
      recent ones. */
  function Evict(cache: seq<Entry>): (r: seq<Entry>)
    ensures |r| <= CacheCapacity
    ensures |r| == if |cache| <= CacheCapacity then |cache| else CacheCapacity
    ensures r == cache[|cache| - |r|..]
  {
    if |cache| <= CacheCapacity then cache else cache[|cache| - CacheCapacity..]
  }

  /** Appending to a full cache evicts exactly its oldest entry, the first inserted:
      eviction is first-in first-out. */
  lemma EvictOldest(cache: seq<Entry>, e: Entry)
    requires |cache| == CacheCapacity
    ensures Evict(cache + [e]) == cache[1..] + [e]
  {
  }

  /** Appending an entry whose id is not cached and evicting keeps the ids distinct. */
  lemma EvictKeepsIdsDistinct(cache: seq<Entry>, e: Entry)
    requires DistinctIds(cache) && Lookup(cache, e.id).None?
    ensures DistinctIds(Evict(cache + [e]))
  {
    var full := cache + [e];
    assert DistinctIds(full) by {
      forall i, j | 0 <= i < j < |full| ensures full[i].id != full[j].id {
        if j == |cache| {
          assert full[i] == cache[i];
        } else {
          assert full[i] == cache[i] && full[j] == cache[j];
        }
      }
    }
    var r := Evict(full);
    var k := |full| - |r|;
    forall i, j | 0 <= i < j < |r| ensures r[i].id != r[j].id {
      assert r[i] == full[k + i] && r[j] == full[k + j];
    }
  }

  /** The provider's cache of access objects, oldest first. */
  class GoogleProvider {
    var cache: seq<Entry>

    ghost predicate Valid()
      reads this
    {
      |cache| <= CacheCapacity && DistinctIds(cache)
    }

    constructor ()
      ensures Valid() && cache == []
    {
      cache := [];
    }

    /** `GetAccess`: the cached access for `id`, untouched and in place; otherwise the
        access built from the stored refresh token, cached at the end when `hasAccess`
        (whether the new access reaches the drive) holds, with the oldest entries evicted
        beyond the capacity. Every null result leaves the cache as it was. */
    method GetAccess(id: string, config: StoredConfig, hasAccess: bool) returns (r: Result<Option<GoogleAccess>, AccessError>)
      requires Valid()
      modifies this
      ensures Valid()
      ensures Lookup(old(cache), id).Some? ==> r == Ok(Lookup(old(cache), id)) && cache == old(cache)
      ensures Lookup(old(cache), id).None? && config == Unparsable ==> r == Err(ConfigUnparsable) && cache == old(cache)
      ensures Lookup(old(cache), id).None? && (config.Missing? || config == Config(None)) ==>
        r == Ok(None) && cache == old(cache)
      ensures Lookup(old(cache), id).None? && config.Config? && config.refreshToken.Some? ==>
        var access := GoogleAccess(config.refreshToken.value);
        if hasAccess then r == Ok(Some(access)) && cache == Evict(old(cache) + [Entry(id, access)])
        else r == Ok(None) && cache == old(cache)
    {
      var cached := Lookup(cache, id);
      if cached.Some? {
        return Ok(cached);
      }
      if config.Missing? {
        return Ok(None);
      }
      if config.Unparsable? {
        return Err(ConfigUnparsable);
      }
      var refresh := config.refreshToken;
      if refresh.None? {
        return Ok(None);
      }
      var access := GoogleAccess(refresh.value);
      if hasAccess {
        EvictKeepsIdsDistinct(cache, Entry(id, access));
        cache := cache + [Entry(id, access)];
        ghost var full := cache;
        ghost var removed := 0;
        while |cache| > CacheCapacity
          invariant 0 <= removed <= |full| && cache == full[removed..]
          invariant removed == 0 || |cache| >= CacheCapacity
          decreases |cache|
        {
          cache := cache[1..];
          removed := removed + 1;
        }
        return Ok(Some(access));
      } else {
        return Ok(None);
      }
    }
  }

  /** The reply to a token request, deserialised; `access_token` may be null. */
  datatype AccessTokenJson = AccessTokenJson(accessToken: Option<string>, expiresIn: int)

  /** A token fetch: the form body posted, if any, and the token it gave, if any. */
  datatype Fetch = Fetch(posted: Option<string>, token: Option<AccessTokenJson>)

  const TokenEndpoint: string := "https://www.googleapis.com/oauth2/v4/token"

  /** The form body of a refresh-token grant. */
  function RefreshRequestBody(clientId: string, clientSecret: string, refreshToken: string): (body: string)
    ensures StartsWith(body, "client_id=" + clientId + "&")
    ensures EndsWith(body, "&grant_type=refresh_token")
  {
    var head := "client_id=" + clientId + "&";
    var rest := "client_secret=" + clientSecret + "&" + "refresh_token=" + refreshToken;
    var tail := "&grant_type=refresh_token";
    assert head + rest + tail == "client_id=" + clientId + "&" + "client_secret=" + clientSecret + "&"
      + "refresh_token=" + refreshToken + "&" + "grant_type=refresh_token";
    assert (head + rest + tail)[..|head|] == head;
    assert (head + rest + tail)[|head + rest|..] == tail;
    head + rest + tail
  }

  /** `FetchAccessTokenFromGoogle`: an empty refresh token gives null without posting;
      otherwise the refresh grant is posted and `reply` is what it gave (null when the post
      failed or the reply deserialised to null). */
  function FetchAccessTokenFromGoogle(clientId: string, clientSecret: string, refreshToken: string, reply: Option<AccessTokenJson>): (r: Fetch)
    ensures refreshToken == "" <==> r.posted.None?
    ensures refreshToken == "" ==> r.token.None?
    ensures refreshToken != "" ==> r.token == reply
    ensures r.posted.Some? ==> StartsWith(r.posted.value, "client_id=" + clientId + "&")
  {
    if refreshToken == "" then Fetch(None, None)
    else Fetch(Some(RefreshRequestBody(clientId, clientSecret, refreshToken)), reply)
  }

  /** `AccessTokenProvider`: the access token last fetched and the instant it expires. */
  class AccessTokenProvider {
    const refreshToken: Option<string>
    const clientId: string
    const clientSecret: string
    var accessToken: Option<string>
    var expiration: Records.DateTime

    constructor (refreshToken: Option<string>, clientId: string, clientSecret: string)
      ensures this.refreshToken == refreshToken && this.clientId == clientId && this.clientSecret == clientSecret
      ensures accessToken.None? && expiration == Records.MinValue
    {
      this.refreshToken := refreshToken;
      this.clientId := clientId;
      this.clientSecret := clientSecret;
      accessToken := None;
      expiration := Records.MinValue;
    }

    /** `GetAccessToken` at instant `now`: the stored token while it has not expired, without
        fetching; otherwise a fetched token, stored with an expiration `expires_in - 10`
        seconds after `now`. A failed fetch gives null and changes nothing. */
    method GetAccessToken(now: Records.DateTime, reply: Option<AccessTokenJson>) returns (r: Option<string>, ghost fetched: bool)
      modifies this
      ensures old(accessToken).Some? && old(expiration).ticks > now.ticks ==>
        r == old(accessToken) && !fetched && accessToken == old(accessToken) && expiration == old(expiration)
      ensures fetched <==> !(old(accessToken).Some? && old(expiration).ticks > now.ticks) && refreshToken.Some? && refreshToken.value != ""
      ensures !(old(accessToken).Some? && old(expiration).ticks > now.ticks) ==>
        var got := if refreshToken.Some? then FetchAccessTokenFromGoogle(clientId, clientSecret, refreshToken.value, reply).token else None;
        if got.Some? then
          accessToken == got.value.accessToken && r == accessToken &&
          expiration == Records.DateTime(now.ticks + (got.value.expiresIn - 10) * Records.TicksPerSecond)
        else
          r.None? && accessToken == old(accessToken) && expiration == old(expiration)
    {
      fetched := false;
      if accessToken.Some? && expiration.ticks > now.ticks {
        return accessToken, false;
      }
      if refreshToken.Some? {
        var access := FetchAccessTokenFromGoogle(clientId, clientSecret, refreshToken.value, reply);
        fetched := access.posted.Some?;
        if access.token.Some? {
          accessToken := access.token.value.accessToken;
          expiration := Records.DateTime(now.ticks + (access.token.value.expiresIn - 10) * Records.TicksPerSecond);
          return accessToken, fetched;
        }
      }
      r := None;
    }
  }

  const AuthEndpoint: string := "https://accounts.google.com/o/oauth2/v2/auth?"

  /** The fixed parameters that follow the endpoint, up to the login hint. */
  const FixedParameters: string :=
    "scope=email%20profile%20https://www.googleapis.com/auth/drive&" +
    "access_type=offline&" +
    "include_granted_scopes=true&" +
    "state=googlecode&" +
    "response_type=code&"

  /** `CreateRequestAccessUrl`: the consent-page address with the login hint and the client
      id; the client appends its own `redirect_uri`. */
  function CreateRequestAccessUrl(email: string, clientId: string): (url: string)
    ensures StartsWith(url, AuthEndpoint)
    ensures var hint := "login_hint=" + email + "&";
      var at := |AuthEndpoint + FixedParameters|;
      at + |hint| <= |url| && url[at..at + |hint|] == hint
    ensures EndsWith(url, "client_id=" + clientId + "&")
  {
    var head := AuthEndpoint + FixedParameters;
    var hint := "login_hint=" + email + "&";
    var tail := "prompt=select_account&" + "client_id=" + clientId + "&";
    var url := head + hint + tail;
    assert url[..|AuthEndpoint|] == AuthEndpoint by {
      assert url == AuthEndpoint + (FixedParameters + hint + tail);
    }
    assert url[|head|..|head| + |hint|] == hint;
    assert url[|url| - |"client_id=" + clientId + "&"|..] == "client_id=" + clientId + "&" by {
      assert url == (head + hint + "prompt=select_account&") + ("client_id=" + clientId + "&");
    }
    url
  }
}
