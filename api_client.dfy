/**
 * The shared TypeScript client: it keeps the bearer token of the last
 * register or login, sends it on every request, and builds the list query.
 * Only what the client computes is modelled; `fetch` and JSON are not.
 */
module SharedClient {
  import opened Wrappers
  import opened Dtos
  import opened UrlSearchParams

  const ContentTypeJson: string := "application/json"
  const ImpulsesEndpoint: string := "/api/impulseentries"

  /** JavaScript truthiness of a `string | null | undefined`: present and not empty. */
  predicate Truthy(s: Option<string>) {
    s.Some? && s.value != ""
  }

  /** The optional filters of getImpulses. */
  datatype ImpulseFilters = ImpulseFilters(startDate: Option<string>, endDate: Option<string>, didAct: Option<string>)

  /** What the client hands to `fetch`. */
  datatype Request = Request(url: string, httpMethod: string, headers: map<string, string>)

  /** The reply `request` resolves to, or the message of the error it throws. */
  type Reply = Result<AuthResponseDto, string>

  /** The parameters getImpulses appends, in order: each date when truthy, and the outcome when
      truthy and not 'all'. */
  function ImpulseParams(filters: Option<ImpulseFilters>): (ps: seq<Pair>)
    ensures |ps| <= 3
    ensures filters.None? ==> ps == []
    ensures forall i :: 0 <= i < |ps| ==> ps[i].0 in {"startDate", "endDate", "didAct"}
  {
    if filters.None? then []
    else
      var f := filters.value;
      (if Truthy(f.startDate) then [("startDate", f.startDate.value)] else [])
      + (if Truthy(f.endDate) then [("endDate", f.endDate.value)] else [])
      + (if Truthy(f.didAct) && f.didAct.value != "all" then [("didAct", f.didAct.value)] else [])
  }

  /** The outcome is sent exactly when it is truthy and not 'all'; so 'all' and '' never are. */
  lemma ImpulseParamsOutcome(filters: Option<ImpulseFilters>)
    ensures forall v :: ("didAct", v) in ImpulseParams(filters) <==>
      filters.Some? && filters.value.didAct == Some(v) && v != "" && v != "all"
    ensures ("didAct", "all") !in ImpulseParams(filters) && ("didAct", "") !in ImpulseParams(filters)
  {
  }

  /** Each date is sent exactly when it is truthy. */
  lemma ImpulseParamsDates(filters: Option<ImpulseFilters>)
    ensures forall v :: ("startDate", v) in ImpulseParams(filters) <==>
      filters.Some? && filters.value.startDate == Some(v) && v != ""
    ensures forall v :: ("endDate", v) in ImpulseParams(filters) <==>
      filters.Some? && filters.value.endDate == Some(v) && v != ""
  {
  }

  /** Each name appears at most once, in the order startDate, endDate, didAct. */
  lemma ImpulseParamsOrder(filters: Option<ImpulseFilters>)
    ensures var ps := ImpulseParams(filters);
      forall i, j :: 0 <= i < j < |ps| ==> KeyRank(ps[i].0) < KeyRank(ps[j].0)
  {
  }

  /** The position of a list parameter in the query: startDate, then endDate, then didAct. */
  function KeyRank(key: string): nat {
    if key == "startDate" then 0 else if key == "endDate" then 1 else 2
  }

  /** `/api/impulseentries`, followed by `?` and the query only when the query is not empty. */
  function WithQuery(path: string, query: string): (r: string)
    ensures query == "" ==> r == path
    ensures query != "" ==> r == path + "?" + query
  {
    path + (if query != "" then "?" + query else "")
  }

  class ApiClient {
    const baseUrl: string
    var token: Option<string>

    constructor (baseUrl: string)
      ensures this.baseUrl == baseUrl && token == None
    {
      this.baseUrl := baseUrl;
      token := None;
    }

    method SetToken(t: Option<string>)
      modifies this
      ensures token == t
    {
      token := t;
    }

    method GetToken() returns (t: Option<string>)
      ensures t == token
    {
      t := token;
    }

    method Logout()
      modifies this
      ensures token == None
    {
      SetToken(None);
    }

    /** The headers of `request`: JSON content type, the caller's headers over it, and
        `Authorization: Bearer <token>` over both exactly when a token is held. */
    function Headers(extra: map<string, string>): (h: map<string, string>)
      reads this
      ensures "Content-Type" in h && ("Content-Type" !in extra ==> h["Content-Type"] == ContentTypeJson)
      ensures forall k :: k in extra && (k != "Authorization" || !Truthy(token)) ==> k in h && h[k] == extra[k]
      ensures Truthy(token) ==> "Authorization" in h && h["Authorization"] == "Bearer " + token.value
      ensures !Truthy(token) ==> ("Authorization" in h <==> "Authorization" in extra)
      ensures forall k :: k in h ==> k in extra || k == "Content-Type" || k == "Authorization"
    {
      var base := map["Content-Type" := ContentTypeJson] + extra;
      if Truthy(token) then base["Authorization" := "Bearer " + token.value] else base
    }

    /** The request `request(endpoint, { method })` sends. */
    function BuildRequest(endpoint: string, httpMethod: string): (r: Request)
      reads this
      ensures r.url == baseUrl + endpoint && r.httpMethod == httpMethod
      ensures "Authorization" in r.headers <==> Truthy(token)
      ensures Truthy(token) ==> r.headers["Authorization"] == "Bearer " + token.value
    {
      Request(baseUrl + endpoint, httpMethod, Headers(map[]))
    }

    /** Shared by register and login: send, and on a reply hold its token; on an error the
        token stays as it was. */
    method Authenticate(endpoint: string, reply: Reply) returns (sent: Request, r: Reply)
      modifies this
      ensures sent == old(BuildRequest(endpoint, "POST"))
      ensures r == reply
      ensures token == if reply.Success? then Some(reply.value.token) else old(token)
    {
      sent := BuildRequest(endpoint, "POST");
      if reply.Failure? {
        return sent, reply;
      }
      SetToken(Some(reply.value.token));
      r := reply;
    }

    method Register(data: RegisterDto, reply: Reply) returns (sent: Request, r: Reply)
      modifies this
      ensures sent == old(BuildRequest("/api/auth/register", "POST"))
      ensures r == reply
      ensures token == if reply.Success? then Some(reply.value.token) else old(token)
    {
      sent, r := Authenticate("/api/auth/register", reply);
    }

    method Login(data: LoginDto, reply: Reply) returns (sent: Request, r: Reply)
      modifies this
      ensures sent == old(BuildRequest("/api/auth/login", "POST"))
      ensures r == reply
      ensures token == if reply.Success? then Some(reply.value.token) else old(token)
    {
      sent, r := Authenticate("/api/auth/login", reply);
    }

    /** getImpulses: appends the filters to a URLSearchParams one by one, and asks for the path
        with the query when there is one. The server reads the same filters back. */
    method GetImpulses(filters: Option<ImpulseFilters>) returns (sent: Request)
      ensures sent.httpMethod == "GET" && sent.headers == Headers(map[])
      ensures ImpulseParams(filters) == [] ==> sent.url == baseUrl + ImpulsesEndpoint
      ensures ImpulseParams(filters) != [] ==>
        && sent.url == baseUrl + ImpulsesEndpoint + "?" + Serialize(ImpulseParams(filters))
        && ParseQuery(sent.url[|baseUrl + ImpulsesEndpoint| + 1..]) == Some(ImpulseParams(filters))
    {
      var params: seq<Pair> := [];
      if filters.Some? && Truthy(filters.value.startDate) {
        params := params + [("startDate", filters.value.startDate.value)];
      }
      if filters.Some? && Truthy(filters.value.endDate) {
        params := params + [("endDate", filters.value.endDate.value)];
      }
      if filters.Some? && Truthy(filters.value.didAct) && filters.value.didAct.value != "all" {
        params := params + [("didAct", filters.value.didAct.value)];
      }
      assert params == ImpulseParams(filters);
      sent := BuildRequest(WithQuery(ImpulsesEndpoint, Serialize(params)), "GET");
      ListUrlCarriesParams(baseUrl, params);
    }
  }

  /** The list URL is the bare endpoint when there are no parameters; otherwise the server parses
      the parameters back, in order, from what follows its `?`. */
  lemma ListUrlCarriesParams(base: string, ps: seq<Pair>)
    ensures ps == [] ==> base + WithQuery(ImpulsesEndpoint, Serialize(ps)) == base + ImpulsesEndpoint
    ensures ps != [] ==>
      var url := base + WithQuery(ImpulsesEndpoint, Serialize(ps));
      && url == base + ImpulsesEndpoint + "?" + Serialize(ps)
      && ParseQuery(url[|base + ImpulsesEndpoint| + 1..]) == Some(ps)
  {
    if ps != [] {
      var query := Serialize(ps);
      ParseSerialized(ps);
      assert base + (ImpulsesEndpoint + "?" + query) == (base + ImpulsesEndpoint + "?") + query;
    }
  }

  /** A session: after a login reply with a non-empty token the list request carries it as a
      Bearer header; after logout the same request carries no Authorization header. */
  method Session(baseUrl: string, data: LoginDto, reply: AuthResponseDto)
    returns (held: Option<string>, during: Request, afterLogout: Request)
    requires reply.token != ""
    ensures held == Some(reply.token)
    ensures "Authorization" in during.headers && during.headers["Authorization"] == "Bearer " + reply.token
    ensures "Authorization" !in afterLogout.headers
  {
    var client := new ApiClient(baseUrl);
    var _, _ := client.Login(data, Success(reply));
    held := client.GetToken();
    during := client.GetImpulses(None);
    client.Logout();
    afterLogout := client.GetImpulses(None);
  }
}
