/**
 * The Confluence REST API v2 client: the URLs it requests and the way it
 * walks cursor-paginated listings. The network is not modelled: a single
 * request's outcome is a `fetch` parameter, and a paginated listing is the
 * sequence of responses the server gives, in order, one per request.
 */
module ApiClient {
  import opened Wrappers
  import opened Strings

  /** The `limit` query parameter sent with every listing request. */
  const PageLimit: nat := 100

  const PagesPath: string := "/wiki/api/v2/pages/"
  const StorageQuery: string := "?body-format=storage"

  /** One listing request: the URL and its `limit` and `cursor` query parameters. */
  datatype Request = Request(url: string, limit: nat, cursor: Option<string>)

  /**
   * One listing response: the HTTP status, the `results` array (empty when
   * absent) and `_links.next` (the cursor of the following page, if any).
   */
  datatype Response<T> = Response(status: int, results: seq<T>, next: Option<string>)

  /** The outcome of a single request: the HTTP status and the decoded body. */
  datatype Reply<T> = Reply(status: int, body: T)

  /** `raise_for_status()` raises for client errors (4xx) and server errors (5xx). */
  predicate IsHttpError(status: int) {
    400 <= status < 600
  }

  /** Python truthiness of an optional string: present and non-empty. */
  predicate Truthy(s: Option<string>) {
    s.Some? && s.value != ""
  }

  /** `value if value else ""`. */
  function OrEmpty(value: Option<string>): (r: string)
    ensures Truthy(value) ==> r == value.value
    ensures !Truthy(value) ==> r == ""
  {
    if Truthy(value) then value.value else ""
  }

  /** `base_url.rstrip("/") if base_url else ""`. */
  function NormalizeBaseUrl(base: Option<string>): (r: string)
    ensures !EndsWith(r, "/")
    ensures !Truthy(base) ==> r == ""
    ensures Truthy(base) ==>
      StartsWith(base.value, r) && forall i :: |r| <= i < |base.value| ==> base.value[i] == '/'
  {
    if Truthy(base) then TrimEnd(base.value, IsSlash) else ""
  }

  /** A base URL that is already normalised is kept as it is. */
  lemma {:induction false} NormalizeIdempotent(base: Option<string>)
    ensures NormalizeBaseUrl(Some(NormalizeBaseUrl(base))) == NormalizeBaseUrl(base)
  {
    var r := NormalizeBaseUrl(base);
    if r != [] {
      assert r[|r| - 1..] == [r[|r| - 1]];
    }
  }

  // ---------------------------------------------------------------------------
  // A paginated listing
  // ---------------------------------------------------------------------------

  /** A response after which the loop makes no further request. */
  predicate Stops<T>(r: Response<T>) {
    IsHttpError(r.status) || !Truthy(r.next)
  }

  /** The server eventually gives a response that ends the listing. */
  predicate HasStop<T>(responses: seq<Response<T>>) {
    exists k :: 0 <= k < |responses| && Stops(responses[k])
  }

  /** The index of the first response that ends the listing. */
  function StopAt<T>(responses: seq<Response<T>>): (k: nat)
    requires HasStop(responses)
    ensures k < |responses| && Stops(responses[k])
    ensures forall i :: 0 <= i < k ==> !Stops(responses[i])
  {
    FirstStopFrom(responses, 0)
  }

  function FirstStopFrom<T>(responses: seq<Response<T>>, i: nat): (k: nat)
    requires i <= |responses|
    requires exists k :: i <= k < |responses| && Stops(responses[k])
    ensures i <= k < |responses| && Stops(responses[k])
    ensures forall j :: i <= j < k ==> !Stops(responses[j])
    decreases |responses| - i
  {
    if Stops(responses[i]) then i else FirstStopFrom(responses, i + 1)
  }

  /** All the `results` of the given responses, in order. */
  function Flatten<T>(responses: seq<Response<T>>): seq<T>
  {
    if responses == [] then [] else Flatten(responses[..|responses| - 1]) + responses[|responses| - 1].results
  }

  /** Every item of every page is in the flattened listing. */
  lemma {:induction false} FlattenContains<T>(responses: seq<Response<T>>, i: nat, x: T)
    requires i < |responses| && x in responses[i].results
    ensures x in Flatten(responses)
    decreases |responses|
  {
    if i < |responses| - 1 {
      FlattenContains(responses[..|responses| - 1], i, x);
    }
  }

  /**
   * What a paginated listing returns: every result up to the response that
   * ends it; an HTTP error ends it with that status as the error, unless the
   * status is one of `soft`, in which case what was collected so far is
   * returned.
   */
  function Collect<T>(responses: seq<Response<T>>, soft: set<int>): (r: Result<seq<T>, int>)
    requires HasStop(responses)
    ensures r.Err? <==>
      IsHttpError(responses[StopAt(responses)].status) && responses[StopAt(responses)].status !in soft
  {
    var k := StopAt(responses);
    var last := responses[k];
    if IsHttpError(last.status) then
      if last.status in soft then Ok(Flatten(responses[..k])) else Err(last.status)
    else Ok(Flatten(responses[..k + 1]))
  }

  /**
   * The requests the listing makes: one per response up to the one that
   * ends it, every one with `limit=100`, the first without a cursor and each
   * later one with the `next` cursor of the response before it.
   */
  function RequestsMade<T>(url: string, responses: seq<Response<T>>): (rs: seq<Request>)
    requires HasStop(responses)
    ensures |rs| == StopAt(responses) + 1
    ensures rs[0].cursor.None?
    ensures forall i :: 0 < i < |rs| ==> Truthy(rs[i].cursor) && rs[i].cursor == responses[i - 1].next
    ensures forall i :: 0 <= i < |rs| ==> rs[i].url == url && rs[i].limit == PageLimit
  {
    seq(StopAt(responses) + 1, i requires 0 <= i <= StopAt(responses) =>
      Request(url, PageLimit, if i == 0 then None else responses[i - 1].next))
  }

  /**
   * The loop shared by `get_descendants` and `get_attachments`: request,
   * append the page's results, follow `_links.next` while it is non-empty.
   */
  method Paginate<T>(url: string, responses: seq<Response<T>>, soft: set<int>)
    returns (result: Result<seq<T>, int>, requests: seq<Request>)
    requires HasStop(responses)
    ensures result == Collect(responses, soft)
    ensures requests == RequestsMade(url, responses)
  {
    var all: seq<T> := [];
    var cursor: Option<string> := None;
    var i := 0;
    requests := [];
    var k := StopAt(responses);
    while true
      invariant 0 <= i <= k
      invariant all == Flatten(responses[..i])
      invariant cursor == if i == 0 then None else responses[i - 1].next
      invariant requests == RequestsMade(url, responses)[..i]
      decreases k - i
    {
      requests := requests + [Request(url, PageLimit, if Truthy(cursor) then cursor else None)];
      var response := responses[i];
      if IsHttpError(response.status) {
        if response.status in soft {
          result := Ok(all);
        } else {
          result := Err(response.status);
        }
        return;
      }
      assert responses[..i + 1][..i] == responses[..i];
      all := all + response.results;
      cursor := response.next;
      if !Truthy(cursor) {
        result := Ok(all);
        return;
      }
      i := i + 1;
    }
  }

  /** Listings that do not end in an error do not depend on which statuses are soft. */
  lemma {:induction false} SoftStatusesOnlyMatterOnError<T>(responses: seq<Response<T>>, soft: set<int>)
    requires HasStop(responses) && !IsHttpError(responses[StopAt(responses)].status)
    ensures Collect(responses, soft) == Collect(responses, {})
    ensures Collect(responses, soft) == Ok(Flatten(responses[..StopAt(responses) + 1]))
  {
  }

  /**
   * A soft status turns the error into the results collected so far; the
   * same listing without soft statuses is an error.
   */
  lemma {:induction false} SoftStatusKeepsCollected<T>(responses: seq<Response<T>>, soft: set<int>)
    requires HasStop(responses)
    requires responses[StopAt(responses)].status in soft && IsHttpError(responses[StopAt(responses)].status)
    ensures Collect(responses, soft) == Ok(Flatten(responses[..StopAt(responses)]))
    ensures Collect(responses, {}) == Err(responses[StopAt(responses)].status)
  {
  }

  /** Every item of every page fetched before the listing ended is returned. */
  lemma {:induction false} CollectedHasEveryFetchedItem<T>(responses: seq<Response<T>>, soft: set<int>, i: nat, x: T)
    requires HasStop(responses) && Collect(responses, soft).Ok?
    requires i < StopAt(responses) && x in responses[i].results
    ensures x in Collect(responses, soft).value
  {
    var k := StopAt(responses);
    if IsHttpError(responses[k].status) {
      FlattenContains(responses[..k], i, x);
    } else {
      FlattenContains(responses[..k + 1], i, x);
    }
  }

  // ---------------------------------------------------------------------------
  // The client
  // ---------------------------------------------------------------------------

  /**
   * `ConfluenceClient`: the base URL and the credentials, fixed at
   * construction. The HTTP session (basic authentication with the e-mail and
   * the token, `Accept: application/json`) is not modelled.
   */
  class ConfluenceClient {
    const baseUrl: string
    const email: string
    const apiToken: string

    /** Missing or empty values become empty strings; the base URL loses its trailing slashes. */
    constructor(baseUrl: Option<string>, email: Option<string>, apiToken: Option<string>)
      ensures this.baseUrl == NormalizeBaseUrl(baseUrl)
      ensures this.email == OrEmpty(email) && this.apiToken == OrEmpty(apiToken)
    {
      this.baseUrl := NormalizeBaseUrl(baseUrl);
      this.email := OrEmpty(email);
      this.apiToken := OrEmpty(apiToken);
    }

    /** The URL `get_page` requests; the page id sits between a fixed prefix and suffix. */
    function PageUrl(pageId: string): (u: string)
      ensures StartsWith(u, baseUrl + PagesPath) && EndsWith(u, StorageQuery)
      ensures |u| == |baseUrl + PagesPath| + |pageId| + |StorageQuery|
      ensures u[|baseUrl + PagesPath|..|u| - |StorageQuery|] == pageId
    {
      var u := baseUrl + PagesPath + pageId + StorageQuery;
      assert u[..|baseUrl + PagesPath|] == baseUrl + PagesPath;
      assert u[|u| - |StorageQuery|..] == StorageQuery;
      u
    }

    /** Different pages are requested at different URLs. */
    lemma {:induction false} PageUrlInjective(a: string, b: string)
      requires PageUrl(a) == PageUrl(b)
      ensures a == b
    {
    }

    /** The URL `get_descendants` lists; the page id sits between the pages path and `/descendants`. */
    function DescendantsUrl(pageId: string): (u: string)
      ensures StartsWith(u, baseUrl + PagesPath) && EndsWith(u, "/descendants")
      ensures |u| == |baseUrl + PagesPath| + |pageId| + |"/descendants"|
      ensures u[|baseUrl + PagesPath|..|u| - |"/descendants"|] == pageId
    {
      var u := baseUrl + PagesPath + pageId + "/descendants";
      assert u[..|baseUrl + PagesPath|] == baseUrl + PagesPath;
      assert u[|u| - |"/descendants"|..] == "/descendants";
      u
    }

    /** The URL `get_attachments` lists; the page id sits between the pages path and `/attachments`. */
    function AttachmentsUrl(pageId: string): (u: string)
      ensures StartsWith(u, baseUrl + PagesPath) && EndsWith(u, "/attachments")
      ensures |u| == |baseUrl + PagesPath| + |pageId| + |"/attachments"|
      ensures u[|baseUrl + PagesPath|..|u| - |"/attachments"|] == pageId
    {
      var u := baseUrl + PagesPath + pageId + "/attachments";
      assert u[..|baseUrl + PagesPath|] == baseUrl + PagesPath;
      assert u[|u| - |"/attachments"|..] == "/attachments";
      u
    }

    /**
     * The URL `download_attachment` requests: the relative link after
     * `<base>/wiki/`, with exactly one slash between them.
     */
    function DownloadUrl(link: string): (u: string)
      ensures StartsWith(link, "/") ==> u == baseUrl + "/wiki/" + link[1..]
      ensures !StartsWith(link, "/") ==> u == baseUrl + "/wiki/" + link
    {
      if StartsWith(link, "/") then
        assert link == "/" + link[1..];
        baseUrl + "/wiki" + link
      else baseUrl + "/wiki/" + link
    }

    /** A link with and without its leading slash downloads the same URL. */
    lemma {:induction false} DownloadLeadingSlashOptional(link: string)
      requires !StartsWith(link, "/")
      ensures DownloadUrl("/" + link) == DownloadUrl(link)
    {
      assert StartsWith("/" + link, "/");
      assert ("/" + link)[1..] == link;
    }

    /** `get_page`: the page at `PageUrl`, or the HTTP error status. */
    function GetPage<P>(pageId: string, fetch: string -> Reply<P>): (r: Result<P, int>)
      ensures r.Err? <==> IsHttpError(fetch(PageUrl(pageId)).status)
      ensures r.Err? ==> r.error == fetch(PageUrl(pageId)).status
      ensures r.Ok? ==> r.value == fetch(PageUrl(pageId)).body
    {
      var reply := fetch(PageUrl(pageId));
      if IsHttpError(reply.status) then Err(reply.status) else Ok(reply.body)
    }

    /** `download_attachment`: the content at `DownloadUrl`, or the HTTP error status. */
    function DownloadAttachment<B>(link: string, fetch: string -> Reply<B>): (r: Result<B, int>)
      ensures r.Err? <==> IsHttpError(fetch(DownloadUrl(link)).status)
      ensures r.Ok? ==> r.value == fetch(DownloadUrl(link)).body
    {
      var reply := fetch(DownloadUrl(link));
      if IsHttpError(reply.status) then Err(reply.status) else Ok(reply.body)
    }

    /** `get_descendants`: every HTTP error propagates. */
    method GetDescendants<T>(pageId: string, responses: seq<Response<T>>)
      returns (result: Result<seq<T>, int>, requests: seq<Request>)
      requires HasStop(responses)
      ensures result == Collect(responses, {})
      ensures requests == RequestsMade(DescendantsUrl(pageId), responses)
    {
      result, requests := Paginate(DescendantsUrl(pageId), responses, {});
    }

    /** `get_attachments`: a 400 or 404 ends the listing with what was collected. */
    method GetAttachments<T>(pageId: string, responses: seq<Response<T>>)
      returns (result: Result<seq<T>, int>, requests: seq<Request>)
      requires HasStop(responses)
      ensures result == Collect(responses, {400, 404})
      ensures requests == RequestsMade(AttachmentsUrl(pageId), responses)
    {
      result, requests := Paginate(AttachmentsUrl(pageId), responses, {400, 404});
    }
  }

  const BaseUrlVar: string := "CONFLUENCE_BASE_URL"
  const EmailVar: string := "CONFLUENCE_EMAIL"
  const TokenVar: string := "CONFLUENCE_API_TOKEN"
  const MissingEnvMessage: string :=
    "Missing required environment variables. Please set CONFLUENCE_BASE_URL, CONFLUENCE_EMAIL, and CONFLUENCE_API_TOKEN."

  /** `os.getenv(name)`. */
  function GetEnv(env: map<string, string>, name: string): (r: Option<string>)
    ensures r.Some? <==> name in env
  {
    if name in env then Some(env[name]) else None
  }

  /** All three variables are set and non-empty. */
  predicate EnvComplete(env: map<string, string>) {
    Truthy(GetEnv(env, BaseUrlVar)) && Truthy(GetEnv(env, EmailVar)) && Truthy(GetEnv(env, TokenVar))
  }

  /** `create_client_from_env`: the environment is a parameter. */
  method CreateClientFromEnv(env: map<string, string>) returns (r: Result<ConfluenceClient, string>)
    ensures r.Err? <==> !EnvComplete(env)
    ensures r.Err? ==> r.error == MissingEnvMessage
    ensures r.Ok? ==>
      fresh(r.value) && r.value.baseUrl == TrimEnd(env[BaseUrlVar], IsSlash)
      && r.value.email == env[EmailVar] && r.value.apiToken == env[TokenVar]
  {
    if !EnvComplete(env) {
      return Err(MissingEnvMessage);
    }
    var client := new ConfluenceClient(GetEnv(env, BaseUrlVar), GetEnv(env, EmailVar), GetEnv(env, TokenVar));
    return Ok(client);
  }
}
