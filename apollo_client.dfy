/**
 * The client's own wiring: which links it builds, from which options and in
 * which order, and where each operation is routed. Links and the cache are
 * tags: what they do belongs to third-party packages.
 */
module ApolloClient {

  import opened Wrappers
  import opened Json

  /** `getMainDefinition(query)`, reduced to the two fields the classifier reads. */
  datatype Definition = Definition(kind: string, operation: string)

  /** An operation, its query's main definition already found. */
  datatype Operation = Operation(mainDefinition: Definition)

  /** A function passed in the options, known by its name; `Noop` is lodash `noop`. */
  datatype Callback = Noop | Named(name: string)

  /** A `WebSocket` implementation (a class), known by its name. */
  datatype SocketImpl = SocketImpl(name: string)

  /** What `createBatchLink` hands to `BatchHttpLink`. */
  datatype BatchConfig = BatchConfig(
    uri: string,
    includeExtensions: Option<bool>,
    headers: Json,
    credentials: string,
    fetchOptions: Json,
    useGETForQueries: Option<bool>,
    batchMax: Option<int>,
    batchInterval: Option<int>,
    batchKey: Option<Callback>)

  datatype Link =
    | ErrorLink(onError: Callback)
    | RetryLink(delay: Option<Json>, attempts: Option<Json>)
    | BatchLink(config: BatchConfig)
    | WebSocketLink(uri: string, options: Json, webSocketImpl: SocketImpl)
    | From(links: seq<Link>)
    | Split(ws: Link, http: Link)
    | Custom(name: string)

  /** `new InMemoryCache().restore(data)`. */
  datatype Cache = InMemoryCache(restored: Json)

  /** The options object; None is a property left `undefined`. */
  datatype ClientOptions = ClientOptions(
    uri: Option<string>,
    browserUri: Option<string>,
    serverUri: Option<string>,
    wsUri: Option<string>,
    wsOptions: Option<Json>,
    webSocketImpl: Option<SocketImpl>,
    cache: Option<Json>,
    onError: Option<Callback>,
    delay: Option<Json>,
    attempts: Option<Json>,
    includeExtensions: Option<bool>,
    headers: Option<Json>,
    credentials: Option<string>,
    fetchOptions: Option<Json>,
    useGETForQueries: Option<bool>,
    batchMax: Option<int>,
    batchInterval: Option<int>,
    batchKey: Option<Callback>,
    ssrForceFetchDelay: Option<int>,
    connectToDevTools: Option<bool>,
    queryDeduplication: Option<bool>,
    name: Option<string>,
    version: Option<string>,
    defaultOptions: Option<Json>)

  /** `{}`, the constructor's default. */
  const NoOptions := ClientOptions(None, None, None, None, None, None, None, None, None, None, None, None,
                                   None, None, None, None, None, None, None, None, None, None, None, None)

  /** `isNode` and `NativeWebSocket` (the global `WebSocket`, if any). */
  datatype Platform = Platform(isNode: bool, nativeWebSocket: Option<SocketImpl>)

  const EmptyObject := JObj(map[])

  /** `testOperation`: a subscription is an operation definition whose operation is `subscription`. */
  predicate TestOperation(op: Operation) {
    op.mainDefinition.kind == "OperationDefinition" && op.mainDefinition.operation == "subscription"
  }

  /** The link `split(testOperation, ws, http)` gives an operation to; any other link keeps it. */
  function Route(link: Link, op: Operation): Link {
    if link.Split? then (if TestOperation(op) then link.ws else link.http) else link
  }

  /** `createLink` once both links are built: split only when there is a websocket link. */
  function CreateLink(wsLink: Option<Link>, httpLink: Link): Link {
    if wsLink.Some? then Split(wsLink.value, httpLink) else httpLink
  }

  /**
   * With a websocket link, subscriptions go to it and every other operation
   * to the HTTP link; without one, the HTTP link is the whole link and takes
   * every operation, subscriptions included.
   */
  lemma CreateLinkRouting(wsLink: Option<Link>, httpLink: Link, op: Operation)
    ensures wsLink.Some? ==>
              Route(CreateLink(wsLink, httpLink), op) == (if TestOperation(op) then wsLink.value else httpLink)
    ensures wsLink.None? ==> CreateLink(wsLink, httpLink) == httpLink
  {
  }

  /** The `{ reconnect: true }` default of `wsOptions`. */
  const Reconnect := JObj(map["reconnect" := JBool(true)])

  /** `createWSLink`: a websocket link when there is a non-empty `wsUri` and an implementation. */
  function CreateWSLink(platform: Platform, options: ClientOptions): (r: Option<Link>)
    ensures r.None? <==>
              options.wsUri.None? || options.wsUri.value == ""
              || (options.webSocketImpl.None? && platform.nativeWebSocket.None?)
    ensures r.Some? ==>
              && r.value.WebSocketLink?
              && r.value.uri == options.wsUri.value
              && r.value.options == (if options.wsOptions.Some? then options.wsOptions.value else Reconnect)
              && r.value.webSocketImpl == (if options.webSocketImpl.Some? then options.webSocketImpl.value
                                           else platform.nativeWebSocket.value)
  {
    var impl := if options.webSocketImpl.Some? then options.webSocketImpl else platform.nativeWebSocket;
    if options.wsUri.None? || options.wsUri.value == "" || impl.None? then None
    else Some(WebSocketLink(options.wsUri.value, options.wsOptions.GetOr(Reconnect), impl.value))
  }

  /** `createErrorLink`: the caller's callback, or `noop`. */
  function CreateErrorLink(options: ClientOptions): Link {
    ErrorLink(options.onError.GetOr(Noop))
  }

  /** `createRetryLink`: `delay` and `attempts` as given. */
  function CreateRetryLink(options: ClientOptions): Link {
    RetryLink(options.delay, options.attempts)
  }

  /** The first address given, else the fallback. */
  function FirstGiven(candidates: seq<Option<string>>, fallback: string): (r: string)
    ensures r == fallback || exists i :: 0 <= i < |candidates| && candidates[i] == Some(r)
  {
    if candidates == [] then fallback
    else if candidates[0].Some? then candidates[0].value
    else FirstGiven(candidates[1..], fallback)
  }

  /** `uri = '/graphql'`, `browserUri = uri`, `serverUri = browserUri`, then `isNode ? serverUri : browserUri`. */
  function Endpoint(isNode: bool, options: ClientOptions): string {
    var uri := options.uri.GetOr("/graphql");
    var browserUri := options.browserUri.GetOr(uri);
    var serverUri := options.serverUri.GetOr(browserUri);
    if isNode then serverUri else browserUri
  }

  /**
   * On Node the endpoint is the first of `serverUri`, `browserUri`, `uri`
   * given; in the browser the first of `browserUri`, `uri`; `/graphql`
   * otherwise.
   */
  lemma EndpointChain(isNode: bool, options: ClientOptions)
    ensures Endpoint(isNode, options) ==
              FirstGiven(if isNode then [options.serverUri, options.browserUri, options.uri]
                         else [options.browserUri, options.uri], "/graphql")
  {
    var c := if isNode then [options.serverUri, options.browserUri, options.uri] else [options.browserUri, options.uri];
    var tail := [options.browserUri, options.uri];
    assert tail[1..] == [options.uri] && tail[1..][1..] == [];
    assert FirstGiven([], "/graphql") == "/graphql";
    assert FirstGiven([options.uri], "/graphql") == options.uri.GetOr("/graphql");
    assert FirstGiven(tail, "/graphql") == options.browserUri.GetOr(options.uri.GetOr("/graphql"));
    if isNode {
      assert c[1..] == tail;
      assert FirstGiven(c, "/graphql") == (if c[0].Some? then c[0].value else FirstGiven(tail, "/graphql"));
    } else {
      assert c == tail;
    }
  }

  /** In the browser `serverUri` plays no part; on Node a given `serverUri` is the endpoint. */
  lemma EndpointSides(options: ClientOptions, serverUri: Option<string>)
    ensures Endpoint(false, options.(serverUri := serverUri)) == Endpoint(false, options)
    ensures serverUri.Some? ==> Endpoint(true, options.(serverUri := serverUri)) == serverUri.value
    ensures serverUri.None? ==> Endpoint(true, options.(serverUri := serverUri)) == Endpoint(false, options)
  {
  }

  /** `createBatchLink`: the endpoint chain plus the `{}` and `'same-origin'` defaults. */
  function CreateBatchLink(platform: Platform, options: ClientOptions): (r: Link)
    ensures r.BatchLink?
    ensures r.config.uri == Endpoint(platform.isNode, options)
    ensures r.config.headers == (if options.headers.Some? then options.headers.value else EmptyObject)
    ensures r.config.credentials == (if options.credentials.Some? then options.credentials.value else "same-origin")
    ensures r.config.fetchOptions == (if options.fetchOptions.Some? then options.fetchOptions.value else EmptyObject)
  {
    BatchLink(BatchConfig(
      Endpoint(platform.isNode, options),
      options.includeExtensions,
      options.headers.GetOr(EmptyObject),
      options.credentials.GetOr("same-origin"),
      options.fetchOptions.GetOr(EmptyObject),
      options.useGETForQueries,
      options.batchMax,
      options.batchInterval,
      options.batchKey))
  }

  /** `createCache`: an in-memory cache restored from `options.cache`, or from `{}`. */
  function CreateCache(options: ClientOptions): (r: Cache)
    ensures options.cache.Some? ==> r.restored == options.cache.value
    ensures options.cache.None? ==> r.restored == EmptyObject
  {
    InMemoryCache(options.cache.GetOr(EmptyObject))
  }

  /**
   * The static factories a caller may replace, each giving a link or a
   * falsy value (None).
   */
  datatype Factories = Factories(
    createWSLink: ClientOptions -> Option<Link>,
    createErrorLink: ClientOptions -> Option<Link>,
    createRetryLink: ClientOptions -> Option<Link>,
    createBatchLink: ClientOptions -> Option<Link>)

  /** The factories as the class defines them. */
  function Defaults(platform: Platform): Factories {
    Factories(
      o => CreateWSLink(platform, o),
      o => Some(CreateErrorLink(o)),
      o => Some(CreateRetryLink(o)),
      o => Some(CreateBatchLink(platform, o)))
  }

  /** `getLinks`: error, retry, batch. */
  function GetLinks(factories: Factories, options: ClientOptions): seq<Option<Link>> {
    [factories.createErrorLink(options), factories.createRetryLink(options), factories.createBatchLink(options)]
  }

  /** lodash `compact` on links: the falsy ones dropped. */
  function Compact(links: seq<Option<Link>>): (r: seq<Link>)
    ensures |r| <= |links|
  {
    if links == [] then []
    else (if links[0].Some? then [links[0].value] else []) + Compact(links[1..])
  }

  /** Compacting keeps exactly the links present. */
  lemma {:induction false} CompactMembers(links: seq<Option<Link>>)
    ensures forall l :: l in Compact(links) <==> Some(l) in links
  {
    if links != [] {
      CompactMembers(links[1..]);
      assert links == [links[0]] + links[1..];
    }
  }

  /** Compacting keeps the order: it works piece by piece. */
  lemma {:induction false} CompactAppend(a: seq<Option<Link>>, b: seq<Option<Link>>)
    ensures Compact(a + b) == Compact(a) + Compact(b)
  {
    if a != [] {
      assert (a + b)[1..] == a[1..] + b;
      CompactAppend(a[1..], b);
    } else {
      assert a + b == b;
    }
  }

  /** A single link, present or falsy. */
  function Present(link: Option<Link>): seq<Link> {
    if link.Some? then [link.value] else []
  }

  /** `createHttpLink`: `from(compact(getLinks(options)))`. */
  function CreateHttpLink(factories: Factories, options: ClientOptions): Link {
    From(Compact(GetLinks(factories, options)))
  }

  /** The HTTP chain is error, retry, batch in that order, any falsy one left out. */
  lemma HttpLinkOrder(factories: Factories, options: ClientOptions)
    ensures CreateHttpLink(factories, options) ==
              From(Present(factories.createErrorLink(options))
                   + Present(factories.createRetryLink(options))
                   + Present(factories.createBatchLink(options)))
  {
    var links := GetLinks(factories, options);
    CompactThree(links[0], links[1], links[2]);
  }

  lemma CompactThree(a: Option<Link>, b: Option<Link>, c: Option<Link>)
    ensures Compact([a, b, c]) == Present(a) + Present(b) + Present(c)
  {
    assert [a, b, c][1..] == [b, c] && [b, c][1..] == [c] && [c][1..] == [];
    assert Compact([c]) == Present(c) + Compact([]);
    assert Compact([b, c]) == Present(b) + Compact([c]);
    assert Compact([a, b, c]) == Present(a) + Compact([b, c]);
  }

  /** With the class's own factories the chain holds all three links. */
  lemma DefaultHttpLink(platform: Platform, options: ClientOptions)
    ensures CreateHttpLink(Defaults(platform), options) ==
              From([CreateErrorLink(options), CreateRetryLink(options), CreateBatchLink(platform, options)])
  {
    HttpLinkOrder(Defaults(platform), options);
  }

  /** `createLink` through the (possibly replaced) factories. */
  function CreateLinkWith(factories: Factories, options: ClientOptions): Link {
    CreateLink(factories.createWSLink(options), CreateHttpLink(factories, options))
  }

  /** What the constructor passes to the base client. */
  datatype ClientConfig = ClientConfig(
    link: Link,
    cache: Cache,
    ssrMode: bool,
    ssrForceFetchDelay: Option<int>,
    connectToDevTools: Option<bool>,
    queryDeduplication: Option<bool>,
    name: Option<string>,
    version: Option<string>,
    defaultOptions: Option<Json>)

  /** `new ApolloClient(options)`. */
  function NewClient(platform: Platform, factories: Factories, options: ClientOptions): ClientConfig {
    ClientConfig(
      CreateLinkWith(factories, options),
      CreateCache(options),
      platform.isNode,
      options.ssrForceFetchDelay,
      options.connectToDevTools,
      options.queryDeduplication,
      options.name,
      options.version,
      options.defaultOptions)
  }

  /**
   * A default client sends subscriptions over the websocket when it can build
   * one and everything else through the error, retry and batch chain, whose
   * endpoint is the one the platform picks.
   */
  lemma DefaultClientRouting(platform: Platform, options: ClientOptions, op: Operation)
    ensures var client := NewClient(platform, Defaults(platform), options);
            var http := From([CreateErrorLink(options), CreateRetryLink(options), CreateBatchLink(platform, options)]);
            var ws := CreateWSLink(platform, options);
            && client.ssrMode == platform.isNode
            && Route(client.link, op) == (if ws.Some? && TestOperation(op) then ws.value else http)
            && (Route(client.link, op).BatchLink? ==> Route(client.link, op).config.uri == Endpoint(platform.isNode, options))
  {
    DefaultHttpLink(platform, options);
    CreateLinkRouting(CreateWSLink(platform, options), CreateHttpLink(Defaults(platform), options), op);
  }

  /** Factories replaced by constants, as a caller may do: a falsy retry link drops out of the chain. */
  lemma ReplacedFactories(options: ClientOptions)
    ensures var f := Factories(_ => None, _ => Some(Custom("error")), _ => Some(Custom("retry")), _ => Some(Custom("batch")));
            CreateHttpLink(f, options) == From([Custom("error"), Custom("retry"), Custom("batch")])
    ensures var f := Factories(_ => None, _ => Some(Custom("error")), _ => None, _ => Some(Custom("batch")));
            CreateHttpLink(f, options) == From([Custom("error"), Custom("batch")])
  {
    var f := Factories(_ => None, _ => Some(Custom("error")), _ => Some(Custom("retry")), _ => Some(Custom("batch")));
    HttpLinkOrder(f, options);
    var g := Factories(_ => None, _ => Some(Custom("error")), _ => None, _ => Some(Custom("batch")));
    HttpLinkOrder(g, options);
  }
}
