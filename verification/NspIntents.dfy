/**
 * The intent-type catalogue client of `backend/nsp-intents.go`: the
 * `name_version` key codec, the paginated intent-type search and the lookup of
 * an intent type's YANG modules.
 *
 * The HTTP exchange is an abstract server: a function from the request to the
 * reply it gets (a transport error, or a status code and a body that did or did
 * not decode).
 */
module NspIntents {
  import opened Wrappers
  import opened GoStrings
  import opened Sequences

  /** One entry of a search reply. */
  datatype IntentType = IntentType(name: string, version: int)

  /** The decoded `ibn-administration:output` of one search page. */
  datatype SearchOutput = SearchOutput(pageSize: int, totalCount: int, intentTypes: seq<IntentType>)

  /** One YANG module of an intent type. */
  datatype YangModule = YangModule(name: string, yangContent: string)

  /** The response body, which either decodes into a `T` or does not. */
  datatype Body<T> = Malformed(reason: string) | Decoded(value: T)

  /** What one HTTP request returns: a transport-level error or a status and a body. */
  datatype Reply<T> = TransportFailure(reason: string) | HttpReply(status: int, body: Body<T>)

  /** The search endpoint, asked for one page: (page number, page size) to reply. */
  type SearchServer = (int, int) -> Reply<SearchOutput>

  /** The module endpoint, asked for one intent type: (name, version) to reply. */
  type ModuleServer = (string, string) -> Reply<seq<YangModule>>

  /** Which of the two requests an error comes from. */
  datatype Operation = SearchIntentTypes | FetchYangModules

  /** The errors the two operations return, one constructor per `fmt.Errorf`. */
  datatype Error =
    | InvalidFormat(key: string)
    | Transport(op: Operation, reason: string)
    | BadStatus(op: Operation, status: int)
    | DecodeFailure(op: Operation, reason: string)
    | Paginated(inner: Error)

  /** The text of an error, as the source formats it. */
  function Message(e: Error): (m: string)
    ensures HasPrefix(m, "[Error] ")
    decreases e, 1
  {
    "[Error] " + Detail(e)
  }

  /** The text that follows the "[Error] " prefix of each message. */
  function Detail(e: Error): string
    decreases e, 0
  {
    match e
    case InvalidFormat(key) => "invalid intent type format: " + key
    case Transport(SearchIntentTypes, reason) => "fetching intent types: " + reason
    case Transport(FetchYangModules, reason) => "fetching YANG modules for intent type: " + reason
    case BadStatus(SearchIntentTypes, status) => "fetching intent types, status: " + Decimal(status)
    case BadStatus(FetchYangModules, status) => "fetching YANG modules, status: " + Decimal(status)
    case DecodeFailure(SearchIntentTypes, reason) => "decoding intent type search response: " + reason
    case DecodeFailure(FetchYangModules, reason) => "decoding YANG modules response: " + reason
    case Paginated(inner) => "fetching paginated intent types: " + Message(inner)
  }

  predicate HasPrefix(s: string, prefix: string) {
    |prefix| <= |s| && s[..|prefix|] == prefix
  }

  /**
   * How both operations read a reply: a transport error first, then any status
   * other than 200 (the body is then not decoded at all), then a body that does
   * not decode.
   */
  function Receive<T>(op: Operation, reply: Reply<T>): (r: Result<T, Error>)
    ensures r.Success? <==> reply.HttpReply? && reply.status == 200 && reply.body.Decoded?
    ensures r.Success? ==> r.value == reply.body.value
    ensures reply.TransportFailure? ==> r == Failure(Transport(op, reply.reason))
    ensures reply.HttpReply? && reply.status != 200 ==> r == Failure(BadStatus(op, reply.status))
  {
    match reply
    case TransportFailure(reason) => Failure(Transport(op, reason))
    case HttpReply(status, body) =>
      if status != 200 then Failure(BadStatus(op, status))
      else match body
        case Malformed(reason) => Failure(DecodeFailure(op, reason))
        case Decoded(value) => Success(value)
  }

  // ---------------------------------------------------------------------------
  // The key codec

  /** The key the search lists an intent type under: `name_version`. */
  function IntentKey(name: string, version: int): string {
    name + "_" + Decimal(version)
  }

  /**
   * The split of a key at its last underscore into (name, version). The
   * version part is not checked to be a number.
   */
  function SplitKey(key: string): (r: Result<(string, string), Error>)
    ensures r.Failure? <==> '_' !in key
    ensures r.Failure? ==> r.error == InvalidFormat(key)
    ensures r.Success? ==> r.value.0 + "_" + r.value.1 == key && '_' !in r.value.1
  {
    var lastInd := LastIndex(key, '_');
    if lastInd == -1 then Failure(InvalidFormat(key))
    else
      assert key == key[..lastInd] + "_" + key[lastInd + 1..];
      Success((key[..lastInd], key[lastInd + 1..]))
  }

  /**
   * Splitting a key the search built gives back the listed name, underscores
   * included, and the decimal form of the version.
   */
  lemma KeyRoundTrip(name: string, version: int)
    ensures SplitKey(IntentKey(name, version)) == Success((name, Decimal(version)))
  {
    var key := IntentKey(name, version);
    var i := LastIndex(key, '_');
    assert key[|name|] == '_';
    assert key[..|name|] == name;
    assert key[|name| + 1..] == Decimal(version);
    assert i == |name|;
  }

  /** Different intent types are listed under different keys. */
  lemma IntentKeyInjective(name1: string, version1: int, name2: string, version2: int)
    requires IntentKey(name1, version1) == IntentKey(name2, version2)
    ensures name1 == name2 && version1 == version2
  {
    KeyRoundTrip(name1, version1);
    KeyRoundTrip(name2, version2);
    DecimalInjective(version1, version2);
  }

  /** Examples of keys whose version part is odd or missing. */
  lemma SplitKeyExamples()
    ensures SplitKey("foo_") == Success(("foo", ""))
    ensures SplitKey("a_b") == Success(("a", "b"))
    ensures SplitKey("foo_bar_2") == Success(("foo_bar", "2"))
    ensures SplitKey("noversion") == Failure(InvalidFormat("noversion"))
  {
    assert LastIndex("foo_", '_') == 3;
    assert "foo_"[..3] == "foo" && "foo_"[4..] == "";
    assert LastIndex("a_b", '_') == 1;
    assert "a_b"[..1] == "a" && "a_b"[2..] == "b";
    assert LastIndex("foo_bar_2", '_') == 7;
    assert "foo_bar_2"[..7] == "foo_bar" && "foo_bar_2"[8..] == "2";
    assert '_' !in "noversion";
  }

  // ---------------------------------------------------------------------------
  // The module lookup

  /**
   * `intentTypeYangModules`: split the key, then ask the module endpoint for
   * (name, version) and read its reply.
   */
  function IntentTypeYangModules(key: string, server: ModuleServer): (r: Result<seq<YangModule>, Error>)
    ensures '_' !in key ==> r == Failure(InvalidFormat(key))
    ensures '_' in key ==> exists name, version :: key == name + "_" + version && '_' !in version &&
                                                    r == Receive(FetchYangModules, server(name, version))
  {
    match SplitKey(key)
    case Failure(e) => Failure(e)
    case Success((name, version)) => Receive(FetchYangModules, server(name, version))
  }

  /**
   * Looking up the modules of a key the search listed asks the server about
   * exactly the listed name and version.
   */
  lemma ModulesOfListedKey(name: string, version: int, server: ModuleServer)
    ensures IntentTypeYangModules(IntentKey(name, version), server)
         == Receive(FetchYangModules, server(name, Decimal(version)))
  {
    KeyRoundTrip(name, version);
  }

  // ---------------------------------------------------------------------------
  // The paginated search

  /** The key of one intent type. */
  function KeyOf(item: IntentType): string {
    IntentKey(item.name, item.version)
  }

  /** The keys of one page, in the order the server listed them. */
  function PageKeys(items: seq<IntentType>): seq<string> {
    Map(items, KeyOf)
  }

  /** A page gives one key per intent type, `name_version`, in the order the server listed them. */
  lemma PageKeysInOrder(items: seq<IntentType>)
    ensures |PageKeys(items)| == |items|
    ensures forall i :: 0 <= i < |items| ==> PageKeys(items)[i] == items[i].name + "_" + Decimal(items[i].version)
  {
    MapAt(items, KeyOf);
  }

  /**
   * The continuation rule: a page asks for the next one when it reports the
   * requested page size and a total count above it. Neither the page number nor
   * how many keys have been fetched so far takes part.
   */
  predicate MoreAfter(output: SearchOutput, pageSize: int) {
    output.pageSize == pageSize && output.totalCount > pageSize
  }

  /** Whether page `pageNumber` arrives and asks for the next one. */
  predicate Continues(server: SearchServer, pageNumber: int, pageSize: int) {
    var r := Receive(SearchIntentTypes, server(pageNumber, pageSize));
    r.Success? && MoreAfter(r.value, pageSize)
  }

  /**
   * The search started at `pageNumber` issues at most `fuel` requests: some
   * page among the next `fuel` fails or does not ask for more. The source has no
   * such bound; this is only the hypothesis under which the search terminates.
   */
  predicate StopsWithin(server: SearchServer, pageNumber: int, pageSize: int, fuel: nat)
    decreases fuel
  {
    fuel > 0 && (Continues(server, pageNumber, pageSize) ==> StopsWithin(server, pageNumber + 1, pageSize, fuel - 1))
  }

  /**
   * `intentTypeSearch(pageNumber, pageSize)` against `server`: this page's keys
   * followed by those of the pages after it, or the first error met, wrapped
   * once per page that asked for more before it.
   */
  function Search(server: SearchServer, pageNumber: int, pageSize: int, fuel: nat): Result<seq<string>, Error>
    requires StopsWithin(server, pageNumber, pageSize, fuel)
    decreases fuel
  {
    match Receive(SearchIntentTypes, server(pageNumber, pageSize))
    case Failure(e) => Failure(e)
    case Success(output) =>
      var keys := PageKeys(output.intentTypes);
      if MoreAfter(output, pageSize) then
        match Search(server, pageNumber + 1, pageSize, fuel - 1)
        case Failure(e) => Failure(Paginated(e))
        case Success(rest) => Success(keys + rest)
      else Success(keys)
  }

  /** How many requests the search started at `pageNumber` issues. */
  function PagesRequested(server: SearchServer, pageNumber: int, pageSize: int, fuel: nat): nat
    requires StopsWithin(server, pageNumber, pageSize, fuel)
    decreases fuel
  {
    if Continues(server, pageNumber, pageSize)
    then 1 + PagesRequested(server, pageNumber + 1, pageSize, fuel - 1)
    else 1
  }

  /**
   * The requests are for pages pageNumber, pageNumber + 1, ... with the same
   * page size; every one but the last got a page asking for more, and the last
   * one did not.
   */
  lemma {:induction false} PagesRequestedUpToFirstStop(server: SearchServer, pageNumber: int, pageSize: int, fuel: nat)
    requires StopsWithin(server, pageNumber, pageSize, fuel)
    ensures var n := PagesRequested(server, pageNumber, pageSize, fuel);
      1 <= n <= fuel &&
      (forall q :: pageNumber <= q < pageNumber + n - 1 ==> Continues(server, q, pageSize)) &&
      !Continues(server, pageNumber + n - 1, pageSize)
    decreases fuel
  {
    if Continues(server, pageNumber, pageSize) {
      PagesRequestedUpToFirstStop(server, pageNumber + 1, pageSize, fuel - 1);
    }
  }

  /** The bound `fuel` only licenses termination: any sufficient bound gives the same result. */
  lemma {:induction false} SearchIgnoresFuel(server: SearchServer, pageNumber: int, pageSize: int, fuel1: nat, fuel2: nat)
    requires StopsWithin(server, pageNumber, pageSize, fuel1)
    requires StopsWithin(server, pageNumber, pageSize, fuel2)
    ensures Search(server, pageNumber, pageSize, fuel1) == Search(server, pageNumber, pageSize, fuel2)
    ensures PagesRequested(server, pageNumber, pageSize, fuel1) == PagesRequested(server, pageNumber, pageSize, fuel2)
    decreases fuel1
  {
    if Continues(server, pageNumber, pageSize) {
      SearchIgnoresFuel(server, pageNumber + 1, pageSize, fuel1 - 1, fuel2 - 1);
    }
  }

  /**
   * A server that keeps reporting the requested page size and a larger total
   * count is never done with: no number of requests ends the search.
   */
  lemma {:induction false} EndlessWhenServerAlwaysContinues(server: SearchServer, pageNumber: int, pageSize: int, fuel: nat)
    requires forall q :: Continues(server, q, pageSize)
    ensures !StopsWithin(server, pageNumber, pageSize, fuel)
    decreases fuel
  {
    if fuel > 0 {
      EndlessWhenServerAlwaysContinues(server, pageNumber + 1, pageSize, fuel - 1);
    }
  }

  /** Whether page `q` arrives (status 200 and a body that decodes). */
  predicate Delivered(server: SearchServer, q: int, pageSize: int) {
    Receive(SearchIntentTypes, server(q, pageSize)).Success?
  }

  /** The keys of page `q` when it arrived, and none when it did not. */
  function DeliveredKeys(server: SearchServer, q: int, pageSize: int): seq<string> {
    match Receive(SearchIntentTypes, server(q, pageSize))
    case Success(output) => PageKeys(output.intentTypes)
    case Failure(_) => []
  }

  /**
   * A reference for the result, built from the front: the keys of pages
   * `first`, ..., `first + n - 1`, each page's keys after those of the page
   * before it.
   */
  function KeysOfPages(server: SearchServer, first: int, pageSize: int, n: nat): seq<string> {
    if n == 0 then []
    else KeysOfPages(server, first, pageSize, n - 1) + DeliveredKeys(server, first + n - 1, pageSize)
  }

  lemma {:induction false} KeysOfPagesFirst(server: SearchServer, first: int, pageSize: int, n: nat)
    requires n > 0
    ensures KeysOfPages(server, first, pageSize, n)
         == DeliveredKeys(server, first, pageSize) + KeysOfPages(server, first + 1, pageSize, n - 1)
  {
    if n > 1 {
      KeysOfPagesFirst(server, first, pageSize, n - 1);
      AppendAssoc(DeliveredKeys(server, first, pageSize), KeysOfPages(server, first + 1, pageSize, n - 2),
                  DeliveredKeys(server, first + n - 1, pageSize));
    }
  }

  /** `e` wrapped once per page that asked for more before the failing one. */
  function Wrapped(depth: nat, e: Error): Error {
    if depth == 0 then e else Paginated(Wrapped(depth - 1, e))
  }

  /**
   * The search succeeds exactly when every page it requests arrives, and then
   * returns the keys of those pages in page order, each page in server order.
   */
  predicate SucceedsWithPageKeys(server: SearchServer, pageNumber: int, pageSize: int, fuel: nat)
    requires StopsWithin(server, pageNumber, pageSize, fuel)
  {
    var n := PagesRequested(server, pageNumber, pageSize, fuel);
    var r := Search(server, pageNumber, pageSize, fuel);
    (r.Success? <==> forall q :: pageNumber <= q < pageNumber + n ==> Delivered(server, q, pageSize)) &&
    (r.Success? ==> r.value == KeysOfPages(server, pageNumber, pageSize, n))
  }

  /** A page that does not ask for more is the only page requested. */
  lemma SearchStopPage(server: SearchServer, pageNumber: int, pageSize: int, fuel: nat)
    requires StopsWithin(server, pageNumber, pageSize, fuel)
    requires !Continues(server, pageNumber, pageSize)
    ensures SucceedsWithPageKeys(server, pageNumber, pageSize, fuel)
  {
    var n := PagesRequested(server, pageNumber, pageSize, fuel);
    assert n == 1;
    assert (forall q :: pageNumber <= q < pageNumber + n ==> Delivered(server, q, pageSize))
       <==> Delivered(server, pageNumber, pageSize);
    assert KeysOfPages(server, pageNumber, pageSize, 1)
        == KeysOfPages(server, pageNumber, pageSize, 0) + DeliveredKeys(server, pageNumber, pageSize);
  }

  /** A page that asks for more puts its keys in front of those of the pages after it. */
  lemma SearchContinuePage(server: SearchServer, pageNumber: int, pageSize: int, fuel: nat)
    requires StopsWithin(server, pageNumber, pageSize, fuel)
    requires Continues(server, pageNumber, pageSize)
    requires SucceedsWithPageKeys(server, pageNumber + 1, pageSize, fuel - 1)
    ensures SucceedsWithPageKeys(server, pageNumber, pageSize, fuel)
  {
    var n := PagesRequested(server, pageNumber, pageSize, fuel);
    if forall q :: pageNumber <= q < pageNumber + n ==> Delivered(server, q, pageSize) {
      KeysOfPagesFirst(server, pageNumber, pageSize, n);
    }
  }

  lemma {:induction false} SearchSuccess(server: SearchServer, pageNumber: int, pageSize: int, fuel: nat)
    requires StopsWithin(server, pageNumber, pageSize, fuel)
    ensures SucceedsWithPageKeys(server, pageNumber, pageSize, fuel)
    decreases fuel
  {
    if Continues(server, pageNumber, pageSize) {
      SearchSuccess(server, pageNumber + 1, pageSize, fuel - 1);
      SearchContinuePage(server, pageNumber, pageSize, fuel);
    } else {
      SearchStopPage(server, pageNumber, pageSize, fuel);
    }
  }

  /**
   * When page `pageNumber + k` is the first requested page that does not
   * arrive, the search returns that page's error wrapped `k` times and no keys
   * at all, whatever the earlier pages held.
   */
  lemma {:induction false} SearchFailure(server: SearchServer, pageNumber: int, pageSize: int, fuel: nat, k: nat)
    requires StopsWithin(server, pageNumber, pageSize, fuel)
    requires k < PagesRequested(server, pageNumber, pageSize, fuel)
    requires forall q :: pageNumber <= q < pageNumber + k ==> Delivered(server, q, pageSize)
    requires !Delivered(server, pageNumber + k, pageSize)
    ensures Search(server, pageNumber, pageSize, fuel)
         == Failure(Wrapped(k, Receive(SearchIntentTypes, server(pageNumber + k, pageSize)).error))
    decreases fuel
  {
    if k > 0 {
      assert Delivered(server, pageNumber, pageSize);
      SearchFailure(server, pageNumber + 1, pageSize, fuel - 1, k - 1);
    }
  }

  lemma PageKeysAppend(a: seq<IntentType>, b: seq<IntentType>)
    ensures PageKeys(a + b) == PageKeys(a) + PageKeys(b)
  {
    MapAppend(a, b, KeyOf);
  }

  function Min(x: int, y: int): int {
    if x <= y then x else y
  }

  /** The position page `q` starts at when pages hold `pageSize` items: q times pageSize. */
  function PageStart(q: nat, pageSize: nat): nat {
    if q == 0 then 0 else PageStart(q - 1, pageSize) + pageSize
  }

  /**
   * Page `q` of a fixed list of intent types, served as the continuation rule
   * expects: the items from PageStart(q, pageSize) onwards, at most pageSize
   * of them, reporting as its page size how many items it holds and as its
   * total count the length of the whole list.
   */
  function DatasetPage(items: seq<IntentType>, q: int, pageSize: int): Reply<SearchOutput> {
    if q < 0 || pageSize <= 0 then HttpReply(200, Decoded(SearchOutput(0, |items|, [])))
    else
      var lo := Min(PageStart(q, pageSize), |items|);
      var hi := Min(PageStart(q, pageSize) + pageSize, |items|);
      var chunk := items[lo..hi];
      HttpReply(200, Decoded(SearchOutput(|chunk|, |items|, chunk)))
  }

  function DatasetServer(items: seq<IntentType>): SearchServer {
    (q: int, pageSize: int) => DatasetPage(items, q, pageSize)
  }

  /** A page that arrives and does not ask for more ends the search with its own keys. */
  lemma SearchLastPage(server: SearchServer, pageNumber: int, pageSize: int, output: SearchOutput)
    requires server(pageNumber, pageSize) == HttpReply(200, Decoded(output)) && !MoreAfter(output, pageSize)
    ensures StopsWithin(server, pageNumber, pageSize, 1)
    ensures Search(server, pageNumber, pageSize, 1) == Success(PageKeys(output.intentTypes))
  {
  }

  /** A page that arrives and asks for more puts its keys in front of the rest of the search. */
  lemma SearchNextPage(server: SearchServer, pageNumber: int, pageSize: int, output: SearchOutput, fuel: nat, rest: seq<string>)
    requires server(pageNumber, pageSize) == HttpReply(200, Decoded(output)) && MoreAfter(output, pageSize)
    requires StopsWithin(server, pageNumber + 1, pageSize, fuel)
    requires Search(server, pageNumber + 1, pageSize, fuel) == Success(rest)
    ensures StopsWithin(server, pageNumber, pageSize, fuel + 1)
    ensures Search(server, pageNumber, pageSize, fuel + 1) == Success(PageKeys(output.intentTypes) + rest)
  {
  }

  /** What the dataset server answers for page `q`. */
  lemma DatasetReply(items: seq<IntentType>, pageSize: int, q: nat)
    requires pageSize > 0 && PageStart(q, pageSize) <= |items|
    ensures var lo := PageStart(q, pageSize);
      var chunk := items[lo..Min(lo + pageSize, |items|)];
      DatasetServer(items)(q, pageSize) == HttpReply(200, Decoded(SearchOutput(|chunk|, |items|, chunk)))
  {
  }

  /**
   * A page holding the `pageSize` items of `items` from `lo` on, with a total
   * count above the page size, puts their keys in front of the rest.
   */
  lemma SearchFullPage(server: SearchServer, pageNumber: int, pageSize: int, items: seq<IntentType>, lo: nat, restFuel: nat)
    returns (fuel: nat)
    requires 0 < pageSize < |items| && lo + pageSize <= |items|
    requires server(pageNumber, pageSize) == HttpReply(200, Decoded(SearchOutput(pageSize, |items|, items[lo..lo + pageSize])))
    requires StopsWithin(server, pageNumber + 1, pageSize, restFuel)
    requires Search(server, pageNumber + 1, pageSize, restFuel) == Success(PageKeys(items[lo + pageSize..]))
    ensures StopsWithin(server, pageNumber, pageSize, fuel)
    ensures Search(server, pageNumber, pageSize, fuel) == Success(PageKeys(items[lo..]))
  {
    var hi := lo + pageSize;
    var output := SearchOutput(pageSize, |items|, items[lo..hi]);
    SearchNextPage(server, pageNumber, pageSize, output, restFuel, PageKeys(items[hi..]));
    fuel := restFuel + 1;
    assert items[lo..] == items[lo..hi] + items[hi..];
    PageKeysAppend(items[lo..hi], items[hi..]);
  }

  /** Page `q` of the dataset when it is full and the list is longer than one page: it asks for more. */
  lemma DatasetFullPage(items: seq<IntentType>, pageSize: int, q: nat, restFuel: nat) returns (fuel: nat)
    requires pageSize > 0 && PageStart(q, pageSize) + pageSize <= |items| && |items| > pageSize
    requires StopsWithin(DatasetServer(items), q + 1, pageSize, restFuel)
    requires Search(DatasetServer(items), q + 1, pageSize, restFuel) == Success(PageKeys(items[PageStart(q + 1, pageSize)..]))
    ensures StopsWithin(DatasetServer(items), q, pageSize, fuel)
    ensures Search(DatasetServer(items), q, pageSize, fuel) == Success(PageKeys(items[PageStart(q, pageSize)..]))
  {
    var lo := PageStart(q, pageSize);
    DatasetReply(items, pageSize, q);
    assert PageStart(q + 1, pageSize) == lo + pageSize;
    fuel := SearchFullPage(DatasetServer(items), q, pageSize, items, lo, restFuel);
  }

  /** Page `q` of the dataset when it is short or the only page: it ends the search. */
  lemma DatasetEndPage(items: seq<IntentType>, pageSize: int, q: nat) returns (fuel: nat)
    requires pageSize > 0 && PageStart(q, pageSize) <= |items|
    requires PageStart(q, pageSize) + pageSize > |items| || |items| <= pageSize
    requires q == 0 || |items| > pageSize
    ensures StopsWithin(DatasetServer(items), q, pageSize, fuel)
    ensures Search(DatasetServer(items), q, pageSize, fuel) == Success(PageKeys(items[PageStart(q, pageSize)..]))
  {
    var lo := PageStart(q, pageSize);
    var chunk := items[lo..Min(lo + pageSize, |items|)];
    DatasetReply(items, pageSize, q);
    SearchLastPage(DatasetServer(items), q, pageSize, SearchOutput(|chunk|, |items|, chunk));
    fuel := 1;
    assert chunk == items[lo..];
  }

  /** The search from page `q` returns the keys of the items from the start of that page on. */
  lemma {:induction false} DatasetSearchFrom(items: seq<IntentType>, pageSize: int, q: nat) returns (fuel: nat)
    requires pageSize > 0 && PageStart(q, pageSize) <= |items|
    requires q == 0 || |items| > pageSize
    ensures StopsWithin(DatasetServer(items), q, pageSize, fuel)
    ensures Search(DatasetServer(items), q, pageSize, fuel) == Success(PageKeys(items[PageStart(q, pageSize)..]))
    decreases |items| - PageStart(q, pageSize)
  {
    if PageStart(q, pageSize) + pageSize <= |items| && |items| > pageSize {
      var restFuel := DatasetSearchFrom(items, pageSize, q + 1);
      fuel := DatasetFullPage(items, pageSize, q, restFuel);
    } else {
      fuel := DatasetEndPage(items, pageSize, q);
    }
  }

  /**
   * Against a server that pages a fixed list of intent types as above, the
   * search from page 0 returns every item's key exactly once, in list order,
   * whatever the page size.
   */
  lemma DatasetSearchReturnsEveryKey(items: seq<IntentType>, pageSize: int) returns (fuel: nat)
    requires pageSize > 0
    ensures StopsWithin(DatasetServer(items), 0, pageSize, fuel)
    ensures Search(DatasetServer(items), 0, pageSize, fuel) == Success(PageKeys(items))
  {
    fuel := DatasetSearchFrom(items, pageSize, 0);
    assert items[PageStart(0, pageSize)..] == items;
  }

  /**
   * The Go code, step by step: one request, the reply checks, a loop that
   * formats this page's keys, and a recursive call for the next page.
   */
  method IntentTypeSearch(server: SearchServer, pageNumber: int, pageSize: int, ghost fuel: nat)
    returns (r: Result<seq<string>, Error>)
    requires StopsWithin(server, pageNumber, pageSize, fuel)
    ensures r == Search(server, pageNumber, pageSize, fuel)
    decreases fuel
  {
    var resp := server(pageNumber, pageSize);
    if resp.TransportFailure? {
      return Failure(Transport(SearchIntentTypes, resp.reason));
    }
    if resp.status != 200 {
      return Failure(BadStatus(SearchIntentTypes, resp.status));
    }
    if resp.body.Malformed? {
      return Failure(DecodeFailure(SearchIntentTypes, resp.body.reason));
    }
    var intentTypeList := resp.body.value;
    var items := intentTypeList.intentTypes;

    var intentTypes: seq<string> := [];
    for i := 0 to |items|
      invariant intentTypes == PageKeys(items[..i])
    {
      MapStep(items, KeyOf, i);
      intentTypes := intentTypes + [items[i].name + "_" + Decimal(items[i].version)];
    }
    assert items[..|items|] == items;

    if intentTypeList.pageSize == pageSize && intentTypeList.totalCount > pageSize {
      var nextPage := IntentTypeSearch(server, pageNumber + 1, pageSize, fuel - 1);
      if nextPage.Failure? {
        return Failure(Paginated(nextPage.error));
      }
      intentTypes := intentTypes + nextPage.value;
    }
    return Success(intentTypes);
  }
}
