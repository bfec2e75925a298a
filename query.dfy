/**
 * The paginated transaction query of `EventRetriever._query_txs_events` and the
 * query strings of `EventRetriever._get_events`. The transaction service is an
 * oracle from (queries, offset) to one reply; the loop that calls it is
 * `EventRetriever.QueryTxsEvents`, and `Paginate` says what that loop returns.
 */
module Query {
  import opened Wrappers
  import opened Errors

  /** One transaction response: its hash and, per log, the text rendering of that log's events. */
  datatype Tx = Tx(txhash: string, logs: seq<string>)

  /** One reply of the service: a page of transactions with the reported total, or a raised error. */
  datatype Reply = Page(txResponses: seq<Tx>, total: nat) | RpcError(reason: string)

  /** The transaction service, `GetTxsEvent(GetTxsEventRequest(events=queries, pagination=PageRequest(offset=offset)))`. */
  type Service = (seq<string>, nat) -> Reply

  /**
   * The loop stops within `fuel` requests when started at `offset`: some reply
   * raises, or brings the accumulated count up to that reply's total. The
   * source's `while True` runs forever otherwise, so callers supply this.
   */
  predicate Stops(svc: Service, queries: seq<string>, offset: nat, fuel: nat)
    decreases fuel
  {
    fuel > 0 &&
    match svc(queries, offset)
    case RpcError(_) => true
    case Page(txs, total) => offset + |txs| >= total || Stops(svc, queries, offset + |txs|, fuel - 1)
  }

  /** Every page from `offset` on, concatenated in order; a raised reply aborts with no partial result. */
  function Paginate(svc: Service, queries: seq<string>, offset: nat, fuel: nat): Result<seq<Tx>, Error>
    requires Stops(svc, queries, offset, fuel)
    decreases fuel
  {
    match svc(queries, offset)
    case RpcError(reason) => Err(QueryFailed(offset, reason))
    case Page(txs, total) =>
      if offset + |txs| >= total then Ok(txs)
      else
        match Paginate(svc, queries, offset + |txs|, fuel - 1)
        case Err(e) => Err(e)
        case Ok(rest) => Ok(txs + rest)
  }

  /** The offsets of the requests the loop makes, in order. */
  function Requests(svc: Service, queries: seq<string>, offset: nat, fuel: nat): seq<nat>
    requires Stops(svc, queries, offset, fuel)
    decreases fuel
  {
    match svc(queries, offset)
    case RpcError(_) => [offset]
    case Page(txs, total) =>
      if offset + |txs| >= total then [offset]
      else [offset] + Requests(svc, queries, offset + |txs|, fuel - 1)
  }

  /** The transactions of the page the service returns at `offset` (none for a raised reply). */
  function PageAt(svc: Service, queries: seq<string>, offset: nat): seq<Tx> {
    match svc(queries, offset)
    case RpcError(_) => []
    case Page(txs, _) => txs
  }

  /** The pages at the given offsets, concatenated. */
  function PagesAt(svc: Service, queries: seq<string>, offsets: seq<nat>): seq<Tx>
    decreases |offsets|
  {
    if |offsets| == 0 then [] else PageAt(svc, queries, offsets[0]) + PagesAt(svc, queries, offsets[1..])
  }

  /** The reply at `offset` brings the accumulated count up to its total. */
  predicate Reaches(svc: Service, queries: seq<string>, offset: nat) {
    svc(queries, offset).Page? && offset + |svc(queries, offset).txResponses| >= svc(queries, offset).total
  }

  /**
   * The requests of the loop: at least one is made, the first at the start
   * offset; each next request's offset is the previous one plus the size of its
   * page, and those pages fall short of their totals.
   */
  lemma {:induction false} RequestsChain(svc: Service, queries: seq<string>, offset: nat, fuel: nat)
    requires Stops(svc, queries, offset, fuel)
    ensures var os := Requests(svc, queries, offset, fuel);
      && |os| >= 1 && os[0] == offset
      && (forall i :: 0 <= i < |os| - 1 ==>
            && svc(queries, os[i]).Page?
            && os[i + 1] == os[i] + |PageAt(svc, queries, os[i])|
            && !Reaches(svc, queries, os[i]))
    decreases fuel
  {
    match svc(queries, offset)
    case RpcError(_) =>
    case Page(txs, total) =>
      if offset + |txs| < total {
        var next := offset + |txs|;
        RequestsChain(svc, queries, next, fuel - 1);
        var rest := Requests(svc, queries, next, fuel - 1);
        var os := [offset] + rest;
        assert forall i :: 1 <= i < |os| ==> os[i] == rest[i - 1];
      }
  }

  /** The loop succeeds exactly when its last reply reaches its total, and fails exactly when that reply raised. */
  lemma {:induction false} PaginateOutcome(svc: Service, queries: seq<string>, offset: nat, fuel: nat)
    requires Stops(svc, queries, offset, fuel)
    ensures var os := Requests(svc, queries, offset, fuel);
      && |os| >= 1
      && (Paginate(svc, queries, offset, fuel).Ok? <==> Reaches(svc, queries, os[|os| - 1]))
      && (Paginate(svc, queries, offset, fuel).Err? <==> svc(queries, os[|os| - 1]).RpcError?)
    decreases fuel
  {
    match svc(queries, offset)
    case RpcError(_) =>
    case Page(txs, total) =>
      if offset + |txs| < total {
        var next := offset + |txs|;
        PaginateOutcome(svc, queries, next, fuel - 1);
        var rest := Requests(svc, queries, next, fuel - 1);
        assert ([offset] + rest)[|rest|] == rest[|rest| - 1];
      }
  }

  /**
   * On success the result is every requested page, in order, and the start
   * offset plus its length is the last offset plus the last page.
   */
  lemma {:induction false} PaginateCollects(svc: Service, queries: seq<string>, offset: nat, fuel: nat)
    requires Stops(svc, queries, offset, fuel)
    requires Paginate(svc, queries, offset, fuel).Ok?
    ensures var os := Requests(svc, queries, offset, fuel);
      && |os| >= 1
      && Paginate(svc, queries, offset, fuel).value == PagesAt(svc, queries, os)
      && offset + |Paginate(svc, queries, offset, fuel).value| == os[|os| - 1] + |PageAt(svc, queries, os[|os| - 1])|
    decreases fuel
  {
    match svc(queries, offset)
    case RpcError(_) =>
    case Page(txs, total) =>
      if offset + |txs| < total {
        var next := offset + |txs|;
        PaginateCollects(svc, queries, next, fuel - 1);
        var rest := Requests(svc, queries, next, fuel - 1);
        var os := [offset] + rest;
        assert os[1..] == rest;
        assert os[|os| - 1] == rest[|rest| - 1];
      } else {
        assert PagesAt(svc, queries, [offset]) == txs + PagesAt(svc, queries, []);
      }
  }

  /** The result does not depend on how much fuel the caller granted. */
  lemma {:induction false} PaginateFuelIrrelevant(svc: Service, queries: seq<string>, offset: nat, fuel1: nat, fuel2: nat)
    requires Stops(svc, queries, offset, fuel1) && Stops(svc, queries, offset, fuel2)
    ensures Paginate(svc, queries, offset, fuel1) == Paginate(svc, queries, offset, fuel2)
    ensures Requests(svc, queries, offset, fuel1) == Requests(svc, queries, offset, fuel2)
    decreases fuel1
  {
    match svc(queries, offset)
    case RpcError(_) =>
    case Page(txs, total) =>
      if offset + |txs| < total {
        PaginateFuelIrrelevant(svc, queries, offset + |txs|, fuel1 - 1, fuel2 - 1);
      }
  }

  /** More fuel never hurts: a loop that stops within `fuel` requests stops within any larger bound. */
  lemma {:induction false} StopsMonotone(svc: Service, queries: seq<string>, offset: nat, fuel: nat, more: nat)
    requires Stops(svc, queries, offset, fuel) && fuel <= more
    ensures Stops(svc, queries, offset, more)
    decreases fuel
  {
    match svc(queries, offset)
    case RpcError(_) =>
    case Page(txs, total) =>
      if offset + |txs| < total {
        StopsMonotone(svc, queries, offset + |txs|, fuel - 1, more - 1);
      }
  }

  function Min(a: nat, b: nat): nat { if a <= b then a else b }

  /** What a service holding `records` answers at `offset`: the next `pageSize` of them, and their number as the total. */
  function HonestReply(records: seq<Tx>, pageSize: nat, offset: nat): Reply {
    Page(if offset < |records| then records[offset..Min(offset + pageSize, |records|)] else [], |records|)
  }

  /** A service that holds `records` and serves them `pageSize` at a time. */
  function HonestService(records: seq<Tx>, pageSize: nat): (svc: Service)
    ensures forall queries, offset :: svc(queries, offset) == HonestReply(records, pageSize, offset)
  {
    (queries: seq<string>, offset: nat) => HonestReply(records, pageSize, offset)
  }

  /** The number of requests needed for `n` records at `pageSize` a page: one, plus one per further started page. */
  function PagesNeeded(n: nat, pageSize: nat): nat
    requires pageSize > 0
    decreases n
  {
    if n <= pageSize then 1 else 1 + PagesNeeded(n - pageSize, pageSize)
  }

  /** Against a service that serves a fixed list of records page by page, the loop stops within one request per remaining record, plus one. */
  lemma {:induction false} HonestServiceStops(records: seq<Tx>, pageSize: nat, queries: seq<string>, offset: nat)
    requires pageSize > 0 && offset <= |records|
    ensures Stops(HonestService(records, pageSize), queries, offset, |records| - offset + 1)
    decreases |records| - offset
  {
    var svc := HonestService(records, pageSize);
    var reply := HonestReply(records, pageSize, offset);
    assert svc(queries, offset) == reply;
    if offset + pageSize < |records| {
      var next := offset + pageSize;
      assert |reply.txResponses| == pageSize;
      HonestServiceStops(records, pageSize, queries, next);
      StopsMonotone(svc, queries, next, |records| - next + 1, |records| - offset);
    }
  }

  /** Against that service the loop returns exactly the records from `offset` on, in order. */
  lemma {:induction false} HonestServiceRoundTrip(records: seq<Tx>, pageSize: nat, queries: seq<string>, offset: nat)
    requires pageSize > 0 && offset <= |records|
    ensures Stops(HonestService(records, pageSize), queries, offset, |records| - offset + 1)
    ensures Paginate(HonestService(records, pageSize), queries, offset, |records| - offset + 1) == Ok(records[offset..])
    decreases |records| - offset
  {
    HonestServiceStops(records, pageSize, queries, offset);
    var svc := HonestService(records, pageSize);
    var reply := HonestReply(records, pageSize, offset);
    assert svc(queries, offset) == reply;
    if offset + pageSize < |records| {
      var next := offset + pageSize;
      assert |reply.txResponses| == pageSize;
      HonestServiceRoundTrip(records, pageSize, queries, next);
      PaginateFuelIrrelevant(svc, queries, next, |records| - next + 1, |records| - offset);
      assert records[offset..] == reply.txResponses + records[next..];
    } else {
      assert records[offset..] == reply.txResponses;
    }
  }

  /** Against that service the loop makes one request per page of the remaining records, and one for none. */
  lemma {:induction false} HonestServiceRequests(records: seq<Tx>, pageSize: nat, queries: seq<string>, offset: nat)
    requires pageSize > 0 && offset <= |records|
    ensures Stops(HonestService(records, pageSize), queries, offset, |records| - offset + 1)
    ensures |Requests(HonestService(records, pageSize), queries, offset, |records| - offset + 1)|
              == PagesNeeded(|records| - offset, pageSize)
    decreases |records| - offset
  {
    HonestServiceStops(records, pageSize, queries, offset);
    var svc := HonestService(records, pageSize);
    var reply := HonestReply(records, pageSize, offset);
    assert svc(queries, offset) == reply;
    if offset + pageSize < |records| {
      var next := offset + pageSize;
      assert |reply.txResponses| == pageSize;
      HonestServiceRequests(records, pageSize, queries, next);
      PaginateFuelIrrelevant(svc, queries, next, |records| - next + 1, |records| - offset);
    }
  }

  /** 250 records at 100 a page take requests at offsets 0, 100 and 200. */
  lemma TwoHundredFiftyRecords(records: seq<Tx>, queries: seq<string>)
    requires |records| == 250
    ensures Stops(HonestService(records, 100), queries, 0, 3)
    ensures Requests(HonestService(records, 100), queries, 0, 3) == [0, 100, 200]
    ensures Paginate(HonestService(records, 100), queries, 0, 3) == Ok(records)
  {
    var svc := HonestService(records, 100);
    assert svc(queries, 200) == Page(records[200..250], 250);
    assert svc(queries, 100) == Page(records[100..200], 250);
    assert svc(queries, 0) == Page(records[0..100], 250);
    assert records == records[0..100] + (records[100..200] + records[200..250]);
  }

  /** `execute._contract_address='<address>'`. */
  function ContractQuery(contractAddress: string): string {
    "execute._contract_address='" + contractAddress + "'"
  }

  /** `wasm.action='<action>'`. */
  function ActionQuery(wasmAction: string): string {
    "wasm.action='" + wasmAction + "'"
  }

  /** Lines 261-263: the contract query, followed by the action query when an action is given. */
  function EventQueries(contractAddress: string, wasmAction: Option<string>): seq<string> {
    [ContractQuery(contractAddress)] + (if wasmAction.Some? then [ActionQuery(wasmAction.value)] else [])
  }

  /** The text between a known prefix and a closing quote, if the query has that shape. */
  function Quoted(query: string, prefix: string): Option<string> {
    if |query| >= |prefix| + 1 && query[..|prefix|] == prefix && query[|query| - 1] == '\''
    then Some(query[|prefix|..|query| - 1])
    else None
  }

  /**
   * The query list names the contract and the action it was built from, and
   * nothing else: reading them back gives the arguments.
   */
  lemma EventQueriesRoundTrip(contractAddress: string, wasmAction: Option<string>)
    ensures var qs := EventQueries(contractAddress, wasmAction);
      && |qs| == (if wasmAction.Some? then 2 else 1)
      && Quoted(qs[0], "execute._contract_address='") == Some(contractAddress)
      && (wasmAction.Some? ==> Quoted(qs[1], "wasm.action='") == Some(wasmAction.value))
  {
    var q := ContractQuery(contractAddress);
    var prefix := "execute._contract_address='";
    assert q == prefix + contractAddress + "'";
    assert q[..|prefix|] == prefix;
    assert q[|prefix|..|q| - 1] == contractAddress;
    if wasmAction.Some? {
      var a := ActionQuery(wasmAction.value);
      var prefix' := "wasm.action='";
      assert a == prefix' + wasmAction.value + "'";
      assert a[..|prefix'|] == prefix';
      assert a[|prefix'|..|a| - 1] == wasmAction.value;
    }
  }
}
