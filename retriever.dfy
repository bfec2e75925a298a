/**
 * `EventRetriever`, the object behind the fetcher: it holds the contract
 * address, the service address, the name of the processed-events file and the
 * in-memory set of processed hashes, and its methods perform the loops of the
 * source. Each method is proved to compute the function that specifies it:
 * `Paginate`, `BagOfPieces`, `ProcessEntries` and `Fetch`.
 */
module Retriever {
  import opened Wrappers
  import opened Errors
  import opened Text
  import opened Events
  import opened LogParser
  import opened EventFilter
  import opened Query
  import opened Pipeline

  /** The default name of the processed-events file, spelled as in the source. */
  const DefaultFileName := "processsed_events"

  /** A raised reply stops the accumulation; otherwise the pages found so far go in front. */
  function Prepend(txs: seq<Tx>, r: Result<seq<Tx>, Error>): Result<seq<Tx>, Error> {
    if r.Err? then r else Ok(txs + r.value)
  }

  /**
   * One step of the pagination loop: a page that falls short of its total is
   * put behind the pages found so far, and the loop goes on at the new count.
   */
  lemma PaginateStep(svc: Service, queries: seq<string>, offset: nat, left: nat, before: seq<Tx>)
    requires Stops(svc, queries, offset, left)
    requires svc(queries, offset).Page?
    requires offset + |svc(queries, offset).txResponses| < svc(queries, offset).total
    ensures var next := offset + |svc(queries, offset).txResponses|;
      && Stops(svc, queries, next, left - 1)
      && Prepend(before, Paginate(svc, queries, offset, left))
         == Prepend(before + svc(queries, offset).txResponses, Paginate(svc, queries, next, left - 1))
  {
    var page := svc(queries, offset).txResponses;
    var next := Paginate(svc, queries, offset + |page|, left - 1);
    if next.Ok? {
      assert before + (page + next.value) == (before + page) + next.value;
    }
  }

  /** The first error of a bag build is the error of any longer build. */
  lemma {:induction false} BagErrorSticks(txHash: string, pieces: seq<string>, k: nat)
    requires k <= |pieces| && BagOfPieces(txHash, pieces[..k]).Err?
    ensures BagOfPieces(txHash, pieces) == BagOfPieces(txHash, pieces[..k])
    decreases |pieces| - k
  {
    if k < |pieces| {
      var n := |pieces| - 1;
      assert pieces[..n][..k] == pieces[..k];
      BagErrorSticks(txHash, pieces[..n], k);
      assert pieces[..|pieces|] == pieces;
    } else {
      assert pieces[..k] == pieces;
    }
  }

  class EventRetriever {
    const contractAddress: string
    const grpcUrl: string
    const processedEventsFile: string
    /** The hashes of the events already handed out. */
    var processed: set<string>
    /**
     * The file named `processedEventsFile`. The source reaches it through the
     * file system; here it is part of the object's state.
     */
    var disk: StoreFile

    /** `__init__`: no hash processed yet; the file name gets the ".json" suffix. */
    constructor (contractAddress: string, grpcUrl: string, fileName: string := DefaultFileName, disk: StoreFile)
      ensures this.contractAddress == contractAddress && this.grpcUrl == grpcUrl
      ensures processedEventsFile == fileName + ".json"
      ensures processed == {} && this.disk == disk
    {
      this.contractAddress := contractAddress;
      this.grpcUrl := grpcUrl;
      processedEventsFile := fileName + ".json";
      processed := {};
      this.disk := disk;
    }

    /**
     * `load_processed_events`: with the flag set, a saved file replaces the set,
     * a missing file is ignored and an unreadable one raises, leaving the set as it was.
     */
    method LoadProcessedEvents(discard: bool) returns (r: Result<(), Error>)
      modifies this`processed
      ensures var l := Load(discard, old(State(processed, disk)));
        && (l.Ok? ==> r == Ok(()) && State(processed, disk) == l.value)
        && (l.Err? ==> r == Err(l.error) && processed == old(processed))
    {
      if discard {
        match disk
        case Missing =>
        case Saved(hashes) =>
          processed := hashes;
        case Unreadable =>
          return Err(StoreUnreadable);
      }
      return Ok(());
    }

    /**
     * `_query_txs_events`: request pages from offset 0, each at the count
     * accumulated so far, until that count reaches the reported total. A
     * raised reply aborts the call.
     */
    method QueryTxsEvents(svc: Service, queries: seq<string>, ghost fuel: nat) returns (r: Result<seq<Tx>, Error>)
      requires Stops(svc, queries, 0, fuel)
      ensures r == Paginate(svc, queries, 0, fuel)
    {
      var offset: nat := 0;
      var res: seq<Tx> := [];
      ghost var left := fuel;
      assert Prepend(res, Paginate(svc, queries, offset, left)) == Paginate(svc, queries, offset, left) by {
        if Paginate(svc, queries, offset, left).Ok? {
          assert [] + Paginate(svc, queries, offset, left).value == Paginate(svc, queries, offset, left).value;
        }
      }
      while true
        invariant offset == |res|
        invariant Stops(svc, queries, offset, left)
        invariant Paginate(svc, queries, 0, fuel) == Prepend(res, Paginate(svc, queries, offset, left))
        decreases left
      {
        var txRes := svc(queries, offset);
        if txRes.RpcError? {
          return Err(QueryFailed(offset, txRes.reason));
        }
        var page := txRes.txResponses;
        if offset + |page| < txRes.total {
          PaginateStep(svc, queries, offset, left, res);
        }
        res := res + page;
        offset := offset + |page|;
        if offset >= txRes.total {
          return Ok(res);
        }
        left := left - 1;
      }
    }

    /** `_get_events`: the contract query, the action query when an action is given, and the paginated query. */
    method GetEvents(svc: Service, contractAddress: string, wasmAction: Option<string>, ghost fuel: nat)
      returns (r: Result<seq<Tx>, Error>)
      requires Stops(svc, EventQueries(contractAddress, wasmAction), 0, fuel)
      ensures r == Paginate(svc, EventQueries(contractAddress, wasmAction), 0, fuel)
    {
      var queries := [ContractQuery(contractAddress)];
      if wasmAction.Some? {
        queries := queries + [ActionQuery(wasmAction.value)];
      }
      assert queries == EventQueries(contractAddress, wasmAction);
      r := QueryTxsEvents(svc, queries, fuel);
    }

    /**
     * Lines 302-318: the bag of one wasm segment, seeded with the hash and filled
     * pair by pair. A contract address goes to the cw20 slot while the bag holds
     * only the hash and to the escrow slot afterwards; any other key is counted
     * from its unsuffixed entry and stored as key + "1".
     */
    method BuildBag(txHash: string, pieces: seq<string>) returns (r: Result<Bag, Error>)
      ensures r == BagOfPieces(txHash, pieces)
    {
      var result: Bag := map[TxnHashKey := txHash];
      var i := 0;
      while i < |pieces|
        invariant 0 <= i <= |pieces|
        invariant BagOfPieces(txHash, pieces[..i]) == Ok(result)
      {
        assert pieces[..i + 1][..i] == pieces[..i];
        var pair := ParsePair(pieces[i]);
        if pair.Err? {
          BagErrorSticks(txHash, pieces, i + 1);
          return Err(pair.error);
        }
        var key, value := pair.value.key, pair.value.value;
        if key == ContractKey {
          var contractCount := |result| - 1;
          key := if contractCount == 0 then Cw20Key else EscrowKey;
          result := result[key := value];
        } else {
          if key in result {
            BagErrorSticks(txHash, pieces, i + 1);
            return Err(KeyCountNotInt(key));
          }
          key := key + "1";
          result := result[key := value];
        }
        i := i + 1;
      }
      assert pieces[..|pieces|] == pieces;
      return Ok(result);
    }

    /**
     * Lines 298-331 for one segment: a wasm segment's bag is built, and when it
     * passes the action and wallet tests it is decoded into one event.
     */
    method ScanSegment(txHash: string, segment: string, arg: ActionArg, wallet: Option<string>)
      returns (r: Result<seq<Event>, Error>)
      ensures r == ProcessEntry(Entry(txHash, segment), arg, wallet)
    {
      if !IsWasm(segment) {
        return Ok([]);
      }
      var bag := BuildBag(txHash, Pieces(segment));
      if bag.Err? {
        return Err(bag.error);
      }
      var result := bag.value;
      if !ActionTest(arg, result) || !WalletTest(wallet, result) {
        return Ok([]);
      }
      var ev := FromDict(result);
      if ev.Err? {
        return Err(ev.error);
      }
      return Ok([ev.value]);
    }

    /** Lines 297-331: the segments of one log, scanned in order; the first error raised aborts the scan. */
    method ScanSegments(txHash: string, segments: seq<string>, arg: ActionArg, wallet: Option<string>)
      returns (r: Result<seq<Event>, Error>)
      ensures r == ProcessEntries(SegEntries(txHash, segments), arg, wallet)
    {
      ghost var es := SegEntries(txHash, segments);
      var found: seq<Event> := [];
      var k := 0;
      while k < |segments|
        invariant 0 <= k <= |segments|
        invariant ProcessEntries(es[..k], arg, wallet) == Ok(found)
      {
        var step := ScanSegment(txHash, segments[k], arg, wallet);
        ProcessSnoc(es, k, arg, wallet);
        if step.Err? {
          ProcessErrorSticks(es[..k + 1], es[k + 1..], arg, wallet);
          assert es == es[..k + 1] + es[k + 1..];
          return Err(step.error);
        }
        found := found + step.value;
        k := k + 1;
      }
      assert es[..|segments|] == es;
      return Ok(found);
    }

    /**
     * Lines 289-331 for one log: its rendered events are cut into segments
     * (brackets, newlines and double spaces deleted, then split at commas), and
     * the segments are scanned.
     */
    method ScanLog(txHash: string, rendered: string, arg: ActionArg, wallet: Option<string>)
      returns (r: Result<seq<Event>, Error>)
      ensures r == ProcessEntries(SegEntries(txHash, Segments(rendered)), arg, wallet)
    {
      var jsonEvents := Segments(rendered);
      r := ScanSegments(txHash, jsonEvents, arg, wallet);
    }

    /** Lines 288-331 for one transaction: its logs are scanned in order. */
    method ScanTx(tx: Tx, arg: ActionArg, wallet: Option<string>) returns (r: Result<seq<Event>, Error>)
      ensures r == ProcessEntries(LogEntries(tx.txhash, tx.logs), arg, wallet)
    {
      var h, logs := tx.txhash, tx.logs;
      var found: seq<Event> := [];
      var j := 0;
      assert logs[..0] == [];
      while j < |logs|
        invariant 0 <= j <= |logs|
        invariant ProcessEntries(LogEntries(h, logs[..j]), arg, wallet) == Ok(found)
      {
        var step := ScanLog(h, logs[j], arg, wallet);
        LogEntriesSnoc(h, logs, j);
        ProcessAppend(LogEntries(h, logs[..j]), SegEntries(h, Segments(logs[j])), arg, wallet);
        if step.Err? {
          LogEntriesSplitAt(h, logs, j + 1);
          ProcessErrorSticks(LogEntries(h, logs[..j + 1]), LogEntries(h, logs[j + 1..]), arg, wallet);
          return Err(step.error);
        }
        found := found + step.value;
        j := j + 1;
      }
      assert logs[..|logs|] == logs;
      return Ok(found);
    }

    /**
     * `_filter_events`: every log of every transaction is scanned in order,
     * the events found are collected, and the first error raised aborts the call.
     */
    method FilterEvents(resp: seq<Tx>, arg: ActionArg, wallet: Option<string>) returns (r: Result<seq<Event>, Error>)
      ensures r == ProcessEntries(Entries(resp), arg, wallet)
    {
      var filtered: seq<Event> := [];
      var i := 0;
      while i < |resp|
        invariant 0 <= i <= |resp|
        invariant ProcessEntries(Entries(resp[..i]), arg, wallet) == Ok(filtered)
      {
        var step := ScanTx(resp[i], arg, wallet);
        EntriesSnoc(resp, i);
        ProcessAppend(Entries(resp[..i]), LogEntries(resp[i].txhash, resp[i].logs), arg, wallet);
        if step.Err? {
          EntriesSplitAt(resp, i);
          ProcessErrorSticks(Entries(resp[..i + 1]), Entries(resp[i + 1..]), arg, wallet);
          return Err(step.error);
        }
        filtered := filtered + step.value;
        i := i + 1;
      }
      assert resp[..|resp|] == resp;
      return Ok(filtered);
    }

    /** Lines 211-217: the events whose hash is not in the processed set, in order. */
    method DropProcessed(evs: seq<Event>) returns (toSend: seq<Event>)
      ensures toSend == Unseen(evs, processed)
    {
      toSend := [];
      var i := 0;
      while i < |evs|
        invariant 0 <= i <= |evs|
        invariant toSend == Unseen(evs[..i], processed)
      {
        assert evs[..i + 1][..i] == evs[..i];
        if evs[i].txnHash !in processed {
          toSend := toSend + [evs[i]];
        }
        i := i + 1;
      }
      assert evs[..|evs|] == evs;
    }

    /**
     * `fetch_events`: load the processed hashes, query every transaction of the
     * contract (no action query), scan and filter them, drop the events already
     * processed and, with the flag set, mark the rest and write the set to the file.
     */
    method FetchEvents(discard: bool, arg: ActionArg, wallet: Option<string>, svc: Service, ghost fuel: nat)
      returns (r: Result<seq<Event>, Error>)
      modifies this`processed, this`disk
      requires Stops(svc, EventQueries(contractAddress, None), 0, fuel)
      ensures (r, State(processed, disk))
        == Fetch(contractAddress, discard, arg, wallet, svc, fuel, old(State(processed, disk)))
    {
      var loaded := LoadProcessedEvents(discard);
      if loaded.Err? {
        return Err(loaded.error);
      }
      var wasmAction: Option<string> := None;
      var txnEvents := GetEvents(svc, contractAddress, wasmAction, fuel);
      if txnEvents.Err? {
        return Err(txnEvents.error);
      }
      var filtered := FilterEvents(txnEvents.value, arg, wallet);
      if filtered.Err? {
        return Err(filtered.error);
      }
      var toSend := DropProcessed(filtered.value);
      if discard {
        processed := processed + Hashes(toSend);
        disk := Saved(processed);
      }
      return Ok(toSend);
    }
  }
}
