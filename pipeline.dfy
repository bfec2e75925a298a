/**
 * What `EventRetriever._filter_events` and `EventRetriever.fetch_events`
 * compute, as functions of their inputs and of the retriever's state. The
 * transactions' logs are flattened into entries (one per comma-separated
 * segment, with its transaction's hash), each entry yields zero or one event
 * or raises, and the first error raised aborts the whole call. The methods of
 * `EventRetriever` are proved to compute these functions.
 */
module Pipeline {
  import opened Wrappers
  import opened Errors
  import opened Text
  import opened Events
  import opened LogParser
  import opened EventFilter
  import opened Query

  /** One comma-separated segment of a log's rendered events, with the hash of its transaction. */
  datatype Entry = Entry(txHash: string, segment: string)

  /** The entries of one log: its segments, in order. */
  function SegEntries(txHash: string, segments: seq<string>): (es: seq<Entry>)
    ensures |es| == |segments| && forall k :: 0 <= k < |es| ==> es[k] == Entry(txHash, segments[k])
  {
    seq(|segments|, k requires 0 <= k < |segments| => Entry(txHash, segments[k]))
  }

  /** Runs of entries, one after the other. */
  function Flatten(parts: seq<seq<Entry>>): seq<Entry>
    decreases |parts|
  {
    if |parts| == 0 then [] else Flatten(parts[..|parts| - 1]) + parts[|parts| - 1]
  }

  lemma FlattenPush(parts: seq<seq<Entry>>, part: seq<Entry>)
    ensures Flatten(parts + [part]) == Flatten(parts) + part
  {
    assert (parts + [part])[..|parts|] == parts;
  }

  lemma {:induction false} FlattenAppend(a: seq<seq<Entry>>, b: seq<seq<Entry>>)
    ensures Flatten(a + b) == Flatten(a) + Flatten(b)
    decreases |b|
  {
    if |b| == 0 {
      assert a + b == a;
    } else {
      var b', part := b[..|b| - 1], b[|b| - 1];
      assert b == b' + [part];
      assert a + b == (a + b') + [part];
      FlattenAppend(a, b');
      FlattenPush(a + b', part);
      FlattenPush(b', part);
    }
  }

  lemma {:induction false} FlattenMember(parts: seq<seq<Entry>>, e: Entry)
    requires e in Flatten(parts)
    ensures exists k :: 0 <= k < |parts| && e in parts[k]
    decreases |parts|
  {
    var n := |parts| - 1;
    if e !in parts[n] {
      FlattenMember(parts[..n], e);
      var k :| 0 <= k < n && e in parts[..n][k];
      assert parts[..n][k] == parts[k];
    }
  }

  /** The segments of each log, as runs of entries. */
  function LogParts(txHash: string, logs: seq<string>): (parts: seq<seq<Entry>>)
    ensures |parts| == |logs| && forall j :: 0 <= j < |logs| ==> parts[j] == SegEntries(txHash, Segments(logs[j]))
  {
    seq(|logs|, j requires 0 <= j < |logs| => SegEntries(txHash, Segments(logs[j])))
  }

  /** The entries of the logs of one transaction, log after log. */
  function LogEntries(txHash: string, logs: seq<string>): seq<Entry> {
    Flatten(LogParts(txHash, logs))
  }

  /** The entries of each transaction, as runs of entries. */
  function TxParts(txs: seq<Tx>): (parts: seq<seq<Entry>>)
    ensures |parts| == |txs| && forall i :: 0 <= i < |txs| ==> parts[i] == LogEntries(txs[i].txhash, txs[i].logs)
  {
    seq(|txs|, i requires 0 <= i < |txs| => LogEntries(txs[i].txhash, txs[i].logs))
  }

  /** The entries of a list of transactions, transaction after transaction. */
  function Entries(txs: seq<Tx>): seq<Entry> {
    Flatten(TxParts(txs))
  }

  /** Every entry comes from a segment of a log of one of the transactions, and carries that transaction's hash. */
  lemma EntriesFromTxs(txs: seq<Tx>)
    ensures forall e :: e in Entries(txs) ==> exists t :: t in txs && e.txHash == t.txhash
  {
    forall e | e in Entries(txs)
      ensures exists t :: t in txs && e.txHash == t.txhash
    {
      FlattenMember(TxParts(txs), e);
      var i :| 0 <= i < |txs| && e in TxParts(txs)[i];
      var t := txs[i];
      FlattenMember(LogParts(t.txhash, t.logs), e);
      var j :| 0 <= j < |t.logs| && e in LogParts(t.txhash, t.logs)[j];
      assert t in txs;
    }
  }

  /** The entries of the first i + 1 transactions: those of the first i, then those of transaction i. */
  lemma EntriesSnoc(resp: seq<Tx>, i: nat)
    requires i < |resp|
    ensures Entries(resp[..i + 1]) == Entries(resp[..i]) + LogEntries(resp[i].txhash, resp[i].logs)
  {
    assert TxParts(resp[..i + 1]) == TxParts(resp[..i]) + [LogEntries(resp[i].txhash, resp[i].logs)];
    FlattenPush(TxParts(resp[..i]), LogEntries(resp[i].txhash, resp[i].logs));
  }

  /** The entries of the first j + 1 logs: those of the first j, then the segments of log j. */
  lemma LogEntriesSnoc(txHash: string, logs: seq<string>, j: nat)
    requires j < |logs|
    ensures LogEntries(txHash, logs[..j + 1]) == LogEntries(txHash, logs[..j]) + SegEntries(txHash, Segments(logs[j]))
  {
    assert LogParts(txHash, logs[..j + 1]) == LogParts(txHash, logs[..j]) + [SegEntries(txHash, Segments(logs[j]))];
    FlattenPush(LogParts(txHash, logs[..j]), SegEntries(txHash, Segments(logs[j])));
  }

  lemma EntriesSplitAt(resp: seq<Tx>, i: nat)
    requires i < |resp|
    ensures Entries(resp) == Entries(resp[..i + 1]) + Entries(resp[i + 1..])
  {
    assert TxParts(resp) == TxParts(resp[..i + 1]) + TxParts(resp[i + 1..]);
    FlattenAppend(TxParts(resp[..i + 1]), TxParts(resp[i + 1..]));
  }

  lemma LogEntriesSplitAt(txHash: string, logs: seq<string>, j: nat)
    requires j <= |logs|
    ensures LogEntries(txHash, logs) == LogEntries(txHash, logs[..j]) + LogEntries(txHash, logs[j..])
  {
    assert LogParts(txHash, logs) == LogParts(txHash, logs[..j]) + LogParts(txHash, logs[j..]);
    FlattenAppend(LogParts(txHash, logs[..j]), LogParts(txHash, logs[j..]));
  }

  /** Python's raise-or-extend: the first error wins, otherwise the events are appended. */
  function Then(a: Result<seq<Event>, Error>, b: Result<seq<Event>, Error>): Result<seq<Event>, Error> {
    if a.Err? then a else if b.Err? then b else Ok(a.value + b.value)
  }

  /**
   * One segment of the scan (lines 297-331): a non-wasm segment yields nothing;
   * a wasm segment's bag is built (which may raise), and if the bag passes the
   * filter it is decoded (which may raise) into one event.
   */
  function ProcessEntry(e: Entry, arg: ActionArg, wallet: Option<string>): Result<seq<Event>, Error> {
    if !IsWasm(e.segment) then Ok([])
    else
      match BagOfPieces(e.txHash, Pieces(e.segment))
      case Err(err) => Err(err)
      case Ok(bag) =>
        if !Keep(arg, wallet, bag) then Ok([])
        else
          match FromDict(bag)
          case Err(err) => Err(err)
          case Ok(ev) => Ok([ev])
  }

  /** The outcome of every entry, in order. */
  function Outcomes(es: seq<Entry>, arg: ActionArg, wallet: Option<string>): (rs: seq<Result<seq<Event>, Error>>)
    ensures |rs| == |es| && forall i :: 0 <= i < |es| ==> rs[i] == ProcessEntry(es[i], arg, wallet)
  {
    seq(|es|, i requires 0 <= i < |es| => ProcessEntry(es[i], arg, wallet))
  }

  /** Raise-or-extend over a list of outcomes, left to right. */
  function Combine(rs: seq<Result<seq<Event>, Error>>): Result<seq<Event>, Error>
    decreases |rs|
  {
    if |rs| == 0 then Ok([]) else Then(Combine(rs[..|rs| - 1]), rs[|rs| - 1])
  }

  /** The scan over all entries, in order; the first entry that raises aborts it. */
  function ProcessEntries(es: seq<Entry>, arg: ActionArg, wallet: Option<string>): Result<seq<Event>, Error> {
    Combine(Outcomes(es, arg, wallet))
  }

  lemma {:induction false} CombineAppend(a: seq<Result<seq<Event>, Error>>, b: seq<Result<seq<Event>, Error>>)
    ensures Combine(a + b) == Then(Combine(a), Combine(b))
    decreases |b|
  {
    if |b| == 0 {
      assert a + b == a;
      if Combine(a).Ok? {
        assert Combine(a).value + [] == Combine(a).value;
      }
    } else {
      var b' := b[..|b| - 1];
      assert (a + b)[..|a + b| - 1] == a + b';
      assert (a + b)[|a + b| - 1] == b[|b| - 1];
      CombineAppend(a, b');
      var ra, rb, rl := Combine(a), Combine(b'), b[|b| - 1];
      if ra.Ok? && rb.Ok? && rl.Ok? {
        assert (ra.value + rb.value) + rl.value == ra.value + (rb.value + rl.value);
      }
    }
  }

  lemma {:induction false} CombineOkIff(rs: seq<Result<seq<Event>, Error>>)
    ensures Combine(rs).Ok? <==> forall i :: 0 <= i < |rs| ==> rs[i].Ok?
    decreases |rs|
  {
    if |rs| > 0 {
      var n := |rs| - 1;
      CombineOkIff(rs[..n]);
      assert forall i :: 0 <= i < n ==> rs[..n][i] == rs[i];
    }
  }

  lemma {:induction false} CombineMembers(rs: seq<Result<seq<Event>, Error>>)
    requires Combine(rs).Ok?
    ensures forall ev :: ev in Combine(rs).value <==> exists i :: 0 <= i < |rs| && rs[i].Ok? && ev in rs[i].value
    decreases |rs|
  {
    if |rs| > 0 {
      var n := |rs| - 1;
      var init := rs[..n];
      CombineMembers(init);
      assert Combine(rs).value == Combine(init).value + rs[n].value;
      forall ev | ev in Combine(rs).value
        ensures exists i :: 0 <= i < |rs| && rs[i].Ok? && ev in rs[i].value
      {
        if ev in Combine(init).value {
          var i :| 0 <= i < n && init[i].Ok? && ev in init[i].value;
          assert init[i] == rs[i];
        }
      }
      forall ev, i | 0 <= i < |rs| && rs[i].Ok? && ev in rs[i].value
        ensures ev in Combine(rs).value
      {
        if i < n {
          assert init[i] == rs[i];
        }
      }
    }
  }

  lemma {:induction false} CombineFirstError(rs: seq<Result<seq<Event>, Error>>)
    requires Combine(rs).Err?
    ensures exists i :: 0 <= i < |rs| && rs[i] == Combine(rs) && forall j :: 0 <= j < i ==> rs[j].Ok?
    decreases |rs|
  {
    var n := |rs| - 1;
    var init := rs[..n];
    if Combine(init).Ok? {
      CombineOkIff(init);
      assert forall j :: 0 <= j < n ==> init[j] == rs[j];
      assert rs[n] == Combine(rs);
    } else {
      CombineFirstError(init);
      var i :| 0 <= i < n && init[i] == Combine(init) && forall j :: 0 <= j < i ==> init[j].Ok?;
      assert forall j :: 0 <= j <= i ==> init[j] == rs[j];
    }
  }

  /** Scanning two runs of entries is scanning the first, then the second. */
  lemma ProcessAppend(a: seq<Entry>, b: seq<Entry>, arg: ActionArg, wallet: Option<string>)
    ensures ProcessEntries(a + b, arg, wallet) == Then(ProcessEntries(a, arg, wallet), ProcessEntries(b, arg, wallet))
  {
    var oa, ob, oab := Outcomes(a, arg, wallet), Outcomes(b, arg, wallet), Outcomes(a + b, arg, wallet);
    forall i | 0 <= i < |oab|
      ensures oab[i] == (oa + ob)[i]
    {
      if i < |a| {
        assert (a + b)[i] == a[i];
      } else {
        assert (a + b)[i] == b[i - |a|];
      }
    }
    assert oab == oa + ob;
    CombineAppend(oa, ob);
  }

  /** Once a scan has raised, scanning more entries after it changes nothing. */
  lemma ProcessErrorSticks(a: seq<Entry>, b: seq<Entry>, arg: ActionArg, wallet: Option<string>)
    requires ProcessEntries(a, arg, wallet).Err?
    ensures ProcessEntries(a + b, arg, wallet) == ProcessEntries(a, arg, wallet)
  {
    ProcessAppend(a, b, arg, wallet);
  }

  /** Scanning one more entry: the scan so far, then that entry. */
  lemma ProcessSnoc(es: seq<Entry>, k: nat, arg: ActionArg, wallet: Option<string>)
    requires k < |es|
    ensures ProcessEntries(es[..k + 1], arg, wallet) == Then(ProcessEntries(es[..k], arg, wallet), ProcessEntry(es[k], arg, wallet))
  {
    var rs := Outcomes(es[..k + 1], arg, wallet);
    assert rs[..k] == Outcomes(es[..k], arg, wallet);
  }

  /** The scan succeeds exactly when no entry raises. */
  lemma ProcessOkIff(es: seq<Entry>, arg: ActionArg, wallet: Option<string>)
    ensures ProcessEntries(es, arg, wallet).Ok? <==> forall i :: 0 <= i < |es| ==> ProcessEntry(es[i], arg, wallet).Ok?
  {
    CombineOkIff(Outcomes(es, arg, wallet));
  }

  /** The events of a successful scan are exactly those of its entries. */
  lemma ProcessMembers(es: seq<Entry>, arg: ActionArg, wallet: Option<string>)
    requires ProcessEntries(es, arg, wallet).Ok?
    ensures forall ev :: ev in ProcessEntries(es, arg, wallet).value <==>
              exists i :: 0 <= i < |es| && ProcessEntry(es[i], arg, wallet).Ok? && ev in ProcessEntry(es[i], arg, wallet).value
  {
    CombineMembers(Outcomes(es, arg, wallet));
  }

  /** A failed scan reports the error of the first entry that raises. */
  lemma ProcessFirstError(es: seq<Entry>, arg: ActionArg, wallet: Option<string>)
    requires ProcessEntries(es, arg, wallet).Err?
    ensures exists i :: 0 <= i < |es| && ProcessEntry(es[i], arg, wallet) == ProcessEntries(es, arg, wallet)
                        && forall j :: 0 <= j < i ==> ProcessEntry(es[j], arg, wallet).Ok?
  {
    var rs := Outcomes(es, arg, wallet);
    CombineFirstError(rs);
    var i :| 0 <= i < |rs| && rs[i] == Combine(rs) && forall j :: 0 <= j < i ==> rs[j].Ok?;
    assert ProcessEntry(es[i], arg, wallet) == ProcessEntries(es, arg, wallet);
  }

  /**
   * A bag that passes the filter but does not decode aborts the whole scan: its
   * events are lost with the rest.
   */
  lemma KeptUndecodableAborts(es: seq<Entry>, i: nat, arg: ActionArg, wallet: Option<string>)
    requires i < |es| && IsWasm(es[i].segment)
    requires BagOfPieces(es[i].txHash, Pieces(es[i].segment)).Ok?
    requires Keep(arg, wallet, BagOfPieces(es[i].txHash, Pieces(es[i].segment)).value)
    requires FromDict(BagOfPieces(es[i].txHash, Pieces(es[i].segment)).value).Err?
    ensures ProcessEntries(es, arg, wallet).Err?
  {
    ProcessOkIff(es, arg, wallet);
    assert ProcessEntry(es[i], arg, wallet).Err?;
  }

  /** A built bag never holds the unsuffixed "action" or "from": the fold stores them as "action1" and "from1". */
  lemma BuiltBagHidesRawKeys(txHash: string, pieces: seq<string>)
    requires BagOfPieces(txHash, pieces).Ok?
    ensures "action" !in BagOfPieces(txHash, pieces).value && "from" !in BagOfPieces(txHash, pieces).value
  {
    BagOfPiecesViaPairs(txHash, pieces);
    var ps := ParseAll(pieces).value;
    BagKeyShape(txHash, ps);
    assert !ShapedKey(ps, "action") && !ShapedKey(ps, "from");
  }

  /**
   * A bag without the unsuffixed keys that passes the filter decodes to an event
   * whose action is a requested one (when any are) and whose sender is the wallet
   * (when one is given).
   */
  lemma KeptBagEvent(bag: Bag, arg: ActionArg, wallet: Option<string>, ev: Event)
    requires "action" !in bag && "from" !in bag
    requires Keep(arg, wallet, bag) && FromDict(bag) == Ok(ev)
    ensures |RequestedActions(arg)| == 0
            || exists i :: 0 <= i < |RequestedActions(arg)| && ev.action == Some(RequestedActions(arg)[i].Value())
    ensures wallet.None? || ev.fromAddress == wallet
  {
    assert "action" + "1" == "action1" && "from" + "1" == "from1";
    assert ev.action == Get(bag, "action1") && ev.fromAddress == Get(bag, "from1");
    var actions := RequestedActions(arg);
    if |actions| > 0 {
      var i :| 0 <= i < |actions| && MatchesAction(bag, actions[i]);
      assert ev.action == Some(actions[i].Value());
    }
  }

  /**
   * An event of one entry carries the entry's hash, passed the filter: its
   * action is one of the requested ones (when any are), it was sent from the
   * wallet (when one is given), and it is the decoding of the entry's bag.
   */
  lemma EntryEventFiltered(e: Entry, arg: ActionArg, wallet: Option<string>, ev: Event)
    requires ProcessEntry(e, arg, wallet).Ok? && ev in ProcessEntry(e, arg, wallet).value
    ensures IsWasm(e.segment) && BagOfPieces(e.txHash, Pieces(e.segment)).Ok?
    ensures FromDict(BagOfPieces(e.txHash, Pieces(e.segment)).value) == Ok(ev)
    ensures ev.txnHash == e.txHash
    ensures |RequestedActions(arg)| == 0
            || exists i :: 0 <= i < |RequestedActions(arg)| && ev.action == Some(RequestedActions(arg)[i].Value())
    ensures wallet.None? || ev.fromAddress == wallet
  {
    var pieces := Pieces(e.segment);
    var bag := BagOfPieces(e.txHash, pieces).value;
    assert Keep(arg, wallet, bag) && FromDict(bag) == Ok(ev);
    BuiltBagHidesRawKeys(e.txHash, pieces);
    BagOfPiecesViaPairs(e.txHash, pieces);
    BagSeed(e.txHash, ParseAll(pieces).value);
    KeptBagEvent(bag, arg, wallet, ev);
  }

  /** Every event of a successful scan passed the filter and carries the hash of the entry it came from. */
  lemma EventsFiltered(txs: seq<Tx>, arg: ActionArg, wallet: Option<string>)
    requires ProcessEntries(Entries(txs), arg, wallet).Ok?
    ensures forall ev :: ev in ProcessEntries(Entries(txs), arg, wallet).value ==>
      && (exists t :: t in txs && ev.txnHash == t.txhash)
      && (|RequestedActions(arg)| == 0
          || exists i :: 0 <= i < |RequestedActions(arg)| && ev.action == Some(RequestedActions(arg)[i].Value()))
      && (wallet.None? || ev.fromAddress == wallet)
  {
    var es := Entries(txs);
    ProcessMembers(es, arg, wallet);
    EntriesFromTxs(txs);
    forall ev | ev in ProcessEntries(es, arg, wallet).value
      ensures exists t :: t in txs && ev.txnHash == t.txhash
      ensures |RequestedActions(arg)| == 0
              || exists i :: 0 <= i < |RequestedActions(arg)| && ev.action == Some(RequestedActions(arg)[i].Value())
      ensures wallet.None? || ev.fromAddress == wallet
    {
      var i :| 0 <= i < |es| && ProcessEntry(es[i], arg, wallet).Ok? && ev in ProcessEntry(es[i], arg, wallet).value;
      EntryEventFiltered(es[i], arg, wallet, ev);
      assert es[i] in es;
    }
  }

  /** The list comprehension of lines 211-217: the events whose hash has not been processed, in order. */
  function Unseen(evs: seq<Event>, seen: set<string>): seq<Event>
    decreases |evs|
  {
    if |evs| == 0 then []
    else
      var r := Unseen(evs[..|evs| - 1], seen);
      if evs[|evs| - 1].txnHash in seen then r else r + [evs[|evs| - 1]]
  }

  /** The hashes of a list of events. */
  function Hashes(evs: seq<Event>): set<string> {
    set i | 0 <= i < |evs| :: evs[i].txnHash
  }

  /** The filter drops every event with a seen hash and keeps every other one as often as it occurs. */
  lemma {:induction false} UnseenCounts(evs: seq<Event>, seen: set<string>)
    ensures forall e :: multiset(Unseen(evs, seen))[e] == if e.txnHash in seen then 0 else multiset(evs)[e]
    decreases |evs|
  {
    if |evs| > 0 {
      var init, last := evs[..|evs| - 1], evs[|evs| - 1];
      UnseenCounts(init, seen);
      assert evs == init + [last];
    }
  }

  /** An unseen event is one of the events, with a hash not yet seen. */
  lemma UnseenMember(evs: seq<Event>, seen: set<string>, ev: Event)
    requires ev in Unseen(evs, seen)
    ensures ev in evs && ev.txnHash !in seen
  {
    UnseenCounts(evs, seen);
    assert multiset(Unseen(evs, seen))[ev] > 0;
  }

  /** Once the hashes the filter let through are marked, filtering again lets nothing through. */
  lemma UnseenAfterMarking(evs: seq<Event>, seen: set<string>)
    ensures Unseen(evs, seen + Hashes(Unseen(evs, seen))) == []
  {
    var sent := Unseen(evs, seen);
    var again := Unseen(evs, seen + Hashes(sent));
    UnseenCounts(evs, seen);
    UnseenCounts(evs, seen + Hashes(sent));
    forall ev | ev in evs
      ensures ev.txnHash in seen + Hashes(sent)
    {
      if ev.txnHash !in seen {
        assert multiset(sent)[ev] == multiset(evs)[ev];
        var k :| 0 <= k < |sent| && sent[k] == ev;
      }
    }
    forall ev: Event
      ensures multiset(again)[ev] == 0
    {
      if ev.txnHash !in seen + Hashes(sent) {
        assert ev !in evs;
      }
    }
    assert multiset(again) == multiset{};
  }

  /** With nothing processed, every event is let through. */
  lemma {:induction false} UnseenNothingSeen(evs: seq<Event>)
    ensures Unseen(evs, {}) == evs
    decreases |evs|
  {
    if |evs| > 0 {
      var init, last := evs[..|evs| - 1], evs[|evs| - 1];
      UnseenNothingSeen(init);
      assert evs == init + [last];
    }
  }

  /** The processed-events file: absent, holding a list of hashes, or present but not a readable list. */
  datatype StoreFile = Missing | Saved(hashes: set<string>) | Unreadable

  /** The retriever's in-memory set of processed hashes and its file. */
  datatype State = State(processed: set<string>, disk: StoreFile)

  /**
   * `load_processed_events`: with the flag set, a saved file replaces the
   * in-memory set, a missing file is ignored, and an unreadable one raises;
   * without the flag nothing happens.
   */
  function Load(discard: bool, s: State): Result<State, Error> {
    if !discard then Ok(s)
    else
      match s.disk
      case Missing => Ok(s)
      case Saved(hashes) => Ok(s.(processed := hashes))
      case Unreadable => Err(StoreUnreadable)
  }

  /**
   * `fetch_events`: load, query every transaction of the contract (no action
   * query), scan them, drop the events already processed and, with the flag set,
   * add the hashes sent to the set and write the set to the file. An error
   * leaves the state as it was when the error was raised.
   */
  function Fetch(contractAddress: string, discard: bool, arg: ActionArg, wallet: Option<string>,
                 svc: Service, fuel: nat, s: State): (Result<seq<Event>, Error>, State)
    requires Stops(svc, EventQueries(contractAddress, None), 0, fuel)
  {
    match Load(discard, s)
    case Err(e) => (Err(e), s)
    case Ok(loaded) =>
      match Paginate(svc, EventQueries(contractAddress, None), 0, fuel)
      case Err(e) => (Err(e), loaded)
      case Ok(txs) =>
        match ProcessEntries(Entries(txs), arg, wallet)
        case Err(e) => (Err(e), loaded)
        case Ok(evs) =>
          var sent := Unseen(evs, loaded.processed);
          if discard then
            var marked := loaded.processed + Hashes(sent);
            (Ok(sent), State(marked, Saved(marked)))
          else (Ok(sent), loaded)
  }

  /** The set a fetch filters against: the file's hashes when the flag is set and the file is saved, else the set in memory. */
  function Baseline(discard: bool, s: State): set<string> {
    if discard && s.disk.Saved? then s.disk.hashes else s.processed
  }

  /**
   * Every event a fetch returns was scanned from a transaction of the contract,
   * passed the action and wallet filters, and has a hash outside the baseline.
   */
  lemma FetchSendsFiltered(contractAddress: string, discard: bool, arg: ActionArg, wallet: Option<string>,
                           svc: Service, fuel: nat, s: State)
    requires Stops(svc, EventQueries(contractAddress, None), 0, fuel)
    ensures var (r, _) := Fetch(contractAddress, discard, arg, wallet, svc, fuel, s);
      r.Ok? ==>
        && Paginate(svc, EventQueries(contractAddress, None), 0, fuel).Ok?
        && forall ev :: ev in r.value ==>
             && ev.txnHash !in Baseline(discard, s)
             && (exists t :: t in Paginate(svc, EventQueries(contractAddress, None), 0, fuel).value && ev.txnHash == t.txhash)
             && (|RequestedActions(arg)| == 0
                 || exists i :: 0 <= i < |RequestedActions(arg)| && ev.action == Some(RequestedActions(arg)[i].Value()))
             && (wallet.None? || ev.fromAddress == wallet)
  {
    var (r, _) := Fetch(contractAddress, discard, arg, wallet, svc, fuel, s);
    if r.Ok? {
      var loaded := Load(discard, s).value;
      var txs := Paginate(svc, EventQueries(contractAddress, None), 0, fuel).value;
      var evs := ProcessEntries(Entries(txs), arg, wallet).value;
      EventsFiltered(txs, arg, wallet);
      forall ev | ev in r.value
        ensures ev in evs && ev.txnHash !in Baseline(discard, s)
      {
        UnseenMember(evs, loaded.processed, ev);
      }
    }
  }

  /**
   * With the flag set, a successful fetch leaves the file holding exactly the
   * new set, which is the baseline plus the hashes sent.
   */
  lemma FetchRecordsSent(contractAddress: string, arg: ActionArg, wallet: Option<string>,
                         svc: Service, fuel: nat, s: State)
    requires Stops(svc, EventQueries(contractAddress, None), 0, fuel)
    ensures var (r, s') := Fetch(contractAddress, true, arg, wallet, svc, fuel, s);
      r.Ok? ==>
        && s'.disk == Saved(s'.processed)
        && s'.processed == Baseline(true, s) + Hashes(r.value)
        && (forall ev :: ev in r.value ==> ev.txnHash in s'.processed)
  {
    var (r, s') := Fetch(contractAddress, true, arg, wallet, svc, fuel, s);
    if r.Ok? {
      forall ev | ev in r.value
        ensures ev.txnHash in s'.processed
      {
        var k :| 0 <= k < |r.value| && r.value[k] == ev;
      }
    }
  }

  /** Without the flag a fetch changes nothing, yet still drops events whose hash is in memory. */
  lemma FetchWithoutFlag(contractAddress: string, arg: ActionArg, wallet: Option<string>,
                         svc: Service, fuel: nat, s: State)
    requires Stops(svc, EventQueries(contractAddress, None), 0, fuel)
    ensures var (r, s') := Fetch(contractAddress, false, arg, wallet, svc, fuel, s);
      && s' == s
      && (r.Ok? ==> forall ev :: ev in r.value ==> ev.txnHash !in s.processed)
  {
    FetchSendsFiltered(contractAddress, false, arg, wallet, svc, fuel, s);
  }

  /** An unreadable file aborts a fetch with the flag set before any query, and changes nothing. */
  lemma FetchUnreadableStore(contractAddress: string, arg: ActionArg, wallet: Option<string>,
                             svc: Service, fuel: nat, s: State)
    requires Stops(svc, EventQueries(contractAddress, None), 0, fuel)
    requires s.disk.Unreadable?
    ensures Fetch(contractAddress, true, arg, wallet, svc, fuel, s) == (Err(StoreUnreadable), s)
  {
  }

  /** A fetch that fails after loading keeps the loaded set in memory and the file as it was. */
  lemma FetchFailureKeepsLoad(contractAddress: string, discard: bool, arg: ActionArg, wallet: Option<string>,
                              svc: Service, fuel: nat, s: State)
    requires Stops(svc, EventQueries(contractAddress, None), 0, fuel)
    requires Load(discard, s).Ok?
    ensures var (r, s') := Fetch(contractAddress, discard, arg, wallet, svc, fuel, s);
      r.Err? ==> s' == State(Baseline(discard, s), s.disk)
  {
  }

  /**
   * With the flag set, fetching again from a service that answers the same way
   * returns no event and leaves the state as the first fetch left it.
   */
  lemma FetchRepeatIsEmpty(contractAddress: string, arg: ActionArg, wallet: Option<string>,
                           svc: Service, fuel: nat, s: State)
    requires Stops(svc, EventQueries(contractAddress, None), 0, fuel)
    ensures var (r1, s1) := Fetch(contractAddress, true, arg, wallet, svc, fuel, s);
      r1.Ok? ==> Fetch(contractAddress, true, arg, wallet, svc, fuel, s1) == (Ok([]), s1)
  {
    var (r1, s1) := Fetch(contractAddress, true, arg, wallet, svc, fuel, s);
    if r1.Ok? {
      var loaded := Load(true, s).value;
      var txs := Paginate(svc, EventQueries(contractAddress, None), 0, fuel).value;
      var evs := ProcessEntries(Entries(txs), arg, wallet).value;
      assert r1.value == Unseen(evs, loaded.processed);
      UnseenAfterMarking(evs, loaded.processed);
      assert Hashes([]) == {};
      assert s1.processed + {} == s1.processed;
    }
  }

  /**
   * With the flag set, two fetches in a row never return the same hash, whatever
   * the service answers each time: at-most-once delivery through the file.
   */
  lemma FetchNoResend(contractAddress: string, arg1: ActionArg, wallet1: Option<string>, svc1: Service, fuel1: nat,
                      arg2: ActionArg, wallet2: Option<string>, svc2: Service, fuel2: nat, s: State)
    requires Stops(svc1, EventQueries(contractAddress, None), 0, fuel1)
    requires Stops(svc2, EventQueries(contractAddress, None), 0, fuel2)
    ensures var (r1, s1) := Fetch(contractAddress, true, arg1, wallet1, svc1, fuel1, s);
      var (r2, s2) := Fetch(contractAddress, true, arg2, wallet2, svc2, fuel2, s1);
      r1.Ok? && r2.Ok? ==> forall e1, e2 :: e1 in r1.value && e2 in r2.value ==> e1.txnHash != e2.txnHash
  {
    var (r1, s1) := Fetch(contractAddress, true, arg1, wallet1, svc1, fuel1, s);
    var (r2, s2) := Fetch(contractAddress, true, arg2, wallet2, svc2, fuel2, s1);
    if r1.Ok? && r2.Ok? {
      FetchRecordsSent(contractAddress, arg1, wallet1, svc1, fuel1, s);
      FetchSendsFiltered(contractAddress, true, arg2, wallet2, svc2, fuel2, s1);
    }
  }

  /** With a missing file and the flag set, the first fetch sends everything scanned and creates the file. */
  lemma FetchFirstRun(contractAddress: string, arg: ActionArg, wallet: Option<string>, svc: Service, fuel: nat)
    requires Stops(svc, EventQueries(contractAddress, None), 0, fuel)
    ensures var (r, s') := Fetch(contractAddress, true, arg, wallet, svc, fuel, State({}, Missing));
      var scanned := Paginate(svc, EventQueries(contractAddress, None), 0, fuel);
      && (r.Ok? <==> scanned.Ok? && ProcessEntries(Entries(scanned.value), arg, wallet).Ok?)
      && (r.Ok? ==> r == ProcessEntries(Entries(scanned.value), arg, wallet)
                    && s' == State(Hashes(r.value), Saved(Hashes(r.value))))
  {
    var scanned := Paginate(svc, EventQueries(contractAddress, None), 0, fuel);
    if scanned.Ok? && ProcessEntries(Entries(scanned.value), arg, wallet).Ok? {
      var evs := ProcessEntries(Entries(scanned.value), arg, wallet).value;
      UnseenNothingSeen(evs);
      assert {} + Hashes(evs) == Hashes(evs);
    }
  }
}
