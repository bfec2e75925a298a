# fetch-network-event-poller, modelled in Dafny

A model of `EventRetriever`, the core of the event poller. It fetches the
transactions of an escrow contract from a Cosmos transaction service, page by
page. It scans the rendered logs of those transactions for wasm events and
builds an attribute bag per event. It keeps the bags that pass an action and
wallet filter, decodes them into `Event` records, and drops the events whose
transaction hash was already processed. With the "discard processed events"
flag set, it records the hashes it sent in a JSON file.

Each module follows one part of `eventfetcher/event_retriever.py`:

- `Wrappers` and `Errors` (`wrappers.dfy`): `Option`, `Result`, and one
  error per exception the source can raise.
- `Text` (`text.dfy`): Python's `in`, `str.split`, `sep.join` and
  `str.replace` on `seq<char>`, with their laws.
- `Events` (`events.dfy`): `ActionType`, the attribute bag, the
  `get(k) or get(k + "1")` fallback, `extract_trade_pair` and
  `Event.from_dict`.
- `LogParser` (`log_parser.dfy`): how `_filter_events` splits a rendered log
  into segments, a segment into pieces, and a piece into a key and a value,
  and the fold that builds the bag.
- `EventFilter` (`event_filter.dfy`): the action and wallet tests.
- `Query` (`query.dfy`): the paginated query `Paginate` against a service
  oracle, and the query strings of `_get_events`.
- `Pipeline` (`pipeline.dfy`): what `_filter_events` and `fetch_events`
  compute, as functions of their inputs and of the retriever's state
  (`State`: the in-memory set and the file).
- `Retriever` (`retriever.dfy`): `class EventRetriever`. It has the
  source's fields, and one method per loop of the source, each proved to
  compute the function of `Query`, `LogParser` or `Pipeline` that specifies
  it.

Where the code does something other than its names and docstrings suggest,
the model follows the code:

- The first occurrence of an ordinary key is already stored as key + "1",
  and a later occurrence overwrites it.
  - `result.get(key, 0)` looks up the unsuffixed key, which the fold never
    stores.
  - A raw key equal to a key already in the bag (for example a literal
    `action1` after an `action`) meets `str + 1` and raises TypeError. This
    is `KeyCountNotInt`.
- A `_contract_address` is the cw20 address only when the bag holds nothing
  but the hash (`len(result) - 1 == 0`). Any other contract address is the
  escrow address, and the last one wins. Order among the contract addresses
  alone does not decide.
- Errors raised during the scan are not caught, so they abort the whole call
  with no partial result:
  - a kept bag that does not decode (no "TxnHash", no id, an id without a
    leading letter or '/');
  - a piece with fewer than two quotes (IndexError);
  - a clashing key.
- An unreadable processed-events file raises. Only a missing file is ignored.
- The load replaces the in-memory set with the file's contents. Without the
  flag nothing is loaded, but the set already in memory still filters.
- `fetch_events` always queries with no action query (`wasm_action = None`).
- `match_others` is passed through as the bag's string, or None when absent.
  No default of True is applied.

## Model

| member | source | states |
|---|---|---|
| Text.FindFromLeftmost | eventfetcher/event_retriever.py:298 | the occurrence found is the leftmost one at or after the start |
| Text.ContainsSpec | eventfetcher/event_retriever.py:298 | `pat in s` holds exactly when `pat` occurs at some index of `s` |
| Text.SplitJoin | eventfetcher/event_retriever.py:295 | joining the pieces of `s.split(sep)` with `sep` gives back `s` |
| Text.SplitNoSeparator | eventfetcher/event_retriever.py:295 | no piece of `s.split(sep)` contains `sep` |
| Text.SplitCharCount | eventfetcher/event_retriever.py:305-306 | splitting at a character gives one more piece than the character's occurrences |
| Text.JoinChars | eventfetcher/event_retriever.py:290-296 | a character is in a join exactly when it is in some part, or in the separator with two or more parts |
| Text.DeleteKeepsOut | eventfetcher/event_retriever.py:290-294 | deleting a pattern adds no character that was absent |
| Text.DeleteCharRemovesIt | eventfetcher/event_retriever.py:291-293 | `replace(c, "")` leaves no `c` |
| Events.Fallback | eventfetcher/event_retriever.py:84-100 | `get(k) or get(k + "1")`: a non-empty value under `k` wins; otherwise the value under `k + "1"`, even an empty one; None only when neither applies |
| Events.LeadingRun | eventfetcher/event_retriever.py:124 | the longest prefix made only of ASCII letters and '/' |
| Events.ExtractTradePair | eventfetcher/event_retriever.py:117-125 | no id fails with `MissingId`; an id not starting with a letter or '/' fails with `NoTradePair`; otherwise the result is the maximal leading run of letters and '/' |
| Events.FromDict | eventfetcher/event_retriever.py:76-115 | missing "TxnHash" fails; otherwise decoding succeeds exactly when the trade pair extracts, and every field is its key's fallback (escrow: the plain key only) |
| LogParser.SegmentsAreClean | eventfetcher/event_retriever.py:290-296 | the segments re-join with "," to the normalised text, and none holds ',', '[', ']' or a newline |
| LogParser.PiecesFollowMarkers | eventfetcher/event_retriever.py:299-302 | the unwrapped segment is a head, then each piece after a `key: "` marker; no part holds the marker |
| LogParser.ParsePairShape | eventfetcher/event_retriever.py:305-306 | a piece yields a pair exactly when it holds at least two quotes; the piece then reads key, quote, skipped text, quote, value, rest; otherwise `PairWithoutValue` |
| LogParser.BagOfPiecesViaPairs | eventfetcher/event_retriever.py:302-318 | building from pieces is building from their pairs, and succeeds only when every piece splits |
| LogParser.LastValueSpec | eventfetcher/event_retriever.py:316-318 | the value found is that of the last pair with the key; nothing is found exactly when no pair has it |
| LogParser.SuffixedKey | eventfetcher/event_retriever.py:317 | `key + "1"` ends in '1', starts with the key, and is never the hash or a contract-address key |
| LogParser.BagSeed | eventfetcher/event_retriever.py:303 | every bag keeps TxnHash -> hash, and holds only that entry exactly while no pair has been stored |
| LogParser.BagOrdinaryKey | eventfetcher/event_retriever.py:315-318 | a non-contract key `k` is present exactly as `k + "1"`, with the value of its last occurrence |
| LogParser.BagKeyShape | eventfetcher/event_retriever.py:303-318 | every key of a bag is the hash, a contract-address key, or a non-contract pair key followed by "1" |
| LogParser.BagCw20 | eventfetcher/event_retriever.py:307-314 | the cw20 address exists exactly when the first pair is a contract address, and holds that pair's value |
| LogParser.BagEscrow | eventfetcher/event_retriever.py:307-314 | the escrow address exists exactly when a contract address follows the first pair, and the last such one wins |
| LogParser.PlainKeysBuild | eventfetcher/event_retriever.py:315-318 | pairs whose keys cannot clash with stored keys always build a bag |
| LogParser.FallbackOnBuiltBag | eventfetcher/event_retriever.py:84-100 | on a built bag the decoder's fallback of a plain field is the value of that field's last pair |
| LogParser.DecodeBuiltBag | eventfetcher/event_retriever.py:76-115 | a built bag decodes exactly when the last id has a trade pair; then each field is its last pair's value, escrow is the last later contract address, and the hash is the transaction's |
| LogParser.RepeatedKeyKeepsLast | eventfetcher/event_retriever.py:315-318 | two "action" pairs leave only "action1", holding the second value |
| LogParser.StoredKeyClashes | eventfetcher/event_retriever.py:316 | a raw key equal to a stored one raises instead of being counted |
| EventFilter.AllMiss | eventfetcher/event_retriever.py:320-324 | the `all(...)` is true exactly when no requested action matches "action" or "action1" |
| EventFilter.ActionTest | eventfetcher/event_retriever.py:319-325 | a bag passes exactly when no action is requested or some requested action matches |
| EventFilter.WalletTest | eventfetcher/event_retriever.py:326-330 | a bag passes exactly when no wallet is given or "from" or "from1" holds it |
| EventFilter.TransferFromW1 | eventfetcher/event_retriever.py:319-330 | a transfer sent from W1 is kept exactly when the action argument is empty or asks for Transfer, and the wallet is absent or W1 |
| Query.RequestsChain | eventfetcher/event_retriever.py:232-246 | the first request is at offset 0; each next offset is the previous plus its page's size, and those pages fall short of their totals |
| Query.PaginateOutcome | eventfetcher/event_retriever.py:235-246 | the query succeeds exactly when the last reply reaches its total, and fails exactly when that reply raised |
| Query.PaginateCollects | eventfetcher/event_retriever.py:241-248 | a successful result is every requested page in order, ending at the last offset plus the last page |
| Query.PaginateFuelIrrelevant | eventfetcher/event_retriever.py:235-246 | the result and the requests do not depend on the bound granted for termination |
| Query.StopsMonotone | eventfetcher/event_retriever.py:235-246 | a loop that stops within a bound stops within any larger one |
| Query.HonestServiceStops | eventfetcher/event_retriever.py:235-246 | against that service the loop terminates |
| Query.HonestServiceRoundTrip | eventfetcher/event_retriever.py:232-248 | against that service the loop returns exactly the records from the start offset on |
| Query.HonestServiceRequests | eventfetcher/event_retriever.py:232-248 | against that service the loop makes one request per page of the remaining records (one when none remain) |
| Query.TwoHundredFiftyRecords | eventfetcher/event_retriever.py:232-248 | 250 records in pages of 100 are fetched at offsets 0, 100 and 200 and returned whole |
| Query.EventQueriesRoundTrip | eventfetcher/event_retriever.py:261-263 | the contract address and the wasm action can be read back from the query strings |
| Pipeline.EntriesFromTxs | eventfetcher/event_retriever.py:287-303 | every entry carries the hash of one of the transactions |
| Pipeline.ProcessOkIff | eventfetcher/event_retriever.py:297-332 | the scan succeeds exactly when no entry raises |
| Pipeline.ProcessMembers | eventfetcher/event_retriever.py:297-332 | the events of a successful scan are exactly those of its entries |
| Pipeline.ProcessFirstError | eventfetcher/event_retriever.py:297-332 | a failed scan reports the error of the first entry that raises |
| Pipeline.ProcessAppend | eventfetcher/event_retriever.py:287-332 | scanning two runs of entries is scanning the first, then the second |
| Pipeline.KeptUndecodableAborts | eventfetcher/event_retriever.py:319-331 | a kept bag that does not decode aborts the whole scan |
| Pipeline.BuiltBagHidesRawKeys | eventfetcher/event_retriever.py:315-318 | a built bag never holds the unsuffixed "action" or "from" |
| Pipeline.KeptBagEvent | eventfetcher/event_retriever.py:319-331 | a kept bag decodes to an event whose action was requested (when any were) and whose sender is the wallet (when one is given) |
| Pipeline.EntryEventFiltered | eventfetcher/event_retriever.py:298-331 | an event of one entry is the decoding of its bag, carries its hash, and passed both filters |
| Pipeline.EventsFiltered | eventfetcher/event_retriever.py:266-332 | every event of a successful scan comes from one of the transactions and passed both filters |
| Pipeline.UnseenCounts | eventfetcher/event_retriever.py:211-217 | the dedup drops every event with a seen hash and keeps every other one as often as it occurs |
| Pipeline.UnseenMember | eventfetcher/event_retriever.py:211-217 | an event let through is one of the events, with an unseen hash |
| Pipeline.UnseenAfterMarking | eventfetcher/event_retriever.py:211-219 | once the hashes let through are marked, filtering again lets nothing through |
| Pipeline.UnseenNothingSeen | eventfetcher/event_retriever.py:211-217 | with nothing processed every event is let through |
| Pipeline.FetchSendsFiltered | eventfetcher/event_retriever.py:205-222 | every event returned came from a queried transaction, passed both filters, and has a hash outside the baseline set |
| Pipeline.FetchRecordsSent | eventfetcher/event_retriever.py:218-221 | with the flag set the file holds exactly the new set, which is the baseline plus the hashes sent |
| Pipeline.FetchWithoutFlag | eventfetcher/event_retriever.py:205-218 | without the flag nothing changes, and events whose hash is in memory are still dropped |
| Pipeline.FetchUnreadableStore | eventfetcher/event_retriever.py:184-189 | an unreadable file aborts before any query and changes nothing |
| Pipeline.FetchFailureKeepsLoad | eventfetcher/event_retriever.py:205-210 | a fetch failing after the load keeps the loaded set and leaves the file alone |
| Pipeline.FetchRepeatIsEmpty | eventfetcher/event_retriever.py:205-222 | with the flag set, a second fetch of the same answers returns nothing and changes nothing |
| Pipeline.FetchNoResend | eventfetcher/event_retriever.py:205-222 | with the flag set, two consecutive fetches never return the same hash |
| Pipeline.FetchFirstRun | eventfetcher/event_retriever.py:184-222 | with no file, the first fetch sends every scanned event and creates the file with their hashes |
| Retriever.EventRetriever.constructor | eventfetcher/event_retriever.py:154-168 | the fields are set, the file name (by default "processsed_events") gets ".json", and the set starts empty |
| Retriever.EventRetriever.LoadProcessedEvents | eventfetcher/event_retriever.py:178-189 | the new set is the load of the old state, and an error leaves it unchanged |
| Retriever.EventRetriever.QueryTxsEvents | eventfetcher/event_retriever.py:224-248 | the loop returns `Paginate` of the service from offset 0 |
| Retriever.EventRetriever.GetEvents | eventfetcher/event_retriever.py:250-264 | the query strings are the contract query, plus the action query when given, and the result is their pagination |
| Retriever.EventRetriever.BuildBag | eventfetcher/event_retriever.py:302-318 | the loop computes the bag fold over the pieces, including its first error |
| Retriever.EventRetriever.ScanSegment | eventfetcher/event_retriever.py:298-331 | one segment yields what `ProcessEntry` specifies |
| Retriever.EventRetriever.ScanSegments | eventfetcher/event_retriever.py:297-331 | the loop over a log's segments computes the scan of their entries |
| Retriever.EventRetriever.ScanLog | eventfetcher/event_retriever.py:289-331 | one log is normalised, split and scanned |
| Retriever.EventRetriever.ScanTx | eventfetcher/event_retriever.py:288-331 | the loop over a transaction's logs computes the scan of its entries |
| Retriever.EventRetriever.FilterEvents | eventfetcher/event_retriever.py:266-332 | `_filter_events` computes the scan of all entries of the response |
| Retriever.EventRetriever.DropProcessed | eventfetcher/event_retriever.py:211-217 | the comprehension keeps exactly the unseen events, in order |
| Retriever.EventRetriever.FetchEvents | eventfetcher/event_retriever.py:191-222 | result, new set and new file are those of `Fetch` on the old state |

## Left out

- The gRPC client over TLS with certifi roots (lines 170-176, 206-207): the service is a function parameter of type `Service`.
- Real file I/O and JSON (lines 186-187, 220-221): the file is the field `disk` (missing, a saved set, or unreadable); a failing write is not modelled.
- The protobuf `str(obj.events)` rendering (line 289): each log is given as its rendered text.
- `Event.__str__` (lines 127-146): output formatting only.
- The `Enum` machinery of `ActionType`: it is a datatype with its four wire strings.
- The `isinstance` dispatch on `action_type` (lines 282-285): the argument is already one of `ActionArg`'s three cases, so a value of any other type cannot be expressed.
- Termination of `while True` (line 235): the loop can run forever when a total is never reached. Every operation that pages requires `Stops`, with a ghost bound.
- A store shared by several retrievers or processes, and concurrency: one retriever owns its state.
- setup.py and packaging.
