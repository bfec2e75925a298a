/**
 * The decoded event record and its decoder from an attribute bag
 * (`ActionType`, `Event`, `Event.from_dict` and `Event.extract_trade_pair`).
 */
module Events {
  import opened Wrappers
  import opened Errors

  /** The four actions the escrow contract reports, with their wire strings. */
  datatype ActionType = Refund | Transfer | PartialTransfer | Create {
    function Value(): string {
      match this
      case Refund => "refund"
      case Transfer => "transfer"
      case PartialTransfer => "partial_transfer"
      case Create => "create"
    }
  }

  /** An attribute bag: the dictionary built for one wasm event. Every value is a string. */
  type Bag = map<string, string>

  const TxnHashKey := "TxnHash"
  const Cw20Key := "cw20_contract_address"
  const EscrowKey := "escrow_contract_address"

  /** Python's `bag.get(k)`. */
  function Get(bag: Bag, k: string): Option<string> {
    if k in bag then Some(bag[k]) else None
  }

  /**
   * Python's `bag.get(k) or bag.get(k + "1")`: the value under `k` when it is a
   * non-empty string (truthy), otherwise whatever is stored under `k + "1"`, even
   * an empty string, otherwise None.
   */
  function Fallback(bag: Bag, k: string): (r: Option<string>)
    ensures r.Some? ==> (k in bag && r.value == bag[k] && r.value != "")
                        || (k + "1" in bag && r.value == bag[k + "1"])
    ensures (k in bag && bag[k] != "") ==> r == Some(bag[k])
    ensures r.None? <==> (k !in bag || bag[k] == "") && k + "1" !in bag
  {
    if k in bag && bag[k] != "" then Some(bag[k]) else Get(bag, k + "1")
  }

  /** The characters of the pattern `[A-Za-z/]`. */
  predicate IsPairChar(c: char) {
    ('A' <= c <= 'Z') || ('a' <= c <= 'z') || c == '/'
  }

  /** The longest prefix of `s` made only of ASCII letters and '/'. */
  function LeadingRun(s: string): (r: string)
    ensures |r| <= |s| && r == s[..|r|]
    ensures forall i :: 0 <= i < |r| ==> IsPairChar(r[i])
    ensures |r| < |s| ==> !IsPairChar(s[|r|])
  {
    if |s| == 0 || !IsPairChar(s[0]) then ""
    else
      var tail := LeadingRun(s[1..]);
      assert s[1..][..|tail|] == s[1..|tail| + 1];
      [s[0]] + tail
  }

  /**
   * `re.match(r"([A-Za-z/]+)", id).group(1)`: the trade pair is the longest
   * leading run of letters and '/', and it must not be empty. With no id at all
   * `re.match` raises TypeError; with no match, `.group` raises AttributeError.
   */
  function ExtractTradePair(id: Option<string>): (r: Result<string, Error>)
    ensures id.None? ==> r == Err(MissingId)
    ensures id.Some? && (|id.value| == 0 || !IsPairChar(id.value[0])) ==> r == Err(NoTradePair(id.value))
    ensures r.Ok? <==> id.Some? && |id.value| > 0 && IsPairChar(id.value[0])
    ensures r.Ok? ==> var pair := r.value;
      && 0 < |pair| <= |id.value|
      && pair == id.value[..|pair|]
      && (forall i :: 0 <= i < |pair| ==> IsPairChar(pair[i]))
      && (|pair| < |id.value| ==> !IsPairChar(id.value[|pair|]))
  {
    match id
    case None => Err(MissingId)
    case Some(s) =>
      var run := LeadingRun(s);
      if |run| == 0 then Err(NoTradePair(s)) else Ok(run)
  }

  /**
   * One decoded event. `action` keeps the raw string of the bag, whatever it is;
   * the optional fields are None when neither spelling of their key is found.
   */
  datatype Event = Event(
    id: string,
    txnHash: string,
    action: Option<string>,
    fromAddress: Option<string>,
    toAddress: Option<string>,
    amount: Option<string>,
    tradePair: string,
    sellPrice: Option<string>,
    escrowAddress: Option<string>,
    remainingAmount: Option<string>,
    preferredAgent: Option<string>,
    matchOthers: Option<string>)

  /**
   * `Event.from_dict`: "TxnHash" is read directly (KeyError when absent), every
   * other field takes its key or the key suffixed with "1", the escrow address
   * reads only "escrow_contract_address", and the trade pair is extracted from the id.
   */
  function FromDict(bag: Bag): (r: Result<Event, Error>)
    ensures TxnHashKey !in bag ==> r == Err(MissingTxnHash)
    ensures TxnHashKey in bag && r.Err? ==> Err(r.error) == ExtractTradePair(Fallback(bag, "id"))
    ensures r.Ok? <==> TxnHashKey in bag && ExtractTradePair(Fallback(bag, "id")).Ok?
    ensures r.Ok? ==> var e := r.value;
      && e.txnHash == bag[TxnHashKey]
      && Fallback(bag, "id") == Some(e.id)
      && ExtractTradePair(Some(e.id)) == Ok(e.tradePair)
      && e.action == Fallback(bag, "action")
      && e.fromAddress == Fallback(bag, "from")
      && e.toAddress == Fallback(bag, "to")
      && e.amount == Fallback(bag, "amount")
      && e.sellPrice == Fallback(bag, "sell_price")
      && e.escrowAddress == Get(bag, EscrowKey)
      && e.remainingAmount == Fallback(bag, "remaining_amount")
      && e.preferredAgent == Fallback(bag, "preferred_agent")
      && e.matchOthers == Fallback(bag, "match_others")
  {
    if TxnHashKey !in bag then Err(MissingTxnHash)
    else
      var id := Fallback(bag, "id");
      match ExtractTradePair(id)
      case Err(e) => Err(e)
      case Ok(pair) =>
        Ok(Event(
          id.value,
          bag[TxnHashKey],
          Fallback(bag, "action"),
          Fallback(bag, "from"),
          Fallback(bag, "to"),
          Fallback(bag, "amount"),
          pair,
          Fallback(bag, "sell_price"),
          Get(bag, EscrowKey),
          Fallback(bag, "remaining_amount"),
          Fallback(bag, "preferred_agent"),
          Fallback(bag, "match_others")))
  }
}
