/**
 * The text scan inside `EventRetriever._filter_events`: a transaction log's
 * rendered events are cut into segments, each wasm segment into attribute
 * pieces, each piece into a key and a value, and the pairs are folded into an
 * attribute bag. The loop that performs the fold is `EventRetriever.BuildBag`;
 * the functions here say what it computes.
 */
module LogParser {
  import opened Wrappers
  import opened Errors
  import opened Text
  import opened Events

  const WasmTag := "type: \"wasm\""
  const AttributesOpen := "attributes {"
  const KeyMarker := "key: \""
  const Quote := "\""
  const ContractKey := "_contract_address"

  /** The rendered events with brackets, newlines and double spaces deleted, in that order. */
  function Normalise(rendered: string): string {
    Replace(Replace(Replace(Replace(rendered, "[", ""), "]", ""), "\n", ""), "  ", "")
  }

  /** The comma-separated segments of a log's rendered events. */
  function Segments(rendered: string): seq<string> {
    Split(Normalise(rendered), ",")
  }

  /**
   * The segments re-join to the normalised text and none of them holds a comma,
   * a bracket or a newline.
   */
  lemma SegmentsAreClean(rendered: string)
    ensures Join(Segments(rendered), ",") == Normalise(rendered)
    ensures forall k :: 0 <= k < |Segments(rendered)| ==> var seg := Segments(rendered)[k];
      ',' !in seg && '[' !in seg && ']' !in seg && '\n' !in seg
  {
    var t1 := Replace(rendered, "[", "");
    var t2 := Replace(t1, "]", "");
    var t3 := Replace(t2, "\n", "");
    var t4 := Replace(t3, "  ", "");
    DeleteCharRemovesIt(rendered, '[');
    DeleteKeepsOut(t1, "]", '[');
    DeleteCharRemovesIt(t1, ']');
    DeleteKeepsOut(t2, "\n", '[');
    DeleteKeepsOut(t2, "\n", ']');
    DeleteCharRemovesIt(t2, '\n');
    DeleteKeepsOut(t3, "  ", '[');
    DeleteKeepsOut(t3, "  ", ']');
    DeleteKeepsOut(t3, "  ", '\n');
    var segs := Segments(rendered);
    SplitJoin(t4, ",");
    SplitNoSeparator(t4, ",");
    JoinChars(segs, ",", '[');
    JoinChars(segs, ",", ']');
    JoinChars(segs, ",", '\n');
    forall k | 0 <= k < |segs|
      ensures ',' !in segs[k]
    {
      ContainsChar(segs[k], ',');
    }
  }

  /** `'type: "wasm"' in event`. */
  predicate IsWasm(segment: string) {
    Contains(segment, WasmTag)
  }

  /**
   * `item.split('key: "')[1:]` of the segment with its type tag and the
   * `attributes {` openers deleted: one piece per attribute.
   */
  function Pieces(segment: string): seq<string> {
    Split(Unwrapped(segment), KeyMarker)[1..]
  }

  /** The segment with its type tag and the `attributes {` openers deleted. */
  function Unwrapped(segment: string): string {
    Replace(Replace(segment, WasmTag, ""), AttributesOpen, "")
  }

  /**
   * The pieces are what follows each attribute-key marker: the unwrapped segment
   * is its text before the first marker, then each piece after a marker, and no
   * piece holds the marker.
   */
  lemma PiecesFollowMarkers(segment: string)
    ensures Unwrapped(segment) == Join([Split(Unwrapped(segment), KeyMarker)[0]] + Pieces(segment), KeyMarker)
    ensures !Contains(Split(Unwrapped(segment), KeyMarker)[0], KeyMarker)
    ensures forall k :: 0 <= k < |Pieces(segment)| ==> !Contains(Pieces(segment)[k], KeyMarker)
  {
    var parts := Split(Unwrapped(segment), KeyMarker);
    SplitJoin(Unwrapped(segment), KeyMarker);
    SplitNoSeparator(Unwrapped(segment), KeyMarker);
    assert [parts[0]] + parts[1..] == parts;
    assert forall k :: 0 <= k < |parts[1..]| ==> parts[1..][k] == parts[k + 1];
  }

  datatype Pair = Pair(key: string, value: string)

  /**
   * `key = pair.split('"')[0]; value = pair.split('"')[2]`: the key is the text
   * before the first quote, the value the text between the second and the third
   * (or the end); fewer than three pieces raise IndexError.
   */
  function ParsePair(piece: string): Result<Pair, Error> {
    var parts := Split(piece, Quote);
    if |parts| < 3 then Err(PairWithoutValue(piece)) else Ok(Pair(parts[0], parts[2]))
  }

  /**
   * A piece parses exactly when it holds at least two double quotes, and then it
   * reads key, quote, skipped text, quote, value, and a rest that is empty or
   * starts at the third quote; neither the key, the skipped text nor the value
   * holds a quote.
   */
  lemma ParsePairShape(piece: string) returns (skipped: string, rest: string)
    ensures ParsePair(piece).Ok? <==> multiset(piece)['"'] >= 2
    ensures ParsePair(piece).Err? ==> ParsePair(piece) == Err(PairWithoutValue(piece))
    ensures ParsePair(piece).Ok? ==> var p := ParsePair(piece).value;
      && piece == p.key + Quote + skipped + Quote + p.value + rest
      && '"' !in p.key && '"' !in skipped && '"' !in p.value
      && (rest == "" || rest[0] == '"')
  {
    var parts := Split(piece, Quote);
    assert Quote == ['"'];
    SplitCharCount(piece, '"');
    SplitJoin(piece, Quote);
    SplitNoSeparator(piece, Quote);
    skipped, rest := "", "";
    if |parts| >= 3 {
      skipped := parts[1];
      rest := JoinThree(parts, Quote);
      ContainsChar(parts[0], '"');
      ContainsChar(parts[1], '"');
      ContainsChar(parts[2], '"');
    }
  }

  /**
   * Storing one pair (lines 307-318): a `_contract_address` becomes the cw20
   * address when the bag holds only its hash and the escrow address otherwise;
   * any other key is looked up unsuffixed (a string found there meets `+ 1` and
   * raises), and since count 0 is found it is stored as key + "1".
   */
  function Insert(bag: Bag, p: Pair): Result<Bag, Error> {
    if p.key == ContractKey then
      var slot := if |bag| - 1 == 0 then Cw20Key else EscrowKey;
      Ok(bag[slot := p.value])
    else if p.key in bag then Err(KeyCountNotInt(p.key))
    else Ok(bag[p.key + "1" := p.value])
  }

  /** The bag seeded with the hash and folded over the pairs, left to right. */
  function BagOf(txHash: string, ps: seq<Pair>): Result<Bag, Error>
    decreases |ps|
  {
    if |ps| == 0 then Ok(map[TxnHashKey := txHash])
    else
      match BagOf(txHash, ps[..|ps| - 1])
      case Err(e) => Err(e)
      case Ok(bag) => Insert(bag, ps[|ps| - 1])
  }

  /** One piece of the scan: it is split into a pair first, then stored. */
  function StorePiece(bag: Bag, piece: string): Result<Bag, Error> {
    match ParsePair(piece)
    case Err(e) => Err(e)
    case Ok(p) => Insert(bag, p)
  }

  /** The bag of a wasm segment, built piece by piece; the first error raised wins. */
  function BagOfPieces(txHash: string, pieces: seq<string>): Result<Bag, Error>
    decreases |pieces|
  {
    if |pieces| == 0 then Ok(map[TxnHashKey := txHash])
    else
      match BagOfPieces(txHash, pieces[..|pieces| - 1])
      case Err(e) => Err(e)
      case Ok(bag) => StorePiece(bag, pieces[|pieces| - 1])
  }

  /** The pairs of all pieces, or the error of the first piece that does not split. */
  function ParseAll(pieces: seq<string>): Result<seq<Pair>, Error>
    decreases |pieces|
  {
    if |pieces| == 0 then Ok([])
    else
      match ParseAll(pieces[..|pieces| - 1])
      case Err(e) => Err(e)
      case Ok(ps) =>
        match ParsePair(pieces[|pieces| - 1])
        case Err(e) => Err(e)
        case Ok(p) => Ok(ps + [p])
  }

  /** Building from pieces is building from their pairs, and it only succeeds when every piece splits. */
  lemma {:induction false} BagOfPiecesViaPairs(txHash: string, pieces: seq<string>)
    ensures BagOfPieces(txHash, pieces).Ok? ==> ParseAll(pieces).Ok?
    ensures ParseAll(pieces).Ok? ==> BagOfPieces(txHash, pieces) == BagOf(txHash, ParseAll(pieces).value)
    decreases |pieces|
  {
    if |pieces| > 0 {
      var init := pieces[..|pieces| - 1];
      BagOfPiecesViaPairs(txHash, init);
      if ParseAll(pieces).Ok? {
        var ps := ParseAll(pieces).value;
        assert ps[..|ps| - 1] == ParseAll(init).value;
      }
    }
  }

  /** The value of the last pair with key `k`. */
  function LastValue(ps: seq<Pair>, k: string): Option<string>
    decreases |ps|
  {
    if |ps| == 0 then None
    else if ps[|ps| - 1].key == k then Some(ps[|ps| - 1].value)
    else LastValue(ps[..|ps| - 1], k)
  }

  /** LastValue finds nothing exactly when no pair has the key, and otherwise the value of its last occurrence. */
  lemma {:induction false} LastValueSpec(ps: seq<Pair>, k: string)
    ensures LastValue(ps, k).None? <==> forall i :: 0 <= i < |ps| ==> ps[i].key != k
    ensures LastValue(ps, k).Some? ==> exists i :: 0 <= i < |ps| && ps[i] == Pair(k, LastValue(ps, k).value)
                                          && forall j :: i < j < |ps| ==> ps[j].key != k
    decreases |ps|
  {
    if |ps| > 0 && ps[|ps| - 1].key != k {
      var init := ps[..|ps| - 1];
      LastValueSpec(init, k);
      assert forall i :: 0 <= i < |init| ==> init[i] == ps[i];
    }
  }

  /** The value of the last `_contract_address` pair after the first pair. */
  function EscrowValue(ps: seq<Pair>): Option<string> {
    if |ps| == 0 then None else LastValue(ps[1..], ContractKey)
  }

  /** A key stored under a suffix ends in '1'. */
  predicate Suffixed(key: string) {
    |key| > 0 && key[|key| - 1] == '1'
  }

  /** A raw key that can never clash with a key the fold stores. */
  predicate Plain(key: string) {
    key != TxnHashKey && key != Cw20Key && key != EscrowKey && !Suffixed(key)
  }

  lemma SuffixedKey(k: string)
    ensures Suffixed(k + "1") && (k + "1")[..|k|] == k
    ensures k + "1" != TxnHashKey && k + "1" != Cw20Key && k + "1" != EscrowKey
  {
    assert !Suffixed(TxnHashKey) && !Suffixed(Cw20Key) && !Suffixed(EscrowKey);
  }

  /**
   * Every bag starts as the single entry TxnHash -> hash, keeps it, and holds
   * that one entry only while no pair has been stored.
   */
  lemma {:induction false} BagSeed(txHash: string, ps: seq<Pair>)
    requires BagOf(txHash, ps).Ok?
    ensures TxnHashKey in BagOf(txHash, ps).value && BagOf(txHash, ps).value[TxnHashKey] == txHash
    ensures |BagOf(txHash, ps).value| == 1 <==> |ps| == 0
    decreases |ps|
  {
    if |ps| > 0 {
      var init := ps[..|ps| - 1];
      var p := ps[|ps| - 1];
      BagSeed(txHash, init);
      var bag := BagOf(txHash, init).value;
      var slot := if p.key == ContractKey then (if |bag| - 1 == 0 then Cw20Key else EscrowKey) else p.key + "1";
      SuffixedKey(p.key);
      assert BagOf(txHash, ps).value == bag[slot := p.value];
      assert slot != TxnHashKey;
      if slot !in bag {
        assert |bag[slot := p.value]| == |bag| + 1;
      } else {
        assert {TxnHashKey, slot} <= bag.Keys;
        assert |{TxnHashKey, slot}| == 2;
        SubsetCard({TxnHashKey, slot}, bag.Keys);
      }
    }
  }

  lemma SubsetCard(a: set<string>, b: set<string>)
    requires a <= b
    ensures |a| <= |b|
  {
    assert b == a + (b - a);
  }

  /**
   * A non-contract key `k` of the pair list is present exactly as `k + "1"`,
   * holding the value of its last occurrence.
   */
  lemma {:induction false} BagOrdinaryKey(txHash: string, ps: seq<Pair>, k: string)
    requires BagOf(txHash, ps).Ok? && k != ContractKey
    ensures k + "1" in BagOf(txHash, ps).value <==> LastValue(ps, k).Some?
    ensures LastValue(ps, k).Some? ==> BagOf(txHash, ps).value[k + "1"] == LastValue(ps, k).value
    decreases |ps|
  {
    SuffixedKey(k);
    if |ps| > 0 {
      var init := ps[..|ps| - 1];
      var p := ps[|ps| - 1];
      BagOrdinaryKey(txHash, init, k);
      if p.key != ContractKey && p.key != k {
        SuffixedKey(p.key);
        assert (k + "1")[..|k|] == k;
      }
    }
  }

  /** A key the fold may store: the hash, a contract address, or a non-contract pair key followed by "1". */
  predicate ShapedKey(ps: seq<Pair>, key: string) {
    || key == TxnHashKey || key == Cw20Key || key == EscrowKey
    || (Suffixed(key) && key[..|key| - 1] != ContractKey && LastValue(ps, key[..|key| - 1]).Some?)
  }

  /**
   * No other keys are added: besides the hash and the two contract addresses,
   * every key is some non-contract pair key followed by "1".
   */
  lemma {:induction false} BagKeyShape(txHash: string, ps: seq<Pair>)
    requires BagOf(txHash, ps).Ok?
    ensures forall key :: key in BagOf(txHash, ps).value ==> ShapedKey(ps, key)
    decreases |ps|
  {
    if |ps| > 0 {
      var init := ps[..|ps| - 1];
      var p := ps[|ps| - 1];
      BagKeyShape(txHash, init);
      var bag := BagOf(txHash, init).value;
      forall key | key in BagOf(txHash, ps).value
        ensures ShapedKey(ps, key)
      {
        if p.key != ContractKey && key == p.key + "1" {
          SuffixedKey(p.key);
        } else if key in bag {
          assert ShapedKey(init, key);
        }
      }
    }
  }

  /** The cw20 address exists exactly when the first pair is a contract address, and it is that pair's value. */
  lemma {:induction false} BagCw20(txHash: string, ps: seq<Pair>)
    requires BagOf(txHash, ps).Ok?
    ensures Cw20Key in BagOf(txHash, ps).value <==> |ps| > 0 && ps[0].key == ContractKey
    ensures Cw20Key in BagOf(txHash, ps).value ==> BagOf(txHash, ps).value[Cw20Key] == ps[0].value
    decreases |ps|
  {
    if |ps| > 0 {
      var init := ps[..|ps| - 1];
      var p := ps[|ps| - 1];
      BagCw20(txHash, init);
      BagSeed(txHash, init);
      SuffixedKey(p.key);
      if |init| > 0 {
        assert init[0] == ps[0];
      }
    }
  }

  /**
   * The escrow address exists exactly when a contract address follows the first
   * pair, and the last such one wins.
   */
  lemma {:induction false} BagEscrow(txHash: string, ps: seq<Pair>)
    requires BagOf(txHash, ps).Ok?
    ensures EscrowKey in BagOf(txHash, ps).value <==> EscrowValue(ps).Some?
    ensures EscrowKey in BagOf(txHash, ps).value ==> BagOf(txHash, ps).value[EscrowKey] == EscrowValue(ps).value
    decreases |ps|
  {
    if |ps| > 0 {
      var init := ps[..|ps| - 1];
      var p := ps[|ps| - 1];
      BagEscrow(txHash, init);
      BagSeed(txHash, init);
      SuffixedKey(p.key);
      if |init| > 0 {
        assert ps[1..][..|ps[1..]| - 1] == init[1..];
      }
    }
  }

  /** Pairs whose keys cannot clash with a stored key always build a bag. */
  lemma {:induction false} PlainKeysBuild(txHash: string, ps: seq<Pair>)
    requires forall i :: 0 <= i < |ps| ==> Plain(ps[i].key)
    ensures BagOf(txHash, ps).Ok?
    decreases |ps|
  {
    if |ps| > 0 {
      var init := ps[..|ps| - 1];
      var p := ps[|ps| - 1];
      assert Plain(p.key);
      PlainKeysBuild(txHash, init);
      BagKeyShape(txHash, init);
    }
  }

  /** In a built bag an unsuffixed field name is never a key, so the decoder's fallback reads the suffixed one. */
  lemma FallbackOnBuiltBag(txHash: string, ps: seq<Pair>, k: string)
    requires BagOf(txHash, ps).Ok? && Plain(k) && k != ContractKey
    ensures Fallback(BagOf(txHash, ps).value, k) == LastValue(ps, k)
  {
    BagKeyShape(txHash, ps);
    BagOrdinaryKey(txHash, ps, k);
  }

  /**
   * Decoding a freshly built bag: it succeeds exactly when the last "id" pair
   * starts with a letter or '/', and then every field is the value of the last
   * pair with that key, the escrow address the last contract address after the
   * first pair, and the hash the transaction's.
   */
  lemma DecodeBuiltBag(txHash: string, ps: seq<Pair>)
    requires BagOf(txHash, ps).Ok?
    ensures FromDict(BagOf(txHash, ps).value).Ok? <==> ExtractTradePair(LastValue(ps, "id")).Ok?
    ensures FromDict(BagOf(txHash, ps).value).Ok? ==> var e := FromDict(BagOf(txHash, ps).value).value;
      && e.txnHash == txHash
      && LastValue(ps, "id") == Some(e.id)
      && e.action == LastValue(ps, "action")
      && e.fromAddress == LastValue(ps, "from")
      && e.toAddress == LastValue(ps, "to")
      && e.amount == LastValue(ps, "amount")
      && e.sellPrice == LastValue(ps, "sell_price")
      && e.escrowAddress == EscrowValue(ps)
      && e.remainingAmount == LastValue(ps, "remaining_amount")
      && e.preferredAgent == LastValue(ps, "preferred_agent")
      && e.matchOthers == LastValue(ps, "match_others")
  {
    BagSeed(txHash, ps);
    BagEscrow(txHash, ps);
    FallbackOnBuiltBag(txHash, ps, "id");
    FallbackOnBuiltBag(txHash, ps, "action");
    FallbackOnBuiltBag(txHash, ps, "from");
    FallbackOnBuiltBag(txHash, ps, "to");
    FallbackOnBuiltBag(txHash, ps, "amount");
    FallbackOnBuiltBag(txHash, ps, "sell_price");
    FallbackOnBuiltBag(txHash, ps, "remaining_amount");
    FallbackOnBuiltBag(txHash, ps, "preferred_agent");
    FallbackOnBuiltBag(txHash, ps, "match_others");
  }

  /** Two "action" pairs leave only "action1", holding the second value. */
  lemma RepeatedKeyKeepsLast()
    ensures BagOf("h", [Pair("action", "create"), Pair("action", "transfer")])
      == Ok(map[TxnHashKey := "h", "action1" := "transfer"])
  {
    var first := [Pair("action", "create")];
    var ps := first + [Pair("action", "transfer")];
    assert "action" + "1" == "action1";
    assert first[..0] == [];
    var bag := map[TxnHashKey := "h", "action1" := "create"];
    assert BagOf("h", first) == Ok(bag);
    assert ps[..1] == first;
    assert "action" !in bag;
    assert bag["action1" := "transfer"] == map[TxnHashKey := "h", "action1" := "transfer"];
  }

  /** A raw key equal to a stored one raises instead of being counted. */
  lemma StoredKeyClashes()
    ensures BagOf("h", [Pair("action", "create"), Pair("action1", "x")]) == Err(KeyCountNotInt("action1"))
  {
    var first := [Pair("action", "create")];
    var ps := first + [Pair("action1", "x")];
    assert "action" + "1" == "action1";
    assert first[..0] == [];
    assert BagOf("h", first) == Ok(map[TxnHashKey := "h", "action1" := "create"]);
    assert ps[..1] == first;
  }
}
