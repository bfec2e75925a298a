/**
 * The filter applied to each attribute bag in `EventRetriever._filter_events`:
 * the action argument is normalised to a list, and a bag is kept when both the
 * action test and the wallet test pass.
 */
module EventFilter {
  import opened Wrappers
  import opened Events

  /** The `action_type` argument: None, one action, or a list of actions. */
  datatype ActionArg = NoActionFilter | OneAction(action: ActionType) | ActionList(actions: seq<ActionType>)

  /** Lines 280-285: a single action becomes a one-element list, a list is taken as it is, None gives []. */
  function RequestedActions(arg: ActionArg): seq<ActionType> {
    match arg
    case NoActionFilter => []
    case OneAction(a) => [a]
    case ActionList(actions) => actions
  }

  /** `result.get("action") == action.value or result.get("action1") == action.value`. */
  predicate MatchesAction(bag: Bag, a: ActionType) {
    Get(bag, "action") == Some(a.Value()) || Get(bag, "action1") == Some(a.Value())
  }

  /** Python's `all(... != ... and ... != ... for action in actions)`, evaluated left to right. */
  function AllMiss(actions: seq<ActionType>, bag: Bag): (r: bool)
    ensures r <==> forall i :: 0 <= i < |actions| ==> !MatchesAction(bag, actions[i])
  {
    if |actions| == 0 then true
    else
      && Get(bag, "action") != Some(actions[0].Value())
      && Get(bag, "action1") != Some(actions[0].Value())
      && AllMiss(actions[1..], bag)
  }

  /**
   * Lines 319-325: a bag fails the action test only when an action argument was
   * given, it lists at least one action, and none of them matches.
   */
  function ActionTest(arg: ActionArg, bag: Bag): (pass: bool)
    ensures pass <==> |RequestedActions(arg)| == 0
                      || exists i :: 0 <= i < |RequestedActions(arg)| && MatchesAction(bag, RequestedActions(arg)[i])
  {
    var actions := RequestedActions(arg);
    !(!arg.NoActionFilter? && |actions| > 0 && AllMiss(actions, bag))
  }

  /** Lines 326-330: with a wallet given, it must be the value of "from" or of "from1". */
  function WalletTest(wallet: Option<string>, bag: Bag): (pass: bool)
    ensures pass <==> wallet.None?
                      || ("from" in bag && bag["from"] == wallet.value)
                      || ("from1" in bag && bag["from1"] == wallet.value)
  {
    !(wallet.Some? && Get(bag, "from") != Some(wallet.value) && Get(bag, "from1") != Some(wallet.value))
  }

  /** A bag is kept when the action test and the wallet test both pass. */
  predicate Keep(arg: ActionArg, wallet: Option<string>, bag: Bag) {
    ActionTest(arg, bag) && WalletTest(wallet, bag)
  }

  /**
   * An event with action "transfer" sent from "W1" is kept exactly when the
   * action argument is absent or asks for Transfer, and the wallet is absent or "W1".
   */
  lemma TransferFromW1(rest: Bag, arg: ActionArg, wallet: Option<string>)
    requires "action" !in rest && "from" !in rest
    ensures var bag := rest["action1" := "transfer"]["from1" := "W1"];
      Keep(arg, wallet, bag) <==>
        (|RequestedActions(arg)| == 0 || Transfer in RequestedActions(arg))
        && (wallet.None? || wallet.value == "W1")
  {
    var bag := rest["action1" := "transfer"]["from1" := "W1"];
    var actions := RequestedActions(arg);
    forall i | 0 <= i < |actions|
      ensures MatchesAction(bag, actions[i]) <==> actions[i] == Transfer
    {
      match actions[i]
      case Refund => assert "refund" != "transfer";
      case Transfer =>
      case PartialTransfer => assert "partial_transfer" != "transfer";
      case Create => assert "create" != "transfer";
    }
  }
}
