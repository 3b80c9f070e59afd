/** Which call is refused, and with which error: the checks of every call, in the order they are made. */
module AuthorizationChecks {
  import opened OrderedIds
  import opened FrameSystem
  import opened AuthorizationSpec

  datatype Check = Check(holds: bool, error: Error)

  function OwnerChecks(cfg: Config, t: Tables, o: Origin, node: PeerId): seq<Check> {
    [Check(o.Signed?, BadOrigin),
     Check(|node| < cfg.maxPeerIdLength, PeerIdTooLong),
     Check(node in t.owners, NotClaimed),
     Check(o.Signed? && node in t.owners && t.owners[node] == o.who, NotOwner)]
  }

  function Checks(cfg: Config, t: Tables, tx: Tx): seq<Check> {
    var o := tx.origin;
    match tx.call
    case AddWellKnownNode(node, _) =>
      [Check(cfg.addOrigin(o), BadOrigin),
       Check(|node| < cfg.maxPeerIdLength, PeerIdTooLong),
       Check(|t.wellKnown| < cfg.maxWellKnownNodes, TooManyNodes),
       Check(node !in t.wellKnown, AlreadyJoined)]
    case RemoveWellKnownNode(node) =>
      [Check(cfg.removeOrigin(o), BadOrigin),
       Check(|node| < cfg.maxPeerIdLength, PeerIdTooLong),
       Check(node in t.wellKnown, NotExist)]
    case SwapWellKnownNode(remove, add) =>
      [Check(cfg.swapOrigin(o), BadOrigin),
       Check(|remove| < cfg.maxPeerIdLength, PeerIdTooLong),
       Check(|add| < cfg.maxPeerIdLength, PeerIdTooLong),
       Check(remove == add || remove in t.wellKnown, NotExist),
       Check(remove == add || add !in t.wellKnown, AlreadyJoined)]
    case ResetWellKnownNodes(nodes) =>
      [Check(cfg.resetOrigin(o), BadOrigin),
       Check(|nodes| < cfg.maxWellKnownNodes, TooManyNodes)]
    case ClaimNode(node) =>
      [Check(o.Signed?, BadOrigin),
       Check(|node| < cfg.maxPeerIdLength, PeerIdTooLong),
       Check(node !in t.owners, AlreadyClaimed)]
    case RemoveClaim(node) =>
      OwnerChecks(cfg, t, o, node) + [Check(node !in t.wellKnown, PermissionDenied)]
    case TransferNode(node, _) => OwnerChecks(cfg, t, o, node)
    case AddConnections(node, _) => OwnerChecks(cfg, t, o, node)
    case RemoveConnections(node, _) => OwnerChecks(cfg, t, o, node)
  }

  /** Check `k` fails and all checks before it hold. */
  ghost predicate FirstFailure(checks: seq<Check>, k: nat) {
    k < |checks| && !checks[k].holds && forall j :: 0 <= j < k ==> checks[j].holds
  }

  /** Accepted exactly when every check holds; a refusal names the first check that fails. */
  ghost predicate Decided(checks: seq<Check>, result: DispatchResult) {
    match result
    case Ok => forall k :: 0 <= k < |checks| ==> checks[k].holds
    case Err(e) => exists k: nat :: FirstFailure(checks, k) && checks[k].error == e
  }

  lemma DecidedOnce(checks: seq<Check>, r: DispatchResult, r': DispatchResult)
    requires Decided(checks, r) && Decided(checks, r')
    ensures r == r'
  {
    if r.Err? && r'.Err? {
      var k: nat :| FirstFailure(checks, k) && checks[k].error == r.error;
      var k': nat :| FirstFailure(checks, k') && checks[k'].error == r'.error;
      assert k == k';
    }
  }

  lemma Accepts(checks: seq<Check>)
    requires forall k :: 0 <= k < |checks| ==> checks[k].holds
    ensures Decided(checks, Ok)
  {
  }

  lemma RefusesAt(checks: seq<Check>, k: nat)
    requires FirstFailure(checks, k)
    ensures Decided(checks, Err(checks[k].error))
  {
  }

  function Front(checks: seq<Check>): (k: nat)
    ensures k <= |checks| && (forall j :: 0 <= j < k ==> checks[j].holds)
    ensures k < |checks| ==> !checks[k].holds
  {
    if checks == [] || !checks[0].holds then 0 else 1 + Front(checks[1..])
  }

  /** Every call, in every state, is accepted exactly when all its checks hold, and otherwise refused
      with the error of the first that fails. */
  lemma ResultIsFirstFailure(cfg: Config, t: Tables, tx: Tx, result: DispatchResult)
    ensures Decided(Checks(cfg, t, tx), result) <==> result == Step(cfg, t, tx).result
  {
    var checks := Checks(cfg, t, tx);
    var k := Front(checks);
    var actual := Step(cfg, t, tx).result;
    if k == |checks| {
      AllHold(cfg, t, tx);
      Accepts(checks);
    } else {
      FirstFails(cfg, t, tx, k);
      RefusesAt(checks, k);
    }
    if Decided(checks, result) {
      DecidedOnce(checks, result, actual);
    }
  }

  lemma AllHold(cfg: Config, t: Tables, tx: Tx)
    requires forall k :: 0 <= k < |Checks(cfg, t, tx)| ==> Checks(cfg, t, tx)[k].holds
    ensures Step(cfg, t, tx).result == Ok
  {
    var c := Checks(cfg, t, tx);
    assert c[0].holds && c[1].holds;
    assert (|c| > 2 ==> c[2].holds) && (|c| > 3 ==> c[3].holds) && (|c| > 4 ==> c[4].holds);
  }

  lemma FirstFails(cfg: Config, t: Tables, tx: Tx, k: nat)
    requires FirstFailure(Checks(cfg, t, tx), k)
    ensures Step(cfg, t, tx).result == Err(Checks(cfg, t, tx)[k].error)
  {
    var c := Checks(cfg, t, tx);
    assert (k > 0 ==> c[0].holds) && (k > 1 ==> c[1].holds) && (k > 2 ==> c[2].holds) && (k > 3 ==> c[3].holds);
    assert k == 0 || k == 1 || k == 2 || k == 3 || k == 4;
  }
}
