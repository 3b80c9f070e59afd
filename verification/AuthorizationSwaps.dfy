/** Swapping well-known nodes: what it exchanges, how swaps compose, and when one makes a node
    list itself. */
module AuthorizationSwaps {
  import opened OrderedIds
  import opened FrameSystem
  import opened AuthorizationSpec
  import opened AuthorizationInvariants
  import opened AuthorizationLocality

  /** The swap is accepted and is of two different nodes. */
  predicate Swaps(cfg: Config, t: Tables, o: Origin, remove: PeerId, add: PeerId) {
    && cfg.swapOrigin(o) && cfg.Short(remove) && cfg.Short(add)
    && remove in t.wellKnown && add !in t.wellKnown
  }

  lemma SwapAccepted(cfg: Config, t: Tables, o: Origin, remove: PeerId, add: PeerId)
    ensures Swaps(cfg, t, o, remove, add) <==> SwapNode(cfg, t, o, remove, add).emitted != []
    ensures Swaps(cfg, t, o, remove, add) ==>
              SwapNode(cfg, t, o, remove, add) == Accept(Swapped(t, remove, add), NodeSwapped(remove, add))
    ensures !Swaps(cfg, t, o, remove, add) ==> SwapNode(cfg, t, o, remove, add).tables == t
  {
  }

  /** An accepted swap of two nodes exchanges their authorised lists; the other well-known nodes see
      `add` in place of `remove`; nobody else sees a difference. */
  lemma SwapExchangesAuthorized(cfg: Config, t: Tables, o: Origin, remove: PeerId, add: PeerId, node: PeerId)
    requires Swaps(cfg, t, o, remove, add)
    ensures var u := SwapNode(cfg, t, o, remove, add).tables;
            && u.Authorized(add) == t.Authorized(remove)
            && u.Authorized(remove) == t.Authorized(add)
            && (node != remove && node != add ==>
                  u.Authorized(node) ==
                    if node in t.wellKnown then t.Links(node) + (t.wellKnown - {node, remove} + {add})
                    else t.Authorized(node))
  {
    var u := Swapped(t, remove, add);
    assert u.wellKnown - {add} == t.wellKnown - {remove};
    assert u.Links(add) == t.Links(remove) && u.Links(remove) == t.Links(add);
    if node != remove && node != add {
      assert u.Links(node) == t.Links(node);
      assert u.wellKnown - {node} == t.wellKnown - {node, remove} + {add};
    }
  }

  // ---------------------------------------------------------------- swaps permute rows

  function Transpose(a: PeerId, b: PeerId, n: PeerId): PeerId {
    if n == a then b else if n == b then a else n
  }

  lemma SwapTransposes(t: Tables, remove: PeerId, add: PeerId, n: PeerId)
    requires remove in t.wellKnown && add !in t.wellKnown
    ensures RowOf(Swapped(t, remove, add), n) == RowOf(t, Transpose(remove, add, n))
  {
  }

  ghost predicate SwapCalls(txs: seq<Tx>) {
    forall i :: 0 <= i < |txs| ==> txs[i].call.SwapWellKnownNode?
  }

  /** The node whose row a run of swaps leaves at `n`. */
  function Source(cfg: Config, t: Tables, txs: seq<Tx>, n: PeerId): PeerId
    requires SwapCalls(txs)
    decreases txs
  {
    if txs == [] then n else
      var SwapWellKnownNode(remove, add) := txs[0].call;
      var from := Source(cfg, Step(cfg, t, txs[0]).tables, txs[1..], n);
      if Swaps(cfg, t, txs[0].origin, remove, add) then Transpose(remove, add, from) else from
  }

  /** The node where a run of swaps leaves the row of `n`. */
  function Target(cfg: Config, t: Tables, txs: seq<Tx>, n: PeerId): PeerId
    requires SwapCalls(txs)
    decreases txs
  {
    if txs == [] then n else
      var SwapWellKnownNode(remove, add) := txs[0].call;
      var n' := if Swaps(cfg, t, txs[0].origin, remove, add) then Transpose(remove, add, n) else n;
      Target(cfg, Step(cfg, t, txs[0]).tables, txs[1..], n')
  }

  /** Any run of swaps, accepted or not, permutes the rows of the three tables together: no row is
      lost, duplicated or split. */
  lemma {:induction false} SwapRunsPermuteRows(cfg: Config, t: Tables, txs: seq<Tx>, n: PeerId)
    requires SwapCalls(txs)
    ensures RowOf(Final(cfg, t, txs), n) == RowOf(t, Source(cfg, t, txs, n))
    ensures Target(cfg, t, txs, Source(cfg, t, txs, n)) == n
    ensures Source(cfg, t, txs, Target(cfg, t, txs, n)) == n
    decreases txs
  {
    if txs != [] {
      var SwapWellKnownNode(remove, add) := txs[0].call;
      var next := Step(cfg, t, txs[0]).tables;
      SwapAccepted(cfg, t, txs[0].origin, remove, add);
      var accepted := Swaps(cfg, t, txs[0].origin, remove, add);
      SwapRunsPermuteRows(cfg, next, txs[1..], n);
      SwapRunsPermuteRows(cfg, next, txs[1..], if accepted then Transpose(remove, add, n) else n);
      if accepted {
        SwapTransposes(t, remove, add, Source(cfg, next, txs[1..], n));
      }
    }
  }

  /** Swapping back is accepted and restores all three tables. */
  lemma SwapBack(cfg: Config, t: Tables, o: Origin, remove: PeerId, add: PeerId)
    requires Swaps(cfg, t, o, remove, add)
    ensures var u := SwapNode(cfg, t, o, remove, add).tables;
            SwapNode(cfg, u, o, add, remove) == Accept(t, NodeSwapped(add, remove))
  {
    var u := Swapped(t, remove, add);
    forall n ensures RowOf(Swapped(u, add, remove), n) == RowOf(t, n) {
      SwapTransposes(u, add, remove, n);
      SwapTransposes(t, remove, add, Transpose(add, remove, n));
    }
    RowsDetermineTables(Swapped(u, add, remove), t);
  }

  // ---------------------------------------------------------------- chains

  /** Move a well-known node along a path of identifiers, one swap at a time. */
  function Chain(o: Origin, from: PeerId, path: seq<PeerId>): (txs: seq<Tx>)
    ensures |txs| == |path|
    decreases path
  {
    if path == [] then []
    else [Tx(o, SwapWellKnownNode(from, path[0]))] + Chain(o, path[0], path[1..])
  }

  /** Short, pairwise different identifiers that nobody owns. */
  ghost predicate FreePath(cfg: Config, t: Tables, path: seq<PeerId>) {
    && (forall i :: 0 <= i < |path| ==> cfg.Short(path[i]) && path[i] !in t.owners)
    && (forall i, j :: 0 <= i < j < |path| ==> path[i] != path[j])
  }

  lemma TwoSwaps(t: Tables, from: PeerId, mid: PeerId, to: PeerId)
    requires Owned(t) && from in t.wellKnown && mid !in t.owners && to !in t.owners && mid != to
    ensures Swapped(Swapped(t, from, mid), mid, to) == Swapped(t, from, to)
  {
    var u := Swapped(t, from, mid);
    forall n ensures RowOf(Swapped(u, mid, to), n) == RowOf(Swapped(t, from, to), n) {
      SwapTransposes(u, mid, to, n);
      SwapTransposes(t, from, mid, Transpose(mid, to, n));
      SwapTransposes(t, from, to, n);
    }
    RowsDetermineTables(Swapped(u, mid, to), Swapped(t, from, to));
  }

  /** A chain of swaps through free identifiers is the single swap from end to end. */
  lemma {:induction false} ChainIsOneSwap(cfg: Config, t: Tables, o: Origin, from: PeerId, path: seq<PeerId>)
    requires Owned(t) && cfg.swapOrigin(o) && cfg.Short(from) && from in t.wellKnown
    requires path != [] && FreePath(cfg, t, path)
    ensures Swaps(cfg, t, o, from, path[|path| - 1])
    ensures Final(cfg, t, Chain(o, from, path)) == SwapNode(cfg, t, o, from, path[|path| - 1]).tables
    decreases path
  {
    var txs := Chain(o, from, path);
    assert path[0] !in t.wellKnown;
    var u := Step(cfg, t, txs[0]).tables;
    assert u == Swapped(t, from, path[0]);
    assert txs[1..] == Chain(o, path[0], path[1..]);
    if |path| == 1 {
      assert txs[1..] == [];
    } else {
      StepKeepsOwned(cfg, t, txs[0]);
      var rest := path[1..];
      forall i | 0 <= i < |rest| ensures cfg.Short(rest[i]) && rest[i] !in u.owners {
        assert rest[i] == path[i + 1];
      }
      ChainIsOneSwap(cfg, u, o, path[0], rest);
      TwoSwaps(t, from, path[0], path[|path| - 1]);
    }
  }

  // ---------------------------------------------------------------- nodes that list themselves

  ghost predicate SelfFree(t: Tables) {
    forall n :: n in t.connections ==> n !in t.connections[n]
  }

  /** The call is not an accepted swap of two nodes one of which has the other as a connection. */
  predicate Clean(cfg: Config, t: Tables, tx: Tx) {
    match tx.call
    case SwapWellKnownNode(remove, add) =>
      Swaps(cfg, t, tx.origin, remove, add) ==> add !in t.Links(remove) && remove !in t.Links(add)
    case _ => true
  }

  /** Where a swap creates a self-entry: at `add` exactly when `remove` listed it, at `remove` exactly
      when `add` listed that, and nowhere else. */
  lemma SwapSelfEntries(t: Tables, remove: PeerId, add: PeerId, n: PeerId)
    requires SelfFree(t) && remove != add
    ensures n in Swapped(t, remove, add).Links(n) <==>
              (n == add && add in t.Links(remove)) || (n == remove && remove in t.Links(add))
  {
  }

  /** From tables without self-entries a call creates one exactly when it is not clean. */
  lemma StepSelfFree(cfg: Config, t: Tables, tx: Tx)
    requires SelfFree(t)
    ensures SelfFree(Step(cfg, t, tx).tables) <==> Clean(cfg, t, tx)
  {
    match tx.call
    case SwapWellKnownNode(remove, add) =>
      SwapAccepted(cfg, t, tx.origin, remove, add);
      if Swaps(cfg, t, tx.origin, remove, add) {
        var u := Swapped(t, remove, add);
        if Clean(cfg, t, tx) {
          forall n | n in u.connections ensures n !in u.connections[n] { SwapSelfEntries(t, remove, add, n); }
        } else {
          var n := if add in t.Links(remove) then add else remove;
          SwapSelfEntries(t, remove, add, n);
          assert n in u.connections && n in u.connections[n];
        }
      }
    case _ =>
  }

  /** After the first `k` calls of a run no node lists itself. */
  ghost predicate SelfFreeAfter(cfg: Config, t: Tables, txs: seq<Tx>, k: nat)
    requires k <= |txs|
  {
    SelfFree(Final(cfg, t, txs[..k]))
  }

  /** Call `k` of a run is clean at the moment it is made. */
  ghost predicate CleanWhenMade(cfg: Config, t: Tables, txs: seq<Tx>, k: nat)
    requires k < |txs|
  {
    Clean(cfg, Final(cfg, t, txs[..k]), txs[k])
  }

  lemma NextSelfFree(cfg: Config, t: Tables, txs: seq<Tx>, k: nat)
    requires k < |txs| && SelfFreeAfter(cfg, t, txs, k)
    ensures SelfFreeAfter(cfg, t, txs, k + 1) <==> CleanWhenMade(cfg, t, txs, k)
  {
    assert txs[..k + 1] == txs[..k] + [txs[k]];
    FinalAppend(cfg, t, txs[..k], txs[k]);
    StepSelfFree(cfg, Final(cfg, t, txs[..k]), txs[k]);
  }

  lemma {:induction false} CleanPrefix(cfg: Config, t: Tables, txs: seq<Tx>, k: nat)
    requires SelfFree(t) && k <= |txs|
    requires forall j :: 0 <= j < k ==> CleanWhenMade(cfg, t, txs, j)
    ensures SelfFreeAfter(cfg, t, txs, k)
  {
    if k > 0 {
      CleanPrefix(cfg, t, txs, k - 1);
      NextSelfFree(cfg, t, txs, k - 1);
    }
  }

  /** No node ever lists itself during a run, up to and including its end, exactly when each call is
      clean at the moment it is made. */
  lemma RunSelfFree(cfg: Config, t: Tables, txs: seq<Tx>)
    requires SelfFree(t)
    ensures (forall k :: 0 <= k <= |txs| ==> SelfFreeAfter(cfg, t, txs, k))
       <==> (forall k :: 0 <= k < |txs| ==> CleanWhenMade(cfg, t, txs, k))
  {
    if forall k :: 0 <= k <= |txs| ==> SelfFreeAfter(cfg, t, txs, k) {
      forall k | 0 <= k < |txs| ensures CleanWhenMade(cfg, t, txs, k) {
        assert SelfFreeAfter(cfg, t, txs, k) && SelfFreeAfter(cfg, t, txs, k + 1);
        NextSelfFree(cfg, t, txs, k);
      }
    }
    if forall k :: 0 <= k < |txs| ==> CleanWhenMade(cfg, t, txs, k) {
      forall k | 0 <= k <= |txs| ensures SelfFreeAfter(cfg, t, txs, k) {
        CleanPrefix(cfg, t, txs, k);
      }
    }
  }

  /** The additions skip the node itself, yet a node can come to list itself: the owner connects
      node 1 to node 2, and root then swaps node 1 for node 2.  The owner listing node 2 for itself
      afterwards is accepted and leaves the entry, against the law that the last mention decides. */
  lemma SwapCanCreateSelfEntry(cfg: Config)
    requires cfg.RootOnly() && cfg.maxPeerIdLength > 1
    ensures var g := Genesis([([1], 7)]);
            var txs := [Tx(Signed(7), AddConnections([1], [[2]])), Tx(Root, SwapWellKnownNode([1], [2]))];
            var t := Final(cfg, g, txs);
            var again := Tx(Signed(7), AddConnections([2], [[2]]));
            && t.OwnedBy([2], 7) && [2] in t.Links([2]) && [2] in t.Authorized([2])
            && Step(cfg, t, again).result == Ok
            && [2] in Final(cfg, g, txs + [again]).Links([2])
            && !LastMention(7, [2], [again], [2], true)
  {
    var g := Genesis([([1], 7)]);
    OneNode(g);
    var connect := Tx(Signed(7), AddConnections([1], [[2]]));
    var swap := Tx(Root, SwapWellKnownNode([1], [2]));
    var again := Tx(Signed(7), AddConnections([2], [[2]]));
    var txs := [connect, swap];
    var t1 := Step(cfg, g, connect).tables;
    assert [2] in t1.Links([1]) && t1.OwnedBy([1], 7);
    assert txs[1..] == [swap] && [swap][1..] == [];
    assert Final(cfg, g, txs) == Final(cfg, t1, [swap]) == Step(cfg, t1, swap).tables;
    FinalAppend(cfg, g, txs, again);
    assert Mentions(7, [2], [again][0], [2]);
  }

  lemma OneNode(g: Tables)
    requires g == Genesis([([1], 7)])
    ensures [1] in g.wellKnown && g.OwnedBy([1], 7)
    ensures [2] !in g.wellKnown && [2] !in g.owners && g.connections == map[]
  {
    assert [([1], 7)][0].0 == [1];
  }

  // ---------------------------------------------------------------- "both stay untouched"

  /** The documentation says a swap leaves ownership and connections untouched.  It does so exactly
      when the two nodes have the same owner and the same connections row before the call. */
  lemma SwapLeavesUntouchedIff(cfg: Config, t: Tables, o: Origin, remove: PeerId, add: PeerId)
    requires Swaps(cfg, t, o, remove, add)
    ensures var u := SwapNode(cfg, t, o, remove, add).tables;
            u.owners == t.owners && u.connections == t.connections
            <==> RowOf(t, remove).owner == RowOf(t, add).owner && RowOf(t, remove).links == RowOf(t, add).links
  {
    SwapTransposes(t, remove, add, remove);
    SwapTransposes(t, remove, add, add);
  }

  /** On reachable tables that means: the new node is already owned by the account of the old one. */
  lemma SwapLeavesUntouchedWhenOwned(cfg: Config, t: Tables, o: Origin, remove: PeerId, add: PeerId)
    requires Owned(t) && Swaps(cfg, t, o, remove, add)
    ensures var u := SwapNode(cfg, t, o, remove, add).tables;
            u.owners == t.owners && u.connections == t.connections
            <==> t.OwnedBy(add, t.owners[remove]) && RowOf(t, remove).links == RowOf(t, add).links
  {
    SwapLeavesUntouchedIff(cfg, t, o, remove, add);
  }

  /** A reachable swap that moves ownership: from a genesis with node 1 of account 7, root swaps node 1
      for the unclaimed node 2. */
  lemma SwapMovesOwnership(cfg: Config)
    requires cfg.RootOnly() && cfg.maxPeerIdLength > 1
    ensures var g := Genesis([([1], 7)]);
            var t := Final(cfg, g, [Tx(Root, SwapWellKnownNode([1], [2]))]);
            && g.OwnedBy([1], 7) && [2] !in g.owners
            && [1] !in t.owners && t.OwnedBy([2], 7)
  {
    var g := Genesis([([1], 7)]);
    OneNode(g);
    var txs := [Tx(Root, SwapWellKnownNode([1], [2]))];
    assert txs[1..] == [];
  }
}
