/** The proof-of-existence pallet: an account claims the digest of a document and may revoke its own
    claim. */
module ProofClaims {
  import opened Wrappers
  import opened Bytes
  import opened FrameSystem

  datatype Error = BadOrigin | ProofAlreadyClaimed | NoSuchProof | NotProofOwner

  datatype Result = Ok | Err(error: Error)

  datatype Event =
    | ClaimCreated(who: AccountId, proof: ByteString)
    | ClaimRevoked(who: AccountId, proof: ByteString)

  type Proofs = map<ByteString, (AccountId, nat)>

  datatype Call = CreateClaim(proof: ByteString) | RevokeClaim(proof: ByteString)

  datatype Outcome = Outcome(proofs: Proofs, emitted: Option<Event>, result: Result)

  function Step(proofs: Proofs, block: nat, o: Origin, call: Call): Outcome {
    if !o.Signed? then Outcome(proofs, None, Err(BadOrigin))
    else
      match call
      case CreateClaim(proof) =>
        if proof in proofs then Outcome(proofs, None, Err(ProofAlreadyClaimed))
        else Outcome(proofs[proof := (o.who, block)], Some(ClaimCreated(o.who, proof)), Ok)
      case RevokeClaim(proof) =>
        if proof !in proofs then Outcome(proofs, None, Err(NoSuchProof))
        else if proofs[proof].0 != o.who then Outcome(proofs, None, Err(NotProofOwner))
        else Outcome(proofs - {proof}, Some(ClaimRevoked(o.who, proof)), Ok)
  }

  function Deposited(events: seq<Event>, emitted: Option<Event>): seq<Event> {
    if emitted.Some? then events + [emitted.value] else events
  }

  class Pallet {
    var proofs: Proofs
    var events: seq<Event>

    constructor ()
      ensures proofs == map[] && events == []
    {
      proofs, events := map[], [];
    }

    method CreateClaim(block: nat, origin: Origin, proof: ByteString) returns (result: Result)
      modifies this
      ensures var out := Step(old(proofs), block, origin, Call.CreateClaim(proof));
              proofs == out.proofs && events == Deposited(old(events), out.emitted) && result == out.result
    {
      if !origin.Signed? { return Err(BadOrigin); }
      var sender := origin.who;
      if proof in proofs { return Err(ProofAlreadyClaimed); }
      proofs := proofs[proof := (sender, block)];
      events := events + [ClaimCreated(sender, proof)];
      return Ok;
    }

    method RevokeClaim(block: nat, origin: Origin, proof: ByteString) returns (result: Result)
      modifies this
      ensures var out := Step(old(proofs), block, origin, Call.RevokeClaim(proof));
              proofs == out.proofs && events == Deposited(old(events), out.emitted) && result == out.result
    {
      if !origin.Signed? { return Err(BadOrigin); }
      var sender := origin.who;
      if proof !in proofs { return Err(NoSuchProof); }
      var owner := proofs[proof].0;
      if sender != owner { return Err(NotProofOwner); }
      proofs := proofs - {proof};
      events := events + [ClaimRevoked(sender, proof)];
      return Ok;
    }
  }

  // ---------------------------------------------------------------- whole runs

  datatype Tx = Tx(block: nat, origin: Origin, call: Call)

  /** An event and the block it was emitted in. */
  datatype Entry = Entry(block: nat, event: Event)

  function Final(proofs: Proofs, txs: seq<Tx>): Proofs {
    if txs == [] then proofs else
      var n := |txs| - 1;
      Step(Final(proofs, txs[..n]), txs[n].block, txs[n].origin, txs[n].call).proofs
  }

  /** The log, block by block. */
  function Log(proofs: Proofs, txs: seq<Tx>): seq<Entry> {
    if txs == [] then [] else
      var n := |txs| - 1;
      var out := Step(Final(proofs, txs[..n]), txs[n].block, txs[n].origin, txs[n].call);
      Log(proofs, txs[..n]) + if out.emitted.Some? then [Entry(txs[n].block, out.emitted.value)] else []
  }

  /** The entries about one proof. */
  function About(log: seq<Entry>, proof: ByteString): seq<Entry> {
    if log == [] then [] else
      var n := |log| - 1;
      About(log[..n], proof) + (if log[n].event.proof == proof then [log[n]] else [])
  }

  /** Created and revoked by turns, starting with created, each revocation by the creator before it,
      and never going back in time. */
  ghost predicate Alternates(h: seq<Entry>) {
    forall i :: 0 <= i < |h| ==> Turn(h, i)
  }

  ghost predicate Turn(h: seq<Entry>, i: nat)
    requires i < |h|
  {
    && (i > 0 ==> h[i - 1].block <= h[i].block)
    && if i % 2 == 0 then h[i].event.ClaimCreated?
       else h[i].event.ClaimRevoked? && h[i].event.who == h[i - 1].event.who
  }

  /** The claim a history ends with: its last entry when that is a creation. */
  function Standing(h: seq<Entry>): Option<(AccountId, nat)> {
    if h != [] && h[|h| - 1].event.ClaimCreated? then Some((h[|h| - 1].event.who, h[|h| - 1].block)) else None
  }

  ghost predicate InBlockOrder(txs: seq<Tx>) {
    forall i, j :: 0 <= i <= j < |txs| ==> txs[i].block <= txs[j].block
  }

  function Stored(proofs: Proofs, proof: ByteString): Option<(AccountId, nat)> {
    if proof in proofs then Some(proofs[proof]) else None
  }

  lemma AboutAppend(log: seq<Entry>, e: Entry, proof: ByteString)
    ensures About(log + [e], proof) == About(log, proof) + (if e.event.proof == proof then [e] else [])
  {
    assert (log + [e])[..|log|] == log;
  }

  /** The entry may come next in a history. */
  ghost predicate Follows(h: seq<Entry>, e: Entry) {
    && (h != [] ==> h[|h| - 1].block <= e.block)
    && match e.event
       case ClaimCreated(_, _) => Standing(h).None?
       case ClaimRevoked(who, _) => Standing(h).Some? && Standing(h).value.0 == who
  }

  lemma AlternatesAppend(h: seq<Entry>, e: Entry)
    requires Alternates(h) && Follows(h, e)
    ensures Alternates(h + [e])
    ensures Standing(h + [e]) == if e.event.ClaimCreated? then Some((e.event.who, e.block)) else None
  {
    assert h != [] ==> Turn(h, |h| - 1);
    forall i | 0 <= i <= |h| ensures Turn(h + [e], i) {
      if i < |h| { assert Turn(h, i); }
    }
  }

  /** An emitted event may come next in its proof's history and accounts for the new storage. */
  lemma StepFollows(proofs: Proofs, tx: Tx, h: seq<Entry>, proof: ByteString)
    requires Stored(proofs, proof) == Standing(h)
    requires h != [] ==> h[|h| - 1].block <= tx.block
    ensures var out := Step(proofs, tx.block, tx.origin, tx.call);
            if out.emitted.Some? && out.emitted.value.proof == proof then
              && Follows(h, Entry(tx.block, out.emitted.value))
              && Stored(out.proofs, proof)
                 == if out.emitted.value.ClaimCreated? then Some((out.emitted.value.who, tx.block)) else None
            else Stored(out.proofs, proof) == Standing(h)
  {
  }

  ghost predicate Explained(txs: seq<Tx>, proof: ByteString) {
    var h := About(Log(map[], txs), proof);
    && Alternates(h)
    && Stored(Final(map[], txs), proof) == Standing(h)
    && (h != [] ==> txs != [] && h[|h| - 1].block <= txs[|txs| - 1].block)
  }

  /** In every run over non-decreasing blocks, the history of every proof alternates, and the proof is
      stored exactly when its history ends with a creation, with that creation's account and block. */
  lemma {:induction false} HistoryExplainsStorage(txs: seq<Tx>, proof: ByteString)
    requires InBlockOrder(txs)
    ensures Explained(txs, proof)
    decreases |txs|
  {
    if txs != [] {
      var n := |txs| - 1;
      HistoryExplainsStorage(txs[..n], proof);
      ExplainedGrows(txs, proof);
    }
  }

  lemma ExplainedGrows(txs: seq<Tx>, proof: ByteString)
    requires txs != [] && InBlockOrder(txs)
    requires Explained(txs[..|txs| - 1], proof)
    ensures Explained(txs, proof)
  {
    var n := |txs| - 1;
    var before, log := Final(map[], txs[..n]), Log(map[], txs[..n]);
    var h := About(log, proof);
    assert h != [] ==> h[|h| - 1].block <= txs[n - 1].block <= txs[n].block;
    var out := Step(before, txs[n].block, txs[n].origin, txs[n].call);
    StepFollows(before, txs[n], h, proof);
    if out.emitted.None? {
      assert log + [] == log;
    } else {
      var e := Entry(txs[n].block, out.emitted.value);
      AboutAppend(log, e, proof);
      if e.event.proof == proof {
        AlternatesAppend(h, e);
      } else {
        assert h + [] == h;
      }
    }
  }

  /** Which call is accepted and which error a refusal names. */
  lemma StepResult(proofs: Proofs, block: nat, o: Origin, call: Call)
    ensures var result := Step(proofs, block, o, call).result;
            && (result == Err(BadOrigin) <==> !o.Signed?)
            && (result == Err(ProofAlreadyClaimed) <==> o.Signed? && call.CreateClaim? && call.proof in proofs)
            && (result == Err(NoSuchProof) <==> o.Signed? && call.RevokeClaim? && call.proof !in proofs)
            && (result == Err(NotProofOwner) <==>
                  o.Signed? && call.RevokeClaim? && call.proof in proofs && proofs[call.proof].0 != o.who)
  {
  }
}
