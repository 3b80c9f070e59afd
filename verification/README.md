# Supra client: verified model

A Dafny model of three parts of the Supra client, a Substrate node with its own pallets, and proofs
about every run of them.

* **Node authorization** (`authorization/src/lib.rs`). Three tables that are only correct together:
  the well-known nodes, the owner of each node, and each node's additional connections. Nine calls
  change them, an event log records the changes, and a derived list says who may connect to a node.
  `AuthorizationSpec` gives every call its meaning on sets and maps, `AuthorizationChecks` its refusals. `NodeAuthorization` is the storage
  itself, with each `BTreeSet` an ascending sequence of byte strings (`OrderedIds`), updated in place
  and proved against that meaning. The theorems about runs are in `AuthorizationInvariants` (ownership,
  bounds, genesis and reset, over-long identifiers), `AuthorizationHistory` (the event log),
  `AuthorizationLocality` (who can affect what) and `AuthorizationSwaps`.
* **Price client** (`client/src/lib.rs`). Calls on the chain leave SCALE records under one key per
  block; an off-chain worker reads them back, fetches a price, posts it to Ethereum and submits it.
  `Records`, `Scale` and `Utf8` are the encodings, `PriceSpec` the hand-off, `PriceWorkers` any number of workers
  interleaved with the chain, `PriceClient` the code as one object, `Calldata` the Ethereum argument.
* **Proof of existence** (`pallets/template/src/lib.rs`). Claims that their author may revoke:
  `ProofClaims`.

Parameters stand for what the model does not decide: the configuration (both bounds and the four
privileged origins are arbitrary), genesis, the current block number, and the answers of the lock, the
price ticker, the Ethereum node and the transaction pool. A Rust string is its UTF-8 bytes. Accounts
are compared for equality only. `dafny verify dfyconfig.toml` checks the project.

Where the code differs from its own documentation, the model follows the code:

* `swap_well_known_node` is documented to leave ownership and connections untouched. It exchanges the
  two nodes' rows in both tables; `SwapMovesOwnership` shows an owner moving. `SwapLeavesUntouchedIff`
  gives the exact condition: both nodes had the same owner and the same connections row.
* `add_connections` never connects a node to itself, yet a node can come to list itself: a swap moves a
  list that contains the new name (`SwapCanCreateSelfEntry`). `RunSelfFree` says exactly when it happens.
* "The last call that mentions a connection decides" fails for a node that lists itself, because an
  addition skips the node's own id; `SwapCanCreateSelfEntry` ends with such a call.
  `LastMentionDecidesIff` gives the exact condition, and `LastWriterWins` what holds without one.
* The worker hands on an argument that is not text as "0xerror". The record it decodes is the call's,
  byte for byte (`WorkerSeesLastCall`), but the job carries the arguments exactly when all three are
  UTF-8 (`RequestIsExactIff`); otherwise different requests look alike (`NonTextRequestsCollide`).

## Model

| member | source | states |
|---|---|---|
| `Bytes.LessMeaning` | authorization/src/lib.rs:84-85 | stored order: a proper prefix first, otherwise the first differing byte decides |
| `OrderedIds.Insert` | authorization/src/lib.rs:176 | keeps the sequence strictly ascending and adds exactly the element to the set it represents |
| `OrderedIds.Remove` | authorization/src/lib.rs:198 | keeps the sequence strictly ascending and takes exactly the element out |
| `OrderedIds.Extend` | authorization/src/lib.rs:402 | keeps the sequence strictly ascending and represents the union |
| `OrderedIds.AscendingCount` | authorization/src/lib.rs:173 | the length of the stored set is the number of its members: nothing is stored twice |
| `OrderedIds.AscendingIsCanonical` | authorization/src/lib.rs:84-91 | equal membership gives equal stored vectors |
| `NodeAuthorization.Pallet.constructor` | authorization/src/lib.rs:93-98 | genesis starts from the listed nodes with an empty log and no check at all |
| `NodeAuthorization.Pallet.InitializeNodes` | authorization/src/lib.rs:384-394 | the two loops give exactly the listed set and, for each id, the owner of its last entry; everything else stays |
| `NodeAuthorization.InitializedSnoc` | authorization/src/lib.rs:391-393 | inserting owners in list order is the same as taking last entries |
| `NodeAuthorization.Pallet.AddWellKnownNode` | authorization/src/lib.rs:168-182 | new tables, events and result, with each refusal in the order of the checks and without effect |
| `NodeAuthorization.Pallet.RemoveWellKnownNode` | authorization/src/lib.rs:191-205 | the node leaves all three tables, or a refusal without effect |
| `NodeAuthorization.Pallet.SwapWellKnownNode` | authorization/src/lib.rs:215-234 | both rows exchanged, presence included; swapping a node with itself is accepted and silent |
| `NodeAuthorization.Pallet.ResetWellKnownNodes` | authorization/src/lib.rs:244-251 | strictly fewer entries than the maximum, then initialisation; no check of identifier length |
| `NodeAuthorization.Pallet.ClaimNode` | authorization/src/lib.rs:258-266 | the sender becomes the owner of an unowned short id, or a refusal without effect |
| `NodeAuthorization.Pallet.RemoveClaim` | authorization/src/lib.rs:274-286 | the owner gives up a node that is not well known, with its connections |
| `NodeAuthorization.Pallet.TransferNode` | authorization/src/lib.rs:293-303 | only the owner of the row changes |
| `NodeAuthorization.Pallet.AddConnections` | authorization/src/lib.rs:310-333 | the loop adds every listed id but the node itself, and creates the row even for an empty list |
| `NodeAuthorization.Pallet.RemoveConnections` | authorization/src/lib.rs:340-360 | the loop removes every listed id, and creates the row even when there was none |
| `NodeAuthorization.Pallet.GetAuthorizedNodes` | authorization/src/lib.rs:396-406 | an id is in the result if and only if it is one of the stored connections or both nodes are well known and different; the result is the only ascending vector with these members |
| `NodeAuthorization.Pallet.Dispatch` | authorization/src/lib.rs:149-361 | any call is one step of the state machine the theorems below are about |
| `AuthorizationChecks.ResultIsFirstFailure` | authorization/src/lib.rs:168-360 | every call in every state is accepted if and only if all its checks hold, and otherwise refused with the error of the first check that fails |
| `AuthorizationChecks.DecidedOnce` | authorization/src/lib.rs:168-360 | a list of checks decides one result |
| `AuthorizationInvariants.ReachableTables` | authorization/src/lib.rs:168-303 | in every reachable state well-known and connected nodes are owned, distinct well-known nodes authorise each other, and their number is at most the maximum or the distinct genesis count |
| `AuthorizationInvariants.StepMovesWellKnown` | authorization/src/lib.rs:168-251 | which event goes with which change of the well-known set, and that nothing else changes it |
| `AuthorizationInvariants.InitializedMeaning` | authorization/src/lib.rs:384-394 | exactly the listed ids, last owner wins, other owners and all connections stay, never more nodes than entries |
| `AuthorizationInvariants.GenesisMeaning` | authorization/src/lib.rs:93-98 | exactly the listed ids are well known and owned, each by the account of its last entry; nobody has connections |
| `AuthorizationInvariants.InitializedTwice` | authorization/src/lib.rs:384-394 | idempotent; a second list with the same ids overrides the first completely |
| `AuthorizationInvariants.LongIdsOnlySeeResets` | authorization/src/lib.rs:170-347 | a run treats an over-long id as if the run were its accepted resets alone |
| `AuthorizationInvariants.LongIdsEnterByResetOnly` | authorization/src/lib.rs:244-251 | an over-long id is owned, then for ever, exactly when genesis or an accepted reset listed it; it never has connections |
| `AuthorizationInvariants.ShortIdsStayShort` | authorization/src/lib.rs:244-251 | with short ids in genesis and resets every key of every table is short |
| `AuthorizationHistory.StepReplays` | authorization/src/lib.rs:168-360 | at most one event per call; no event means no change; only refusals and self-swaps emit none; the event alone gives the new tables |
| `AuthorizationHistory.LogRebuildsTables` | authorization/src/lib.rs:101-125 | replaying the log of any run without checks rebuilds all three tables, and every log is legal |
| `AuthorizationHistory.LogsAreLegalHistories` | authorization/src/lib.rs:101-125 | a sequence of events is the log of some run if and only if each event is possible where it stands, under any configuration; the log determines the tables |
| `AuthorizationLocality.UserStepIsLocal` | authorization/src/lib.rs:258-360 | a user call reads and writes the row of its node alone |
| `AuthorizationLocality.UserRunsFactor` | authorization/src/lib.rs:258-360 | a run of user calls is, node by node, the run of that node's calls on its row: same row, same results |
| `AuthorizationLocality.InterleavingIsIrrelevant` | authorization/src/lib.rs:258-360 | runs with the same calls per node give the same tables and the same result for every call |
| `AuthorizationLocality.OnlyRootMovesWellKnown` | runtime/src/lib.rs:348-357 | no run without root changes the well-known set |
| `AuthorizationLocality.OthersCannotTouch` | runtime/src/lib.rs:348-357 | without root and without the owner no run changes an owner's nodes, their authorised lists or the well-known set |
| `AuthorizationLocality.LastWriterWins` | authorization/src/lib.rs:310-360 | a connection is there exactly when the last deciding call of the owner added it, or none decided and it was there before |
| `AuthorizationLocality.AuthorizedAfterRun` | authorization/src/lib.rs:310-406 | after such a run an id may connect if and only if the last word connects it or both nodes are well known and different |
| `AuthorizationLocality.LastMentionDecidesIff` | authorization/src/lib.rs:310-360 | the last mention of an id decides if and only if it is not the case that the node listed itself, is mentioned, and is never removed |
| `AuthorizationSwaps.SwapAccepted` | authorization/src/lib.rs:215-234 | exactly when a swap of two nodes takes effect; otherwise nothing changes |
| `AuthorizationSwaps.SwapExchangesAuthorized` | authorization/src/lib.rs:396-406 | the two authorised lists are exchanged, other well-known nodes see the new name for the old, nobody else sees a difference |
| `AuthorizationSwaps.SwapRunsPermuteRows` | authorization/src/lib.rs:229-231 | any run of swaps is a permutation of rows, the same one in all three tables, with its inverse |
| `AuthorizationSwaps.SwapBack` | authorization/src/lib.rs:215-234 | swapping back is accepted and restores all three tables |
| `AuthorizationSwaps.ChainIsOneSwap` | authorization/src/lib.rs:215-234 | a chain of swaps through free identifiers is the single swap from end to end |
| `AuthorizationSwaps.SwapSelfEntries` | authorization/src/lib.rs:231 | where a swap makes a node list itself, and nowhere else |
| `AuthorizationSwaps.StepSelfFree` | authorization/src/lib.rs:321-330 | a call creates a self-entry if and only if it is a swap of two nodes one of which lists the other |
| `AuthorizationSwaps.RunSelfFree` | authorization/src/lib.rs:215-360 | no node lists itself at any point of a run if and only if every call is clean when made |
| `AuthorizationSwaps.SwapCanCreateSelfEntry` | authorization/src/lib.rs:215-333 | a reachable state in which a node lists and authorises itself, and an accepted addition of the node to itself that leaves the entry although the last mention would deny it |
| `AuthorizationSwaps.SwapLeavesUntouchedIff` | authorization/src/lib.rs:207-231 | a swap leaves ownership and connections untouched if and only if both nodes had the same owner and the same connections row |
| `AuthorizationSwaps.SwapLeavesUntouchedWhenOwned` | authorization/src/lib.rs:207-231 | on reachable tables: if and only if the new node already belonged to the account of the old one, with an equal row |
| `AuthorizationSwaps.SwapMovesOwnership` | authorization/src/lib.rs:207-231 | a reachable swap after which the old node is unowned and the new one has its owner |
| `Utf8.ValidUtf8IsText` | client/src/lib.rs:181-224 | a byte string is text if and only if it is a sequence of Unicode scalar values, each in its shortest encoding |
| `Scale.IntRoundTrip` | client/src/lib.rs:248 | fixed-width little-endian numbers decode to themselves |
| `Scale.IntBytes` | client/src/lib.rs:248 | byte i of a fixed-width number is its digit of weight 256 to the i |
| `Scale.CompactForms` | client/src/lib.rs:186-187 | the four compact forms and their values |
| `Scale.CompactRoundTrip` | client/src/lib.rs:186-187 | compact lengths decode to themselves in all four forms, whatever follows |
| `Scale.CompactInverse` | client/src/lib.rs:218 | only the canonical form of a length is accepted |
| `Scale.DecodeBytesExactly` | client/src/lib.rs:538-542 | a byte vector is read off an input if and only if the input begins with its encoding |
| `Records.ReadOfWritten` | client/src/lib.rs:538-542 | over any exactly readable field format, reading n fields of a written record gives its first n fields or fails if it has fewer |
| `Scale.DecodeFieldsOfRecord` | client/src/lib.rs:538-542 | reading n fields from a record gives its first n fields, and fails if it has fewer |
| `Scale.DecodeFieldsExactly` | client/src/lib.rs:538-542 | a record is read off an input if and only if the input begins with its encoding |
| `PriceSpec.DerivedKeyInjective` | client/src/lib.rs:247-256 | keys are equal exactly for equal blocks, and never the worker's own keys |
| `PriceSpec.DerivedKeyBytes` | client/src/lib.rs:247-256 | the 22 fixed characters of the key, then the block number, low byte first |
| `PriceSpec.JobForIff` | client/src/lib.rs:218-220 | a job is found if and only if the record has four fields and the name of an update request |
| `PriceSpec.RecordIsUnderstood` | client/src/lib.rs:186-236 | a submission's record holds its name and price and never decodes as four fields; an update request's holds its name and arguments; all byte for byte |
| `PriceSpec.PrefixedIsExactIff` | client/src/lib.rs:222-224 | the text conversion keeps an argument if and only if it is UTF-8 |
| `PriceSpec.RequestIsExactIff` | client/src/lib.rs:222-224 | the job carries the request's own arguments if and only if all three are UTF-8 |
| `PriceSpec.NonTextRequestsCollide` | client/src/lib.rs:222-224 | two different requests whose jobs are equal because a host is not text |
| `PriceSpec.StoredPriceIsRead` | client/src/lib.rs:276-289 | a stored ticker is read back whole, and its price is the price read |
| `PriceClient.Client.SubmitEthereumPrice` | client/src/lib.rs:177-191 | unsigned only; the block's record then holds this price, one event is added, and the block's worker has nothing to do |
| `PriceClient.Client.UpdateEthereumPrice` | client/src/lib.rs:194-209 | signed only; the block's record then holds these arguments, one event is added, and the block's worker has exactly this request |
| `PriceClient.Client.OffchainWorker` | client/src/lib.rs:211-242 | the job handed on is the one the record of the block asks for |
| `PriceClient.Client.UpdateEthereumPriceWorker` | client/src/lib.rs:258-306 | the storage left, what is delivered, what is submitted and how it ends, for every answer of the outside world; a submitted price was delivered before, for this job, and is the fetched one when the lock was held |
| `PriceClient.Client.PostPrice` | client/src/lib.rs:360-440 | the worker goes on to submit if and only if price and answer are text, and then this price; exactly this price for this job is delivered; when it crashes and which error it gives otherwise |
| `PriceWorkers.InvocationFollowsProtocol` | client/src/lib.rs:258-306 | the sequential code performs the steps of the concurrent protocol to its end, and on success its last step submits the stored price |
| `PriceWorkers.InvocationIsRun` | client/src/lib.rs:211-306 | the sequential invocation, from its beginning for a block with a job, is a run of the system with no worker at the start, ending as the code does |
| `PriceWorkers.SuccessfulInvocation` | client/src/lib.rs:258-306 | a successful invocation posted the stored price for its block's job, got an answer and submitted it; with the lock held it is the price it fetched |
| `PriceWorkers.WorkerSeesLastCall` | client/src/lib.rs:177-242 | at any moment of any run the record of a block tells its last accepted call byte for byte, and its worker acts if and only if that call was an update request |
| `PriceWorkers.SubmissionHistory` | client/src/lib.rs:258-306 | in every interleaving a submitted price was read and then posted with an answer by the same worker, for the job it began with |
| `PriceWorkers.JobNeverChanges` | client/src/lib.rs:226-232 | a worker keeps its block and its job for life |
| `PriceWorkers.PriceReadIsLastFetched` | client/src/lib.rs:273-289 | a price read is the one of the last store, fetched before by the worker that stored it; the fallback is never used after a store |
| `PriceWorkers.SubmittedPricesAnswerRequests` | client/src/lib.rs:211-306 | every submitted price was posted, with an answer, for the job of the update request that was its block's last accepted call, and is the last stored price or the fallback |
| `Calldata.HexLength` | client/src/lib.rs:375 | the hexadecimal form fits k digits exactly below 16 to the k |
| `Calldata.U32Fits` | client/src/lib.rs:373-377 | every 32-bit price fits, so the padding subtraction never underflows |
| `Calldata.CalldataDecodes` | client/src/lib.rs:375-377 | the word of a number is the one and only 64-digit word that denotes it |
| `Calldata.EveryWordIsCalldata` | client/src/lib.rs:375-377 | every 64-digit word is the calldata of the number it denotes |
| `Calldata.CalldataText` | client/src/lib.rs:375-377 | 74 characters: the ten of the selector, then 64 digits that denote the number |
| `Calldata.CalldataOrder` | client/src/lib.rs:375-377 | comparing calldata as text compares prices |
| `ProofClaims.Pallet.CreateClaim` | pallets/template/src/lib.rs:72-97 | an unclaimed proof is stored with sender and block, or a refusal without effect |
| `ProofClaims.Pallet.RevokeClaim` | pallets/template/src/lib.rs:100-122 | the author removes the claim, or a refusal without effect |
| `ProofClaims.StepResult` | pallets/template/src/lib.rs:79-113 | each error if and only if its check is the first that fails |
| `ProofClaims.HistoryExplainsStorage` | pallets/template/src/lib.rs:72-122 | in every run over non-decreasing blocks each proof's events alternate, revocations are by the creator, and the proof is stored exactly when the last event is a creation, with its account and block |

## Left out

- Client.SubmitEthereumPrice: requires arguments shorter than 2^32 bytes, the codec's length range; the encoder panics beyond it, and 32-bit memory rules it out. The same holds for UpdateEthereumPrice and for fetched tickers.
- UpdateEthereumPriceWorker: does not model HTTP, JSON, gas estimation or the parsing of the price as a float; each shows up as an arbitrary answer, and an `unwrap` as a crash.
- Calldata: starts from the integer price; the conversion from floating point before it is not modelled.
- The storage lock's expiry, the transaction pool and `validate_unsigned`: the lock and the pool answer arbitrarily.
- Chain forks and a node with off-chain indexing switched off: one chain, indexing on.
- The authorization pallet's off-chain worker (`authorization/src/lib.rs:364-379`): host calls around `GetAuthorizedNodes`.
- Weights, signatures, the rest of the runtime's configuration, the node's service, command line and RPC: wiring.
- `Numbers`, `Payload`, `EthPayLoad` and `IndexingData` in the price client: declared and never used by a call.
