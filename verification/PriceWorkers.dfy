/** Price workers at work: any number of invocations, interleaved with each other and with the
    calls of the chain.  The lock, the ticker, the Ethereum node and the transaction pool answer as
    they like. */
module PriceWorkers {
  import opened Wrappers
  import opened Bytes
  import opened FrameSystem
  import opened Scale
  import opened Utf8
  import opened PriceSpec

  datatype Error = HttpFetchingError | HttpNotParsedInStruct | ParseFloatError | OffchainUnsignedTxError

  datatype Result = Ok | Err(error: Error)

  datatype Fetched = Data(data: LightClient) | FetchFailed(error: Error)

  datatype Posted = Answered(body: ByteString) | Rejected(error: Error) | Panicked

  datatype Stage =
    | Locking | Fetching | Storing(data: LightClient) | Reading
    | Posting(price: ByteString) | Submitting(price: ByteString)
    | Done(result: Result) | Crashed

  /** One invocation of the off-chain worker. */
  datatype Worker = Worker(block: BlockNumber, job: Job, stage: Stage)

  datatype System = System(db: Storage, workers: map<nat, Worker>)

  datatype Action =
    | Call(block: BlockNumber, origin: Origin, call: PriceCall)
    | LockTraffic(value: Option<ByteString>)
    | Begin(w: nat, block: BlockNumber)
    | TryLock(w: nat, held: bool)
    | Fetch(w: nat, fetched: Fetched)
    | Store(w: nat)
    | Read(w: nat)
    | Post(w: nat, posted: Posted)
    | Submit(w: nat, taken: bool)

  /** Where posting leads: a price that is not text is refused, an answer must be text. */
  function AfterPost(price: ByteString, posted: Posted): Stage {
    if !ValidUtf8(price) then Done(Err(HttpFetchingError)) else
      match posted
      case Rejected(e) => Done(Err(e))
      case Panicked => Crashed
      case Answered(body) => if ValidUtf8(body) then Submitting(price) else Done(Err(HttpFetchingError))
  }

  /** One step of a worker; `None` when the action is not its next one.  A price that is not text is
      refused before anything is posted. */
  function Advance(db: Storage, stage: Stage, a: Action): Option<(Storage, Stage)> {
    match (stage, a)
    case (Locking, TryLock(_, held)) => Some((db, if held then Fetching else Reading))
    case (Fetching, Fetch(_, FetchFailed(e))) => Some((db, Done(Err(e))))
    case (Fetching, Fetch(_, Data(data))) => if data.Encodes() then Some((db, Storing(data))) else None
    case (Storing(data), Store(_)) => if data.Encodes() then Some((db[INFO_KEY := data.Record()], Reading)) else None
    case (Reading, Read(_)) => Some((db, Posting(PriceIn(db))))
    case (Posting(price), Post(_, posted)) =>
      if !ValidUtf8(price) && posted != Rejected(HttpFetchingError) then None else Some((db, AfterPost(price, posted)))
    case (Submitting(_), Submit(_, taken)) => Some((db, Done(if taken then Ok else Err(OffchainUnsignedTxError))))
    case _ => None
  }

  function Next(s: System, a: Action): Option<System> {
    match a
    case Call(block, o, call) =>
      if call.Encodes() then Some(s.(db := Indexed(s.db, block, o, call))) else None
    case LockTraffic(value) =>
      Some(s.(db := if value.Some? then s.db[LOCK_KEY := value.value] else s.db - {LOCK_KEY}))
    case Begin(w, block) =>
      if w in s.workers then None else
        (match JobFor(s.db, block)
         case None => Some(s)
         case Some(job) => Some(s.(workers := s.workers[w := Worker(block, job, Locking)])))
    case _ =>
      if a.w !in s.workers then None else
        match Advance(s.db, s.workers[a.w].stage, a)
        case None => None
        case Some((db, stage)) => Some(System(db, s.workers[a.w := s.workers[a.w].(stage := stage)]))
  }

  ghost predicate Run(states: seq<System>, acts: seq<Action>) {
    && |states| == |acts| + 1
    && forall i :: 0 <= i < |acts| ==> Next(states[i], acts[i]) == Some(states[i + 1])
  }

  // ---------------------------------------------------------------- one worker on its own

  predicate IsWorkerAction(a: Action, w: nat) {
    !a.Call? && !a.LockTraffic? && !a.Begin? && a.w == w
  }

  /** Where a sequence of its own actions takes a worker that nobody disturbs. */
  function Perform(db: Storage, stage: Stage, acts: seq<Action>): Option<(Storage, Stage)> {
    if acts == [] then Some((db, stage)) else
      var n := |acts| - 1;
      match Perform(db, stage, acts[..n])
      case None => None
      case Some((db', stage')) => Advance(db', stage', acts[n])
  }

  lemma PerformOne(db: Storage, acts: seq<Action>, here: (Storage, Stage), a: Action)
    requires Perform(db, Locking, acts) == Some(here)
    ensures Perform(db, Locking, acts + [a]) == Advance(here.0, here.1, a)
  {
    assert (acts + [a])[..|acts|] == acts;
  }

  /** The end of an undisturbed invocation once it has reached its read. */
  function FromRead(db: Storage, posted: Posted, taken: bool): Stage {
    var end := AfterPost(PriceIn(db), posted);
    if end.Submitting? then Done(if taken then Ok else Err(OffchainUnsignedTxError)) else end
  }

  /** An undisturbed invocation as a whole: the storage it leaves and how it ends. */
  function Invocation(db: Storage, held: bool, fetched: Fetched, posted: Posted, taken: bool): (Storage, Stage)
    requires fetched.Data? ==> fetched.data.Encodes()
  {
    if !held then (db, FromRead(db, posted, taken))
    else if fetched.FetchFailed? then (db, Done(Err(fetched.error)))
    else
      var db' := db[INFO_KEY := fetched.data.Record()];
      (db', FromRead(db', posted, taken))
  }

  /** The last of `acts` submits the price in `db`, which the worker is then ready to submit. */
  ghost predicate EndsInSubmission(start: Storage, w: nat, acts: seq<Action>, db: Storage) {
    && acts != [] && acts[|acts| - 1] == Submit(w, true)
    && Perform(start, Locking, acts[..|acts| - 1]) == Some((db, Submitting(PriceIn(db))))
  }

  lemma FromReadFollowsProtocol(w: nat, start: Storage, acts: seq<Action>, db: Storage, posted: Posted, taken: bool)
    returns (acts': seq<Action>)
    requires Perform(start, Locking, acts) == Some((db, Reading))
    requires forall i :: 0 <= i < |acts| ==> IsWorkerAction(acts[i], w)
    ensures Perform(start, Locking, acts') == Some((db, FromRead(db, posted, taken)))
    ensures forall i :: 0 <= i < |acts'| ==> IsWorkerAction(acts'[i], w)
    ensures FromRead(db, posted, taken) == Done(Ok) ==> EndsInSubmission(start, w, acts', db)
  {
    var price := PriceIn(db);
    PerformOne(start, acts, (db, Reading), Read(w));
    var read := acts + [Read(w)];
    var answer := if ValidUtf8(price) then posted else Rejected(HttpFetchingError);
    PerformOne(start, read, (db, Posting(price)), Post(w, answer));
    acts' := read + [Post(w, answer)];
    var end := AfterPost(price, posted);
    if end.Submitting? {
      PerformOne(start, acts', (db, end), Submit(w, taken));
      var posts := acts';
      acts' := posts + [Submit(w, taken)];
      assert acts'[..|acts'| - 1] == posts;
    }
  }

  /** The invocation goes through the worker protocol, action by action, to its end. */
  lemma InvocationFollowsProtocol(w: nat, db: Storage, held: bool, fetched: Fetched, posted: Posted, taken: bool)
    returns (acts: seq<Action>)
    requires fetched.Data? ==> fetched.data.Encodes()
    ensures Perform(db, Locking, acts) == Some(Invocation(db, held, fetched, posted, taken))
    ensures forall i :: 0 <= i < |acts| ==> IsWorkerAction(acts[i], w)
    ensures var (db', end) := Invocation(db, held, fetched, posted, taken);
            end == Done(Ok) ==> EndsInSubmission(db, w, acts, db')
  {
    PerformOne(db, [], (db, Locking), TryLock(w, held));
    acts := [] + [TryLock(w, held)];
    if held {
      PerformOne(db, acts, (db, Fetching), Fetch(w, fetched));
      acts := acts + [Fetch(w, fetched)];
      if fetched.FetchFailed? { return; }
      PerformOne(db, acts, (db, Storing(fetched.data)), Store(w));
      acts := acts + [Store(w)];
    }
    acts := FromReadFollowsProtocol(w, db, acts, if held then db[INFO_KEY := fetched.data.Record()] else db, posted, taken);
  }

  /** The system in which only `w` works, at the point `here` of its own actions. */
  function Alone(w: nat, worker: Worker, here: (Storage, Stage)): System {
    System(here.0, map[w := worker.(stage := here.1)])
  }

  lemma AloneNext(w: nat, worker: Worker, here: (Storage, Stage), a: Action)
    requires IsWorkerAction(a, w) && Advance(here.0, here.1, a).Some?
    ensures Next(Alone(w, worker, here), a) == Some(Alone(w, worker, Advance(here.0, here.1, a).value))
  {
    var me := worker.(stage := here.1);
    var me' := worker.(stage := Advance(here.0, here.1, a).value.1);
    assert map[w := me][w := me'] == map[w := me'];
  }

  lemma RunSnoc(states: seq<System>, acts: seq<Action>, a: Action, s: System)
    requires Run(states, acts) && Next(states[|acts|], a) == Some(s)
    ensures Run(states + [s], acts + [a])
  {
  }

  /** A worker's undisturbed actions are a run of the system. */
  lemma {:induction false} PerformIsRun(db: Storage, w: nat, worker: Worker, acts: seq<Action>) returns (states: seq<System>)
    requires forall i :: 0 <= i < |acts| ==> IsWorkerAction(acts[i], w)
    requires Perform(db, worker.stage, acts).Some?
    ensures Run(states, acts) && states[0] == Alone(w, worker, (db, worker.stage))
    ensures states[|acts|] == Alone(w, worker, Perform(db, worker.stage, acts).value)
    ensures acts != [] ==>
              && Perform(db, worker.stage, acts[..|acts| - 1]).Some?
              && states[|acts| - 1] == Alone(w, worker, Perform(db, worker.stage, acts[..|acts| - 1]).value)
  {
    if acts == [] {
      states := [Alone(w, worker, (db, worker.stage))];
    } else {
      var n := |acts| - 1;
      var before := PerformIsRun(db, w, worker, acts[..n]);
      var here := Perform(db, worker.stage, acts[..n]).value;
      var last := Alone(w, worker, Perform(db, worker.stage, acts).value);
      AloneNext(w, worker, here, acts[n]);
      RunSnoc(before, acts[..n], acts[n], last);
      states := before + [last];
      assert acts == acts[..n] + [acts[n]];
    }
  }

  /** The invocation of the worker of a block that has a job is a run of the system from the moment
      no worker exists: it begins, goes through the protocol and ends as the sequential code does.  If
      it succeeds, its last action submits the price in the storage it leaves. */
  lemma InvocationIsRun(w: nat, block: BlockNumber, db: Storage, held: bool, fetched: Fetched, posted: Posted, taken: bool)
    returns (states: seq<System>, acts: seq<Action>)
    requires fetched.Data? ==> fetched.data.Encodes()
    requires JobFor(db, block).Some?
    ensures Run(states, acts) && states[0] == System(db, map[]) && |acts| >= 1 && acts[0] == Begin(w, block)
    ensures var (db', end) := Invocation(db, held, fetched, posted, taken);
            var me := Worker(block, JobFor(db, block).value, end);
            && states[|acts|] == System(db', map[w := me])
            && (end == Done(Ok) ==>
                  && acts[|acts| - 1] == Submit(w, true)
                  && states[|acts| - 1] == System(db', map[w := me.(stage := Submitting(PriceIn(db')))]))
  {
    var me := Worker(block, JobFor(db, block).value, Locking);
    var own := InvocationFollowsProtocol(w, db, held, fetched, posted, taken);
    var rest := PerformIsRun(db, w, me, own);
    BeginAlone(w, block, db);
    RunCons(System(db, map[]), Begin(w, block), rest, own);
    states, acts := [System(db, map[])] + rest, [Begin(w, block)] + own;
  }

  lemma BeginAlone(w: nat, block: BlockNumber, db: Storage)
    requires JobFor(db, block).Some?
    ensures Next(System(db, map[]), Begin(w, block))
         == Some(Alone(w, Worker(block, JobFor(db, block).value, Locking), (db, Locking)))
  {
    var me := Worker(block, JobFor(db, block).value, Locking);
    assert map[][w := me] == map[w := me];
  }

  lemma RunCons(s: System, a: Action, states: seq<System>, acts: seq<Action>)
    requires Run(states, acts) && Next(s, a) == Some(states[0])
    ensures Run([s] + states, [a] + acts)
  {
  }

  // ---------------------------------------------------------------- what a worker is asked to do

  /** The last accepted call of a block among the first `i` actions. */
  function LastCall(acts: seq<Action>, i: nat, block: BlockNumber): Option<PriceCall>
    requires i <= |acts|
  {
    if i == 0 then None else
      match acts[i - 1]
      case Call(b, o, call) =>
        if b == block && call.Admits(o) then Some(call) else LastCall(acts, i - 1, block)
      case _ => LastCall(acts, i - 1, block)
  }

  ghost predicate Holds(db: Storage, block: BlockNumber, last: Option<PriceCall>) {
    var key := DerivedKey(block);
    match last
    case None => key !in db
    case Some(call) => key in db && call.Encodes() && db[key] == call.Record()
  }

  lemma StepHolds(s: System, s': System, a: Action, block: BlockNumber, last: Option<PriceCall>)
    requires Next(s, a) == Some(s') && Holds(s.db, block, last)
    ensures Holds(s'.db, block,
                  if a.Call? && a.block == block && a.call.Admits(a.origin) then Some(a.call) else last)
  {
    DerivedKeyInjective(block, if a.Call? then a.block else block);
  }

  lemma {:induction false} RunHolds(states: seq<System>, acts: seq<Action>, i: nat, block: BlockNumber)
    requires Run(states, acts) && i <= |acts|
    requires DerivedKey(block) !in states[0].db
    ensures Holds(states[i].db, block, LastCall(acts, i, block))
  {
    if i > 0 {
      RunHolds(states, acts, i - 1, block);
      StepHolds(states[i - 1], states[i], acts[i - 1], block, LastCall(acts, i - 1, block));
    }
  }

  /** Whenever the worker of a block looks, it acts exactly when the last accepted call of that block
      was an update request, whatever other blocks, other workers and the lock have written: the record
      under its key tells that call byte for byte, and its job is what the call requests. */
  lemma WorkerSeesLastCall(states: seq<System>, acts: seq<Action>, i: nat, block: BlockNumber)
    requires Run(states, acts) && i <= |acts|
    requires DerivedKey(block) !in states[0].db
    ensures JobFor(states[i].db, block)
         == match LastCall(acts, i, block)
            case None => None
            case Some(call) => Request(call)
    ensures var key := DerivedKey(block);
            match LastCall(acts, i, block)
            case None => key !in states[i].db
            case Some(call) => key in states[i].db && Tells(states[i].db[key], call)
  {
    RunHolds(states, acts, i, block);
    var last := LastCall(acts, i, block);
    if last.Some? {
      RecordIsUnderstood(states[i].db[DerivedKey(block)], last.value);
    }
  }

  // ---------------------------------------------------------------- where prices come from

  /** The index of the last store among the first `i` actions. */
  function LastStore(acts: seq<Action>, i: nat): (r: Option<nat>)
    requires i <= |acts|
    ensures r.Some? ==> r.value < i && acts[r.value].Store?
    ensures r.None? ==> forall k :: 0 <= k < i ==> !acts[k].Store?
  {
    if i == 0 then None
    else if acts[i - 1].Store? then Some(i - 1)
    else LastStore(acts, i - 1)
  }

  function InfoRow(db: Storage): Option<ByteString> {
    if INFO_KEY in db then Some(db[INFO_KEY]) else None
  }

  lemma StepInfo(s: System, s': System, a: Action)
    requires Next(s, a) == Some(s')
    ensures !a.Store? ==> InfoRow(s'.db) == InfoRow(s.db)
    ensures a.Store? ==> a.w in s.workers && s.workers[a.w].stage.Storing? &&
                         s.workers[a.w].stage.data.Encodes() &&
                         InfoRow(s'.db) == Some(s.workers[a.w].stage.data.Record())
  {
    if a.Call? { DerivedKeyInjective(a.block, a.block); } else { DerivedKeyInjective(0, 0); }
  }

  lemma {:induction false} InfoIsLastStored(states: seq<System>, acts: seq<Action>, i: nat)
    requires Run(states, acts) && i <= |acts|
    ensures match LastStore(acts, i)
            case None => InfoRow(states[i].db) == InfoRow(states[0].db)
            case Some(k) =>
              && acts[k].w in states[k].workers && states[k].workers[acts[k].w].stage.Storing?
              && var data := states[k].workers[acts[k].w].stage.data;
                 data.Encodes() && InfoRow(states[i].db) == Some(data.Record())
  {
    if i > 0 {
      StepInfo(states[i - 1], states[i], acts[i - 1]);
      InfoIsLastStored(states, acts, i - 1);
    }
  }

  /** `w` read `price` at action `read`. */
  ghost predicate ReadAt(states: seq<System>, acts: seq<Action>, read: nat, w: nat, price: ByteString)
    requires Run(states, acts)
  {
    read < |acts| && acts[read] == Read(w) && w in states[read].workers && price == PriceIn(states[read].db)
  }

  /** `w` posted `price` to Ethereum at action `post` and got an answer. */
  ghost predicate PostedAt(states: seq<System>, acts: seq<Action>, post: nat, w: nat, price: ByteString)
    requires Run(states, acts)
  {
    && post < |acts| && acts[post].Post? && acts[post].w == w && acts[post].posted.Answered?
    && w in states[post].workers && states[post].workers[w].stage == Posting(price)
  }

  /** What a worker's stage says about the actions before it. */
  ghost predicate Past(states: seq<System>, acts: seq<Action>, i: nat, w: nat, stage: Stage)
    requires Run(states, acts) && i <= |acts|
  {
    match stage
    case Storing(data) => exists f :: 0 <= f < i && acts[f] == Fetch(w, Data(data))
    case Posting(price) => exists read :: 0 <= read < i && ReadAt(states, acts, read, w, price)
    case Submitting(price) => exists post :: 0 <= post < i && PostedAt(states, acts, post, w, price)
    case _ => true
  }

  /** `w` began at action `k`, for a block that then had this job for it. */
  ghost predicate BeganAt(states: seq<System>, acts: seq<Action>, k: nat, w: nat, job: Job)
    requires Run(states, acts)
  {
    k < |acts| && acts[k].Begin? && acts[k].w == w && JobFor(states[k].db, acts[k].block) == Some(job)
  }

  /** A worker keeps its block and its job for life. */
  lemma {:induction false} JobNeverChanges(states: seq<System>, acts: seq<Action>, i: nat, j: nat, w: nat)
    requires Run(states, acts) && i <= j <= |acts| && w in states[i].workers
    ensures w in states[j].workers
    ensures states[j].workers[w].job == states[i].workers[w].job
    ensures states[j].workers[w].block == states[i].workers[w].block
    decreases j
  {
    if i < j {
      JobNeverChanges(states, acts, i, j - 1, w);
      StepKeepsJob(states[j - 1], states[j], acts[j - 1], w);
    }
  }

  lemma StepKeepsJob(s: System, s': System, a: Action, w: nat)
    requires Next(s, a) == Some(s') && w in s.workers
    ensures w in s'.workers
    ensures s'.workers[w].job == s.workers[w].job && s'.workers[w].block == s.workers[w].block
  {
  }

  /** How one action can bring a worker to a stage. */
  lemma StepStage(s: System, s': System, a: Action, w: nat)
    requires Next(s, a) == Some(s') && w in s'.workers
    ensures w !in s.workers ==>
              a.Begin? && a.w == w && JobFor(s.db, a.block) == Some(s'.workers[w].job) && s'.workers[w].stage == Locking
    ensures w in s.workers && s.workers[w].stage != s'.workers[w].stage ==>
              match s'.workers[w].stage
              case Storing(data) => a == Fetch(w, Data(data))
              case Posting(price) => a == Read(w) && price == PriceIn(s.db)
              case Submitting(price) => a.Post? && a.w == w && a.posted.Answered? && s.workers[w].stage == Posting(price)
              case _ => true
  {
  }

  lemma PastGrows(states: seq<System>, acts: seq<Action>, i: nat, w: nat, stage: Stage)
    requires Run(states, acts) && i < |acts| && Past(states, acts, i, w, stage)
    ensures Past(states, acts, i + 1, w, stage)
  {
    match stage
    case Storing(data) =>
      var f :| 0 <= f < i && acts[f] == Fetch(w, Data(data));
    case Posting(price) =>
      var read :| 0 <= read < i && ReadAt(states, acts, read, w, price);
    case Submitting(price) =>
      var post :| 0 <= post < i && PostedAt(states, acts, post, w, price);
    case _ =>
  }

  lemma NewPast(states: seq<System>, acts: seq<Action>, i: nat, w: nat)
    requires Run(states, acts) && i < |acts|
    requires w in states[i].workers && w in states[i + 1].workers
    requires states[i].workers[w].stage != states[i + 1].workers[w].stage
    ensures Past(states, acts, i + 1, w, states[i + 1].workers[w].stage)
  {
    StepStage(states[i], states[i + 1], acts[i], w);
    match states[i + 1].workers[w].stage
    case Storing(data) => assert acts[i] == Fetch(w, Data(data));
    case Posting(price) => assert ReadAt(states, acts, i, w, price);
    case Submitting(price) => assert PostedAt(states, acts, i, w, price);
    case _ =>
  }

  lemma {:induction false} StageHistory(states: seq<System>, acts: seq<Action>, i: nat, w: nat)
    requires Run(states, acts) && i <= |acts|
    requires states[0].workers == map[] && w in states[i].workers
    ensures Past(states, acts, i, w, states[i].workers[w].stage)
    ensures exists k :: 0 <= k < i && BeganAt(states, acts, k, w, states[i].workers[w].job)
  {
    StepStage(states[i - 1], states[i], acts[i - 1], w);
    if w !in states[i - 1].workers {
      assert BeganAt(states, acts, i - 1, w, states[i].workers[w].job);
    } else {
      StepKeepsJob(states[i - 1], states[i], acts[i - 1], w);
      StageHistory(states, acts, i - 1, w);
      if states[i - 1].workers[w].stage == states[i].workers[w].stage {
        PastGrows(states, acts, i - 1, w, states[i].workers[w].stage);
      } else {
        NewPast(states, acts, i - 1, w);
      }
    }
  }

  /** Every price submitted to the chain: its worker began with the job of a block, then read this very
      price, then posted it to Ethereum for that job and got an answer, then submitted it. */
  lemma SubmissionHistory(states: seq<System>, acts: seq<Action>, i: nat) returns (began: nat, read: nat, post: nat)
    requires Run(states, acts) && i < |acts|
    requires states[0].workers == map[] && acts[i].Submit?
    ensures began < read < post < i
    ensures acts[i].w in states[i].workers && states[i].workers[acts[i].w].stage.Submitting?
    ensures var price := states[i].workers[acts[i].w].stage.price;
            && BeganAt(states, acts, began, acts[i].w, states[i].workers[acts[i].w].job)
            && ReadAt(states, acts, read, acts[i].w, price)
            && PostedAt(states, acts, post, acts[i].w, price)
            && states[post].workers[acts[i].w].job == states[i].workers[acts[i].w].job
  {
    var w := acts[i].w;
    assert Next(states[i], acts[i]) == Some(states[i + 1]);
    StageHistory(states, acts, i, w);
    var price := states[i].workers[w].stage.price;
    post :| 0 <= post < i && PostedAt(states, acts, post, w, price);
    StageHistory(states, acts, post, w);
    read :| 0 <= read < post && ReadAt(states, acts, read, w, price);
    StageHistory(states, acts, read, w);
    JobNeverChanges(states, acts, read, post, w);
    JobNeverChanges(states, acts, read, i, w);
    began :| 0 <= began < read && BeganAt(states, acts, began, w, states[i].workers[w].job);
  }

  /** The price a worker reads at any moment is the one of the last store before it, fetched earlier
      by the worker that stored it; before any store it is what the storage began with, the fallback
      "0" if that held no price.  So the fallback is never used after a store. */
  lemma PriceReadIsLastFetched(states: seq<System>, acts: seq<Action>, i: nat)
    requires Run(states, acts) && i <= |acts|
    requires states[0].workers == map[]
    ensures match LastStore(acts, i)
            case None =>
              PriceIn(states[i].db) == PriceIn(states[0].db) && HasPrice(states[i].db) == HasPrice(states[0].db)
            case Some(k) =>
              && HasPrice(states[i].db)
              && exists f, data ::
                   0 <= f < k && acts[f] == Fetch(acts[k].w, Data(data)) && PriceIn(states[i].db) == data.price
    ensures !HasPrice(states[i].db) ==> PriceIn(states[i].db) == Ascii("0")
  {
    InfoIsLastStored(states, acts, i);
    var last := LastStore(acts, i);
    if last.Some? {
      var k := last.value;
      var w := acts[k].w;
      StageHistory(states, acts, k, w);
      var data := states[k].workers[w].stage.data;
      var f :| 0 <= f < k && acts[f] == Fetch(w, Data(data));
      StoredPriceIsRead(states[i].db, data);
    } else {
      assert InfoRow(states[i].db) == InfoRow(states[0].db);
    }
  }

  /** From a storage with no request and no price in it, every price submitted to the chain answers an
      update request: at `began` the worker's block had an update request as its last accepted call;
      at `read` the worker read the price, which is that of the last store so far, fetched earlier
      still, or "0" when nothing had been stored; at `post` it posted that price to the host and for the
      addresses of that very request, and got an answer. */
  lemma SubmittedPricesAnswerRequests(states: seq<System>, acts: seq<Action>, i: nat) returns (began: nat, read: nat, post: nat)
    requires Run(states, acts) && i < |acts| && acts[i].Submit?
    requires states[0] == System(map[], map[])
    ensures began < read < post < i
    ensures var w := acts[i].w;
            && acts[began].Begin? && acts[began].w == w && acts[read] == Read(w)
            && LastCall(acts, began, acts[began].block).Some?
            && LastCall(acts, began, acts[began].block).value.UpdateEthereumPrice?
            && w in states[i].workers && states[i].workers[w].stage.Submitting?
            && var price := states[i].workers[w].stage.price;
               && PostedAt(states, acts, post, w, price)
               && Some(states[post].workers[w].job) == Request(LastCall(acts, began, acts[began].block).value)
               && match LastStore(acts, read)
                  case None => price == Ascii("0")
                  case Some(k) => exists f, data ::
                    0 <= f < k && acts[f] == Fetch(acts[k].w, Data(data)) && price == data.price
  {
    began, read, post := SubmissionHistory(states, acts, i);
    WorkerSeesLastCall(states, acts, began, acts[began].block);
    PriceReadIsLastFetched(states, acts, read);
  }

  /** An invocation that succeeds is such a history on its own: it began with the block's job, read the
      price that is now stored, fetched by itself if it held the lock, posted it for that job, got an
      answer, and submitted it last. */
  lemma SuccessfulInvocation(w: nat, block: BlockNumber, db: Storage, held: bool, fetched: Fetched, posted: Posted, taken: bool)
    returns (states: seq<System>, acts: seq<Action>, post: nat)
    requires fetched.Data? ==> fetched.data.Encodes()
    requires JobFor(db, block).Some?
    requires Invocation(db, held, fetched, posted, taken).1 == Done(Ok)
    ensures Run(states, acts) && states[0] == System(db, map[]) && post < |acts| - 1
    ensures acts[0] == Begin(w, block) && acts[|acts| - 1] == Submit(w, true)
    ensures var price := PriceIn(Invocation(db, held, fetched, posted, taken).0);
            && states[|acts| - 1].workers == map[w := Worker(block, JobFor(db, block).value, Submitting(price))]
            && PostedAt(states, acts, post, w, price)
            && states[post].workers[w].job == JobFor(db, block).value
            && (held ==> fetched.Data? && price == fetched.data.price)
            && (!held ==> price == PriceIn(db))
  {
    states, acts := InvocationIsRun(w, block, db, held, fetched, posted, taken);
    var began, read;
    began, read, post := SubmissionHistory(states, acts, |acts| - 1);
    if held {
      StoredPriceIsRead(db[INFO_KEY := fetched.data.Record()], fetched.data);
    }
  }
}
