/** The hand-off between the chain and the off-chain worker of the price client: two calls write
    records of different shapes under one key per block, the worker reads that key back. */
module PriceSpec {
  import opened Wrappers
  import opened Bytes
  import opened FrameSystem
  import opened Scale
  import opened Utf8

  type BlockNumber = n: nat | n < U32_BOUND
  type Storage = map<ByteString, ByteString>

  const SUBMIT_NAME: ByteString := Ascii("submit_ethereum_price")
  const UPDATE_NAME: ByteString := Ascii("update_ethereum_price")
  const INFO_KEY: ByteString := Ascii("ocw-demo::ethereum-info")
  const LOCK_KEY: ByteString := Ascii("ocw-demo::lock")

  /** The key for a block: a fixed prefix and the block number in four bytes. */
  function DerivedKey(block: BlockNumber): (key: ByteString)
    ensures |key| == 26
  {
    Ascii("ocw-demo::storage::tx") + Ascii("/") + EncodeInt(block, FOUR)
  }

  /** Different blocks have different keys, none of them the worker's own. */
  lemma DerivedKeyInjective(block: BlockNumber, other: BlockNumber)
    ensures DerivedKey(block) == DerivedKey(other) <==> block == other
    ensures DerivedKey(block) != INFO_KEY && DerivedKey(block) != LOCK_KEY && INFO_KEY != LOCK_KEY
  {
    Widths();
    IntRoundTrip(block, FOUR);
    IntRoundTrip(other, FOUR);
    assert DerivedKey(block)[22..] == EncodeInt(block, FOUR);
    assert DerivedKey(other)[22..] == EncodeInt(other, FOUR);
  }

  /** The key spelled out: 22 fixed characters, then the block number, low byte first. */
  lemma DerivedKeyBytes(block: BlockNumber)
    ensures DerivedKey(block)[..22] == Ascii("ocw-demo::storage::tx/")
    ensures DecodeInt(DerivedKey(block)[22..]) == block
    ensures forall i :: 0 <= i < 4 ==> DerivedKey(block)[22 + i] == block / Power256(i) % 256
  {
    Widths();
    IntRoundTrip(block, FOUR);
    assert DerivedKey(block)[22..] == EncodeInt(block, FOUR);
    forall i | 0 <= i < 4 ensures DerivedKey(block)[22 + i] == block / Power256(i) % 256 {
      IntBytes(block, FOUR, i);
      assert DerivedKey(block)[22..][i] == DerivedKey(block)[22 + i];
    }
  }

  datatype PriceCall =
    | SubmitEthereumPrice(price: ByteString)
    | UpdateEthereumPrice(host: ByteString, from: ByteString, to: ByteString)
  {
    /** Submissions are unsigned transactions, update requests are signed. */
    predicate Admits(o: Origin) {
      if SubmitEthereumPrice? then o.Unsigned? else o.Signed?
    }

    /** The record the call indexes: two fields for a submission, four for an update request. */
    function Fields(): seq<ByteString> {
      match this
      case SubmitEthereumPrice(price) => [SUBMIT_NAME, price]
      case UpdateEthereumPrice(host, from, to) => [UPDATE_NAME, host, from, to]
    }

    /** The arguments are byte vectors the codec can write. */
    predicate Encodes() {
      match this
      case SubmitEthereumPrice(price) => Encodable(price)
      case UpdateEthereumPrice(host, from, to) => Encodable(host) && Encodable(from) && Encodable(to)
    }

    function Record(): ByteString
      requires Encodes()
    {
      EncodeFields(Fields())
    }
  }

  /** What the worker passes on: three strings. */
  datatype Job = Job(host: ByteString, from: ByteString, to: ByteString)

  function Prefixed(b: ByteString): ByteString {
    Ascii("0x") + TextOrError(b)
  }

  /** The worker acts on four decoded fields that carry the right name. */
  function Understood(fields: Option<seq<ByteString>>): Option<Job>
    requires fields.Some? ==> |fields.value| == FOUR
  {
    match fields
    case None => None
    case Some(f) =>
      if TextOrError(f[0]) == UPDATE_NAME then Some(Job(Prefixed(f[1]), Prefixed(f[2]), Prefixed(f[3]))) else None
  }

  /** What the worker of a block finds to do. */
  function JobFor(db: Storage, block: BlockNumber): Option<Job> {
    var key := DerivedKey(block);
    if key !in db then None else Understood(DecodeFields(db[key], FOUR))
  }

  /** The job an indexed call asks for: an update request its own arguments, a submission none. */
  function Request(call: PriceCall): Option<Job> {
    match call
    case SubmitEthereumPrice(_) => None
    case UpdateEthereumPrice(host, from, to) => Some(Job(Prefixed(host), Prefixed(from), Prefixed(to)))
  }

  lemma FieldsAreUnderstood(call: PriceCall)
    ensures var f := call.Fields();
            Understood(if FOUR <= |f| then Some(f[..FOUR]) else None) == Request(call)
  {
    if call.UpdateEthereumPrice? {
      AsciiIsUtf8(UPDATE_NAME);
    }
  }

  /** The text conversion keeps an argument exactly when it is text. */
  lemma PrefixedIsExactIff(b: ByteString)
    ensures Prefixed(b) == Ascii("0x") + b <==> ValidUtf8(b)
  {
    if !ValidUtf8(b) {
      AsciiIsUtf8(Ascii("error"));
      assert Prefixed(b)[2..] == Ascii("error") && (Ascii("0x") + b)[2..] == b;
    }
  }

  /** So an update request reaches the worker with its own arguments exactly when all three are text. */
  lemma RequestIsExactIff(host: ByteString, from: ByteString, to: ByteString)
    ensures Request(UpdateEthereumPrice(host, from, to))
            == Some(Job(Ascii("0x") + host, Ascii("0x") + from, Ascii("0x") + to))
       <==> ValidUtf8(host) && ValidUtf8(from) && ValidUtf8(to)
  {
    PrefixedIsExactIff(host);
    PrefixedIsExactIff(from);
    PrefixedIsExactIff(to);
  }

  /** Requests that differ only in arguments that are not text cannot be told apart. */
  lemma NonTextRequestsCollide()
    ensures UpdateEthereumPrice([0xFF], [], []) != UpdateEthereumPrice([0xFE], [], [])
    ensures Request(UpdateEthereumPrice([0xFF], [], [])) == Request(UpdateEthereumPrice([0xFE], [], []))
         == Some(Job(Ascii("0xerror"), Ascii("0x"), Ascii("0x")))
  {
    assert UpdateEthereumPrice([0xFF], [], []).host[0] != UpdateEthereumPrice([0xFE], [], []).host[0];
    assert Ascii("0x") + Ascii("error") == Ascii("0xerror");
    assert Ascii("0x") + [] == Ascii("0x");
  }

  /** The worker finds a job exactly in a record of four fields whose name is that of an update. */
  lemma JobForIff(db: Storage, block: BlockNumber)
    ensures JobFor(db, block).Some? <==>
              DerivedKey(block) in db && Named(DecodeFields(db[DerivedKey(block)], FOUR), Ascii("update_ethereum_price"))
  {
    if DerivedKey(block) in db {
      UnderstoodIff(DecodeFields(db[DerivedKey(block)], FOUR));
    }
  }

  /** The first field is the given name. */
  predicate Named(fields: Option<seq<ByteString>>, name: ByteString) {
    fields.Some? && fields.value != [] && fields.value[0] == name
  }

  lemma UnderstoodIff(fields: Option<seq<ByteString>>)
    requires fields.Some? ==> |fields.value| == FOUR
    ensures Understood(fields).Some? <==> Named(fields, Ascii("update_ethereum_price"))
  {
    AsciiIsUtf8(UPDATE_NAME);
    if fields.Some? {
      TextEquals(fields.value[0], UPDATE_NAME);
    }
  }

  lemma TextEquals(b: ByteString, name: ByteString)
    requires ValidUtf8(name) && |name| != 5
    ensures TextOrError(b) == name <==> b == name
  {
  }

  /** What is found under a block's key after a call: an update request's name and three arguments, or
      a submission's name and price, byte for byte. */
  ghost predicate Tells(b: ByteString, call: PriceCall) {
    match call
    case SubmitEthereumPrice(price) =>
      DecodeFields(b, FOUR) == None && DecodeFields(b, TWO) == Some([Ascii("submit_ethereum_price"), price])
    case UpdateEthereumPrice(host, from, to) =>
      DecodeFields(b, FOUR) == Some([Ascii("update_ethereum_price"), host, from, to])
  }

  /** A record tells its call; in particular a submission never passes for an update request.  What the
      worker then does is what the call requests. */
  lemma RecordIsUnderstood(b: ByteString, call: PriceCall)
    requires call.Encodes() && b == call.Record()
    ensures Tells(b, call)
    ensures Understood(DecodeFields(b, FOUR)) == Request(call)
  {
    RecordTells(b, call);
    DecodeFieldsOfRecord(call.Fields(), FOUR);
    FieldsAreUnderstood(call);
  }

  lemma RecordTells(b: ByteString, call: PriceCall)
    requires call.Encodes() && b == call.Record()
    ensures Tells(b, call)
  {
    var f := call.Fields();
    DecodeFieldsOfRecord(f, FOUR);
    if call.UpdateEthereumPrice? {
      assert f[..FOUR] == f;
    } else {
      DecodeFieldsOfRecord(f, TWO);
      assert f[..TWO] == f;
    }
  }

  /** The effect of a call on the indexed storage; a call of the wrong origin has none. */
  function Indexed(db: Storage, block: BlockNumber, o: Origin, call: PriceCall): Storage
    requires call.Encodes()
  {
    if call.Admits(o) then db[DerivedKey(block) := call.Record()] else db
  }

  // ---------------------------------------------------------------- the stored price

  /** The record the worker keeps of the last fetched ticker. */
  datatype LightClient = LightClient(price: ByteString, time: ByteString) {
    predicate Encodes() { Encodable(price) && Encodable(time) }

    function Record(): ByteString
      requires Encodes()
    {
      EncodeFields([price, time])
    }
  }

  predicate HasPrice(db: Storage) {
    INFO_KEY in db && DecodeFields(db[INFO_KEY], TWO).Some?
  }

  /** The price a worker reads back, with "0" as the fallback. */
  function PriceIn(db: Storage): ByteString {
    if HasPrice(db) then DecodeFields(db[INFO_KEY], TWO).value[0] else Ascii("0")
  }

  lemma StoredPriceIsRead(db: Storage, data: LightClient)
    requires data.Encodes()
    requires INFO_KEY in db && db[INFO_KEY] == data.Record()
    ensures HasPrice(db) && PriceIn(db) == data.price
    ensures DecodeFields(db[INFO_KEY], TWO) == Some([data.price, data.time])
  {
    var f := [data.price, data.time];
    DecodeFieldsOfRecord(f, TWO);
    assert f[..TWO] == f;
  }
}
