/** The price client as one object: the two calls, the entry of the off-chain worker and the price
    worker, over the storage they share. */
module PriceClient {
  import opened Wrappers
  import opened Bytes
  import opened FrameSystem
  import opened Scale
  import opened Utf8
  import opened PriceSpec
  import opened PriceWorkers

  datatype Event =
    | UpdatedPrice(who: AccountId)
    | SubmittedPrice(price: ByteString)

  /** A price that reached the Ethereum node, and the host and addresses it was posted with. */
  datatype Delivery = Delivery(job: Job, price: ByteString)

  class Client {
    var offchain: Storage
    var events: seq<Event>

    constructor ()
      ensures offchain == map[] && events == []
    {
      offchain, events := map[], [];
    }

    /** After an accepted submission the worker of this block has nothing to do. */
    method SubmitEthereumPrice(block: BlockNumber, origin: Origin, price: ByteString) returns (ok: bool)
      requires Encodable(price)
      modifies this
      ensures ok == origin.Unsigned?
      ensures offchain == Indexed(old(offchain), block, origin, PriceCall.SubmitEthereumPrice(price))
      ensures events == old(events) + if ok then [SubmittedPrice(price)] else []
      ensures ok ==> DecodeFields(offchain[DerivedKey(block)], TWO) == Some([Ascii("submit_ethereum_price"), price])
      ensures ok ==> JobFor(offchain, block) == None
    {
      if !origin.Unsigned? { return false; }
      var key := DerivedKey(block);
      var data := [SUBMIT_NAME, price];
      offchain := offchain[key := EncodeFields(data)];
      events := events + [SubmittedPrice(price)];
      RecordIsUnderstood(offchain[key], PriceCall.SubmitEthereumPrice(price));
      return true;
    }

    /** After an accepted update request the worker of this block has exactly that request to do. */
    method UpdateEthereumPrice(block: BlockNumber, origin: Origin, host: ByteString, from: ByteString, to: ByteString) returns (ok: bool)
      requires Encodable(host) && Encodable(from) && Encodable(to)
      modifies this
      ensures ok == origin.Signed?
      ensures offchain == Indexed(old(offchain), block, origin, PriceCall.UpdateEthereumPrice(host, from, to))
      ensures events == old(events) + if ok then [UpdatedPrice(origin.who)] else []
      ensures ok ==>
                DecodeFields(offchain[DerivedKey(block)], FOUR) == Some([Ascii("update_ethereum_price"), host, from, to])
      ensures ok ==> JobFor(offchain, block) == Some(Job(Prefixed(host), Prefixed(from), Prefixed(to)))
    {
      if !origin.Signed? { return false; }
      var key := DerivedKey(block);
      var data := [UPDATE_NAME, host, from, to];
      offchain := offchain[key := EncodeFields(data)];
      events := events + [UpdatedPrice(origin.who)];
      RecordIsUnderstood(offchain[key], PriceCall.UpdateEthereumPrice(host, from, to));
      return true;
    }

    /** The entry of the off-chain worker: what it hands to the price worker, if anything. */
    method OffchainWorker(block: BlockNumber) returns (job: Option<Job>)
      ensures job == JobFor(offchain, block)
    {
      var key := DerivedKey(block);
      if key !in offchain { return None; }
      var data := DecodeFields(offchain[key], FOUR);
      if data.None? { return None; }
      var edata := data.value;
      var name := TextOrError(edata[0]);
      if name != UPDATE_NAME { return None; }
      var host := Ascii("0x") + TextOrError(edata[1]);
      var from := Ascii("0x") + TextOrError(edata[2]);
      var to := Ascii("0x") + TextOrError(edata[3]);
      return Some(Job(host, from, to));
    }

    /** One invocation of the price worker for a job, undisturbed: `held` says whether the lock was
        obtained; `fetched`, `posted` and `taken` are what the outside world answers if asked.
        `submitted` is the price handed to the transaction pool: it was delivered to Ethereum for this
        job before, and it is the fetched price whenever the lock was held. */
    method UpdateEthereumPriceWorker(job: Job, held: bool, fetched: Fetched, posted: Posted, taken: bool)
      returns (end: Stage, delivered: Option<Delivery>, submitted: Option<ByteString>)
      requires fetched.Data? ==> fetched.data.Encodes()
      modifies `offchain
      ensures (offchain, end) == Invocation(old(offchain), held, fetched, posted, taken)
      ensures offchain == if held && fetched.Data? then old(offchain)[Ascii("ocw-demo::ethereum-info") := fetched.data.Record()]
                          else old(offchain)
      ensures held && fetched.FetchFailed? ==> end == Done(Err(fetched.error)) && delivered == None && submitted == None
      ensures !(held && fetched.FetchFailed?) ==>
                && (delivered.Some? <==> ValidUtf8(PriceIn(offchain)) && posted.Answered?)
                && (submitted.Some? <==> delivered.Some? && ValidUtf8(posted.body))
      ensures submitted.Some? && !taken ==> end == Done(Err(OffchainUnsignedTxError))
      ensures submitted.Some? ==> delivered == Some(Delivery(job, submitted.value)) && submitted.value == PriceIn(offchain)
      ensures submitted.Some? && held ==> fetched.Data? && submitted.value == fetched.data.price
      ensures end == Done(Ok) <==> submitted.Some? && taken
    {
      delivered, submitted := None, None;
      if held {
        if fetched.FetchFailed? {
          end := Done(Err(fetched.error));
          return;
        }
        offchain := offchain[INFO_KEY := fetched.data.Record()];
        StoredPriceIsRead(offchain, fetched.data);
      }
      var price := Ascii("0");
      if INFO_KEY in offchain {
        var stored := DecodeFields(offchain[INFO_KEY], TWO);
        if stored.Some? { price := stored.value[0]; }
      }
      end, delivered := PostPrice(job, price, posted);
      if end.Submitting? {
        submitted := Some(price);
        end := if taken then Done(Ok) else Done(Err(OffchainUnsignedTxError));
      }
    }

    /** Post a price to Ethereum for a job.  The worker goes on to submit exactly when the price and the
        answer are text, and then this price; what is delivered is this price for this job. */
    method PostPrice(job: Job, price: ByteString, posted: Posted) returns (end: Stage, delivered: Option<Delivery>)
      ensures delivered == if ValidUtf8(price) && posted.Answered? then Some(Delivery(job, price)) else None
      ensures end.Submitting? <==> delivered.Some? && ValidUtf8(posted.body)
      ensures end.Submitting? ==> end.price == price
      ensures end.Crashed? <==> ValidUtf8(price) && posted.Panicked?
      ensures !end.Submitting? && !end.Crashed? ==>
                end == Done(Err(if ValidUtf8(price) && posted.Rejected? then posted.error else HttpFetchingError))
    {
      if !ValidUtf8(price) { return Done(Err(HttpFetchingError)), None; }
      match posted
      case Rejected(e) => return Done(Err(e)), None;
      case Panicked => return Crashed, None;
      case Answered(body) =>
        delivered := Some(Delivery(job, price));
        if ValidUtf8(body) { end := Submitting(price); } else { end := Done(Err(HttpFetchingError)); }
    }
  }
}
