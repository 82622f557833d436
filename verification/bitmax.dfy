/**
 * The Bitmax adapter: `message_handler` dispatches on the `m` field; `_trade`
 * fans a `marketTrades` message out into trade callbacks; `_book` only reads
 * fields and asks the REST endpoint for a depth snapshot, keeping nothing;
 * `subscribe` resets the sequence numbers and books.
 */
module Bitmax {
  import opened Wrappers
  import opened Errors
  import opened Json
  import opened Numeric
  import opened OrderBook
  import opened Events

  /** The adapter's fields: `seq_num` and `l2_book`, both keyed by pair. */
  datatype State = State(seqNum: map<Pair, Json>, l2Book: map<Pair, Book>)

  /** Where `message_handler` sends a message. */
  datatype Route = DepthTopic | TradesTopic | Control | Unrecognised

  /**
   * The dispatch of `message_handler`: no `m` key, or an `m` other than
   * `depth`, `marketTrades`, `pong`, `connected` and `sub`, is unrecognised.
   */
  function Classify(msg: Json): (r: Result<Route, Error>)
    ensures !(msg.JObj? || msg.JArr? || msg.JStr?) ==> r == Failure(TypeError)
    ensures msg.JObj? && "m" !in msg.fields ==> r == Success(Unrecognised)
    ensures msg.JObj? && "m" in msg.fields ==>
              var m := msg.fields["m"];
              && (r == Success(DepthTopic) <==> IsText(m, "depth"))
              && (r == Success(TradesTopic) <==> IsText(m, "marketTrades"))
              && (r == Success(Control) <==> IsText(m, "pong") || IsText(m, "connected") || IsText(m, "sub"))
              && (r == Success(Unrecognised) <==>
                    !(IsText(m, "depth") || IsText(m, "marketTrades") || IsText(m, "pong")
                      || IsText(m, "connected") || IsText(m, "sub")))
  {
    var present :- Contains(msg, "m");
    if !present then Success(Unrecognised)
    else
      var m :- Get(msg, "m");
      if IsText(m, "depth") then Success(DepthTopic)
      else if IsText(m, "marketTrades") then Success(TradesTopic)
      else if IsText(m, "pong") then Success(Control)
      else if IsText(m, "connected") || IsText(m, "sub") then Success(Control)
      else Success(Unrecognised)
  }

  // ---------------------------------------------------------------------------
  // `_trade`

  /**
   * One trade of a `marketTrades` message. The keyword arguments are
   * evaluated in order: the message's symbol `s`, then the trade's `bm`, `q`,
   * `p` and `t`.
   */
  function TradeRecord(msg: Json, trade: Json, receipt: real, norm: Normalizer): (r: Result<Output, Error>)
    ensures Get(msg, "s").Failure? ==> r == Failure(Get(msg, "s").error)
    ensures Get(msg, "s").Success? && !trade.JObj? ==> r == Failure(TypeError)
    ensures r.Success? <==>
              Get(msg, "s").Success? && trade.JObj? && "bm" in trade.fields && "q" in trade.fields
              && "p" in trade.fields && "t" in trade.fields
              && ToDecimal(trade.fields["q"]).Success? && ToDecimal(trade.fields["p"]).Success?
    ensures r.Success? ==>
              var f := trade.fields;
              && r.value.Trade? && r.value.feed == BITMAX
              && r.value.pair == norm(msg.fields["s"])
              && r.value.orderId == None
              && (r.value.side == Sell <==> Truthy(f["bm"]))
              && r.value.amount == ToDecimal(f["q"]).value
              && r.value.price == ToDecimal(f["p"]).value
              && r.value.timestamp == f["t"]
              && r.value.receipt == receipt
  {
    var symbol :- Get(msg, "s");
    var bm :- Get(trade, "bm");
    var q :- Get(trade, "q");
    var amount :- ToDecimal(q);
    var p :- Get(trade, "p");
    var price :- ToDecimal(p);
    var t :- Get(trade, "t");
    Success(Trade(BITMAX, norm(symbol), None, if Truthy(bm) then Sell else Buy, amount, price, t, receipt))
  }

  function TradeEmit(msg: Json, receipt: real, norm: Normalizer): Json -> Emission {
    t => Single(TradeRecord(msg, t, receipt, norm))
  }

  /**
   * `_trade`: one callback per element of the message's `trades`, in order, until
   * one raises. Iterating a non-empty object visits its keys, and the first
   * key, a string, fails its `bm` subscript once the message's `s` has been read.
   */
  function Trades(msg: Json, receipt: real, norm: Normalizer): (e: Emission)
    ensures forall i :: 0 <= i < |e.out| ==> TradeOf(BITMAX, receipt, e.out[i])
    ensures Get(msg, "trades").Failure? ==> e == Emission([], Some(Get(msg, "trades").error))
    ensures Get(msg, "trades").Success? && msg.fields["trades"].JObj? && msg.fields["trades"].fields != map[] ==>
              e == Emission([], Some(if Get(msg, "s").Failure? then Get(msg, "s").error else TypeError))
  {
    match Get(msg, "trades")
    case Failure(e) => Emission([], Some(e))
    case Success(trades) =>
      if trades.JObj? && trades.fields != map[] then
        match Get(msg, "s")
        case Failure(e) => Emission([], Some(e))
        case Success(_) => Emission([], Some(TypeError))
      else
        match Items(trades)
        case Failure(e) => Emission([], Some(e))
        case Success(recs) =>
          FanOutKeeps(recs, TradeEmit(msg, receipt, norm), (o: Output) => TradeOf(BITMAX, receipt, o));
          FanOut(recs, TradeEmit(msg, receipt, norm))
  }

  /**
   * A `marketTrades` message makes one trade callback per element of
   * `trades`, in order, each converted from that element; it completes
   * exactly when every element converts, and otherwise stops at the first
   * that does not, after the callbacks of the elements before it.
   */
  lemma TradesInOrder(msg: Json, receipt: real, norm: Normalizer, recs: seq<Json>)
    requires Get(msg, "trades") == Success(JArr(recs))
    ensures var e := Trades(msg, receipt, norm);
      && (e.raised.None? <==> forall i :: 0 <= i < |recs| ==> TradeRecord(msg, recs[i], receipt, norm).Success?)
      && (e.raised.None? ==>
            |e.out| == |recs| && forall i :: 0 <= i < |recs| ==> TradeRecord(msg, recs[i], receipt, norm) == Success(e.out[i]))
      && (e.raised.Some? ==>
            exists k :: 0 <= k < |recs| && |e.out| == k
              && TradeRecord(msg, recs[k], receipt, norm).Failure?
              && e.raised == Some(TradeRecord(msg, recs[k], receipt, norm).error)
              && forall i :: 0 <= i < k ==> TradeRecord(msg, recs[i], receipt, norm) == Success(e.out[i]))
  {
    FanOutSingles(recs, TradeEmit(msg, receipt, norm), t => TradeRecord(msg, t, receipt, norm));
  }

  /**
   * Every trade callback of a message carries the pair of the message's `s`
   * and no order id, and is a sell exactly when its trade's `bm` is truthy.
   */
  lemma TradesShareSymbol(msg: Json, receipt: real, norm: Normalizer, recs: seq<Json>)
    requires Get(msg, "trades") == Success(JArr(recs))
    ensures var e := Trades(msg, receipt, norm);
      forall i :: 0 <= i < |e.out| ==>
        && e.out[i].Trade? && e.out[i].feed == BITMAX
        && Get(msg, "s").Success? && e.out[i].pair == norm(msg.fields["s"])
        && e.out[i].orderId == None
        && i < |recs| && recs[i].JObj? && "bm" in recs[i].fields
        && (e.out[i].side == Sell <==> Truthy(recs[i].fields["bm"]))
  {
    TradesInOrder(msg, receipt, norm, recs);
    var e := Trades(msg, receipt, norm);
    forall i | 0 <= i < |e.out|
      ensures i < |recs| && TradeRecord(msg, recs[i], receipt, norm) == Success(e.out[i])
    {
      if e.raised.Some? {
        var k :| 0 <= k < |recs| && |e.out| == k
          && forall j :: 0 <= j < k ==> TradeRecord(msg, recs[j], receipt, norm) == Success(e.out[j]);
      }
    }
  }

  // ---------------------------------------------------------------------------
  // `_book`

  /**
   * `_snapshot(symbol)`: the reply of the REST depth request (a parameter,
   * or the exception the request raised) must carry `data.data.ts` and
   * `data.data.seqnum`.
   */
  function Snapshot(reply: Result<Json, Error>): (r: Option<Error>)
    ensures reply.Failure? ==> r == Some(reply.error)
    ensures r.None? <==>
              reply.Success? && Get(reply.value, "data").Success?
              && Get(reply.value.fields["data"], "data").Success?
              && Get(reply.value.fields["data"].fields["data"], "ts").Success?
              && Get(reply.value.fields["data"].fields["data"], "seqnum").Success?
  {
    match reply
    case Failure(e) => Some(e)
    case Success(body) =>
      match Get(body, "data")
      case Failure(e) => Some(e)
      case Success(data) =>
        match Get(data, "data")
        case Failure(e) => Some(e)
        case Success(inner) =>
          match Get(inner, "ts")
          case Failure(e) => Some(e)
          case Success(_) =>
            match Get(inner, "seqnum")
            case Failure(e) => Some(e)
            case Success(_) => None
  }

  /**
   * `_book`: reads the symbol, fetches a snapshot when the pair has no book
   * (the reply is discarded), then reads the `seqnum` of `data`. It makes
   * no callback and changes no field; its only effect is what it raises.
   */
  function Depth(state: State, msg: Json, reply: Result<Json, Error>, norm: Normalizer): (r: Option<Error>)
    ensures Get(msg, "symbol").Failure? ==> r == Some(Get(msg, "symbol").error)
    ensures r.None? <==>
              Get(msg, "symbol").Success?
              && (norm(msg.fields["symbol"]) !in state.l2Book ==> Snapshot(reply).None?)
              && Get(msg, "data").Success? && Get(msg.fields["data"], "seqnum").Success?
  {
    match Get(msg, "symbol")
    case Failure(e) => Some(e)
    case Success(symbol) =>
      var fetched := if norm(symbol) !in state.l2Book then Snapshot(reply) else None;
      if fetched.Some? then fetched
      else
        match Get(msg, "data")
        case Failure(e) => Some(e)
        case Success(data) =>
          match Get(data, "seqnum")
          case Failure(e) => Some(e)
          case Success(_) => None
  }

  // ---------------------------------------------------------------------------
  // `message_handler`, `__reset` and `subscribe`

  /**
   * `message_handler`. No route changes the adapter's fields; a control
   * message returns silently and an unrecognised one is only logged.
   */
  function Handle(state: State, msg: Json, receipt: real, norm: Normalizer, reply: Result<Json, Error>): (o: Outcome<State>)
    ensures o.state == state
    ensures Classify(msg) == Success(Control) ==> o.out == [] && o.raised.None?
    ensures Classify(msg) == Success(Unrecognised) ==> o.out == [Log(Warning, msg)] && o.raised.None?
    ensures Classify(msg) == Success(DepthTopic) ==> o.out == []
    ensures Classify(msg).Failure? ==> o.out == [] && o.raised == Some(Classify(msg).error)
  {
    match Classify(msg)
    case Failure(e) => Outcome(state, [], Some(e))
    case Success(route) =>
      match route
      case DepthTopic => Outcome(state, [], Depth(state, msg, reply, norm))
      case TradesTopic =>
        var e := Trades(msg, receipt, norm);
        Outcome(state, e.out, e.raised)
      case Control => Outcome(state, [], None)
      case Unrecognised => Outcome(state, [Log(Warning, msg)], None)
  }

  /** `__reset`, which `subscribe` calls first: no sequence numbers and no books. */
  function Subscribe(): (s: State)
    ensures forall pair: Pair :: pair !in s.seqNum && pair !in s.l2Book
  {
    State(map[], map[])
  }

  /** `pong`, `connected` and `sub` messages return without a callback, a log line or an exception. */
  lemma ControlIsSilent(state: State, msg: Json, receipt: real, norm: Normalizer, reply: Result<Json, Error>)
    requires msg.JObj? && "m" in msg.fields
    requires IsText(msg.fields["m"], "pong") || IsText(msg.fields["m"], "connected") || IsText(msg.fields["m"], "sub")
    ensures Handle(state, msg, receipt, norm, reply) == Outcome(state, [], None)
  {
  }

  /** A message without `m`, or with an `m` naming no channel, is only logged as a warning. */
  lemma UnknownOnlyWarns(state: State, msg: Json, receipt: real, norm: Normalizer, reply: Result<Json, Error>)
    requires msg.JObj?
    requires "m" in msg.fields ==>
               var m := msg.fields["m"];
               !(IsText(m, "depth") || IsText(m, "marketTrades") || IsText(m, "pong")
                 || IsText(m, "connected") || IsText(m, "sub"))
    ensures Handle(state, msg, receipt, norm, reply) == Outcome(state, [Log(Warning, msg)], None)
  {
  }

  /** `marketTrades` messages make exactly the callbacks of `_trade`, and depth messages none. */
  lemma HandleDispatches(state: State, msg: Json, receipt: real, norm: Normalizer, reply: Result<Json, Error>)
    ensures var o := Handle(state, msg, receipt, norm, reply);
      && (Classify(msg) == Success(TradesTopic) ==>
            o.out == Trades(msg, receipt, norm).out && o.raised == Trades(msg, receipt, norm).raised)
      && (Classify(msg) == Success(DepthTopic) ==> o.out == [] && o.raised == Depth(state, msg, reply, norm))
  {
  }

  /**
   * Nothing ever writes `l2_book`, so after `subscribe` every depth message
   * asks for a snapshot: one whose request fails raises that failure.
   */
  lemma DepthAfterSubscribe(msg: Json, receipt: real, norm: Normalizer, e: Error)
    requires Classify(msg) == Success(DepthTopic) && Get(msg, "symbol").Success?
    ensures var o := Handle(Subscribe(), msg, receipt, norm, Failure(e));
      o.state == Subscribe() && o.out == [] && o.raised == Some(e)
  {
  }
}
