/**
 * The Bybit adapter: `message_handler` routes a parsed message to `_trade`,
 * `_book` or `_instrument_info`, or logs it; `subscribe` resets the book
 * store. The book reconciler itself lives in `BybitBook`.
 */
module Bybit {
  import opened Wrappers
  import opened Errors
  import opened Json
  import opened Numeric
  import opened OrderBook
  import opened Events
  import opened BybitBook

  /** Where `message_handler` sends a message. */
  datatype Route = Ack(ok: bool) | TradeTopic | BookTopic | InstrumentTopic | Unrecognised

  /** `key in t` for a dict or list topic: a key of the dict, or an element of the list. */
  predicate Member(key: string, t: Json) {
    (t.JObj? && key in t.fields) || (t.JArr? && JStr(key) in t.items)
  }

  /**
   * The `if`/`elif` chain of `message_handler`: a message with a `success`
   * key is an acknowledgement; otherwise the first of `trade`, `orderBook`
   * and `instrument_info` found in the topic wins.
   */
  function Classify(msg: Json): (r: Result<Route, Error>)
    ensures !(msg.JObj? || msg.JArr? || msg.JStr?) ==> r == Failure(TypeError)
    ensures msg.JObj? ==> ((r.Success? && r.value.Ack?) <==> "success" in msg.fields)
    ensures msg.JObj? && "success" in msg.fields ==> r == Success(Ack(Truthy(msg.fields["success"])))
    ensures msg.JObj? && "success" !in msg.fields && "topic" !in msg.fields ==> r == Failure(MissingKey("topic"))
    ensures msg.JObj? && "success" !in msg.fields && "topic" in msg.fields && msg.fields["topic"].JStr? ==>
              var t := msg.fields["topic"].s;
              && (r == Success(TradeTopic) <==> Occurs("trade", t))
              && (r == Success(BookTopic) <==> !Occurs("trade", t) && Occurs("orderBook", t))
              && (r == Success(InstrumentTopic) <==>
                    !Occurs("trade", t) && !Occurs("orderBook", t) && Occurs("instrument_info", t))
              && (r == Success(Unrecognised) <==>
                    !Occurs("trade", t) && !Occurs("orderBook", t) && !Occurs("instrument_info", t))
    ensures msg.JObj? && "success" !in msg.fields && "topic" in msg.fields && (msg.fields["topic"].JObj? || msg.fields["topic"].JArr?) ==>
              var t := msg.fields["topic"];
              && (r == Success(TradeTopic) <==> Member("trade", t))
              && (r == Success(BookTopic) <==> !Member("trade", t) && Member("orderBook", t))
              && (r == Success(InstrumentTopic) <==>
                    !Member("trade", t) && !Member("orderBook", t) && Member("instrument_info", t))
              && (r == Success(Unrecognised) <==>
                    !Member("trade", t) && !Member("orderBook", t) && !Member("instrument_info", t))
    ensures msg.JObj? && "success" !in msg.fields && "topic" in msg.fields && !(msg.fields["topic"].JObj? || msg.fields["topic"].JArr? || msg.fields["topic"].JStr?) ==>
              r == Failure(TypeError)
  {
    var acknowledged :- Contains(msg, "success");
    if acknowledged then
      var ok :- Get(msg, "success");
      Success(Ack(Truthy(ok)))
    else
      var topic :- Get(msg, "topic");
      var isTrade :- Contains(topic, "trade");
      // A topic that supports the first `in` test supports the others.
      if isTrade then Success(TradeTopic)
      else if Contains(topic, "orderBook") == Success(true) then Success(BookTopic)
      else if Contains(topic, "instrument_info") == Success(true) then Success(InstrumentTopic)
      else Success(Unrecognised)
  }

  // ---------------------------------------------------------------------------
  // `_trade`

  /**
   * One trade record. The keyword arguments are evaluated in order: symbol,
   * trade id, side, size, price, then the trade time.
   */
  function TradeRecord(trade: Json, receipt: real, norm: Normalizer): (r: Result<Output, Error>)
    ensures !trade.JObj? ==> r == Failure(TypeError)
    ensures trade.JObj? && "symbol" !in trade.fields ==> r == Failure(MissingKey("symbol"))
    ensures r.Success? <==>
              trade.JObj? && "symbol" in trade.fields && "trade_id" in trade.fields && "side" in trade.fields
              && "size" in trade.fields && "price" in trade.fields && "trade_time_ms" in trade.fields
              && ToDecimal(trade.fields["size"]).Success? && ToDecimal(trade.fields["price"]).Success?
    ensures r.Success? ==>
              var f := trade.fields;
              && r.value.Trade? && r.value.feed == BYBIT
              && r.value.pair == norm(f["symbol"])
              && r.value.orderId == Some(f["trade_id"])
              && (r.value.side == Buy <==> IsText(f["side"], "Buy"))
              && r.value.amount == ToDecimal(f["size"]).value
              && r.value.price == ToDecimal(f["price"]).value
              && r.value.timestamp == f["trade_time_ms"]
              && r.value.receipt == receipt
    ensures r.Failure? ==> r.error.MissingKey? || r.error == TypeError || r.error == InvalidDecimal
  {
    var symbol :- Get(trade, "symbol");
    var id :- Get(trade, "trade_id");
    var side :- Get(trade, "side");
    var s :- Get(trade, "size");
    var amount :- ToDecimal(s);
    var p :- Get(trade, "price");
    var price :- ToDecimal(p);
    var time :- Get(trade, "trade_time_ms");
    Success(Trade(BYBIT, norm(symbol), Some(id), if IsText(side, "Buy") then Buy else Sell,
                  amount, price, time, receipt))
  }

  function TradeEmit(receipt: real, norm: Normalizer): Json -> Emission {
    t => Single(TradeRecord(t, receipt, norm))
  }

  /**
   * `_trade`: one callback per element of the message's `data`, in order,
   * until one raises. Every callback is a Bybit trade stamped with the
   * receipt time; a missing `data` raises KeyError before any callback.
   */
  function Trades(msg: Json, receipt: real, norm: Normalizer): (e: Emission)
    ensures forall i :: 0 <= i < |e.out| ==> TradeOf(BYBIT, receipt, e.out[i])
    ensures Get(msg, "data").Failure? ==> e == Emission([], Some(Get(msg, "data").error))
    ensures Get(msg, "data").Success? && Items(msg.fields["data"]).Failure? ==> e == Emission([], Some(TypeError))
  {
    match Get(msg, "data")
    case Failure(e) => Emission([], Some(e))
    case Success(data) =>
      match Items(data)
      case Failure(e) => Emission([], Some(e))
      case Success(recs) =>
        FanOutKeeps(recs, TradeEmit(receipt, norm), (o: Output) => TradeOf(BYBIT, receipt, o));
        FanOut(recs, TradeEmit(receipt, norm))
  }

  /**
   * A trade message makes one trade callback per record, in order, each
   * carrying that record's fields; it completes exactly when every record
   * converts, and otherwise stops at the first that does not, after the
   * callbacks of the records before it.
   */
  lemma TradesInOrder(msg: Json, receipt: real, norm: Normalizer, recs: seq<Json>)
    requires Get(msg, "data") == Success(JArr(recs))
    ensures var e := Trades(msg, receipt, norm);
      && (e.raised.None? <==> forall i :: 0 <= i < |recs| ==> TradeRecord(recs[i], receipt, norm).Success?)
      && (e.raised.None? ==>
            |e.out| == |recs| && forall i :: 0 <= i < |recs| ==> TradeRecord(recs[i], receipt, norm) == Success(e.out[i]))
      && (e.raised.Some? ==>
            exists k :: 0 <= k < |recs| && |e.out| == k
              && TradeRecord(recs[k], receipt, norm).Failure?
              && e.raised == Some(TradeRecord(recs[k], receipt, norm).error)
              && forall i :: 0 <= i < k ==> TradeRecord(recs[i], receipt, norm) == Success(e.out[i]))
  {
    FanOutSingles(recs, TradeEmit(receipt, norm), t => TradeRecord(t, receipt, norm));
  }

  // ---------------------------------------------------------------------------
  // `_instrument_info`

  /** The open-interest callback of one record: symbol, open interest, then `updated_at`. */
  function OpenInterestEvent(info: Json, receipt: real, norm: Normalizer): Result<Output, Error> {
    var symbol :- Get(info, "symbol");
    var oi :- Get(info, "open_interest");
    var at :- Get(info, "updated_at");
    Success(OpenInterest(BYBIT, norm(symbol), oi, at, receipt))
  }

  /** The futures-index callback of one record: symbol, index price, then `updated_at`. */
  function IndexEvent(info: Json, receipt: real, norm: Normalizer): Result<Output, Error> {
    var symbol :- Get(info, "symbol");
    var index :- Get(info, "index_price_e4");
    var at :- Get(info, "updated_at");
    Success(FuturesIndex(BYBIT, norm(symbol), index, at, receipt))
  }

  /**
   * One instrument record: an open-interest callback when the record has
   * `open_interest`, then a futures-index callback when it has
   * `index_price_e4`.
   */
  function InfoRecord(info: Json, receipt: real, norm: Normalizer): (e: Emission)
    ensures |e.out| <= 2 && forall i :: 0 <= i < |e.out| ==> InfoEvent(e.out[i], receipt)
    ensures !(info.JObj? || info.JArr? || info.JStr?) ==> e == Emission([], Some(TypeError))
    ensures info.JObj? && "open_interest" !in info.fields && "index_price_e4" !in info.fields ==>
              e == Emission([], None)
    ensures info.JObj? && "symbol" !in info.fields && ("open_interest" in info.fields || "index_price_e4" in info.fields) ==>
              e == Emission([], Some(MissingKey("symbol")))
    ensures info.JObj? && "symbol" in info.fields && "updated_at" in info.fields ==>
              var f := info.fields;
              var oi := if "open_interest" in f then [OpenInterest(BYBIT, norm(f["symbol"]), f["open_interest"], f["updated_at"], receipt)] else [];
              var ix := if "index_price_e4" in f then [FuturesIndex(BYBIT, norm(f["symbol"]), f["index_price_e4"], f["updated_at"], receipt)] else [];
              e == Emission(oi + ix, None)
  {
    match Contains(info, "open_interest")
    case Failure(err) => Emission([], Some(err))
    case Success(hasInterest) =>
      var first := if hasInterest then Single(OpenInterestEvent(info, receipt, norm)) else Emission([], None);
      if first.raised.Some? then first
      else
        match Contains(info, "index_price_e4")
        case Failure(err) => Emission(first.out, Some(err))
        case Success(hasIndex) =>
          var second := if hasIndex then Single(IndexEvent(info, receipt, norm)) else Emission([], None);
          Emission(first.out + second.out, second.raised)
  }

  /** An open-interest or futures-index callback of Bybit stamped with `receipt`. */
  predicate InfoEvent(o: Output, receipt: real) {
    (o.OpenInterest? || o.FuturesIndex?) && o.feed == BYBIT && o.receipt == receipt
  }

  function InfoEmit(receipt: real, norm: Normalizer): Json -> Emission {
    info => InfoRecord(info, receipt, norm)
  }

  /** The list `_instrument_info` loops over (bybit.py:130-133): `data` alone for a snapshot, else the `update` list of `data`. */
  function InfoList(msg: Json): (r: Result<Json, Error>)
    ensures Get(msg, "type").Success? && Get(msg, "data").Success? && IsText(msg.fields["type"], "snapshot") ==>
              r == Success(JArr([msg.fields["data"]]))
    ensures Get(msg, "type").Success? && Get(msg, "data").Success? && !IsText(msg.fields["type"], "snapshot") ==>
              r == Get(msg.fields["data"], "update")
    ensures Get(msg, "type").Failure? ==> r == Failure(Get(msg, "type").error)
  {
    var updateType :- Get(msg, "type");
    var data :- Get(msg, "data");
    if IsText(updateType, "snapshot") then Success(JArr([data])) else Get(data, "update")
  }

  /**
   * `for info in updates` over a non-empty object visits its keys: a key
   * naming neither field makes no callback, and one containing either
   * field's name raises TypeError when the body subscripts the key string. Which key comes first
   * does not change the outcome.
   */
  function KeyVisit(m: map<string, Json>): (e: Emission)
    ensures e.out == []
    ensures e.raised.Some? <==> exists k :: k in m && (Occurs("open_interest", k) || Occurs("index_price_e4", k))
    ensures e.raised.Some? ==> e.raised == Some(TypeError)
  {
    if exists k :: k in m && (IsSubstring("open_interest", k) || IsSubstring("index_price_e4", k))
    then Emission([], Some(TypeError))
    else Emission([], None)
  }

  /** A key string the loop body raises on: it contains the name of either field. */
  ghost predicate Hit(k: string) {
    Occurs("open_interest", k) || Occurs("index_price_e4", k)
  }

  /** The key strings a loop over an object visits, in the order given. */
  function Strs(ks: seq<string>): (r: seq<Json>)
    ensures |r| == |ks|
    ensures forall i :: 0 <= i < |ks| ==> r[i] == JStr(ks[i])
  {
    if |ks| == 0 then [] else [JStr(ks[0])] + Strs(ks[1..])
  }

  /**
   * The loop body run on a key string: a key naming either field reaches
   * the `symbol` subscript of a string and raises TypeError; any other key makes
   * nothing.
   */
  lemma KeyRecord(k: string, receipt: real, norm: Normalizer)
    ensures InfoRecord(JStr(k), receipt, norm) == if Hit(k) then Emission([], Some(TypeError)) else Emission([], None)
  {
  }

  /** Running the loop body over key strings in any order raises TypeError iff one of them is a hit. */
  lemma {:induction false} VisitKeys(ks: seq<string>, receipt: real, norm: Normalizer)
    ensures FanOut(Strs(ks), InfoEmit(receipt, norm))
         == if exists i :: 0 <= i < |ks| && Hit(ks[i]) then Emission([], Some(TypeError)) else Emission([], None)
    decreases |ks|
  {
    if |ks| > 0 {
      var f := InfoEmit(receipt, norm);
      KeyRecord(ks[0], receipt, norm);
      assert Strs(ks)[1..] == Strs(ks[1..]);
      VisitKeys(ks[1..], receipt, norm);
      assert forall i :: 0 < i < |ks| ==> ks[i] == ks[1..][i - 1];
      if !Hit(ks[0]) {
        assert (exists i :: 0 <= i < |ks| && Hit(ks[i])) <==> (exists i :: 0 <= i < |ks[1..]| && Hit(ks[1..][i]));
      }
    }
  }

  /**
   * `for info in updates` over a non-empty object is the loop body run on its
   * keys: whatever order they are visited in, the outcome is `KeyVisit`.
   */
  lemma KeyVisitIsTheLoop(msg: Json, receipt: real, norm: Normalizer, m: map<string, Json>, ks: seq<string>)
    requires InfoList(msg) == Success(JObj(m)) && m != map[]
    requires forall k :: k in m <==> k in ks
    ensures InstrumentInfo(msg, receipt, norm) == FanOut(Strs(ks), InfoEmit(receipt, norm))
  {
    VisitKeys(ks, receipt, norm);
    if exists k :: k in m && Hit(k) {
      var k :| k in m && Hit(k);
      var i :| 0 <= i < |ks| && ks[i] == k;
    }
  }

  /**
   * `_instrument_info`: the records of the update list in order, each making
   * its open-interest and futures-index callbacks, until one raises. Only
   * such callbacks are made, and an unreadable `type` or `data` raises
   * before any.
   */
  function InstrumentInfo(msg: Json, receipt: real, norm: Normalizer): (e: Emission)
    ensures forall i :: 0 <= i < |e.out| ==> InfoEvent(e.out[i], receipt)
    ensures InfoList(msg).Failure? ==> e == Emission([], Some(InfoList(msg).error))
  {
    match InfoList(msg)
    case Failure(err) => Emission([], Some(err))
    case Success(updates) =>
      if updates.JObj? && updates.fields != map[] then KeyVisit(updates.fields)
      else
        match Items(updates)
        case Failure(err) => Emission([], Some(err))
        case Success(recs) =>
          FanOutKeeps(recs, InfoEmit(receipt, norm), (o: Output) => InfoEvent(o, receipt));
          FanOut(recs, InfoEmit(receipt, norm))
  }

  /** A snapshot reads the single record `data`. */
  lemma InfoSnapshotSingle(msg: Json, receipt: real, norm: Normalizer)
    requires Get(msg, "type") == Success(JStr("snapshot")) && Get(msg, "data").Success?
    ensures InstrumentInfo(msg, receipt, norm) == InfoRecord(msg.fields["data"], receipt, norm)
  {
    var f := InfoEmit(receipt, norm);
    var data := msg.fields["data"];
    var first := f(data);
    assert FanOut([data], f) == if first.raised.Some? then first else Emission(first.out + [], None);
    assert first.out + [] == first.out;
  }

  /**
   * Any other type reads only the `update` list of `data`: two messages of the same
   * type whose `update` lists agree make the same callbacks and raise the
   * same, whatever their `delete` and `insert` lists hold.
   */
  lemma InfoDeltaReadsUpdate(msg1: Json, msg2: Json, receipt: real, norm: Normalizer)
    requires Get(msg1, "type").Success? && Get(msg1, "type") == Get(msg2, "type")
    requires !IsText(msg1.fields["type"], "snapshot")
    requires Get(msg1, "data").Success? && Get(msg2, "data").Success?
    requires Get(msg1.fields["data"], "update") == Get(msg2.fields["data"], "update")
    ensures InstrumentInfo(msg1, receipt, norm) == InstrumentInfo(msg2, receipt, norm)
  {
    assert InfoList(msg1) == InfoList(msg2);
  }

  /**
   * An update list of well-formed records makes, per record in order, an
   * open-interest callback when it has `open_interest` and then a
   * futures-index callback when it has `index_price_e4`.
   */
  lemma InfoEventsInOrder(msg: Json, receipt: real, norm: Normalizer, recs: seq<Json>)
    requires InfoList(msg) == Success(JArr(recs))
    requires forall i :: 0 <= i < |recs| ==> recs[i].JObj? && "symbol" in recs[i].fields && "updated_at" in recs[i].fields
    ensures var e := InstrumentInfo(msg, receipt, norm);
      && e.raised.None?
      && e.out == AllOut(recs, InfoEmit(receipt, norm))
      && forall i :: 0 <= i < |recs| ==>
           var r := InfoEmit(receipt, norm)(recs[i]);
           && r.raised.None?
           && |r.out| == (if "open_interest" in recs[i].fields then 1 else 0)
                         + (if "index_price_e4" in recs[i].fields then 1 else 0)
  {
    var f := InfoEmit(receipt, norm);
    FanOutCompletes(recs, f);
  }

  // ---------------------------------------------------------------------------
  // `message_handler`, `__reset` and `subscribe`

  /** `message_handler`: the store changes only through `_book`. */
  function Handle(store: Store, msg: Json, receipt: real, norm: Normalizer): (o: Outcome<Store>)
    ensures Classify(msg) != Success(BookTopic) ==> o.state == store
    ensures Classify(msg).Success? && Classify(msg).value.Ack? ==>
              o.out == [Log(if Classify(msg).value.ok then Debug else ErrorLevel, msg)] && o.raised.None?
    ensures Classify(msg) == Success(Unrecognised) ==> o.out == [Log(Warning, msg)] && o.raised.None?
    ensures Classify(msg).Failure? ==> o.out == [] && o.raised == Some(Classify(msg).error)
  {
    match Classify(msg)
    case Failure(e) => Outcome(store, [], Some(e))
    case Success(route) => Dispatch(store, route, msg, receipt, norm)
  }

  /** The branch of `message_handler` a classified message takes. */
  function Dispatch(store: Store, route: Route, msg: Json, receipt: real, norm: Normalizer): Outcome<Store> {
    match route
    case Ack(ok) => Outcome(store, [Log(if ok then Debug else ErrorLevel, msg)], None)
    case TradeTopic =>
      var e := Trades(msg, receipt, norm);
      Outcome(store, e.out, e.raised)
    case BookTopic => BookMessage(store, msg, receipt, norm)
    case InstrumentTopic =>
      var e := InstrumentInfo(msg, receipt, norm);
      Outcome(store, e.out, e.raised)
    case Unrecognised => Outcome(store, [Log(Warning, msg)], None)
  }

  /** `__reset`, which `subscribe` calls first: no pair has a book. */
  function Subscribe(): (store: Store)
    ensures forall pair: Pair :: pair !in store
  {
    map[]
  }

  /**
   * An acknowledgement is only logged, at debug level when `success` is
   * truthy and at error level otherwise; no handler runs and the books are
   * untouched.
   */
  lemma AckOnlyLogs(store: Store, msg: Json, receipt: real, norm: Normalizer)
    requires msg.JObj? && "success" in msg.fields
    ensures Handle(store, msg, receipt, norm)
         == Outcome(store, [Log(if Truthy(msg.fields["success"]) then Debug else ErrorLevel, msg)], None)
  {
  }

  /** A topic naming none of the three channels is only logged as a warning. */
  lemma UnrecognisedOnlyWarns(store: Store, msg: Json, receipt: real, norm: Normalizer)
    requires msg.JObj? && "success" !in msg.fields && "topic" in msg.fields && msg.fields["topic"].JStr?
    requires var t := msg.fields["topic"].s;
      !Occurs("trade", t) && !Occurs("orderBook", t) && !Occurs("instrument_info", t)
    ensures Handle(store, msg, receipt, norm) == Outcome(store, [Log(Warning, msg)], None)
  {
  }

  /**
   * Only `_book` touches the store, and then only the book of the topic's
   * pair; every handled message either raises without a callback or makes
   * its callbacks and returns.
   */
  lemma HandleFrame(store: Store, msg: Json, receipt: real, norm: Normalizer)
    ensures var o := Handle(store, msg, receipt, norm);
      && (Classify(msg) != Success(BookTopic) ==> o.state == store)
      && (Classify(msg) == Success(BookTopic) && BookPair(msg, norm).Success? ==>
            o.state - {BookPair(msg, norm).value} == store - {BookPair(msg, norm).value})
      && (Classify(msg) == Success(BookTopic) && BookPair(msg, norm).Failure? ==> o.state == store)
  {
    if Classify(msg) == Success(BookTopic) {
      BookMessageFrame(store, msg, receipt, norm);
    }
  }

  /** Trade and instrument messages make exactly the callbacks of their handler. */
  lemma HandleDispatches(store: Store, msg: Json, receipt: real, norm: Normalizer)
    ensures var o := Handle(store, msg, receipt, norm);
      && (Classify(msg) == Success(TradeTopic) ==>
            o == Outcome(store, Trades(msg, receipt, norm).out, Trades(msg, receipt, norm).raised))
      && (Classify(msg) == Success(InstrumentTopic) ==>
            o == Outcome(store, InstrumentInfo(msg, receipt, norm).out, InstrumentInfo(msg, receipt, norm).raised))
      && (Classify(msg) == Success(BookTopic) ==> o == BookMessage(store, msg, receipt, norm))
  {
  }

  /**
   * Right after `subscribe` no pair has a book, so an incremental book
   * message raises and leaves the store empty; only a snapshot creates a book.
   * When its records all decode, it raises the KeyError of the missing book.
   */
  lemma IncrementalAfterSubscribe(msg: Json, receipt: real, norm: Normalizer)
    requires Classify(msg) == Success(BookTopic) && BookPair(msg, norm).Success?
    requires Get(msg, "type").Success? && !IsText(msg.fields["type"], "snapshot")
    ensures var o := Handle(Subscribe(), msg, receipt, norm);
      o.state == map[] && o.out == [] && o.raised.Some?
    ensures Get(msg, "data").Success? && IncrementalDecodes(msg.fields["data"]) ==>
              Handle(Subscribe(), msg, receipt, norm).raised == Some(MissingBook(BookPair(msg, norm).value))
  {
    IncrementalWithoutBook(Subscribe(), msg, receipt, norm, BookPair(msg, norm).value);
  }
}
