/**
 * The canonical events the adapters hand to their callbacks, and the two loop
 * shapes every handler uses: fan one record out into callbacks until a record
 * raises, and decode the records of a list up to the first that raises.
 */
module Events {
  import opened Wrappers
  import opened Errors
  import opened Json
  import opened OrderBook

  datatype Exchange = BYBIT | BITMAX

  datatype TradeSide = Buy | Sell

  datatype LogLevel = Debug | ErrorLevel | Warning

  /** `pair_exchange_to_std`: the symbol table, left uninterpreted. */
  type Normalizer = Json -> Pair

  /**
   * One callback invocation. Exchange timestamps are carried as the raw JSON
   * value the source hands to its time normaliser; `receipt` is the local
   * receipt time passed into `message_handler`.
   */
  datatype Output =
    | Trade(feed: Exchange, pair: Pair, orderId: Option<Json>, side: TradeSide,
            amount: real, price: real, timestamp: Json, receipt: real)
    | BookUpdate(feed: Exchange, pair: Pair, book: Book, forced: bool, delta: Delta,
                 timestamp: Json, receipt: real)
    | OpenInterest(feed: Exchange, pair: Pair, openInterest: Json, timestamp: Json, receipt: real)
    | FuturesIndex(feed: Exchange, pair: Pair, indexE4: Json, timestamp: Json, receipt: real)
    | Log(level: LogLevel, message: Json)

  /** A trade callback of `feed` stamped with the receipt time `receipt`. */
  predicate TradeOf(feed: Exchange, receipt: real, o: Output) {
    o.Trade? && o.feed == feed && o.receipt == receipt
  }

  /** The callbacks made while handling something, in order, and the exception that ended it, if any. */
  datatype Emission = Emission(out: seq<Output>, raised: Option<Error>)

  /** The new adapter state together with an `Emission`. */
  datatype Outcome<S> = Outcome(state: S, out: seq<Output>, raised: Option<Error>)

  /** A record that becomes exactly one callback, or raises before making it. */
  function Single(r: Result<Output, Error>): Emission {
    match r
    case Success(o) => Emission([o], None)
    case Failure(e) => Emission([], Some(e))
  }

  /** `for x in items: <callbacks for x>`: the first record that raises ends the loop. */
  function FanOut(items: seq<Json>, f: Json -> Emission): Emission
    decreases |items|
  {
    if |items| == 0 then Emission([], None)
    else
      var first := f(items[0]);
      if first.raised.Some? then first
      else
        var rest := FanOut(items[1..], f);
        Emission(first.out + rest.out, rest.raised)
  }

  /** Every record's callbacks, concatenated in order (the reference for `FanOut`). */
  function AllOut(items: seq<Json>, f: Json -> Emission): seq<Output>
    decreases |items|
  {
    if |items| == 0 then [] else f(items[0]).out + AllOut(items[1..], f)
  }

  /**
   * The loop completes exactly when no record raises, and then its callbacks
   * are every record's callbacks in order.
   */
  lemma {:induction false} FanOutCompletes(items: seq<Json>, f: Json -> Emission)
    ensures var r := FanOut(items, f);
      && (r.raised.None? <==> forall i :: 0 <= i < |items| ==> f(items[i]).raised.None?)
      && (r.raised.None? ==> r.out == AllOut(items, f))
    decreases |items|
  {
    if |items| > 0 {
      var rest := items[1..];
      FanOutCompletes(rest, f);
      assert forall i :: 0 < i < |items| ==> items[i] == rest[i - 1];
    }
  }

  /**
   * A loop that raises stops at the first record that raises, after the
   * callbacks of the records before it and whatever that record made before
   * raising.
   */
  lemma {:induction false} FanOutStops(items: seq<Json>, f: Json -> Emission)
    ensures var r := FanOut(items, f);
      r.raised.Some? ==>
        exists k :: 0 <= k < |items|
          && (forall i :: 0 <= i < k ==> f(items[i]).raised.None?)
          && r.raised == f(items[k]).raised
          && r.out == AllOut(items[..k], f) + f(items[k]).out
    decreases |items|
  {
    if |items| == 0 {
      return;
    }
    var first, rest := f(items[0]), items[1..];
    if first.raised.Some? {
      assert items[..0] == [];
      assert AllOut([], f) + first.out == first.out;
      return;
    }
    FanOutStops(rest, f);
    var rr := FanOut(rest, f);
    if rr.raised.Some? {
      var k :| 0 <= k < |rest|
        && (forall i :: 0 <= i < k ==> f(rest[i]).raised.None?)
        && rr.raised == f(rest[k]).raised
        && rr.out == AllOut(rest[..k], f) + f(rest[k]).out;
      assert items[..k + 1][1..] == rest[..k];
      assert AllOut(items[..k + 1], f) == first.out + AllOut(rest[..k], f);
      Assoc(first.out, AllOut(rest[..k], f), f(rest[k]).out);
      assert forall i :: 0 < i <= k ==> items[i] == rest[i - 1];
      assert items[k + 1] == rest[k];
    }
  }

  /**
   * A loop whose every record makes exactly one callback or raises before
   * making it: one callback per record, in order, up to the first record
   * that raises, whose exception ends the loop.
   */
  lemma {:induction false} FanOutSingles(items: seq<Json>, f: Json -> Emission, g: Json -> Result<Output, Error>)
    requires forall x :: f(x) == Single(g(x))
    ensures var e := FanOut(items, f);
      && (e.raised.None? <==> forall i :: 0 <= i < |items| ==> g(items[i]).Success?)
      && (e.raised.None? ==> |e.out| == |items| && forall i :: 0 <= i < |items| ==> g(items[i]) == Success(e.out[i]))
      && (e.raised.Some? ==>
            exists k :: 0 <= k < |items| && |e.out| == k
              && g(items[k]).Failure? && e.raised == Some(g(items[k]).error)
              && forall i :: 0 <= i < k ==> g(items[i]) == Success(e.out[i]))
    decreases |items|
  {
    if |items| == 0 {
      return;
    }
    var e := FanOut(items, f);
    var rest := items[1..];
    assert f(items[0]) == Single(g(items[0]));
    if g(items[0]).Failure? {
      assert e == Emission([], Some(g(items[0]).error));
      return;
    }
    FanOutSingles(rest, f, g);
    var er := FanOut(rest, f);
    assert e == Emission([g(items[0]).value] + er.out, er.raised);
    assert forall i :: 0 < i < |items| ==> items[i] == rest[i - 1];
    if e.raised.Some? {
      var k :| 0 <= k < |rest| && |er.out| == k
        && g(rest[k]).Failure? && er.raised == Some(g(rest[k]).error)
        && forall i :: 0 <= i < k ==> g(rest[i]) == Success(er.out[i]);
      assert items[k + 1] == rest[k];
      assert forall i :: 0 < i < k + 1 ==> g(items[i]) == Success(e.out[i]);
    }
  }

  /** A property every callback of every record has is had by every callback of the loop. */
  lemma {:induction false} FanOutKeeps(items: seq<Json>, f: Json -> Emission, p: Output -> bool)
    requires forall x, i :: 0 <= i < |f(x).out| ==> p(f(x).out[i])
    ensures forall i :: 0 <= i < |FanOut(items, f).out| ==> p(FanOut(items, f).out[i])
    decreases |items|
  {
    if |items| > 0 && f(items[0]).raised.None? {
      FanOutKeeps(items[1..], f, p);
    }
  }

  /** The records of a list decoded in order up to the first that raises, and that exception. */
  datatype Decoded<T> = Decoded(values: seq<T>, failure: Option<Error>)

  function DecodePrefix<T>(recs: seq<Json>, decode: Json -> Result<T, Error>): (d: Decoded<T>)
    ensures |d.values| <= |recs|
    ensures forall i :: 0 <= i < |d.values| ==> decode(recs[i]) == Success(d.values[i])
    ensures d.failure.None? <==> |d.values| == |recs|
    ensures d.failure.Some? ==> decode(recs[|d.values|]) == Failure(d.failure.value)
    decreases |recs|
  {
    if |recs| == 0 then Decoded([], None)
    else
      match decode(recs[0])
      case Failure(e) => Decoded([], Some(e))
      case Success(v) =>
        var rest := DecodePrefix(recs[1..], decode);
        Decoded([v] + rest.values, rest.failure)
  }
}
