/**
 * `Bybit._book`: reconciling an `orderBook` topic message with the pair's book.
 * A `snapshot` replaces the pair's book; any other type is an incremental
 * message whose `delete` entries are applied first, then `update`, then
 * `insert`. There is no sequence-number check.
 */
module BybitBook {
  import opened Wrappers
  import opened Errors
  import opened Json
  import opened Numeric
  import opened OrderBook
  import opened Events

  /** The side of a record (bybit.py:187): bid when its `side` is the string `Buy`, ask for any other value. */
  function SideOf(rec: Json): (r: Result<Side, Error>)
    ensures r.Success? <==> Get(rec, "side").Success?
    ensures r.Success? ==> (r.value == Bid <==> IsText(rec.fields["side"], "Buy"))
  {
    var s :- Get(rec, "side");
    Success(if IsText(s, "Buy") then Bid else Ask)
  }

  /** A `delete` record: its side, then its price as a decimal. */
  function DeleteKey(rec: Json): (r: Result<Key, Error>)
    ensures r.Success? <==> SideOf(rec).Success? && Get(rec, "price").Success?
                            && ToDecimal(rec.fields["price"]).Success?
    ensures r.Success? ==> r.value == Key(SideOf(rec).value, ToDecimal(rec.fields["price"]).value)
  {
    var side :- SideOf(rec);
    var p :- Get(rec, "price");
    var price :- ToDecimal(p);
    Success(Key(side, price))
  }

  /** An `update` or `insert` record: its side, then its price, then its size, as decimals. */
  function UpdateLevel(rec: Json): (r: Result<Level, Error>)
    ensures r.Success? <==> SideOf(rec).Success?
                            && Get(rec, "price").Success? && ToDecimal(rec.fields["price"]).Success?
                            && Get(rec, "size").Success? && ToDecimal(rec.fields["size"]).Success?
    ensures r.Success? ==> r.value == Level(SideOf(rec).value, ToDecimal(rec.fields["price"]).value,
                                            ToDecimal(rec.fields["size"]).value)
  {
    var side :- SideOf(rec);
    var p :- Get(rec, "price");
    var price :- ToDecimal(p);
    var s :- Get(rec, "size");
    var size :- ToDecimal(s);
    Success(Level(side, price, size))
  }

  /**
   * A snapshot record (bybit.py:188). Python evaluates the right-hand side of
   * the level assignment first, so the size is read before the price.
   */
  function SnapshotLevel(rec: Json): (r: Result<Level, Error>)
    ensures r.Success? <==> SideOf(rec).Success?
                            && Get(rec, "size").Success? && ToDecimal(rec.fields["size"]).Success?
                            && Get(rec, "price").Success? && ToDecimal(rec.fields["price"]).Success?
    ensures r.Success? ==> r.value == Level(SideOf(rec).value, ToDecimal(rec.fields["price"]).value,
                                            ToDecimal(rec.fields["size"]).value)
    ensures Get(rec, "side").Success? && Get(rec, "size").Failure? ==> r == Failure(Get(rec, "size").error)
  {
    var side :- SideOf(rec);
    var s :- Get(rec, "size");
    var size :- ToDecimal(s);
    var p :- Get(rec, "price");
    var price :- ToDecimal(p);
    Success(Level(side, price, size))
  }

  /**
   * The delete loop over raw records. Decoding has no effects, so running the
   * loop on the records that decode and then raising the first decoding
   * error, if the loop got that far, is the interleaved Python loop.
   */
  function DeleteRecords(store: Store, pair: Pair, recs: seq<Json>, delta: Delta): Run {
    var d := DecodePrefix(recs, DeleteKey);
    var r := DeleteAll(store, pair, d.values, delta);
    if r.raised.None? && d.failure.Some? then r.(raised := d.failure) else r
  }

  /** An upsert loop over raw records, decoded by `decode`. */
  function UpsertRecords(store: Store, pair: Pair, recs: seq<Json>, decode: Json -> Result<Level, Error>,
                         delta: Delta): Run {
    var d := DecodePrefix(recs, decode);
    var r := UpsertAll(store, pair, d.values, delta);
    if r.raised.None? && d.failure.Some? then r.(raised := d.failure) else r
  }

  /**
   * Snapshot: the pair's book is replaced by an empty one before its records
   * are read, then every level is written; the delta stays empty. The pair
   * has a book afterwards, even when the loop raises, and no other pair's
   * book changes.
   */
  function ApplySnapshot(store: Store, pair: Pair, data: Json): (r: Run)
    ensures r.store - {pair} == store - {pair} && pair in r.store
    ensures r.delta == NoChange
    ensures Items(data).Failure? ==> r == Run(store[pair := EmptyBook], NoChange, Some(TypeError))
  {
    var s := store[pair := EmptyBook];
    assert s - {pair} == store - {pair};
    match Items(data)
    case Failure(e) => Run(s, NoChange, Some(e))
    case Success(recs) =>
      var r := UpsertRecords(s, pair, recs, SnapshotLevel, NoChange);
      r.(delta := NoChange)
  }

  /** `for update in data[key]: ...` for `key` in ('update', 'insert'), continuing run `r`. */
  function UpsertPhase(r: Run, pair: Pair, data: Json, key: string): (r': Run)
    ensures r'.store - {pair} == r.store - {pair} && (pair in r'.store <==> pair in r.store)
    ensures pair !in r.store ==> r'.store == r.store
  {
    match Get(data, key)
    case Failure(e) => r.(raised := Some(e))
    case Success(list) =>
      match Items(list)
      case Failure(e) => r.(raised := Some(e))
      case Success(recs) => UpsertRecords(r.store, pair, recs, UpdateLevel, r.delta)
  }

  /**
   * Incremental: `delete` entries, then `update`, then `insert`; the first
   * exception stops it. No other pair's book changes, the pair's book is
   * neither created nor removed, and without one the store is untouched.
   */
  function ApplyIncremental(store: Store, pair: Pair, data: Json): (r: Run)
    ensures r.store - {pair} == store - {pair} && (pair in r.store <==> pair in store)
    ensures pair !in store ==> r.store == store
  {
    match Get(data, "delete")
    case Failure(e) => Run(store, NoChange, Some(e))
    case Success(list) =>
      match Items(list)
      case Failure(e) => Run(store, NoChange, Some(e))
      case Success(recs) =>
        var r1 := DeleteRecords(store, pair, recs, NoChange);
        if r1.raised.Some? then r1
        else
          var r2 := UpsertPhase(r1, pair, data, "update");
          if r2.raised.Some? then r2 else UpsertPhase(r2, pair, data, "insert")
  }

  /** The pair of a book message (bybit.py:178): the normalised last dot-separated segment of its topic. */
  function BookPair(msg: Json, norm: Normalizer): (r: Result<Pair, Error>)
    ensures r.Success? <==> Get(msg, "topic").Success? && msg.fields["topic"].JStr?
    ensures r.Success? ==> r.value == norm(JStr(LastSegment(msg.fields["topic"].s)))
    ensures Get(msg, "topic").Success? && !msg.fields["topic"].JStr? ==> r == Failure(AttributeError)
  {
    var topic :- Get(msg, "topic");
    if topic.JStr? then Success(norm(JStr(LastSegment(topic.s)))) else Failure(AttributeError)
  }

  /** Snapshot or incremental, by the message's `type`. */
  function Reconcile(store: Store, pair: Pair, updateType: Json, data: Json): Run {
    if IsText(updateType, "snapshot") then ApplySnapshot(store, pair, data) else ApplyIncremental(store, pair, data)
  }

  /** The one book callback that ends `_book` (bybit.py:206): the pair's book, `forced`, the delta and the exchange timestamp. */
  function Report(r: Run, msg: Json, pair: Pair, forced: bool, receipt: real): (o: Outcome<Store>)
    ensures o.state == r.store
    ensures o.raised.None? <==> r.raised.None? && pair in r.store && Get(msg, "timestamp_e6").Success?
    ensures o.raised.None? ==> o.out == [BookUpdate(BYBIT, pair, r.store[pair], forced, r.delta, msg.fields["timestamp_e6"], receipt)]
    ensures o.raised.Some? ==> o.out == []
    ensures r.raised.Some? ==> o.raised == r.raised
  {
    if r.raised.Some? then Outcome(r.store, [], r.raised)
    else if pair !in r.store then Outcome(r.store, [], Some(MissingBook(pair)))
    else
      match Get(msg, "timestamp_e6")
      case Failure(e) => Outcome(r.store, [], Some(e))
      case Success(ts) => Outcome(r.store, [BookUpdate(BYBIT, pair, r.store[pair], forced, r.delta, ts, receipt)], None)
  }

  /** `_book`: reconcile, then one `book_callback` with the pair's book, `forced` and the delta. */
  function BookMessage(store: Store, msg: Json, receipt: real, norm: Normalizer): (o: Outcome<Store>)
    ensures BookPair(msg, norm).Failure? || Get(msg, "type").Failure? || Get(msg, "data").Failure? ==>
              o.state == store && o.out == [] && o.raised.Some?
    ensures BookPair(msg, norm).Success? && Get(msg, "type").Success? && Get(msg, "data").Success? ==>
              var pair, updateType := BookPair(msg, norm).value, msg.fields["type"];
              o == Report(Reconcile(store, pair, updateType, msg.fields["data"]), msg, pair,
                          IsText(updateType, "snapshot"), receipt)
  {
    match BookPair(msg, norm)
    case Failure(e) => Outcome(store, [], Some(e))
    case Success(pair) =>
      match Get(msg, "type")
      case Failure(e) => Outcome(store, [], Some(e))
      case Success(updateType) =>
        match Get(msg, "data")
        case Failure(e) => Outcome(store, [], Some(e))
        case Success(data) =>
          Report(Reconcile(store, pair, updateType, data), msg, pair, IsText(updateType, "snapshot"), receipt)
  }

  // ---------------------------------------------------------------------------
  // Properties of `_book`.

  /**
   * A snapshot replaces the pair's book wholesale: the new book holds exactly
   * the levels decoded before the first record that fails to decode (all the
   * listed levels when every record decodes), whatever the book held before. It is reported with `forced` set and an
   * empty delta on both sides.
   */
  lemma SnapshotReplaces(store: Store, msg: Json, receipt: real, norm: Normalizer,
                         pair: Pair, data: Json, recs: seq<Json>)
    requires BookPair(msg, norm) == Success(pair)
    requires Get(msg, "type") == Success(JStr("snapshot"))
    requires Get(msg, "data") == Success(data) && Items(data) == Success(recs)
    ensures var o := BookMessage(store, msg, receipt, norm);
            var d := DecodePrefix(recs, SnapshotLevel);
            var book := Overlay(EmptyBook, d.values);
      && o.state == store[pair := book]
      && (o.raised.None? <==> d.failure.None? && Get(msg, "timestamp_e6").Success?)
      && (o.raised.None? ==> o.out == [BookUpdate(BYBIT, pair, book, true, NoChange, msg.fields["timestamp_e6"], receipt)])
      && (d.failure.Some? ==> o.raised == d.failure && o.out == [])
  {
    var d := DecodePrefix(recs, SnapshotLevel);
    var r := SnapshotRun(store, pair, data, recs);
    assert BookMessage(store, msg, receipt, norm) == Report(r, msg, pair, true, receipt);
  }

  /** The snapshot loop: the pair's book becomes the levels the records list, up to the first that fails to decode. */
  lemma SnapshotRun(store: Store, pair: Pair, data: Json, recs: seq<Json>) returns (r: Run)
    requires Items(data) == Success(recs)
    ensures var d := DecodePrefix(recs, SnapshotLevel);
      && r == ApplySnapshot(store, pair, data)
      && r == Run(store[pair := Overlay(EmptyBook, d.values)], NoChange, d.failure)
  {
    var d := DecodePrefix(recs, SnapshotLevel);
    var u := UpsertStep(store, pair, EmptyBook, d.values, NoChange);
    ApplySnapshotUnfold(store, pair, data, recs);
    r := Run(u.store, NoChange, d.failure);
  }

  lemma ApplySnapshotUnfold(store: Store, pair: Pair, data: Json, recs: seq<Json>)
    requires Items(data) == Success(recs)
    ensures ApplySnapshot(store, pair, data)
         == UpsertRecords(store[pair := EmptyBook], pair, recs, SnapshotLevel, NoChange).(delta := NoChange)
  {
  }

  /** Handling the same snapshot message twice leaves the store and the callbacks as handling it once. */
  lemma SnapshotIdempotent(store: Store, msg: Json, receipt: real, norm: Normalizer)
    requires Get(msg, "type") == Success(JStr("snapshot"))
    ensures var o := BookMessage(store, msg, receipt, norm);
      BookMessage(o.state, msg, receipt, norm) == o
  {
    var o := BookMessage(store, msg, receipt, norm);
    if BookPair(msg, norm).Success? && Get(msg, "data").Success? {
      var pair, data := BookPair(msg, norm).value, msg.fields["data"];
      var r := ApplySnapshot(store, pair, data);
      SnapshotTwice(store, pair, data);
      assert o == Report(r, msg, pair, true, receipt);
      assert BookMessage(r.store, msg, receipt, norm) == Report(ApplySnapshot(r.store, pair, data), msg, pair, true, receipt);
    }
  }

  /** Replaying a snapshot on the store it produced reproduces the same run. */
  lemma SnapshotTwice(store: Store, pair: Pair, data: Json)
    ensures var r := ApplySnapshot(store, pair, data);
      ApplySnapshot(r.store, pair, data) == r
  {
    match Items(data)
    case Failure(_) =>
      Overwrite(store, pair, EmptyBook, EmptyBook);
    case Success(recs) =>
      SnapshotTwiceRuns(store, pair, data, recs);
  }

  lemma SnapshotTwiceRuns(store: Store, pair: Pair, data: Json, recs: seq<Json>)
    requires Items(data) == Success(recs)
    ensures var r := ApplySnapshot(store, pair, data);
      ApplySnapshot(r.store, pair, data) == r
  {
    var r := SnapshotRun(store, pair, data, recs);
    var r2 := SnapshotRun(r.store, pair, data, recs);
    var book := Overlay(EmptyBook, DecodePrefix(recs, SnapshotLevel).values);
    Overwrite(store, pair, book, book);
  }

  /**
   * An incremental message on an existing book whose records all decode:
   * it succeeds exactly when every delete names a present level, no delete
   * repeats and the message carries `timestamp_e6`. The deletes remove their
   * levels, then updates and then inserts write theirs, nothing else in the
   * store changes, and the delta lists `(price, 0)` per delete followed by
   * `(price, size)` per update and insert, per side in processing order, with
   * `forced` clear. Otherwise the first delete whose level is absent raises
   * KeyError for its price, with the deletes before it applied.
   */
  lemma IncrementalApplies(store: Store, msg: Json, receipt: real, norm: Normalizer, pair: Pair,
                           data: Json, dels: seq<Json>, ups: seq<Json>, ins: seq<Json>)
    requires BookPair(msg, norm) == Success(pair) && pair in store
    requires Get(msg, "type").Success? && !IsText(msg.fields["type"], "snapshot")
    requires Get(msg, "data") == Success(data)
    requires Get(data, "delete") == Success(JArr(dels))
    requires Get(data, "update") == Success(JArr(ups))
    requires Get(data, "insert") == Success(JArr(ins))
    requires DecodePrefix(dels, DeleteKey).failure.None?
    requires DecodePrefix(ups, UpdateLevel).failure.None?
    requires DecodePrefix(ins, UpdateLevel).failure.None?
    ensures var o := BookMessage(store, msg, receipt, norm);
            var b := store[pair];
            var keys := DecodePrefix(dels, DeleteKey).values;
            var written := DecodePrefix(ups, UpdateLevel).values;
            var inserted := DecodePrefix(ins, UpdateLevel).values;
      && (o.raised.None? <==> Deletable(b, keys) && Get(msg, "timestamp_e6").Success?)
      && (Deletable(b, keys) ==> o.state == store[pair := Overlay(Overlay(Without(b, keys), written), inserted)])
      && (o.raised.None? ==>
            o.out == [BookUpdate(BYBIT, pair, o.state[pair], false,
                                 Delta(Removals(keys, Bid) + Changes(written, Bid) + Changes(inserted, Bid),
                                       Removals(keys, Ask) + Changes(written, Ask) + Changes(inserted, Ask)),
                                 msg.fields["timestamp_e6"], receipt)])
      && (!Deletable(b, keys) ==>
            && o.out == []
            && exists i :: FirstAbsent(b, keys, i)
                 && o.state == store[pair := Without(b, keys[..i])]
                 && o.raised == Some(MissingLevel(keys[i].price)))
  {
    var r := IncrementalRun(store, pair, data, dels, ups, ins);
    var o := BookMessage(store, msg, receipt, norm);
    assert o == Report(r, msg, pair, false, receipt);
  }

  /**
   * The incremental loops on an existing book whose records all decode: the
   * run succeeds exactly when the deletes are `Deletable`, and then holds
   * the book with the deletes removed, the updates and then the inserts
   * written, and the delta of all three phases in order. Otherwise it stops
   * at the first delete whose level is absent, with the deletes before it applied.
   */
  lemma IncrementalRun(store: Store, pair: Pair, data: Json, dels: seq<Json>, ups: seq<Json>, ins: seq<Json>)
    returns (r: Run)
    requires pair in store
    requires Get(data, "delete") == Success(JArr(dels))
    requires Get(data, "update") == Success(JArr(ups))
    requires Get(data, "insert") == Success(JArr(ins))
    requires DecodePrefix(dels, DeleteKey).failure.None?
    requires DecodePrefix(ups, UpdateLevel).failure.None?
    requires DecodePrefix(ins, UpdateLevel).failure.None?
    ensures var b := store[pair];
            var keys := DecodePrefix(dels, DeleteKey).values;
            var written := DecodePrefix(ups, UpdateLevel).values;
            var inserted := DecodePrefix(ins, UpdateLevel).values;
      && r == ApplyIncremental(store, pair, data)
      && (r.raised.None? <==> Deletable(b, keys))
      && (Deletable(b, keys) ==>
            r == Run(store[pair := Overlay(Overlay(Without(b, keys), written), inserted)],
                     Delta(Removals(keys, Bid) + Changes(written, Bid) + Changes(inserted, Bid),
                           Removals(keys, Ask) + Changes(written, Ask) + Changes(inserted, Ask)), None))
      && (!Deletable(b, keys) ==>
            exists i :: FirstAbsent(b, keys, i)
              && r.store == store[pair := Without(b, keys[..i])]
              && r.raised == Some(MissingLevel(keys[i].price)))
  {
    var keys := DecodePrefix(dels, DeleteKey).values;
    if Deletable(store[pair], keys) {
      r := IncrementalSucceeds(store, pair, data, dels, ups, ins);
    } else {
      r := IncrementalFails(store, pair, data, dels);
    }
  }

  lemma IncrementalFails(store: Store, pair: Pair, data: Json, dels: seq<Json>) returns (r: Run)
    requires pair in store
    requires Get(data, "delete") == Success(JArr(dels))
    requires DecodePrefix(dels, DeleteKey).failure.None?
    requires !Deletable(store[pair], DecodePrefix(dels, DeleteKey).values)
    ensures var keys := DecodePrefix(dels, DeleteKey).values;
      && r == ApplyIncremental(store, pair, data)
      && exists i :: FirstAbsent(store[pair], keys, i)
           && r.store == store[pair := Without(store[pair], keys[..i])]
           && r.raised == Some(MissingLevel(keys[i].price))
  {
    var keys := DecodePrefix(dels, DeleteKey).values;
    DeleteAllSucceeds(store, pair, keys, NoChange);
    DeleteAllFails(store, pair, keys, NoChange);
    IncrementalUnfold(store, pair, data, dels);
    r := DeleteAll(store, pair, keys, NoChange);
  }

  lemma IncrementalSucceeds(store: Store, pair: Pair, data: Json, dels: seq<Json>, ups: seq<Json>, ins: seq<Json>)
    returns (r: Run)
    requires pair in store
    requires Get(data, "delete") == Success(JArr(dels))
    requires Get(data, "update") == Success(JArr(ups))
    requires Get(data, "insert") == Success(JArr(ins))
    requires DecodePrefix(dels, DeleteKey).failure.None?
    requires DecodePrefix(ups, UpdateLevel).failure.None?
    requires DecodePrefix(ins, UpdateLevel).failure.None?
    requires Deletable(store[pair], DecodePrefix(dels, DeleteKey).values)
    ensures var b := store[pair];
            var keys := DecodePrefix(dels, DeleteKey).values;
            var written := DecodePrefix(ups, UpdateLevel).values;
            var inserted := DecodePrefix(ins, UpdateLevel).values;
      && r == ApplyIncremental(store, pair, data)
      && r == Run(store[pair := Overlay(Overlay(Without(b, keys), written), inserted)],
                  Delta(Removals(keys, Bid) + Changes(written, Bid) + Changes(inserted, Bid),
                        Removals(keys, Ask) + Changes(written, Ask) + Changes(inserted, Ask)), None)
  {
    var keys := DecodePrefix(dels, DeleteKey).values;
    var written := DecodePrefix(ups, UpdateLevel).values;
    var inserted := DecodePrefix(ins, UpdateLevel).values;
    r := ThreePhases(store, pair, keys, written, inserted);
    IncrementalChain(store, pair, data, dels, ups, ins);
  }

  /** Deletes, then updates, then inserts, on the decoded entries of an existing book. */
  lemma ThreePhases(store: Store, pair: Pair, keys: seq<Key>, written: seq<Level>, inserted: seq<Level>)
    returns (r: Run)
    requires pair in store && Deletable(store[pair], keys)
    ensures var r1 := DeleteAll(store, pair, keys, NoChange);
            var r2 := UpsertAll(r1.store, pair, written, r1.delta);
      && r1.raised.None? && r2.raised.None?
      && r == UpsertAll(r2.store, pair, inserted, r2.delta)
      && r == Run(store[pair := Overlay(Overlay(Without(store[pair], keys), written), inserted)],
                  Delta(Removals(keys, Bid) + Changes(written, Bid) + Changes(inserted, Bid),
                        Removals(keys, Ask) + Changes(written, Ask) + Changes(inserted, Ask)), None)
  {
    var b := store[pair];
    var r1 := DeleteStep(store, pair, keys);
    var r2 := UpsertStep(store, pair, Without(b, keys), written, r1.delta);
    r := UpsertStep(store, pair, Overlay(Without(b, keys), written), inserted, r2.delta);
  }

  lemma DeleteStep(store: Store, pair: Pair, keys: seq<Key>) returns (r: Run)
    requires pair in store && Deletable(store[pair], keys)
    ensures r == DeleteAll(store, pair, keys, NoChange)
    ensures r == Run(store[pair := Without(store[pair], keys)], Delta(Removals(keys, Bid), Removals(keys, Ask)), None)
  {
    DeleteAllSucceeds(store, pair, keys, NoChange);
    assert [] + Removals(keys, Bid) == Removals(keys, Bid);
    assert [] + Removals(keys, Ask) == Removals(keys, Ask);
    r := DeleteAll(store, pair, keys, NoChange);
  }

  lemma UpsertStep(store: Store, pair: Pair, b: Book, levels: seq<Level>, d: Delta) returns (r: Run)
    ensures r == UpsertAll(store[pair := b], pair, levels, d)
    ensures r == Run(store[pair := Overlay(b, levels)], Delta(d.bids + Changes(levels, Bid), d.asks + Changes(levels, Ask)), None)
  {
    var s := store[pair := b];
    var after := Overlay(b, levels);
    UpsertAllSucceeds(s, pair, levels, d);
    assert s[pair] == b;
    Overwrite(store, pair, b, after);
    r := UpsertAll(s, pair, levels, d);
  }

  /** When every record decodes and the deletes succeed, the incremental handler runs the three loops of `ThreePhases`. */
  lemma IncrementalChain(store: Store, pair: Pair, data: Json, dels: seq<Json>, ups: seq<Json>, ins: seq<Json>)
    requires Get(data, "delete") == Success(JArr(dels))
    requires Get(data, "update") == Success(JArr(ups))
    requires Get(data, "insert") == Success(JArr(ins))
    requires DecodePrefix(dels, DeleteKey).failure.None?
    requires DecodePrefix(ups, UpdateLevel).failure.None?
    requires DecodePrefix(ins, UpdateLevel).failure.None?
    ensures var r1 := DeleteAll(store, pair, DecodePrefix(dels, DeleteKey).values, NoChange);
            var r2 := UpsertAll(r1.store, pair, DecodePrefix(ups, UpdateLevel).values, r1.delta);
      r1.raised.None? && r2.raised.None? ==>
        ApplyIncremental(store, pair, data) == UpsertAll(r2.store, pair, DecodePrefix(ins, UpdateLevel).values, r2.delta)
  {
    IncrementalUnfold(store, pair, data, dels);
  }

  lemma IncrementalUnfold(store: Store, pair: Pair, data: Json, dels: seq<Json>)
    requires Get(data, "delete") == Success(JArr(dels))
    requires DecodePrefix(dels, DeleteKey).failure.None?
    ensures var r1 := DeleteAll(store, pair, DecodePrefix(dels, DeleteKey).values, NoChange);
      ApplyIncremental(store, pair, data)
        == if r1.raised.Some? then r1 else
             var r2 := UpsertPhase(r1, pair, data, "update");
             if r2.raised.Some? then r2 else UpsertPhase(r2, pair, data, "insert")
  {
  }

  /** The records of one list of `data` can be iterated and all decode with `decode`. */
  predicate ListDecodes<T>(data: Json, key: string, decode: Json -> Result<T, Error>) {
    && Get(data, key).Success?
    && Items(data.fields[key]).Success?
    && DecodePrefix(Items(data.fields[key]).value, decode).failure.None?
  }

  /** Every record of the `delete`, `update` and `insert` lists of `data` decodes. */
  predicate IncrementalDecodes(data: Json) {
    && ListDecodes(data, "delete", DeleteKey)
    && ListDecodes(data, "update", UpdateLevel)
    && ListDecodes(data, "insert", UpdateLevel)
  }

  /**
   * Without a book for the pair (no snapshot since the last reset), an
   * incremental message raises and changes nothing. When its records all
   * decode, the exception is the KeyError of the missing book: from the first
   * edit, or from the final callback when the lists are empty.
   */
  lemma IncrementalWithoutBook(store: Store, msg: Json, receipt: real, norm: Normalizer, pair: Pair)
    requires BookPair(msg, norm) == Success(pair) && pair !in store
    requires Get(msg, "type").Success? && !IsText(msg.fields["type"], "snapshot")
    ensures var o := BookMessage(store, msg, receipt, norm);
      o.state == store && o.out == [] && o.raised.Some?
    ensures Get(msg, "data").Success? && IncrementalDecodes(msg.fields["data"]) ==>
              BookMessage(store, msg, receipt, norm).raised == Some(MissingBook(pair))
  {
    if Get(msg, "data").Success? {
      var data := msg.fields["data"];
      var r := ApplyIncremental(store, pair, data);
      assert BookMessage(store, msg, receipt, norm) == Report(r, msg, pair, false, receipt);
      if IncrementalDecodes(data) {
        assert r.raised.None? || r.raised == Some(MissingBook(pair));
      }
    }
  }

  /**
   * `_book` changes at most the book of the topic's pair, and makes one
   * callback exactly when it does not raise; when the topic cannot be read
   * it changes nothing.
   */
  lemma BookMessageFrame(store: Store, msg: Json, receipt: real, norm: Normalizer)
    ensures var o := BookMessage(store, msg, receipt, norm);
      && (BookPair(msg, norm).Failure? ==> o.state == store)
      && (BookPair(msg, norm).Success? ==> o.state - {BookPair(msg, norm).value} == store - {BookPair(msg, norm).value})
      && (o.raised.None? <==> |o.out| == 1)
      && (o.raised.Some? ==> o.out == [])
  {
    var o := BookMessage(store, msg, receipt, norm);
    if BookPair(msg, norm).Success? && Get(msg, "type").Success? && Get(msg, "data").Success? {
      var pair, updateType := BookPair(msg, norm).value, msg.fields["type"];
      var r := Reconcile(store, pair, updateType, msg.fields["data"]);
      assert o == Report(r, msg, pair, IsText(updateType, "snapshot"), receipt);
    }
  }
}
