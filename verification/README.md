# Bybit and Bitmax message handling, modelled in Dafny

This project models the message-handling core of two cryptofeed exchange
adapters. Each adapter turns one parsed JSON message into callbacks
(canonical trade, book, open-interest and futures-index events, or log lines)
and, for Bybit, an update of its in-memory per-pair L2 order book.

- **Bybit `_book`** (`BybitBook`, on top of `OrderBook`). A `snapshot` replaces
  the pair's book and is reported with `forced` set and an empty delta. Any
  other type applies `delete` entries, then `update`, then `insert`, and
  reports the per-side `(price, size)` delta with `forced` clear. A delete of
  an absent level raises KeyError. There is no sequence-number check.
- **Bybit `message_handler`, `_trade`, `_instrument_info`, `__reset`/`subscribe`**
  (`Bybit`).
- **Bitmax `message_handler`, `_trade`, `_book`, `__reset`/`subscribe`** (`Bitmax`).

The parsed message is the `Json` datatype (`Json`). Python's `in`,
subscripting, iteration, truthiness and `Decimal(...)` on it are functions that
return the exception Python would raise. Decimal values are exact `real`s
(`Numeric`), with a decimal-literal parser proved to invert a decimal printer.

Python exceptions are modelled with their partial effects. A handler's result
is the new state, the callbacks made so far, and the exception that ended it,
if any. The source edits the book in place, so a failing delete leaves the
deletes before it applied. Likewise, callbacks made before an exception stay
made. Each loop over records is modelled as "decode the records up to the
first that fails, run the edits on those, then raise the decode error". Decoding
has no side effects, so this equals the interleaved Python loop.

Four behaviours of the code shape the model:
- no adapter checks sequence numbers;
- an incremental message is applied level by level, not atomically;
- deleting an absent level raises KeyError;
- the Bitmax book handler never populates a book.

## Model

| member | source | states |
|---|---|---|
| `Bybit.Handle` | cryptofeed/exchange/bybit.py:31-46 | A message that is not a book message leaves the store unchanged. An acknowledgement makes exactly one log line, debug when `success` is truthy and error otherwise, and does not raise. An unrecognised topic makes exactly one warning and does not raise. A message that cannot be classified makes no callback and raises the classification error. |
| `Bybit.Classify` | cryptofeed/exchange/bybit.py:34-46 | A message with a `success` key is an acknowledgement and nothing is dispatched. Otherwise the topic goes to trade iff it contains `trade`, to book iff it contains `orderBook` but not `trade`, to instrument info iff it contains only `instrument_info` of the three, and is unrecognised iff it contains none. For a string topic "contains" is a substring test; for a dict topic it is a key test and for a list topic a membership test. A missing topic raises KeyError, and a message or topic that supports no `in` test raises TypeError. |
| `Bybit.AckOnlyLogs` | cryptofeed/exchange/bybit.py:34-38 | An acknowledgement leaves the books as they were and makes exactly one log line: debug when `success` is truthy, error otherwise. |
| `Bybit.UnrecognisedOnlyWarns` | cryptofeed/exchange/bybit.py:45-46 | A topic naming none of the three channels makes exactly one warning and changes nothing. |
| `Bybit.HandleDispatches` | cryptofeed/exchange/bybit.py:39-44 | Trade, book and instrument messages produce exactly the callbacks and exception of their handler. |
| `Bybit.HandleFrame` | cryptofeed/exchange/bybit.py:31-46 | Only book messages change the store, and then only the book of the topic's pair. A book message whose topic cannot be split changes nothing. |
| `Bybit.Subscribe` | cryptofeed/exchange/bybit.py:28-29 | After the reset no pair has a book. |
| `Bybit.IncrementalAfterSubscribe` | cryptofeed/exchange/bybit.py:48-49 | Right after `subscribe`, an incremental book message raises, makes no callback, and leaves the store empty. When every record of its `delete`, `update` and `insert` lists decodes, the exception is the KeyError of the pair's missing book. |
| `Bybit.Trades` | cryptofeed/exchange/bybit.py:164-175 | Every callback of a trade message is a Bybit trade event carrying the receipt time. A missing `data` raises its KeyError with no callback, and a `data` that cannot be iterated raises TypeError with no callback. |
| `Bybit.TradeRecord` | cryptofeed/exchange/bybit.py:166-175 | A trade record converts exactly when it has symbol, trade id, side, size, price and trade time, and size and price are decimals. The event carries the normalised symbol and `order_id = trade_id`. Its side is BUY iff `side == 'Buy'`. Amount and price are the exact decimals. A missing symbol raises KeyError first. |
| `Bybit.TradesInOrder` | cryptofeed/exchange/bybit.py:164-175 | A trade message makes one trade event per record of `data`, in order, each the conversion of its record. It completes iff every record converts. Otherwise it stops at the first record that fails, raising that record's exception, after exactly the events of the records before it. |
| `Bybit.InfoRecord` | cryptofeed/exchange/bybit.py:135-148 | A record with `symbol` and `updated_at` makes an open-interest event iff it has `open_interest`, then a futures-index event iff it has `index_price_e4`: 0, 1 or 2 events in that order. A record with neither field makes nothing. A record that has one of them but no symbol raises KeyError. |
| `Bybit.InfoList` | cryptofeed/exchange/bybit.py:128-133 | A snapshot's record list is the single record `data`. Any other type's list is `data['update']`. A missing type raises before anything is read. |
| `Bybit.InstrumentInfo` | cryptofeed/exchange/bybit.py:128-148 | Every callback of an instrument message is an open-interest or futures-index event of Bybit carrying the receipt time. When the record list cannot be read, the handler raises that error with no callback. |
| `Bybit.KeyVisitIsTheLoop` | cryptofeed/exchange/bybit.py:135-138 | When the record list is a non-empty object, the handler's outcome equals running the loop body on the object's key strings, in any order that visits each key. |
| `Bybit.VisitKeys` | cryptofeed/exchange/bybit.py:135-138 | Running the loop body over key strings makes no event. It raises TypeError iff some key contains `open_interest` or `index_price_e4`, since such a key reaches the `symbol` subscript of a string; the order of the keys does not matter. |
| `Bybit.InfoSnapshotSingle` | cryptofeed/exchange/bybit.py:130-131 | An instrument snapshot makes exactly the events of its one `data` record. |
| `Bybit.InfoDeltaReadsUpdate` | cryptofeed/exchange/bybit.py:132-133 | Two instrument deltas of the same type with the same `update` list make the same events and raise the same, whatever their `delete` and `insert` lists hold. |
| `Bybit.InfoEventsInOrder` | cryptofeed/exchange/bybit.py:135-148 | An update list of records with symbol and `updated_at` completes. Its events are each record's events concatenated in order, with one event per field present. |
| `BybitBook.SideOf` | cryptofeed/exchange/bybit.py:187 | The side is BID iff the record's `side` equals the string `Buy`, and ASK for any other value. A missing `side` raises. |
| `BybitBook.DeleteKey` | cryptofeed/exchange/bybit.py:192-193 | A delete record decodes iff it has a side and a decimal price. |
| `BybitBook.UpdateLevel` | cryptofeed/exchange/bybit.py:199-201 | An update or insert record decodes iff it has a side, a decimal price and a decimal size. |
| `BybitBook.SnapshotLevel` | cryptofeed/exchange/bybit.py:187-188 | A snapshot record decodes iff it has a side, a decimal size and a decimal price. The size is read before the price, so a record missing both raises KeyError for `size`. |
| `BybitBook.BookPair` | cryptofeed/exchange/bybit.py:178 | The pair is the normalised text after the last `.` of the topic. A topic that is not a string raises AttributeError. |
| `BybitBook.Report` | cryptofeed/exchange/bybit.py:206 | The single book callback carries the pair's book, `forced`, the delta and `timestamp_e6`. It is made iff the loops did not raise, the pair has a book and `timestamp_e6` is present (its type is not checked). |
| `BybitBook.BookMessage` | cryptofeed/exchange/bybit.py:177-206 | A missing topic, `type` or `data` raises before the store is touched. Otherwise the message is reconciled and then reported. |
| `BybitBook.ApplySnapshot` | cryptofeed/exchange/bybit.py:184-189 | After the snapshot loop the pair has a book, even when the loop raises, no other pair's book changes, and the delta is empty. When `data` cannot be iterated the pair is left with an empty book and TypeError is raised. |
| `BybitBook.SnapshotReplaces` | cryptofeed/exchange/bybit.py:184-189 | After a snapshot the pair's book holds exactly the levels the message lists, whatever it held before. For a repeated price the later size wins, and a level after a decoding error is not written. The callback has `forced` set and an empty delta on both sides. It is made iff every record decodes and `timestamp_e6` is present (its type is not checked). |
| `BybitBook.SnapshotRun` | cryptofeed/exchange/bybit.py:184-188 | The snapshot loop resets the pair's book and writes every level that decodes, up to the first that fails. It raises that failure and keeps the delta empty. |
| `BybitBook.SnapshotIdempotent` | cryptofeed/exchange/bybit.py:184-189 | Handling the same snapshot message a second time gives the same store, the same callbacks and the same exception as the first time. |
| `BybitBook.IncrementalApplies` | cryptofeed/exchange/bybit.py:190-203 | On an existing book whose records all decode, an incremental succeeds iff every delete names a present level, no delete repeats, and `timestamp_e6` is present (its type is not checked). The deletes are removed, then the updates and then the inserts are written, and no other pair changes. The delta lists `(price, 0)` per delete followed by `(price, size)` per update and insert, per side in processing order, with `forced` clear. Otherwise no callback is made and the first delete whose level is absent raises KeyError for its price; the deletes before it, all present and distinct, stay applied. |
| `BybitBook.IncrementalRun` | cryptofeed/exchange/bybit.py:191-203 | The three loops succeed iff the deletes are all present and distinct. On success the book and delta are those of deletes, then updates, then inserts. On failure the first delete whose level is absent raises KeyError for its price, and the store holds the book with exactly the deletes before it applied, all present and distinct. |
| `BybitBook.IncrementalFails` | cryptofeed/exchange/bybit.py:191-195 | When the deletes are not all present and distinct, the incremental loops stop at the first delete whose level is absent and raise KeyError for its price. The store holds the book with exactly the deletes before it applied. |
| `BybitBook.ApplyIncremental` | cryptofeed/exchange/bybit.py:190-203 | The incremental loops change no other pair's book, neither create nor remove the pair's book, and leave the store untouched when the pair has no book. |
| `BybitBook.IncrementalWithoutBook` | cryptofeed/exchange/bybit.py:190-206 | Without a book for the pair, an incremental message raises, makes no callback and leaves the store unchanged. When every record of its `delete`, `update` and `insert` lists decodes, the exception is the KeyError of the missing book, raised by the first edit or, for empty lists, by the final book lookup. |
| `BybitBook.BookMessageFrame` | cryptofeed/exchange/bybit.py:177-206 | `_book` changes no book but the topic pair's. It makes exactly one callback iff it does not raise, and none when it raises. |
| `OrderBook.DeleteAllSucceeds` | cryptofeed/exchange/bybit.py:191-195 | The delete loop completes iff every key names a level present at its turn, which is exactly "all present in the starting book and none repeated". It then removes exactly those levels and appends `(price, 0)` per key to its side's delta, in order. |
| `OrderBook.DeleteAllFails` | cryptofeed/exchange/bybit.py:191-195 | A delete loop on an existing book that raises stops at the first delete whose level is absent; the deletes before it are all present and distinct. It raises KeyError for that price, with exactly those earlier deletes applied. |
| `OrderBook.FirstAbsentUnique` | cryptofeed/exchange/bybit.py:191-195 | The first delete whose level is absent is unique, so the point where a delete loop stops is determined by the book and the keys. |
| `OrderBook.DeleteAll` | cryptofeed/exchange/bybit.py:191-195 | The delete loop changes no other pair's book and neither creates nor removes the pair's book. Without a book for the pair the store is untouched, and the loop raises KeyError for the pair iff there is at least one delete. |
| `OrderBook.UpsertAllSucceeds` | cryptofeed/exchange/bybit.py:197-203 | An update loop on an existing book never raises. It leaves each price at the last size written for it, keeps all other levels, and appends `(price, size)` per level to its side's delta, in order. |
| `OrderBook.UpsertAll` | cryptofeed/exchange/bybit.py:197-203 | The update loop changes no other pair's book and neither creates nor removes the pair's book. Without a book for the pair the store is untouched, and the loop raises KeyError for the pair iff there is at least one level. |
| `OrderBook.DeletedThenWritten` | cryptofeed/exchange/bybit.py:191-203 | A price deleted and written again in one message ends present. Its size is the last insert's if the inserts name it, else the last update's. |
| `OrderBook.UntouchedLevel` | cryptofeed/exchange/bybit.py:191-203 | A price the message does not name keeps its presence and its size. |
| `OrderBook.SnapshotContents` | cryptofeed/exchange/bybit.py:185-188 | A price is in a snapshot's side iff the message lists it on that side, with the last size listed. |
| `OrderBook.LastSize` | cryptofeed/exchange/bybit.py:188 | The size a repeated write leaves is that of the last record naming the price on that side. It exists iff some record names it. |
| `Events.FanOutCompletes` | cryptofeed/exchange/bybit.py:165-175 | A per-record callback loop completes iff no record raises, and then makes every record's callbacks in order. |
| `Events.FanOutStops` | cryptofeed/exchange/bybit.py:165-175 | A per-record callback loop that raises stops at the first record that raises. It keeps the callbacks of the records before it and of that record up to its exception. |
| `Events.DecodePrefix` | cryptofeed/exchange/bybit.py:186-188 | The decoded values are exactly the records before the first that fails to decode, and the failure is that record's exception. There is no failure iff every record decodes. |
| `Json.Contains` | cryptofeed/exchange/bybit.py:34 | `key in v` is a key test on a dict, a membership test on a list and a substring test on a string. Any other value raises TypeError. |
| `Json.Get` | cryptofeed/exchange/bybit.py:35 | `v[key]` succeeds iff `v` is a dict holding `key`. Otherwise a dict raises KeyError and any other value raises TypeError. |
| `Json.IsSubstring` | cryptofeed/exchange/bybit.py:39 | The substring test is true iff the needle occurs at some position of the string. |
| `Json.LastSegment` | cryptofeed/exchange/bybit.py:178 | The last `.` segment holds no dot, is a suffix of the topic, and is preceded by a dot when shorter than the topic. |
| `Json.Items` | cryptofeed/exchange/bybit.py:165 | A list iterates its items, a string its one-character strings, and an empty dict nothing. Any other value raises TypeError. |
| `Numeric.ToDecimal` | cryptofeed/exchange/bybit.py:32 | Numbers parsed with `parse_float=Decimal` are exact, and booleans are 1 and 0. A string converts iff it is a decimal literal, to the literal's value. `None` and dicts raise TypeError, and lists are refused. |
| `Numeric.ParseDecimalText` | cryptofeed/exchange/bybit.py:193 | Parsing the plain decimal text of `units / 10^scale` gives back exactly that value, for every integer and scale. |
| `Numeric.ExactTenth` | cryptofeed/exchange/bybit.py:193 | `Decimal("0.1")` is exactly one tenth, not the binary float. |
| `Numeric.LiteralShape` | cryptofeed/exchange/bybit.py:193 | Every string the decimal parser accepts consists of ASCII digits, signs, the point and exponent marks only, contains a digit, and ends in a digit or the point. Any other string raises InvalidOperation. |
| `Numeric.RejectsNonLiterals` | cryptofeed/exchange/bybit.py:193 | The empty string, `.`, `-`, `1e` and `12a` are not decimal literals. |
| `Bitmax.Classify` | cryptofeed/exchange/bitmax.py:94-106 | With an `m` key: `depth` goes to the book handler, `marketTrades` to the trade handler, `pong`, `connected` and `sub` are control messages, and anything else is unrecognised. Without `m` the message is unrecognised. |
| `Bitmax.ControlIsSilent` | cryptofeed/exchange/bitmax.py:99-102 | A control message returns with no callback, no log line and no exception. |
| `Bitmax.UnknownOnlyWarns` | cryptofeed/exchange/bitmax.py:103-106 | A message without `m`, or whose `m` names no channel, makes exactly one warning and nothing else. |
| `Bitmax.Handle` | cryptofeed/exchange/bitmax.py:92-106 | No message changes `seq_num` or `l2_book`. Control messages are silent, unrecognised ones only warn, depth messages make no callback, and a message that cannot be tested for `m` raises. |
| `Bitmax.HandleDispatches` | cryptofeed/exchange/bitmax.py:94-98 | A `marketTrades` message makes exactly the trade handler's callbacks. A depth message makes none and raises what the book handler raises. |
| `Bitmax.Trades` | cryptofeed/exchange/bitmax.py:45-54 | Every callback of a `marketTrades` message is a Bitmax trade event carrying the receipt time. A missing `trades` raises its KeyError with no callback. A non-empty object as `trades` makes no callback and raises: the KeyError of a missing `s` when `s` is absent, TypeError otherwise. |
| `Bitmax.TradeRecord` | cryptofeed/exchange/bitmax.py:47-54 | A trade converts iff the message has `s` and the trade has `bm`, `q`, `p` and `t`, with decimal `q` and `p`. The event has the message's pair, no order id, side SELL iff `bm` is truthy, and amount and price exactly `q` and `p`. A missing `s` raises before the trade is read. |
| `Bitmax.TradesInOrder` | cryptofeed/exchange/bitmax.py:46-54 | A `marketTrades` message makes one trade event per element of `trades`, in order. It completes iff every element converts, and otherwise stops at the first that does not, after the events before it. |
| `Bitmax.TradesShareSymbol` | cryptofeed/exchange/bitmax.py:47-52 | Every trade event of a message carries the pair of the message's `s` and no order id. It is a sell iff its own trade's `bm` is truthy. |
| `Bitmax.Snapshot` | cryptofeed/exchange/bitmax.py:56-62 | The snapshot request succeeds iff the reply carries `data.data.ts` and `data.data.seqnum`. A failed request raises its exception. |
| `Bitmax.Depth` | cryptofeed/exchange/bitmax.py:65-71 | The book handler succeeds iff the message has `symbol` and `data.seqnum`, and, when the pair has no book, the snapshot request succeeds. |
| `Bitmax.Subscribe` | cryptofeed/exchange/bitmax.py:29-34 | After the reset there are no sequence numbers and no books. |
| `Bitmax.DepthAfterSubscribe` | cryptofeed/exchange/bitmax.py:66-71 | After `subscribe`, a depth message with a symbol always requests a snapshot: a failing request raises its failure and changes nothing. |

## Left out

- Numeric.ToDecimal: strings with surrounding whitespace or underscores, strings written with non-ASCII Unicode decimal digits (Arabic-Indic `١`, fullwidth `１`), and `NaN`, `Infinity` and `sNaN`, are refused, though Python's `Decimal` accepts them. A list in `Decimal`'s `(sign, digits, exponent)` tuple form is refused too.
- Json.Items: iterating a non-empty dict raises TypeError at once. Python visits the keys, and every handler that iterates records then subscripts the key string and raises TypeError with no callback made. The two places where something else happens first are modelled separately: `Bitmax.Trades` reads `msg['s']` first, and `Bybit.KeyVisitIsTheLoop` covers the substring tests on instrument records.
- BybitBook.IncrementalApplies: states the outcome only when every record decodes. When a record fails to decode, the loop raises after the records before it have been applied. The definitions model this (`DeleteRecords`, `UpsertRecords`), but no lemma restates it.
- BybitBook.Report: only checks that `timestamp_e6` is present. Python raises TypeError when it is not a number, at `/ 1000000` (bybit.py:206), after the book has been edited. The same holds for `index_price_e4 * 1e-4` (bybit.py:146), which also fails for a `Decimal` value, and for the trade times both adapters pass to `timestamp_normalize` (bybit.py:173, bitmax.py:53), where a non-number may fail as well; `timestamp_normalize` is not part of this model. The model makes these callbacks with the raw value instead.
- Float arithmetic is not modelled. This covers `timestamp_e6 / 1000000`, `index_price_e4 * 1e-4`, `timestamp_normalize`, and `updated_at.timestamp()`. Timestamps and the index value are carried as the raw JSON value. The AttributeError `.timestamp()` would raise on a non-date value is not modelled.
- The JSON decoder turns date-like strings into datetime values. The model keeps them as strings.
- `normalize_pair` / `pair_exchange_to_std` is an uninterpreted parameter, because it is a lookup table outside these files.
- The REST request of Bitmax `_snapshot` is a parameter holding the reply or the failure, because it is network I/O. Its `print` calls are dropped, and `timestamp_normalize` of the reply's `ts` is reduced to the lookup.
- The book reconciliation code at bitmax.py:72-91 is not modelled, because it sits in a string literal and never runs.
- WebSocket sending in `subscribe`, JSON decoding, logging, and the async `callback`/`book_callback` sinks are I/O. Callbacks and log lines are modelled as appended events.
- SortedDict ordering is not modelled: a book side is a `map` from price to size.
- The `Delta` reported after a raised exception is not carried out of `_book`, because the source never reports it.
