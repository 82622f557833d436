/**
 * The in-memory L2 book store the Bybit adapter keeps:
 * per pair, a bid map and an ask map from price to size, together with the
 * two primitive edits the reconciler makes to it (upsert a level, delete a
 * level) and the per-side change lists (`delta`) it reports.
 */
module OrderBook {
  import opened Wrappers
  import opened Errors

  /** Prices and sizes are exact decimals (`Decimal`). */
  type Price = real
  type Size = real
  /** A canonical pair such as "BTC-USD". */
  type Pair = string

  datatype Side = Bid | Ask

  /** One pair's book: `{BID: SortedDict, ASK: SortedDict}`. */
  datatype Book = Book(bids: map<Price, Size>, asks: map<Price, Size>) {
    function Levels(side: Side): map<Price, Size> {
      if side == Bid then bids else asks
    }

    function WithLevels(side: Side, m: map<Price, Size>): (b: Book)
      ensures b.Levels(side) == m
      ensures forall s :: s != side ==> b.Levels(s) == Levels(s)
    {
      if side == Bid then this.(bids := m) else this.(asks := m)
    }
  }

  const EmptyBook := Book(map[], map[])

  /** The adapter's book store: one book per pair. */
  type Store = map<Pair, Book>

  /** A level to write: side, price and size. */
  datatype Level = Level(side: Side, price: Price, size: Size)

  /** A level to delete: side and price. */
  datatype Key = Key(side: Side, price: Price)

  /** The reported delta: the (price, size) changes per side, in processing order; size 0 marks a removal. */
  datatype Delta = Delta(bids: seq<(Price, Size)>, asks: seq<(Price, Size)>) {
    function Entries(side: Side): seq<(Price, Size)> {
      if side == Bid then bids else asks
    }

    function Add(side: Side, entry: (Price, Size)): Delta {
      if side == Bid then this.(bids := bids + [entry]) else this.(asks := asks + [entry])
    }
  }

  const NoChange := Delta([], [])

  /** The store and delta after a run of edits, and the exception that stopped the run, if any. */
  datatype Run = Run(store: Store, delta: Delta, raised: Option<Error>)

  /** `b` with one level written. */
  function Write(b: Book, level: Level): Book {
    b.WithLevels(level.side, b.Levels(level.side)[level.price := level.size])
  }

  /** `b` with one level removed. */
  function Drop(b: Book, key: Key): Book {
    b.WithLevels(key.side, b.Levels(key.side) - {key.price})
  }

  /** Writing one level of the pair's book; a pair with no book raises KeyError. */
  function Upsert(store: Store, pair: Pair, level: Level): Result<Store, Error> {
    if pair !in store then Failure(MissingBook(pair))
    else Success(store[pair := Write(store[pair], level)])
  }

  /** Deleting one level of the pair's book; a missing book or level raises KeyError. */
  function Delete(store: Store, pair: Pair, key: Key): Result<Store, Error> {
    if pair !in store then Failure(MissingBook(pair))
    else if key.price !in store[pair].Levels(key.side) then Failure(MissingLevel(key.price))
    else Success(store[pair := Drop(store[pair], key)])
  }

  /**
   * The delete loop: record `(price, 0)`, then delete; the first failure stops
   * the loop. It touches no other pair's book and never creates or removes
   * the pair's book; without one, the first delete raises KeyError and the
   * store is untouched.
   */
  function DeleteAll(store: Store, pair: Pair, keys: seq<Key>, delta: Delta): (r: Run)
    ensures r.store - {pair} == store - {pair} && (pair in r.store <==> pair in store)
    ensures pair !in store ==> r.store == store && r.raised == (if |keys| == 0 then None else Some(MissingBook(pair)))
    decreases |keys|
  {
    if |keys| == 0 then Run(store, delta, None)
    else
      var delta' := delta.Add(keys[0].side, (keys[0].price, 0.0));
      match Delete(store, pair, keys[0])
      case Failure(e) => Run(store, delta', Some(e))
      case Success(s) =>
        assert s - {pair} == store - {pair};
        DeleteAll(s, pair, keys[1..], delta')
  }

  /**
   * An update or insert loop: record `(price, size)`, then upsert. Like the
   * delete loop, it touches only the pair's own book, and without one it
   * raises KeyError at the first level and leaves the store untouched.
   */
  function UpsertAll(store: Store, pair: Pair, levels: seq<Level>, delta: Delta): (r: Run)
    ensures r.store - {pair} == store - {pair} && (pair in r.store <==> pair in store)
    ensures pair !in store ==> r.store == store && r.raised == (if |levels| == 0 then None else Some(MissingBook(pair)))
    decreases |levels|
  {
    if |levels| == 0 then Run(store, delta, None)
    else
      var delta' := delta.Add(levels[0].side, (levels[0].price, levels[0].size));
      match Upsert(store, pair, levels[0])
      case Failure(e) => Run(store, delta', Some(e))
      case Success(s) =>
        assert s - {pair} == store - {pair};
        UpsertAll(s, pair, levels[1..], delta')
  }

  // ---------------------------------------------------------------------------
  // Reference definitions the loops are proved against.

  /** The prices `keys` name on `side`. */
  function KeyPrices(keys: seq<Key>, side: Side): set<Price> {
    set i | 0 <= i < |keys| && keys[i].side == side :: keys[i].price
  }

  /** The prices `levels` name on `side`. */
  function LevelPrices(levels: seq<Level>, side: Side): set<Price> {
    set i | 0 <= i < |levels| && levels[i].side == side :: levels[i].price
  }

  /** Every key names a level present in `b`, and no key is repeated. */
  ghost predicate Deletable(b: Book, keys: seq<Key>) {
    && (forall i :: 0 <= i < |keys| ==> keys[i].price in b.Levels(keys[i].side))
    && (forall i, j :: 0 <= i < j < |keys| ==> keys[i] != keys[j])
  }

  /**
   * `keys[i]` is where the delete loop over `b` raises: the keys before it
   * are `Deletable` and its own level is gone once they are deleted.
   */
  ghost predicate FirstAbsent(b: Book, keys: seq<Key>, i: int) {
    && 0 <= i < |keys|
    && Deletable(b, keys[..i])
    && keys[i].price !in Without(b, keys[..i]).Levels(keys[i].side)
  }

  /** `b` with the levels `keys` name removed. */
  function Without(b: Book, keys: seq<Key>): Book {
    Book(b.bids - KeyPrices(keys, Bid), b.asks - KeyPrices(keys, Ask))
  }

  /** The delta entries deleting `keys` contributes to `side`: `(price, 0)` each, in order. */
  function Removals(keys: seq<Key>, side: Side): seq<(Price, Size)> {
    if |keys| == 0 then []
    else (if keys[0].side == side then [(keys[0].price, 0.0)] else []) + Removals(keys[1..], side)
  }

  /** The delta entries writing `levels` contributes to `side`: `(price, size)` each, in order. */
  function Changes(levels: seq<Level>, side: Side): seq<(Price, Size)> {
    if |levels| == 0 then []
    else (if levels[0].side == side then [(levels[0].price, levels[0].size)] else []) + Changes(levels[1..], side)
  }

  predicate Names(l: Level, side: Side, price: Price) {
    l.side == side && l.price == price
  }

  /** The size of the last level in `levels` at `price` on `side`, if there is one. */
  function LastSize(levels: seq<Level>, side: Side, price: Price): (r: Option<Size>)
    ensures r.Some? <==> price in LevelPrices(levels, side)
    ensures r.Some? ==> exists i :: 0 <= i < |levels| && Names(levels[i], side, price) && levels[i].size == r.value
                          && forall j :: i < j < |levels| ==> !Names(levels[j], side, price)
    decreases |levels|
  {
    if |levels| == 0 then None
    else
      var later := LastSize(levels[1..], side, price);
      assert LevelPrices(levels, side)
          == (if levels[0].side == side then {levels[0].price} else {}) + LevelPrices(levels[1..], side) by {
        LevelPricesCons(levels, side);
      }
      if later.Some? then
        ghost var i :| 0 <= i < |levels[1..]| && Names(levels[1..][i], side, price) && levels[1..][i].size == later.value
                      && forall j :: i < j < |levels[1..]| ==> !Names(levels[1..][j], side, price);
        assert Names(levels[i + 1], side, price);
        later
      else if Names(levels[0], side, price) then
        Some(levels[0].size)
      else None
  }

  lemma LevelPricesCons(levels: seq<Level>, side: Side)
    requires |levels| > 0
    ensures LevelPrices(levels, side)
         == (if levels[0].side == side then {levels[0].price} else {}) + LevelPrices(levels[1..], side)
  {
    var rest := levels[1..];
    forall p | p in LevelPrices(levels, side)
      ensures p in (if levels[0].side == side then {levels[0].price} else {}) + LevelPrices(rest, side)
    {
      var i :| 0 <= i < |levels| && levels[i].side == side && levels[i].price == p;
      if i > 0 {
        assert rest[i - 1] == levels[i];
      }
    }
    forall p | p in LevelPrices(rest, side) ensures p in LevelPrices(levels, side) {
      var i :| 0 <= i < |rest| && rest[i].side == side && rest[i].price == p;
      assert levels[i + 1] == rest[i];
    }
  }

  lemma KeyPricesCons(keys: seq<Key>, side: Side)
    requires |keys| > 0
    ensures KeyPrices(keys, side)
         == (if keys[0].side == side then {keys[0].price} else {}) + KeyPrices(keys[1..], side)
  {
    var rest := keys[1..];
    forall p | p in KeyPrices(keys, side)
      ensures p in (if keys[0].side == side then {keys[0].price} else {}) + KeyPrices(rest, side)
    {
      var i :| 0 <= i < |keys| && keys[i].side == side && keys[i].price == p;
      if i > 0 {
        assert rest[i - 1] == keys[i];
      }
    }
    forall p | p in KeyPrices(rest, side) ensures p in KeyPrices(keys, side) {
      var i :| 0 <= i < |rest| && rest[i].side == side && rest[i].price == p;
      assert keys[i + 1] == rest[i];
    }
  }

  /** One side of `Overlay`: every named price takes its last written size, the others keep theirs. */
  function OverlaySide(m: map<Price, Size>, levels: seq<Level>, side: Side): (r: map<Price, Size>)
    ensures r.Keys == m.Keys + LevelPrices(levels, side)
  {
    map p | p in m.Keys + LevelPrices(levels, side) ::
      match LastSize(levels, side, p)
      case Some(v) => v
      case None => m[p]
  }

  /** `b` after writing `levels` in order. */
  function Overlay(b: Book, levels: seq<Level>): Book {
    Book(OverlaySide(b.bids, levels, Bid), OverlaySide(b.asks, levels, Ask))
  }

  // ---------------------------------------------------------------------------
  // The delete loop against its reference.

  lemma DeletableCons(b: Book, keys: seq<Key>)
    requires |keys| > 0 && keys[0].price in b.Levels(keys[0].side)
    ensures Deletable(b, keys) <==> Deletable(Drop(b, keys[0]), keys[1..])
  {
    var k, rest, b1 := keys[0], keys[1..], Drop(b, keys[0]);
    if Deletable(b, keys) {
      forall i | 0 <= i < |rest| ensures rest[i].price in b1.Levels(rest[i].side) {
        assert rest[i] == keys[i + 1] && keys[0] != keys[i + 1];
      }
      forall i, j | 0 <= i < j < |rest| ensures rest[i] != rest[j] {
        assert rest[i] == keys[i + 1] && rest[j] == keys[j + 1];
      }
    }
    if Deletable(b1, rest) {
      forall i | 0 <= i < |keys| ensures keys[i].price in b.Levels(keys[i].side) {
        if i > 0 {
          assert keys[i] == rest[i - 1];
        }
      }
      forall i, j | 0 <= i < j < |keys| ensures keys[i] != keys[j] {
        assert keys[j] == rest[j - 1];
        if i > 0 {
          assert keys[i] == rest[i - 1];
        } else {
          assert keys[j].price in b1.Levels(keys[j].side);
        }
      }
    }
  }

  lemma WithoutCons(b: Book, keys: seq<Key>)
    requires |keys| > 0
    ensures Without(Drop(b, keys[0]), keys[1..]) == Without(b, keys)
  {
    KeyPricesCons(keys, Bid);
    KeyPricesCons(keys, Ask);
  }

  lemma WithoutNothing(b: Book)
    ensures Without(b, []) == b
  {
    assert KeyPrices([], Bid) == {} && KeyPrices([], Ask) == {};
  }

  lemma Assoc<T>(a: seq<T>, b: seq<T>, c: seq<T>)
    ensures a + b + c == a + (b + c)
  {
  }

  lemma RemovalsCons(keys: seq<Key>, d: Delta, side: Side)
    requires |keys| > 0
    ensures d.Add(keys[0].side, (keys[0].price, 0.0)).Entries(side) + Removals(keys[1..], side)
         == d.Entries(side) + Removals(keys, side)
  {
    var k, rest := keys[0], keys[1..];
    var e := (k.price, 0.0);
    var head: seq<(Price, Size)> := if k.side == side then [e] else [];
    assert Removals(keys, side) == head + Removals(rest, side);
    assert d.Add(k.side, e).Entries(side) == d.Entries(side) + head;
    Assoc(d.Entries(side), head, Removals(rest, side));
  }

  /**
   * The delete loop succeeds exactly when every key names a present level and
   * no key repeats; it then removes exactly those levels from this pair's book,
   * leaves every other pair alone, and records `(price, 0)` per key, in order.
   */
  lemma {:induction false} DeleteAllSucceeds(store: Store, pair: Pair, keys: seq<Key>, d: Delta)
    requires pair in store
    ensures var r := DeleteAll(store, pair, keys, d);
      && (r.raised.None? <==> Deletable(store[pair], keys))
      && (r.raised.None? ==> r.store == store[pair := Without(store[pair], keys)])
      && (r.raised.None? ==> r.delta == Delta(d.bids + Removals(keys, Bid), d.asks + Removals(keys, Ask)))
    decreases |keys|
  {
    var b := store[pair];
    if |keys| == 0 {
      WithoutNothing(b);
      assert store[pair := b] == store;
      return;
    }
    var k, rest := keys[0], keys[1..];
    if k.price !in b.Levels(k.side) {
      assert !Deletable(b, keys);
      return;
    }
    var s := store[pair := Drop(b, k)];
    var d' := d.Add(k.side, (k.price, 0.0));
    DeleteAllSucceeds(s, pair, rest, d');
    assert DeleteAll(store, pair, keys, d) == DeleteAll(s, pair, rest, d');
    DeletableCons(b, keys);
    WithoutCons(b, keys);
    RemovalsCons(keys, d, Bid);
    RemovalsCons(keys, d, Ask);
    assert s[pair := Without(b, keys)] == store[pair := Without(b, keys)];
  }

  /**
   * A delete loop that raises stops at the first key whose level is absent:
   * every key before it names a present level and none repeats, those deletes
   * stay applied (the loop is not atomic), and the error names that key's price.
   */
  lemma {:induction false} DeleteAllFails(store: Store, pair: Pair, keys: seq<Key>, d: Delta)
    requires pair in store
    ensures var r := DeleteAll(store, pair, keys, d);
      r.raised.Some? ==>
        exists i :: 0 <= i < |keys|
          && FirstAbsent(store[pair], keys, i)
          && r.store == store[pair := Without(store[pair], keys[..i])]
          && r.raised == Some(MissingLevel(keys[i].price))
    decreases |keys|
  {
    var r := DeleteAll(store, pair, keys, d);
    if |keys| == 0 || r.raised.None? {
      return;
    }
    var k, rest, b := keys[0], keys[1..], store[pair];
    WithoutNothing(b);
    assert keys[..0] == [];
    if k.price !in b.Levels(k.side) {
      assert FirstAbsent(b, keys, 0);
      assert store[pair := Without(b, keys[..0])] == store;
      return;
    }
    var s := store[pair := Drop(b, k)];
    var d' := d.Add(k.side, (k.price, 0.0));
    DeleteAllFails(s, pair, rest, d');
    assert r == DeleteAll(s, pair, rest, d');
    var i :| 0 <= i < |rest|
      && FirstAbsent(Drop(b, k), rest, i)
      && r.store == s[pair := Without(Drop(b, k), rest[..i])]
      && r.raised == Some(MissingLevel(rest[i].price));
    assert keys[..i + 1][1..] == rest[..i] && keys[..i + 1][0] == k;
    WithoutCons(b, keys[..i + 1]);
    DeletableCons(b, keys[..i + 1]);
    assert keys[i + 1] == rest[i];
    Overwrite(store, pair, Drop(b, k), Without(b, keys[..i + 1]));
    assert r.store == store[pair := Without(b, keys[..i + 1])];
    assert FirstAbsent(b, keys, i + 1);
  }

  /** `Without` removes from each side exactly the prices the keys name on it. */
  lemma WithoutLevels(b: Book, keys: seq<Key>, side: Side)
    ensures Without(b, keys).Levels(side) == b.Levels(side) - KeyPrices(keys, side)
  {
  }

  /** At most one key is the first absent one: the loop's stopping point is determined. */
  lemma {:induction false} FirstAbsentUnique(b: Book, keys: seq<Key>, i: int, j: int)
    requires FirstAbsent(b, keys, i) && FirstAbsent(b, keys, j)
    ensures i == j
  {
    if i < j {
      FirstAbsentBefore(b, keys, i, j);
    } else if j < i {
      FirstAbsentBefore(b, keys, j, i);
    }
  }

  /** Past the first absent key, no longer prefix of the keys is deletable. */
  lemma {:induction false} FirstAbsentBefore(b: Book, keys: seq<Key>, i: int, j: int)
    requires FirstAbsent(b, keys, i) && i < j <= |keys|
    ensures !Deletable(b, keys[..j])
  {
    var k := keys[i];
    WithoutLevels(b, keys[..i], k.side);
    if k.price in b.Levels(k.side) {
      assert k.price in KeyPrices(keys[..i], k.side);
      var m :| 0 <= m < i && keys[..i][m].side == k.side && keys[..i][m].price == k.price;
      assert keys[..j][m] == keys[..j][i];
    } else {
      assert keys[..j][i] == k;
    }
  }


  /** Writing a pair's book twice keeps only the second write. */
  lemma Overwrite(store: Store, pair: Pair, first: Book, second: Book)
    ensures store[pair := first][pair := second] == store[pair := second]
  {
    MapExt(store[pair := first][pair := second], store[pair := second]);
  }

  // ---------------------------------------------------------------------------
  // The update/insert loop against its reference.

  lemma OverlayNothing(b: Book)
    ensures Overlay(b, []) == b
  {
    assert LevelPrices([], Bid) == {} && LevelPrices([], Ask) == {};
  }

  lemma OverlaySideConsAt(m: map<Price, Size>, levels: seq<Level>, side: Side, p: Price)
    requires |levels| > 0
    requires p in m.Keys + LevelPrices(levels, side)
    ensures var l := levels[0];
      var m1 := if l.side == side then m[l.price := l.size] else m;
      p in OverlaySide(m1, levels[1..], side)
      && OverlaySide(m1, levels[1..], side)[p] == OverlaySide(m, levels, side)[p]
  {
    var l, rest := levels[0], levels[1..];
    var m1 := if l.side == side then m[l.price := l.size] else m;
    LevelPricesCons(levels, side);
    var later := LastSize(rest, side, p);
    assert LastSize(levels, side, p)
        == if later.Some? then later else if Names(l, side, p) then Some(l.size) else None;
    if later.None? && !Names(l, side, p) {
      assert m1[p] == m[p];
    }
  }

  lemma OverlaySideCons(m: map<Price, Size>, levels: seq<Level>, side: Side)
    requires |levels| > 0
    ensures var l := levels[0];
      OverlaySide(if l.side == side then m[l.price := l.size] else m, levels[1..], side)
        == OverlaySide(m, levels, side)
  {
    var l, rest := levels[0], levels[1..];
    var m1 := if l.side == side then m[l.price := l.size] else m;
    var lhs, rhs := OverlaySide(m1, rest, side), OverlaySide(m, levels, side);
    OverlaySideConsKeys(m, levels, side);
    OverlaySideConsAll(m, levels, side);
    MapExt(lhs, rhs);
  }

  lemma OverlaySideConsKeys(m: map<Price, Size>, levels: seq<Level>, side: Side)
    requires |levels| > 0
    ensures var l := levels[0];
      var m1 := if l.side == side then m[l.price := l.size] else m;
      OverlaySide(m1, levels[1..], side).Keys == OverlaySide(m, levels, side).Keys
  {
    LevelPricesCons(levels, side);
  }

  lemma OverlaySideConsAll(m: map<Price, Size>, levels: seq<Level>, side: Side)
    requires |levels| > 0
    ensures var l := levels[0];
      var m1 := if l.side == side then m[l.price := l.size] else m;
      forall p :: p in OverlaySide(m, levels, side) ==>
        p in OverlaySide(m1, levels[1..], side) && OverlaySide(m1, levels[1..], side)[p] == OverlaySide(m, levels, side)[p]
  {
    forall p | p in OverlaySide(m, levels, side) {
      OverlaySideConsAt(m, levels, side, p);
    }
  }

  lemma MapExt<K, V>(a: map<K, V>, b: map<K, V>)
    requires a.Keys == b.Keys
    requires forall k :: k in a ==> a[k] == b[k]
    ensures a == b
  {
  }

  lemma OverlayCons(b: Book, levels: seq<Level>)
    requires |levels| > 0
    ensures Overlay(Write(b, levels[0]), levels[1..]) == Overlay(b, levels)
  {
    OverlaySideCons(b.bids, levels, Bid);
    OverlaySideCons(b.asks, levels, Ask);
  }

  lemma ChangesCons(levels: seq<Level>, d: Delta, side: Side)
    requires |levels| > 0
    ensures d.Add(levels[0].side, (levels[0].price, levels[0].size)).Entries(side) + Changes(levels[1..], side)
         == d.Entries(side) + Changes(levels, side)
  {
    var l, rest := levels[0], levels[1..];
    var e := (l.price, l.size);
    var head: seq<(Price, Size)> := if l.side == side then [e] else [];
    assert Changes(levels, side) == head + Changes(rest, side);
    assert d.Add(l.side, e).Entries(side) == d.Entries(side) + head;
    Assoc(d.Entries(side), head, Changes(rest, side));
  }

  /**
   * With a book for the pair the update/insert loop cannot fail: each price it
   * names ends with the size of its last write, every other level and every
   * other pair is unchanged, and it records `(price, size)` per level, in order.
   */
  lemma {:induction false} UpsertAllSucceeds(store: Store, pair: Pair, levels: seq<Level>, d: Delta)
    requires pair in store
    ensures var r := UpsertAll(store, pair, levels, d);
      && r.raised.None?
      && r.store == store[pair := Overlay(store[pair], levels)]
      && r.delta == Delta(d.bids + Changes(levels, Bid), d.asks + Changes(levels, Ask))
    decreases |levels|
  {
    var b := store[pair];
    if |levels| == 0 {
      OverlayNothing(b);
      assert store[pair := b] == store;
      return;
    }
    var l, rest := levels[0], levels[1..];
    var s := store[pair := Write(b, l)];
    var d' := d.Add(l.side, (l.price, l.size));
    UpsertAllSucceeds(s, pair, rest, d');
    assert UpsertAll(store, pair, levels, d) == UpsertAll(s, pair, rest, d');
    OverlayCons(b, levels);
    ChangesCons(levels, d, Bid);
    ChangesCons(levels, d, Ask);
    assert s[pair := Overlay(b, levels)] == store[pair := Overlay(b, levels)];
  }

  // ---------------------------------------------------------------------------
  // Consequences for one incremental message: deletes, then updates, then inserts.

  /** A price deleted and then written again in the same message ends with its last written size. */
  lemma DeletedThenWritten(b: Book, keys: seq<Key>, updates: seq<Level>, inserts: seq<Level>, side: Side, p: Price)
    requires p in KeyPrices(keys, side)
    requires p in LevelPrices(updates, side) || p in LevelPrices(inserts, side)
    ensures var after := Overlay(Overlay(Without(b, keys), updates), inserts);
      && p in after.Levels(side)
      && after.Levels(side)[p] == (if p in LevelPrices(inserts, side) then LastSize(inserts, side, p).value
                                   else LastSize(updates, side, p).value)
  {
  }

  /** A price the message does not name keeps its presence and size. */
  lemma UntouchedLevel(b: Book, keys: seq<Key>, updates: seq<Level>, inserts: seq<Level>, side: Side, p: Price)
    requires p !in KeyPrices(keys, side) && p !in LevelPrices(updates, side) && p !in LevelPrices(inserts, side)
    ensures var after := Overlay(Overlay(Without(b, keys), updates), inserts);
      && (p in after.Levels(side) <==> p in b.Levels(side))
      && (p in b.Levels(side) ==> after.Levels(side)[p] == b.Levels(side)[p])
  {
  }

  /** Every level of a snapshot's book comes from the message, with the last size given for its price. */
  lemma SnapshotContents(levels: seq<Level>, side: Side, p: Price)
    ensures p in Overlay(EmptyBook, levels).Levels(side) <==> p in LevelPrices(levels, side)
    ensures p in LevelPrices(levels, side) ==> Overlay(EmptyBook, levels).Levels(side)[p] == LastSize(levels, side, p).value
  {
  }
}
