/** src/indexer.ts: counter-indexed tables kept in the store.

    A counter key holds the number of slots filled under it; slot n of a key
    (addIndexToKey(n, key)) holds the key of an item, and the item key holds
    the item with its metadata. pushItems files every item under three
    counters: its latest-key (makeIndex over chosen properties), the key of
    its block and type, and the key of its block index and type. */
module Indexer {
  import opened Common
  import opened Storage
  import Compare
  import Serializer

  datatype IndexError =
    | DecodeFailed                           // an avsc or item-schema decode throws
    | NotACounter(key: CounterKey)           // BigInt of the stored text throws
    | CannotDecrement(key: CounterKey)       // decrementKey at 0
    | Unreadable(entry: Key)                 // an entry read back is absent or of another kind
    | TypeMismatch(error: Compare.CompareError)  // compareBuffers throws in getItems
    | NoBlocks                               // getBlockHashes of no blocks

  /** The fields of messageType that the indexer reads. */
  datatype Message = Message(to: Bytes, data: Bytes)

  /** The decoders behind an item: messageType.fromBuffer, the item's own
      schema, and makeIndex over the chosen properties of the decoded
      item. */
  datatype Schema<!T> = Schema(message: Bytes -> Option<Message>, decode: Bytes -> Option<T>, makeIndex: T -> string)

  /** The latest-key name of a transaction, None when a decoder throws. */
  function LatestName<T>(schema: Schema<T>, tx: Bytes): Option<string>
  {
    if schema.message(tx).None? then None
    else
      var item := schema.decode(schema.message(tx).value.data);
      if item.None? then None else Some(schema.makeIndex(item.value))
  }

  // ---------------------------------------------------------------------
  // incrementKey, decrementKey

  /** incrementKey as a function of the store: the counter before the
      update, and the store after it. */
  function Increment(items: Items, key: CounterKey): (Result<nat, IndexError>, Items)
  {
    match CounterText(Lookup(items, Counter(key)))
    case None => (Err(NotACounter(key)), items)
    case Some(c) => (Ok(c), items[Counter(key) := Decimal(c + 1)])
  }

  /** decrementKey as a function of the store. */
  function Decrement(items: Items, key: CounterKey): (Result<nat, IndexError>, Items)
  {
    match CounterText(Lookup(items, Counter(key)))
    case None => (Err(NotACounter(key)), items)
    case Some(c) =>
      if c == 0 then (Err(CannotDecrement(key)), items)
      else (Ok(c), items[Counter(key) := Decimal(c - 1)])
  }

  method IncrementKey(store: Store, key: CounterKey) returns (r: Result<nat, IndexError>)
    modifies store
    ensures (r, store.items) == Increment(old(store.items), key)
  {
    var text := store.GetItem(Counter(key));
    var current := CounterText(text);
    if current.None? {
      return Err(NotACounter(key));
    }
    store.SetItem(Counter(key), Decimal(current.value + 1));
    return Ok(current.value);
  }

  method DecrementKey(store: Store, key: CounterKey) returns (r: Result<nat, IndexError>)
    modifies store
    ensures (r, store.items) == Decrement(old(store.items), key)
  {
    var text := store.GetItem(Counter(key));
    var current := CounterText(text);
    if current.None? {
      return Err(NotACounter(key));
    }
    if current.value == 0 {
      return Err(CannotDecrement(key));
    }
    store.SetItem(Counter(key), Decimal(current.value - 1));
    return Ok(current.value);
  }

  /** incrementKey returns the stored counter (0 when absent), stores one
      more, and leaves every other key as it was. */
  lemma IncrementSpec(items: Items, key: CounterKey)
    requires CountersWellFormed(items)
    ensures Increment(items, key).0 == Ok(CounterOf(items, key))
    ensures CountersWellFormed(Increment(items, key).1)
    ensures CounterOf(Increment(items, key).1, key) == CounterOf(items, key) + 1
    ensures forall k :: k != Counter(key) ==> Lookup(Increment(items, key).1, k) == Lookup(items, k)
  {
    CounterRoundTrip(items, key, CounterOf(items, key) + 1);
  }

  /** decrementKey throws exactly at 0, leaving the store as it was;
      otherwise it returns the stored counter and stores one less. */
  lemma DecrementSpec(items: Items, key: CounterKey)
    requires CountersWellFormed(items)
    ensures Decrement(items, key).0.Err? <==> CounterOf(items, key) == 0
    ensures CounterOf(items, key) == 0 ==> Decrement(items, key) == (Err(CannotDecrement(key)), items)
    ensures CounterOf(items, key) > 0 ==> Decrement(items, key).0 == Ok(CounterOf(items, key))
    ensures CountersWellFormed(Decrement(items, key).1)
    ensures CounterOf(items, key) > 0 ==> CounterOf(Decrement(items, key).1, key) == CounterOf(items, key) - 1
    ensures forall k :: k != Counter(key) ==> Lookup(Decrement(items, key).1, k) == Lookup(items, k)
  {
    if CounterOf(items, key) > 0 {
      CounterRoundTrip(items, key, CounterOf(items, key) - 1);
    }
  }

  /** A decrement undoes an increment. */
  lemma IncrementThenDecrement(items: Items, key: CounterKey)
    requires CountersWellFormed(items)
    ensures var up := Increment(items, key).1;
            var down := Decrement(up, key);
            && CountersWellFormed(down.1)
            && down.0 == Ok(CounterOf(items, key) + 1)
            && forall k :: CounterOf(down.1, k) == CounterOf(items, k)
  {
    IncrementSpec(items, key);
    DecrementSpec(Increment(items, key).1, key);
  }

  // ---------------------------------------------------------------------
  // pushItems, popItems

  /** How many of the three counters of an item are `k`. */
  function Hit(k: CounterKey, name: string, blockHash: Bytes, itemType: Bytes, index: int): (n: nat)
    ensures n <= 1
    ensures k == BlockTypeKey(blockHash, itemType) || k == IndexTypeKey(index, itemType) || k == LatestKey(name) ==> n == 1
  {
    (if k == LatestKey(name) then 1 else 0)
    + (if k == BlockTypeKey(blockHash, itemType) then 1 else 0)
    + (if k == IndexTypeKey(index, itemType) then 1 else 0)
  }

  /** One iteration of pushItems. The three increments are independent
      (their keys differ), so running them one after the other gives what
      the concurrent Promise.all gives: each readable counter is raised,
      and a failing one makes the item throw before any slot is written. */
  function PushStep<T>(items: Items, schema: Schema<T>, obj: Bytes, blockHash: Bytes, itemType: Bytes, index: int): (Option<IndexError>, Items)
  {
    match LatestName(schema, obj)
    case None => (Some(DecodeFailed), items)
    case Some(name) =>
      var latest := Increment(items, LatestKey(name));
      var byBlock := Increment(latest.1, BlockTypeKey(blockHash, itemType));
      var byIndex := Increment(byBlock.1, IndexTypeKey(index, itemType));
      if latest.0.Err? then (Some(latest.0.error), byIndex.1)
      else if byBlock.0.Err? then (Some(byBlock.0.error), byIndex.1)
      else if byIndex.0.Err? then (Some(byIndex.0.error), byIndex.1)
      else
        var hash := ItemKey(obj);
        (None, byIndex.1[hash := Meta(WithMetadata(blockHash, index, obj))]
                        [Slot(latest.0.value, LatestKey(name)) := Ref(hash)]
                        [Slot(byBlock.0.value, BlockTypeKey(blockHash, itemType)) := Ref(hash)]
                        [Slot(byIndex.0.value, IndexTypeKey(index, itemType)) := Ref(hash)])
  }

  /** pushItems from item `from` on: the first throw ends it. */
  function PushFrom<T>(items: Items, schema: Schema<T>, objs: seq<Bytes>, blockHash: Bytes, itemType: Bytes, index: int, from: nat): (Option<IndexError>, Items)
    decreases |objs| - from
  {
    if from >= |objs| then (None, items)
    else
      var step := PushStep(items, schema, objs[from], blockHash, itemType, index);
      if step.0.Some? then step else PushFrom(step.1, schema, objs, blockHash, itemType, index, from + 1)
  }

  method PushItems<T>(store: Store, schema: Schema<T>, objs: seq<Bytes>, blockHash: Bytes, itemType: Bytes, index: int)
    returns (failure: Option<IndexError>)
    modifies store
    ensures (failure, store.items) == PushFrom(old(store.items), schema, objs, blockHash, itemType, index, 0)
  {
    for i := 0 to |objs|
      invariant PushFrom(old(store.items), schema, objs, blockHash, itemType, index, 0)
                == PushFrom(store.items, schema, objs, blockHash, itemType, index, i)
    {
      var obj := objs[i];
      var name := LatestName(schema, obj);
      if name.None? {
        return Some(DecodeFailed);
      }
      var latestKey := LatestKey(name.value);
      var hashKey := BlockTypeKey(blockHash, itemType);
      var indexKey := IndexTypeKey(index, itemType);
      var latestIndex := IncrementKey(store, latestKey);
      var hashIndex := IncrementKey(store, hashKey);
      var countIndex := IncrementKey(store, indexKey);
      if latestIndex.Err? {
        return Some(latestIndex.error);
      }
      if hashIndex.Err? {
        return Some(hashIndex.error);
      }
      if countIndex.Err? {
        return Some(countIndex.error);
      }
      var hash := ItemKey(obj);
      store.SetItem(hash, Meta(WithMetadata(blockHash, index, obj)));
      store.SetItem(Slot(latestIndex.value, latestKey), Ref(hash));
      store.SetItem(Slot(hashIndex.value, hashKey), Ref(hash));
      store.SetItem(Slot(countIndex.value, indexKey), Ref(hash));
    }
    return None;
  }

  /** Every item from `from` on has a latest-key name. */
  predicate AllNamed<T>(schema: Schema<T>, objs: seq<Bytes>, from: nat)
  {
    forall k :: from <= k < |objs| ==> LatestName(schema, objs[k]).Some?
  }

  /** How many times the items from `from` on raise counter `key`. */
  function Hits<T>(key: CounterKey, schema: Schema<T>, txs: seq<Bytes>, blockHash: Bytes, itemType: Bytes, index: int, from: nat): nat
    decreases |txs| - from
  {
    if from >= |txs| then 0
    else
      var here := match LatestName(schema, txs[from])
        case None => 0
        case Some(name) => Hit(key, name, blockHash, itemType, index);
      here + Hits(key, schema, txs, blockHash, itemType, index, from + 1)
  }

  /** Every item raises the counters of its block and of its index. */
  lemma {:induction false} SharedHits<T>(schema: Schema<T>, txs: seq<Bytes>, blockHash: Bytes, itemType: Bytes, index: int, from: nat)
    requires AllNamed(schema, txs, from)
    ensures Hits(BlockTypeKey(blockHash, itemType), schema, txs, blockHash, itemType, index, from) == if from >= |txs| then 0 else |txs| - from
    ensures Hits(IndexTypeKey(index, itemType), schema, txs, blockHash, itemType, index, from) == if from >= |txs| then 0 else |txs| - from
    decreases |txs| - from
  {
    if from < |txs| {
      SharedHits(schema, txs, blockHash, itemType, index, from + 1);
    }
  }

  /** A write to a key that is not a counter keeps every counter. */
  lemma WriteKeepsCounters(items: Items, k: Key, v: Value)
    requires !k.Counter?
    ensures CountersWellFormed(items) ==> CountersWellFormed(items[k := v])
    ensures forall c :: Lookup(items[k := v], Counter(c)) == Lookup(items, Counter(c))
  {
  }

  /** A removal of keys that are not counters keeps every counter. */
  lemma RemoveKeepsCounters(items: Items, k: Key)
    requires !k.Counter?
    ensures CountersWellFormed(items) ==> CountersWellFormed(items - {k})
    ensures forall c :: Lookup(items - {k}, Counter(c)) == Lookup(items, Counter(c))
  {
  }

  /** The store after one item named `name` is pushed: its three counters
      one higher, the item under its key, and the three slots numbered by the
      old counters referring to it. */
  function Pushed(items: Items, name: string, obj: Bytes, blockHash: Bytes, itemType: Bytes, index: int): Items
    requires CountersWellFormed(items)
  {
    var l, h, x := LatestKey(name), BlockTypeKey(blockHash, itemType), IndexTypeKey(index, itemType);
    var cl, ch, cx := CounterOf(items, l), CounterOf(items, h), CounterOf(items, x);
    items[Counter(l) := Decimal(cl + 1)][Counter(h) := Decimal(ch + 1)][Counter(x) := Decimal(cx + 1)]
         [ItemKey(obj) := Meta(WithMetadata(blockHash, index, obj))]
         [Slot(cl, l) := Ref(ItemKey(obj))][Slot(ch, h) := Ref(ItemKey(obj))][Slot(cx, x) := Ref(ItemKey(obj))]
  }

  /** A named item is pushed without a throw, giving Pushed. */
  lemma PushStepShape<T>(items: Items, schema: Schema<T>, obj: Bytes, blockHash: Bytes, itemType: Bytes, index: int)
    requires CountersWellFormed(items)
    requires LatestName(schema, obj).Some?
    ensures PushStep(items, schema, obj, blockHash, itemType, index) ==
              (None, Pushed(items, LatestName(schema, obj).value, obj, blockHash, itemType, index))
  {
    var name := LatestName(schema, obj).value;
    var l, h, x := LatestKey(name), BlockTypeKey(blockHash, itemType), IndexTypeKey(index, itemType);
    var cl, ch, cx := CounterOf(items, l), CounterOf(items, h), CounterOf(items, x);
    var latest := Increment(items, l);
    IncrementSpec(items, l);
    assert latest == (Ok(cl), items[Counter(l) := Decimal(cl + 1)]);
    var byBlock := Increment(latest.1, h);
    IncrementSpec(latest.1, h);
    assert byBlock == (Ok(ch), latest.1[Counter(h) := Decimal(ch + 1)]);
    var byIndex := Increment(byBlock.1, x);
    IncrementSpec(byBlock.1, x);
    assert byIndex == (Ok(cx), byBlock.1[Counter(x) := Decimal(cx + 1)]);
  }

  /** Each counter rises by the number of the item's keys it is. */
  ghost predicate CountersRaised(after: Items, items: Items, name: string, blockHash: Bytes, itemType: Bytes, index: int)
    requires CountersWellFormed(after) && CountersWellFormed(items)
  {
    forall k :: CounterOf(after, k) == CounterOf(items, k) + Hit(k, name, blockHash, itemType, index)
  }

  /** No item key but obj's changes. */
  ghost predicate OtherItemsKept(after: Items, items: Items, obj: Bytes)
  {
    forall o :: o != obj ==> Lookup(after, ItemKey(o)) == Lookup(items, ItemKey(o))
  }

  /** No slot below its key's counter in `items` changes. */
  ghost predicate LowSlotsKept(after: Items, items: Items)
    requires CountersWellFormed(items)
  {
    forall key, j :: j < CounterOf(items, key) ==> Lookup(after, Slot(j, key)) == Lookup(items, Slot(j, key))
  }

  lemma PushedCounters(items: Items, name: string, obj: Bytes, blockHash: Bytes, itemType: Bytes, index: int)
    requires CountersWellFormed(items)
    ensures CountersWellFormed(Pushed(items, name, obj, blockHash, itemType, index))
    ensures CountersRaised(Pushed(items, name, obj, blockHash, itemType, index), items, name, blockHash, itemType, index)
  {
    var l, h, x := LatestKey(name), BlockTypeKey(blockHash, itemType), IndexTypeKey(index, itemType);
    var cl, ch, cx := CounterOf(items, l), CounterOf(items, h), CounterOf(items, x);
    var m3 := items[Counter(l) := Decimal(cl + 1)][Counter(h) := Decimal(ch + 1)][Counter(x) := Decimal(cx + 1)];
    IncrementThree(items, l, h, x);
    var hash := ItemKey(obj);
    FourWritesKeepCounters(m3, hash, Meta(WithMetadata(blockHash, index, obj)),
                           Slot(cl, l), Ref(hash), Slot(ch, h), Ref(hash), Slot(cx, x), Ref(hash));
  }

  /** The three counter updates of one pushed item. */
  lemma IncrementThree(items: Items, l: CounterKey, h: CounterKey, x: CounterKey)
    requires CountersWellFormed(items)
    requires l != h && h != x && l != x
    ensures var m := items[Counter(l) := Decimal(CounterOf(items, l) + 1)]
                          [Counter(h) := Decimal(CounterOf(items, h) + 1)]
                          [Counter(x) := Decimal(CounterOf(items, x) + 1)];
            && CountersWellFormed(m)
            && forall k :: CounterOf(m, k) == CounterOf(items, k) + (if k == l || k == h || k == x then 1 else 0)
  {
    var m1 := items[Counter(l) := Decimal(CounterOf(items, l) + 1)];
    CounterRoundTrip(items, l, CounterOf(items, l) + 1);
    var m2 := m1[Counter(h) := Decimal(CounterOf(items, h) + 1)];
    CounterRoundTrip(m1, h, CounterOf(items, h) + 1);
    CounterRoundTrip(m2, x, CounterOf(items, x) + 1);
  }

  /** Four writes to keys that are not counters keep every counter. */
  lemma FourWritesKeepCounters(m: Items, a: Key, va: Value, b: Key, vb: Value, c: Key, vc: Value, d: Key, vd: Value)
    requires !a.Counter? && !b.Counter? && !c.Counter? && !d.Counter?
    requires CountersWellFormed(m)
    ensures CountersWellFormed(m[a := va][b := vb][c := vc][d := vd])
    ensures forall k :: CounterOf(m[a := va][b := vb][c := vc][d := vd], k) == CounterOf(m, k)
  {
    WriteKeepsCounters(m, a, va);
    WriteKeepsCounters(m[a := va], b, vb);
    WriteKeepsCounters(m[a := va][b := vb], c, vc);
    WriteKeepsCounters(m[a := va][b := vb][c := vc], d, vd);
  }

  lemma PushedWrites(items: Items, name: string, obj: Bytes, blockHash: Bytes, itemType: Bytes, index: int)
    requires CountersWellFormed(items)
    ensures var after := Pushed(items, name, obj, blockHash, itemType, index);
            && Lookup(after, ItemKey(obj)) == Some(Meta(WithMetadata(blockHash, index, obj)))
            && Lookup(after, Slot(CounterOf(items, LatestKey(name)), LatestKey(name))) == Some(Ref(ItemKey(obj)))
            && Lookup(after, Slot(CounterOf(items, BlockTypeKey(blockHash, itemType)), BlockTypeKey(blockHash, itemType))) == Some(Ref(ItemKey(obj)))
            && Lookup(after, Slot(CounterOf(items, IndexTypeKey(index, itemType)), IndexTypeKey(index, itemType))) == Some(Ref(ItemKey(obj)))
            && OtherItemsKept(after, items, obj)
            && LowSlotsKept(after, items)
  {
  }

  /** One pushed item raises each of its three counters by one. */
  lemma PushStepCounters<T>(items: Items, schema: Schema<T>, obj: Bytes, blockHash: Bytes, itemType: Bytes, index: int)
    requires CountersWellFormed(items)
    ensures LatestName(schema, obj).Some? <==> PushStep(items, schema, obj, blockHash, itemType, index).0 == None
    ensures CountersWellFormed(PushStep(items, schema, obj, blockHash, itemType, index).1)
    ensures LatestName(schema, obj).None? ==> PushStep(items, schema, obj, blockHash, itemType, index).1 == items
    ensures LatestName(schema, obj).Some? ==>
              CountersRaised(PushStep(items, schema, obj, blockHash, itemType, index).1, items,
                             LatestName(schema, obj).value, blockHash, itemType, index)
  {
    if LatestName(schema, obj).Some? {
      PushStepShape(items, schema, obj, blockHash, itemType, index);
      PushedCounters(items, LatestName(schema, obj).value, obj, blockHash, itemType, index);
    }
  }

  /** One pushed item writes its item key and the three slots numbered by
      its counters before the update, and nothing below any counter. */
  lemma PushStepWrites<T>(items: Items, schema: Schema<T>, obj: Bytes, blockHash: Bytes, itemType: Bytes, index: int)
    requires CountersWellFormed(items)
    requires LatestName(schema, obj).Some?
    ensures var after := PushStep(items, schema, obj, blockHash, itemType, index).1;
            var name := LatestName(schema, obj).value;
            && Lookup(after, ItemKey(obj)) == Some(Meta(WithMetadata(blockHash, index, obj)))
            && Lookup(after, Slot(CounterOf(items, LatestKey(name)), LatestKey(name))) == Some(Ref(ItemKey(obj)))
            && Lookup(after, Slot(CounterOf(items, BlockTypeKey(blockHash, itemType)), BlockTypeKey(blockHash, itemType))) == Some(Ref(ItemKey(obj)))
            && Lookup(after, Slot(CounterOf(items, IndexTypeKey(index, itemType)), IndexTypeKey(index, itemType))) == Some(Ref(ItemKey(obj)))
            && OtherItemsKept(after, items, obj)
            && LowSlotsKept(after, items)
  {
    PushStepShape(items, schema, obj, blockHash, itemType, index);
    PushedWrites(items, LatestName(schema, obj).value, obj, blockHash, itemType, index);
  }

  /** Each counter rises by the number of items from `from` on filed under
      it. */
  ghost predicate CountersRaisedBy<T>(after: Items, items: Items, schema: Schema<T>, objs: seq<Bytes>,
                                      blockHash: Bytes, itemType: Bytes, index: int, from: nat)
    requires CountersWellFormed(after) && CountersWellFormed(items)
  {
    forall k :: CounterOf(after, k) == CounterOf(items, k) + Hits(k, schema, objs, blockHash, itemType, index, from)
  }

  /** The item key of each of xs holds it with its metadata; other item keys
      are as in `items`. */
  ghost predicate ItemsFiled(after: Items, items: Items, xs: seq<Bytes>, blockHash: Bytes, index: int)
  {
    forall o :: Lookup(after, ItemKey(o)) ==
                  if o in xs then Some(Meta(WithMetadata(blockHash, index, o))) else Lookup(items, ItemKey(o))
  }

  lemma {:induction false} PushSucceeds<T>(items: Items, schema: Schema<T>, objs: seq<Bytes>, blockHash: Bytes, itemType: Bytes, index: int, from: nat)
    requires CountersWellFormed(items)
    ensures PushFrom(items, schema, objs, blockHash, itemType, index, from).0 == None <==> AllNamed(schema, objs, from)
    ensures CountersWellFormed(PushFrom(items, schema, objs, blockHash, itemType, index, from).1)
    decreases |objs| - from
  {
    if from < |objs| {
      var step := PushStep(items, schema, objs[from], blockHash, itemType, index);
      PushStepCounters(items, schema, objs[from], blockHash, itemType, index);
      if step.0 == None {
        PushSucceeds(step.1, schema, objs, blockHash, itemType, index, from + 1);
      }
    }
  }

  lemma {:induction false} PushRaises<T>(items: Items, schema: Schema<T>, objs: seq<Bytes>, blockHash: Bytes, itemType: Bytes, index: int, from: nat)
    requires CountersWellFormed(items)
    requires AllNamed(schema, objs, from)
    ensures CountersWellFormed(PushFrom(items, schema, objs, blockHash, itemType, index, from).1)
    ensures CountersRaisedBy(PushFrom(items, schema, objs, blockHash, itemType, index, from).1, items,
                             schema, objs, blockHash, itemType, index, from)
    decreases |objs| - from
  {
    PushSucceeds(items, schema, objs, blockHash, itemType, index, from);
    if from < |objs| {
      var step := PushStep(items, schema, objs[from], blockHash, itemType, index);
      var name := LatestName(schema, objs[from]).value;
      PushStepCounters(items, schema, objs[from], blockHash, itemType, index);
      PushRaises(step.1, schema, objs, blockHash, itemType, index, from + 1);
      var after := PushFrom(items, schema, objs, blockHash, itemType, index, from).1;
      assert after == PushFrom(step.1, schema, objs, blockHash, itemType, index, from + 1).1;
      forall k
        ensures CounterOf(after, k) == CounterOf(items, k) + Hits(k, schema, objs, blockHash, itemType, index, from)
      {
        assert CounterOf(step.1, k) == CounterOf(items, k) + Hit(k, name, blockHash, itemType, index);
      }
    }
  }

  lemma {:induction false} PushFilesItems<T>(items: Items, schema: Schema<T>, objs: seq<Bytes>, blockHash: Bytes, itemType: Bytes, index: int, from: nat)
    requires CountersWellFormed(items)
    requires from <= |objs| && AllNamed(schema, objs, from)
    ensures ItemsFiled(PushFrom(items, schema, objs, blockHash, itemType, index, from).1, items, objs[from..], blockHash, index)
    decreases |objs| - from
  {
    if from < |objs| {
      var step := PushStep(items, schema, objs[from], blockHash, itemType, index);
      PushStepCounters(items, schema, objs[from], blockHash, itemType, index);
      PushStepWrites(items, schema, objs[from], blockHash, itemType, index);
      PushFilesItems(step.1, schema, objs, blockHash, itemType, index, from + 1);
      var after := PushFrom(items, schema, objs, blockHash, itemType, index, from).1;
      assert after == PushFrom(step.1, schema, objs, blockHash, itemType, index, from + 1).1;
      assert objs[from..] == [objs[from]] + objs[from + 1..];
      forall o
        ensures Lookup(after, ItemKey(o)) ==
                if o in objs[from..] then Some(Meta(WithMetadata(blockHash, index, o))) else Lookup(items, ItemKey(o))
      {
        assert Lookup(after, ItemKey(o)) ==
               if o in objs[from + 1..] then Some(Meta(WithMetadata(blockHash, index, o))) else Lookup(step.1, ItemKey(o));
      }
    }
  }

  /** pushItems succeeds on a well-formed store exactly when every item has a
      latest-key name; each counter then rises by the number of items filed
      under it, and each item is filed under its own key. */
  lemma PushCounters<T>(items: Items, schema: Schema<T>, objs: seq<Bytes>, blockHash: Bytes, itemType: Bytes, index: int)
    requires CountersWellFormed(items)
    ensures PushFrom(items, schema, objs, blockHash, itemType, index, 0).0 == None <==> AllNamed(schema, objs, 0)
    ensures CountersWellFormed(PushFrom(items, schema, objs, blockHash, itemType, index, 0).1)
    ensures AllNamed(schema, objs, 0) ==>
              var after := PushFrom(items, schema, objs, blockHash, itemType, index, 0).1;
              && (forall k :: CounterOf(after, k) == CounterOf(items, k) + Hits(k, schema, objs, blockHash, itemType, index, 0))
              && (forall o :: Lookup(after, ItemKey(o)) ==
                    if o in objs then Some(Meta(WithMetadata(blockHash, index, o))) else Lookup(items, ItemKey(o)))
  {
    PushSucceeds(items, schema, objs, blockHash, itemType, index, 0);
    if AllNamed(schema, objs, 0) {
      PushRaises(items, schema, objs, blockHash, itemType, index, 0);
      PushFilesItems(items, schema, objs, blockHash, itemType, index, 0);
      assert objs[0..] == objs;
    }
  }

  /** pushItems never writes a slot below the counter of its key. */
  lemma {:induction false} PushKeepsLowSlots<T>(items: Items, schema: Schema<T>, objs: seq<Bytes>, blockHash: Bytes, itemType: Bytes, index: int, from: nat)
    requires CountersWellFormed(items)
    ensures LowSlotsKept(PushFrom(items, schema, objs, blockHash, itemType, index, from).1, items)
    decreases |objs| - from
  {
    if from < |objs| {
      var step := PushStep(items, schema, objs[from], blockHash, itemType, index);
      PushStepCounters(items, schema, objs[from], blockHash, itemType, index);
      if step.0 == None {
        PushStepWrites(items, schema, objs[from], blockHash, itemType, index);
        PushKeepsLowSlots(step.1, schema, objs, blockHash, itemType, index, from + 1);
        var after := PushFrom(items, schema, objs, blockHash, itemType, index, from).1;
        assert after == PushFrom(step.1, schema, objs, blockHash, itemType, index, from + 1).1;
        forall key, j | j < CounterOf(items, key)
          ensures Lookup(after, Slot(j, key)) == Lookup(items, Slot(j, key))
        {
          assert CounterOf(items, key) <= CounterOf(step.1, key);
        }
      }
    }
  }

  /** One pushed item fills the slot of a shared counter numbered by the
      counter before the update, and raises that counter. */
  lemma SharedSlotWritten<T>(items: Items, schema: Schema<T>, obj: Bytes, blockHash: Bytes, itemType: Bytes, index: int, key: CounterKey)
    requires CountersWellFormed(items)
    requires LatestName(schema, obj).Some?
    requires key == BlockTypeKey(blockHash, itemType) || key == IndexTypeKey(index, itemType)
    ensures var step := PushStep(items, schema, obj, blockHash, itemType, index);
            && step.0 == None
            && CountersWellFormed(step.1)
            && CounterOf(step.1, key) == CounterOf(items, key) + 1
            && Lookup(step.1, Slot(CounterOf(items, key), key)) == Some(Ref(ItemKey(obj)))
  {
    PushStepCounters(items, schema, obj, blockHash, itemType, index);
    PushStepWrites(items, schema, obj, blockHash, itemType, index);
  }

  /** Slots c, c + 1, ... of `key` refer to the items xs in order. */
  predicate SlotsHold(m: Items, key: CounterKey, c: int, xs: seq<Bytes>)
  {
    forall k :: 0 <= k < |xs| ==> Lookup(m, Slot(c + k, key)) == Some(Ref(ItemKey(xs[k])))
  }

  lemma SlotsHoldCons(m: Items, key: CounterKey, c: int, c1: int, x: Bytes, xs: seq<Bytes>)
    requires c1 == c + 1
    requires Lookup(m, Slot(c, key)) == Some(Ref(ItemKey(x)))
    requires SlotsHold(m, key, c1, xs)
    ensures SlotsHold(m, key, c, [x] + xs)
  {
    var ys := [x] + xs;
    forall k | 0 < k < |ys| ensures Lookup(m, Slot(c + k, key)) == Some(Ref(ItemKey(ys[k]))) {
      assert ys[k] == xs[k - 1];
      assert c + k == c1 + (k - 1);
    }
  }

  /** pushItems of n items files item k in slot c + k of the block counter
      and of the index counter, c being the counter before the call. */
  lemma {:induction false} PushFillsSlots<T>(items: Items, schema: Schema<T>, objs: seq<Bytes>, blockHash: Bytes, itemType: Bytes, index: int,
                                             from: nat, key: CounterKey)
    requires CountersWellFormed(items)
    requires from <= |objs| && AllNamed(schema, objs, from)
    requires key == BlockTypeKey(blockHash, itemType) || key == IndexTypeKey(index, itemType)
    ensures SlotsHold(PushFrom(items, schema, objs, blockHash, itemType, index, from).1, key, CounterOf(items, key), objs[from..])
    decreases |objs| - from
  {
    if from < |objs| {
      var step := PushStep(items, schema, objs[from], blockHash, itemType, index);
      FirstSlotFilled(items, schema, objs, blockHash, itemType, index, from, key);
      PushFillsSlots(step.1, schema, objs, blockHash, itemType, index, from + 1, key);
      var after := PushFrom(items, schema, objs, blockHash, itemType, index, from).1;
      SlotsHoldCons(after, key, CounterOf(items, key), CounterOf(step.1, key), objs[from], objs[from + 1..]);
      assert objs[from..] == [objs[from]] + objs[from + 1..];
    }
  }

  /** The first item pushed keeps the shared slot it fills. */
  lemma FirstSlotFilled<T>(items: Items, schema: Schema<T>, objs: seq<Bytes>, blockHash: Bytes, itemType: Bytes, index: int,
                           from: nat, key: CounterKey)
    requires CountersWellFormed(items)
    requires from < |objs| && LatestName(schema, objs[from]).Some?
    requires key == BlockTypeKey(blockHash, itemType) || key == IndexTypeKey(index, itemType)
    ensures var step := PushStep(items, schema, objs[from], blockHash, itemType, index);
            var after := PushFrom(items, schema, objs, blockHash, itemType, index, from).1;
            && CountersWellFormed(step.1)
            && CounterOf(step.1, key) == CounterOf(items, key) + 1
            && after == PushFrom(step.1, schema, objs, blockHash, itemType, index, from + 1).1
            && Lookup(after, Slot(CounterOf(items, key), key)) == Some(Ref(ItemKey(objs[from])))
  {
    var step := PushStep(items, schema, objs[from], blockHash, itemType, index);
    SharedSlotWritten(items, schema, objs[from], blockHash, itemType, index, key);
    PushKeepsLowSlots(step.1, schema, objs, blockHash, itemType, index, from + 1);
  }

  /** One iteration of popItems. As written it removes the key hashed from
      the metadata entry (pushItems filed the item under the hash of the bare
      transaction) and the slots numbered by the counters before the
      decrement, which are one past the last filled ones; the intended
      reading removes the item key and the last filled slots. */
  function PopStep<T>(reading: Reading, items: Items, schema: Schema<T>, unwrap: Bytes -> Option<WithMetadata>,
                      entry: Bytes, blockHash: Bytes, itemType: Bytes, index: int): (Option<IndexError>, Items)
  {
    if unwrap(entry).None? then (Some(DecodeFailed), items)
    else
      var tx := unwrap(entry).value.transaction;
      match LatestName(schema, tx)
      case None => (Some(DecodeFailed), items)
      case Some(name) =>
        var latest := Decrement(items, LatestKey(name));
        var byBlock := Decrement(latest.1, BlockTypeKey(blockHash, itemType));
        var byIndex := Decrement(byBlock.1, IndexTypeKey(index, itemType));
        if latest.0.Err? then (Some(latest.0.error), byIndex.1)
        else if byBlock.0.Err? then (Some(byBlock.0.error), byIndex.1)
        else if byIndex.0.Err? then (Some(byIndex.0.error), byIndex.1)
        else
          var hash := PoppedKey(reading, entry, tx);
          var shift := Shift(reading);
          (None, byIndex.1 - {hash} - {Slot(latest.0.value - shift, LatestKey(name))}
                           - {Slot(byBlock.0.value - shift, BlockTypeKey(blockHash, itemType))}
                           - {Slot(byIndex.0.value - shift, IndexTypeKey(index, itemType))})
  }

  function PopFrom<T>(reading: Reading, items: Items, schema: Schema<T>, unwrap: Bytes -> Option<WithMetadata>,
                      entries: seq<Bytes>, blockHash: Bytes, itemType: Bytes, index: int, from: nat): (Option<IndexError>, Items)
    decreases |entries| - from
  {
    if from >= |entries| then (None, items)
    else
      var step := PopStep(reading, items, schema, unwrap, entries[from], blockHash, itemType, index);
      if step.0.Some? then step else PopFrom(reading, step.1, schema, unwrap, entries, blockHash, itemType, index, from + 1)
  }

  /** The body of popItems' loop. */
  method PopOne<T>(reading: Reading, store: Store, schema: Schema<T>, unwrap: Bytes -> Option<WithMetadata>,
                   entry: Bytes, blockHash: Bytes, itemType: Bytes, index: int)
    returns (failure: Option<IndexError>)
    modifies store
    ensures (failure, store.items) == PopStep(reading, old(store.items), schema, unwrap, entry, blockHash, itemType, index)
  {
    var withMetadata := unwrap(entry);
    if withMetadata.None? {
      return Some(DecodeFailed);
    }
    var tx := withMetadata.value.transaction;
    var name := LatestName(schema, tx);
    if name.None? {
      return Some(DecodeFailed);
    }
    var latestKey := LatestKey(name.value);
    var hashKey := BlockTypeKey(blockHash, itemType);
    var indexKey := IndexTypeKey(index, itemType);
    var latestIndex := DecrementKey(store, latestKey);
    var hashIndex := DecrementKey(store, hashKey);
    var countIndex := DecrementKey(store, indexKey);
    if latestIndex.Err? {
      return Some(latestIndex.error);
    }
    if hashIndex.Err? {
      return Some(hashIndex.error);
    }
    if countIndex.Err? {
      return Some(countIndex.error);
    }
    var hash := PoppedKey(reading, entry, tx);
    var shift := Shift(reading);
    store.RemoveItem(hash);
    store.RemoveItem(Slot(latestIndex.value - shift, latestKey));
    store.RemoveItem(Slot(hashIndex.value - shift, hashKey));
    store.RemoveItem(Slot(countIndex.value - shift, indexKey));
    return None;
  }

  /** popItems. `unwrap` is transactionWithMetadata.fromBuffer. */
  method PopItems<T>(reading: Reading, store: Store, schema: Schema<T>, unwrap: Bytes -> Option<WithMetadata>,
                     entries: seq<Bytes>, blockHash: Bytes, itemType: Bytes, index: int)
    returns (failure: Option<IndexError>)
    modifies store
    ensures (failure, store.items) == PopFrom(reading, old(store.items), schema, unwrap, entries, blockHash, itemType, index, 0)
  {
    for i := 0 to |entries|
      invariant PopFrom(reading, old(store.items), schema, unwrap, entries, blockHash, itemType, index, 0)
                == PopFrom(reading, store.items, schema, unwrap, entries, blockHash, itemType, index, i)
    {
      var failed := PopOne(reading, store, schema, unwrap, entries[i], blockHash, itemType, index);
      if failed.Some? {
        return failed;
      }
    }
    return None;
  }

  /** The transactions that the entries wrap, when they all unwrap. */
  predicate Wraps(unwrap: Bytes -> Option<WithMetadata>, entries: seq<Bytes>, txs: seq<Bytes>)
  {
    |entries| == |txs| && forall k :: 0 <= k < |entries| ==> unwrap(entries[k]).Some? && unwrap(entries[k]).value.transaction == txs[k]
  }

  /** One popped item lowers each of its three counters by one, when none
      of them is 0. */
  lemma PopStepSpec<T>(reading: Reading, items: Items, schema: Schema<T>, unwrap: Bytes -> Option<WithMetadata>,
                       entry: Bytes, blockHash: Bytes, itemType: Bytes, index: int)
    requires CountersWellFormed(items)
    requires unwrap(entry).Some? && LatestName(schema, unwrap(entry).value.transaction).Some?
    requires var name := LatestName(schema, unwrap(entry).value.transaction).value;
             && CounterOf(items, LatestKey(name)) >= 1
             && CounterOf(items, BlockTypeKey(blockHash, itemType)) >= 1
             && CounterOf(items, IndexTypeKey(index, itemType)) >= 1
    ensures var step := PopStep(reading, items, schema, unwrap, entry, blockHash, itemType, index);
            var name := LatestName(schema, unwrap(entry).value.transaction).value;
            && step.0 == None
            && CountersWellFormed(step.1)
            && forall k :: CounterOf(step.1, k) == CounterOf(items, k) - Hit(k, name, blockHash, itemType, index)
  {
    var name := LatestName(schema, unwrap(entry).value.transaction).value;
    var l, h, x := LatestKey(name), BlockTypeKey(blockHash, itemType), IndexTypeKey(index, itemType);
    DecrementThree(items, l, h, x);
    var latest := Decrement(items, l);
    var byBlock := Decrement(latest.1, h);
    var byIndex := Decrement(byBlock.1, x);
    var tx := unwrap(entry).value.transaction;
    var shift := if reading == AsWritten then 0 else 1;
    var hash := if reading == AsWritten then ItemKey(entry) else ItemKey(tx);
    var m0 := byIndex.1;
    FourRemovalsKeepCounters(m0, hash, Slot(latest.0.value - shift, l), Slot(byBlock.0.value - shift, h),
                             Slot(byIndex.0.value - shift, x));
  }

  /** Four removals of keys that are not counters keep every counter. */
  lemma FourRemovalsKeepCounters(m: Items, a: Key, b: Key, c: Key, d: Key)
    requires !a.Counter? && !b.Counter? && !c.Counter? && !d.Counter?
    requires CountersWellFormed(m)
    ensures CountersWellFormed(m - {a} - {b} - {c} - {d})
    ensures forall k :: CounterOf(m - {a} - {b} - {c} - {d}, k) == CounterOf(m, k)
  {
    RemoveKeepsCounters(m, a);
    RemoveKeepsCounters(m - {a}, b);
    RemoveKeepsCounters(m - {a} - {b}, c);
    RemoveKeepsCounters(m - {a} - {b} - {c}, d);
  }

  /** The three decrements of one popped item. */
  lemma DecrementThree(items: Items, l: CounterKey, h: CounterKey, x: CounterKey)
    requires CountersWellFormed(items)
    requires l != h && h != x && l != x
    requires CounterOf(items, l) >= 1 && CounterOf(items, h) >= 1 && CounterOf(items, x) >= 1
    ensures var latest := Decrement(items, l);
            var byBlock := Decrement(latest.1, h);
            var byIndex := Decrement(byBlock.1, x);
            && latest.0 == Ok(CounterOf(items, l))
            && byBlock.0 == Ok(CounterOf(items, h))
            && byIndex.0 == Ok(CounterOf(items, x))
            && CountersWellFormed(byIndex.1)
            && (forall k :: CounterOf(byIndex.1, k) == CounterOf(items, k) - (if k == l || k == h || k == x then 1 else 0))
            && (forall k: Key :: !k.Counter? ==> Lookup(byIndex.1, k) == Lookup(items, k))
  {
    var latest := Decrement(items, l);
    DecrementSpec(items, l);
    var byBlock := Decrement(latest.1, h);
    DecrementSpec(latest.1, h);
    var byIndex := Decrement(byBlock.1, x);
    DecrementSpec(byBlock.1, x);
    forall k
      ensures CounterOf(byIndex.1, k) == CounterOf(items, k) - (if k == l || k == h || k == x then 1 else 0)
    {
    }
  }

  /** popItems succeeds when every counter is at least the number of
      entries filed under it, and lowers each by that number. */
  lemma {:induction false} PopCounters<T>(reading: Reading, items: Items, schema: Schema<T>, unwrap: Bytes -> Option<WithMetadata>,
                                          entries: seq<Bytes>, txs: seq<Bytes>, blockHash: Bytes, itemType: Bytes, index: int, from: nat)
    requires CountersWellFormed(items)
    requires Wraps(unwrap, entries, txs) && AllNamed(schema, txs, from)
    requires forall k :: CounterOf(items, k) >= Hits(k, schema, txs, blockHash, itemType, index, from)
    ensures var after := PopFrom(reading, items, schema, unwrap, entries, blockHash, itemType, index, from);
            && after.0 == None
            && CountersWellFormed(after.1)
            && forall k :: CounterOf(after.1, k) == CounterOf(items, k) - Hits(k, schema, txs, blockHash, itemType, index, from)
    decreases |entries| - from
  {
    if from < |entries| {
      var name := LatestName(schema, txs[from]).value;
      assert forall k :: Hits(k, schema, txs, blockHash, itemType, index, from)
                       == Hit(k, name, blockHash, itemType, index) + Hits(k, schema, txs, blockHash, itemType, index, from + 1);
      assert Hits(LatestKey(name), schema, txs, blockHash, itemType, index, from) >= 1;
      assert Hits(BlockTypeKey(blockHash, itemType), schema, txs, blockHash, itemType, index, from) >= 1;
      assert Hits(IndexTypeKey(index, itemType), schema, txs, blockHash, itemType, index, from) >= 1;
      PopStepSpec(reading, items, schema, unwrap, entries[from], blockHash, itemType, index);
      var step := PopStep(reading, items, schema, unwrap, entries[from], blockHash, itemType, index);
      PopCounters(reading, step.1, schema, unwrap, entries, txs, blockHash, itemType, index, from + 1);
    }
  }

  /** popItems over the entries of the items that pushItems filed, in
      either reading, restores every counter. */
  lemma PushThenPopRestoresCounters<T>(reading: Reading, items: Items, schema: Schema<T>, unwrap: Bytes -> Option<WithMetadata>,
                                       objs: seq<Bytes>, entries: seq<Bytes>, blockHash: Bytes, itemType: Bytes, index: int)
    requires CountersWellFormed(items)
    requires AllNamed(schema, objs, 0) && Wraps(unwrap, entries, objs)
    ensures var pushed := PushFrom(items, schema, objs, blockHash, itemType, index, 0);
            var popped := PopFrom(reading, pushed.1, schema, unwrap, entries, blockHash, itemType, index, 0);
            && pushed.0 == None && popped.0 == None
            && CountersWellFormed(popped.1)
            && forall k :: CounterOf(popped.1, k) == CounterOf(items, k)
  {
    PushCounters(items, schema, objs, blockHash, itemType, index);
    var pushed := PushFrom(items, schema, objs, blockHash, itemType, index, 0);
    PopCounters(reading, pushed.1, schema, unwrap, entries, objs, blockHash, itemType, index, 0);
  }

  // ---------------------------------------------------------------------
  // getItems, getItemsByIndex, getItemsByBlock

  /** What getItems makes of one filed transaction: Ok(None) when its
      recipient `to` differs from the type's prefix of the same length (the
      entry is filtered out), Ok(Some(item)) when it matches and its data
      decodes. compareBuffers throws when the type is shorter than `to`. A
      throw inside one of getItems' promises keeps Promise.all from ever
      settling; Err stands for that. */
  function ReadTransaction<T>(schema: Schema<T>, itemType: Bytes, tx: Bytes): Result<Option<T>, IndexError>
  {
    match schema.message(tx)
    case None => Err(DecodeFailed)
    case Some(msg) =>
      var prefix := if |msg.to| <= |itemType| then itemType[..|msg.to|] else itemType;
      match Compare.BufferDiff(msg.to, prefix)
      case Err(e) => Err(TypeMismatch(e))
      case Ok(d) =>
        if d != 0 then Ok(None)
        else if schema.decode(msg.data).None? then Err(DecodeFailed)
        else Ok(Some(schema.decode(msg.data).value))
  }

  /** Slot i of `key`: the item key it refers to, the entry filed there,
      and the transaction in it. */
  function ReadSlot<T>(items: Items, schema: Schema<T>, key: CounterKey, itemType: Bytes, i: int): Result<Option<T>, IndexError>
  {
    match Lookup(items, Slot(i, key))
    case Some(Ref(hash)) =>
      (match Lookup(items, hash)
       case Some(Meta(w)) => ReadTransaction(schema, itemType, w.transaction)
       case _ => Err(Unreadable(hash)))
    case _ => Err(Unreadable(Slot(i, key)))
  }

  /** The items kept from slots i .. n-1, in slot order. */
  function ItemsFrom<T>(items: Items, schema: Schema<T>, key: CounterKey, itemType: Bytes, i: int, n: int): Result<seq<T>, IndexError>
    decreases n - i
  {
    if i >= n then Ok([])
    else
      match ReadSlot(items, schema, key, itemType, i)
      case Err(e) => Err(e)
      case Ok(o) => Prepend(if o.Some? then [o.value] else [], ItemsFrom(items, schema, key, itemType, i + 1, n))
  }

  /** getItems: the slots 0 .. counter-1 of `key`. */
  function ItemsUnder<T>(items: Items, schema: Schema<T>, key: CounterKey, itemType: Bytes): Result<seq<T>, IndexError>
  {
    match CounterText(Lookup(items, Counter(key)))
    case None => Err(NotACounter(key))
    case Some(n) => ItemsFrom(items, schema, key, itemType, 0, n)
  }

  method GetItems<T>(store: Store, schema: Schema<T>, key: CounterKey, itemType: Bytes) returns (r: Result<seq<T>, IndexError>)
    ensures r == ItemsUnder(store.items, schema, key, itemType)
  {
    var text := store.GetItem(Counter(key));
    var length := CounterText(text);
    if length.None? {
      return Err(NotACounter(key));
    }
    var found: seq<T> := [];
    PrependConcat(found, [], ItemsFrom(store.items, schema, key, itemType, 0, length.value));
    for i := 0 to length.value
      invariant ItemsUnder(store.items, schema, key, itemType)
                == Prepend(found, ItemsFrom(store.items, schema, key, itemType, i, length.value))
    {
      var one := GetSlot(store, schema, key, itemType, i);
      if one.Err? {
        return Err(one.error);
      }
      var kept := if one.value.Some? then [one.value.value] else [];
      PrependConcat(found, kept, ItemsFrom(store.items, schema, key, itemType, i + 1, length.value));
      found := found + kept;
    }
    PrependConcat<T, IndexError>(found, [], Ok([]));
    return Ok(found);
  }

  /** The body of one of getItems' promises. */
  method GetSlot<T>(store: Store, schema: Schema<T>, key: CounterKey, itemType: Bytes, i: int) returns (r: Result<Option<T>, IndexError>)
    ensures r == ReadSlot(store.items, schema, key, itemType, i)
  {
    var hash := store.GetItem(Slot(i, key));
    if !(hash.Some? && hash.value.Ref?) {
      return Err(Unreadable(Slot(i, key)));
    }
    var entry := store.GetItem(hash.value.key);
    if !(entry.Some? && entry.value.Meta?) {
      return Err(Unreadable(hash.value.key));
    }
    var msg := schema.message(entry.value.meta.transaction);
    if msg.None? {
      return Err(DecodeFailed);
    }
    var prefix := if |msg.value.to| <= |itemType| then itemType[..|msg.value.to|] else itemType;
    var diff := Compare.CompareBuffers(msg.value.to, prefix);
    if diff.Err? {
      return Err(TypeMismatch(diff.error));
    }
    if diff.value != 0 {
      return Ok(None);
    }
    var item := schema.decode(msg.value.data);
    if item.None? {
      return Err(DecodeFailed);
    }
    return Ok(Some(item.value));
  }

  method GetItemsByIndex<T>(store: Store, schema: Schema<T>, index: int, itemType: Bytes) returns (r: Result<seq<T>, IndexError>)
    ensures r == ItemsUnder(store.items, schema, IndexTypeKey(index, itemType), itemType)
  {
    r := GetItems(store, schema, IndexTypeKey(index, itemType), itemType);
  }

  method GetItemsByBlock<T>(store: Store, schema: Schema<T>, blockHash: Bytes, itemType: Bytes) returns (r: Result<seq<T>, IndexError>)
    ensures r == ItemsUnder(store.items, schema, BlockTypeKey(blockHash, itemType), itemType)
  {
    r := GetItems(store, schema, BlockTypeKey(blockHash, itemType), itemType);
  }

  /** One transaction is kept exactly when its recipient equals the type's
      prefix of the same length and its data decodes; it is dropped exactly
      when the recipient fits in the type and differs from that prefix. */
  lemma ReadTransactionCases<T>(schema: Schema<T>, itemType: Bytes, tx: Bytes)
    ensures ReadTransaction(schema, itemType, tx).Ok? && ReadTransaction(schema, itemType, tx).value.Some? <==>
              && schema.message(tx).Some?
              && |schema.message(tx).value.to| <= |itemType|
              && schema.message(tx).value.to == itemType[..|schema.message(tx).value.to|]
              && schema.decode(schema.message(tx).value.data).Some?
    ensures ReadTransaction(schema, itemType, tx) == Ok(None) <==>
              && schema.message(tx).Some?
              && |schema.message(tx).value.to| <= |itemType|
              && schema.message(tx).value.to != itemType[..|schema.message(tx).value.to|]
    ensures ReadTransaction(schema, itemType, tx).Ok? && ReadTransaction(schema, itemType, tx).value.Some? ==>
              ReadTransaction(schema, itemType, tx).value.value == schema.decode(schema.message(tx).value.data).value
  {
    if schema.message(tx).Some? {
      var msg := schema.message(tx).value;
      var prefix := if |msg.to| <= |itemType| then itemType[..|msg.to|] else itemType;
      Compare.BufferDiffCases(msg.to, prefix);
    }
  }

  /** getItems over a list of transactions: those kept, in order. */
  function Kept<T>(schema: Schema<T>, itemType: Bytes, txs: seq<Bytes>): Result<seq<T>, IndexError>
  {
    if txs == [] then Ok([])
    else
      match ReadTransaction(schema, itemType, txs[0])
      case Err(e) => Err(e)
      case Ok(o) => Prepend(if o.Some? then [o.value] else [], Kept(schema, itemType, txs[1..]))
  }

  /** The item key of each of txs holds an entry wrapping it. */
  ghost predicate EntriesWrap(m: Items, txs: seq<Bytes>)
  {
    forall k :: 0 <= k < |txs| ==> Lookup(m, ItemKey(txs[k])).Some? && Lookup(m, ItemKey(txs[k])).value.Meta?
                                   && Lookup(m, ItemKey(txs[k])).value.meta.transaction == txs[k]
  }

  /** Slots c .. c + |txs| - 1 referring to the entries of txs read back as
      getItems over txs. */
  lemma {:induction false} SlotsRead<T>(m: Items, schema: Schema<T>, key: CounterKey, itemType: Bytes, c: int, txs: seq<Bytes>)
    requires SlotsHold(m, key, c, txs) && EntriesWrap(m, txs)
    ensures ItemsFrom(m, schema, key, itemType, c, c + |txs|) == Kept(schema, itemType, txs)
    decreases |txs|
  {
    if txs != [] {
      assert Lookup(m, Slot(c + 0, key)) == Some(Ref(ItemKey(txs[0])));
      assert ReadSlot(m, schema, key, itemType, c) == ReadTransaction(schema, itemType, txs[0]);
      SlotsHoldTail(m, key, c, txs);
      SlotsRead(m, schema, key, itemType, c + 1, txs[1..]);
      assert c + 1 + |txs[1..]| == c + |txs|;
    }
  }

  lemma SlotsHoldTail(m: Items, key: CounterKey, c: int, txs: seq<Bytes>)
    requires txs != [] && SlotsHold(m, key, c, txs) && EntriesWrap(m, txs)
    ensures SlotsHold(m, key, c + 1, txs[1..]) && EntriesWrap(m, txs[1..])
  {
    forall k | 0 <= k < |txs[1..]| ensures Lookup(m, Slot(c + 1 + k, key)) == Some(Ref(ItemKey(txs[1..][k]))) {
      assert Lookup(m, Slot(c + (k + 1), key)) == Some(Ref(ItemKey(txs[k + 1])));
      assert c + 1 + k == c + (k + 1);
    }
    forall k | 0 <= k < |txs[1..]| ensures Lookup(m, ItemKey(txs[1..][k])) == Lookup(m, ItemKey(txs[k + 1])) {
    }
  }

  /** Reading a block's or an index's items after pushItems into a counter
      that was 0: exactly the pushed transactions that getItems keeps, in
      the order they were pushed. */
  lemma PushThenGetItems<T>(items: Items, schema: Schema<T>, objs: seq<Bytes>, blockHash: Bytes, itemType: Bytes, index: int,
                            key: CounterKey)
    requires CountersWellFormed(items)
    requires AllNamed(schema, objs, 0)
    requires key == BlockTypeKey(blockHash, itemType) || key == IndexTypeKey(index, itemType)
    requires CounterOf(items, key) == 0
    ensures ItemsUnder(PushFrom(items, schema, objs, blockHash, itemType, index, 0).1, schema, key, itemType)
            == Kept(schema, itemType, objs)
  {
    var after := PushFrom(items, schema, objs, blockHash, itemType, index, 0).1;
    PushCounters(items, schema, objs, blockHash, itemType, index);
    SharedHits(schema, objs, blockHash, itemType, index, 0);
    assert CounterOf(after, key) == |objs|;
    PushFillsSlots(items, schema, objs, blockHash, itemType, index, 0, key);
    assert objs[0..] == objs;
    forall k | 0 <= k < |objs| ensures Lookup(after, ItemKey(objs[k])) == Some(Meta(WithMetadata(blockHash, index, objs[k]))) {
      assert objs[k] in objs;
    }
    SlotsRead(after, schema, key, itemType, 0, objs);
  }

  // ---------------------------------------------------------------------
  // The shape pushItems keeps, getLatestItem, and what popItems undoes

  /** The shape of a store that only pushItems has written: counters are
      decimal text, every slot lies below its counter and refers to a filed
      item key, and every item key holds an entry wrapping the transaction
      it was computed from. */
  ghost predicate Tidy(items: Items)
  {
    && CountersWellFormed(items)
    && (forall j, key :: Slot(j, key) in items ==>
          && 0 <= j < CounterOf(items, key)
          && items[Slot(j, key)].Ref? && items[Slot(j, key)].key.ItemKey? && items[Slot(j, key)].key in items)
    && (forall o :: ItemKey(o) in items ==> items[ItemKey(o)].Meta? && items[ItemKey(o)].meta.transaction == o)
  }

  /** Pushing one named item keeps the shape. */
  lemma PushedKeepsTidy(items: Items, name: string, obj: Bytes, blockHash: Bytes, itemType: Bytes, index: int)
    requires Tidy(items)
    ensures Tidy(Pushed(items, name, obj, blockHash, itemType, index))
  {
    var after := Pushed(items, name, obj, blockHash, itemType, index);
    PushedCounters(items, name, obj, blockHash, itemType, index);
    forall j, key | Slot(j, key) in after
      ensures 0 <= j < CounterOf(after, key)
      ensures after[Slot(j, key)].Ref? && after[Slot(j, key)].key.ItemKey? && after[Slot(j, key)].key in after
    {
      assert CounterOf(items, key) <= CounterOf(after, key);
    }
  }

  /** pushItems keeps the shape, whether or not it throws. */
  lemma {:induction false} PushKeepsTidy<T>(items: Items, schema: Schema<T>, objs: seq<Bytes>, blockHash: Bytes, itemType: Bytes, index: int, from: nat)
    requires Tidy(items)
    ensures Tidy(PushFrom(items, schema, objs, blockHash, itemType, index, from).1)
    decreases |objs| - from
  {
    if from < |objs| {
      var step := PushStep(items, schema, objs[from], blockHash, itemType, index);
      if LatestName(schema, objs[from]).Some? {
        PushStepShape(items, schema, objs[from], blockHash, itemType, index);
        PushedKeepsTidy(items, LatestName(schema, objs[from]).value, objs[from], blockHash, itemType, index);
        PushKeepsTidy(step.1, schema, objs, blockHash, itemType, index, from + 1);
      }
    }
  }

  /** The result of getLatestItem. */
  datatype Latest<T> = Latest(latest: T, blockIndex: int, latestKey: CounterKey)

  /** messageType.fromBuffer, then the item's own schema. */
  function Decoded<T>(schema: Schema<T>, tx: Bytes): Option<T>
  {
    if schema.message(tx).None? then None else schema.decode(schema.message(tx).value.data)
  }

  /** getLatestItem: the entry in the slot of the query's latest-key
      numbered by its counter. As written that is the counter itself, one
      past the last filled slot; the intended slot is counter - 1. */
  function LatestItem<T>(reading: Reading, items: Items, schema: Schema<T>, unwrap: Bytes -> Option<WithMetadata>, obj: Bytes)
    : (r: Result<Latest<T>, IndexError>)
    ensures r.Ok? ==> r.value.latestKey.LatestKey?
    ensures r.Ok? ==> unwrap(obj).Some? && LatestName(schema, unwrap(obj).value.transaction) == Some(r.value.latestKey.name)
  {
    if unwrap(obj).None? then Err(DecodeFailed)
    else
      match LatestName(schema, unwrap(obj).value.transaction)
      case None => Err(DecodeFailed)
      case Some(name) =>
        match CounterText(Lookup(items, Counter(LatestKey(name))))
        case None => Err(NotACounter(LatestKey(name)))
        case Some(n) =>
          var slot := Slot(if reading == AsWritten then n else n - 1, LatestKey(name));
          match Lookup(items, slot)
          case Some(Ref(hash)) =>
            (match Lookup(items, hash)
             case Some(Meta(w)) =>
               (match Decoded(schema, w.transaction)
                case None => Err(DecodeFailed)
                case Some(item) => Ok(Latest(item, w.index, LatestKey(name))))
             case _ => Err(Unreadable(hash)))
          case _ => Err(Unreadable(slot))
  }

  method GetLatestItem<T>(reading: Reading, store: Store, schema: Schema<T>, unwrap: Bytes -> Option<WithMetadata>, obj: Bytes)
    returns (r: Result<Latest<T>, IndexError>)
    ensures r == LatestItem(reading, store.items, schema, unwrap, obj)
  {
    var withMetadataEntry := unwrap(obj);
    if withMetadataEntry.None? {
      return Err(DecodeFailed);
    }
    var name := LatestName(schema, withMetadataEntry.value.transaction);
    if name.None? {
      return Err(DecodeFailed);
    }
    var latestKey := LatestKey(name.value);
    var text := store.GetItem(Counter(latestKey));
    var index := CounterText(text);
    if index.None? {
      return Err(NotACounter(latestKey));
    }
    var itemKey := Slot(if reading == AsWritten then index.value else index.value as int - 1, latestKey);
    var hash := store.GetItem(itemKey);
    if !(hash.Some? && hash.value.Ref?) {
      return Err(Unreadable(itemKey));
    }
    var item := store.GetItem(hash.value.key);
    if !(item.Some? && item.value.Meta?) {
      return Err(Unreadable(hash.value.key));
    }
    var latest := Decoded(schema, item.value.meta.transaction);
    if latest.None? {
      return Err(DecodeFailed);
    }
    return Ok(Latest(latest.value, item.value.meta.index, latestKey));
  }

  /** pushItems of one named item is the Pushed store. */
  lemma PushOne<T>(items: Items, schema: Schema<T>, obj: Bytes, blockHash: Bytes, itemType: Bytes, index: int)
    requires CountersWellFormed(items)
    requires LatestName(schema, obj).Some?
    ensures PushFrom(items, schema, [obj], blockHash, itemType, index, 0) ==
              (None, Pushed(items, LatestName(schema, obj).value, obj, blockHash, itemType, index))
  {
    PushStepShape(items, schema, obj, blockHash, itemType, index);
  }

  /** Right after an item is pushed, a query with the same latest-key finds
      it in the intended reading. */
  lemma LatestAfterPush<T>(items: Items, schema: Schema<T>, unwrap: Bytes -> Option<WithMetadata>, obj: Bytes, query: Bytes,
                           blockHash: Bytes, itemType: Bytes, index: int)
    requires Tidy(items)
    requires LatestName(schema, obj).Some?
    requires unwrap(query).Some? && LatestName(schema, unwrap(query).value.transaction) == LatestName(schema, obj)
    ensures var after := PushFrom(items, schema, [obj], blockHash, itemType, index, 0).1;
            LatestItem(Intended, after, schema, unwrap, query) ==
              Ok(Latest(Decoded(schema, obj).value, index, LatestKey(LatestName(schema, obj).value)))
  {
    var name := LatestName(schema, obj).value;
    PushOne(items, schema, obj, blockHash, itemType, index);
    var after := Pushed(items, name, obj, blockHash, itemType, index);
    var l := LatestKey(name);
    var c := CounterOf(items, l);
    PushedCounters(items, name, obj, blockHash, itemType, index);
    assert Lookup(after, Counter(l)) == Some(Decimal(c + 1));
    assert Lookup(after, Slot(c, l)) == Some(Ref(ItemKey(obj)));
    assert Lookup(after, ItemKey(obj)) == Some(Meta(WithMetadata(blockHash, index, obj)));
  }

  /** As written, the same query right after the push reads the slot one
      past the one just filled, which holds nothing, and throws. */
  lemma LatestAsWrittenMissesPush<T>(items: Items, schema: Schema<T>, unwrap: Bytes -> Option<WithMetadata>, obj: Bytes, query: Bytes,
                                     blockHash: Bytes, itemType: Bytes, index: int)
    requires Tidy(items)
    requires LatestName(schema, obj).Some?
    requires unwrap(query).Some? && LatestName(schema, unwrap(query).value.transaction) == LatestName(schema, obj)
    ensures var after := PushFrom(items, schema, [obj], blockHash, itemType, index, 0).1;
            var l := LatestKey(LatestName(schema, obj).value);
            LatestItem(AsWritten, after, schema, unwrap, query) == Err(Unreadable(Slot(CounterOf(items, l) + 1, l)))
  {
    var name := LatestName(schema, obj).value;
    PushOne(items, schema, obj, blockHash, itemType, index);
    var after := Pushed(items, name, obj, blockHash, itemType, index);
    var l := LatestKey(name);
    var c := CounterOf(items, l);
    PushedCounters(items, name, obj, blockHash, itemType, index);
    assert Lookup(after, Counter(l)) == Some(Decimal(c + 1));
    assert Slot(c + 1, l) !in items;
    assert Lookup(after, Slot(c + 1, l)) == None;
  }

  /** Two stores agreeing on every key but the counters, and on every
      counter's value, have the same shape. */
  lemma TidyAgrees(items: Items, m: Items)
    requires Tidy(items) && CountersWellFormed(m)
    requires forall k: Key :: !k.Counter? ==> Lookup(m, k) == Lookup(items, k)
    requires forall k :: CounterOf(m, k) == CounterOf(items, k)
    ensures Tidy(m)
  {
    forall j, key | Slot(j, key) in m
      ensures 0 <= j < CounterOf(m, key)
      ensures m[Slot(j, key)].Ref? && m[Slot(j, key)].key.ItemKey? && m[Slot(j, key)].key in m
    {
      assert Lookup(m, Slot(j, key)) == Lookup(items, Slot(j, key));
      var o := items[Slot(j, key)].key.obj;
      assert Lookup(m, ItemKey(o)) == Lookup(items, ItemKey(o));
    }
    forall o | ItemKey(o) in m ensures m[ItemKey(o)].Meta? && m[ItemKey(o)].meta.transaction == o {
      assert Lookup(m, ItemKey(o)) == Lookup(items, ItemKey(o));
    }
  }

  /** The store after one item named `name` is popped: its three counters
      one lower, and the item key and the three slots that the reading
      removes gone. */
  function Popped(items: Items, name: string, hash: Key, shift: int, blockHash: Bytes, itemType: Bytes, index: int): Items
    requires CountersWellFormed(items)
    requires CounterOf(items, LatestKey(name)) >= 1 && CounterOf(items, BlockTypeKey(blockHash, itemType)) >= 1
    requires CounterOf(items, IndexTypeKey(index, itemType)) >= 1
  {
    var l, h, x := LatestKey(name), BlockTypeKey(blockHash, itemType), IndexTypeKey(index, itemType);
    var cl, ch, cx := CounterOf(items, l), CounterOf(items, h), CounterOf(items, x);
    LowerAndRemove(items, l, h, x, hash, Slot(cl - shift, l), Slot(ch - shift, h), Slot(cx - shift, x))
  }

  /** Counters l, h and x one lower, and keys a, b, c and d removed. */
  function LowerAndRemove(items: Items, l: CounterKey, h: CounterKey, x: CounterKey, a: Key, b: Key, c: Key, d: Key): Items
    requires CountersWellFormed(items)
    requires CounterOf(items, l) >= 1 && CounterOf(items, h) >= 1 && CounterOf(items, x) >= 1
  {
    items[Counter(l) := Decimal(CounterOf(items, l) - 1)]
         [Counter(h) := Decimal(CounterOf(items, h) - 1)]
         [Counter(x) := Decimal(CounterOf(items, x) - 1)]
         - {a} - {b} - {c} - {d}
  }

  /** The item key popItems removes: as written the hash of the metadata
      entry, in the intended reading that of the transaction. */
  function PoppedKey(reading: Reading, entry: Bytes, tx: Bytes): Key
  {
    if reading == AsWritten then ItemKey(entry) else ItemKey(tx)
  }

  /** How far below the counter before the decrement the removed slot
      lies. */
  function Shift(reading: Reading): int
  {
    if reading == AsWritten then 0 else 1
  }

  /** An entry whose item is named and whose counters are all at least 1 is
      popped without a throw, giving Popped. */
  lemma PopStepShape<T>(reading: Reading, items: Items, schema: Schema<T>, unwrap: Bytes -> Option<WithMetadata>,
                        entry: Bytes, blockHash: Bytes, itemType: Bytes, index: int)
    requires CountersWellFormed(items)
    requires unwrap(entry).Some? && LatestName(schema, unwrap(entry).value.transaction).Some?
    requires var name := LatestName(schema, unwrap(entry).value.transaction).value;
             && CounterOf(items, LatestKey(name)) >= 1
             && CounterOf(items, BlockTypeKey(blockHash, itemType)) >= 1
             && CounterOf(items, IndexTypeKey(index, itemType)) >= 1
    ensures var tx := unwrap(entry).value.transaction;
            PopStep(reading, items, schema, unwrap, entry, blockHash, itemType, index) ==
              (None, Popped(items, LatestName(schema, tx).value, PoppedKey(reading, entry, tx), Shift(reading), blockHash, itemType, index))
  {
    var tx := unwrap(entry).value.transaction;
    var name := LatestName(schema, tx).value;
    var l, h, x := LatestKey(name), BlockTypeKey(blockHash, itemType), IndexTypeKey(index, itemType);
    var cl, ch, cx := CounterOf(items, l), CounterOf(items, h), CounterOf(items, x);
    var latest := Decrement(items, l);
    DecrementSpec(items, l);
    assert latest == (Ok(cl), items[Counter(l) := Decimal(cl - 1)]);
    var byBlock := Decrement(latest.1, h);
    DecrementSpec(latest.1, h);
    assert byBlock == (Ok(ch), latest.1[Counter(h) := Decimal(ch - 1)]);
    var byIndex := Decrement(byBlock.1, x);
    DecrementSpec(byBlock.1, x);
    assert byIndex == (Ok(cx), byBlock.1[Counter(x) := Decimal(cx - 1)]);
  }

  /** Pushing one named item and popping its entry, as two compositions of
      Pushed and Popped. */
  lemma PushPopOne<T>(reading: Reading, items: Items, schema: Schema<T>, unwrap: Bytes -> Option<WithMetadata>, obj: Bytes, entry: Bytes,
                      blockHash: Bytes, itemType: Bytes, index: int)
    requires CountersWellFormed(items)
    requires LatestName(schema, obj).Some?
    requires unwrap(entry).Some? && unwrap(entry).value.transaction == obj
    ensures var name := LatestName(schema, obj).value;
            var pushed := Pushed(items, name, obj, blockHash, itemType, index);
            && CountersWellFormed(pushed)
            && CountersRaised(pushed, items, name, blockHash, itemType, index)
            && CounterOf(pushed, LatestKey(name)) == CounterOf(items, LatestKey(name)) + 1
            && CounterOf(pushed, BlockTypeKey(blockHash, itemType)) == CounterOf(items, BlockTypeKey(blockHash, itemType)) + 1
            && CounterOf(pushed, IndexTypeKey(index, itemType)) == CounterOf(items, IndexTypeKey(index, itemType)) + 1
            && PushFrom(items, schema, [obj], blockHash, itemType, index, 0) == (None, pushed)
            && PopFrom(reading, pushed, schema, unwrap, [entry], blockHash, itemType, index, 0)
               == (None, Popped(pushed, name, PoppedKey(reading, entry, obj), Shift(reading), blockHash, itemType, index))
  {
    var name := LatestName(schema, obj).value;
    PushOne(items, schema, obj, blockHash, itemType, index);
    PushedCounters(items, name, obj, blockHash, itemType, index);
    var pushed := Pushed(items, name, obj, blockHash, itemType, index);
    assert CounterOf(pushed, LatestKey(name)) == CounterOf(items, LatestKey(name)) + Hit(LatestKey(name), name, blockHash, itemType, index);
    assert CounterOf(pushed, BlockTypeKey(blockHash, itemType)) == CounterOf(items, BlockTypeKey(blockHash, itemType))
           + Hit(BlockTypeKey(blockHash, itemType), name, blockHash, itemType, index);
    assert CounterOf(pushed, IndexTypeKey(index, itemType)) == CounterOf(items, IndexTypeKey(index, itemType))
           + Hit(IndexTypeKey(index, itemType), name, blockHash, itemType, index);
    PopStepShape(reading, pushed, schema, unwrap, entry, blockHash, itemType, index);
  }

  /** In the intended reading, popItems of the entry of an item just pushed,
      and not filed before, gives the store back: every key other than the
      counters as it was, every counter at its old value, and the shape
      kept. */
  lemma PopUndoesPush<T>(items: Items, schema: Schema<T>, unwrap: Bytes -> Option<WithMetadata>, obj: Bytes, entry: Bytes,
                         blockHash: Bytes, itemType: Bytes, index: int)
    requires Tidy(items)
    requires LatestName(schema, obj).Some? && ItemKey(obj) !in items
    requires unwrap(entry).Some? && unwrap(entry).value.transaction == obj
    ensures var pushed := PushFrom(items, schema, [obj], blockHash, itemType, index, 0).1;
            var popped := PopFrom(Intended, pushed, schema, unwrap, [entry], blockHash, itemType, index, 0);
            && popped.0 == None
            && Tidy(popped.1)
            && (forall k :: CounterOf(popped.1, k) == CounterOf(items, k))
            && (forall k: Key :: !k.Counter? ==> Lookup(popped.1, k) == Lookup(items, k))
  {
    var name := LatestName(schema, obj).value;
    PushPopOne(Intended, items, schema, unwrap, obj, entry, blockHash, itemType, index);
    var pushed := Pushed(items, name, obj, blockHash, itemType, index);
    var removed := Popped(pushed, name, ItemKey(obj), 1, blockHash, itemType, index);
    PoppedPushed(items, name, obj, entry, blockHash, itemType, index);
    TidyAgrees(items, removed);
  }

  lemma PoppedPushed(items: Items, name: string, obj: Bytes, entry: Bytes, blockHash: Bytes, itemType: Bytes, index: int)
    requires Tidy(items) && ItemKey(obj) !in items
    requires var pushed := Pushed(items, name, obj, blockHash, itemType, index);
             && CountersWellFormed(pushed)
             && CountersRaised(pushed, items, name, blockHash, itemType, index)
             && CounterOf(pushed, LatestKey(name)) == CounterOf(items, LatestKey(name)) + 1
             && CounterOf(pushed, BlockTypeKey(blockHash, itemType)) == CounterOf(items, BlockTypeKey(blockHash, itemType)) + 1
             && CounterOf(pushed, IndexTypeKey(index, itemType)) == CounterOf(items, IndexTypeKey(index, itemType)) + 1
    ensures var pushed := Pushed(items, name, obj, blockHash, itemType, index);
            var removed := Popped(pushed, name, ItemKey(obj), 1, blockHash, itemType, index);
            && CountersWellFormed(removed)
            && (forall k :: CounterOf(removed, k) == CounterOf(items, k))
            && (forall k: Key :: !k.Counter? ==> Lookup(removed, k) == Lookup(items, k))
  {
    var l, h, x := LatestKey(name), BlockTypeKey(blockHash, itemType), IndexTypeKey(index, itemType);
    var cl, ch, cx := CounterOf(items, l), CounterOf(items, h), CounterOf(items, x);
    var pushed := Pushed(items, name, obj, blockHash, itemType, index);
    var removed := Popped(pushed, name, ItemKey(obj), 1, blockHash, itemType, index);
    PoppedFrame(pushed, name, ItemKey(obj), 1, blockHash, itemType, index);
    PoppedCounters(pushed, name, ItemKey(obj), 1, blockHash, itemType, index);
    PoppedPushedKeys(items, name, obj, removed, blockHash, itemType, index);
    forall k ensures CounterOf(removed, k) == CounterOf(items, k) {
      assert CounterOf(pushed, k) == CounterOf(items, k) + Hit(k, name, blockHash, itemType, index);
      assert CounterOf(removed, k) == CounterOf(pushed, k) - Hit(k, name, blockHash, itemType, index);
    }
  }

  /** Removing what Pushed wrote, when nothing was there before, leaves
      every key but the counters as it was. */
  lemma PoppedPushedKeys(items: Items, name: string, obj: Bytes, removed: Items, blockHash: Bytes, itemType: Bytes, index: int)
    requires Tidy(items) && ItemKey(obj) !in items
    requires var l, h, x := LatestKey(name), BlockTypeKey(blockHash, itemType), IndexTypeKey(index, itemType);
             var cl, ch, cx := CounterOf(items, l), CounterOf(items, h), CounterOf(items, x);
             KeysKept(removed, Pushed(items, name, obj, blockHash, itemType, index), ItemKey(obj), Slot(cl, l), Slot(ch, h), Slot(cx, x))
    ensures forall k: Key :: !k.Counter? ==> Lookup(removed, k) == Lookup(items, k)
  {
    var l, h, x := LatestKey(name), BlockTypeKey(blockHash, itemType), IndexTypeKey(index, itemType);
    var cl, ch, cx := CounterOf(items, l), CounterOf(items, h), CounterOf(items, x);
    var pushed := Pushed(items, name, obj, blockHash, itemType, index);
    PushedFrame(items, name, obj, blockHash, itemType, index);
    assert Slot(cl, l) !in items && Slot(ch, h) !in items && Slot(cx, x) !in items;
    forall k: Key | !k.Counter? ensures Lookup(removed, k) == Lookup(items, k) {
      if !(k == ItemKey(obj) || k == Slot(cl, l) || k == Slot(ch, h) || k == Slot(cx, x)) {
        assert Lookup(removed, k) == Lookup(pushed, k);
      }
    }
  }

  /** Every key but the counters is as in `before`, except a, b, c and d,
      which are absent. */
  ghost predicate KeysKept(after: Items, before: Items, a: Key, b: Key, c: Key, d: Key)
  {
    forall k: Key :: !k.Counter? ==> Lookup(after, k) == if k == a || k == b || k == c || k == d then None else Lookup(before, k)
  }

  /** Each counter falls by the number of the item's keys it is. */
  ghost predicate CountersLowered(after: Items, items: Items, name: string, blockHash: Bytes, itemType: Bytes, index: int)
    requires CountersWellFormed(after) && CountersWellFormed(items)
  {
    forall k :: CounterOf(after, k) == CounterOf(items, k) - Hit(k, name, blockHash, itemType, index)
  }

  /** Pushed writes the item key and the three slots, and no other key but
      the counters. */
  lemma PushedFrame(items: Items, name: string, obj: Bytes, blockHash: Bytes, itemType: Bytes, index: int)
    requires CountersWellFormed(items)
    ensures var l, h, x := LatestKey(name), BlockTypeKey(blockHash, itemType), IndexTypeKey(index, itemType);
            var cl, ch, cx := CounterOf(items, l), CounterOf(items, h), CounterOf(items, x);
            forall k: Key :: !k.Counter? ==>
              Lookup(Pushed(items, name, obj, blockHash, itemType, index), k) ==
                if k in {Slot(cl, l), Slot(ch, h), Slot(cx, x)} then Some(Ref(ItemKey(obj)))
                else if k == ItemKey(obj) then Some(Meta(WithMetadata(blockHash, index, obj)))
                else Lookup(items, k)
  {
  }

  /** Popped lowers the three counters, removes the item key and the three
      slots of its reading, and changes nothing else. */
  lemma PoppedFrame(items: Items, name: string, hash: Key, shift: int, blockHash: Bytes, itemType: Bytes, index: int)
    requires CountersWellFormed(items) && !hash.Counter?
    requires CounterOf(items, LatestKey(name)) >= 1 && CounterOf(items, BlockTypeKey(blockHash, itemType)) >= 1
    requires CounterOf(items, IndexTypeKey(index, itemType)) >= 1
    ensures var after := Popped(items, name, hash, shift, blockHash, itemType, index);
            && CountersWellFormed(after)
            && KeysKept(after, items, hash,
                        Slot(CounterOf(items, LatestKey(name)) - shift, LatestKey(name)),
                        Slot(CounterOf(items, BlockTypeKey(blockHash, itemType)) - shift, BlockTypeKey(blockHash, itemType)),
                        Slot(CounterOf(items, IndexTypeKey(index, itemType)) - shift, IndexTypeKey(index, itemType)))
  {
    var l, h, x := LatestKey(name), BlockTypeKey(blockHash, itemType), IndexTypeKey(index, itemType);
    var cl, ch, cx := CounterOf(items, l), CounterOf(items, h), CounterOf(items, x);
    LoweredCounters(items, l, h, x, name, blockHash, itemType, index, hash, Slot(cl - shift, l), Slot(ch - shift, h), Slot(cx - shift, x));
  }

  /** Popped lowers each of the item's three counters by one. */
  lemma PoppedCounters(items: Items, name: string, hash: Key, shift: int, blockHash: Bytes, itemType: Bytes, index: int)
    requires CountersWellFormed(items) && !hash.Counter?
    requires CounterOf(items, LatestKey(name)) >= 1 && CounterOf(items, BlockTypeKey(blockHash, itemType)) >= 1
    requires CounterOf(items, IndexTypeKey(index, itemType)) >= 1
    ensures var after := Popped(items, name, hash, shift, blockHash, itemType, index);
            && CountersWellFormed(after)
            && CountersLowered(after, items, name, blockHash, itemType, index)
  {
    var l, h, x := LatestKey(name), BlockTypeKey(blockHash, itemType), IndexTypeKey(index, itemType);
    var cl, ch, cx := CounterOf(items, l), CounterOf(items, h), CounterOf(items, x);
    LoweredCounters(items, l, h, x, name, blockHash, itemType, index, hash, Slot(cl - shift, l), Slot(ch - shift, h), Slot(cx - shift, x));
  }

  /** The counters of Popped, on its flat form. */
  lemma LoweredCounters(items: Items, l: CounterKey, h: CounterKey, x: CounterKey, name: string, blockHash: Bytes, itemType: Bytes, index: int,
                        a: Key, b: Key, c: Key, d: Key)
    requires CountersWellFormed(items)
    requires l == LatestKey(name) && h == BlockTypeKey(blockHash, itemType) && x == IndexTypeKey(index, itemType)
    requires CounterOf(items, l) >= 1 && CounterOf(items, h) >= 1 && CounterOf(items, x) >= 1
    requires !a.Counter? && !b.Counter? && !c.Counter? && !d.Counter?
    ensures var after := LowerAndRemove(items, l, h, x, a, b, c, d);
            && CountersWellFormed(after)
            && CountersLowered(after, items, name, blockHash, itemType, index)
            && KeysKept(after, items, a, b, c, d)
  {
    var m3 := items[Counter(l) := Decimal(CounterOf(items, l) - 1)]
                   [Counter(h) := Decimal(CounterOf(items, h) - 1)]
                   [Counter(x) := Decimal(CounterOf(items, x) - 1)];
    LowerThree(items, l, h, x);
    FourRemovalsKeepCounters(m3, a, b, c, d);
  }

  /** The three counter updates of one popped item. */
  lemma LowerThree(items: Items, l: CounterKey, h: CounterKey, x: CounterKey)
    requires CountersWellFormed(items)
    requires CounterOf(items, l) >= 1 && CounterOf(items, h) >= 1 && CounterOf(items, x) >= 1
    requires l != h && h != x && l != x
    ensures var m := items[Counter(l) := Decimal(CounterOf(items, l) - 1)]
                          [Counter(h) := Decimal(CounterOf(items, h) - 1)]
                          [Counter(x) := Decimal(CounterOf(items, x) - 1)];
            && CountersWellFormed(m)
            && forall k :: CounterOf(m, k) == CounterOf(items, k) - (if k == l || k == h || k == x then 1 else 0)
  {
    var m1 := items[Counter(l) := Decimal(CounterOf(items, l) - 1)];
    CounterRoundTrip(items, l, CounterOf(items, l) - 1);
    var m2 := m1[Counter(h) := Decimal(CounterOf(items, h) - 1)];
    CounterRoundTrip(m1, h, CounterOf(items, h) - 1);
    CounterRoundTrip(m2, x, CounterOf(items, x) - 1);
  }

  /** As written, popItems of the entry of an item just pushed lowers the
      counters again but leaves the slots the item was filed in: the block
      counter is back at c while its slot c still refers to the item, so the
      store is no longer of the shape pushItems keeps. */
  lemma PopAsWrittenLeavesSlots<T>(items: Items, schema: Schema<T>, unwrap: Bytes -> Option<WithMetadata>, obj: Bytes, entry: Bytes,
                                   blockHash: Bytes, itemType: Bytes, index: int)
    requires Tidy(items)
    requires LatestName(schema, obj).Some?
    requires unwrap(entry).Some? && unwrap(entry).value.transaction == obj
    ensures var pushed := PushFrom(items, schema, [obj], blockHash, itemType, index, 0).1;
            var popped := PopFrom(AsWritten, pushed, schema, unwrap, [entry], blockHash, itemType, index, 0);
            var h := BlockTypeKey(blockHash, itemType);
            && popped.0 == None
            && CountersWellFormed(popped.1)
            && CounterOf(popped.1, h) == CounterOf(items, h)
            && Lookup(popped.1, Slot(CounterOf(items, h), h)) == Some(Ref(ItemKey(obj)))
            && !Tidy(popped.1)
  {
    var name := LatestName(schema, obj).value;
    PushPopOne(AsWritten, items, schema, unwrap, obj, entry, blockHash, itemType, index);
    PoppedPushedAsWritten(items, name, obj, entry, blockHash, itemType, index);
  }

  lemma PoppedPushedAsWritten(items: Items, name: string, obj: Bytes, entry: Bytes, blockHash: Bytes, itemType: Bytes, index: int)
    requires CountersWellFormed(items)
    requires var pushed := Pushed(items, name, obj, blockHash, itemType, index);
             && CountersWellFormed(pushed)
             && CountersRaised(pushed, items, name, blockHash, itemType, index)
             && CounterOf(pushed, LatestKey(name)) == CounterOf(items, LatestKey(name)) + 1
             && CounterOf(pushed, BlockTypeKey(blockHash, itemType)) == CounterOf(items, BlockTypeKey(blockHash, itemType)) + 1
             && CounterOf(pushed, IndexTypeKey(index, itemType)) == CounterOf(items, IndexTypeKey(index, itemType)) + 1
    ensures var pushed := Pushed(items, name, obj, blockHash, itemType, index);
            var removed := Popped(pushed, name, ItemKey(entry), 0, blockHash, itemType, index);
            var h := BlockTypeKey(blockHash, itemType);
            && CountersWellFormed(removed)
            && CounterOf(removed, h) == CounterOf(items, h)
            && Lookup(removed, Slot(CounterOf(items, h), h)) == Some(Ref(ItemKey(obj)))
  {
    var pushed := Pushed(items, name, obj, blockHash, itemType, index);
    var removed := Popped(pushed, name, ItemKey(entry), 0, blockHash, itemType, index);
    var l, h, x := LatestKey(name), BlockTypeKey(blockHash, itemType), IndexTypeKey(index, itemType);
    var ch := CounterOf(items, h);
    PushedFrame(items, name, obj, blockHash, itemType, index);
    PoppedFrame(pushed, name, ItemKey(entry), 0, blockHash, itemType, index);
    PoppedCounters(pushed, name, ItemKey(entry), 0, blockHash, itemType, index);
    assert Lookup(pushed, Slot(ch, h)) == Some(Ref(ItemKey(obj)));
    assert Lookup(removed, Slot(ch, h)) == Lookup(pushed, Slot(ch, h));
    assert CounterOf(removed, h) == CounterOf(pushed, h) - Hit(h, name, blockHash, itemType, index);
  }

  // ---------------------------------------------------------------------
  // getBlockHashes, storeMainBlocks, getBlockById

  /** mainBlockType.fromBuffer (Serializer.MainBlockFromBuffer). */
  type BlockDecoder = Bytes -> Result<Serializer.MainBlock, Serializer.DecodeError>

  /** The prevHash of blocks i .. n-1, in order. */
  function PrevHashes(fromBuffer: BlockDecoder, blocks: seq<Bytes>, i: nat): (r: Result<seq<Bytes>, IndexError>)
    ensures r.Ok? ==> |r.value| == if i >= |blocks| then 0 else |blocks| - i
    decreases |blocks| - i
  {
    if i >= |blocks| then Ok([])
    else
      match fromBuffer(blocks[i])
      case Err(_) => Err(DecodeFailed)
      case Ok(b) => Prepend([b.prevHash], PrevHashes(fromBuffer, blocks, i + 1))
  }

  /** getBlockHashes: the prevHash of every block after the first, then
      the hash (`hashOf`, the unexported getArgon) of the last block. */
  function BlockHashes(fromBuffer: BlockDecoder, blocks: seq<Bytes>, hashOf: Bytes -> Bytes): (r: Result<seq<Bytes>, IndexError>)
    ensures r.Ok? ==> |r.value| == |blocks|
  {
    if blocks == [] then Err(NoBlocks)
    else
      match PrevHashes(fromBuffer, blocks, 1)
      case Err(e) => Err(e)
      case Ok(hs) => Ok(hs + [hashOf(blocks[|blocks| - 1])])
  }

  method GetBlockHashes(fromBuffer: BlockDecoder, blocks: seq<Bytes>, hashOf: Bytes -> Bytes) returns (r: Result<seq<Bytes>, IndexError>)
    ensures r == BlockHashes(fromBuffer, blocks, hashOf)
  {
    if blocks == [] {
      return Err(NoBlocks);
    }
    var lastHash := hashOf(blocks[|blocks| - 1]);
    var hashes: seq<Bytes> := [];
    PrependConcat(hashes, [], PrevHashes(fromBuffer, blocks, 1));
    var i := 1;
    while i < |blocks|
      invariant 1 <= i <= |blocks|
      invariant PrevHashes(fromBuffer, blocks, 1) == Prepend(hashes, PrevHashes(fromBuffer, blocks, i))
      decreases |blocks| - i
    {
      var block := fromBuffer(blocks[i]);
      if block.Err? {
        return Err(DecodeFailed);
      }
      PrependConcat(hashes, [block.value.prevHash], PrevHashes(fromBuffer, blocks, i + 1));
      hashes := hashes + [block.value.prevHash];
      i := i + 1;
    }
    PrependConcat<Bytes, IndexError>(hashes, [], Ok([]));
    return Ok(hashes + [lastHash]);
  }

  /** Every block from i on decodes. */
  predicate AllDecode(fromBuffer: BlockDecoder, blocks: seq<Bytes>, i: nat)
  {
    forall k :: i <= k < |blocks| ==> fromBuffer(blocks[k]).Ok?
  }

  lemma {:induction false} PrevHashesIndexed(fromBuffer: BlockDecoder, blocks: seq<Bytes>, i: nat)
    requires i <= |blocks|
    ensures PrevHashes(fromBuffer, blocks, i).Ok? <==> AllDecode(fromBuffer, blocks, i)
    ensures PrevHashes(fromBuffer, blocks, i).Ok? ==>
              forall k :: i <= k < |blocks| ==>
                PrevHashes(fromBuffer, blocks, i).value[k - i] == fromBuffer(blocks[k]).value.prevHash
    decreases |blocks| - i
  {
    if i < |blocks| {
      PrevHashesIndexed(fromBuffer, blocks, i + 1);
    }
  }

  /** getBlockHashes succeeds exactly when there are blocks and every block
      after the first decodes; entry i is then the prevHash of block i + 1,
      and the last entry the hash of the last block. */
  lemma BlockHashesIndexed(fromBuffer: BlockDecoder, blocks: seq<Bytes>, hashOf: Bytes -> Bytes)
    ensures BlockHashes(fromBuffer, blocks, hashOf).Ok? <==> blocks != [] && AllDecode(fromBuffer, blocks, 1)
    ensures BlockHashes(fromBuffer, blocks, hashOf).Ok? ==>
              var hs := BlockHashes(fromBuffer, blocks, hashOf).value;
              && |hs| == |blocks|
              && hs[|hs| - 1] == hashOf(blocks[|blocks| - 1])
              && forall i :: 0 <= i < |blocks| - 1 ==> hs[i] == fromBuffer(blocks[i + 1]).value.prevHash
  {
    if blocks != [] {
      PrevHashesIndexed(fromBuffer, blocks, 1);
      if BlockHashes(fromBuffer, blocks, hashOf).Ok? {
        var hs := BlockHashes(fromBuffer, blocks, hashOf).value;
        forall i | 0 <= i < |blocks| - 1 ensures hs[i] == fromBuffer(blocks[i + 1]).value.prevHash {
          assert hs[i] == PrevHashes(fromBuffer, blocks, 1).value[(i + 1) - 1];
        }
      }
    }
  }

  /** When every block names the hash of the one before it as its prevHash,
      getBlockHashes gives the hash of each block. */
  lemma ChainedBlockHashes(fromBuffer: BlockDecoder, blocks: seq<Bytes>, hashOf: Bytes -> Bytes)
    requires blocks != [] && AllDecode(fromBuffer, blocks, 1)
    requires forall i :: 1 <= i < |blocks| ==> fromBuffer(blocks[i]).value.prevHash == hashOf(blocks[i - 1])
    ensures BlockHashes(fromBuffer, blocks, hashOf) == Ok(seq(|blocks|, i requires 0 <= i < |blocks| => hashOf(blocks[i])))
  {
    BlockHashesIndexed(fromBuffer, blocks, hashOf);
    var hs := BlockHashes(fromBuffer, blocks, hashOf).value;
    var want := seq(|blocks|, i requires 0 <= i < |blocks| => hashOf(blocks[i]));
    forall i | 0 <= i < |blocks| ensures hs[i] == want[i] {
      if i < |blocks| - 1 {
        assert hs[i] == fromBuffer(blocks[i + 1]).value.prevHash;
      }
    }
    assert hs == want;
  }

  /** The loop of storeMainBlocks from block i on: the id key of each
      block refers to its hash, and the hash key holds the block. */
  function StoreBlocks(fromBuffer: BlockDecoder, items: Items, blocks: seq<Bytes>, hashes: seq<Bytes>, i: nat): (Option<IndexError>, Items)
    requires |hashes| == |blocks|
    decreases |blocks| - i
  {
    if i >= |blocks| then (None, items)
    else
      match fromBuffer(blocks[i])
      case Err(_) => (Some(DecodeFailed), items)
      case Ok(b) =>
        StoreBlocks(fromBuffer, items[BlockIdKey(b.id) := Ref(BlockHashKey(hashes[i]))][BlockHashKey(hashes[i]) := Raw(blocks[i])],
                    blocks, hashes, i + 1)
  }

  /** storeMainBlocks: the hashes, then the loop; it returns the hashes. */
  function StoreMainBlocksSpec(fromBuffer: BlockDecoder, items: Items, blocks: seq<Bytes>, hashOf: Bytes -> Bytes): (Result<seq<Bytes>, IndexError>, Items)
  {
    match BlockHashes(fromBuffer, blocks, hashOf)
    case Err(e) => (Err(e), items)
    case Ok(hs) =>
      var stored := StoreBlocks(fromBuffer, items, blocks, hs, 0);
      if stored.0.Some? then (Err(stored.0.value), stored.1) else (Ok(hs), stored.1)
  }

  method StoreMainBlocks(fromBuffer: BlockDecoder, store: Store, blocks: seq<Bytes>, hashOf: Bytes -> Bytes) returns (r: Result<seq<Bytes>, IndexError>)
    modifies store
    ensures (r, store.items) == StoreMainBlocksSpec(fromBuffer, old(store.items), blocks, hashOf)
  {
    var hashes := GetBlockHashes(fromBuffer, blocks, hashOf);
    if hashes.Err? {
      return hashes;
    }
    for i := 0 to |blocks|
      invariant StoreBlocks(fromBuffer, old(store.items), blocks, hashes.value, 0) == StoreBlocks(fromBuffer, store.items, blocks, hashes.value, i)
    {
      var block := fromBuffer(blocks[i]);
      if block.Err? {
        return Err(DecodeFailed);
      }
      store.SetItem(BlockIdKey(block.value.id), Ref(BlockHashKey(hashes.value[i])));
      store.SetItem(BlockHashKey(hashes.value[i]), Raw(blocks[i]));
      // storeMainBlocks then reads "latestBlock" and does nothing with it.
    }
    return hashes;
  }

  /** getBlockById: the block filed under the hash its id key refers to. */
  function BlockById(fromBuffer: BlockDecoder, items: Items, id: int): Result<Serializer.MainBlock, IndexError>
  {
    match Lookup(items, BlockIdKey(id))
    case Some(Ref(hash)) =>
      (match Lookup(items, hash)
       case Some(Raw(block)) =>
         (match fromBuffer(block)
          case Err(_) => Err(DecodeFailed)
          case Ok(b) => Ok(b))
       case _ => Err(Unreadable(hash)))
    case _ => Err(Unreadable(BlockIdKey(id)))
  }

  /** A key that no block from i on writes keeps its entry. */
  lemma {:induction false} StoreBlocksKeeps(fromBuffer: BlockDecoder, items: Items, blocks: seq<Bytes>, hashes: seq<Bytes>, i: nat, key: Key)
    requires |hashes| == |blocks|
    requires forall k :: i <= k < |blocks| && fromBuffer(blocks[k]).Ok? ==>
               key != BlockIdKey(fromBuffer(blocks[k]).value.id) && key != BlockHashKey(hashes[k])
    ensures Lookup(StoreBlocks(fromBuffer, items, blocks, hashes, i).1, key) == Lookup(items, key)
    decreases |blocks| - i
  {
    if i < |blocks| && fromBuffer(blocks[i]).Ok? {
      var b := fromBuffer(blocks[i]).value;
      var m := items[BlockIdKey(b.id) := Ref(BlockHashKey(hashes[i]))][BlockHashKey(hashes[i]) := Raw(blocks[i])];
      StoreBlocksKeeps(fromBuffer, m, blocks, hashes, i + 1, key);
    }
  }

  /** Distinct ids and distinct hashes of the blocks from i on. */
  ghost predicate Distinct(fromBuffer: BlockDecoder, blocks: seq<Bytes>, hashes: seq<Bytes>, i: nat)
    requires |hashes| == |blocks| && AllDecode(fromBuffer, blocks, i)
  {
    forall a, b :: i <= a < b < |blocks| ==>
      && fromBuffer(blocks[a]).value.id != fromBuffer(blocks[b]).value.id
      && hashes[a] != hashes[b]
  }

  /** Block k's two entries after the loop. */
  ghost predicate BlockFiled(fromBuffer: BlockDecoder, after: Items, blocks: seq<Bytes>, hashes: seq<Bytes>, k: nat)
    requires k < |blocks| == |hashes| && fromBuffer(blocks[k]).Ok?
  {
    && Lookup(after, BlockIdKey(fromBuffer(blocks[k]).value.id)) == Some(Ref(BlockHashKey(hashes[k])))
    && Lookup(after, BlockHashKey(hashes[k])) == Some(Raw(blocks[k]))
  }

  lemma {:induction false} StoreBlocksFiles(fromBuffer: BlockDecoder, items: Items, blocks: seq<Bytes>, hashes: seq<Bytes>, i: nat)
    requires |hashes| == |blocks| && AllDecode(fromBuffer, blocks, i) && Distinct(fromBuffer, blocks, hashes, i)
    ensures StoreBlocks(fromBuffer, items, blocks, hashes, i).0 == None
    ensures forall k :: i <= k < |blocks| ==> BlockFiled(fromBuffer, StoreBlocks(fromBuffer, items, blocks, hashes, i).1, blocks, hashes, k)
    ensures forall key: Key :: !key.BlockIdKey? && !key.BlockHashKey? ==> Lookup(StoreBlocks(fromBuffer, items, blocks, hashes, i).1, key) == Lookup(items, key)
    decreases |blocks| - i
  {
    if i < |blocks| {
      var b := fromBuffer(blocks[i]).value;
      var m := items[BlockIdKey(b.id) := Ref(BlockHashKey(hashes[i]))][BlockHashKey(hashes[i]) := Raw(blocks[i])];
      StoreBlocksFiles(fromBuffer, m, blocks, hashes, i + 1);
      StoreBlocksKeeps(fromBuffer, m, blocks, hashes, i + 1, BlockIdKey(b.id));
      StoreBlocksKeeps(fromBuffer, m, blocks, hashes, i + 1, BlockHashKey(hashes[i]));
      forall key: Key | !key.BlockIdKey? && !key.BlockHashKey?
        ensures Lookup(StoreBlocks(fromBuffer, items, blocks, hashes, i).1, key) == Lookup(items, key)
      {
        assert Lookup(m, key) == Lookup(items, key);
      }
    }
  }

  /** storeMainBlocks of blocks with distinct ids and hashes, every one of
      which decodes: each id then leads getBlockById to its block, and no
      other kind of key changes. */
  lemma StoreThenGetBlock(fromBuffer: BlockDecoder, items: Items, blocks: seq<Bytes>, hashOf: Bytes -> Bytes)
    requires blocks != [] && AllDecode(fromBuffer, blocks, 0)
    requires BlockHashes(fromBuffer, blocks, hashOf).Ok? && Distinct(fromBuffer, blocks, BlockHashes(fromBuffer, blocks, hashOf).value, 0)
    ensures var stored := StoreMainBlocksSpec(fromBuffer, items, blocks, hashOf);
            && stored.0 == BlockHashes(fromBuffer, blocks, hashOf)
            && (forall k :: 0 <= k < |blocks| ==>
                  BlockById(fromBuffer, stored.1, fromBuffer(blocks[k]).value.id) == Ok(fromBuffer(blocks[k]).value))
            && (forall key: Key :: !key.BlockIdKey? && !key.BlockHashKey? ==> Lookup(stored.1, key) == Lookup(items, key))
  {
    var hs := BlockHashes(fromBuffer, blocks, hashOf).value;
    StoreBlocksFiles(fromBuffer, items, blocks, hs, 0);
    var after := StoreBlocks(fromBuffer, items, blocks, hs, 0).1;
    forall k | 0 <= k < |blocks|
      ensures BlockById(fromBuffer, after, fromBuffer(blocks[k]).value.id) == Ok(fromBuffer(blocks[k]).value)
    {
      assert BlockFiled(fromBuffer, after, blocks, hs, k);
    }
  }
}
