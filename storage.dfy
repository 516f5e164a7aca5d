/** The key/value store behind the indexer and the difficulty settings.

    Every key the ledger computes with sha256CompactKey is named here by
    what it is computed from, so distinct inputs give distinct keys (the hash
    is taken to be collision-free). The stored strings are named by what
    they hold: a decimal counter, a stored BigInt, a reference to another
    key, an item record with its metadata, or base64 bytes. */
module Storage {
  import opened Common

  /** The keys that a counter is kept under. */
  datatype CounterKey =
    | LatestKey(name: string)            // makeIndex(item, properties)
    | BlockTypeKey(blockHash: Bytes, itemType: Bytes)   // sha256CompactKey(blockHash ++ type)
    | IndexTypeKey(index: int, itemType: Bytes)         // sha256CompactKey(`0x${index hex}` ++ type)

  datatype Key =
    | Counter(counter: CounterKey)
    | Slot(n: int, of: CounterKey)       // addIndexToKey(n, key)
    | ItemKey(obj: Bytes)                // sha256CompactKey(obj)
    | BlockIdKey(id: int)                // sha256CompactKey(["MainBlock", id])
    | BlockHashKey(hash: Bytes)          // the block hash in base64
    | Named(name: string)                // a literal key such as "MAIN"

  /** types.ts TransactionWithMetadata as stored by pushItems. */
  datatype WithMetadata = WithMetadata(blockHash: Bytes, index: int, transaction: Bytes)

  datatype Value =
    | Text(s: string)
    | Decimal(d: nat)                    // the text d.toString() of a counter
    | Num(n: int)
    | Ref(key: Key)
    | Meta(meta: WithMetadata)
    | Raw(bytes: Bytes)

  type Items = map<Key, Value>

  /** The decimal text of a natural number, as BigInt.prototype.toString(). */
  function ToDecimal(n: nat): (s: string)
    ensures |s| >= 1
    ensures AllDigits(s)
  {
    if n < 10 then [DigitChar(n)]
    else
      var s := ToDecimal(n / 10) + [DigitChar(n % 10)];
      assert s[..|s| - 1] == ToDecimal(n / 10);
      s
  }

  /** Every character is a decimal digit. */
  predicate AllDigits(s: string)
  {
    s == [] || ('0' <= s[|s| - 1] <= '9' && AllDigits(s[..|s| - 1]))
  }

  function DigitChar(d: nat): (c: char)
    requires d < 10
    ensures '0' <= c <= '9' && c as int - '0' as int == d
  {
    ('0' as int + d) as char
  }

  /** The value of a string of decimal digits. */
  function DecimalValue(s: string): nat
    requires AllDigits(s)
  {
    if s == [] then 0 else DecimalValue(s[..|s| - 1]) * 10 + (s[|s| - 1] as int - '0' as int)
  }

  lemma {:induction false} DecimalRoundTrip(n: nat)
    ensures DecimalValue(ToDecimal(n)) == n
    decreases n
  {
    if n >= 10 {
      DecimalRoundTrip(n / 10);
      var s := ToDecimal(n);
      assert s[..|s| - 1] == ToDecimal(n / 10);
    }
  }

  /** BigInt(text || '0') for the counters, on the texts the ledger itself
      writes: the empty string and a missing entry read as 0, plain decimal
      digits as their value. Every other text is None here, although BigInt
      also accepts surrounding white space, a sign and a 0x/0o/0b prefix. */
  function CounterText(v: Option<Value>): Option<nat>
  {
    match v
    case None => Some(0)
    case Some(Text(s)) =>
      if s == [] then Some(0)
      else if AllDigits(s) then Some(DecimalValue(s))
      else None
    case Some(Decimal(d)) => Some(d)
    case Some(_) => None
  }

  /** A counter stored as Decimal(n) reads exactly as its decimal text
      does, so the counters can be kept in that form. */
  lemma DecimalAsText(n: nat)
    ensures CounterText(Some(Text(ToDecimal(n)))) == Some(n)
    ensures CounterText(Some(Decimal(n))) == Some(n)
  {
    DecimalRoundTrip(n);
  }

  /** Every counter entry is decimal text, as the counter operations write
      it. */
  ghost predicate CountersWellFormed(items: Items)
  {
    forall k :: k in items && k.Counter? ==> CounterText(Some(items[k])).Some?
  }

  function Lookup(items: Items, k: Key): Option<Value>
  {
    if k in items then Some(items[k]) else None
  }

  /** The counter kept under `key` in a well-formed store. */
  function CounterOf(items: Items, key: CounterKey): nat
    requires CountersWellFormed(items)
  {
    CounterText(Lookup(items, Counter(key))).value
  }

  /** Writing a counter's decimal text and reading it back gives the
      number. */
  lemma CounterRoundTrip(items: Items, key: CounterKey, n: nat)
    requires CountersWellFormed(items)
    ensures CountersWellFormed(items[Counter(key) := Decimal(n)])
    ensures CounterOf(items[Counter(key) := Decimal(n)], key) == n
    ensures forall k :: k != key ==> CounterOf(items[Counter(key) := Decimal(n)], k) == CounterOf(items, k)
  {
  }

  /** The store: getItem, setItem and removeItem over one map. */
  class Store {
    var items: Items

    constructor ()
      ensures items == map[]
    {
      items := map[];
    }

    method GetItem(k: Key) returns (v: Option<Value>)
      ensures v == Lookup(items, k)
    {
      v := if k in items then Some(items[k]) else None;
    }

    method SetItem(k: Key, v: Value)
      modifies this
      ensures items == old(items)[k := v]
    {
      items := items[k := v];
    }

    method RemoveItem(k: Key)
      modifies this
      ensures items == old(items) - {k}
    {
      items := items - {k};
    }
  }
}
