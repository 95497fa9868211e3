/** The recommendation cache's state and its locked sections: revision tags, time to live, recency order. */
module LruCache {
  import opened Options

  /** Readings of the monotonic clock. */
  type Time = int

  datatype Entry<V> = Entry(revision: nat, deadline: Time, value: V)

  datatype Slot<K, V> = Slot(key: K, entry: Entry<V>)

  /** `slots` is the ordered dictionary, least recently used key first. */
  datatype Cache<K, V> = Cache(revision: nat, databaseRevision: Option<int>, slots: seq<Slot<K, V>>)

  datatype Answer<V> = Hit(value: V, revision: nat) | Miss(revision: nat)

  function Fresh<K, V>(): Cache<K, V> {
    Cache(0, None, [])
  }

  /** The slot of `key`, or the number of slots when it has none. */
  function IndexOf<K(==), V>(slots: seq<Slot<K, V>>, key: K): (i: nat)
    ensures i <= |slots|
    ensures i < |slots| ==> slots[i].key == key
    ensures forall j :: 0 <= j < i ==> slots[j].key != key
  {
    if slots == [] || slots[0].key == key then 0 else 1 + IndexOf(slots[1..], key)
  }

  function Without<K, V>(slots: seq<Slot<K, V>>, i: nat): seq<Slot<K, V>>
    requires i <= |slots|
  {
    if i == |slots| then slots else slots[..i] + slots[i + 1..]
  }

  /** Assignment followed by a move to the end. */
  function Put<K(==), V>(slots: seq<Slot<K, V>>, slot: Slot<K, V>): seq<Slot<K, V>> {
    Without(slots, IndexOf(slots, slot.key)) + [slot]
  }

  /** Drops the oldest slots until at most `max` remain. */
  function Trim<K, V>(slots: seq<Slot<K, V>>, max: nat): seq<Slot<K, V>> {
    if |slots| <= max then slots else slots[|slots| - max..]
  }

  function Invalidated<K, V>(c: Cache<K, V>): Cache<K, V> {
    c.(revision := c.revision + 1, slots := [])
  }

  function Observed<K, V>(c: Cache<K, V>, revision: int): Cache<K, V> {
    if c.databaseRevision == None then c.(databaseRevision := Some(revision))
    else if c.databaseRevision == Some(revision) then c
    else Cache(c.revision + 1, Some(revision), [])
  }

  /** The first locked section of `get`. */
  function Answered<K(==), V>(c: Cache<K, V>, key: K, now: Time): Answer<V> {
    var i := IndexOf(c.slots, key);
    if i < |c.slots| && c.slots[i].entry.revision == c.revision && c.slots[i].entry.deadline > now then
      Hit(c.slots[i].entry.value, c.revision)
    else Miss(c.revision)
  }

  function LookedUp<K(==), V>(c: Cache<K, V>, key: K, now: Time): Cache<K, V> {
    if Answered(c, key, now).Hit? then c.(slots := Put(c.slots, c.slots[IndexOf(c.slots, key)])) else c
  }

  /** The second locked section of `get`: a value computed under an older revision changes nothing. */
  function Stored<K(==), V>(c: Cache<K, V>, key: K, entry: Entry<V>, max: nat): Cache<K, V> {
    if entry.revision != c.revision then c else c.(slots := Trim(Put(c.slots, Slot(key, entry)), max))
  }

  /* ---------- Actions and histories ---------- */

  datatype Action<K, V> =
    | Invalidate
    | Observe(databaseRevision: int)
    | Look(key: K, now: Time)
    | Store(key: K, entry: Entry<V>)

  function Next<K(==), V>(c: Cache<K, V>, action: Action<K, V>, max: nat): Cache<K, V> {
    match action
    case Invalidate => Invalidated(c)
    case Observe(revision) => Observed(c, revision)
    case Look(key, now) => LookedUp(c, key, now)
    case Store(key, entry) => Stored(c, key, entry, max)
  }

  /** What happened to a key: a hit, or a new value. */
  datatype Use<K, V> = Touched(key: K) | Placed(key: K, entry: Entry<V>)

  /** The uses since the cache was last cleared. */
  function NextLog<K(==), V>(c: Cache<K, V>, log: seq<Use<K, V>>, action: Action<K, V>): seq<Use<K, V>> {
    match action
    case Invalidate => []
    case Observe(revision) => if Observed(c, revision).revision == c.revision then log else []
    case Look(key, now) => if Answered(c, key, now).Hit? then log + [Touched(key)] else log
    case Store(key, entry) => if entry.revision == c.revision then log + [Placed(key, entry)] else log
  }

  /** The position of the last use of `key`, or -1. */
  function LastUse<K(==), V>(log: seq<Use<K, V>>, key: K): (i: int)
    ensures -1 <= i < |log|
    ensures i >= 0 ==> log[i].key == key
  {
    if log == [] then -1
    else if log[|log| - 1].key == key then |log| - 1
    else LastUse(log[..|log| - 1], key)
  }

  /** The entry an unbounded map would hold: the last one placed. */
  function Latest<K(==), V>(log: seq<Use<K, V>>, key: K): Option<Entry<V>> {
    if log == [] then None
    else
      var last := log[|log| - 1];
      if last.Placed? && last.key == key then Some(last.entry) else Latest(log[..|log| - 1], key)
  }

  /** Slots are in order of last use, hold what the map holds, and only the least recently used keys are missing. */
  ghost predicate Lru<K(!new), V>(slots: seq<Slot<K, V>>, log: seq<Use<K, V>>, max: nat) {
    && |slots| <= max
    && (forall i :: 0 <= i < |slots| ==> Held(slots[i], log))
    && (forall i, j :: 0 <= i < j < |slots| ==> LastUse(log, slots[i].key) < LastUse(log, slots[j].key))
    && (forall key {:trigger LastUse(log, key)} :: LastUse(log, key) >= 0 && IndexOf(slots, key) == |slots| ==>
      Evicted(key, slots, log, max))
  }

  ghost predicate Held<K, V>(slot: Slot<K, V>, log: seq<Use<K, V>>) {
    LastUse(log, slot.key) >= 0 && Latest(log, slot.key) == Some(slot.entry)
  }

  ghost predicate Evicted<K, V>(key: K, slots: seq<Slot<K, V>>, log: seq<Use<K, V>>, max: nat) {
    |slots| == max && forall i :: 0 <= i < |slots| ==> LastUse(log, key) < LastUse(log, slots[i].key)
  }
}
