/** Every reachable cache is an LRU view of the unbounded map, and a hit is what that map holds. */
module LruProofs {
  import opened Options
  import opened LruCache

  lemma LastUseOfLonger<K, V>(log: seq<Use<K, V>>, use: Use<K, V>, key: K)
    ensures LastUse(log + [use], key) == if use.key == key then |log| else LastUse(log, key)
    ensures Latest(log + [use], key)
         == if use.Placed? && use.key == key then Some(use.entry) else Latest(log, key)
  {
    assert (log + [use])[..|log|] == log;
  }

  lemma LastUseBelow<K, V>(log: seq<Use<K, V>>, key: K)
    ensures LastUse(log, key) < |log|
  {
  }

  /** The slot that a use puts at the end holds the key's latest entry. */
  ghost predicate Fits<K, V>(slot: Slot<K, V>, slots: seq<Slot<K, V>>, log: seq<Use<K, V>>, use: Use<K, V>) {
    && slot.key == use.key
    && (use.Placed? ==> slot.entry == use.entry)
    && (use.Touched? ==> IndexOf(slots, use.key) < |slots| && slot == slots[IndexOf(slots, use.key)])
  }

  /** Order and contents after a use, before trimming. */
  ghost predicate Ordered<K, V>(slots: seq<Slot<K, V>>, log: seq<Use<K, V>>) {
    && (forall i :: 0 <= i < |slots| ==> Held(slots[i], log))
    && (forall i, j :: 0 <= i < j < |slots| ==> LastUse(log, slots[i].key) < LastUse(log, slots[j].key))
  }

  /** Where the slots stand after a use: those behind the used one move up, and it comes last. */
  lemma PutElement<K, V>(slots: seq<Slot<K, V>>, slot: Slot<K, V>, a: nat)
    requires a < |Put(slots, slot)|
    ensures Put(slots, slot)[a]
         == if a == |Put(slots, slot)| - 1 then slot
            else if a < IndexOf(slots, slot.key) then slots[a] else slots[a + 1]
  {
  }

  lemma PutOrdered<K(!new), V>(slots: seq<Slot<K, V>>, log: seq<Use<K, V>>, use: Use<K, V>, slot: Slot<K, V>)
    requires Ordered(slots, log) && Fits(slot, slots, log, use)
    ensures Ordered(Put(slots, slot), log + [use])
  {
    var put := Put(slots, slot);
    forall a | 0 <= a < |put|
      ensures Held(put[a], log + [use])
    {
      PutElement(slots, slot, a);
      PutUse(slots, log, use, slot, a);
    }
    forall a, b | 0 <= a < b < |put|
      ensures LastUse(log + [use], put[a].key) < LastUse(log + [use], put[b].key)
    {
      PutElement(slots, slot, a);
      PutElement(slots, slot, b);
      PutUse(slots, log, use, slot, a);
      PutUse(slots, log, use, slot, b);
    }
  }

  /** When the slot at `a` was last used: at the end for the new one, as before for the others. */
  lemma PutUse<K(!new), V>(slots: seq<Slot<K, V>>, log: seq<Use<K, V>>, use: Use<K, V>,
      slot: Slot<K, V>, a: nat)
    requires Ordered(slots, log) && Fits(slot, slots, log, use) && a < |Put(slots, slot)|
    ensures Held(Put(slots, slot)[a], log + [use])
    ensures LastUse(log + [use], Put(slots, slot)[a].key)
         == if a == |Put(slots, slot)| - 1 then |log| else LastUse(log, Put(slots, slot)[a].key)
  {
    var i, put := IndexOf(slots, slot.key), Put(slots, slot);
    PutElement(slots, slot, a);
    LastUseOfLonger(log, use, put[a].key);
    if a == |put| - 1 {
      if use.Touched? { assert Held(slots[i], log); }
    } else {
      var b := if a < i then a else a + 1;
      assert Held(slots[b], log);
      if i < b { assert LastUse(log, slots[i].key) < LastUse(log, slots[b].key); }
    }
  }

  lemma PutMissing<K(!new), V>(slots: seq<Slot<K, V>>, log: seq<Use<K, V>>, use: Use<K, V>,
      slot: Slot<K, V>, max: nat, key: K)
    requires Lru(slots, log, max) && Fits(slot, slots, log, use)
    requires LastUse(log + [use], key) >= 0 && IndexOf(Put(slots, slot), key) == |Put(slots, slot)|
    ensures key != slot.key && |slots| == max
    ensures forall a :: 0 <= a < |Put(slots, slot)| ==>
      LastUse(log + [use], key) < LastUse(log + [use], Put(slots, slot)[a].key)
  {
    var i, put := IndexOf(slots, slot.key), Put(slots, slot);
    LastUseOfLonger(log, use, key);
    assert put[|put| - 1] == slot;
    forall j | 0 <= j < |slots| && j != i ensures slots[j].key != key {
      PutElement(slots, slot, if j < i then j else j - 1);
    }
    assert Evicted(key, slots, log, max);
    forall a | 0 <= a < |put| ensures LastUse(log + [use], key) < LastUse(log + [use], put[a].key) {
      LastUseOfLonger(log, use, put[a].key);
      LastUseBelow(log, key);
      PutElement(slots, slot, a);
    }
  }

  lemma TrimElement<K, V>(put: seq<Slot<K, V>>, max: nat, a: nat)
    requires a < |Trim(put, max)|
    ensures |Trim(put, max)| <= |put|
    ensures Trim(put, max)[a] == put[a + (|put| - |Trim(put, max)|)]
  {
  }

  lemma TrimOrdered<K, V>(put: seq<Slot<K, V>>, log: seq<Use<K, V>>, max: nat)
    requires Ordered(put, log)
    ensures Ordered(Trim(put, max), log)
  {
    var kept := Trim(put, max);
    var drop := |put| - |kept|;
    forall a | 0 <= a < |kept| ensures Held(kept[a], log) {
      TrimElement(put, max, a);
      assert Held(put[a + drop], log);
    }
    forall a, b | 0 <= a < b < |kept| ensures LastUse(log, kept[a].key) < LastUse(log, kept[b].key) {
      TrimElement(put, max, a);
      TrimElement(put, max, b);
      assert LastUse(log, put[a + drop].key) < LastUse(log, put[b + drop].key);
    }
  }

  /** A key that trimming drops was used before all that stay. */
  lemma DroppedIsEvicted<K(!new), V>(put: seq<Slot<K, V>>, log: seq<Use<K, V>>, max: nat, key: K)
    requires Ordered(put, log) && IndexOf(put, key) < |put| && IndexOf(Trim(put, max), key) == |Trim(put, max)|
    ensures Evicted(key, Trim(put, max), log, max)
  {
    var kept := Trim(put, max);
    var drop := |put| - |kept|;
    var i := IndexOf(put, key);
    forall b | drop <= b < |put| ensures put[b].key != key { TrimElement(put, max, b - drop); }
    assert i < drop;
    forall a | 0 <= a < |kept| ensures LastUse(log, key) < LastUse(log, kept[a].key) {
      TrimElement(put, max, a);
      assert LastUse(log, put[i].key) < LastUse(log, put[a + drop].key);
    }
  }

  /** A use keeps the view: the used key moves to the end, and what falls out was least recently used. */
  lemma UseKeepsLru<K(!new), V>(slots: seq<Slot<K, V>>, log: seq<Use<K, V>>, use: Use<K, V>,
      slot: Slot<K, V>, max: nat)
    requires Lru(slots, log, max) && Fits(slot, slots, log, use)
    ensures Lru(Trim(Put(slots, slot), max), log + [use], max)
  {
    var put := Put(slots, slot);
    var kept := Trim(put, max);
    PutOrdered(slots, log, use, slot);
    TrimOrdered(put, log + [use], max);
    forall key | LastUse(log + [use], key) >= 0 && IndexOf(kept, key) == |kept|
      ensures Evicted(key, kept, log + [use], max) {
      if IndexOf(put, key) == |put| {
        PutMissing(slots, log, use, slot, max, key);
        MissingIsEvicted(put, log + [use], max, key);
      } else {
        DroppedIsEvicted(put, log + [use], max, key);
      }
    }
  }

  lemma MissingIsEvicted<K(!new), V>(put: seq<Slot<K, V>>, log: seq<Use<K, V>>, max: nat, key: K)
    requires max <= |put| && forall a :: 0 <= a < |put| ==> LastUse(log, key) < LastUse(log, put[a].key)
    ensures Evicted(key, Trim(put, max), log, max)
  {
    forall a | 0 <= a < |Trim(put, max)| ensures LastUse(log, key) < LastUse(log, Trim(put, max)[a].key) {
      TrimElement(put, max, a);
    }
  }

  lemma TouchNeedsNoTrim<K, V>(slots: seq<Slot<K, V>>, slot: Slot<K, V>, max: nat)
    requires |slots| <= max && IndexOf(slots, slot.key) < |slots|
    ensures Trim(Put(slots, slot), max) == Put(slots, slot)
  {
  }

  /** Every entry carries the current revision, so the revision test of `get` never rejects a held entry. */
  ghost predicate Current<K, V>(c: Cache<K, V>) {
    forall i :: 0 <= i < |c.slots| ==> c.slots[i].entry.revision == c.revision
  }

  ghost predicate Represents<K(!new), V>(c: Cache<K, V>, log: seq<Use<K, V>>, max: nat) {
    Current(c) && Lru(c.slots, log, max)
  }

  lemma StepKeepsView<K(!new), V>(c: Cache<K, V>, log: seq<Use<K, V>>, action: Action<K, V>, max: nat)
    requires Represents(c, log, max)
    ensures Represents(Next(c, action, max), NextLog(c, log, action), max)
  {
    match action
    case Invalidate =>
    case Observe(_) =>
    case Look(key, now) =>
      if Answered(c, key, now).Hit? {
        var slot := c.slots[IndexOf(c.slots, key)];
        UseKeepsLru(c.slots, log, Touched(key), slot, max);
        TouchNeedsNoTrim(c.slots, slot, max);
        PutCurrent(c, slot, max);
      }
    case Store(key, entry) =>
      if entry.revision == c.revision {
        UseKeepsLru(c.slots, log, Placed(key, entry), Slot(key, entry), max);
        PutCurrent(c, Slot(key, entry), max);
      }
  }

  lemma PutCurrent<K, V>(c: Cache<K, V>, slot: Slot<K, V>, max: nat)
    requires Current(c) && slot.entry.revision == c.revision
    ensures Current(c.(slots := Put(c.slots, slot)))
    ensures Current(c.(slots := Trim(Put(c.slots, slot), max)))
  {
    var put := Put(c.slots, slot);
    forall a | 0 <= a < |put| ensures put[a].entry.revision == c.revision {
      PutElement(c.slots, slot, a);
    }
  }

  function Run<K(==), V>(c: Cache<K, V>, actions: seq<Action<K, V>>, max: nat): Cache<K, V>
    decreases |actions|
  {
    if actions == [] then c else Run(Next(c, actions[0], max), actions[1..], max)
  }

  function RunLog<K(==), V>(c: Cache<K, V>, log: seq<Use<K, V>>, actions: seq<Action<K, V>>, max: nat): seq<Use<K, V>>
    decreases |actions|
  {
    if actions == [] then log
    else RunLog(Next(c, actions[0], max), NextLog(c, log, actions[0]), actions[1..], max)
  }

  /** The view holds in every reachable state. */
  lemma {:induction false} RunKeepsView<K(!new), V>(c: Cache<K, V>, log: seq<Use<K, V>>,
      actions: seq<Action<K, V>>, max: nat)
    requires Represents(c, log, max)
    ensures Represents(Run(c, actions, max), RunLog(c, log, actions, max), max)
    decreases |actions|
  {
    if actions != [] {
      StepKeepsView(c, log, actions[0], max);
      RunKeepsView(Next(c, actions[0], max), NextLog(c, log, actions[0]), actions[1..], max);
    }
  }

  lemma FreshView<K(!new), V>(max: nat)
    ensures Represents(Fresh<K, V>(), [], max)
  {
  }

  /* ---------- What the view means ---------- */

  ghost function KeysOf<K, V>(log: seq<Use<K, V>>): set<K> {
    set i | 0 <= i < |log| :: log[i].key
  }

  /** The keys used after the last use of `key`. */
  ghost function MoreRecent<K, V>(log: seq<Use<K, V>>, key: K): set<K> {
    set other | other in KeysOf(log) && LastUse(log, other) > LastUse(log, key)
  }

  lemma {:induction false} UsedKeys<K, V>(log: seq<Use<K, V>>, key: K)
    ensures key in KeysOf(log) <==> LastUse(log, key) >= 0
  {
    if log != [] {
      var rest := log[..|log| - 1];
      UsedKeys(rest, key);
      assert log == rest + [log[|log| - 1]];
    }
  }

  ghost function KeysFrom<K, V>(slots: seq<Slot<K, V>>, from: nat): set<K>
    requires from <= |slots|
  {
    set i | from <= i < |slots| :: slots[i].key
  }

  lemma {:induction false} DistinctKeysCount<K(!new), V>(slots: seq<Slot<K, V>>, log: seq<Use<K, V>>, from: nat)
    requires Ordered(slots, log) && from <= |slots|
    ensures |KeysFrom(slots, from)| == |slots| - from
    decreases |slots| - from
  {
    if from < |slots| {
      DistinctKeysCount(slots, log, from + 1);
      KeysFromStep(slots, log, from, from + 1);
    } else {
      assert KeysFrom(slots, from) == {};
    }
  }

  lemma KeysFromStep<K(!new), V>(slots: seq<Slot<K, V>>, log: seq<Use<K, V>>, from: nat, next: nat)
    requires Ordered(slots, log) && from < |slots| && next == from + 1
    ensures slots[from].key !in KeysFrom(slots, next)
    ensures KeysFrom(slots, from) == {slots[from].key} + KeysFrom(slots, next)
  {
    forall i | next <= i < |slots| ensures slots[i].key != slots[from].key {
      assert LastUse(log, slots[from].key) < LastUse(log, slots[i].key);
    }
  }

  /** A used key is held exactly when fewer than `max` other keys were used after it. */
  lemma {:induction false} HeldIffRecent<K(!new), V>(slots: seq<Slot<K, V>>, log: seq<Use<K, V>>, max: nat, key: K)
    requires Lru(slots, log, max) && LastUse(log, key) >= 0
    ensures IndexOf(slots, key) < |slots| <==> |MoreRecent(log, key)| < max
  {
    hide LastUse;
    var recent := MoreRecent(log, key);
    if IndexOf(slots, key) < |slots| {
      var i := IndexOf(slots, key);
      DistinctKeysCount(slots, log, i + 1);
      assert forall j :: 0 <= j < i ==> LastUse(log, slots[j].key) < LastUse(log, slots[i].key);
      forall other | other in recent ensures other in KeysFrom(slots, i + 1) {
        UsedKeys(log, other);
        var j := IndexOf(slots, other);
        assert j == |slots| ==> Evicted(other, slots, log, max);
      }
      SubsetSize(recent, KeysFrom(slots, i + 1));
    } else {
      assert Evicted(key, slots, log, max);
      DistinctKeysCount(slots, log, 0);
      forall other | other in KeysFrom(slots, 0) ensures other in recent {
        var j :| 0 <= j < |slots| && slots[j].key == other;
        assert Held(slots[j], log);
        UsedKeys(log, other);
      }
      SubsetSize(KeysFrom(slots, 0), recent);
    }
  }

  lemma SubsetSize<T>(a: set<T>, b: set<T>)
    requires a <= b
    ensures |a| <= |b|
  {
    assert b == a + (b - a);
  }

  /**
    * A lookup hits exactly when the unbounded map holds an unexpired entry and fewer than `max` keys were used since.
    */
  lemma HitIff<K(!new), V>(c: Cache<K, V>, log: seq<Use<K, V>>, max: nat, key: K, now: Time)
    requires Represents(c, log, max)
    ensures Answered(c, key, now).Hit? <==>
      && LastUse(log, key) >= 0 && |MoreRecent(log, key)| < max
      && Latest(log, key).Some? && Latest(log, key).value.deadline > now
    ensures Answered(c, key, now).Hit? ==> Answered(c, key, now).value == Latest(log, key).value.value
  {
    var i := IndexOf(c.slots, key);
    if i < |c.slots| { assert Held(c.slots[i], log); }
    if LastUse(log, key) >= 0 { HeldIffRecent(c.slots, log, max, key); }
  }
}
