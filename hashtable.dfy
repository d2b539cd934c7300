/**
 * The open-addressing hash table of src/hashtable.c and include/hashtable.h:
 * linear probing from `hash % capacity`, tombstones, growth by
 * GROW_CAPACITY at a load of 3/4, and the rebuild that rehashes every key.
 *
 * Keys are string objects compared by identity, so a key is a handle; its
 * hash is the one stored in its string object in the heap `objs`.
 */
module HashTables {
  import opened Wrappers
  import opened Values
  import opened Objects
  import opened Memory

  /** HashTableEntry: a NULL key is `None`. */
  datatype Entry = Entry(key: Option<Handle>, value: Value)

  /** The state every slot of a freshly allocated array starts in. */
  const EmptyEntry: Entry := Entry(None, Nil)

  /** MAKE_TOMBSTONE: a NULL key with value `true`. */
  const Tombstone: Entry := Entry(None, Bool(true))

  /** IS_EMPTY_ENTRY: a NULL key with a nil value. */
  predicate IsEmptyEntry(e: Entry)
  {
    e.key.None? && e.value.Nil?
  }

  /** A tombstone is a NULL key that is not an empty entry. */
  lemma TombstoneIsNotEmpty()
    ensures Tombstone.key.None? && !IsEmptyEntry(Tombstone)
  {
  }

  /** The hash stored in the string object a key refers to. */
  function KeyHash(objs: map<Handle, Obj>, k: Handle): bv32
  {
    if k in objs && objs[k].ObjString? then objs[k].hash else 0
  }

  /** Where probing for a hash starts: `hash % capacity`. */
  function Home(hash: bv32, cap: nat): (r: nat)
    requires cap > 0
    ensures r < cap
  {
    hash as int % cap
  }

  /** The slot visited `t` steps after `start`, wrapping at the end. */
  function Slot(start: nat, t: nat, cap: nat): (r: nat)
    requires start < cap && t < cap
    ensures r < cap
  {
    if start + t < cap then start + t else start + t - cap
  }

  /** How many steps a probe from `start` takes to reach slot `i`. */
  function Dist(start: nat, i: nat, cap: nat): (r: nat)
    requires start < cap && i < cap
    ensures r < cap
    ensures Slot(start, r, cap) == i
  {
    if start <= i then i - start else i + cap - start
  }

  /** Reaching the slot `s` steps on takes `s` steps. */
  lemma DistOfSlot(start: nat, s: nat, cap: nat)
    requires start < cap && s < cap
    ensures Dist(start, Slot(start, s, cap), cap) == s
  {
  }

  /** The C step `index = (index + 1) % capacity` moves one slot on. */
  lemma NextSlot(start: nat, t: nat, cap: nat)
    requires start < cap && t + 1 < cap
    ensures (Slot(start, t, cap) + 1) % cap == Slot(start, t + 1, cap)
  {
    var i := Slot(start, t, cap);
    if i + 1 < cap {
      assert (i + 1) % cap == i + 1;
    } else {
      assert (i + 1) % cap == 0;
    }
  }

  /**
   * findEntry, step by step: the probe from `start` at step `t`, with the
   * step of the first tombstone seen so far. It returns the step at which
   * the C loop returns, or None if it would go round forever.
   */
  function FindStep(es: seq<Entry>, key: Handle, start: nat, t: nat, tomb: Option<nat>): (r: Option<nat>)
    requires start < |es|
    requires tomb.Some? ==> tomb.value < t
    ensures r.Some? ==> r.value < |es|
    decreases |es| - t
  {
    if t >= |es| then None
    else
      var e := es[Slot(start, t, |es|)];
      if e.key.None? then
        if e.value.Nil? then (if tomb.Some? then tomb else Some(t))
        else FindStep(es, key, start, t + 1, if tomb.None? then Some(t) else tomb)
      else if e.key == Some(key) then Some(t)
      else FindStep(es, key, start, t + 1, tomb)
  }

  /** The whole probe for `key`, whose string object hashes to `hash`. */
  function FindEntry(es: seq<Entry>, key: Handle, hash: bv32): (r: Option<nat>)
    requires |es| > 0
    ensures r.Some? ==> r.value < |es|
  {
    FindStep(es, key, Home(hash, |es|), 0, None)
  }

  /** No slot among the first `d` steps of a probe from `start` is empty. */
  ghost predicate PathClear(es: seq<Entry>, start: nat, d: nat)
    requires start < |es| && d <= |es|
  {
    forall s :: 0 <= s < d ==> !IsEmptyEntry(es[Slot(start, s, |es|)])
  }

  /**
   * What findEntry returns: a slot past only non-empty slots, holding the
   * key or a NULL key; a NULL key there is a tombstone exactly when some
   * tombstone was met before a genuinely empty slot.
   */
  lemma {:induction false} FindStepShape(es: seq<Entry>, key: Handle, start: nat, t: nat, tomb: Option<nat>)
    requires start < |es| && t <= |es|
    requires PathClear(es, start, t)
    requires tomb.Some? ==> tomb.value < t && es[Slot(start, tomb.value, |es|)].key.None?
    ensures var r := FindStep(es, key, start, t, tomb);
      r.Some? ==> (r.value < |es| && PathClear(es, start, r.value) &&
                   (es[Slot(start, r.value, |es|)].key.None? || es[Slot(start, r.value, |es|)].key == Some(key)))
    decreases |es| - t
  {
    if t < |es| {
      var e := es[Slot(start, t, |es|)];
      if e.key.None? && !e.value.Nil? {
        FindStepShape(es, key, start, t + 1, if tomb.None? then Some(t) else tomb);
      } else if e.key.Some? && e.key != Some(key) {
        FindStepShape(es, key, start, t + 1, tomb);
      }
    }
  }

  /**
   * The probe terminates whenever an empty slot lies ahead: it then returns
   * at that slot at the latest.
   */
  lemma {:induction false} FindStepTerminates(es: seq<Entry>, key: Handle, start: nat, t: nat, tomb: Option<nat>, s: nat)
    requires start < |es| && t <= s < |es|
    requires tomb.Some? ==> tomb.value < t
    requires IsEmptyEntry(es[Slot(start, s, |es|)])
    ensures FindStep(es, key, start, t, tomb).Some?
    decreases |es| - t
  {
    if t < s {
      var e := es[Slot(start, t, |es|)];
      if e.key.None? && !e.value.Nil? {
        FindStepTerminates(es, key, start, t + 1, if tomb.None? then Some(t) else tomb, s);
      } else if e.key.Some? && e.key != Some(key) {
        FindStepTerminates(es, key, start, t + 1, tomb, s);
      }
    }
  }

  /**
   * The probe returns the key's slot when no empty slot and no other copy
   * of the key lies before it, however many tombstones it passes.
   */
  lemma {:induction false} FindStepFindsKey(es: seq<Entry>, key: Handle, start: nat, t: nat, tomb: Option<nat>, d: nat)
    requires start < |es| && t <= d < |es|
    requires tomb.Some? ==> tomb.value < t
    requires es[Slot(start, d, |es|)].key == Some(key)
    requires forall s :: t <= s < d ==> !IsEmptyEntry(es[Slot(start, s, |es|)]) && es[Slot(start, s, |es|)].key != Some(key)
    ensures FindStep(es, key, start, t, tomb) == Some(d)
    decreases d - t
  {
    if t < d {
      var e := es[Slot(start, t, |es|)];
      assert !IsEmptyEntry(e) && e.key != Some(key);
      if e.key.None? {
        FindStepFindsKey(es, key, start, t + 1, if tomb.None? then Some(t) else tomb, d);
      } else {
        FindStepFindsKey(es, key, start, t + 1, tomb, d);
      }
    }
  }

  /** Number of slots that are not genuinely empty: live keys plus tombstones. */
  function CountNonEmpty(es: seq<Entry>): (n: nat)
    ensures n <= |es|
  {
    if |es| == 0 then 0
    else CountNonEmpty(es[..|es| - 1]) + (if IsEmptyEntry(es[|es| - 1]) then 0 else 1)
  }

  /** Overwriting one slot changes the count by that slot's change alone. */
  lemma {:induction false} CountNonEmptyUpdate(es: seq<Entry>, j: nat, e: Entry)
    requires j < |es|
    ensures CountNonEmpty(es[j := e]) + (if IsEmptyEntry(es[j]) then 0 else 1)
         == CountNonEmpty(es) + (if IsEmptyEntry(e) then 0 else 1)
  {
    var n := |es| - 1;
    if j < n {
      assert es[j := e][..n] == es[..n][j := e];
      CountNonEmptyUpdate(es[..n], j, e);
    } else {
      assert es[j := e][..n] == es[..n];
    }
  }

  /** Fewer non-empty slots than slots: some slot is genuinely empty. */
  lemma {:induction false} EmptySlotExists(es: seq<Entry>) returns (i: nat)
    requires CountNonEmpty(es) < |es|
    ensures i < |es| && IsEmptyEntry(es[i])
  {
    var n := |es| - 1;
    if IsEmptyEntry(es[n]) {
      i := n;
    } else {
      i := EmptySlotExists(es[..n]);
      assert es[..n][i] == es[i];
    }
  }

  /** An array of empty entries has none that count. */
  lemma {:induction false} CountNonEmptyAllEmpty(es: seq<Entry>)
    requires forall i :: 0 <= i < |es| ==> es[i] == EmptyEntry
    ensures CountNonEmpty(es) == 0
  {
    if |es| > 0 {
      CountNonEmptyAllEmpty(es[..|es| - 1]);
    }
  }

  /** A non-empty slot counts, so a count of zero leaves every slot empty. */
  lemma {:induction false} CountNonEmptyZero(es: seq<Entry>, i: nat)
    requires CountNonEmpty(es) == 0 && i < |es|
    ensures IsEmptyEntry(es[i])
  {
    var n := |es| - 1;
    if i < n {
      CountNonEmptyZero(es[..n], i);
      assert es[..n][i] == es[i];
    }
  }

  /**
   * When the key is absent, findEntry returns the first NULL-key slot of
   * the probe: the first tombstone if one comes before the first empty
   * slot, and that empty slot otherwise.
   */
  lemma {:induction false} FindStepFirstFree(es: seq<Entry>, key: Handle, start: nat, t: nat, tomb: Option<nat>)
    requires start < |es| && t <= |es|
    requires forall s :: 0 <= s < |es| ==> es[Slot(start, s, |es|)].key != Some(key)
    requires tomb.None? ==> forall s :: 0 <= s < t ==> es[Slot(start, s, |es|)].key.Some?
    requires tomb.Some? ==> tomb.value < t && es[Slot(start, tomb.value, |es|)].key.None?
    requires tomb.Some? ==> forall s :: 0 <= s < tomb.value ==> es[Slot(start, s, |es|)].key.Some?
    ensures var r := FindStep(es, key, start, t, tomb);
      r.Some? ==> (r.value < |es| && es[Slot(start, r.value, |es|)].key.None? &&
                   forall s :: 0 <= s < r.value ==> es[Slot(start, s, |es|)].key.Some?)
    decreases |es| - t
  {
    if t < |es| {
      var e := es[Slot(start, t, |es|)];
      assert e.key != Some(key);
      if e.key.None? && !e.value.Nil? {
        FindStepFirstFree(es, key, start, t + 1, if tomb.None? then Some(t) else tomb);
      } else if e.key.Some? {
        FindStepFirstFree(es, key, start, t + 1, tomb);
      }
    }
  }

  /** The key of slot `i`, for the pairwise statement below; None outside the slots. */
  ghost function SlotKey(es: seq<Entry>, i: int): Option<Handle>
  {
    if 0 <= i < |es| then es[i].key else None
  }

  /** Every key occurs in at most one slot. */
  ghost predicate UniqueKeys(es: seq<Entry>)
  {
    forall i, j {:trigger SlotKey(es, i), SlotKey(es, j)} ::
      0 <= i < |es| && 0 <= j < |es| && SlotKey(es, i).Some? && SlotKey(es, i) == SlotKey(es, j) ==> i == j
  }

  /** UniqueKeys, stated over the slots themselves. */
  ghost predicate DistinctSlotKeys(es: seq<Entry>)
  {
    forall i, j :: 0 <= i < |es| && 0 <= j < |es| && es[i].key.Some? && es[i].key == es[j].key ==> i == j
  }

  lemma UniqueKeysDistinct(es: seq<Entry>)
    ensures UniqueKeys(es) <==> DistinctSlotKeys(es)
  {
    forall i | 0 <= i < |es|
      ensures SlotKey(es, i) == es[i].key
    {
    }
  }

  /** A NULL-key slot is either empty or a tombstone. */
  ghost predicate NullKeysWellFormed(es: seq<Entry>)
  {
    forall i :: 0 <= i < |es| && es[i].key.None? ==> es[i] == EmptyEntry || es[i] == Tombstone
  }

  /** No tombstones: every NULL-key slot is empty. */
  ghost predicate NoTombstones(es: seq<Entry>)
  {
    forall i :: 0 <= i < |es| && es[i].key.None? ==> IsEmptyEntry(es[i])
  }

  /** Every key refers to a string object of the heap. */
  ghost predicate KeysAreStrings(es: seq<Entry>, objs: map<Handle, Obj>)
  {
    forall i :: 0 <= i < |es| && es[i].key.Some? ==> es[i].key.value in objs && objs[es[i].key.value].ObjString?
  }

  /** Where the probe for the key in slot `i` starts. */
  function HomeOf(es: seq<Entry>, objs: map<Handle, Obj>, i: nat): nat
    requires i < |es| && es[i].key.Some?
  {
    Home(KeyHash(objs, es[i].key.value), |es|)
  }

  /**
   * Every key can be found: no slot between its home and its own slot is
   * genuinely empty.
   */
  ghost predicate Reachable(es: seq<Entry>, objs: map<Handle, Obj>)
  {
    forall i :: 0 <= i < |es| ==> KeyReachable(es, objs, i)
  }

  /** The key in slot `i`, if any, is reached from its home slot. */
  ghost predicate KeyReachable(es: seq<Entry>, objs: map<Handle, Obj>, i: nat)
    requires i < |es|
  {
    es[i].key.Some? ==>
      PathClear(es, HomeOf(es, objs, i), Dist(HomeOf(es, objs, i), i, |es|))
  }

  /**
   * The table invariant: capacity 0 or at least 8; `count` counts live
   * entries and tombstones; a genuinely empty slot always remains; keys are
   * unique string objects, each reachable from its home slot.
   */
  ghost predicate TableInv(es: seq<Entry>, count: nat, objs: map<Handle, Obj>)
  {
    && (|es| == 0 || |es| >= 8)
    && count == CountNonEmpty(es)
    && (|es| > 0 ==> count < |es|)
    && NullKeysWellFormed(es)
    && KeysAreStrings(es, objs)
    && UniqueKeys(es)
    && Reachable(es, objs)
  }

  /** The key-to-value mapping the table holds. */
  ghost function TableContents(es: seq<Entry>): map<Handle, Value>
    requires UniqueKeys(es)
  {
    UniqueKeysDistinct(es);
    map i | 0 <= i < |es| && es[i].key.Some? :: es[i].key.value := es[i].value
  }

  /** A key of some slot is in the mapping, bound to that slot's value. */
  lemma InTableContents(es: seq<Entry>, i: nat)
    requires UniqueKeys(es) && i < |es| && es[i].key.Some?
    ensures es[i].key.value in TableContents(es)
    ensures TableContents(es)[es[i].key.value] == es[i].value
  {
    UniqueKeysDistinct(es);
  }

  /** A key in the mapping sits in some slot. */
  lemma SlotOfKey(es: seq<Entry>, k: Handle) returns (i: nat)
    requires UniqueKeys(es) && k in TableContents(es)
    ensures i < |es| && es[i].key == Some(k)
  {
    UniqueKeysDistinct(es);
    i :| 0 <= i < |es| && es[i].key.Some? && es[i].key.value == k;
  }

  /**
   * Two slot arrays that agree on every slot but `j` have the same mapping
   * outside the keys of slot `j`.
   */
  lemma TableContentsAgree(es: seq<Entry>, es': seq<Entry>, j: nat, k: Handle)
    requires UniqueKeys(es) && UniqueKeys(es') && |es| == |es'| && j < |es|
    requires forall i :: 0 <= i < |es| && i != j ==> es'[i] == es[i]
    requires es[j].key != Some(k) && es'[j].key != Some(k)
    ensures k in TableContents(es) <==> k in TableContents(es')
    ensures k in TableContents(es) ==> TableContents(es)[k] == TableContents(es')[k]
  {
    UniqueKeysDistinct(es);
    UniqueKeysDistinct(es');
    if k in TableContents(es) {
      var i := SlotOfKey(es, k);
      InTableContents(es', i);
    }
    if k in TableContents(es') {
      var i := SlotOfKey(es', k);
      InTableContents(es, i);
    }
  }

  /** Filling slot `j` with `key` (already there, or absent everywhere) updates the mapping. */
  lemma TableContentsAfterSet(es: seq<Entry>, j: nat, key: Handle, value: Value)
    requires UniqueKeys(es) && j < |es|
    requires es[j].key == Some(key) || (es[j].key.None? && key !in TableContents(es))
    ensures UniqueKeys(es[j := Entry(Some(key), value)])
    ensures TableContents(es[j := Entry(Some(key), value)]) == TableContents(es)[key := value]
  {
    UniqueKeysDistinct(es);
    UniqueKeysDistinct(es[j := Entry(Some(key), value)]);
    var es' := es[j := Entry(Some(key), value)];
    forall i | 0 <= i < |es| && i != j
      ensures es[i].key != Some(key)
    {
      if es[j].key.None? && es[i].key.Some? {
        InTableContents(es, i);
      }
    }
    assert UniqueKeys(es');
    var a := TableContents(es');
    var b := TableContents(es)[key := value];
    InTableContents(es', j);
    forall k | k != key
      ensures (k in a <==> k in b) && (k in a ==> a[k] == b[k])
    {
      TableContentsAgree(es, es', j, k);
    }
    assert a == b;
  }

  /** Overwriting a NULL-key slot with another NULL-key entry keeps the mapping. */
  lemma TableContentsAfterNullWrite(es: seq<Entry>, j: nat, e: Entry)
    requires UniqueKeys(es) && j < |es| && es[j].key.None? && e.key.None?
    ensures UniqueKeys(es[j := e])
    ensures TableContents(es[j := e]) == TableContents(es)
  {
    UniqueKeysDistinct(es);
    UniqueKeysDistinct(es[j := e]);
    var es' := es[j := e];
    forall k
      ensures (k in TableContents(es) <==> k in TableContents(es'))
      ensures k in TableContents(es) ==> TableContents(es)[k] == TableContents(es')[k]
    {
      TableContentsAgree(es, es', j, k);
    }
  }

  /** Making the key's slot a tombstone removes exactly that key. */
  lemma TableContentsAfterRemove(es: seq<Entry>, j: nat, key: Handle)
    requires UniqueKeys(es) && j < |es| && es[j].key == Some(key)
    ensures UniqueKeys(es[j := Tombstone])
    ensures TableContents(es[j := Tombstone]) == TableContents(es) - {key}
  {
    UniqueKeysDistinct(es);
    UniqueKeysDistinct(es[j := Tombstone]);
    var es' := es[j := Tombstone];
    var a := TableContents(es');
    var b := TableContents(es) - {key};
    forall i | 0 <= i < |es'| && es'[i].key.Some?
      ensures es'[i].key != Some(key)
    {
    }
    assert key !in a;
    forall k | k != key
      ensures (k in a <==> k in b) && (k in a ==> a[k] == b[k])
    {
      TableContentsAgree(es, es', j, k);
    }
    assert a == b;
  }

  /** Appending a slot adds its key, if it has one, to the mapping. */
  lemma TableContentsSnoc(es: seq<Entry>, e: Entry)
    requires UniqueKeys(es + [e])
    ensures UniqueKeys(es)
    ensures e.key.Some? ==> e.key.value !in TableContents(es)
    ensures TableContents(es + [e]) == if e.key.Some? then TableContents(es)[e.key.value := e.value] else TableContents(es)
  {
    UniqueKeysDistinct(es);
    UniqueKeysDistinct(es + [e]);
    var es' := es + [e];
    assert forall i :: 0 <= i < |es| ==> es'[i] == es[i];
    assert es'[|es|] == e;
    assert UniqueKeys(es);
    forall i | 0 <= i < |es|
      ensures es[i].key.Some? ==> es[i].key != e.key
    {
      assert es'[i] == es[i];
    }
    forall k
      ensures k in TableContents(es) ==> e.key != Some(k)
    {
      if k in TableContents(es) {
        var i := SlotOfKey(es, k);
      }
    }
    var a := TableContents(es');
    var b := if e.key.Some? then TableContents(es)[e.key.value := e.value] else TableContents(es);
    forall k
      ensures (k in a <==> k in b) && (k in a ==> a[k] == b[k])
    {
      if k in a {
        var i := SlotOfKey(es', k);
        if i < |es| {
          InTableContents(es, i);
        }
      }
      if k in TableContents(es) {
        var i := SlotOfKey(es, k);
        InTableContents(es', i);
      }
      if e.key == Some(k) {
        InTableContents(es', |es|);
      }
    }
    assert a == b;
  }

  /** Turning empty slots into non-empty ones keeps every probe path clear. */
  lemma PathClearMonotone(es: seq<Entry>, es': seq<Entry>, start: nat, d: nat)
    requires |es| == |es'| && start < |es| && d <= |es|
    requires forall x :: 0 <= x < |es| && !IsEmptyEntry(es[x]) ==> !IsEmptyEntry(es'[x])
    requires PathClear(es, start, d)
    ensures PathClear(es', start, d)
  {
    forall s | 0 <= s < d
      ensures !IsEmptyEntry(es'[Slot(start, s, |es|)])
    {
      assert !IsEmptyEntry(es[Slot(start, s, |es|)]);
    }
  }

  /**
   * What findEntry returns on a table that keeps the invariant: it
   * terminates, at the key's own slot when the key is present, and
   * otherwise at a NULL-key slot whose probe path is clear.
   */
  lemma FindEntryInTable(es: seq<Entry>, count: nat, objs: map<Handle, Obj>, key: Handle) returns (step: nat)
    requires TableInv(es, count, objs) && |es| > 0
    ensures FindEntry(es, key, KeyHash(objs, key)) == Some(step)
    ensures PathClear(es, Home(KeyHash(objs, key), |es|), step)
    ensures var j := Slot(Home(KeyHash(objs, key), |es|), step, |es|);
      && (es[j].key.None? || es[j].key == Some(key))
      && (key in TableContents(es) <==> es[j].key == Some(key))
      && (key in TableContents(es) ==> TableContents(es)[key] == es[j].value)
  {
    UniqueKeysDistinct(es);
    var home := Home(KeyHash(objs, key), |es|);
    var e := EmptySlotExists(es);
    FindStepTerminates(es, key, home, 0, None, Dist(home, e, |es|));
    step := FindEntry(es, key, KeyHash(objs, key)).value;
    FindStepShape(es, key, home, 0, None);
    var j := Slot(home, step, |es|);
    if key in TableContents(es) {
      var i :| 0 <= i < |es| && es[i].key == Some(key);
      var d := Dist(home, i, |es|);
      assert KeyReachable(es, objs, i);
      assert HomeOf(es, objs, i) == home;
      assert PathClear(es, home, d);
      forall s | 0 <= s < d
        ensures !IsEmptyEntry(es[Slot(home, s, |es|)]) && es[Slot(home, s, |es|)].key != Some(key)
      {
        if es[Slot(home, s, |es|)].key == Some(key) {
          DistOfSlot(home, s, |es|);
        }
      }
      FindStepFindsKey(es, key, home, 0, None, d);
    }
  }

  /**
   * hashTableSet after any growth, on the table's values: the slot
   * findEntry returns receives the pair, `count` grows only when that slot
   * was genuinely empty, the invariant is kept and the mapping gains
   * `key -> value`; the result says whether the key was absent.
   */
  lemma SetEntry(es: seq<Entry>, count: nat, objs: map<Handle, Obj>, key: Handle, value: Value, step: nat)
    requires TableInv(es, count, objs) && |es| > 0 && count + 1 < |es|
    requires key in objs && objs[key].ObjString?
    requires FindEntry(es, key, KeyHash(objs, key)) == Some(step)
    ensures var j := Slot(Home(KeyHash(objs, key), |es|), step, |es|);
      var es' := es[j := Entry(Some(key), value)];
      var count' := count + (if IsEmptyEntry(es[j]) then 1 else 0);
      && TableInv(es', count', objs)
      && TableContents(es') == TableContents(es)[key := value]
      && (es[j].key.None? <==> key !in TableContents(es))
  {
    var step' := FindEntryInTable(es, count, objs, key);
    var home := Home(KeyHash(objs, key), |es|);
    var j := Slot(home, step, |es|);
    var es' := es[j := Entry(Some(key), value)];
    var count' := count + (if IsEmptyEntry(es[j]) then 1 else 0);
    CountNonEmptyUpdate(es, j, Entry(Some(key), value));
    TableContentsAfterSet(es, j, key, value);
    forall i | 0 <= i < |es'| && es'[i].key.Some?
      ensures es'[i].key.value in objs && objs[es'[i].key.value].ObjString?
    {
      if i != j {
        assert es'[i] == es[i];
      }
    }
    forall i | 0 <= i < |es'|
      ensures KeyReachable(es', objs, i)
    {
      if i == j {
        DistOfSlot(home, step, |es|);
        PathClearMonotone(es, es', home, step);
      } else if es'[i].key.Some? {
        assert es'[i] == es[i];
        assert KeyReachable(es, objs, i);
        PathClearMonotone(es, es', HomeOf(es, objs, i), Dist(HomeOf(es, objs, i), i, |es|));
      }
    }
  }

  /**
   * Removing a present key, on the table's values: its slot becomes a
   * tombstone, `count` is unchanged, the invariant is kept and the mapping
   * loses exactly that key.
   */
  lemma RemoveEntry(es: seq<Entry>, count: nat, objs: map<Handle, Obj>, key: Handle, step: nat)
    requires TableInv(es, count, objs) && |es| > 0
    requires FindEntry(es, key, KeyHash(objs, key)) == Some(step)
    requires key in TableContents(es)
    ensures step < |es|
    ensures var j := Slot(Home(KeyHash(objs, key), |es|), step, |es|);
      var es' := es[j := Tombstone];
      && es[j].key == Some(key)
      && TableInv(es', count, objs)
      && TableContents(es') == TableContents(es) - {key}
  {
    var step' := FindEntryInTable(es, count, objs, key);
    var home := Home(KeyHash(objs, key), |es|);
    var j := Slot(home, step, |es|);
    var es' := es[j := Tombstone];
    CountNonEmptyUpdate(es, j, Tombstone);
    TableContentsAfterRemove(es, j, key);
    forall i | 0 <= i < |es'| && es'[i].key.Some?
      ensures KeyReachable(es', objs, i)
    {
      assert i != j && es'[i] == es[i];
      assert KeyReachable(es, objs, i);
      PathClearMonotone(es, es', HomeOf(es, objs, i), Dist(HomeOf(es, objs, i), i, |es|));
    }
  }

  /**
   * hashTableRemove as written, for a key that is absent from a table with
   * `count > 0` when the probe meets no tombstone: it overwrites a
   * genuinely empty slot with a tombstone that `count` does not include,
   * so `count` no longer counts the non-empty slots.
   */
  lemma RemoveAbsentBreaksCount(es: seq<Entry>, count: nat, objs: map<Handle, Obj>, key: Handle, step: nat)
    requires TableInv(es, count, objs) && |es| > 0
    requires FindEntry(es, key, KeyHash(objs, key)) == Some(step)
    requires key !in TableContents(es)
    requires IsEmptyEntry(es[Slot(Home(KeyHash(objs, key), |es|), step, |es|)])
    ensures var es' := es[Slot(Home(KeyHash(objs, key), |es|), step, |es|) := Tombstone];
      && CountNonEmpty(es') == count + 1
      && !TableInv(es', count, objs)
      && UniqueKeys(es') && TableContents(es') == TableContents(es)
  {
    var j := Slot(Home(KeyHash(objs, key), |es|), step, |es|);
    CountNonEmptyUpdate(es, j, Tombstone);
    TableContentsAfterNullWrite(es, j, Tombstone);
  }

  /** The invariant survives allocating more objects: existing hashes do not change. */
  lemma TableInvHeapGrowth(es: seq<Entry>, count: nat, objs: map<Handle, Obj>, objs': map<Handle, Obj>)
    requires TableInv(es, count, objs)
    requires forall k :: k in objs ==> k in objs' && objs'[k] == objs[k]
    ensures TableInv(es, count, objs')
  {
    forall i | 0 <= i < |es|
      ensures KeyReachable(es, objs', i)
    {
      assert KeyReachable(es, objs, i);
      if es[i].key.Some? {
        assert KeyHash(objs', es[i].key.value) == KeyHash(objs, es[i].key.value);
      }
    }
  }

  /**
   * A concrete table on which hashTableRemove as written goes wrong:
   * capacity 8, string 0 (hash 0) in slot 0, and string 1 (hash 1) absent.
   * The probe for string 1 stops at the empty slot 1, which the removal
   * turns into a tombstone that `count` (still 1) does not include.
   */
  lemma RemoveAbsentCounterexample()
    ensures var objs := map[0 := ObjString("a", 1, 0), 1 := ObjString("b", 1, 1)];
      var es := [Entry(Some(0), Nil)] + seq(7, _ => EmptyEntry);
      && TableInv(es, 1, objs)
      && 1 !in TableContents(es)
      && FindEntry(es, 1, KeyHash(objs, 1)) == Some(0)
      && Slot(Home(KeyHash(objs, 1), |es|), 0, |es|) == 1
      && IsEmptyEntry(es[1])
      && CountNonEmpty(es[1 := Tombstone]) == 2
  {
    var objs := map[0 := ObjString("a", 1, 0), 1 := ObjString("b", 1, 1)];
    var es := [Entry(Some(0), Nil)] + seq(7, _ => EmptyEntry);
    assert Home(KeyHash(objs, 0), 8) == 0;
    assert Home(KeyHash(objs, 1), 8) == 1;
    CountNonEmptyAllEmpty(es[1..]);
    CountNonEmptyAfterFirst(es);
    assert UniqueKeys(es);
    forall i | 0 <= i < |es|
      ensures KeyReachable(es, objs, i)
    {
      if es[i].key.Some? {
        assert i == 0;
      }
    }
    InTableContents(es, 0);
    forall k | k in TableContents(es)
      ensures k == 0
    {
      var i := SlotOfKey(es, k);
    }
    var e := es[Slot(Home(KeyHash(objs, 1), |es|), 0, |es|)];
    assert e == EmptyEntry;
    CountNonEmptyUpdate(es, 1, Tombstone);
  }

  /** Counting from the front: the first slot, then the rest. */
  lemma {:induction false} CountNonEmptyAfterFirst(es: seq<Entry>)
    requires |es| > 0
    ensures CountNonEmpty(es) == (if IsEmptyEntry(es[0]) then 0 else 1) + CountNonEmpty(es[1..])
  {
    var n := |es| - 1;
    if n > 0 {
      CountNonEmptyAfterFirst(es[..n]);
      assert es[..n][1..] == es[1..][..n - 1];
      assert es[..n][0] == es[0];
    }
  }

  /** A prefix of a slot array with unique keys has unique keys. */
  lemma UniqueKeysPrefix(es: seq<Entry>, i: nat)
    requires UniqueKeys(es) && i <= |es|
    ensures UniqueKeys(es[..i])
  {
    UniqueKeysDistinct(es);
    UniqueKeysDistinct(es[..i]);
    assert forall a :: 0 <= a < i ==> es[..i][a] == es[a];
  }

  /**
   * The mapping of the first `i + 1` slots: that of the first `i` plus the
   * key of slot `i`, which none of them holds.
   */
  lemma TableContentsPrefix(es: seq<Entry>, i: nat)
    requires UniqueKeys(es) && i < |es|
    ensures UniqueKeys(es[..i]) && UniqueKeys(es[..i + 1])
    ensures es[i].key.Some? ==> es[i].key.value !in TableContents(es[..i])
    ensures TableContents(es[..i + 1]) ==
      if es[i].key.Some? then TableContents(es[..i])[es[i].key.value := es[i].value] else TableContents(es[..i])
  {
    assert es[..i + 1] == es[..i] + [es[i]];
    UniqueKeysPrefix(es, i + 1);
    TableContentsSnoc(es[..i], es[i]);
  }

  /**
   * The state of adjustCapacity's rebuild after the first `i` old slots:
   * the new array keeps the invariant without tombstones and holds exactly
   * the keys of those slots, `n` of them.
   */
  ghost predicate RehashInv(es: seq<Entry>, ne: seq<Entry>, n: nat, objs: map<Handle, Obj>, i: nat)
  {
    && i <= |es| && |es| < |ne|
    && UniqueKeys(es)
    && TableInv(ne, n, objs) && NoTombstones(ne) && n <= i
    && UniqueKeys(es[..i])
    && TableContents(ne) == TableContents(es[..i])
    && n == |TableContents(ne)|
  }

  /** The rebuild starts from an array of empty slots, larger than the old one. */
  lemma RehashStart(es: seq<Entry>, count: nat, ne: seq<Entry>, objs: map<Handle, Obj>)
    requires TableInv(es, count, objs) && |es| < |ne| && |ne| >= 8
    requires forall i :: 0 <= i < |ne| ==> ne[i] == EmptyEntry
    ensures RehashInv(es, ne, 0, objs, 0)
  {
    CountNonEmptyAllEmpty(ne);
    assert TableContents(ne) == map[];
    assert TableContents(es[..0]) == map[];
  }

  /** After the last old slot the new array holds exactly the old mapping. */
  lemma RehashDone(es: seq<Entry>, ne: seq<Entry>, n: nat, objs: map<Handle, Obj>)
    requires RehashInv(es, ne, n, objs, |es|)
    ensures TableInv(ne, n, objs) && NoTombstones(ne) && n <= |es|
    ensures TableContents(ne) == TableContents(es) && n == |TableContents(ne)|
  {
    assert es[..|es|] == es;
  }

  /** A rebuild step over a NULL-key slot changes nothing. */
  lemma RehashSkip(es: seq<Entry>, ne: seq<Entry>, n: nat, objs: map<Handle, Obj>, i: nat)
    requires RehashInv(es, ne, n, objs, i) && i < |es| && es[i].key.None?
    ensures RehashInv(es, ne, n, objs, i + 1)
  {
    TableContentsPrefix(es, i);
  }

  /** A rebuild step over a key re-inserts it into the slot findEntry picks. */
  lemma RehashInsert(es: seq<Entry>, count: nat, ne: seq<Entry>, n: nat, objs: map<Handle, Obj>, i: nat)
    requires TableInv(es, count, objs) && RehashInv(es, ne, n, objs, i) && i < |es| && es[i].key.Some?
    ensures var key := es[i].key.value;
      && key in objs && objs[key].ObjString?
      && FindEntry(ne, key, objs[key].hash).Some?
      && RehashInv(es, ne[Slot(Home(objs[key].hash, |ne|), FindEntry(ne, key, objs[key].hash).value, |ne|) := es[i]], n + 1, objs, i + 1)
  {
    var key := es[i].key.value;
    var value := es[i].value;
    var hash := objs[key].hash;
    assert KeyHash(objs, key) == hash;
    TableContentsPrefix(es, i);
    assert FindEntry(ne, key, hash).Some? by {
      var _ := FindEntryInTable(ne, n, objs, key);
    }
    var step := FindEntry(ne, key, hash).value;
    var j := Slot(Home(hash, |ne|), step, |ne|);
    assert IsEmptyEntry(ne[j]) by {
      var _ := FindEntryInTable(ne, n, objs, key);
    }
    var ne' := ne[j := es[i]];
    assert TableInv(ne', n + 1, objs) && TableContents(ne') == TableContents(ne)[key := value] by {
      SetEntry(ne, n, objs, key, value, step);
      assert ne' == ne[j := Entry(Some(key), value)];
    }
    RehashExtend(es, ne, ne', n, objs, i);
  }

  /** The rebuild invariant moves past slot `i` once its key has joined the new array. */
  lemma RehashExtend(es: seq<Entry>, ne: seq<Entry>, ne': seq<Entry>, n: nat, objs: map<Handle, Obj>, i: nat)
    requires RehashInv(es, ne, n, objs, i) && i < |es| && es[i].key.Some? && |ne'| == |ne|
    requires TableInv(ne', n + 1, objs) && TableContents(ne') == TableContents(ne)[es[i].key.value := es[i].value]
    requires forall k :: 0 <= k < |ne'| && ne'[k].key.None? ==> ne'[k] == ne[k]
    ensures RehashInv(es, ne', n + 1, objs, i + 1)
  {
    TableContentsPrefix(es, i);
  }

  /** tableFindString's test: a string key of the same length, hash and characters. */
  ghost predicate StringMatches(objs: map<Handle, Obj>, k: Handle, chars: string, hash: bv32)
  {
    k in objs && objs[k].ObjString? && objs[k].len == |chars| && objs[k].hash == hash && objs[k].chars == chars
  }

  /** Slot `i` holds a key that matches the string. */
  ghost predicate SlotMatches(es: seq<Entry>, objs: map<Handle, Obj>, i: nat, chars: string, hash: bv32)
    requires i < |es|
  {
    es[i].key.Some? && StringMatches(objs, es[i].key.value, chars, hash)
  }

  /**
   * When tableFindString's probe stops at a genuinely empty slot after
   * passing only non-matching slots, no key in the table matches: a match
   * would hash to the same home and lie before that empty slot.
   */
  lemma FindStringAbsent(es: seq<Entry>, count: nat, objs: map<Handle, Obj>, chars: string, hash: bv32, t: nat)
    requires TableInv(es, count, objs) && |es| > 0 && t < |es|
    requires IsEmptyEntry(es[Slot(Home(hash, |es|), t, |es|)])
    requires forall s :: 0 <= s < t ==> !SlotMatches(es, objs, Slot(Home(hash, |es|), s, |es|), chars, hash)
    ensures forall k :: k in TableContents(es) ==> !StringMatches(objs, k, chars, hash)
  {
    var start := Home(hash, |es|);
    forall i | 0 <= i < |es| && es[i].key.Some?
      ensures !SlotMatches(es, objs, i, chars, hash)
    {
      if HomeOf(es, objs, i) == start {
        var d := Dist(start, i, |es|);
        assert KeyReachable(es, objs, i);
        assert PathClear(es, start, d);
        assert d < t;
      }
    }
    forall k | k in TableContents(es)
      ensures !StringMatches(objs, k, chars, hash)
    {
      var i := SlotOfKey(es, k);
    }
  }

  /**
   * HashTable: `capacity` slots of which `count` are live or tombstones.
   * `objs` is the object memory that key pointers refer into.
   */
  class HashTable {
    var capacity: nat
    var count: nat
    var entries: array<Entry>
    /** The slots as a sequence, kept equal to the array's contents. */
    ghost var slots: seq<Entry>
    ghost var Repr: set<object>

    ghost predicate Valid()
      reads this, Repr
      ensures Valid() ==> this in Repr
    {
      Repr == {this, entries} && entries.Length == capacity && slots == entries[..]
    }

    ghost predicate Inv(objs: map<Handle, Obj>)
      reads this, Repr
    {
      Valid() && TableInv(slots, count, objs)
    }

    /** The key-to-value mapping the table holds. */
    ghost function Contents(): map<Handle, Value>
      reads this, Repr
      requires Valid() && UniqueKeys(slots)
    {
      TableContents(slots)
    }

    /** initHashTable: no slots, nothing stored. */
    constructor Init()
      ensures Valid() && fresh(Repr)
      ensures capacity == 0 && count == 0
      ensures forall objs :: Inv(objs)
      ensures Contents() == map[]
    {
      capacity, count := 0, 0;
      entries := new Entry[0];
      slots := [];
      Repr := {this, entries};
    }

    /** freeHashTable: back to the state initHashTable leaves. */
    method Free()
      requires Valid()
      modifies Repr
      ensures Valid() && fresh(Repr - old(Repr))
      ensures capacity == 0 && count == 0
      ensures forall objs :: Inv(objs)
      ensures Contents() == map[]
    {
      capacity, count := 0, 0;
      entries := new Entry[0];
      slots := [];
      Repr := {this, entries};
    }

    /**
     * findEntry: probes `entries` from `hash % capacity` and returns the
     * index of the slot that the probe specification FindEntry selects.
     * Termination needs a genuinely empty slot.
     */
    static method FindEntrySlot(entries: array<Entry>, key: Handle, hash: bv32) returns (index: nat)
      requires entries.Length > 0 && CountNonEmpty(entries[..]) < entries.Length
      ensures FindEntry(entries[..], key, hash).Some?
      ensures index == Slot(Home(hash, entries.Length), FindEntry(entries[..], key, hash).value, entries.Length)
    {
      ghost var es := entries[..];
      var cap := entries.Length;
      var start := hash as int % cap;
      ghost var free := EmptySlotExists(es);
      ghost var d := Dist(start, free, cap);
      FindStepTerminates(es, key, start, 0, None, d);
      index := start;
      var tomb: Option<nat> := None;
      ghost var t := 0;
      ghost var tombStep: Option<nat> := None;
      while true
        invariant t <= d && index == Slot(start, t, cap)
        invariant tomb.Some? <==> tombStep.Some?
        invariant tombStep.Some? ==> tombStep.value < t && tomb.value == Slot(start, tombStep.value, cap)
        invariant FindStep(es, key, start, t, tombStep) == FindEntry(es, key, hash)
        decreases cap - t
      {
        var entry := entries[index];
        if entry.key.None? {
          if entry.value.Nil? {
            return if tomb.Some? then tomb.value else index;
          }
          if tomb.None? {
            tomb := Some(index);
            tombStep := Some(t);
          }
        } else if entry.key == Some(key) {
          return index;
        }
        assert t < d;
        NextSlot(start, t, cap);
        index := (index + 1) % cap;
        t := t + 1;
      }
    }

    /**
     * The rebuild loop of adjustCapacity: every key of `entries` is put into
     * the slot findEntry picks in `ne`; the result is the number of keys.
     */
    static method Reinsert(entries: array<Entry>, ghost count: nat, ne: array<Entry>, objs: map<Handle, Obj>) returns (n: nat)
      requires entries != ne
      requires TableInv(entries[..], count, objs) && RehashInv(entries[..], ne[..], 0, objs, 0)
      modifies ne
      ensures RehashInv(entries[..], ne[..], n, objs, entries.Length)
    {
      n := 0;
      for i := 0 to entries.Length
        invariant RehashInv(entries[..], ne[..], n, objs, i)
      {
        var entry := entries[i];
        if entry.key.None? {
          RehashSkip(entries[..], ne[..], n, objs, i);
        } else {
          RehashInsert(entries[..], count, ne[..], n, objs, i);
          var key := entry.key.value;
          var dest := FindEntrySlot(ne, key, objs[key].hash);
          ne[dest] := entry;
          n := n + 1;
        }
      }
    }

    /**
     * adjustCapacity: a fresh array of `newCap` empty slots into which every
     * key is re-inserted by findEntry; tombstones are dropped and `count`
     * becomes the number of keys.
     */
    method AdjustCapacity(newCap: nat, objs: map<Handle, Obj>)
      requires Inv(objs) && newCap > capacity && newCap >= 8
      modifies Repr
      ensures Inv(objs) && fresh(Repr - old(Repr))
      ensures capacity == newCap
      ensures Contents() == old(Contents())
      ensures count == |Contents()| && count <= old(capacity)
      ensures NoTombstones(entries[..])
    {
      var ne := new Entry[newCap](_ => EmptyEntry);
      RehashStart(entries[..], count, ne[..], objs);
      count := Reinsert(entries, count, ne, objs);
      RehashDone(entries[..], ne[..], count, objs);
      entries := ne;
      slots := ne[..];
      capacity := newCap;
      Repr := {this, entries};
    }

    /**
     * hashTableSet: grows first when `count >= capacity * 0.75`, then
     * writes the pair into the slot findEntry returns; `count` grows only
     * when that slot was genuinely empty. The result says whether the key
     * was new.
     */
    method Set(key: Handle, value: Value, objs: map<Handle, Obj>) returns (isNew: bool)
      requires Inv(objs) && key in objs && objs[key].ObjString?
      modifies Repr
      ensures Inv(objs) && fresh(Repr - old(Repr))
      ensures Contents() == old(Contents())[key := value]
      ensures isNew <==> key !in old(Contents())
      ensures old(4 * count < 3 * capacity) ==> capacity == old(capacity) && entries == old(entries)
      ensures old(4 * count >= 3 * capacity) ==> capacity == GrowCapacity(old(capacity))
      ensures old(4 * count < 3 * capacity) && !isNew ==> count == old(count)
    {
      if 4 * count >= 3 * capacity {
        AdjustCapacity(GrowCapacity(capacity), objs);
      }
      isNew := Put(key, value, objs);
    }

    /**
     * The write half of hashTableSet, on a table with room: the pair goes
     * into the slot findEntry returns and `count` grows only when that slot
     * was genuinely empty.
     */
    method Put(key: Handle, value: Value, objs: map<Handle, Obj>) returns (isNew: bool)
      requires Inv(objs) && key in objs && objs[key].ObjString? && count + 1 < capacity
      modifies Repr
      ensures Inv(objs) && Repr == old(Repr)
      ensures entries == old(entries) && capacity == old(capacity)
      ensures Contents() == old(Contents())[key := value]
      ensures isNew <==> key !in old(Contents())
      ensures !isNew ==> count == old(count)
    {
      ghost var es := entries[..];
      ghost var hash := objs[key].hash;
      assert KeyHash(objs, key) == hash;
      var index := FindEntrySlot(entries, key, objs[key].hash);
      ghost var step := FindEntry(es, key, hash).value;
      assert index == Slot(Home(KeyHash(objs, key), |es|), step, |es|);
      ghost var es' := es[index := Entry(Some(key), value)];
      ghost var count' := count + (if IsEmptyEntry(es[index]) then 1 else 0);
      assert TableInv(es', count', objs) && TableContents(es') == TableContents(es)[key := value]
          && (es[index].key.None? <==> key !in TableContents(es)) by {
        SetEntry(es, count, objs, key, value, step);
      }
      isNew := entries[index].key.None?;
      if IsEmptyEntry(entries[index]) {
        count := count + 1;
      }
      entries[index] := Entry(Some(key), value);
      slots := es';
      assert entries[..] == slots;
    }

    /**
     * hashTableGet: false on a table with no entries; otherwise the value
     * in the slot findEntry returns, when that slot holds the key.
     * (When the key is absent C leaves the out-parameter untouched; here
     * the value returned is then nil.)
     */
    method Get(key: Handle, objs: map<Handle, Obj>) returns (found: bool, value: Value)
      requires Inv(objs) && key in objs && objs[key].ObjString?
      ensures found <==> key in Contents()
      ensures found ==> value == Contents()[key]
      ensures !found ==> value == Nil
    {
      if count == 0 {
        forall k | k in Contents()
          ensures false
        {
          var i := SlotOfKey(entries[..], k);
          CountNonEmptyZero(entries[..], i);
        }
        return false, Nil;
      }
      var index := FindEntrySlot(entries, key, objs[key].hash);
      ghost var step := FindEntryInTable(entries[..], count, objs, key);
      if entries[index].key.None? {
        return false, Nil;
      }
      return true, entries[index].value;
    }

    /**
     * hashTableRemove with the check include/hashtable.h documents: false
     * on an empty table or when findEntry's slot does not hold the key;
     * otherwise that slot becomes a tombstone and `count` is unchanged.
     */
    method Remove(key: Handle, objs: map<Handle, Obj>) returns (removed: bool)
      requires Inv(objs) && key in objs && objs[key].ObjString?
      modifies this, entries
      ensures Inv(objs)
      ensures removed <==> key in old(Contents())
      ensures Contents() == old(Contents()) - {key}
      ensures count == old(count) && capacity == old(capacity)
    {
      if count == 0 {
        forall k | k in Contents()
          ensures false
        {
          var i := SlotOfKey(entries[..], k);
          CountNonEmptyZero(entries[..], i);
        }
        return false;
      }
      ghost var es := entries[..];
      assert KeyHash(objs, key) == objs[key].hash;
      var index := FindEntrySlot(entries, key, objs[key].hash);
      ghost var step := FindEntryInTable(es, count, objs, key);
      assert index == Slot(Home(KeyHash(objs, key), |es|), step, |es|);
      removed := entries[index].key.Some?;
      if removed {
        assert TableInv(es[index := Tombstone], count, objs)
            && TableContents(es[index := Tombstone]) == TableContents(es) - {key} by {
          RemoveEntry(es, count, objs, key, step);
        }
        entries[index] := Tombstone;
        slots := es[index := Tombstone];
        assert entries[..] == slots;
      } else {
        assert TableContents(es) - {key} == TableContents(es);
      }
    }

    /**
     * hashTableRemove as written: its only check after findEntry is for a
     * NULL pointer, which findEntry never returns, so on a table with
     * entries it always tombstones the slot findEntry returns and reports
     * success, even when the key is absent.
     */
    method RemoveAsWritten(key: Handle, objs: map<Handle, Obj>) returns (removed: bool)
      requires Inv(objs) && key in objs && objs[key].ObjString?
      modifies this, entries
      ensures removed <==> old(count) != 0
      ensures count == old(count) && capacity == old(capacity)
      ensures old(count) == 0 ==> entries[..] == old(entries[..])
      ensures old(count) != 0 ==>
        FindEntry(old(entries[..]), key, objs[key].hash).Some? &&
        entries[..] == old(entries[..])[Slot(Home(objs[key].hash, capacity), FindEntry(old(entries[..]), key, objs[key].hash).value, capacity) := Tombstone]
      ensures key in old(Contents()) ==> Inv(objs) && Contents() == old(Contents()) - {key}
    {
      if count == 0 {
        forall k | k in Contents()
          ensures false
        {
          var i := SlotOfKey(entries[..], k);
          CountNonEmptyZero(entries[..], i);
        }
        return false;
      }
      ghost var es := entries[..];
      assert KeyHash(objs, key) == objs[key].hash;
      var index := FindEntrySlot(entries, key, objs[key].hash);
      ghost var step := FindEntryInTable(es, count, objs, key);
      assert index == Slot(Home(KeyHash(objs, key), |es|), step, |es|);
      ghost var present := key in Contents();
      if present {
        assert TableInv(es[index := Tombstone], count, objs)
            && TableContents(es[index := Tombstone]) == TableContents(es) - {key} by {
          RemoveEntry(es, count, objs, key, step);
        }
      }
      entries[index] := Tombstone;
      slots := es[index := Tombstone];
      assert entries[..] == slots;
      if present {
        assert Inv(objs);
        assert Contents() == TableContents(es) - {key};
      }
      return true;
    }

    /**
     * tableFindString: NULL on a table with no entries; otherwise probes
     * from `hash % capacity`, skipping tombstones, until a genuinely empty
     * slot (NULL) or a key whose string has the same length, hash and
     * characters.
     */
    method FindString(chars: string, hash: bv32, objs: map<Handle, Obj>) returns (r: Option<Handle>)
      requires Inv(objs)
      ensures r.Some? ==> r.value in Contents() && StringMatches(objs, r.value, chars, hash)
      ensures r.None? ==> forall k :: k in Contents() ==> !StringMatches(objs, k, chars, hash)
    {
      ghost var es := entries[..];
      if count == 0 {
        forall k | k in Contents()
          ensures false
        {
          var i := SlotOfKey(es, k);
          CountNonEmptyZero(es, i);
        }
        return None;
      }
      var cap := capacity;
      var start := hash as int % cap;
      ghost var free := EmptySlotExists(es);
      ghost var d := Dist(start, free, cap);
      var index := start;
      ghost var t := 0;
      while true
        invariant t <= d && index == Slot(start, t, cap)
        invariant forall s :: 0 <= s < t ==> !IsEmptyEntry(es[Slot(start, s, cap)])
        invariant forall s :: 0 <= s < t ==> !SlotMatches(es, objs, Slot(start, s, cap), chars, hash)
        decreases cap - t
      {
        var entry := entries[index];
        if IsEmptyEntry(entry) {
          FindStringAbsent(es, count, objs, chars, hash, t);
          return None;
        }
        if entry.key.Some? {
          var o := objs[entry.key.value];
          if o.len == |chars| && o.hash == hash && o.chars == chars {
            InTableContents(es, index);
            return entry.key;
          }
        }
        assert t < d;
        NextSlot(start, t, cap);
        index := (index + 1) % cap;
        t := t + 1;
      }
    }
  }
}
