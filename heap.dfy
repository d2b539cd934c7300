/**
 * The allocating half of src/object.c: the VM's object list, the heap of
 * objects it links, and the intern table of strings (vm.objs and
 * vm.strings). Object pointers are handles into a map, so pointer identity
 * is handle equality; a new object gets the next unused handle.
 */
module ObjectHeap {
  import opened Wrappers
  import opened Values
  import opened Chunks
  import opened Objects
  import opened HashTables

  /** A string object whose length and hash agree with its characters. */
  predicate WellFormedString(o: Obj)
  {
    o.ObjString? && o.len == |o.chars| && o.hash == Fnv1a(o.chars)
  }

  /**
   * The object list links every object exactly once, newest first; every
   * handle in use lies below `next`.
   */
  ghost predicate ObjectList(objs: seq<Handle>, objects: map<Handle, Obj>, next: Handle)
  {
    && (forall h :: h in objects ==> h < next)
    && (forall h :: h in objs <==> h in objects)
    && (forall i, j {:trigger ListedAt(objs, i), ListedAt(objs, j)} :: 0 <= i < j < |objs| ==> ListedAt(objs, i) > ListedAt(objs, j))
  }

  /** The handle at position `i` of the object list, for the ordering above. */
  ghost function ListedAt(objs: seq<Handle>, i: int): int
  {
    if 0 <= i < |objs| then objs[i] else -1
  }

  /** The characters of `k` when it is an interned string. */
  ghost function InternedChars(objects: map<Handle, Obj>, table: map<Handle, Value>, k: Handle): Option<string>
  {
    if k in table && k in objects && objects[k].ObjString? then Some(objects[k].chars) else None
  }

  /** Some interned string has the characters `s`. */
  ghost predicate HasString(objects: map<Handle, Obj>, table: map<Handle, Value>, s: string)
  {
    exists k :: k in table && k in objects && objects[k].ObjString? && objects[k].chars == s
  }

  /** Every key of the intern table is a string object, mapped to nil. */
  ghost predicate KeysAreStrings(objects: map<Handle, Obj>, table: map<Handle, Value>)
  {
    forall k :: k in table ==> k in objects && objects[k].ObjString? && table[k] == Nil
  }

  /** Every string object is a key of the intern table, and well formed. */
  ghost predicate StringsAreKeys(objects: map<Handle, Obj>, table: map<Handle, Value>)
  {
    forall h :: h in objects && objects[h].ObjString? ==> h in table && WellFormedString(objects[h])
  }

  /** No two interned strings have the same characters. */
  ghost predicate DistinctChars(objects: map<Handle, Obj>, table: map<Handle, Value>)
  {
    forall k1, k2 {:trigger InternedChars(objects, table, k1), InternedChars(objects, table, k2)} ::
      InternedChars(objects, table, k1).Some? && InternedChars(objects, table, k1) == InternedChars(objects, table, k2)
      ==> k1 == k2
  }

  /**
   * The intern table: its keys are exactly the string objects, each
   * well formed and mapped to nil, and no two of them have the same
   * characters.
   */
  ghost predicate Interned(objects: map<Handle, Obj>, table: map<Handle, Value>)
  {
    KeysAreStrings(objects, table) && StringsAreKeys(objects, table) && DistinctChars(objects, table)
  }

  /**
   * What interning `s` does to the heap, from state 0 to state 1: the
   * result is a well-formed string with the characters `s` held by the
   * intern table. When `s` was already interned nothing is allocated and
   * the result is that existing object; otherwise the result is a new
   * object under the next handle, prepended to the object list and
   * entered in the table with value nil.
   */
  ghost predicate InternResult(o0: map<Handle, Obj>, l0: seq<Handle>, t0: map<Handle, Value>, n0: Handle,
                               o1: map<Handle, Obj>, l1: seq<Handle>, t1: map<Handle, Value>,
                               r: Handle, s: string)
  {
    && r in o1 && o1[r] == ObjString(s, |s|, Fnv1a(s)) && r in t1
    && (HasString(o0, t0, s) ==> r in o0 && o1 == o0 && l1 == l0 && t1 == t0)
    && (!HasString(o0, t0, s) ==>
          r == n0 && r !in o0 && o1 == o0[r := ObjString(s, |s|, Fnv1a(s))] &&
          l1 == [r] + l0 && t1 == t0[r := Nil])
  }

  /**
   * Interning is idempotent: interning `s` again right after it returned
   * `r` returns `r` again and changes nothing.
   */
  lemma InternTwice(o0: map<Handle, Obj>, l0: seq<Handle>, t0: map<Handle, Value>, n0: Handle,
                    o1: map<Handle, Obj>, l1: seq<Handle>, t1: map<Handle, Value>, n1: Handle,
                    o2: map<Handle, Obj>, l2: seq<Handle>, t2: map<Handle, Value>,
                    r: Handle, r': Handle, s: string)
    requires Interned(o1, t1)
    requires InternResult(o0, l0, t0, n0, o1, l1, t1, r, s)
    requires InternResult(o1, l1, t1, n1, o2, l2, t2, r', s)
    ensures r' == r && o2 == o1 && l2 == l1 && t2 == t1
  {
    assert HasString(o1, t1, s) by {
      assert r in t1 && r in o1 && o1[r].chars == s;
    }
    assert o2 == o1;
    assert r' in t1 && r' in o1 && o1[r'].chars == s;
    InternedIdentity(o1, t1, r, r');
  }

  /** Two interned strings with the same characters are the same object. */
  lemma InternedIdentity(objects: map<Handle, Obj>, table: map<Handle, Value>, a: Handle, b: Handle)
    requires Interned(objects, table)
    requires a in objects && b in objects && objects[a].ObjString? && objects[b].ObjString?
    requires objects[a].chars == objects[b].chars
    ensures a == b
  {
    assert a in table && b in table;
    assert InternedChars(objects, table, a) == InternedChars(objects, table, b);
  }

  /**
   * The VM's objects: `objs` is the intrusive list vm.objs (newest first),
   * `objects` what each handle points to, and `strings` the intern table.
   */
  class Heap {
    var objs: seq<Handle>
    var objects: map<Handle, Obj>
    var next: Handle
    var strings: HashTable
    ghost var Repr: set<object>

    ghost predicate Valid()
      reads this, Repr
      ensures Valid() ==> this in Repr
    {
      && Layout()
      && strings.Inv(objects)
      && ObjectList(objs, objects, next)
      && Interned(objects, strings.Contents())
    }

    /** The heap owns the intern table, which does not own the heap. */
    ghost predicate Layout()
      reads this, Repr
    {
      this in Repr && strings in Repr && strings.Repr <= Repr && this !in strings.Repr
    }

    /** The intern table's mapping. */
    ghost function Strings(): map<Handle, Value>
      reads this, Repr
      requires Valid()
    {
      strings.Contents()
    }

    /** No objects and an empty intern table, as the VM starts. */
    constructor Init()
      ensures Valid() && fresh(Repr)
      ensures objs == [] && objects == map[] && Strings() == map[]
    {
      objs, objects, next := [], map[], 0;
      strings := new HashTable.Init();
      new;
      Repr := {this} + strings.Repr;
    }

    /**
     * allocateObj: the object gets the next handle and is prepended to the
     * object list; nothing else changes.
     */
    method AllocateObj(o: Obj) returns (h: Handle)
      requires ObjectList(objs, objects, next)
      modifies this
      ensures h == old(next) && h !in old(objects)
      ensures objects == old(objects)[h := o] && objs == [h] + old(objs) && next == h + 1
      ensures ObjectList(objs, objects, next)
      ensures strings == old(strings) && Repr == old(Repr)
    {
      h := next;
      forall i | 0 <= i < |objs|
        ensures objs[i] < h
      {
        assert objs[i] in objects;
      }
      ghost var l0 := objs;
      objects := objects[h := o];
      objs := [h] + objs;
      next := next + 1;
      forall i, j | 0 <= i < j < |objs|
        ensures ListedAt(objs, i) > ListedAt(objs, j)
      {
        assert ListedAt(objs, j) == ListedAt(l0, j - 1);
        if i > 0 {
          assert ListedAt(objs, i) == ListedAt(l0, i - 1);
        }
      }
    }

    /**
     * allocateObjString: a new string object that is entered in the intern
     * table with value nil. Its callers only reach it once the table holds
     * no string with these characters.
     */
    method AllocateString(chars: string, hash: bv32) returns (h: Handle)
      requires Valid() && hash == Fnv1a(chars)
      requires !HasString(objects, Strings(), chars)
      modifies Repr
      ensures Valid() && fresh(Repr - old(Repr))
      ensures h == old(next) && h !in old(objects)
      ensures objects == old(objects)[h := ObjString(chars, |chars|, hash)]
      ensures objs == [h] + old(objs)
      ensures Strings() == old(Strings())[h := Nil]
    {
      ghost var o0 := objects;
      ghost var t0 := Strings();
      assert strings.Inv(o0);
      h := AllocateObj(ObjString(chars, |chars|, hash));
      assert TableInv(strings.slots, strings.count, objects) by {
        TableInvHeapGrowth(strings.slots, strings.count, o0, objects);
      }
      EnterString(h, o0, t0, chars);
    }

    /** The second half of allocateObjString: tableSet of the new string, with value nil. */
    method EnterString(h: Handle, ghost o0: map<Handle, Obj>, ghost t0: map<Handle, Value>, ghost chars: string)
      requires Layout() && strings.Inv(objects) && ObjectList(objs, objects, next)
      requires strings.Contents() == t0 && Interned(o0, t0) && h !in o0 && !HasString(o0, t0, chars)
      requires objects == o0[h := ObjString(chars, |chars|, Fnv1a(chars))]
      modifies Repr
      ensures Valid() && fresh(Repr - old(Repr))
      ensures objects == old(objects) && objs == old(objs) && next == old(next)
      ensures Strings() == t0[h := Nil]
    {
      var _ := strings.Set(h, Nil, objects);
      assert objects == old(objects) && objs == old(objs) && next == old(next);
      ghost var t1 := strings.Contents();
      assert t1 == t0[h := Nil];
      Repr := Repr + strings.Repr;
      InternedAfterAllocation(o0, t0, h, chars);
      assert Interned(objects, t1);
    }

    /**
     * newFunc: a new function object of arity 0 with no name and an empty
     * chunk, prepended to the object list; the intern table is untouched.
     */
    method NewFunc() returns (h: Handle)
      requires Valid()
      modifies this
      ensures Valid() && Repr == old(Repr)
      ensures h == old(next) && h !in old(objects) && objs == [h] + old(objs)
      ensures h in objects && objects[h].ObjFunc? && objects[h].arity == 0 && objects[h].name == None
      ensures fresh(objects[h].chunk) && objects[h].chunk.Valid()
      ensures objects[h].chunk.count == 0 && objects[h].chunk.Constants() == []
      ensures objects == old(objects)[h := objects[h]]
      ensures Strings() == old(Strings())
    {
      var chunk := new Chunk.Init();
      ghost var o0 := objects;
      ghost var t0 := Strings();
      h := AllocateObj(ObjFunc(0, chunk, None));
      assert TableInv(strings.slots, strings.count, objects) by {
        TableInvHeapGrowth(strings.slots, strings.count, o0, objects);
      }
      InternedAfterOther(o0, t0, h, ObjFunc(0, chunk, None));
    }

    /** hashString of the first `n` characters, which leaves the heap as it is. */
    method HashChars(chars: string, n: nat) returns (hash: bv32)
      requires Valid() && n <= |chars|
      ensures hash == Fnv1a(chars[..n])
      ensures Repr == old(Repr) && Valid() && objects == old(objects) && objs == old(objs) && next == old(next)
      ensures Strings() == old(Strings())
    {
      hash := HashString(chars, n);
    }

    /**
     * copyString: interns the first `n` characters of `chars`. When the
     * intern table already holds a string with those characters, that
     * object is returned and nothing is allocated; otherwise a copy is
     * allocated as a new string.
     */
    method CopyString(chars: string, n: nat) returns (r: Handle)
      requires Valid() && n <= |chars|
      modifies Repr
      ensures Valid() && fresh(Repr - old(Repr))
      ensures InternResult(old(objects), old(objs), old(Strings()), old(next), objects, objs, Strings(), r, chars[..n])
    {
      var hash := HashChars(chars, n);
      r := Intern(chars[..n], hash);
    }

    /**
     * takeString: interns `chars`, whose buffer the heap takes over. When
     * the intern table already holds a string with those characters, that
     * object is returned; otherwise the buffer becomes a new string.
     */
    method TakeString(chars: string) returns (r: Handle)
      requires Valid()
      modifies Repr
      ensures Valid() && fresh(Repr - old(Repr))
      ensures InternResult(old(objects), old(objs), old(Strings()), old(next), objects, objs, Strings(), r, chars)
    {
      var hash := HashChars(chars, |chars|);
      assert chars[..|chars|] == chars;
      r := Intern(chars, hash);
    }

    /**
     * concatenate: a string of length `a.len + b.len` holding a's
     * characters followed by b's, interned as takeString interns it.
     */
    method Concatenate(a: Handle, b: Handle) returns (r: Handle)
      requires Valid() && a in objects && b in objects && objects[a].ObjString? && objects[b].ObjString?
      modifies Repr
      ensures Valid() && fresh(Repr - old(Repr))
      ensures InternResult(old(objects), old(objs), old(Strings()), old(next), objects, objs, Strings(), r,
                           old(objects[a].chars) + old(objects[b].chars))
      ensures objects[r].len == old(objects[a].len) + old(objects[b].len)
    {
      var n := objects[a].len + objects[b].len;
      var chars := objects[a].chars + objects[b].chars;
      assert WellFormedString(objects[a]) && WellFormedString(objects[b]);
      assert n == |chars|;
      r := TakeString(chars);
      assert objects[r] == ObjString(chars, |chars|, Fnv1a(chars));
    }

    /**
     * The lookup-then-allocate step copyString and takeString share:
     * tableFindString, and allocateObjString on a miss.
     */
    method Intern(s: string, hash: bv32) returns (r: Handle)
      requires Valid() && hash == Fnv1a(s)
      modifies Repr
      ensures Valid() && fresh(Repr - old(Repr))
      ensures InternResult(old(objects), old(objs), old(Strings()), old(next), objects, objs, Strings(), r, s)
    {
      var interned := strings.FindString(s, hash, objects);
      if interned.Some? {
        r := interned.value;
        assert HasString(objects, Strings(), s) by {
          assert StringMatches(objects, r, s, hash);
        }
        return;
      }
      assert !HasString(objects, Strings(), s) by {
        forall k | k in Strings() && k in objects && objects[k].ObjString?
          ensures objects[k].chars != s
        {
          assert WellFormedString(objects[k]);
          assert !StringMatches(objects, k, s, hash);
        }
      }
      r := AllocateString(s, hash);
    }
  }

  /**
   * The intern table stays well formed when a new string with fresh
   * characters is allocated and entered with value nil.
   */
  lemma InternedAfterAllocation(o0: map<Handle, Obj>, t0: map<Handle, Value>, h: Handle, s: string)
    requires Interned(o0, t0) && h !in o0 && !HasString(o0, t0, s)
    ensures Interned(o0[h := ObjString(s, |s|, Fnv1a(s))], t0[h := Nil])
  {
    var o1 := o0[h := ObjString(s, |s|, Fnv1a(s))];
    var t1 := t0[h := Nil];
    assert KeysAreStrings(o1, t1) by {
      forall k | k in t1
        ensures k in o1 && o1[k].ObjString? && t1[k] == Nil
      {
        if k != h {
          assert k in t0;
        }
      }
    }
    assert StringsAreKeys(o1, t1) by {
      forall x | x in o1 && o1[x].ObjString?
        ensures x in t1 && WellFormedString(o1[x])
      {
        if x != h {
          assert x in o0 && o1[x] == o0[x];
        }
      }
    }
    DistinctAfterAllocation(o0, t0, h, s);
  }

  /** The new string's characters are not those of any string interned before it. */
  lemma DistinctAfterAllocation(o0: map<Handle, Obj>, t0: map<Handle, Value>, h: Handle, s: string)
    requires DistinctChars(o0, t0) && h !in o0 && !HasString(o0, t0, s)
    ensures DistinctChars(o0[h := ObjString(s, |s|, Fnv1a(s))], t0[h := Nil])
  {
    var o1 := o0[h := ObjString(s, |s|, Fnv1a(s))];
    var t1 := t0[h := Nil];
    forall k | k != h
      ensures InternedChars(o1, t1, k) == InternedChars(o0, t0, k) && InternedChars(o0, t0, k) != Some(s)
    {
    }
    assert InternedChars(o1, t1, h) == Some(s);
  }

  /** Allocating an object that is not a string leaves the intern table well formed. */
  lemma InternedAfterOther(o0: map<Handle, Obj>, t0: map<Handle, Value>, h: Handle, o: Obj)
    requires Interned(o0, t0) && h !in o0 && !o.ObjString?
    ensures Interned(o0[h := o], t0)
  {
    var o1 := o0[h := o];
    forall k1, k2 | InternedChars(o1, t0, k1).Some? && InternedChars(o1, t0, k1) == InternedChars(o1, t0, k2)
      ensures k1 == k2
    {
      assert InternedChars(o1, t0, k1) == InternedChars(o0, t0, k1);
      assert InternedChars(o1, t0, k2) == InternedChars(o0, t0, k2);
    }
  }
}
