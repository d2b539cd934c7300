/**
 * src/value.c with the tagged value of include/object.h: the four kinds of
 * value, their equality as this snapshot defines it, and the growable value
 * list used as a chunk's constant pool.
 */
module Values {
  import opened Memory

  /** The payload of a number value: a C double, kept abstract. */
  type Number(==)

  /** A reference to a heap object: object identity is handle equality. */
  type Handle = nat

  datatype Value = Nil | Bool(b: bool) | Num(n: Number) | Obj(h: Handle)

  /** The type tag of a value (VAL_NIL, VAL_BOOL, VAL_NUM, VAL_OBJ). */
  datatype ValueType = NilType | BoolType | NumType | ObjType

  function TypeOf(v: Value): ValueType
  {
    match v
    case Nil => NilType
    case Bool(_) => BoolType
    case Num(_) => NumType
    case Obj(_) => ObjType
  }

  /**
   * valuesEq as written: values of different types differ; booleans and
   * numbers compare by payload; the switch has no true case for nil or for
   * objects, so nil is unequal to nil and an object is unequal to itself.
   */
  function ValuesEq(a: Value, b: Value): (r: bool)
    ensures r <==> (a.Bool? && b.Bool? && a.b == b.b) || (a.Num? && b.Num? && a.n == b.n)
    ensures TypeOf(a) != TypeOf(b) ==> !r
  {
    if TypeOf(a) != TypeOf(b) then false
    else match a
      case Nil => false
      case Bool(x) => x == b.b
      case Num(x) => x == b.n
      case Obj(_) => false
  }

  /** Equality on values is not reflexive in this snapshot. */
  lemma ValuesEqNotReflexive(h: Handle)
    ensures !ValuesEq(Nil, Nil)
    ensures !ValuesEq(Obj(h), Obj(h))
  {
  }

  /** ValueList: `count` values stored in an array of `capacity` slots. */
  class ValueList {
    var capacity: nat
    var count: nat
    var values: array<Value>
    ghost var Repr: set<object>

    ghost predicate Valid()
      reads this, Repr
      ensures Valid() ==> this in Repr
    {
      Repr == {this, values} && values.Length == capacity && count <= capacity
    }

    /** The values appended so far, oldest first. */
    function Elements(): seq<Value>
      reads this, Repr
      requires Valid()
    {
      values[..count]
    }

    /** initValueList: no storage, nothing stored. */
    constructor Init()
      ensures Valid() && fresh(Repr)
      ensures capacity == 0 && count == 0 && values.Length == 0
    {
      capacity, count := 0, 0;
      values := new Value[0];
      Repr := {this, values};
    }

    /**
     * appendValueList: grows to GROW_CAPACITY only when full, then stores
     * the value at the old count.
     */
    method Append(value: Value)
      requires Valid()
      modifies Repr
      ensures Valid() && fresh(Repr - old(Repr))
      ensures Elements() == old(Elements()) + [value]
      ensures count == old(count) + 1
      ensures old(count) < old(capacity) ==> capacity == old(capacity) && values == old(values)
      ensures old(count) >= old(capacity) ==> capacity == GrowCapacity(old(capacity))
    {
      if count >= capacity {
        var oldCap := capacity;
        capacity := GrowCapacity(oldCap);
        values := GrowArray(values, capacity, Nil);
        Repr := {this, values};
      }
      values[count] := value;
      count := count + 1;
    }

    /** freeValueList: back to the initial, empty state. */
    method Free()
      requires Valid()
      modifies Repr
      ensures Valid() && fresh(Repr - old(Repr))
      ensures capacity == 0 && count == 0 && values.Length == 0
    {
      values := new Value[0];
      capacity, count := 0, 0;
      Repr := {this, values};
    }
  }
}
