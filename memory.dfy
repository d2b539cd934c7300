/**
 * include/memory.h: the capacity growth rule shared by every growable array
 * (value lists, chunks, hash tables) and the array reallocation it drives.
 */
module Memory {

  /** GROW_CAPACITY: the first allocation holds 8 slots, later ones double. */
  function GrowCapacity(cap: nat): (r: nat)
    ensures r >= 8
    ensures r > cap
    ensures cap < 8 ==> r == 8
    ensures cap >= 8 ==> r == 2 * cap
  {
    if cap < 8 then 8 else cap * 2
  }

  /**
   * GROW_ARRAY: a new block of `newCap` slots that starts with the old
   * block's contents. The slots past the old length are unspecified in C;
   * here they hold `fill`.
   */
  method GrowArray<T>(a: array<T>, newCap: nat, fill: T) returns (b: array<T>)
    requires a.Length <= newCap
    ensures fresh(b) && b.Length == newCap
    ensures b[..a.Length] == a[..]
  {
    b := new T[newCap](_ => fill);
    for i := 0 to a.Length
      invariant b[..i] == a[..i]
    {
      b[i] := a[i];
    }
  }
}
