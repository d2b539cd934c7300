/**
 * The object kinds of include/object.h and the pure parts of src/object.c:
 * the FNV-1a string hash and makeObjString.
 */
module Objects {
  import opened Wrappers
  import opened Values
  import opened Chunks

  const FnvOffsetBasis: bv32 := 2166136261
  const FnvPrime: bv32 := 16777619

  /**
   * A heap object. A string keeps its characters, its length and its hash;
   * a function keeps its arity, its own chunk and the handle of its name
   * (None for the top-level script). Native functions are not modelled.
   */
  datatype Obj =
    | ObjString(chars: string, len: int, hash: bv32)
    | ObjFunc(arity: int, chunk: Chunk, name: Option<Handle>)

  /** The `(uint8_t)` cast of one character of a C string. */
  function ByteOf(c: char): bv32
  {
    (c as int % 256) as bv32
  }

  /** One FNV-1a round: exclusive-or the byte in, then multiply modulo 2^32. */
  function FnvRound(h: bv32, b: bv32): bv32
  {
    (h ^ b) * FnvPrime
  }

  /**
   * The FNV-1a 32-bit hash as section 2 of the IETF draft
   * draft-eastlake-fnv defines it: the offset basis, then one round for
   * each byte in order.
   */
  function Fnv1a(s: string): bv32
  {
    if |s| == 0 then FnvOffsetBasis else FnvRound(Fnv1a(s[..|s| - 1]), ByteOf(s[|s| - 1]))
  }

  /** Hashing one more byte is one more round. */
  lemma Fnv1aSnoc(s: string, c: char)
    ensures Fnv1a(s + [c]) == FnvRound(Fnv1a(s), ByteOf(c))
  {
    assert (s + [c])[..|s|] == s;
  }

  /** The hash depends only on the bytes: characters equal modulo 256 hash alike. */
  lemma {:induction false} Fnv1aDependsOnBytes(s: string, t: string)
    requires |s| == |t|
    requires forall i :: 0 <= i < |s| ==> s[i] as int % 256 == t[i] as int % 256
    ensures Fnv1a(s) == Fnv1a(t)
  {
    if |s| > 0 {
      var n := |s| - 1;
      Fnv1aDependsOnBytes(s[..n], t[..n]);
      assert s[n] as int % 256 == t[n] as int % 256;
      assert ByteOf(s[n]) == ByteOf(t[n]);
    }
  }

  /**
   * hashString: the loop over the first n characters, which computes the
   * FNV-1a hash of exactly those bytes.
   */
  method HashString(key: string, n: nat) returns (hash: bv32)
    requires n <= |key|
    ensures hash == Fnv1a(key[..n])
  {
    hash := FnvOffsetBasis;
    for i := 0 to n
      invariant hash == Fnv1a(key[..i])
    {
      ghost var p := key[..i + 1];
      assert p[..|p| - 1] == key[..i] && p[|p| - 1] == key[i];
      assert Fnv1a(p) == FnvRound(Fnv1a(key[..i]), ByteOf(key[i]));
      hash := FnvRound(hash, ByteOf(key[i]));
    }
  }

  /** The hash of a three-character string, unfolded. */
  lemma Fnv1aOfThree(a: char, b: char, c: char)
    ensures Fnv1a([a, b, c]) == FnvRound(FnvRound(FnvRound(FnvOffsetBasis, ByteOf(a)), ByteOf(b)), ByteOf(c))
  {
    assert [a, b, c][..2] == [a, b];
    assert [a, b][..1] == [a];
    assert [a][..0] == [];
    assert Fnv1a([a]) == FnvRound(FnvOffsetBasis, ByteOf(a));
    assert Fnv1a([a, b]) == FnvRound(Fnv1a([a]), ByteOf(b));
    assert Fnv1a([a, b, c]) == FnvRound(Fnv1a([a, b]), ByteOf(c));
  }

  lemma ByteOfF() ensures ByteOf('f') == 0x66 {}
  lemma ByteOfO() ensures ByteOf('o') == 0x6f {}
  lemma ByteOfB() ensures ByteOf('b') == 0x62 {}
  lemma ByteOfA() ensures ByteOf('a') == 0x61 {}
  lemma ByteOfR() ensures ByteOf('r') == 0x72 {}

  lemma RoundsOfFoo()
    ensures FnvRound(FnvOffsetBasis, 0x66) == 0xe30c2799
    ensures FnvRound(0xe30c2799, 0x6f) == 0x6222e842
    ensures FnvRound(0x6222e842, 0x6f) == 0xa9f37ed7
  {
  }

  lemma RoundsOfBar()
    ensures FnvRound(FnvOffsetBasis, 0x62) == 0xe70c2de5
    ensures FnvRound(0xe70c2de5, 0x61) == 0x3c2ba6cc
    ensures FnvRound(0x3c2ba6cc, 0x72) == 0x76b77d1a
  {
  }

  lemma Fnv1aOfFoo()
    ensures Fnv1a("foo") == 0xa9f37ed7
  {
    Fnv1aOfThree('f', 'o', 'o');
    ByteOfF();
    ByteOfO();
    RoundsOfFoo();
  }

  lemma Fnv1aOfBar()
    ensures Fnv1a("bar") == 0x76b77d1a
  {
    Fnv1aOfThree('b', 'a', 'r');
    ByteOfB();
    ByteOfA();
    ByteOfR();
    RoundsOfBar();
  }

  /** "foo" and "bar" hash differently. */
  lemma HashFooDiffersFromBar()
    ensures Fnv1a("foo") != Fnv1a("bar")
  {
    Fnv1aOfFoo();
    Fnv1aOfBar();
  }

  /**
   * makeObjString: a string object built by value, with its length and
   * hash, and linked into no object list.
   */
  function MakeObjString(chars: string): (r: Obj)
    ensures r.ObjString? && r.chars == chars && r.len == |chars|
    ensures r.hash == Fnv1a(chars)
  {
    ObjString(chars, |chars|, Fnv1a(chars))
  }
}
