/**
 * The growable slot table behind the configuration: parallel arrays of keys,
 * values and key hashes, refining a finite map from strings to optional strings.
 */
module Dictionaries {
  import opened Common

  /** A stored value may be absent: sections are keys without a value. */
  type Value = Option<string>
  type Contents = map<string, Value>
  const DICTMINSZ := 128

  // ---------------------------------------------------------------- hashing

  /** A signed byte widened to 32 bits. */
  function SignExtend(c: char): bv32 {
    var b := c as int % 256;
    if b < 128 then b as bv32 else (b + 0xFFFF_FF00) as bv32
  }

  function Mix(hash: bv32, c: char): bv32 {
    var h1 := hash + SignExtend(c);
    var h2 := h1 + (h1 << 10);
    h2 ^ (h2 >> 6)
  }

  function Absorb(key: string): bv32 {
    if key == "" then 0 else Mix(Absorb(key[..|key| - 1]), key[|key| - 1])
  }

  function Finish(hash: bv32): bv32 {
    var h1 := hash + (hash << 3);
    var h2 := h1 ^ (h1 >> 11);
    h2 + (h2 << 15)
  }

  function Hash(key: string): bv32 {
    Finish(Absorb(key))
  }

  lemma SmallA()
    ensures SignExtend('a') == 97
  {
    assert 'a' as int == 97;
  }

  lemma MixA()
    ensures Mix(0, 'a') == 0x18270
  {
    hide SignExtend;
    SmallA();
  }

  lemma FinishA()
    ensures Finish(0x18270) == 0xca2e9442
  {
  }

  /** A known value of Jenkins' one-at-a-time hash. */
  lemma HashKnown()
    ensures Hash("a") == 0xca2e9442
  {
    hide SignExtend, Mix, Finish;
    MixA();
    FinishA();
    assert "a"[..0] == "";
    assert Absorb("") == 0;
    assert Absorb("a") == Mix(0, 'a');
  }

  method ComputeHash(key: string) returns (hash: bv32)
    ensures hash == Hash(key)
  {
    hash := 0;
    for i := 0 to |key|
      invariant hash == Absorb(key[..i])
    {
      assert key[..i + 1][..i] == key[..i];
      hash := Mix(hash, key[i]);
    }
    assert key[..|key|] == key;
    hash := Finish(hash);
  }

  // ---------------------------------------------------------------- slot table

  function Occupied(keys: seq<Option<string>>): (c: nat)
    ensures c <= |keys|
  {
    if keys == [] then 0
    else Occupied(keys[..|keys| - 1]) + (if keys[|keys| - 1].Some? then 1 else 0)
  }

  ghost predicate DistinctKeys(keys: seq<Option<string>>) {
    forall i, j :: 0 <= i < j < |keys| && keys[i].Some? ==> keys[i] != keys[j]
  }

  /** Every stored hash is the hash of its key. */
  ghost predicate HashesAgree(keys: seq<Option<string>>, hashes: seq<bv32>) {
    |keys| == |hashes| && forall i :: 0 <= i < |keys| && keys[i].Some? ==> hashes[i] == Hash(keys[i].value)
  }

  /** Plain key search: the first slot holding `k`, or the table size. */
  function SlotOf(keys: seq<Option<string>>, k: string): (i: nat)
    ensures i <= |keys|
    ensures i < |keys| ==> keys[i] == Some(k)
    ensures forall j :: 0 <= j < i ==> keys[j] != Some(k)
  {
    if keys == [] || keys[0] == Some(k) then 0 else 1 + SlotOf(keys[1..], k)
  }

  /** The map a slot table stands for. */
  ghost function MapOf(keys: seq<Option<string>>, vals: seq<Value>): Contents
    requires |keys| == |vals|
  {
    map i | 0 <= i < |keys| && keys[i].Some? && SlotOf(keys, keys[i].value) == i :: keys[i].value := vals[i]
  }

  lemma MapOfAt(keys: seq<Option<string>>, vals: seq<Value>, k: string)
    requires |keys| == |vals|
    ensures k in MapOf(keys, vals) <==> SlotOf(keys, k) < |keys|
    ensures k in MapOf(keys, vals) ==> MapOf(keys, vals)[k] == vals[SlotOf(keys, k)]
  {
    var i := SlotOf(keys, k);
    if i < |keys| {
      assert keys[i].value == k;
    }
  }

  lemma DistinctSlot(keys: seq<Option<string>>, i: int)
    requires DistinctKeys(keys) && 0 <= i < |keys| && keys[i].Some?
    ensures SlotOf(keys, keys[i].value) == i
  {
  }

  /** Overwriting the value in an occupied slot updates that key alone. */
  lemma MapOfReplaced(keys: seq<Option<string>>, vals: seq<Value>, i: int, v: Value)
    requires |keys| == |vals| && DistinctKeys(keys) && 0 <= i < |keys| && keys[i].Some?
    ensures MapOf(keys, vals[i := v]) == MapOf(keys, vals)[keys[i].value := v]
  {
    var m, m' := MapOf(keys, vals)[keys[i].value := v], MapOf(keys, vals[i := v]);
    forall x
      ensures x in m' <==> x in m
      ensures x in m ==> m'[x] == m[x]
    {
      MapOfAt(keys, vals, x);
      MapOfAt(keys, vals[i := v], x);
      DistinctSlot(keys, i);
    }
  }

  /** A slot that holds another key before and after a write is no obstacle. */
  lemma {:induction false} SlotOfOther(keys: seq<Option<string>>, i: int, k: Option<string>, x: string)
    requires 0 <= i < |keys| && keys[i] != Some(x) && k != Some(x)
    ensures SlotOf(keys[i := k], x) == SlotOf(keys, x)
  {
    var a, b := SlotOf(keys[i := k], x), SlotOf(keys, x);
    assert a < |keys| ==> keys[a] == Some(x);
    assert b < |keys| ==> keys[i := k][b] == Some(x);
  }

  /** Filling a free slot adds exactly the new key. */
  lemma MapOfInserted(keys: seq<Option<string>>, vals: seq<Value>, i: int, k: string, v: Value)
    requires |keys| == |vals| && DistinctKeys(keys) && 0 <= i < |keys| && keys[i].None?
    requires SlotOf(keys, k) == |keys|
    ensures DistinctKeys(keys[i := Some(k)])
    ensures MapOf(keys[i := Some(k)], vals[i := v]) == MapOf(keys, vals)[k := v]
  {
    var keys', vals', m := keys[i := Some(k)], vals[i := v], MapOf(keys, vals);
    assert DistinctKeys(keys');
    hide MapOf, SlotOf;
    forall x
      ensures x in MapOf(keys', vals') <==> x in m[k := v]
      ensures x in m[k := v] ==> MapOf(keys', vals')[x] == m[k := v][x]
    {
      MapOfAt(keys, vals, x);
      MapOfAt(keys', vals', x);
      if x == k {
        DistinctSlot(keys', i);
      } else {
        SlotOfOther(keys, i, Some(k), x);
      }
    }
  }

  /** Emptying a slot removes exactly its key. */
  lemma MapOfEmptied(keys: seq<Option<string>>, vals: seq<Value>, i: int)
    requires |keys| == |vals| && DistinctKeys(keys) && 0 <= i < |keys| && keys[i].Some?
    ensures DistinctKeys(keys[i := None])
    ensures MapOf(keys[i := None], vals[i := None]) == MapOf(keys, vals) - {keys[i].value}
  {
    var k, keys', vals', m := keys[i].value, keys[i := None], vals[i := None], MapOf(keys, vals);
    forall x
      ensures x in MapOf(keys', vals') <==> x in m - {k}
      ensures x in m - {k} ==> MapOf(keys', vals')[x] == (m - {k})[x]
    {
      MapOfAt(keys, vals, x);
      MapOfAt(keys', vals', x);
      DistinctSlot(keys, i);
      if x != k {
        SlotOfOther(keys, i, None, x);
      }
    }
  }

  lemma {:induction false} OccupiedUpdate(keys: seq<Option<string>>, i: int, k: Option<string>)
    requires 0 <= i < |keys|
    ensures Occupied(keys[i := k]) ==
            Occupied(keys) - (if keys[i].Some? then 1 else 0) + (if k.Some? then 1 else 0)
  {
    var n := |keys| - 1;
    if i == n {
      assert keys[i := k][..n] == keys[..n];
    } else {
      assert keys[i := k][..n] == keys[..n][i := k];
      OccupiedUpdate(keys[..n], i, k);
    }
  }

  /** A table that is not full has a free slot. */
  lemma {:induction false} FreeSlotExists(keys: seq<Option<string>>) returns (f: nat)
    requires Occupied(keys) < |keys|
    ensures f < |keys| && keys[f].None?
  {
    var n := |keys| - 1;
    if keys[n].None? {
      f := n;
    } else {
      f := FreeSlotExists(keys[..n]);
    }
  }

  lemma {:induction false} OccupiedPadded(keys: seq<Option<string>>, pad: nat)
    ensures Occupied(keys + seq(pad, _ => None)) == Occupied(keys)
  {
    if pad == 0 {
      assert keys + seq(pad, _ => None) == keys;
    } else {
      var padded := keys + seq(pad, _ => None);
      assert padded[..|padded| - 1] == keys + seq(pad - 1, _ => None);
      OccupiedPadded(keys, pad - 1);
    }
  }

  /** Growing the arrays leaves the map alone. */
  lemma MapOfPadded(keys: seq<Option<string>>, vals: seq<Value>, pad: nat)
    requires |keys| == |vals| && DistinctKeys(keys)
    ensures var keys', vals' := keys + seq(pad, _ => None), vals + seq(pad, _ => None);
            DistinctKeys(keys') && MapOf(keys', vals') == MapOf(keys, vals)
  {
    var keys', vals' := keys + seq(pad, _ => None), vals + seq(pad, _ => None);
    forall x
      ensures x in MapOf(keys', vals') <==> x in MapOf(keys, vals)
      ensures x in MapOf(keys, vals) ==> MapOf(keys', vals')[x] == MapOf(keys, vals)[x]
    {
      MapOfAt(keys, vals, x);
      MapOfAt(keys', vals', x);
      var a, b := SlotOf(keys', x), SlotOf(keys, x);
      assert b < |keys| ==> keys'[b] == Some(x);
      assert a < |keys| ==> keys[a] == Some(x);
    }
  }

  /** Doubles an allocation; the new half is zeroed. */
  method MemDouble<T(0)>(a: array<T>, zero: T) returns (b: array<T>)
    ensures fresh(b) && b[..] == a[..] + seq(a.Length, _ => zero)
  {
    b := new T[2 * a.Length](_ => zero);
    for i := 0 to a.Length
      invariant b[..i] == a[..i]
      invariant forall j :: i <= j < b.Length ==> b[j] == zero
    {
      b[i] := a[i];
    }
    assert b[..] == b[..a.Length] + b[a.Length..];
  }

  lemma {:induction false} NoneOccupied(keys: seq<Option<string>>, k: string)
    requires Occupied(keys) == 0
    ensures SlotOf(keys, k) == |keys|
  {
    if SlotOf(keys, k) < |keys| {
      OccupiedUpdate(keys, SlotOf(keys, k), None);
    }
  }

  class Dictionary {
    var n: int
    var size: int
    var val: array<Value>
    var key: array<Option<string>>
    var hash: array<bv32>

    /** The three columns are different arrays. */
    ghost predicate Separate()
      reads this
    {
      val != key && hash as object != key && hash as object != val
    }

    ghost predicate Valid()
      reads this, val, key, hash
    {
      && Separate()
      && 0 < size == key.Length == val.Length == hash.Length
      && n == Occupied(key[..])
      && DistinctKeys(key[..])
      && HashesAgree(key[..], hash[..])
    }

    /** The abstract map. */
    ghost function Map(): Contents
      requires Valid()
      reads this, val, key, hash
    {
      MapOf(key[..], val[..])
    }

    constructor (requested: int)
      ensures Valid() && Map() == map[] && fresh(val) && fresh(key) && fresh(hash)
      ensures size == if requested < DICTMINSZ then DICTMINSZ else requested
    {
      var s := if requested < DICTMINSZ then DICTMINSZ else requested;
      size := s;
      n := 0;
      val := new Value[s](_ => None);
      key := new Option<string>[s](_ => None);
      hash := new bv32[s](_ => 0);
      new;
      OccupiedPadded([], s);
      assert key[..] == [] + seq(s, _ => None);
    }

    /** The scan the three entry points share: compare hashes first, then keys.
        It finds the same slot as plain key search. */
    method FindSlot(k: string) returns (i: int)
      requires Valid()
      ensures i == SlotOf(key[..], k)
    {
      var h := ComputeHash(k);
      i := 0;
      while i < size
        invariant 0 <= i <= size
        invariant forall j :: 0 <= j < i ==> key[j] != Some(k)
      {
        if key[i].Some? && h == hash[i] && k == key[i].value {
          assert key[..][i] == Some(k);
          return;
        }
        i := i + 1;
      }
      assert forall j :: 0 <= j < size ==> key[..][j] != Some(k);
    }

    method Get(k: string, def: Value) returns (r: Value)
      requires Valid()
      ensures r == if k in Map() then Map()[k] else def
    {
      MapOfAt(key[..], val[..], k);
      var i := FindSlot(k);
      return if i < size then val[i] else def;
    }

    /** The cyclic search for a free slot, starting at slot `n`. */
    method FreeSlot() returns (i: int)
      requires Valid() && n < size
      ensures 0 <= i < size && key[i].None?
    {
      ghost var f := FreeSlotExists(key[..]);
      i := n;
      while key[i].Some?
        invariant 0 <= i < size && 0 <= f < size && key[f].None?
        decreases if i <= f then f - i else size - i + f
      {
        i := i + 1;
        if i == size {
          i := 0;
        }
      }
    }

    method Grow()
      requires Valid()
      modifies this
      ensures Valid() && Map() == old(Map())
      ensures size == 2 * old(size) && n == old(n)
      ensures fresh(val) && fresh(key) && fresh(hash)
    {
      hide MapOf, Occupied, SlotOf;
      OccupiedPadded(key[..], size);
      MapOfPadded(key[..], val[..], size);
      ghost var keys, hashes := key[..], hash[..];
      val := MemDouble(val, None);
      key := MemDouble(key, None);
      hash := MemDouble(hash, 0);
      assert forall i :: 0 <= i < size && key[i].Some? ==> key[i] == keys[i] && hash[i] == hashes[i];
      size := 2 * size;
    }

    /** Writes the three columns of slot `i`. */
    method WriteSlot(i: int, k: Option<string>, v: Value, h: bv32)
      requires 0 <= i < key.Length == val.Length == hash.Length && Separate()
      modifies val, key, hash
      ensures key[..] == old(key[..])[i := k]
      ensures val[..] == old(val[..])[i := v]
      ensures hash[..] == old(hash[..])[i := h]
    {
      ghost var keys, vals, hashes := key[..], val[..], hash[..];
      key[i] := k;
      assert key[..] == keys[i := k];
      val[i] := v;
      assert val[..] == vals[i := v];
      hash[i] := h;
      assert hash[..] == hashes[i := h];
    }

    /** The first half of `Set`: the key is present, its value is overwritten. */
    method Replace(i: int, v: Value)
      requires Valid() && 0 <= i < size && key[i].Some?
      modifies val
      ensures Valid() && Map() == old(Map())[key[i].value := v]
    {
      MapOfReplaced(key[..], val[..], i, v);
      ghost var vals := val[..];
      val[i] := v;
      assert val[..] == vals[i := v];
    }

    /** The second half of `Set`: a new key goes to a free slot of a table that
        has one. */
    method Insert(k: string, v: Value, h: bv32)
      requires Valid() && k !in Map() && h == Hash(k) && n < size
      modifies this, val, key, hash
      ensures Valid() && Map() == old(Map())[k := v] && n == old(n) + 1
      ensures val == old(val) && key == old(key) && hash == old(hash)
    {
      hide MapOf, Occupied, SlotOf, DistinctKeys;
      var i := FreeSlot();
      MapOfAt(key[..], val[..], k);
      MapOfInserted(key[..], val[..], i, k, v);
      OccupiedUpdate(key[..], i, Some(k));
      WriteSlot(i, Some(k), v, h);
      n := n + 1;
    }

    method Set(k: string, v: Value) returns (rc: int)
      requires Valid()
      modifies this, val, key, hash
      ensures Valid() && rc == 0
      ensures Map() == old(Map())[k := v]
      ensures val == old(val) || fresh(val)
      ensures key == old(key) || fresh(key)
      ensures hash == old(hash) || fresh(hash)
    {
      MapOfAt(key[..], val[..], k);
      var h := ComputeHash(k);
      if n > 0 {
        var i := FindSlot(k);
        if i < size {
          Replace(i, v);
          return 0;
        }
      } else {
        NoneOccupied(key[..], k);
      }
      if n == size {
        Grow();
      }
      Insert(k, v, h);
      return 0;
    }

    method Unset(k: string)
      requires Valid()
      modifies this, val, key, hash
      ensures Valid() && Map() == old(Map()) - {k}
      ensures val == old(val) && key == old(key) && hash == old(hash)
    {
      hide MapOf, Occupied, SlotOf, DistinctKeys;
      MapOfAt(key[..], val[..], k);
      var i := FindSlot(k);
      if i >= size {
        return;
      }
      MapOfEmptied(key[..], val[..], i);
      OccupiedUpdate(key[..], i, None);
      WriteSlot(i, None, None, 0);
      n := n - 1;
    }
  }
}
