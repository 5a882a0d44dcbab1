/** Groovy-style collection builders: maps from alternating key/value arguments or
    from mapper-produced entries, and an order-preserving map over a collection.
    A Java `Collection` is modelled by the sequence of its elements in iteration order,
    a `Map.Entry` by a pair, and the mapper by a total function. */
module CollectionUtils {
  import opened Wrappers

  /** The exceptions these helpers can raise. */
  datatype Exception =
    | IndexOutOfBounds(index: int)     // ArrayIndexOutOfBoundsException
    | IllegalArgument(size: int)       // IllegalArgumentException from the HashMap constructor

  /** `sizedHashMap`: a new, empty map; `size` only chooses the initial capacity
      `(int)(size / 0.75 + 1)`. That capacity is negative, and the HashMap constructor
      throws, exactly when `size <= -2`. */
  function SizedHashMap<K, V>(size: int): (r: Result<map<K, V>, Exception>)
    ensures r.Success? <==> size >= -1
    ensures r.Success? ==> |r.value| == 0
    ensures r.Failure? ==> r.error == IllegalArgument(size)
  {
    if size <= -2 then Failure(IllegalArgument(size)) else Success(map[])
  }

  //-------------------------------------------------------------------------------
  // quickMap
  //-------------------------------------------------------------------------------

  /** The map built from the pairs (args[0], args[1]), (args[2], args[3]), ... put in
      that order, so that a later pair overwrites an earlier one with the same key. */
  function PairsMap<T>(args: seq<T>): (r: map<T, T>)
    requires |args| % 2 == 0
    // the last pair is always in the map, whatever came before it
    ensures |args| >= 2 ==> args[|args| - 2] in r && r[args[|args| - 2]] == args[|args| - 1]
    decreases |args|
  {
    if args == [] then
      map[]
    else
      var n := |args|;
      PairsMap(args[..n - 2])[args[n - 2] := args[n - 1]]
  }

  /** The elements at even indices: the keys of a key/value argument list. */
  ghost function EvenElements<T>(args: seq<T>): set<T>
  {
    set k | 0 <= k < |args| && k % 2 == 0 :: args[k]
  }

  /** The keys of `quickMap(args)` are exactly the elements at even indices
      (none for an empty argument list). */
  lemma {:induction false} PairsMapKeys<T>(args: seq<T>)
    requires |args| % 2 == 0
    ensures PairsMap(args).Keys == EvenElements(args)
    decreases |args|
  {
    if args != [] {
      var n := |args|;
      var prefix := args[..n - 2];
      PairsMapKeys(prefix);
      forall x | x in EvenElements(args)
        ensures x in EvenElements(prefix) + {args[n - 2]}
      {
        var k :| 0 <= k < n && k % 2 == 0 && args[k] == x;
        if k < n - 2 {
          assert prefix[k] == x;
        }
      }
      forall x | x in EvenElements(prefix)
        ensures x in EvenElements(args)
      {
        var k :| 0 <= k < n - 2 && k % 2 == 0 && prefix[k] == x;
        assert args[k] == x;
      }
    }
  }

  /** The value stored for a key is the value of the last pair with that key. */
  lemma {:induction false} PairsMapLastWins<T>(args: seq<T>, k: int)
    requires |args| % 2 == 0
    requires 0 <= k < |args| && k % 2 == 0
    requires forall j :: k < j < |args| && j % 2 == 0 ==> args[j] != args[k]
    ensures args[k] in PairsMap(args) && PairsMap(args)[args[k]] == args[k + 1]
    decreases |args|
  {
    var n := |args|;
    if k < n - 2 {
      var prefix := args[..n - 2];
      assert args[n - 2] != args[k];
      assert prefix[k] == args[k] && prefix[k + 1] == args[k + 1];
      forall j | k < j < |prefix| && j % 2 == 0
        ensures prefix[j] != prefix[k]
      {
        assert prefix[j] == args[j];
      }
      PairsMapLastWins(prefix, k);
    }
  }

  /** `quickMap`: puts each (args[i], args[i + 1]) for i = 0, 2, 4, ... into a new map.
      On an odd-length list the last step reads `args[args.length]` and throws. */
  method QuickMap<T>(args: seq<T>) returns (r: Result<map<T, T>, Exception>)
    ensures |args| % 2 == 0 ==> r == Success(PairsMap(args))
    ensures |args| % 2 == 1 ==> r == Failure(IndexOutOfBounds(|args|))
  {
    var sized := SizedHashMap<T, T>(|args|);
    var ret := sized.value;
    var i := 0;
    while i < |args|
      invariant 0 <= i <= |args| && i % 2 == 0
      invariant ret == PairsMap(args[..i])
    {
      if i + 1 >= |args| {
        return Failure(IndexOutOfBounds(i + 1));
      }
      assert args[..i + 2][..i] == args[..i];
      ret := ret[args[i] := args[i + 1]];
      i := i + 2;
    }
    assert args[..i] == args;
    return Success(ret);
  }

  //-------------------------------------------------------------------------------
  // collectEntries
  //-------------------------------------------------------------------------------

  /** The map built by putting mapper(x) for each x of `col` in order, so that a later
      entry overwrites an earlier one with the same key. */
  function EntriesMap<S, K, V>(col: seq<S>, mapper: S -> (K, V)): (r: map<K, V>)
    // the entry of the last element is always in the map, whatever came before it
    ensures col != [] ==> mapper(col[|col| - 1]).0 in r && r[mapper(col[|col| - 1]).0] == mapper(col[|col| - 1]).1
    decreases |col|
  {
    if col == [] then
      map[]
    else
      var e := mapper(col[|col| - 1]);
      EntriesMap(col[..|col| - 1], mapper)[e.0 := e.1]
  }

  /** The keys the mapper produces for the elements of `col`. */
  ghost function MappedKeys<S, K, V>(col: seq<S>, mapper: S -> (K, V)): set<K>
  {
    set i | 0 <= i < |col| :: mapper(col[i]).0
  }

  /** The keys of `collectEntries(col, mapper)` are exactly the mapper's keys, and
      there are at most as many of them as elements in `col`. */
  lemma {:induction false} EntriesMapKeys<S, K, V>(col: seq<S>, mapper: S -> (K, V))
    ensures EntriesMap(col, mapper).Keys == MappedKeys(col, mapper)
    ensures |EntriesMap(col, mapper)| <= |col|
    decreases |col|
  {
    if col != [] {
      var n := |col|;
      var prefix := col[..n - 1];
      EntriesMapKeys(prefix, mapper);
      forall x | x in MappedKeys(col, mapper)
        ensures x in MappedKeys(prefix, mapper) + {mapper(col[n - 1]).0}
      {
        var i :| 0 <= i < n && mapper(col[i]).0 == x;
        if i < n - 1 {
          assert prefix[i] == col[i];
        }
      }
      forall x | x in MappedKeys(prefix, mapper)
        ensures x in MappedKeys(col, mapper)
      {
        var i :| 0 <= i < n - 1 && mapper(prefix[i]).0 == x;
        assert col[i] == prefix[i];
      }
    }
  }

  /** The value stored for a key is the value of the last entry with that key. */
  lemma {:induction false} EntriesMapLastWins<S, K, V>(col: seq<S>, mapper: S -> (K, V), i: int)
    requires 0 <= i < |col|
    requires forall j :: i < j < |col| ==> mapper(col[j]).0 != mapper(col[i]).0
    ensures mapper(col[i]).0 in EntriesMap(col, mapper)
    ensures EntriesMap(col, mapper)[mapper(col[i]).0] == mapper(col[i]).1
    decreases |col|
  {
    var n := |col|;
    if i < n - 1 {
      var prefix := col[..n - 1];
      assert prefix[i] == col[i];
      forall j | i < j < |prefix|
        ensures mapper(prefix[j]).0 != mapper(prefix[i]).0
      {
        assert prefix[j] == col[j];
      }
      EntriesMapLastWins(prefix, mapper, i);
    }
  }

  /** `collectEntries`: puts the entry mapper(x) of every element x into a new map. */
  method CollectEntries<S, K, V>(col: seq<S>, mapper: S -> (K, V)) returns (ret: map<K, V>)
    ensures ret == EntriesMap(col, mapper)
  {
    var sized := SizedHashMap<K, V>(|col|);
    ret := sized.value;
    for i := 0 to |col|
      invariant ret == EntriesMap(col[..i], mapper)
    {
      assert col[..i + 1][..i] == col[..i];
      var e := mapper(col[i]);
      ret := ret[e.0 := e.1];
    }
    assert col[..|col|] == col;
  }

  //-------------------------------------------------------------------------------
  // collect
  //-------------------------------------------------------------------------------

  /** `collect`: a new list holding mapper(x) for every element x, in iteration order. */
  method Collect<S, T>(col: seq<S>, mapper: S -> T) returns (ret: seq<T>)
    ensures |ret| == |col|
    ensures forall i :: 0 <= i < |col| ==> ret[i] == mapper(col[i])
  {
    ret := [];
    for i := 0 to |col|
      invariant |ret| == i
      invariant forall j :: 0 <= j < i ==> ret[j] == mapper(col[j])
    {
      ret := ret + [mapper(col[i])];
    }
  }
}
