/** Serializer-id registry of the Kryo codec: one id sequence per runtime-instance
    handle, each handing out ids above BASE_ID to classes the first time they are seen.

    The first half is the abstract specification on values (an id sequence, the
    registry as a map from handle to sequence, and traces of calls); the second half
    is the heap model the source has: a sequence object updated in place and a
    registry object whose map the methods reassign. */
module KryoIdGenerator {

  /** Ids at or below this value are left to the host runtime's own serializers. */
  const BASE_ID: int := 6000

  //-------------------------------------------------------------------------------
  // Specification on values
  //-------------------------------------------------------------------------------

  /** The state of one id sequence: the class -> id cache and the counter. */
  datatype IdSeq<C> = IdSeq(knownTypes: map<C, int>, counter: int)

  /** A brand-new sequence: nothing known, counter at BASE_ID. */
  function FreshSeq<C>(): IdSeq<C>
  {
    IdSeq(map[], BASE_ID)
  }

  /** No two classes share an id. */
  ghost predicate Injective<C>(m: map<C, int>)
  {
    forall c, d :: c in m && d in m && c != d ==> m[c] != m[d]
  }

  /** What every reachable sequence satisfies: ids are unique, lie in
      (BASE_ID, counter], and the counter has advanced once per known class. */
  ghost predicate WellFormed<C>(s: IdSeq<C>)
  {
    && s.counter >= BASE_ID
    && |s.knownTypes| == s.counter - BASE_ID
    && (forall c :: c in s.knownTypes ==> BASE_ID < s.knownTypes[c] <= s.counter)
    && Injective(s.knownTypes)
  }

  /** `idFor`: the cached id of a known class, or the next counter value for a new one. */
  function NextId<C>(s: IdSeq<C>, c: C): (r: (IdSeq<C>, int))
    // the id returned is the one the cache holds for c afterwards
    ensures c in r.0.knownTypes && r.0.knownTypes[c] == r.1
  {
    if c in s.knownTypes then
      (s, s.knownTypes[c])
    else
      var id := s.counter + 1;
      (IdSeq(s.knownTypes[c := id], id), id)
  }

  /** What one `idFor` call does to a sequence. */
  lemma NextIdSpec<C>(s: IdSeq<C>, c: C)
    // the id returned is the one recorded for c afterwards
    ensures c in NextId(s, c).0.knownTypes && NextId(s, c).0.knownTypes[c] == NextId(s, c).1
    // a cache hit changes nothing
    ensures c in s.knownTypes ==> NextId(s, c).0 == s
    // a miss records counter + 1 and advances the counter by exactly one
    ensures c !in s.knownTypes ==>
              && NextId(s, c).1 == s.counter + 1
              && NextId(s, c).0.counter == s.counter + 1
              && NextId(s, c).0.knownTypes.Keys == s.knownTypes.Keys + {c}
    // ids already handed out never change
    ensures forall d :: d in s.knownTypes ==>
              d in NextId(s, c).0.knownTypes && NextId(s, c).0.knownTypes[d] == s.knownTypes[d]
  {
  }

  /** `idFor` keeps a sequence well formed, and the id it returns is above BASE_ID. */
  lemma NextIdKeepsWellFormed<C>(s: IdSeq<C>, c: C)
    requires WellFormed(s)
    ensures WellFormed(NextId(s, c).0) && NextId(s, c).1 > BASE_ID
  {
    if c !in s.knownTypes {
      var (s1, id) := NextId(s, c);
      assert |s1.knownTypes| == |s.knownTypes| + 1;
      forall d, e | d in s1.knownTypes && e in s1.knownTypes && d != e
        ensures s1.knownTypes[d] != s1.knownTypes[e]
      {
        if d != c && e != c {
          assert s1.knownTypes[d] == s.knownTypes[d] && s1.knownTypes[e] == s.knownTypes[e];
        }
      }
    }
  }

  /** The ids returned by `idFor` for each class of `cs` in turn, and the final sequence. */
  function IdsFor<C>(s: IdSeq<C>, cs: seq<C>): (r: (IdSeq<C>, seq<int>))
    ensures |r.1| == |cs|
    decreases |cs|
  {
    if cs == [] then
      (s, [])
    else
      var (s1, id) := NextId(s, cs[0]);
      var (s2, ids) := IdsFor(s1, cs[1..]);
      (s2, [id] + ids)
  }

  /** A run of `idFor` calls keeps every id already in the cache and stays well formed. */
  lemma {:induction false} IdsForKeeps<C>(s: IdSeq<C>, cs: seq<C>)
    requires WellFormed(s)
    ensures WellFormed(IdsFor(s, cs).0)
    ensures forall d :: d in s.knownTypes ==>
              d in IdsFor(s, cs).0.knownTypes && IdsFor(s, cs).0.knownTypes[d] == s.knownTypes[d]
    decreases |cs|
  {
    if cs != [] {
      NextIdSpec(s, cs[0]);
      NextIdKeepsWellFormed(s, cs[0]);
      IdsForKeeps(NextId(s, cs[0]).0, cs[1..]);
    }
  }

  /** Every id a run returns is the id the final cache holds for that class. */
  lemma {:induction false} IdsForRecorded<C>(s: IdSeq<C>, cs: seq<C>)
    requires WellFormed(s)
    ensures WellFormed(IdsFor(s, cs).0)
    ensures forall i :: 0 <= i < |cs| ==>
              cs[i] in IdsFor(s, cs).0.knownTypes && IdsFor(s, cs).0.knownTypes[cs[i]] == IdsFor(s, cs).1[i]
    decreases |cs|
  {
    if cs != [] {
      NextIdSpec(s, cs[0]);
      NextIdKeepsWellFormed(s, cs[0]);
      var (s1, id) := NextId(s, cs[0]);
      IdsForRecorded(s1, cs[1..]);
      IdsForKeeps(s1, cs[1..]);
      var (s2, ids) := IdsFor(s1, cs[1..]);
      assert IdsFor(s, cs) == (s2, [id] + ids);
      forall i | 0 <= i < |cs|
        ensures cs[i] in s2.knownTypes && s2.knownTypes[cs[i]] == ([id] + ids)[i]
      {
        if i > 0 {
          assert cs[i] == cs[1..][i - 1];
        }
      }
    }
  }

  /** Stability and uniqueness: within one sequence, two calls return the same id
      exactly when they ask about the same class, and every id is above BASE_ID. */
  lemma IdsStableAndUnique<C>(s: IdSeq<C>, cs: seq<C>, i: int, j: int)
    requires WellFormed(s)
    requires 0 <= i < |cs| && 0 <= j < |cs|
    ensures IdsFor(s, cs).1[i] > BASE_ID
    ensures cs[i] == cs[j] <==> IdsFor(s, cs).1[i] == IdsFor(s, cs).1[j]
  {
    IdsForRecorded(s, cs);
  }

  /** The first id a fresh sequence hands out is BASE_ID + 1. */
  lemma FreshSequenceFirstId<C>(cs: seq<C>)
    requires |cs| > 0
    ensures IdsFor(FreshSeq(), cs).1[0] == BASE_ID + 1
  {
  }

  /** The registry: one sequence per runtime-instance handle. */
  type Registry<H, C> = map<H, IdSeq<C>>

  /** `getOrCreateSequence`: install a fresh sequence for `h` only if none is present. */
  function GetOrCreate<H, C>(reg: Registry<H, C>, h: H): (r: Registry<H, C>)
    ensures h in r && r.Keys == reg.Keys + {h}
    // an existing sequence is never replaced, and no other handle is touched
    ensures forall g :: g in reg ==> r[g] == reg[g]
    ensures h !in reg ==> r[h] == FreshSeq()
  {
    if h in reg then reg else reg[h := FreshSeq()]
  }

  /** `globalId`: the id of the handle's own class in the handle's sequence. */
  function GlobalIdOf<H, C>(reg: Registry<H, C>, classOf: H -> C, h: H): (r: (Registry<H, C>, int))
    ensures h in r.0 && r.0.Keys == reg.Keys + {h}
    ensures forall g :: g in reg && g != h ==> r.0[g] == reg[g]
    // the id returned is the one the handle's sequence now records for its class
    ensures classOf(h) in r.0[h].knownTypes && r.0[h].knownTypes[classOf(h)] == r.1
  {
    var withSeq := GetOrCreate(reg, h);
    NextIdSpec(withSeq[h], classOf(h));
    var (s, id) := NextId(withSeq[h], classOf(h));
    (withSeq[h := s], id)
  }

  /** `instanceDestroyed`: forget the handle's sequence and nothing else. */
  function Destroyed<H, C>(reg: Registry<H, C>, h: H): (r: Registry<H, C>)
    ensures h !in r && r.Keys == reg.Keys - {h}
    ensures forall g :: g in r ==> r[g] == reg[g]
  {
    reg - {h}
  }

  /** Asking twice for the same handle gives the same id and changes nothing the second time. */
  lemma GlobalIdRepeatable<H, C>(reg: Registry<H, C>, classOf: H -> C, h: H)
    ensures var (reg1, id1) := GlobalIdOf(reg, classOf, h);
            GlobalIdOf(reg1, classOf, h) == (reg1, id1)
  {
    var (reg1, id1) := GlobalIdOf(reg, classOf, h);
    assert reg1[h := reg1[h]] == reg1;
  }

  /** After `instanceDestroyed(h)` the handle starts over: its next id is BASE_ID + 1,
      whatever its sequence held before, and the other handles keep theirs. */
  lemma DestroyedRestartsFresh<H, C>(reg: Registry<H, C>, classOf: H -> C, h: H)
    ensures var (reg1, id) := GlobalIdOf(Destroyed(reg, h), classOf, h);
            id == BASE_ID + 1
            && reg1[h] == IdSeq(map[classOf(h) := BASE_ID + 1], BASE_ID + 1)
            && (forall g :: g in reg && g != h ==> g in reg1 && reg1[g] == reg[g])
  {
  }

  /** A sequence that has only ever been asked about class `c`: either fresh, or
      holding just `c -> BASE_ID + 1`. */
  ghost predicate DedicatedTo<C>(s: IdSeq<C>, c: C)
  {
    s == FreshSeq() || s == IdSeq(map[c := BASE_ID + 1], BASE_ID + 1)
  }

  /** The sequences `DedicatedTo` describes are exactly the well-formed ones that know
      no class but `c`. */
  lemma DedicatedToIffWellFormed<C>(s: IdSeq<C>, c: C)
    ensures DedicatedTo(s, c) <==> WellFormed(s) && s.knownTypes.Keys <= {c}
  {
    if WellFormed(s) && s.knownTypes.Keys <= {c} {
      if c in s.knownTypes {
        assert s.knownTypes.Keys == {c};
        assert |s.knownTypes| == |s.knownTypes.Keys| == 1;
        assert s.knownTypes == map[c := BASE_ID + 1];
      } else {
        assert s.knownTypes.Keys == {};
        assert |s.knownTypes| == |s.knownTypes.Keys| == 0;
        assert s.knownTypes == map[];
      }
    }
    if s == IdSeq(map[c := BASE_ID + 1], BASE_ID + 1) {
      assert s.knownTypes.Keys == {c};
    }
  }

  /** The registry as `globalId` leaves it: every sequence is dedicated to its own
      handle's class. */
  ghost predicate Dedicated<H, C>(reg: Registry<H, C>, classOf: H -> C)
  {
    forall h :: h in reg ==> DedicatedTo(reg[h], classOf(h))
  }

  /** In a dedicated registry, `globalId` always answers BASE_ID + 1 and keeps the
      registry dedicated. */
  lemma GlobalIdIsFirstId<H, C>(reg: Registry<H, C>, classOf: H -> C, h: H)
    requires Dedicated(reg, classOf)
    ensures GlobalIdOf(reg, classOf, h).1 == BASE_ID + 1
    ensures Dedicated(GlobalIdOf(reg, classOf, h).0, classOf)
  {
    var withSeq := GetOrCreate(reg, h);
    var c := classOf(h);
    DedicatedNextId(withSeq[h], c);
    var (s1, id) := NextId(withSeq[h], c);
    var r := withSeq[h := s1];
    assert GlobalIdOf(reg, classOf, h) == (r, id);
    forall g | g in r
      ensures DedicatedTo(r[g], classOf(g))
    {
      if g != h {
        assert r[g] == reg[g];
      }
    }
  }

  /** A sequence dedicated to `c` answers BASE_ID + 1 for `c` and stays dedicated. */
  lemma DedicatedNextId<C>(s: IdSeq<C>, c: C)
    requires DedicatedTo(s, c)
    ensures NextId(s, c).1 == BASE_ID + 1
    ensures DedicatedTo(NextId(s, c).0, c)
  {
    if s == FreshSeq() {
      assert c !in s.knownTypes;
    }
  }

  /** Dropping a handle keeps the registry dedicated. */
  lemma DestroyedKeepsDedicated<H, C>(reg: Registry<H, C>, classOf: H -> C, h: H)
    requires Dedicated(reg, classOf)
    ensures Dedicated(Destroyed(reg, h), classOf)
  {
    var r := Destroyed(reg, h);
    forall g | g in r
      ensures DedicatedTo(r[g], classOf(g))
    {
      assert r[g] == reg[g];
    }
  }

  /** A call on the registry, as the codec makes them. */
  datatype Call<H> = GlobalId(h: H) | InstanceDestroyed(h: H)

  /** How many of `calls` are `globalId` calls. */
  ghost function GlobalIdCount<H>(calls: seq<Call<H>>): nat
    decreases |calls|
  {
    if calls == [] then 0
    else (if calls[0].GlobalId? then 1 else 0) + GlobalIdCount(calls[1..])
  }

  /** Runs `calls` in order; returns the final registry and the ids `globalId` returned. */
  function Replay<H, C>(reg: Registry<H, C>, classOf: H -> C, calls: seq<Call<H>>): (r: (Registry<H, C>, seq<int>))
    // one id per `globalId` call
    ensures |r.1| == GlobalIdCount(calls) <= |calls|
    decreases |calls|
  {
    if calls == [] then
      (reg, [])
    else
      match calls[0]
      case GlobalId(h) =>
        var (reg1, id) := GlobalIdOf(reg, classOf, h);
        var (reg2, ids) := Replay(reg1, classOf, calls[1..]);
        (reg2, [id] + ids)
      case InstanceDestroyed(h) =>
        Replay(Destroyed(reg, h), classOf, calls[1..])
  }

  /** Whatever the interleaving of `globalId` and `instanceDestroyed` calls, starting
      from a dedicated registry (the empty one included) every `globalId` returns
      BASE_ID + 1; in particular repeated calls for a handle agree. */
  lemma {:induction false} ReplayAlwaysFirstId<H, C>(reg: Registry<H, C>, classOf: H -> C, calls: seq<Call<H>>)
    requires Dedicated(reg, classOf)
    ensures Dedicated(Replay(reg, classOf, calls).0, classOf)
    ensures forall i :: 0 <= i < |Replay(reg, classOf, calls).1| ==> Replay(reg, classOf, calls).1[i] == BASE_ID + 1
    decreases |calls|
  {
    if calls != [] {
      var rest := calls[1..];
      match calls[0]
      case GlobalId(h) =>
        GlobalIdIsFirstId(reg, classOf, h);
        var (reg1, id) := GlobalIdOf(reg, classOf, h);
        ReplayAlwaysFirstId(reg1, classOf, rest);
        var (reg2, ids) := Replay(reg1, classOf, rest);
        assert Replay(reg, classOf, calls) == (reg2, [id] + ids);
        forall i | 0 <= i < |[id] + ids|
          ensures ([id] + ids)[i] == BASE_ID + 1
        {
          if i > 0 {
            assert ([id] + ids)[i] == ids[i - 1];
          }
        }
      case InstanceDestroyed(h) =>
        var reg1 := Destroyed(reg, h);
        DestroyedKeepsDedicated(reg, classOf, h);
        ReplayAlwaysFirstId(reg1, classOf, rest);
        assert Replay(reg, classOf, calls) == Replay(reg1, classOf, rest);
    }
  }

  //-------------------------------------------------------------------------------
  // Heap model
  //-------------------------------------------------------------------------------

  /** `IdSequence`: the class -> id cache and the counter, updated in place. */
  class IdSequence<C(==)> {
    var knownTypes: map<C, int>
    var counter: int

    /** The sequence's state as a value. */
    function State(): IdSeq<C>
      reads this
    {
      IdSeq(knownTypes, counter)
    }

    constructor ()
      ensures State() == FreshSeq()
    {
      knownTypes := map[];
      counter := BASE_ID;
    }

    /** `idFor`: the cached id of a known class; a new class gets the next counter
        value, which is recorded for it. */
    method IdFor(clazz: C) returns (id: int)
      modifies this
      ensures (State(), id) == NextId(old(State()), clazz)
    {
      if clazz in knownTypes {
        id := knownTypes[clazz];
      } else {
        counter := counter + 1;
        id := counter;
        knownTypes := knownTypes[clazz := id];
      }
    }
  }

  /** The registry object: `counterMap` maps each handle to its own sequence object.
      `classOf` stands for `hz.getClass()`. The ghost field `registry` is the registry
      as a value, and `Repr` holds this object and every sequence object it uses. */
  class Generator<H(==), C(==)> {
    var counterMap: map<H, IdSequence<C>>
    const classOf: H -> C
    ghost var registry: Registry<H, C>
    ghost var Repr: set<object>

    /** `registry` is the state of the sequence objects; distinct handles never share a
        sequence object; and the registry is dedicated. */
    ghost predicate Valid()
      reads this, Repr
    {
      && this in Repr
      && (forall h :: h in counterMap ==> counterMap[h] in Repr)
      && counterMap.Keys == registry.Keys
      && (forall h :: h in counterMap ==> counterMap[h].State() == registry[h])
      && (forall h, g :: h in counterMap && g in counterMap && h != g ==> counterMap[h] != counterMap[g])
      && Dedicated(registry, classOf)
    }

    constructor (classOf: H -> C)
      ensures Valid() && fresh(Repr)
      ensures registry == map[] && this.classOf == classOf
    {
      counterMap := map[];
      this.classOf := classOf;
      registry := map[];
      Repr := {this};
    }

    /** `getOrCreateSequence`: the handle's sequence, installed fresh if absent. */
    method GetOrCreateSequence(h: H) returns (s: IdSequence<C>)
      requires Valid()
      modifies this
      ensures Valid() && fresh(Repr - old(Repr))
      ensures h in counterMap && s == counterMap[h] && s in Repr
      ensures registry == GetOrCreate(old(registry), h)
      ensures h in old(counterMap) ==> counterMap == old(counterMap)
      ensures h !in old(counterMap) ==> fresh(s) && counterMap == old(counterMap)[h := s]
    {
      if h in counterMap {
        return counterMap[h];
      }
      // Sequentially, `putIfAbsent` always finds the slot empty here.
      s := new IdSequence();
      ghost var reg := registry;
      counterMap := counterMap[h := s];
      registry := reg[h := FreshSeq()];
      Repr := Repr + {s};
      forall g | g in counterMap
        ensures counterMap[g] in Repr && counterMap[g].State() == registry[g]
        ensures DedicatedTo(registry[g], classOf(g))
      {
        if g != h {
          assert registry[g] == reg[g];
        }
      }
    }

    /** `globalId`: the id of the handle's own class in its sequence. */
    method GlobalId(h: H) returns (id: int)
      requires Valid()
      modifies Repr
      ensures Valid() && fresh(Repr - old(Repr))
      ensures (registry, id) == GlobalIdOf(old(registry), classOf, h)
      ensures id == BASE_ID + 1
    {
      var s := GetOrCreateSequence(h);
      ghost var reg := registry;
      DedicatedNextId(s.State(), classOf(h));
      id := s.IdFor(classOf(h));
      registry := reg[h := s.State()];
      forall g | g in counterMap
        ensures counterMap[g].State() == registry[g]
        ensures DedicatedTo(registry[g], classOf(g))
      {
        if g != h {
          assert counterMap[g] != s;
          assert registry[g] == reg[g];
        }
      }
    }

    /** `instanceDestroyed`: drop the handle's sequence. */
    method InstanceDestroyed(h: H)
      requires Valid()
      modifies this
      ensures Valid() && Repr == old(Repr)
      ensures registry == Destroyed(old(registry), h)
    {
      counterMap := counterMap - {h};
      registry := registry - {h};
    }
  }
}
