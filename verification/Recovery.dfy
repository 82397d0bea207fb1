/** Reloading the current maps from the database (internal/store/store.go:91-173). */
module Recovery {
  import opened Sorting
  import opened Entities
  import opened Keys
  import opened Journal
  import opened Database

  /** Decodes one stored value of a kind. */
  function Decode(db: Db, kind: Kind, x: string): Option<Entity> {
    match Read(db, x)
    case Some(EntityCell(e)) => if KindOf(e) == kind then Some(e) else None
    case _ => None
  }

  /** Reads the given keys into the map of their kind, each value under its own id; a value that
      does not decode ends the load. */
  function LoadKeys(db: Db, kind: Kind, keys: seq<string>, acc: Mem): Option<Mem> {
    if keys == [] then Some(acc)
    else
      var rest := LoadKeys(db, kind, keys[..|keys| - 1], acc);
      var e := Decode(db, kind, keys[|keys| - 1]);
      if rest.None? || e.None? then None
      else Some(rest.value[EntityKey(kind, OwnId(e.value)) := e.value])
  }

  ghost function KindKeys(db: Db, kind: Kind): seq<string>
    requires !kind.UnknownKind?
  {
    Walk(RangeKeys(db, KindPrefix(kind), PrefixEnd(KindPrefix(kind))))
  }

  ghost function LoadKinds(db: Db, kinds: seq<Kind>): Option<Mem>
    requires forall k | k in kinds :: !k.UnknownKind?
  {
    if kinds == [] then Some(map[])
    else
      var rest := LoadKinds(db, kinds[..|kinds| - 1]);
      if rest.None? then None
      else LoadKeys(db, kinds[|kinds| - 1], KindKeys(db, kinds[|kinds| - 1]), rest.value)
  }

  ghost function Loaded(db: Db): Option<Mem> {
    LoadKinds(db, KINDS)
  }

  /** Reads one kind (store.go:154-171). */
  method LoadKind(db: Db, kind: Kind, start: Mem) returns (mem: Option<Mem>)
    requires !kind.UnknownKind?
    ensures mem == LoadKeys(db, kind, KindKeys(db, kind), start)
  {
    var keys := Iterate(db, KindPrefix(kind), PrefixEnd(KindPrefix(kind)));
    mem := LoadListed(db, kind, keys, start);
  }

  method LoadListed(db: Db, kind: Kind, keys: seq<string>, start: Mem) returns (mem: Option<Mem>)
    ensures mem == LoadKeys(db, kind, keys, start)
  {
    var acc := start;
    for j := 0 to |keys|
      invariant Some(acc) == LoadKeys(db, kind, keys[..j], start)
    {
      assert keys[..j + 1][..j] == keys[..j];
      var e := Decode(db, kind, keys[j]);
      if e.None? {
        LoadStuck(db, kind, keys, start, j + 1);
        return None;
      }
      acc := acc[EntityKey(kind, OwnId(e.value)) := e.value];
    }
    assert keys[..|keys|] == keys;
    mem := Some(acc);
  }

  method LoadEach(db: Db, kinds: seq<Kind>) returns (mem: Option<Mem>)
    requires forall k | k in kinds :: !k.UnknownKind?
    ensures mem == LoadKinds(db, kinds)
  {
    mem := Some(map[]);
    for i := 0 to |kinds|
      invariant mem.Some? && mem == LoadKinds(db, kinds[..i])
    {
      assert kinds[..i + 1][..i] == kinds[..i];
      mem := LoadKind(db, kinds[i], mem.value);
      if mem.None? {
        LoadKindsStuck(db, kinds, i + 1);
        return;
      }
    }
    assert kinds[..|kinds|] == kinds;
  }

  /** Reads the five kinds in turn (store.go:109-172). */
  method Load(db: Db) returns (mem: Option<Mem>)
    ensures mem == Loaded(db)
  {
    mem := LoadEach(db, KINDS);
  }

  lemma {:induction false} LoadStuck(db: Db, kind: Kind, keys: seq<string>, acc: Mem, j: nat)
    requires j <= |keys| && LoadKeys(db, kind, keys[..j], acc).None?
    ensures LoadKeys(db, kind, keys, acc).None?
    decreases |keys| - j
  {
    if j < |keys| {
      assert keys[..j + 1][..j] == keys[..j];
      LoadStuck(db, kind, keys, acc, j + 1);
    } else {
      assert keys[..j] == keys;
    }
  }

  lemma {:induction false} LoadKindsStuck(db: Db, kinds: seq<Kind>, j: nat)
    requires forall k | k in kinds :: !k.UnknownKind?
    requires j <= |kinds| && LoadKinds(db, kinds[..j]).None?
    ensures LoadKinds(db, kinds).None?
    decreases |kinds| - j
  {
    if j < |kinds| {
      assert kinds[..j + 1][..j] == kinds[..j];
      LoadKindsStuck(db, kinds, j + 1);
    } else {
      assert kinds[..j] == kinds;
    }
  }

  /** A value that does not decode as an entity of its kind ends the load. */
  lemma {:induction false} LoadFails(db: Db, kind: Kind, keys: seq<string>, acc: Mem, j: nat)
    requires j < |keys|
    requires !(keys[j] in db && db[keys[j]].EntityCell? && KindOf(db[keys[j]].entity) == kind)
    ensures LoadKeys(db, kind, keys, acc).None?
  {
    assert keys[..j + 1][..j] == keys[..j] && keys[..j + 1][j] == keys[j];
    LoadStuck(db, kind, keys, acc, j + 1);
  }

  // ---------------------------------------------------------------- reloading gives memory back

  /** The part of the maps whose keys are among the given ones or of an earlier kind. */
  ghost predicate LoadedSo(acc: Mem, mem: Mem, kind: Kind, keys: seq<string>, start: Mem) {
    forall k :: Get(acc, k) == if k.kind == kind && DbKey(k) in keys then Get(mem, k) else Get(start, k)
  }

  ghost predicate OwnKeyed(mem: Mem) {
    forall k | k in mem :: OwnKey(mem[k]) == k && !k.kind.UnknownKind?
  }

  lemma KeyInPrefix(db: Db, kind: Kind, x: string)
    requires !kind.UnknownKind?
    ensures x in RangeKeys(db, KindPrefix(kind), PrefixEnd(KindPrefix(kind))) <==> x in db && KindPrefix(kind) <= x
  {
    PrefixRange(KindPrefix(kind), x);
  }

  /** A key under a kind's prefix belongs to an entity of that kind in memory. */
  lemma StoredEntity(db: Db, mem: Mem, kind: Kind, x: string) returns (k: EntityKey)
    requires EntitiesHold(db, mem) && OwnKeyed(mem)
    requires !kind.UnknownKind? && x in db && KindPrefix(kind) <= x
    ensures k.kind == kind && x == DbKey(k) && k in mem && Decode(db, kind, x) == Some(mem[k]) && OwnId(mem[k]) == k.id
  {
    k := EntityKey(kind, x[|KindPrefix(kind)|..]);
    assert x == DbKey(k);
    assert Read(db, DbKey(k)) == ToCell(Get(mem, k));
  }

  lemma {:induction false} LoadKeysGives(db: Db, mem: Mem, kind: Kind, keys: seq<string>, start: Mem)
    requires EntitiesHold(db, mem) && OwnKeyed(mem) && !kind.UnknownKind?
    requires forall x | x in keys :: x in db && KindPrefix(kind) <= x
    ensures LoadKeys(db, kind, keys, start).Some?
    ensures LoadedSo(LoadKeys(db, kind, keys, start).value, mem, kind, keys, start)
    decreases |keys|
  {
    if keys != [] {
      var front, x := keys[..|keys| - 1], keys[|keys| - 1];
      assert keys == front + [x];
      assert forall y | y in front :: y in keys;
      LoadKeysGives(db, mem, kind, front, start);
      var k := StoredEntity(db, mem, kind, x);
      LoadedMore(LoadKeys(db, kind, front, start).value, mem, kind, front, start, k);
    }
  }

  lemma LoadedMore(acc: Mem, mem: Mem, kind: Kind, keys: seq<string>, start: Mem, k: EntityKey)
    requires !kind.UnknownKind? && k.kind == kind && k in mem && LoadedSo(acc, mem, kind, keys, start)
    ensures LoadedSo(acc[k := mem[k]], mem, kind, keys + [DbKey(k)], start)
  {
    forall k' ensures Get(acc[k := mem[k]], k') ==
                      if k'.kind == kind && DbKey(k') in keys + [DbKey(k)] then Get(mem, k') else Get(start, k')
    {
      assert Get(acc, k') == if k'.kind == kind && DbKey(k') in keys then Get(mem, k') else Get(start, k');
      if k'.kind == kind && DbKey(k') == DbKey(k) { DbKeyInjective(k, k'); }
    }
  }

  ghost predicate LoadedUpTo(acc: Mem, mem: Mem, kinds: seq<Kind>) {
    forall k :: Get(acc, k) == if k.kind in kinds then Get(mem, k) else None
  }

  lemma LoadKindGives(db: Db, mem: Mem, kind: Kind, start: Mem)
    requires EntitiesHold(db, mem) && OwnKeyed(mem) && !kind.UnknownKind?
    requires forall k: EntityKey | k.kind == kind :: Get(start, k) == None
    ensures var r := LoadKeys(db, kind, KindKeys(db, kind), start);
            r.Some? && forall k :: Get(r.value, k) == if k.kind == kind then Get(mem, k) else Get(start, k)
  {
    var keys := KindKeys(db, kind);
    forall x ensures x in keys <==> x in db && KindPrefix(kind) <= x {
      KeyInPrefix(db, kind, x);
      assert x in keys <==> x in Elements(keys);
    }
    LoadKeysGives(db, mem, kind, keys, start);
    forall k: EntityKey | k.kind == kind ensures DbKey(k) in keys <==> k in mem {
      PrefixOfKey(k);
      assert Read(db, DbKey(k)) == ToCell(Get(mem, k));
    }
  }

  lemma {:induction false} LoadKindsGives(db: Db, mem: Mem, kinds: seq<Kind>)
    requires EntitiesHold(db, mem) && OwnKeyed(mem)
    requires (forall k | k in kinds :: !k.UnknownKind?) && Distinct(kinds)
    ensures LoadKinds(db, kinds).Some? && LoadedUpTo(LoadKinds(db, kinds).value, mem, kinds)
    decreases |kinds|
  {
    if kinds != [] {
      var front, kind := kinds[..|kinds| - 1], kinds[|kinds| - 1];
      assert kinds == front + [kind];
      LoadKindsGives(db, mem, front);
      assert kind !in front;
      LoadKindGives(db, mem, kind, LoadKinds(db, front).value);
    }
  }

  /** Loading a database that holds the maps gives exactly those maps. */
  lemma LoadedIsMem(db: Db, mem: Mem)
    requires EntitiesHold(db, mem) && OwnKeyed(mem)
    ensures Loaded(db) == Some(mem)
  {
    LoadKindsGives(db, mem, KINDS);
    var r := Loaded(db).value;
    forall k ensures Get(r, k) == Get(mem, k) {
      assert k.kind in KINDS || k.kind.UnknownKind? by {
        assert KINDS[0] in KINDS && KINDS[1] in KINDS && KINDS[2] in KINDS && KINDS[3] in KINDS && KINDS[4] in KINDS;
      }
    }
    MemEqual(r, mem);
  }
}
