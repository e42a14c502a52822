/** The device descriptor object pool as an object that is changed in place, and what every
    sequence of changes keeps. */
module DdopPools {
  import opened Widths
  import opened Ddop

  /** Identifiers are distinct and number 0 belongs to the device alone. */
  predicate Sound(pool: Pool) {
    && DistinctIds(pool)
    && forall i | 0 <= i < |pool| && !pool[i].Device? :: pool[i].objectId != 0 && pool[i].objectId != NULL_OBJECT_ID
  }

  datatype Kind = Devices | Elements | ProcessDatas | Properties | Presentations

  predicate IsOf(o: Object, kind: Kind) {
    match kind
    case Devices => o.Device?
    case Elements => o.Element?
    case ProcessDatas => o.ProcessData?
    case Properties => o.Property?
    case Presentations => o.Presentation?
  }

  datatype Operation =
    | AddObject(o: Object)
    | RemoveById(id: u16)
    | RemoveByType(kind: Kind)
    | Load(bytes: seq<u8>, client: Bytes8)

  function Perform(level: Level, pool: Pool, op: Operation): Changed {
    match op
    case AddObject(o) => Add(level, pool, o)
    case RemoveById(id) => var left := RemoveId(pool, id); Changed(left, left != pool)
    case RemoveByType(kind) => var left := Keep(pool, (o: Object) => !IsOf(o, kind)); Changed(left, left != pool)
    case Load(bytes, client) => Deserialize(level, pool, client, bytes)
  }

  function PerformAll(level: Level, pool: Pool, ops: seq<Operation>): Pool
    decreases |ops|
  {
    if ops == [] then pool
    else Perform(level, PerformAll(level, pool, ops[..|ops| - 1]), ops[|ops| - 1]).pool
  }

  lemma {:induction false} KeepSound(pool: Pool, keep: Object -> bool)
    requires Sound(pool)
    ensures Sound(Keep(pool, keep))
    ensures forall o :: o in Keep(pool, keep) <==> o in pool && keep(o)
  {
    if pool != [] {
      assert forall i | 0 <= i < |pool| - 1 :: pool[1..][i] == pool[i + 1];
      KeepSound(pool[1..], keep);
      var kept := Keep(pool[1..], keep);
      if keep(pool[0]) {
        forall j | 0 <= j < |kept| ensures kept[j].Id() != pool[0].Id() {
          assert kept[j] in pool[1..];
        }
      }
    }
  }

  lemma AddSound(level: Level, pool: Pool, o: Object)
    requires Sound(pool)
    ensures Sound(Add(level, pool, o).pool)
  {
  }

  lemma {:induction false} ParseSound(level: Level, pool: Pool, client: Bytes8, b: seq<u8>)
    requires Sound(pool)
    ensures Sound(Parse(level, pool, client, b).pool)
    decreases |b|
  {
    hide Sound, ReadObject, Add, Keep;
    if b != [] {
      var p := ParseOne(level, pool, client, b);
      if ReadObject(b, level).Got? {
        var o := ReadObject(b, level).value;
        KeepSound(pool, (x: Object) => !x.Device?);
        AddSound(level, RemoveDevices(pool), if o.Device? then o.(isoName := p.client) else o);
        if !o.Device? {
          KeepSound(pool, (x: Object) => x.Id() != o.objectId);
          AddSound(level, RemoveId(pool, o.objectId), o);
        }
      }
      if p.ok {
        ParseSound(level, p.pool, p.client, p.rest);
      }
    }
  }

  lemma PerformSound(level: Level, pool: Pool, op: Operation)
    requires Sound(pool)
    ensures Sound(Perform(level, pool, op).pool)
  {
    hide Sound, Parse, Add, Keep;
    match op
    case AddObject(o) => AddSound(level, pool, o);
    case RemoveById(id) => KeepSound(pool, (o: Object) => o.Id() != id);
    case RemoveByType(kind) => KeepSound(pool, (o: Object) => !IsOf(o, kind));
    case Load(bytes, client) => ParseSound(level, pool, client, bytes);
  }

  /** However a pool is built, changed and loaded, its identifiers stay distinct and only the
      device has number 0. */
  lemma {:induction false} RunsAreSound(level: Level, ops: seq<Operation>)
    ensures Sound(PerformAll(level, [], ops))
    decreases |ops|
  {
    hide Sound, Perform;
    if ops == [] {
      assert Sound([]) by { NothingIsSound(); }
    } else {
      RunsAreSound(level, ops[..|ops| - 1]);
      PerformSound(level, PerformAll(level, [], ops[..|ops| - 1]), ops[|ops| - 1]);
    }
  }

  lemma NothingIsSound()
    ensures Sound([])
  {
  }

  class DeviceDescriptorObjectPool {
    const level: Level
    var objectList: Pool

    constructor (level: Level)
      ensures this.level == level && objectList == [] && Sound(objectList)
    {
      this.level, objectList := level, [];
    }

    /** `check_object_id_unique` */
    method CheckObjectIdUnique(id: u16) returns (unique: bool)
      ensures unique <==> id != 0 && id != NULL_OBJECT_ID && !Has(objectList, id)
    {
      unique := id != 0 && id != NULL_OBJECT_ID;
      var i := 0;
      while unique && i < |objectList|
        invariant 0 <= i <= |objectList|
        invariant unique ==> id != 0 && id != NULL_OBJECT_ID && forall j | 0 <= j < i :: objectList[j].Id() != id
        invariant !unique ==> id == 0 || id == NULL_OBJECT_ID || Has(objectList, id)
      {
        unique := objectList[i].Id() != id;
        i := i + 1;
      }
    }

    /** `get_object_by_id`, as an index. */
    method IndexOf(id: u16) returns (i: nat)
      ensures i == Find(objectList, id, 0)
    {
      i := 0;
      while i < |objectList| && objectList[i].Id() != id
        invariant i <= |objectList| && Find(objectList, id, 0) == Find(objectList, id, i)
      {
        i := i + 1;
      }
    }

    method AddTo(o: Object) returns (ok: bool)
      modifies this`objectList
      ensures Changed(objectList, ok) == Add(level, old(objectList), o)
    {
      var limit := DesignatorLimit(level);
      if o.Device? {
        ok := true;
        var i := 0;
        while ok && i < |objectList|
          invariant 0 <= i <= |objectList|
          invariant ok ==> forall j | 0 <= j < i :: !objectList[j].Device?
          invariant !ok ==> HasDevice(objectList)
        {
          ok := !objectList[i].Device?;
          i := i + 1;
        }
        if ok {
          objectList := objectList + [o.(designator := Cut(o.designator, limit), serialNumber := Cut(o.serialNumber, limit),
                                         structureLabel := Cut(o.structureLabel, 7), extendedLabel := Cut(o.extendedLabel, 32),
                                         extended := level >= 4)];
        }
      } else {
        ok := CheckObjectIdUnique(o.objectId);
        if ok {
          objectList := objectList + [WithDesignator(o, Cut(o.designator, limit))];
        }
      }
    }

    /** Erases while iterating: what stays is what the predicate does not name, in order. */
    method RemoveWhere(drop: Object -> bool) returns (removed: bool)
      modifies this`objectList
      ensures objectList == Keep(old(objectList), (o: Object) => !drop(o))
      ensures removed <==> exists i | 0 <= i < |old(objectList)| :: drop(old(objectList)[i])
    {
      removed := false;
      var it := 0;
      ghost var before, seen := objectList, 0;
      while it < |objectList|
        invariant 0 <= it <= |objectList| && 0 <= seen <= |before|
        invariant objectList[it..] == before[seen..]
        invariant objectList[..it] == Keep(before[..seen], (o: Object) => !drop(o))
        invariant removed <==> exists i | 0 <= i < seen :: drop(before[i])
        decreases |objectList| - it
      {
        assert objectList[it] == before[seen] by { assert objectList[it..][0] == before[seen..][0]; }
        KeepAppend(before[..seen], before[seen], (o: Object) => !drop(o));
        assert before[..seen + 1] == before[..seen] + [before[seen]];
        assert objectList[it..][1..] == before[seen..][1..];
        if drop(objectList[it]) {
          objectList := objectList[..it] + objectList[it + 1..];
          removed := true;
        } else {
          it := it + 1;
        }
        seen := seen + 1;
      }
      assert before[..seen] == before;
    }

    method RemoveDevicesWhere()
      modifies this`objectList
      ensures objectList == RemoveDevices(old(objectList))
    {
      var drop := (o: Object) => o.Device?;
      var removed := RemoveWhere(drop);
      KeepAgrees(old(objectList), (o: Object) => !drop(o), (o: Object) => !o.Device?);
    }

    method RemoveObjectWithId(id: u16)
      modifies this`objectList
      ensures objectList == RemoveId(old(objectList), id)
    {
      var drop := (o: Object) => o.Id() == id;
      var removed := RemoveWhere(drop);
      KeepAgrees(old(objectList), (o: Object) => !drop(o), (o: Object) => o.Id() != id);
    }

    /** `deserialize_binary_object_pool` */
    method DeserializeBinaryObjectPool(bytes: seq<u8>, client: Bytes8) returns (ok: bool)
      requires Sound(objectList)
      modifies this`objectList
      ensures Changed(objectList, ok) == Deserialize(level, old(objectList), client, bytes)
      ensures Sound(objectList)
    {
      hide ReadObject, Sound, Add, Keep;
      ParseSound(level, objectList, client, bytes);
      ok := bytes != [];
      var rest, name := bytes, client;
      ghost var goal := Parse(level, objectList, client, bytes);
      while ok && rest != []
        invariant bytes != [] ==> goal == if ok then Parse(level, objectList, name, rest) else Changed(objectList, false)
        invariant bytes == [] ==> !ok && objectList == old(objectList)
        decreases ok, |rest|
      {
        var read := ReadObject(rest, level);
        if read.TooShort? {
          ok := false;
        } else if read.value.Device? {
          if name == NO_NAME {
            name := read.value.isoName;
          }
          RemoveDevicesWhere();
          var added := AddTo(read.value.(isoName := name));
          ok := added && read.value.isoName == name;
        } else {
          RemoveObjectWithId(read.value.objectId);
          ok := AddTo(read.value);
        }
        rest := if read.Got? then read.rest else rest;
      }
    }

    /** True exactly when every parent, child and presentation that is referred to exists and
        has an allowed type. */
    method ResolveParentIdsToObjects() returns (ok: bool)
      ensures ok <==> AllResolved(objectList)
    {
      ok := true;
      var k := 0;
      while ok && k < |objectList|
        invariant 0 <= k <= |objectList|
        invariant ok ==> forall j | 0 <= j < k :: Resolved(objectList, objectList[j])
        invariant !ok ==> !AllResolved(objectList)
      {
        ok := ResolveOne(objectList[k]);
        k := k + 1;
      }
    }

    method ResolveOne(o: Object) returns (ok: bool)
      ensures ok <==> Resolved(objectList, o)
    {
      ok := true;
      match o
      case Element(_, _, _, _, parent, children) =>
        if parent == NULL_OBJECT_ID {
          ok := false;
        } else {
          var i := IndexOf(parent);
          ok := i < |objectList| && (objectList[i].Element? || objectList[i].Device?);
        }
        var c := 0;
        while ok && c < |children|
          invariant 0 <= c <= |children|
          invariant ok ==> ParentOk(objectList, parent) && forall j | 0 <= j < c :: ChildOk(objectList, children[j])
          invariant !ok ==> !Resolved(objectList, o)
        {
          var i := IndexOf(children[c]);
          ok := i < |objectList| && (objectList[i].ProcessData? || objectList[i].Property?);
          c := c + 1;
        }
      case ProcessData(_, _, _, _, _, presentation) => ok := ResolvePresentation(presentation);
      case Property(_, _, _, _, presentation) => ok := ResolvePresentation(presentation);
      case _ =>
    }

    method ResolvePresentation(id: u16) returns (ok: bool)
      ensures ok <==> PresentationOk(objectList, id)
    {
      ok := true;
      if id != NULL_OBJECT_ID {
        var i := IndexOf(id);
        ok := i < |objectList| && objectList[i].Presentation?;
      }
    }

    /** `generate_binary_object_pool` */
    method GenerateBinaryObjectPool() returns (bytes: seq<u8>, ok: bool)
      ensures ok <==> AllResolved(objectList)
      ensures bytes == if ok then WritePool(objectList) else []
    {
      hide Write;
      bytes := [];
      ok := ResolveParentIdsToObjects();
      if ok {
        var k := 0;
        while k < |objectList|
          invariant 0 <= k <= |objectList| && WritePool(objectList) == bytes + WritePool(objectList[k..])
        {
          bytes := bytes + Write(objectList[k]);
          assert objectList[k..][1..] == objectList[k + 1..];
          k := k + 1;
        }
      }
    }
  }

  lemma {:induction false} KeepAppend(pool: Pool, o: Object, keep: Object -> bool)
    ensures Keep(pool + [o], keep) == Keep(pool, keep) + if keep(o) then [o] else []
  {
    if pool != [] {
      assert (pool + [o])[1..] == pool[1..] + [o];
      KeepAppend(pool[1..], o, keep);
    }
  }

  /** Two predicates that agree keep the same objects. */
  lemma {:induction false} KeepAgrees(pool: Pool, p: Object -> bool, q: Object -> bool)
    requires forall o :: p(o) == q(o)
    ensures Keep(pool, p) == Keep(pool, q)
  {
    if pool != [] {
      KeepAgrees(pool[1..], p, q);
    }
  }
}
