/** What adding an object and loading bytes do to a pool that already has objects, said of the
    objects alone. */
module DdopChanges {
  import opened Widths
  import opened Ddop
  import opened DdopPools

  /** The text itself, or as much of it as the limit allows. */
  predicate IsCut(x: Text, s: Text, limit: nat) { x <= s && |x| == Min(|s|, limit) }

  /** The object as it was given, but for texts that are too long: designators and serial numbers
      have 32 bytes below version 4 and 128 from then on. */
  predicate IsTrimmed(x: Object, o: Object, level: Level) {
    var limit := if level < 4 then 32 else 128;
    match o
    case Device(designator, version, serial, structure, localization, extendedLabel, isoName, _) =>
      && x.Device? && IsCut(x.designator, designator, limit) && x.softwareVersion == version
      && IsCut(x.serialNumber, serial, limit) && IsCut(x.structureLabel, structure, 7) && x.localization == localization
      && IsCut(x.extendedLabel, extendedLabel, 32) && x.isoName == isoName && (x.extended <==> level >= 4)
    case Element(id, elementType, designator, number, parent, children) =>
      && x.Element? && x.objectId == id && x.elementType == elementType && IsCut(x.designator, designator, limit)
      && x.number == number && x.parent == parent && x.children == children
    case ProcessData(id, ddi, properties, triggers, designator, presentation) =>
      && x.ProcessData? && x.objectId == id && x.ddi == ddi && x.properties == properties && x.triggers == triggers
      && IsCut(x.designator, designator, limit) && x.presentation == presentation
    case Property(id, ddi, value, designator, presentation) =>
      && x.Property? && x.objectId == id && x.ddi == ddi && x.value == value && IsCut(x.designator, designator, limit)
      && x.presentation == presentation
    case Presentation(id, offset, scale, decimals, designator) =>
      && x.Presentation? && x.objectId == id && x.offset == offset && x.scale == scale && x.decimals == decimals
      && IsCut(x.designator, designator, limit)
  }

  /** An object is added exactly when its number is free and allowed, or it is the first device;
      it goes to the end, trimmed, and nothing else changes. */
  lemma AddIff(level: Level, pool: Pool, o: Object)
    ensures var c := Add(level, pool, o);
            && (c.ok <==> if o.Device? then forall x | x in pool :: !x.Device?
                          else 0 < o.objectId < NULL_OBJECT_ID && forall x | x in pool :: x.Id() != o.objectId)
            && (!c.ok ==> c.pool == pool)
            && (c.ok ==> |c.pool| == |pool| + 1 && c.pool[..|pool|] == pool && IsTrimmed(c.pool[|pool|], o, level))
  {
    var c := Add(level, pool, o);
    assert forall i | 0 <= i < |pool| :: pool[i] in pool;
  }

  // ---- loading into a pool -----------------------------------------------------------

  /** The devices among the objects belong to the client, which may learn its NAME from them. */
  predicate Named(objects: seq<Object>, client: Bytes8, name: Bytes8) {
    && (client == NO_NAME || client == name)
    && forall i | 0 <= i < |objects| && objects[i].Device? :: objects[i].isoName == name
  }

  predicate LastAt(objects: seq<Object>, i: nat, o: Object) {
    i < |objects| && objects[i] == o && forall j | i < j < |objects| :: objects[j].Id() != o.Id()
  }

  ghost predicate Loaded(before: Pool, objects: seq<Object>, after: Pool) {
    forall o :: o in after <==> (exists i: nat :: LastAt(objects, i, o))
                                || (o in before && forall j | 0 <= j < |objects| :: objects[j].Id() != o.Id())
  }

  /** What one more object leaves of a pool, and that it is there. */
  lemma LoadOne(level: Level, pool: Pool, client: Bytes8, o: Object, rest: seq<u8>)
    requires Sound(pool) && Survives(o, level) && (o.Device? ==> client == NO_NAME || o.isoName == client)
    ensures var p := ParseOne(level, pool, client, Write(o) + rest);
            && p.ok && p.rest == rest && p.client == (if o.Device? then o.isoName else client)
            && Sound(p.pool) && forall x :: x in p.pool <==> x == o || (x in pool && x.Id() != o.Id())
  {
    hide Write, ReadObject, Survives;
    ObjectBack(o, level, rest);
    if o.Device? {
      var kept := RemoveDevices(pool);
      KeepSound(pool, (x: Object) => !x.Device?);
      assert forall x | x in kept :: !x.Device?;
      assert forall x | x in pool :: x.Device? <==> x.Id() == 0 by { DevicesAreZero(pool); }
      AddDeviceAsIs(level, kept, o, o.isoName);
      AddSound(level, kept, o);
    } else {
      var kept := RemoveId(pool, o.objectId);
      KeepSound(pool, (x: Object) => x.Id() != o.objectId);
      assert forall x | x in kept :: x.Id() != o.objectId;
      AddAsIs(level, kept, o);
      AddSound(level, kept, o);
    }
  }

  lemma DevicesAreZero(pool: Pool)
    requires Sound(pool)
    ensures forall x | x in pool :: x.Device? <==> x.Id() == 0
  {
  }

  /** Loading written objects into a pool succeeds, and afterwards the pool has for each number
      the last of them with that number, or else what it had before. */
  lemma {:induction false} LoadReplaces(level: Level, pool: Pool, client: Bytes8, name: Bytes8, objects: seq<Object>)
    requires Sound(pool) && Named(objects, client, name) && forall i | 0 <= i < |objects| :: Survives(objects[i], level)
    ensures var c := Parse(level, pool, client, WritePool(objects));
            c.ok && Sound(c.pool) && Loaded(pool, objects, c.pool)
    decreases |objects|
  {
    hide Sound, ParseOne, Write, Survives;
    if objects != [] {
      var o, others := objects[0], objects[1..];
      assert forall i | 0 <= i < |others| :: others[i] == objects[i + 1];
      LoadOne(level, pool, client, o, WritePool(others));
      WriteIsSomething(o);
      var p := ParseOne(level, pool, client, WritePool(objects));
      LoadReplaces(level, p.pool, p.client, name, others);
      LoadedStep(pool, p.pool, objects, Parse(level, p.pool, p.client, WritePool(others)).pool);
    }
  }

  lemma LoadedStep(before: Pool, middle: Pool, objects: seq<Object>, after: Pool)
    requires objects != [] && Loaded(middle, objects[1..], after)
    requires forall x :: x in middle <==> x == objects[0] || (x in before && x.Id() != objects[0].Id())
    ensures Loaded(before, objects, after)
  {
    var others := objects[1..];
    assert forall i | 0 <= i < |others| :: others[i] == objects[i + 1];
    forall o, i: nat ensures LastAt(others, i, o) <==> LastAt(objects, i + 1, o) {
    }
    forall o
      ensures o in after <==> (exists i: nat :: LastAt(objects, i, o))
                              || (o in before && forall j | 0 <= j < |objects| :: objects[j].Id() != o.Id())
    {
      if i: nat :| LastAt(objects, i, o) {
        assert i > 0 ==> LastAt(others, i - 1, o);
      }
      if i: nat :| LastAt(others, i, o) {
        assert LastAt(objects, i + 1, o);
      }
      if o == objects[0] && forall j | 0 <= j < |others| :: others[j].Id() != o.Id() {
        assert LastAt(objects, 0, o);
      }
    }
  }

  /** A device that names another client ends the loading, but has replaced the device of the pool
      by then, under the client's own NAME. */
  lemma WrongNameReplaces(level: Level, pool: Pool, client: Bytes8, o: Object, rest: seq<u8>)
    requires o.Device? && Survives(o, level) && client != NO_NAME && o.isoName != client
    ensures var c := Parse(level, pool, client, Write(o) + rest);
            !c.ok && c.pool == Keep(pool, (x: Object) => !x.Device?) + [o.(isoName := client)]
  {
    hide Write, ReadObject, Survives, Keep;
    ObjectBack(o, level, rest);
    WriteIsSomething(o);
    NoDeviceLeft(pool);
    AddDeviceAsIs(level, RemoveDevices(pool), o, client);
  }

  lemma {:induction false} NoDeviceLeft(pool: Pool)
    ensures !HasDevice(RemoveDevices(pool))
  {
    if pool != [] {
      NoDeviceLeft(pool[1..]);
    }
  }

  // ---- labels ------------------------------------------------------------------------

  /** A structure label of fewer than seven bytes comes back filled up with spaces. */
  lemma ShortLabelIsFilled(o: Object, level: Level, rest: seq<u8>)
    requires o.Device? && |o.structureLabel| < 7
    ensures var filled := o.(structureLabel := o.structureLabel + seq(7 - |o.structureLabel|, i => 0x20));
            Survives(filled, level) ==> ReadObject(Write(o) + rest, level) == Got(filled, rest)
  {
    hide ReadObject, Word, Sized;
    var filled := o.(structureLabel := o.structureLabel + seq(7 - |o.structureLabel|, i => 0x20));
    assert Padded(o.structureLabel) == Padded(filled.structureLabel);
    assert Write(o) == Write(filled);
    if Survives(filled, level) {
      ObjectBack(filled, level, rest);
    }
  }

  // ---- references --------------------------------------------------------------------

  predicate HasParent(pool: Pool, id: u16) {
    id != NULL_OBJECT_ID && exists x :: x in pool && x.Id() == id && (x.Element? || x.Device?)
  }

  predicate HasChild(pool: Pool, id: u16) { exists x :: x in pool && x.Id() == id && (x.ProcessData? || x.Property?) }

  predicate HasPresentation(pool: Pool, id: u16) {
    id == NULL_OBJECT_ID || exists x :: x in pool && x.Id() == id && x.Presentation?
  }

  /** Every element has a parent that is an element or the device, every child of an element is
      process data or a property, and every presentation that is named is one. */
  ghost predicate Complete(pool: Pool) {
    && (forall o | o in pool && o.Element? :: HasParent(pool, o.parent) && forall c | c in o.children :: HasChild(pool, c))
    && (forall o | o in pool && o.ProcessData? :: HasPresentation(pool, o.presentation))
    && (forall o | o in pool && o.Property? :: HasPresentation(pool, o.presentation))
  }

  lemma FoundIff(pool: Pool, id: u16)
    requires DistinctIds(pool)
    ensures ParentOk(pool, id) <==> HasParent(pool, id)
    ensures ChildOk(pool, id) <==> HasChild(pool, id)
    ensures PresentationOk(pool, id) <==> HasPresentation(pool, id)
  {
    hide DistinctIds;
    forall x | x in pool && x.Id() == id ensures At(pool, id) == [x] {
      FoundIsTheOne(pool, x);
    }
  }

  /** A pool is written exactly when its references are complete. */
  lemma ResolvedIff(pool: Pool)
    requires DistinctIds(pool)
    ensures AllResolved(pool) <==> Complete(pool)
  {
    hide DistinctIds, ParentOk, ChildOk, PresentationOk, HasParent, HasChild, HasPresentation;
    forall id: u16
      ensures ParentOk(pool, id) <==> HasParent(pool, id)
      ensures ChildOk(pool, id) <==> HasChild(pool, id)
      ensures PresentationOk(pool, id) <==> HasPresentation(pool, id)
    {
      FoundIff(pool, id);
    }
    assert AllResolved(pool) <==> forall o | o in pool :: Resolved(pool, o);
    forall o | o in pool && o.Element?
      ensures Resolved(pool, o) <==> HasParent(pool, o.parent) && forall c | c in o.children :: HasChild(pool, c)
    {
    }
  }
}
