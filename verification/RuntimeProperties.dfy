/**
  A context's copy of a node instance's runtime properties: which changes it notices, and when an
  update without a conflict handler sends them to storage.
*/
module RuntimeProperties {
  import opened Names
  import opened OptimisticUpdate

  /** What a caller can do to the dictionary; only `SetDefault` is left to the plain dictionary. */
  datatype Change =
    | SetItem(key: string, value: string)
    | DelItem(key: string)
    | UpdateWith(more: Props)
    | Clear
    | Pop(key: string)
    | PopItem(picked: string)
    | SetDefault(key: string, value: string)

  /** The item to be popped is one that the dictionary picks, if it has any. */
  predicate Picks(values: Props, c: Change) {
    c.PopItem? && values != map[] ==> c.picked in values
  }

  /** What the plain dictionary makes of a change; removing what is not there raises before anything happens. */
  function Changed(values: Props, c: Change): Option<Props> {
    match c
    case SetItem(k, v) => Some(values[k := v])
    case DelItem(k) => if k in values then Some(values - {k}) else None
    case UpdateWith(more) => Some(values + more)
    case Clear => Some(map[])
    case Pop(k) => Some(values - {k})
    case PopItem(k) => if k in values then Some(values - {k}) else None
    case SetDefault(k, v) => Some(if k in values then values else values[k := v])
  }

  function Get(values: Props, x: string): Option<string> {
    if x in values then Some(values[x]) else None
  }

  /** What a key holds after a change that does not raise. */
  function Holds(values: Props, c: Change, x: string): Option<string> {
    match c
    case SetItem(k, v) => if x == k then Some(v) else Get(values, x)
    case DelItem(k) => if x == k then None else Get(values, x)
    case UpdateWith(more) => if x in more then Some(more[x]) else Get(values, x)
    case Clear => None
    case Pop(k) => if x == k then None else Get(values, x)
    case PopItem(k) => if x == k then None else Get(values, x)
    case SetDefault(k, v) => if x == k && x !in values then Some(v) else Get(values, x)
  }

  /**
    A change raises exactly if it deletes a key that is not there, or an item of nothing; else this is
    what it does.
  */
  lemma ChangedExactly(values: Props, c: Change, x: string)
    requires Picks(values, c)
    ensures Changed(values, c).None? <==> (c.DelItem? && Get(values, c.key).None?) || (c.PopItem? && values == map[])
    ensures Changed(values, c).Some? ==> Get(Changed(values, c).value, x) == Holds(values, c, x)
  {
  }

  class DirtyTrackingDict {
    var values: Props
    var modifiable: bool
    var dirty: bool
    /** What was fetched, and whether a change went past the tracking. */
    ghost var fetched: Props
    ghost var bypassed: bool

    /** A dictionary that may not be modified is never dirty, and a clean one holds what was fetched. */
    ghost predicate Valid()
      reads this
    {
      && (!modifiable ==> !dirty)
      && (modifiable && !dirty && !bypassed ==> values == fetched)
    }

    constructor (properties: Props, modifiable: bool)
      ensures Valid() && values == properties && this.modifiable == modifiable && !dirty
      ensures fetched == properties && !bypassed
    {
      values, this.modifiable, dirty, fetched, bypassed := properties, modifiable, false, properties, false;
    }

    method SetChanged() returns (ok: bool)
      modifies `dirty
      ensures ok == modifiable && dirty == (old(dirty) || modifiable)
    {
      ok := modifiable;
      if modifiable {
        dirty := true;
      }
    }

    /** The change is made first and checked after: a refused one stays, without making the dictionary dirty. */
    method Apply(c: Change) returns (ok: bool)
      requires Valid() && Picks(values, c)
      modifies `values, `dirty, `bypassed
      ensures Valid()
      ensures ok <==> Changed(old(values), c).Some? && (modifiable || c.SetDefault?)
      ensures values == if Changed(old(values), c).Some? then Changed(old(values), c).value else old(values)
      ensures dirty == (old(dirty) || (ok && !c.SetDefault?))
      ensures bypassed == (old(bypassed) || (c.SetDefault? && values != old(values)))
    {
      var changed := Changed(values, c);
      if changed.None? {
        return false;
      }
      if c.SetDefault? {
        bypassed := bypassed || changed.value != values;
        values := changed.value;
        return true;
      }
      values := changed.value;
      ok := SetChanged();
    }
  }

  /** A context and the storage behind it, which counts the versions of the node instance. */
  class NodeInstanceContext {
    const modifiable: bool
    var stored: Props
    var storedVersion: nat
    var instance: DirtyTrackingDict?
    var version: nat

    ghost predicate Valid()
      reads this, instance
    {
      instance != null ==>
        && instance.Valid() && instance.modifiable == modifiable && version <= storedVersion
        && (version == storedVersion ==> instance.fetched == stored)
    }

    constructor (stored: Props, modifiable: bool)
      ensures Valid() && this.stored == stored && this.modifiable == modifiable && instance == null
    {
      this.stored, this.modifiable, instance, storedVersion, version := stored, modifiable, null, 0, 0;
    }

    method GetNodeInstance()
      modifies `instance, `version
      ensures Valid() && instance != null && fresh(instance) && instance.values == instance.fetched == stored
      ensures !instance.dirty && !instance.bypassed && version == storedVersion
    {
      instance := new DirtyTrackingDict(stored, modifiable);
      version := storedVersion;
    }

    /** Somebody else updates the node instance. */
    method OtherUpdate(properties: Props)
      requires Valid()
      modifies `stored, `storedVersion
      ensures Valid() && stored == properties && storedVersion == old(storedVersion) + 1
    {
      stored, storedVersion := properties, storedVersion + 1;
    }

    /** Refused while there are local changes, unless forced. */
    method Refresh(force: bool) returns (ok: bool)
      requires Valid()
      modifies `instance, `version
      ensures Valid()
      ensures ok <==> force || old(instance == null || !instance.dirty)
      ensures ok ==> instance != null && instance.values == stored && !instance.dirty && version == storedVersion
      ensures !ok ==> instance == old(instance) && version == old(version)
    {
      if !force && instance != null && instance.dirty {
        return false;
      }
      GetNodeInstance();
      ok := true;
    }

    /**
      An update without a handler. It is refused exactly if there are tracked changes and storage has
      another version than the one they were made to; then nothing changes, here or there. Otherwise a
      modifiable context's changes are all sent, or none was made, or one of them went past the tracking.
    */
    method Update() returns (ok: bool)
      requires Valid()
      modifies `stored, `storedVersion, `instance
      ensures Valid()
      ensures ok <==> !old(instance != null && instance.dirty && version != storedVersion)
      ensures !ok ==> stored == old(stored) && storedVersion == old(storedVersion) && instance == old(instance)
      ensures ok ==> instance == null
      ensures ok && old(instance) == null ==> stored == old(stored)
      ensures ok && old(instance) != null ==>
        stored == if old(instance).dirty then old(instance).values else old(stored)
      ensures ok && old(instance) != null && modifiable && !old(instance).bypassed ==>
        stored == old(instance).values || old(instance).values == old(instance).fetched
      ensures !modifiable ==> ok && stored == old(stored)
    {
      if instance != null && instance.dirty {
        if version != storedVersion {
          return false;
        }
        stored, storedVersion := instance.values, storedVersion + 1;
      }
      instance := null;
      ok := true;
    }
  }

  /** A change that the tracking misses is lost with the next update. */
  method UntrackedChangeIsLost(stored: Props, key: string, value: string) returns (context: NodeInstanceContext)
    requires key !in stored
    ensures context.stored == stored && key !in context.stored
  {
    context := new NodeInstanceContext(stored, true);
    context.GetNodeInstance();
    var ok := context.instance.Apply(SetDefault(key, value));
    assert ok && context.instance.values == stored[key := value];
    ok := context.Update();
  }
}
