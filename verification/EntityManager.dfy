/** Entity handles: a 20-bit slot id and a 12-bit version in one 32-bit word. */
module Entities {
  import opened Types

  const ID_RANGE: nat := 0x10_0000        // 2^20, from IdBitSize
  const VERSION_RANGE: nat := 0x1000      // 2^12, from VersionBitSize
  const NULL_ID: nat := 0xF_FFFF

  /** Shifts and masks are written as products, quotients and remainders. */
  datatype Entity = Entity(data: uint32)
  {
    function GetId(): (r: nat)
      ensures r < ID_RANGE
    {
      data % ID_RANGE
    }

    function GetVersion(): (r: nat)
      ensures r < VERSION_RANGE
    {
      data / ID_RANGE
    }
  }

  /** The handle of a slot id and a version; both are cut to their fields. */
  function Pack(id: nat, version: nat): Entity {
    Entity((version % VERSION_RANGE) * ID_RANGE + id % ID_RANGE)
  }

  const NULL_ENTITY := Entity(0xFFFF_FFFF)

  /** Packing and parsing are inverse on the fields. */
  lemma PackParse(id: nat, version: nat)
    ensures Pack(id, version).GetId() == id % ID_RANGE && Pack(id, version).GetVersion() == version % VERSION_RANGE
  {
    var v, i := version % VERSION_RANGE, id % ID_RANGE;
    assert (v * ID_RANGE + i) / ID_RANGE == v;
    assert (v * ID_RANGE + i) % ID_RANGE == i;
  }

  /** The word of a handle: the version in the upper 12 bits, the id in the lower 20. */
  lemma HandleLayout(e: Entity)
    ensures e.data == e.GetVersion() * 0x10_0000 + e.GetId() && e.GetId() < 0x10_0000 && e.GetVersion() < 0x1000
    ensures NULL_ENTITY.data == 0xFFFF_FFFF && NULL_ENTITY.GetId() == 0xF_FFFF && NULL_ENTITY.GetVersion() == 0xFFF
  {
  }

  lemma ParsePack(e: Entity)
    ensures Pack(e.GetId(), e.GetVersion()) == e
  {
    assert e.data == (e.data / ID_RANGE) * ID_RANGE + e.data % ID_RANGE;
  }

  /** Two handles are equal exactly when both fields agree; packing is injective on the field ranges. */
  lemma PackInjective(id: nat, version: nat, id': nat, version': nat)
    ensures Pack(id, version) == Pack(id', version') <==>
              id % ID_RANGE == id' % ID_RANGE && version % VERSION_RANGE == version' % VERSION_RANGE
  {
    PackParse(id, version);
    PackParse(id', version');
  }

  lemma PackCut(id: nat, version: nat)
    ensures Pack(id, version % VERSION_RANGE) == Pack(id, version)
  {
    PackInjective(id, version % VERSION_RANGE, id, version);
  }

  /** A word is the handle of its own slot at the n-th version exactly when it carries that version. */
  lemma IsHandle(e: Entity, version: nat)
    ensures Pack(e.GetId(), version) == e <==> version % VERSION_RANGE == e.GetVersion()
  {
    ParsePack(e);
    PackInjective(e.GetId(), version, e.GetId(), e.GetVersion());
  }

  /** A handle of a slot below the null id is never the null handle. */
  lemma PackNull(id: nat, version: nat)
    ensures Pack(id, version) == NULL_ENTITY <==>
            id % ID_RANGE == NULL_ID && version % VERSION_RANGE == VERSION_RANGE - 1
  {
    PackInjective(id, version, NULL_ID, VERSION_RANGE - 1);
    assert Pack(NULL_ID, VERSION_RANGE - 1) == NULL_ENTITY;
  }
}

/** What a history of creations and destructions says about the slots and their handles. */
module EntityHistory {
  import opened Entities

  datatype Event = Created(slot: nat) | Destroyed(slot: nat)

  function LiveAfter(history: seq<Event>): set<nat> {
    if history == [] then {}
    else
      var before := LiveAfter(history[..|history| - 1]);
      match history[|history| - 1]
      case Created(i) => before + {i}
      case Destroyed(i) => before - {i}
  }

  /** How often a slot has been created. */
  function Creations(history: seq<Event>, slot: nat): nat {
    if history == [] then 0
    else
      Creations(history[..|history| - 1], slot) + (if history[|history| - 1] == Created(slot) then 1 else 0)
  }

  /** Only free slots are created and only live ones destroyed. */
  ghost predicate Proper(history: seq<Event>) {
    forall k :: 0 <= k < |history| ==>
      if history[k].Created? then history[k].slot !in LiveAfter(history[..k])
        else history[k].slot in LiveAfter(history[..k])
  }

  /** What Get returns for a slot after a history. */
  function Current(history: seq<Event>, slot: nat): Entity {
    if slot in LiveAfter(history) then Pack(slot, Creations(history, slot)) else NULL_ENTITY
  }

  /** Creations counts the creations of the slot. */
  lemma {:induction false} CreationsCounted(history: seq<Event>, slot: nat)
    ensures Creations(history, slot) == multiset(history)[Created(slot)]
  {
    if history != [] {
      var n := |history| - 1;
      assert history == history[..n] + [history[n]];
      CreationsCounted(history[..n], slot);
    }
  }

  /** Event k creates the slot, and no later event destroys it. */
  predicate StillThere(history: seq<Event>, slot: nat, k: nat)
    requires k < |history|
  {
    history[k] == Created(slot) && Destroyed(slot) !in history[k + 1..]
  }

  /** A slot is live exactly if one of its creations is not followed by a destruction. */
  lemma {:induction false} LiveIff(history: seq<Event>, slot: nat)
    ensures slot in LiveAfter(history) <==> exists k :: 0 <= k < |history| && StillThere(history, slot, k)
    decreases |history|
  {
    if history != [] {
      var n := |history| - 1;
      LiveIff(history[..n], slot);
      forall k | 0 <= k < n
        ensures StillThere(history, slot, k) <==> StillThere(history[..n], slot, k) && history[n] != Destroyed(slot)
      {
        assert history[k + 1..] == history[..n][k + 1..] + [history[n]];
      }
      assert StillThere(history, slot, n) <==> history[n] == Created(slot);
    }
  }

  lemma Snoc(history: seq<Event>, e: Event)
    ensures (history + [e])[..|history|] == history && (history + [e])[|history|] == e
  {
  }

  lemma ProperAt(history: seq<Event>, k: nat)
    requires Proper(history) && k < |history|
    ensures history[k].Created? ==> history[k].slot !in LiveAfter(history[..k])
  {
  }

  lemma Cut(history: seq<Event>, k: nat)
    requires k < |history|
    ensures history[..k + 1][..k] == history[..k] && history[..k + 1][k] == history[k]
  {
  }

  /** The stored versions count the creations modulo 2^12, and slots not yet allocated have none. */
  ghost predicate VersionsCount(versions: seq<nat>, history: seq<Event>) {
    && (forall i :: 0 <= i < |versions| ==> versions[i] == Creations(history, i) % VERSION_RANGE)
    && (forall i: nat :: i >= |versions| ==> Creations(history, i) == 0)
  }

  function GetIncrementVersion(version: nat): nat {
    (version + 1) % VERSION_RANGE
  }

  /** Storing the incremented version, on a possibly longer array, counts one more creation. */
  lemma CreateCounts(versions: seq<nat>, grown: seq<nat>, history: seq<Event>, slot: nat)
    requires VersionsCount(versions, history) && |versions| <= |grown| && slot < |grown|
    requires forall i :: 0 <= i < |grown| ==> grown[i] == if i < |versions| then versions[i] else 0
    ensures
      var history' := history + [Created(slot)];
      && VersionsCount(grown[slot := GetIncrementVersion(grown[slot])], history')
      && GetIncrementVersion(grown[slot]) == Creations(history', slot) % VERSION_RANGE
  {
    var history' := history + [Created(slot)];
    Snoc(history, Created(slot));
    assert grown[slot] == Creations(history, slot) % VERSION_RANGE;
    IncrementCounts(Creations(history, slot));
    forall i: nat | i != slot
      ensures Creations(history', i) == Creations(history, i)
    {
    }
  }

  lemma IncrementCounts(n: nat)
    ensures GetIncrementVersion(n % VERSION_RANGE) == (n + 1) % VERSION_RANGE
  {
  }

  lemma DestroyCounts(versions: seq<nat>, history: seq<Event>, slot: nat)
    requires VersionsCount(versions, history)
    ensures VersionsCount(versions, history + [Destroyed(slot)])
  {
    Snoc(history, Destroyed(slot));
  }

  lemma ProperSnoc(history: seq<Event>, e: Event)
    requires Proper(history)
    requires if e.Created? then e.slot !in LiveAfter(history) else e.slot in LiveAfter(history)
    ensures Proper(history + [e])
    ensures LiveAfter(history + [e]) ==
            if e.Created? then LiveAfter(history) + {e.slot} else LiveAfter(history) - {e.slot}
  {
    Snoc(history, e);
    forall k | 0 <= k < |history|
      ensures (history + [e])[..k] == history[..k]
    {
    }
  }

  lemma {:induction false} CreationsGrow(history: seq<Event>, slot: nat, p: nat, q: nat)
    requires p <= q <= |history|
    ensures Creations(history[..p], slot) <= Creations(history[..q], slot)
  {
    if p < q {
      CreationsGrow(history, slot, p, q - 1);
      Cut(history, q - 1);
    }
  }

  /** The handle returned by the creation at position p is what Get returns afterwards exactly while its
      slot is live and has been re-created a multiple of 2^12 times since. */
  lemma HandleMatches(history: seq<Event>, p: nat, q: nat)
    requires p < q <= |history| && history[p].Created? && history[p].slot < NULL_ID
    ensures
      var slot := history[p].slot;
      var handle := Pack(slot, Creations(history[..p + 1], slot));
      var since := Creations(history[..q], slot) - Creations(history[..p + 1], slot);
      && since >= 0
      && (Current(history[..q], slot) == handle <==>
          slot in LiveAfter(history[..q]) && since % VERSION_RANGE == 0)
  {
    var slot := history[p].slot;
    var c, c' := Creations(history[..p + 1], slot), Creations(history[..q], slot);
    CreationsGrow(history, slot, p + 1, q);
    PackNull(slot, c);
    PackInjective(slot, c', slot, c);
  }

  /** Until its destruction a created handle stays current; no re-creation can come in between. */
  lemma {:induction false} HandleLives(history: seq<Event>, p: nat, q: nat)
    requires Proper(history) && p < q <= |history| && history[p].Created?
    requires Destroyed(history[p].slot) !in history[p + 1..q]
    ensures history[p].slot in LiveAfter(history[..q])
    ensures Creations(history[..q], history[p].slot) == Creations(history[..p + 1], history[p].slot)
    ensures Current(history[..q], history[p].slot) ==
            Pack(history[p].slot, Creations(history[..p + 1], history[p].slot))
  {
    hide Pack, Proper;
    Cut(history, q - 1);
    ProperAt(history, q - 1);
    if p + 1 < q {
      assert history[p + 1..q] == history[p + 1..q - 1] + [history[q - 1]];
      HandleLives(history, p, q - 1);
    }
  }
}

/** The entity manager: slots from the node pool, one version counter per slot that survives Erase. */
module EntityManagement {
  import opened Entities
  import opened EntityHistory
  import opened UnmanagedList
  import PoolLinks

  class EntityManager {
    const list: IndexedUnmanagedList<nat>

    /** The manager is where the history of its Create and Destroy calls leads: the lists are intact, the
        live slots are those of the history, and every slot's stored version counts its creations modulo
        2^12. */
    ghost predicate Follows(history: seq<Event>)
      reads this, list, list.nodes
    {
      && list.Linked() && (forall i: nat :: list.BlockInitializer(i) == 0)
      && Proper(history) && list.LiveSet() == LiveAfter(history) && VersionsCount(list.values, history)
    }

    constructor (nodesPerPage: nat)
      requires nodesPerPage > 0
      ensures Follows([]) && fresh(list) && list.nodes == []
    {
      list := new IndexedUnmanagedList(nodesPerPage, (_: nat) => 0);
      new;
      assert list.LiveSet() == {};
    }

    lemma StoredVersion(history: seq<Event>, slot: nat)
      requires Follows(history)
      ensures slot in LiveAfter(history) ==>
              slot < |list.values| && list.values[slot] == Creations(history, slot) % VERSION_RANGE
    {
    }

    /** Allocates a slot and stores its incremented version. */
    method CreateSlot() returns (slot: nat, version: nat, ghost grown: seq<nat>)
      requires list.Linked() && (forall i: nat :: list.BlockInitializer(i) == 0)
      modifies list, list.nodes
      ensures list.Linked() && (forall i :: |old(list.nodes)| <= i < |list.nodes| ==> fresh(list.nodes[i]))
      ensures slot !in old(list.LiveSet()) && list.LiveSet() == old(list.LiveSet()) + {slot}
      ensures |old(list.values)| <= |grown| && slot < |grown|
      ensures forall i :: 0 <= i < |grown| ==> grown[i] == if i < |old(list.values)| then old(list.values)[i] else 0
      ensures version == GetIncrementVersion(grown[slot]) && list.values == grown[slot := version]
    {
      hide PoolLinks.Linked, PoolLinks.LiveOf, IndexedUnmanagedList<nat>.Indexed;
      var node;
      slot, node := list.Create();
      grown := list.values;
      assert node.Data == grown[slot];
      version := GetIncrementVersion(node.Data);
      list.SetData(slot, version);
    }

    /** A new handle for a slot that was free; its version is the number of the slot's creations. */
    method Create(ghost history: seq<Event>) returns (entity: Entity, ghost slot: nat)
      requires Follows(history)
      modifies list, list.nodes
      ensures slot !in LiveAfter(history) && Follows(history + [Created(slot)])
      ensures forall i :: |old(list.nodes)| <= i < |list.nodes| ==> fresh(list.nodes[i])
      ensures entity == Pack(slot, Creations(history + [Created(slot)], slot))
    {
      hide PoolLinks.Linked, PoolLinks.LiveOf, IndexedUnmanagedList<nat>.Indexed;
      hide Creations, LiveAfter, Proper, Pack, VersionsCount;
      var index, version;
      ghost var grown;
      ghost var versions := list.values;
      index, version, grown := CreateSlot();
      CreateCounts(versions, grown, history, index);
      ProperSnoc(history, Created(index));
      PackCut(index, Creations(history + [Created(index)], index));
      return Pack(index, version), index;
    }

    /** Destroys exactly the entity whose handle is current; a stale handle changes nothing. */
    method Destroy(entity: Entity, ghost history: seq<Event>)
      requires Follows(history)
      modifies list, list.nodes
      ensures list.nodes == old(list.nodes)
      ensures
        var id := entity.GetId();
        Follows(if id in LiveAfter(history) && Current(history, id) == entity
                then history + [Destroyed(id)] else history)
    {
      hide PoolLinks.Erase, PoolLinks.LiveOf, PoolLinks.Linked, IndexedUnmanagedList<nat>.Indexed;
      hide VersionsCount, Proper, LiveAfter, Creations;
      var id := entity.GetId();
      IsHandle(entity, Creations(history, id));
      StoredVersion(history, id);
      var node := list.Get(id);
      if node == null || node.Data != entity.GetVersion() {
        return;
      }
      DestroyCounts(list.values, history, id);
      ProperSnoc(history, Destroyed(id));
      list.Erase(id);
    }

    method Get(entityId: nat, ghost history: seq<Event>) returns (entity: Entity)
      requires Follows(history)
      ensures entity == Current(history, entityId)
    {
      var node := list.Get(entityId);
      PackCut(entityId, Creations(history, entityId));
      if node == null {
        return NULL_ENTITY;
      }
      return Pack(entityId, node.Data);
    }
  }
}
