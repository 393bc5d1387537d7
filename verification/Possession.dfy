/** Which connection possesses which entity: two sparse lists that mirror each other. */
module Possession {
  import opened Types
  import opened Entities
  import opened SparseLists

  datatype PossessionResult = Success | DuplicateContext | EntityAlreadyPossessed

  datatype VersionContext = VersionContext(version: nat, context: nat)

  /** The two maps are inverse, versions included. */
  ghost predicate Inverse(byContext: map<nat, Entity>, byEntity: map<nat, VersionContext>) {
    && (forall c :: c in byContext ==>
          && byContext[c].GetId() in byEntity
          && byEntity[byContext[c].GetId()] == VersionContext(byContext[c].GetVersion(), c))
    && (forall id :: id in byEntity ==>
          && byEntity[id].context in byContext
          && byContext[byEntity[id].context].GetId() == id
          && byContext[byEntity[id].context].GetVersion() == byEntity[id].version)
  }

  /** Every context possesses at most one entity and every slot is possessed by at most one context; a
      context and an entity belong together in one map exactly when they do in the other. */
  lemma InverseIsBijective(byContext: map<nat, Entity>, byEntity: map<nat, VersionContext>)
    requires Inverse(byContext, byEntity)
    ensures forall c, d :: c in byContext && d in byContext && byContext[c].GetId() == byContext[d].GetId() ==> c == d
    ensures forall c, e: Entity :: (c in byContext && byContext[c] == e) <==>
              (e.GetId() in byEntity && byEntity[e.GetId()] == VersionContext(e.GetVersion(), c))
  {
    forall c, e: Entity
      ensures (c in byContext && byContext[c] == e) <==>
                (e.GetId() in byEntity && byEntity[e.GetId()] == VersionContext(e.GetVersion(), c))
    {
      if e.GetId() in byEntity && byEntity[e.GetId()] == VersionContext(e.GetVersion(), c) {
        ParsePack(e);
        ParsePack(byContext[c]);
      }
    }
  }

  lemma InsertInverse(byContext: map<nat, Entity>, byEntity: map<nat, VersionContext>, context: nat, e: Entity)
    requires Inverse(byContext, byEntity) && context !in byContext && e.GetId() !in byEntity
    ensures Inverse(byContext[context := e], byEntity[e.GetId() := VersionContext(e.GetVersion(), context)])
  {
  }

  lemma RemoveInverse(byContext: map<nat, Entity>, byEntity: map<nat, VersionContext>, context: nat)
    requires Inverse(byContext, byEntity) && context in byContext
    ensures Inverse(byContext - {context}, byEntity - {byContext[context].GetId()})
  {
  }

  class G_Possession {
    const contextEntityMap: SparseList<Entity>
    const entityContextMap: SparseList<VersionContext>
    ghost var Repr: set<object>

    ghost predicate Valid()
      reads this, Repr, contextEntityMap, entityContextMap, contextEntityMap.Repr, entityContextMap.Repr
      reads contextEntityMap.sparseBlocks, entityContextMap.sparseBlocks
    {
      && this !in contextEntityMap.Repr && this !in entityContextMap.Repr
      && contextEntityMap.Repr !! entityContextMap.Repr
      && Repr == {this} + contextEntityMap.Repr + entityContextMap.Repr
      && contextEntityMap.Valid() && entityContextMap.Valid()
      && Inverse(contextEntityMap.contents, entityContextMap.contents)
    }

    ghost function ByContext(): map<nat, Entity>
      reads contextEntityMap
    {
      contextEntityMap.contents
    }

    ghost function ByEntity(): map<nat, VersionContext>
      reads entityContextMap
    {
      entityContextMap.contents
    }

    constructor (denseBlocksPerPage: nat, sparseNodesPerPage: nat)
      requires denseBlocksPerPage > 0 && sparseNodesPerPage > 0
      ensures Valid() && fresh(Repr) && ByContext() == map[] && ByEntity() == map[]
    {
      hide SparseList<Entity>.Valid, SparseList<VersionContext>.Valid;
      contextEntityMap := new SparseList(denseBlocksPerPage, sparseNodesPerPage, NULL_ENTITY);
      entityContextMap := new SparseList(denseBlocksPerPage, sparseNodesPerPage, VersionContext(0, 0));
      new;
      Repr := {this} + contextEntityMap.Repr + entityContextMap.Repr;
    }

    /** Possesses unless one side is taken already; `crashed` would be a failed crash check. */
    method TryPossess(context: nat, entity: Entity) returns (result: PossessionResult, crashed: bool)
      requires Valid()
      modifies Repr
      ensures Valid() && fresh(Repr - old(Repr)) && !crashed
      ensures result ==
              if context in old(ByContext()) then DuplicateContext
              else if entity.GetId() in old(ByEntity()) then EntityAlreadyPossessed
              else PossessionResult.Success
      ensures result != PossessionResult.Success ==> ByContext() == old(ByContext()) && ByEntity() == old(ByEntity())
      ensures result == PossessionResult.Success ==>
                && ByContext() == old(ByContext())[context := entity]
                && ByEntity() == old(ByEntity())[entity.GetId() := VersionContext(entity.GetVersion(), context)]
    {
      hide SparseList<Entity>.Valid, SparseList<VersionContext>.Valid, Inverse;
      crashed := false;
      var possessed := contextEntityMap.Get(context);
      if possessed.Some? {
        return DuplicateContext, false;
      }
      var possessor := entityContextMap.Get(entity.GetId());
      if possessor.Some? {
        return EntityAlreadyPossessed, false;
      }
      InsertInverse(ByContext(), ByEntity(), context, entity);
      var byContext := contextEntityMap.EmplaceAt(context, entity);
      var byEntity := entityContextMap.EmplaceAt(entity.GetId(), VersionContext(entity.GetVersion(), context));
      Repr := {this} + contextEntityMap.Repr + entityContextMap.Repr;
      return PossessionResult.Success, byContext == null || byEntity == null;
    }

    /** Releases whatever the context possesses, in both maps. */
    method UnpossessByContext(context: nat) returns (crashed: bool)
      requires Valid()
      modifies Repr
      ensures Valid() && fresh(Repr - old(Repr)) && !crashed
      ensures ByContext() == old(ByContext()) - {context}
      ensures ByEntity() ==
              if context in old(ByContext()) then old(ByEntity()) - {old(ByContext())[context].GetId()}
              else old(ByEntity())
    {
      hide SparseList<Entity>.Valid, SparseList<VersionContext>.Valid;
      var entity := contextEntityMap.Get(context);
      if entity.None? {
        assert ByContext() - {context} == ByContext();
        return false;
      }
      RemoveInverse(ByContext(), ByEntity(), context);
      var entityErased := entityContextMap.EraseBySparseIndex(entity.value.GetId());
      var contextErased := contextEntityMap.EraseBySparseIndex(context);
      return !entityErased || !contextErased;
    }

    /** Releases the entity if it is possessed in exactly this version; a stale handle changes nothing. */
    method UnpossessByEntity(entity: Entity) returns (crashed: bool)
      requires Valid()
      modifies Repr
      ensures Valid() && fresh(Repr - old(Repr)) && !crashed
      ensures
        var id := entity.GetId();
        if id in old(ByEntity()) && old(ByEntity())[id].version == entity.GetVersion() then
          ByEntity() == old(ByEntity()) - {id} && ByContext() == old(ByContext()) - {old(ByEntity())[id].context}
        else
          ByEntity() == old(ByEntity()) && ByContext() == old(ByContext())
    {
      hide SparseList<Entity>.Valid, SparseList<VersionContext>.Valid;
      var versionContext := entityContextMap.Get(entity.GetId());
      if versionContext.None? || versionContext.value.version != entity.GetVersion() {
        return false;
      }
      RemoveInverse(ByContext(), ByEntity(), versionContext.value.context);
      var contextErased := contextEntityMap.EraseBySparseIndex(versionContext.value.context);
      var entityErased := entityContextMap.EraseBySparseIndex(entity.GetId());
      return !contextErased || !entityErased;
    }
  }
}
