/** The in-memory entity store `EntityAPI` of ctr_web/src/api/service.js: a list of
    records that `delete` reassigns, `add` pushes onto and `edit` overwrites by position. */
module Service {
  import opened Wrappers
  import opened EntityModel

  /** The three records the store starts with. */
  function SeedEntities(): seq<Entity> {
    [ Entity(1, "John", "Doe", "john.doe@example.com", None, None),
      Entity(2, "Jane", "Smith", "jane.smith@example.com", None, None),
      Entity(3, "Bob", "Johnson", "bob.johnson@example.com", None, None) ]
  }

  class EntityApi {
    var entities: seq<Entity>

    constructor ()
      ensures entities == SeedEntities()
    {
      entities := SeedEntities();
    }

    /** `all()` hands back the stored list itself, unchanged. */
    method All() returns (r: seq<Entity>)
      ensures r == entities
    {
      r := entities;
    }

    /** The linear scan behind `find` and `findIndex`: the first position holding `id`, or -1. */
    method FindIndex(id: int) returns (k: int)
      ensures k == FirstIndexOf(entities, id)
    {
      k := 0;
      while k < |entities| && entities[k].id != id
        invariant 0 <= k <= |entities|
        invariant forall j :: 0 <= j < k ==> entities[j].id != id
      {
        k := k + 1;
      }
      if k == |entities| {
        k := -1;
      }
    }

    /** `get(id)`: the first record with that id, or nothing (`undefined`). */
    method Get(id: int) returns (r: Option<Entity>)
      ensures r.Some? <==> HasId(entities, id)
      ensures r.Some? ==> r.value.id == id && r.value == entities[FirstIndexOf(entities, id)]
    {
      var k := FindIndex(id);
      r := if k == -1 then None else Some(entities[k]);
    }

    /** `delete(id)`: keeps the records with another id; an absent id is a silent no-op. */
    method Delete(id: int)
      modifies this
      ensures entities == Without(old(entities), id)
      ensures !HasId(old(entities), id) ==> entities == old(entities)
      ensures UniqueIds(old(entities)) ==> UniqueIds(entities)
    {
      WithoutKeepsOthersInOrder(entities, id);
      if UniqueIds(entities) {
        WithoutKeepsUnique(entities, id);
      }
      entities := Without(entities, id);
    }

    /** `add(entity)`: appends the record under the next id and returns it. */
    method Add(data: EntityData) returns (e: Entity)
      modifies this
      ensures e == Created(data, NextId(old(entities)))
      ensures entities == old(entities) + [e]
      ensures forall i :: 0 <= i < |old(entities)| ==> old(entities)[i].id < e.id
      ensures UniqueIds(old(entities)) ==> UniqueIds(entities)
    {
      var newId := if |entities| > 0 then Seqs.MaxOf(Ids(entities)) + 1 else 1;
      e := Created(data, newId);
      if UniqueIds(entities) {
        AppendNextIdKeepsUnique(entities, data);
      }
      entities := entities + [e];
    }

    /** `edit(id, u)`: merges the patch into the first record with that id and returns it,
        or returns null and changes nothing when no record has that id. */
    method Edit(id: int, u: Patch) returns (r: Option<Entity>)
      modifies this
      ensures r == EditResult(old(entities), id, u)
      ensures entities == EditStore(old(entities), id, u)
    {
      var index := FindIndex(id);
      if index != -1 {
        entities := entities[index := Merge(entities[index], u)];
        r := Some(entities[index]);
        return;
      }
      r := None;
    }
  }

  /** `add` hands out the largest id plus one, so once the record holding the largest id is
      deleted, the next `add` hands that id out again. */
  lemma DeletedLargestIdIsReused()
    ensures NextId(SeedEntities()) == 4
    ensures NextId(Without(SeedEntities(), 3)) == 3
  {
    var es := SeedEntities();
    assert Without(es, 3) == es[..2] by {
      assert Without(es[2..], 3) == [];
      assert Without(es[1..], 3) == [es[1]];
    }
  }
}
