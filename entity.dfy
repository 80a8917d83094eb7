/** The employee record and the list operations that the mock service
    (ctr_web/src/api/service.js) and the entities reducer perform on lists of records. */
module EntityModel {
  import opened Wrappers
  import opened Seqs

  /** An employee record. The seeded records have no `age` and no `hireDate`;
      a hire date is a day number. */
  datatype Entity = Entity(
    id: int,
    firstName: string,
    lastName: string,
    email: string,
    age: Option<int>,
    hireDate: Option<int>)

  /** The object handed to `add`. Whatever id it carries is replaced, so it has none here. */
  datatype EntityData = EntityData(
    firstName: string,
    lastName: string,
    email: string,
    age: Option<int>,
    hireDate: Option<int>)

  /** The object handed to `edit`: each field it carries overwrites the record's,
      including `id`. */
  datatype Patch = Patch(
    id: Option<int>,
    firstName: Option<string>,
    lastName: Option<string>,
    email: Option<string>,
    age: Option<int>,
    hireDate: Option<int>)

  /** `{ ...entity, id }` */
  function Created(data: EntityData, id: int): Entity {
    Entity(id, data.firstName, data.lastName, data.email, data.age, data.hireDate)
  }

  /** `{ ...e, ...u }` */
  function Merge(e: Entity, u: Patch): Entity {
    Entity(
      u.id.GetOr(e.id),
      u.firstName.GetOr(e.firstName),
      u.lastName.GetOr(e.lastName),
      u.email.GetOr(e.email),
      if u.age.Some? then u.age else e.age,
      if u.hireDate.Some? then u.hireDate else e.hireDate)
  }

  /** A field the patch does not carry keeps the record's value; one it carries takes the
      patch's value; and merging the same patch again changes nothing. */
  lemma MergeOverwritesOnlyPatchedFields(e: Entity, u: Patch)
    ensures Merge(e, u).id == if u.id.Some? then u.id.value else e.id
    ensures Merge(e, u).firstName == if u.firstName.Some? then u.firstName.value else e.firstName
    ensures Merge(e, u).lastName == if u.lastName.Some? then u.lastName.value else e.lastName
    ensures Merge(e, u).email == if u.email.Some? then u.email.value else e.email
    ensures Merge(e, u).age == if u.age.Some? then u.age else e.age
    ensures Merge(e, u).hireDate == if u.hireDate.Some? then u.hireDate else e.hireDate
    ensures Merge(Merge(e, u), u) == Merge(e, u)
    ensures Merge(e, Patch(None, None, None, None, None, None)) == e
  {
  }

  predicate HasId(es: seq<Entity>, id: int) {
    exists i :: 0 <= i < |es| && es[i].id == id
  }

  predicate UniqueIds(es: seq<Entity>) {
    forall i, j :: 0 <= i < j < |es| ==> es[i].id != es[j].id
  }

  function Ids(es: seq<Entity>): (ids: seq<int>)
    ensures |ids| == |es|
    ensures forall i :: 0 <= i < |es| ==> ids[i] == es[i].id
  {
    seq(|es|, i requires 0 <= i < |es| => es[i].id)
  }

  /** The id `add` assigns: one more than the largest id, or 1 for an empty list. */
  function NextId(es: seq<Entity>): (r: int)
    ensures forall i :: 0 <= i < |es| ==> es[i].id < r
    ensures |es| == 0 ==> r == 1
    ensures |es| > 0 ==> exists i :: 0 <= i < |es| && r == es[i].id + 1
  {
    if |es| > 0 then MaxOf(Ids(es)) + 1 else 1
  }

  /** `findIndex(e => e.id === id)`: the first position with that id, or -1. */
  function FirstIndexOf(es: seq<Entity>, id: int): (k: int)
    ensures -1 <= k < |es|
    ensures k == -1 <==> !HasId(es, id)
    ensures 0 <= k ==> es[k].id == id && forall j :: 0 <= j < k ==> es[j].id != id
  {
    if es == [] then -1
    else if es[0].id == id then 0
    else
      var k := FirstIndexOf(es[1..], id);
      if k == -1 then -1 else k + 1
  }

  /** `filter(e => e.id !== id)` */
  function Without(es: seq<Entity>, id: int): seq<Entity> {
    if es == [] then []
    else (if es[0].id != id then [es[0]] else []) + Without(es[1..], id)
  }

  /** Deleting an id keeps, in order, exactly the records with another id;
      deleting an id nobody has changes nothing. */
  lemma {:induction false} WithoutKeepsOthersInOrder(es: seq<Entity>, id: int)
    ensures IsSubsequence(Without(es, id), es)
    ensures forall x :: x in Without(es, id) <==> x in es && x.id != id
    ensures !HasId(es, id) ==> Without(es, id) == es
  {
    if es != [] {
      var rest := Without(es[1..], id);
      WithoutKeepsOthersInOrder(es[1..], id);
      assert es == [es[0]] + es[1..];
      if es[0].id != id {
        var r := [es[0]] + rest;
        assert r[0] == es[0] && r[1..] == rest;
        assert Without(es, id) == r;
      } else {
        assert Without(es, id) == rest;
      }
      if !HasId(es, id) {
        assert !HasId(es[1..], id) by {
          forall i | 0 <= i < |es| - 1 ensures es[1..][i].id != id {
            assert es[1..][i] == es[i + 1];
          }
        }
        assert es[0].id != id;
      }
    }
  }

  /** `filter(e => !ids.includes(e.id))` */
  function WithoutAny(es: seq<Entity>, ids: seq<int>): seq<Entity> {
    if es == [] then []
    else (if es[0].id !in ids then [es[0]] else []) + WithoutAny(es[1..], ids)
  }

  /** Removing a list of ids keeps, in order, exactly the records whose id is not listed. */
  lemma {:induction false} WithoutAnyKeepsOthersInOrder(es: seq<Entity>, ids: seq<int>)
    ensures IsSubsequence(WithoutAny(es, ids), es)
    ensures forall x :: x in WithoutAny(es, ids) <==> x in es && x.id !in ids
  {
    if es != [] {
      var rest := WithoutAny(es[1..], ids);
      WithoutAnyKeepsOthersInOrder(es[1..], ids);
      assert es == [es[0]] + es[1..];
      if es[0].id !in ids {
        var r := [es[0]] + rest;
        assert r[0] == es[0] && r[1..] == rest;
        assert WithoutAny(es, ids) == r;
      } else {
        assert WithoutAny(es, ids) == rest;
      }
    }
  }

  /** Removing no ids keeps every record. */
  lemma {:induction false} WithoutNothing(es: seq<Entity>)
    ensures WithoutAny(es, []) == es
  {
    if es != [] {
      WithoutNothing(es[1..]);
      assert es == [es[0]] + es[1..];
    }
  }

  /** Removing the same ids a second time removes nothing more. */
  lemma {:induction false} WithoutAnyIdempotent(es: seq<Entity>, ids: seq<int>)
    ensures WithoutAny(WithoutAny(es, ids), ids) == WithoutAny(es, ids)
  {
    if es != [] {
      WithoutAnyIdempotent(es[1..], ids);
      var rest := WithoutAny(es[1..], ids);
      if es[0].id !in ids {
        var r := [es[0]] + rest;
        assert r[0] == es[0] && r[1..] == rest;
        assert WithoutAny(es, ids) == r;
        assert WithoutAny(r, ids) == [es[0]] + WithoutAny(rest, ids);
      } else {
        assert WithoutAny(es, ids) == rest;
      }
    }
  }

  /** Removing ids one at a time gives the same list as removing them all at once. */
  lemma {:induction false} WithoutAnyStep(es: seq<Entity>, ids: seq<int>, id: int)
    ensures Without(WithoutAny(es, ids), id) == WithoutAny(es, ids + [id])
  {
    if es != [] {
      WithoutAnyStep(es[1..], ids, id);
      var rest := WithoutAny(es[1..], ids);
      if es[0].id !in ids {
        var r := [es[0]] + rest;
        assert r[0] == es[0] && r[1..] == rest;
        assert WithoutAny(es, ids) == r;
        assert Without(r, id) == (if es[0].id != id then [es[0]] else []) + Without(rest, id);
      } else {
        assert WithoutAny(es, ids) == rest;
      }
    }
  }

  /** `map(x => x.id === e.id ? e : x)` */
  function ReplaceById(es: seq<Entity>, e: Entity): (r: seq<Entity>) {
    seq(|es|, i requires 0 <= i < |es| => if es[i].id == e.id then e else es[i])
  }

  /** The value `edit(id, u)` returns: the merged record, or null for an absent id. */
  function EditResult(es: seq<Entity>, id: int, u: Patch): Option<Entity> {
    var k := FirstIndexOf(es, id);
    if k == -1 then None else Some(Merge(es[k], u))
  }

  /** The list `edit(id, u)` leaves behind. */
  function EditStore(es: seq<Entity>, id: int, u: Patch): seq<Entity> {
    var k := FirstIndexOf(es, id);
    if k == -1 then es else es[k := Merge(es[k], u)]
  }

  /** `edit` on an absent id returns null and keeps the list; on a present id it merges the
      patch into the FIRST record with that id, returns that record, and no other position changes. */
  lemma EditChangesOnlyFirstMatch(es: seq<Entity>, id: int, u: Patch)
    ensures !HasId(es, id) ==> EditResult(es, id, u) == None && EditStore(es, id, u) == es
    ensures HasId(es, id) ==>
      exists k :: 0 <= k < |es| && es[k].id == id && (forall j :: 0 <= j < k ==> es[j].id != id)
        && EditResult(es, id, u) == Some(Merge(es[k], u))
        && |EditStore(es, id, u)| == |es|
        && EditStore(es, id, u)[k] == Merge(es[k], u)
        && forall j :: 0 <= j < |es| && j != k ==> EditStore(es, id, u)[j] == es[j]
  {
    var k := FirstIndexOf(es, id);
    if k != -1 {
      assert 0 <= k < |es| && es[k].id == id;
    }
  }

  /** Appending a record whose id exceeds every stored id keeps ids unique. */
  lemma AppendNextIdKeepsUnique(es: seq<Entity>, data: EntityData)
    requires UniqueIds(es)
    ensures UniqueIds(es + [Created(data, NextId(es))])
  {
  }

  /** Deleting keeps ids unique. */
  lemma {:induction false} WithoutKeepsUnique(es: seq<Entity>, id: int)
    requires UniqueIds(es)
    ensures UniqueIds(Without(es, id))
  {
    if es != [] {
      WithoutKeepsUnique(es[1..], id);
      WithoutKeepsOthersInOrder(es[1..], id);
      var rest := Without(es[1..], id);
      if es[0].id != id {
        forall j | 0 < j < |rest| + 1 ensures ([es[0]] + rest)[j].id != es[0].id {
          assert rest[j - 1] in es[1..];
        }
      }
    }
  }
}
