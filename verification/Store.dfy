/** The objects database: two tables, the upsert transaction, the cascading delete
    (migrations/stardust, src/sync/worker.rs). */
module Store {
  import opened Wrappers
  import opened Models

  datatype Tables = Tables(
    objects: map<Address, StoredObject>,
    expirations: map<Address, ExpirationRow>)

  const EMPTY := Tables(map[], map[])

  /** The constraint the schema enforces: an expiration row has a parent object. */
  ghost predicate ForeignKey(t: Tables) {
    t.expirations.Keys <= t.objects.Keys
  }

  /** The derived table is exactly what decoding the objects gives. */
  ghost predicate Agreement(codec: Codec, t: Tables) {
    && t.objects.Keys == t.expirations.Keys
    && forall x <- t.objects ::
      && t.objects[x].id == x
      && t.expirations[x].objectId == x
      && ToExpiration(codec, t.objects[x]) == Success(t.expirations[x])
  }

  /** One database transaction: both rows are written or neither is. */
  function CommitObject(codec: Codec, t: Tables, o: StoredObject): Result<Tables, IndexError> {
    var objects := t.objects[o.id := o];
    var row :- ToExpiration(codec, o);
    if row.objectId !in objects then Failure(ForeignKeyViolation)
    else Success(Tables(objects, t.expirations[row.objectId := row]))
  }

  /** `DELETE ... WHERE id IN ids`, with the children of each deleted row. */
  function Delete(t: Tables, ids: set<Address>): Tables {
    Tables(t.objects - ids, t.expirations - (t.objects.Keys * ids))
  }

  /** A successful commit keeps the tables in agreement exactly when the id inside the contents
      is the id of the object. */
  lemma CommitKeepsAgreementIff(codec: Codec, t: Tables, o: StoredObject)
    requires Agreement(codec, t)
    requires CommitObject(codec, t, o).Success?
    ensures Agreement(codec, CommitObject(codec, t, o).value)
       <==> ToExpiration(codec, o).value.objectId == o.id
  {
    var t' := CommitObject(codec, t, o).value;
    assert o.id in t'.objects && t'.objects[o.id] == o;
    if ToExpiration(codec, o).value.objectId == o.id {
      forall x | x in t'.objects
        ensures t'.objects[x].id == x && x in t'.expirations && t'.expirations[x].objectId == x
        ensures ToExpiration(codec, t'.objects[x]) == Success(t'.expirations[x])
      {
        assert x != o.id ==> x in t.objects;
      }
    }
  }

  /** Two tables of the objects database, changed in place by one connection. */
  class ObjectsDb {
    var objects: map<Address, StoredObject>
    var expirations: map<Address, ExpirationRow>

    function State(): Tables
      reads this
    {
      Tables(objects, expirations)
    }

    ghost predicate Valid()
      reads this
    {
      ForeignKey(State())
    }

    constructor ()
      ensures Valid() && State() == EMPTY
    {
      objects, expirations := map[], map[];
    }

    /** The object goes in first; a failing conversion or constraint rolls it back. */
    method UpsertTransaction(codec: Codec, o: StoredObject) returns (r: Outcome<IndexError>)
      requires Valid()
      modifies this
      ensures Valid()
      ensures match CommitObject(codec, old(State()), o)
              case Success(t) => r == Pass && State() == t
              case Failure(e) => r == Fail(e) && State() == old(State())
    {
      var before := objects;
      objects := objects[o.id := o];
      var converted := ToExpiration(codec, o);
      if converted.Failure? {
        objects := before;
        return Fail(converted.error);
      }
      var row := converted.value;
      if row.objectId !in objects {
        objects := before;
        return Fail(ForeignKeyViolation);
      }
      expirations := expirations[row.objectId := row];
      return Pass;
    }

    method DeleteByIds(ids: seq<Address>)
      requires Valid()
      modifies this
      ensures Valid()
      ensures State() == Delete(old(State()), set x | x in ids)
    {
      var doomed := set x | x in ids;
      var children := objects.Keys * doomed;
      objects := objects - doomed;
      expirations := expirations - children;
    }
  }
}
