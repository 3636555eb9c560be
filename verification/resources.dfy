/** The resource schema: one entry per resource of the store, keyed by its
    CloudFormation type. */
module Resources {
  import opened Wrappers
  import opened Records
  import opened SchemaTypes
  import opened Database
  import opened Constants
  import opened Common

  /** The entry of one resource under its CloudFormation type. The owning
      service is looked up first, then the attributes and then the properties
      are mapped, so the first of these that fails decides the error. */
  function ResourceEntry(db: Db, resource: Resource): (r: Result<(string, ResourceType), Error>)
    requires resource.attributes.Valid() && resource.properties.Valid()
    ensures r.Success? <==>
      && db.serviceOf(resource).Some?
      && ItemsResolve(resource.attributes, resource.cloudFormationType, db.refName)
      && ItemsResolve(resource.properties, resource.cloudFormationType, db.refName)
    ensures db.serviceOf(resource).None? ==> r == Failure(ServiceNotFound(resource.name))
    ensures db.serviceOf(resource).Some? && !ItemsResolve(resource.attributes, resource.cloudFormationType, db.refName) ==>
      r == Failure(MapAttributesToSchema(resource.attributes, resource.cloudFormationType, db.refName).error)
    ensures && db.serviceOf(resource).Some?
            && ItemsResolve(resource.attributes, resource.cloudFormationType, db.refName)
            && !ItemsResolve(resource.properties, resource.cloudFormationType, db.refName)
      ==>
      r == Failure(MapPropertiesToSchema(resource.properties, resource.cloudFormationType, db.refName).error)
    ensures r.Success? ==>
      && r.value.0 == resource.cloudFormationType
      && r.value.1.construct == GenerateBindings(db.serviceOf(resource).value, Cfn + resource.name)
      && r.value.1.attributes == Some(MapAttributesToSchema(resource.attributes, resource.cloudFormationType, db.refName).value)
      && r.value.1.properties == MapPropertiesToSchema(resource.properties, resource.cloudFormationType, db.refName).value
  {
    var cfnType := resource.cloudFormationType;
    var service :- GetService(db, resource);
    var attributes :- MapAttributesToSchema(resource.attributes, cfnType, db.refName);
    var properties :- MapPropertiesToSchema(resource.properties, cfnType, db.refName);
    Success((cfnType, ResourceType(GenerateBindings(service, Cfn + resource.name), Some(attributes), properties)))
  }

  /** The entries of all resources, in the store's order. */
  function ResourceEntries(db: Db): (es: seq<Result<(string, ResourceType), Error>>)
    requires ValidDb(db)
    ensures |es| == |db.resources|
    ensures forall i :: 0 <= i < |es| ==> es[i] == ResourceEntry(db, db.resources[i])
  {
    seq(|db.resources|, i requires 0 <= i < |db.resources| => ResourceEntry(db, db.resources[i]))
  }

  /** `generateResourceSchema`: every entry assigned under its type in the
      store's order, so a later resource of the same type replaces an earlier
      one, then enumerated in ascending type order. The first resource without
      an entry aborts it. */
  function GenerateResourceSchema(db: Db): (r: Result<ResourceSchema, Error>)
    requires ValidDb(db)
    ensures r.Success? <==> forall i :: 0 <= i < |db.resources| ==> ResourceEntry(db, db.resources[i]).Success?
    ensures r.Failure? ==> FirstFailure(ResourceEntries(db), |db.resources|, r.error)
    ensures r.Success? ==> r.value.Valid() && KeysSorted(r.value)
  {
    var entries := ResourceEntries(db);
    assert AllSucceed(entries, |entries|) <==> forall i :: 0 <= i < |db.resources| ==> ResourceEntry(db, db.resources[i]).Success?;
    var collected :- AssignAll(entries, |entries|);
    Success(SortSchema(collected))
  }

  /** The schema holds exactly the types of the store's resources. */
  lemma ResourceSchemaKeys(db: Db)
    requires ValidDb(db) && forall i :: 0 <= i < |db.resources| ==> ResourceEntry(db, db.resources[i]).Success?
    ensures forall k :: k in GenerateResourceSchema(db).value.values <==>
      exists i :: 0 <= i < |db.resources| && db.resources[i].cloudFormationType == k
  {
    var entries := ResourceEntries(db);
    EntryKeys(db);
    AssignAllKeys(entries, |entries|);
  }

  /** Every entry succeeds and sits under its resource's type. */
  lemma EntryKeys(db: Db)
    requires ValidDb(db) && forall i :: 0 <= i < |db.resources| ==> ResourceEntry(db, db.resources[i]).Success?
    ensures AllSucceed(ResourceEntries(db), |db.resources|)
    ensures forall i :: 0 <= i < |db.resources| ==>
      ResourceEntries(db)[i].value.0 == db.resources[i].cloudFormationType
    ensures GenerateResourceSchema(db).value == SortSchema(AssignAll(ResourceEntries(db), |db.resources|).value)
  {
  }

  /** Under each type is the entry of the last resource of that type. */
  lemma ResourceSchemaLastWins(db: Db, i: nat)
    requires ValidDb(db) && forall i :: 0 <= i < |db.resources| ==> ResourceEntry(db, db.resources[i]).Success?
    requires i < |db.resources|
    requires forall j :: i < j < |db.resources| ==> db.resources[j].cloudFormationType != db.resources[i].cloudFormationType
    ensures db.resources[i].cloudFormationType in GenerateResourceSchema(db).value.values
    ensures GenerateResourceSchema(db).value.values[db.resources[i].cloudFormationType] ==
      ResourceEntry(db, db.resources[i]).value.1
  {
    var entries := ResourceEntries(db);
    EntryKeys(db);
    assert LastOfKey(entries, |entries|, i);
    AssignAllLastWins(entries, |entries|);
  }

  /** Resources of pairwise different types give one schema entry each. */
  lemma ResourceSchemaSize(db: Db)
    requires ValidDb(db) && forall i :: 0 <= i < |db.resources| ==> ResourceEntry(db, db.resources[i]).Success?
    requires forall i, j :: 0 <= i < j < |db.resources| ==>
      db.resources[i].cloudFormationType != db.resources[j].cloudFormationType
    ensures |GenerateResourceSchema(db).value.keys| == |db.resources|
  {
    var entries := ResourceEntries(db);
    EntryKeys(db);
    assert DistinctKeys(entries, |entries|);
    AssignAllDistinctSize(entries, |entries|);
    var collected := AssignAll(entries, |entries|).value;
    assert |multiset(SortSchema(collected).keys)| == |multiset(collected.keys)|;
  }
}
