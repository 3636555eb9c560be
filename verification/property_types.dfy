/** The property-type schema: one entry per type definition of the store,
    keyed by its parent's CloudFormation type and its own name, plus the fixed
    `CfnTag` entry. */
module PropertyTypes {
  import opened Wrappers
  import opened Strings
  import opened Records
  import opened SchemaTypes
  import opened Database
  import opened Constants
  import opened Common

  /** `createStringProperty`: a required string property. */
  function CreateStringProperty(name: string): (p: PropertySpec)
    ensures p.name == name && p.valueType == Primitive(String) && p.required == Some(true)
  {
    PropertySpec(name, Primitive(String), Some(true))
  }

  /** The key of a type definition: the parent's type, '.', the type's name and
      the suffix "Property". */
  function PropertyTypeKey(parent: Resource, t: TypeDefinition): (r: string) {
    parent.cloudFormationType + "." + t.name + "Property"
  }

  /** The fixed tag entry: core bindings named `CfnTag` and two required string
      properties `Key` and `Value`, in that order. */
  function CfnTagEntry(): (e: PropertyType)
    ensures e.name == GenerateCoreBindings(CfnTag)
    ensures e.properties.Valid() && KeysSorted(e.properties)
    ensures e.properties.keys == ["Key", "Value"]
    ensures forall k :: k in e.properties.values ==>
      e.properties.values[k] == PropertySpec(k, Primitive(String), Some(true))
  {
    var props := Record(["Key", "Value"], map["Key" := CreateStringProperty("Key"), "Value" := CreateStringProperty("Value")]);
    assert StringLe("Key", "Value");
    PropertyType(GenerateCoreBindings(CfnTag), props)
  }

  /** The entry of one type definition under its key. The parent is looked up
      first, then its service, then the properties are mapped against the
      parent's type, so the first of these that fails decides the error. */
  function PropertyTypeEntry(db: Db, t: TypeDefinition): (r: Result<(string, PropertyType), Error>)
    requires t.properties.Valid()
    ensures r.Success? <==>
      && db.parentOf(t).Some?
      && db.serviceOf(db.parentOf(t).value).Some?
      && ItemsResolve(t.properties, db.parentOf(t).value.cloudFormationType, db.refName)
    ensures db.parentOf(t).None? ==> r == Failure(ParentNotFound(t.name))
    ensures db.parentOf(t).Some? && db.serviceOf(db.parentOf(t).value).None? ==>
      r == Failure(ServiceNotFound(db.parentOf(t).value.name))
    ensures && db.parentOf(t).Some?
            && db.serviceOf(db.parentOf(t).value).Some?
            && !ItemsResolve(t.properties, db.parentOf(t).value.cloudFormationType, db.refName)
      ==>
      r == Failure(MapPropertiesToSchema(t.properties, db.parentOf(t).value.cloudFormationType, db.refName).error)
    ensures r.Success? ==>
      var parent := db.parentOf(t).value;
      && r.value.0 == PropertyTypeKey(parent, t)
      && r.value.1.name == GenerateBindings(db.serviceOf(parent).value, Cfn + parent.name + "." + t.name + "Property")
      && r.value.1.properties == MapPropertiesToSchema(t.properties, parent.cloudFormationType, db.refName).value
  {
    var parent :- GetParentResource(db, t);
    var propertyName := t.name + "Property";
    var service :- GetService(db, parent);
    var properties :- MapPropertiesToSchema(t.properties, parent.cloudFormationType, db.refName);
    assert parent.cloudFormationType + "." + propertyName == PropertyTypeKey(parent, t);
    assert Cfn + parent.name + "." + propertyName == Cfn + parent.name + "." + t.name + "Property";
    Success((PropertyTypeKey(parent, t), PropertyType(GenerateBindings(service, Cfn + parent.name + "." + propertyName), properties)))
  }

  /** The entries of all type definitions, in the store's order. */
  function PropertyTypeEntries(db: Db): (es: seq<Result<(string, PropertyType), Error>>)
    requires ValidDb(db)
    ensures |es| == |db.types|
    ensures forall i :: 0 <= i < |es| ==> es[i] == PropertyTypeEntry(db, db.types[i])
  {
    seq(|db.types|, i requires 0 <= i < |db.types| => PropertyTypeEntry(db, db.types[i]))
  }

  /** `generatePropertyTypesSchema`: every entry assigned under its key in the
      store's order, then the tag entry assigned under `CfnTag`, then everything
      enumerated in ascending key order. The first type definition without an
      entry aborts it. */
  function GeneratePropertyTypesSchema(db: Db): (r: Result<PropertyTypeSchema, Error>)
    requires ValidDb(db)
    ensures r.Success? <==> forall i :: 0 <= i < |db.types| ==> PropertyTypeEntry(db, db.types[i]).Success?
    ensures r.Failure? ==> FirstFailure(PropertyTypeEntries(db), |db.types|, r.error)
    ensures r.Success? ==> r.value.Valid() && KeysSorted(r.value)
    ensures r.Success? ==> CfnTag in r.value.values && r.value.values[CfnTag] == CfnTagEntry()
  {
    var entries := PropertyTypeEntries(db);
    assert AllSucceed(entries, |entries|) <==> forall i :: 0 <= i < |db.types| ==> PropertyTypeEntry(db, db.types[i]).Success?;
    var collected :- AssignAll(entries, |entries|);
    Success(SortSchema(Put(collected, CfnTag, CfnTagEntry())))
  }

  /** No key of a type definition is `CfnTag`: every such key contains '.'. */
  lemma PropertyTypeKeyIsNotCfnTag(parent: Resource, t: TypeDefinition)
    ensures PropertyTypeKey(parent, t) != CfnTag
    ensures '.' in PropertyTypeKey(parent, t)
  {
    var key := PropertyTypeKey(parent, t);
    assert key[|parent.cloudFormationType|] == '.';
    assert '.' !in CfnTag;
  }

  /** The schema holds `CfnTag` and exactly the keys of the type definitions. */
  lemma PropertyTypesSchemaKeys(db: Db)
    requires ValidDb(db) && forall i :: 0 <= i < |db.types| ==> PropertyTypeEntry(db, db.types[i]).Success?
    ensures forall k :: k in GeneratePropertyTypesSchema(db).value.values <==>
      k == CfnTag || exists i :: 0 <= i < |db.types| && PropertyTypeEntry(db, db.types[i]).value.0 == k
  {
    SchemaOfEntries(db);
    TaggingKeys(PropertyTypeEntries(db));
    EntriesListTypeKeys(db);
  }

  /** The entries list exactly the keys of the type definitions. */
  lemma EntriesListTypeKeys(db: Db)
    requires ValidDb(db) && forall i :: 0 <= i < |db.types| ==> PropertyTypeEntry(db, db.types[i]).Success?
    ensures AllSucceed(PropertyTypeEntries(db), |db.types|)
    ensures forall k :: KeyListed(PropertyTypeEntries(db), |db.types|, k) <==>
      exists i :: 0 <= i < |db.types| && PropertyTypeEntry(db, db.types[i]).value.0 == k
  {
    var entries := PropertyTypeEntries(db);
    forall i | 0 <= i < |db.types| ensures entries[i].value.0 == PropertyTypeEntry(db, db.types[i]).value.0 {
    }
  }

  /** The schema is the tagged, sorted object of the entries. */
  lemma SchemaOfEntries(db: Db)
    requires ValidDb(db) && forall i :: 0 <= i < |db.types| ==> PropertyTypeEntry(db, db.types[i]).Success?
    ensures AllSucceed(PropertyTypeEntries(db), |db.types|)
    ensures forall i :: 0 <= i < |db.types| ==> PropertyTypeEntries(db)[i].value.0 != CfnTag
    ensures GeneratePropertyTypesSchema(db).value ==
      SortSchema(Put(AssignAll(PropertyTypeEntries(db), |db.types|).value, CfnTag, CfnTagEntry()))
  {
    forall i | 0 <= i < |db.types| ensures PropertyTypeEntries(db)[i].value.0 != CfnTag {
      PropertyTypeKeyIsNotCfnTag(db.parentOf(db.types[i]).value, db.types[i]);
    }
  }

  lemma TaggingKeys(entries: seq<Result<(string, PropertyType), Error>>)
    requires AllSucceed(entries, |entries|)
    ensures var tagged := SortSchema(Put(AssignAll(entries, |entries|).value, CfnTag, CfnTagEntry()));
      forall k :: k in tagged.values <==> k == CfnTag || KeyListed(entries, |entries|, k)
  {
    AssignAllKeys(entries, |entries|);
  }

  /** Under each key is the entry of the last type definition with that key. */
  lemma PropertyTypesSchemaLastWins(db: Db, i: nat)
    requires ValidDb(db) && forall i :: 0 <= i < |db.types| ==> PropertyTypeEntry(db, db.types[i]).Success?
    requires i < |db.types|
    requires forall j :: i < j < |db.types| ==>
      PropertyTypeEntry(db, db.types[j]).value.0 != PropertyTypeEntry(db, db.types[i]).value.0
    ensures PropertyTypeEntry(db, db.types[i]).value.0 in GeneratePropertyTypesSchema(db).value.values
    ensures GeneratePropertyTypesSchema(db).value.values[PropertyTypeEntry(db, db.types[i]).value.0] ==
      PropertyTypeEntry(db, db.types[i]).value.1
  {
    var entries := PropertyTypeEntries(db);
    SchemaOfEntries(db);
    assert LastOfKey(entries, |entries|, i);
    TaggingKeepsEntry(entries, i);
  }

  lemma TaggingKeepsEntry(entries: seq<Result<(string, PropertyType), Error>>, i: nat)
    requires AllSucceed(entries, |entries|) && i < |entries|
    requires LastOfKey(entries, |entries|, i) && entries[i].value.0 != CfnTag
    ensures var tagged := SortSchema(Put(AssignAll(entries, |entries|).value, CfnTag, CfnTagEntry()));
      entries[i].value.0 in tagged.values && tagged.values[entries[i].value.0] == entries[i].value.1
  {
    AssignAllLastWins(entries, |entries|);
  }

  /** Type definitions with pairwise different keys give one schema entry each,
      plus the tag entry. */
  lemma PropertyTypesSchemaSize(db: Db)
    requires ValidDb(db) && forall i :: 0 <= i < |db.types| ==> PropertyTypeEntry(db, db.types[i]).Success?
    requires forall i, j :: 0 <= i < j < |db.types| ==>
      PropertyTypeEntry(db, db.types[i]).value.0 != PropertyTypeEntry(db, db.types[j]).value.0
    ensures |GeneratePropertyTypesSchema(db).value.keys| == |db.types| + 1
  {
    var entries := PropertyTypeEntries(db);
    SchemaOfEntries(db);
    assert DistinctKeys(entries, |entries|);
    TaggingSize(entries);
  }

  lemma TaggingSize(entries: seq<Result<(string, PropertyType), Error>>)
    requires AllSucceed(entries, |entries|) && DistinctKeys(entries, |entries|)
    requires forall i :: 0 <= i < |entries| ==> entries[i].value.0 != CfnTag
    ensures |SortSchema(Put(AssignAll(entries, |entries|).value, CfnTag, CfnTagEntry())).keys| == |entries| + 1
  {
    AssignAllDistinctSize(entries, |entries|);
    AssignAllKeys(entries, |entries|);
    var collected := AssignAll(entries, |entries|).value;
    assert CfnTag !in collected.values;
    var tagged := Put(collected, CfnTag, CfnTagEntry());
    assert |multiset(SortSchema(tagged).keys)| == |multiset(tagged.keys)|;
  }

  /** With every parent type starting with 'A', as "AWS::" and "Alexa::" types
      do, the tag entry is enumerated last. */
  lemma CfnTagEnumeratedLast(db: Db)
    requires ValidDb(db) && forall i :: 0 <= i < |db.types| ==> PropertyTypeEntry(db, db.types[i]).Success?
    requires forall i :: 0 <= i < |db.types| && db.parentOf(db.types[i]).Some? ==>
      var cfnType := db.parentOf(db.types[i]).value.cloudFormationType;
      |cfnType| > 0 && cfnType[0] == 'A'
    ensures var keys := GeneratePropertyTypesSchema(db).value.keys;
      |keys| > 0 && keys[|keys| - 1] == CfnTag
  {
    var schema := GeneratePropertyTypesSchema(db).value;
    PropertyTypesSchemaKeys(db);
    var tag := CfnTag;
    assert |tag| > 0 && tag[0] == 'C';
    forall k | k in schema.values && k != tag ensures |k| > 0 && k[0] < tag[0] {
      var i :| 0 <= i < |db.types| && PropertyTypeEntry(db, db.types[i]).value.0 == k;
      assert k == PropertyTypeKey(db.parentOf(db.types[i]).value, db.types[i]);
    }
    TagSortsLast(schema, tag);
  }

  /** In a sorted object whose other keys all start with a letter before the
      first letter of `tag`, `tag` is last. */
  lemma TagSortsLast<T>(r: Record<T>, tag: string)
    requires r.Valid() && KeysSorted(r) && tag in r.values && |tag| > 0
    requires forall k :: k in r.values && k != tag ==> |k| > 0 && k[0] < tag[0]
    ensures |r.keys| > 0 && r.keys[|r.keys| - 1] == tag
  {
    var keys := r.keys;
    var p :| 0 <= p < |keys| && keys[p] == tag;
    var last := keys[|keys| - 1];
    assert last in r.values;
    SortedPair(r, p, |keys| - 1, tag, last);
    NothingAfterTag(tag, last);
  }

  /** In a sorted object, a key is at most every key at or after it. */
  lemma SortedPair<T>(r: Record<T>, i: nat, j: nat, a: string, b: string)
    requires KeysSorted(r) && i <= j < |r.keys| && a == r.keys[i] && b == r.keys[j]
    ensures StringLe(a, b)
  {
    if i == j {
      StringLeTotal(a, b);
    }
  }

  /** No key that starts with a letter before the first letter of `tag` may
      follow `tag`. */
  lemma NothingAfterTag(tag: string, k: string)
    requires StringLe(tag, k) && |tag| > 0
    requires k != tag ==> |k| > 0 && k[0] < tag[0]
    ensures k == tag
  {
  }
}
