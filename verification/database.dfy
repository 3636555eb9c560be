/** The read-only service specification the generator consumes, reduced to the
    entities it reads and the lookups it performs. The store itself, its loading
    and its relation queries are abstract: the lookups are given as functions. */
module Database {
  import opened Wrappers
  import opened Records

  /** A raw value-type descriptor of the specification. A union whose `types`
      array is absent is its own constructor, `BareUnionType`; every kind the
      generator does not recognise is an `UnknownType`. */
  datatype RawType =
    | StringType
    | BooleanType
    | NumberType
    | IntegerType
    | DateTimeType
    | JsonType
    | NullType
    | TagType
    | RefType(reference: string)
    | ArrayType(element: Option<RawType>)
    | MapType(element: Option<RawType>)
    | UnionType(types: seq<RawType>)
    | BareUnionType
    | UnknownType(kind: string)

  /** An attribute or property of the specification: its current descriptor, the
      descriptors of earlier versions (empty when absent) and, for properties,
      the optional `required` flag (always `None` for attributes). */
  datatype RawItem = RawItem(rawType: RawType, previousTypes: seq<RawType>, required: Option<bool>)

  datatype Service = Service(name: string, capitalized: string, cloudFormationNamespace: string)

  datatype Resource = Resource(
    name: string,
    cloudFormationType: string,
    attributes: Record<RawItem>,
    properties: Record<RawItem>)

  datatype TypeDefinition = TypeDefinition(name: string, properties: Record<RawItem>)

  /** Why a build was aborted. */
  datatype Error =
    | ReferenceNotFound(reference: string)
    | ArrayWithoutElement
    | MapWithoutElement
    | UnionWithoutTypes
    | ServiceNotFound(resourceName: string)
    | ParentNotFound(typeName: string)

  /** The store: every resource, every type definition, and the three lookups.
      `serviceOf` and `parentOf` yield the single entity at the end of the
      incoming relation, or `None` when there is not exactly one; `refName`
      yields the name of the referenced type definition, if it has one. */
  datatype Db = Db(
    resources: seq<Resource>,
    types: seq<TypeDefinition>,
    serviceOf: Resource -> Option<Service>,
    parentOf: TypeDefinition -> Option<Resource>,
    refName: string -> Option<string>)

  /** The object shapes the store guarantees for every entity it lists. */
  ghost predicate ValidDb(db: Db) {
    && (forall i :: 0 <= i < |db.resources| ==>
          db.resources[i].attributes.Valid() && db.resources[i].properties.Valid())
    && (forall i :: 0 <= i < |db.types| ==> db.types[i].properties.Valid())
  }

  /** The owning service of a resource, or `ServiceNotFound` naming the resource. */
  function GetService(db: Db, resource: Resource): (r: Result<Service, Error>)
    ensures r.Success? <==> db.serviceOf(resource).Some?
    ensures r.Success? ==> r.value == db.serviceOf(resource).value
    ensures r.Failure? ==> r.error == ServiceNotFound(resource.name)
  {
    match db.serviceOf(resource)
    case Some(s) => Success(s)
    case None => Failure(ServiceNotFound(resource.name))
  }

  /** The owning resource of a type definition, or `ParentNotFound` naming the type. */
  function GetParentResource(db: Db, t: TypeDefinition): (r: Result<Resource, Error>)
    ensures r.Success? <==> db.parentOf(t).Some?
    ensures r.Success? ==> r.value == db.parentOf(t).value
    ensures r.Failure? ==> r.error == ParentNotFound(t.name)
  {
    match db.parentOf(t)
    case Some(p) => Success(p)
    case None => Failure(ParentNotFound(t.name))
  }
}
