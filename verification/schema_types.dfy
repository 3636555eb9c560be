/** The shapes of the two generated schemas: normalised value types, attribute
    and property specs, per-language bindings and the entries of both maps. */
module SchemaTypes {
  import opened Wrappers
  import opened Records

  /** The primitive vocabulary of the code-generation library, by the string each
      one is written as in the schema: "string", "boolean", "number",
      "date-time", "json", "any" and "undefined". */
  datatype PrimitiveType = String | Boolean | Number | DateTime | Json | Any | Undefined

  /** A normalised value type; each constructor's field is named after the JSON
      key it is written under. */
  datatype ValueType =
    | Primitive(primitive: PrimitiveType)
    | ListOf(listOf: ValueType)
    | MapOf(mapOf: ValueType)
    | Named(named: string)
    | UnionOf(unionOf: seq<ValueType>)

  /** An attribute has no `required` field at all. */
  datatype AttributeSpec = AttributeSpec(name: string, valueType: ValueType)

  /** A property is an attribute plus an optional boolean `required`; `None` is
      the absent key. */
  datatype PropertySpec = PropertySpec(name: string, valueType: ValueType, required: Option<bool>)

  /** `{module, name}` (TypeScript, Python); `module` is a Dafny keyword. */
  datatype ModuleBinding = ModuleBinding(moduleName: string, name: string)

  /** `{namespace, name}` (C#). */
  datatype NamespaceBinding = NamespaceBinding(namespace: string, name: string)

  /** `{module, package, name}` (Go). */
  datatype GoBinding = GoBinding(moduleName: string, packageName: string, name: string)

  /** `{package, name}` (Java). */
  datatype PackageBinding = PackageBinding(packageName: string, name: string)

  /** One entry per target language, exactly these five. */
  datatype Bindings = Bindings(
    typescript: ModuleBinding,
    csharp: NamespaceBinding,
    golang: GoBinding,
    java: PackageBinding,
    python: ModuleBinding)

  /** An entry of the property-type schema. */
  datatype PropertyType = PropertyType(name: Bindings, properties: Record<PropertySpec>)

  /** An entry of the resource schema; `attributes` is optional in the type. */
  datatype ResourceType = ResourceType(
    construct: Bindings,
    attributes: Option<Record<AttributeSpec>>,
    properties: Record<PropertySpec>)

  type ResourceSchema = Record<ResourceType>
  type PropertyTypeSchema = Record<PropertyType>
}
