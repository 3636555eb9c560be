/** The `Type` wrapper of the code-generation library's value types and its union
    helpers. A type's string representation, by which unions are ordered and
    deduplicated, is a parameter `key`: the class does not define its own, so it
    is the inherited object one. */
module Types {
  import opened Wrappers
  import opened Sorting
  import SchemaTypes

  datatype Type = Type(spec: TypeSpec)

  /** `{elementType}` of a list or map type. */
  datatype ElementOf = ElementOf(elementType: Type)

  /** One variant per key of the value-type union; each field is named after its key. */
  datatype TypeSpec =
    | PrimitiveSpec(primitive: SchemaTypes.PrimitiveType)
    | ListOfSpec(listOf: ElementOf)
    | MapOfSpec(mapOf: ElementOf)
    | NamedSpec(named: string)
    | UnionOfSpec(unionOf: seq<Type>)

  const AnyType := Type(PrimitiveSpec(SchemaTypes.Any))
  const DateTimeType := Type(PrimitiveSpec(SchemaTypes.DateTime))
  const StringType := Type(PrimitiveSpec(SchemaTypes.String))
  const NumberType := Type(PrimitiveSpec(SchemaTypes.Number))
  const BooleanType := Type(PrimitiveSpec(SchemaTypes.Boolean))
  const UndefinedType := Type(PrimitiveSpec(SchemaTypes.Undefined))
  const JsonType := Type(PrimitiveSpec(SchemaTypes.Json))

  function ListOf(elementType: Type): (r: Type) {
    Type(ListOfSpec(ElementOf(elementType)))
  }

  function MapOf(elementType: Type): (r: Type) {
    Type(MapOfSpec(ElementOf(elementType)))
  }

  function Named(name: string): (r: Type) {
    Type(NamedSpec(name))
  }

  /** `isUnionSpec`: the spec has a `unionOf` key. An array is truthy even when
      empty, so a union without members is still a union. */
  predicate IsUnionSpec(spec: TypeSpec) {
    spec.UnionOfSpec?
  }

  /** `unionOfTypes`: the members of a union type, and nothing for any other type. */
  function UnionOfTypes(t: Type): (r: Option<seq<Type>>)
    ensures r.Some? <==> IsUnionSpec(t.spec)
    ensures r.Some? ==> r.value == t.spec.unionOf
  {
    if IsUnionSpec(t.spec) then Some(t.spec.unionOf) else None
  }

  /** `unionOf`: a union of the given types, reordered by their keys under the
      comparator `before`. */
  function UnionOf(types: seq<Type>, key: Type -> string, before: (string, string) -> bool): (t: Type)
    requires Total(before) && Transitive(before)
    ensures IsUnionSpec(t.spec)
    ensures multiset(t.spec.unionOf) == multiset(types)
    ensures SortedBy(t.spec.unionOf, key, before)
  {
    Type(UnionOfSpec(SortBy(types, key, before)))
  }

  /** What one argument of `distinctUnionOf` contributes to the flattening:
      the members of a union, or the argument itself. */
  predicate Contributes(t: Type, x: Type) {
    if IsUnionSpec(t.spec) then x in t.spec.unionOf else x == t
  }

  /** The `flatMap` of `distinctUnionOf`: each union argument is replaced by its
      members, every other argument is kept. */
  function Flatten(types: seq<Type>): (r: seq<Type>) {
    if |types| == 0 then []
    else
      var head := match UnionOfTypes(types[0]) case Some(members) => members case None => [types[0]];
      head + Flatten(types[1..])
  }

  /** An element is in the flattening exactly when some argument contributes it. */
  lemma {:induction false} FlattenMembers(types: seq<Type>, x: Type)
    ensures x in Flatten(types) <==> exists i :: 0 <= i < |types| && Contributes(types[i], x)
    decreases |types|
  {
    if |types| > 0 {
      FlattenMembers(types[1..], x);
      var head := if IsUnionSpec(types[0].spec) then types[0].spec.unionOf else [types[0]];
      assert Flatten(types) == head + Flatten(types[1..]);
      assert x in head <==> Contributes(types[0], x);
      if exists i :: 0 < i < |types| && Contributes(types[i], x) {
        var i :| 0 < i < |types| && Contributes(types[i], x);
        assert Contributes(types[1..][i - 1], x);
      }
      if exists i :: 0 <= i < |types| - 1 && Contributes(types[1..][i], x) {
        var i :| 0 <= i < |types| - 1 && Contributes(types[1..][i], x);
        assert Contributes(types[i + 1], x);
      }
    }
  }

  /** Without union arguments the flattening changes nothing. */
  lemma {:induction false} FlattenWithoutUnions(types: seq<Type>)
    requires forall i :: 0 <= i < |types| ==> !IsUnionSpec(types[i].spec)
    ensures Flatten(types) == types
    decreases |types|
  {
    if |types| > 0 {
      FlattenWithoutUnions(types[1..]);
      assert types == [types[0]] + types[1..];
    }
  }

  /** The keys of the elements of `s`. */
  ghost function KeysOf<K>(s: seq<Type>, key: Type -> K): (r: set<K>) {
    set x | x in s :: key(x)
  }

  /** `xs[i]` is the first element of `xs` with its key, and that key is not in `seen`. */
  ghost predicate FirstOfKey<K>(xs: seq<Type>, key: Type -> K, seen: set<K>, i: nat)
    requires i < |xs|
  {
    key(xs[i]) !in seen && forall j :: 0 <= j < i ==> key(xs[j]) != key(xs[i])
  }

  /** The filter of `distinctUnionOf`: an element is kept when its key has not
      been seen, and its key is then seen. */
  function Unique<K>(xs: seq<Type>, key: Type -> K, seen: set<K>): (r: seq<Type>)
    ensures forall x :: x in r ==> x in xs
    ensures forall i, j :: 0 <= i < j < |r| ==> key(r[i]) != key(r[j])
    ensures KeysOf(r, key) == KeysOf(xs, key) - seen
  {
    if |xs| == 0 then []
    else
      var k := key(xs[0]);
      assert KeysOf(xs, key) == {k} + KeysOf(xs[1..], key) by {
        assert forall x :: x in xs <==> x == xs[0] || x in xs[1..];
      }
      if k in seen then
        Unique(xs[1..], key, seen)
      else
        var rest := Unique(xs[1..], key, seen + {k});
        assert forall x :: x in [xs[0]] + rest <==> x == xs[0] || x in rest;
        assert KeysOf([xs[0]] + rest, key) == {k} + KeysOf(rest, key);
        assert forall i :: 0 <= i < |rest| ==> key(rest[i]) in KeysOf(rest, key);
        [xs[0]] + rest
  }

  /** `Unique` keeps exactly the first element of each key not in `seen`. */
  lemma {:induction false} UniqueKeepsFirst<K>(xs: seq<Type>, key: Type -> K, seen: set<K>)
    ensures forall i :: 0 <= i < |xs| && FirstOfKey(xs, key, seen, i) ==> xs[i] in Unique(xs, key, seen)
    ensures forall x :: x in Unique(xs, key, seen) ==>
      exists i :: 0 <= i < |xs| && FirstOfKey(xs, key, seen, i) && xs[i] == x
    decreases |xs|
  {
    if |xs| > 0 {
      var k := key(xs[0]);
      var seen' := if k in seen then seen else seen + {k};
      var tail := xs[1..];
      UniqueKeepsFirst(tail, key, seen');
      var r := Unique(xs, key, seen);
      var rest := Unique(tail, key, seen');
      assert r == if k in seen then rest else [xs[0]] + rest;
      forall i | 0 < i < |xs| && FirstOfKey(xs, key, seen, i) ensures xs[i] in r {
        assert key(xs[i]) != k;
        forall j | 0 <= j < i - 1 ensures key(tail[j]) != key(tail[i - 1]) {
          assert tail[j] == xs[j + 1];
        }
        assert FirstOfKey(tail, key, seen', i - 1);
      }
      forall x | x in rest ensures exists i :: 0 <= i < |xs| && FirstOfKey(xs, key, seen, i) && xs[i] == x {
        var i :| 0 <= i < |tail| && FirstOfKey(tail, key, seen', i) && tail[i] == x;
        forall j | 0 <= j < i + 1 ensures key(xs[j]) != key(xs[i + 1]) {
          if j > 0 {
            assert xs[j] == tail[j - 1];
          }
        }
        assert FirstOfKey(xs, key, seen, i + 1);
      }
      if k !in seen {
        assert FirstOfKey(xs, key, seen, 0);
      }
    }
  }

  /** The keys a fresh object literal answers `in` for: the properties it
      inherits from `Object.prototype` (section 20.1.3 of ECMA-262 and its
      annex B). */
  const PrototypeKeys: set<string> := {
    "constructor", "hasOwnProperty", "isPrototypeOf", "propertyIsEnumerable",
    "toLocaleString", "toString", "valueOf",
    "__defineGetter__", "__defineSetter__", "__lookupGetter__", "__lookupSetter__", "__proto__" }

  /** `distinctUnionOf`: the arguments flattened one level, the first of each key
      kept, and the result ordered as by `unionOf`. A key a fresh object already
      has is taken as seen. */
  function DistinctUnionOf(types: seq<Type>, key: Type -> string, before: (string, string) -> bool): (t: Type)
    requires Total(before) && Transitive(before)
    ensures IsUnionSpec(t.spec)
    ensures SortedBy(t.spec.unionOf, key, before)
    ensures forall i, j :: 0 <= i < j < |t.spec.unionOf| ==> key(t.spec.unionOf[i]) != key(t.spec.unionOf[j])
    ensures forall x :: x in t.spec.unionOf ==> x in Flatten(types)
    ensures KeysOf(t.spec.unionOf, key) == KeysOf(Flatten(types), key) - PrototypeKeys
    ensures var flat := Flatten(types);
      forall i :: 0 <= i < |flat| && FirstOfKey(flat, key, PrototypeKeys, i) ==> flat[i] in t.spec.unionOf
    ensures var flat := Flatten(types);
      forall x :: x in t.spec.unionOf ==> exists i :: 0 <= i < |flat| && FirstOfKey(flat, key, PrototypeKeys, i) && flat[i] == x
  {
    UniqueKeepsFirst(Flatten(types), key, PrototypeKeys);
    var unique := Unique(Flatten(types), key, PrototypeKeys);
    var t := UnionOf(unique, key, before);
    assert forall x :: x in t.spec.unionOf <==> x in unique by {
      forall x ensures x in t.spec.unionOf <==> x in unique {
        assert x in t.spec.unionOf <==> x in multiset(t.spec.unionOf);
      }
    }
    assert KeysOf(t.spec.unionOf, key) == KeysOf(unique, key);
    PermutationKeepsDistinctKeys(unique, t.spec.unionOf, key);
    t
  }

  /** Keys pairwise different in `a` stay so in any rearrangement of `a`. */
  lemma PermutationKeepsDistinctKeys<K>(a: seq<Type>, b: seq<Type>, key: Type -> K)
    requires multiset(a) == multiset(b)
    requires forall i, j :: 0 <= i < j < |a| ==> key(a[i]) != key(a[j])
    ensures forall i, j :: 0 <= i < j < |b| ==> key(b[i]) != key(b[j])
  {
    forall i, j | 0 <= i < j < |b| ensures key(b[i]) != key(b[j]) {
      var bi := IndexIn(a, b[i]);
      var bj := IndexIn(a, b[j]);
      if bi == bj {
        assert b == b[..j] + [b[j]] + b[j + 1..];
        assert b[i] in b[..j];
        assert multiset(a)[b[i]] >= 2;
        CountsOnce(a, b[i], key);
      }
    }
  }

  /** An index of an element that occurs in `s`. */
  function IndexIn(s: seq<Type>, x: Type): (i: nat)
    requires x in multiset(s)
    ensures i < |s| && s[i] == x
  {
    if s[0] == x then 0
    else
      assert s == [s[0]] + s[1..];
      1 + IndexIn(s[1..], x)
  }

  lemma {:induction false} CountsOnce<K>(s: seq<Type>, x: Type, key: Type -> K)
    requires forall i, j :: 0 <= i < j < |s| ==> key(s[i]) != key(s[j])
    ensures multiset(s)[x] <= 1
    decreases |s|
  {
    if |s| > 0 {
      assert s == [s[0]] + s[1..];
      CountsOnce(s[1..], x, key);
      if s[0] == x {
        assert x !in s[1..];
      }
    }
  }

  // ---------------------------------------------------------------------------
  // Properties

  /** List and map types keep their element type, are told apart by their kind,
      and are not unions. */
  lemma ContainerTypes(e: Type, f: Type)
    ensures ListOf(e).spec.listOf.elementType == e && MapOf(e).spec.mapOf.elementType == e
    ensures ListOf(e) == ListOf(f) <==> e == f
    ensures MapOf(e) == MapOf(f) <==> e == f
    ensures ListOf(e) != MapOf(f)
    ensures UnionOfTypes(ListOf(e)).None? && UnionOfTypes(MapOf(e)).None? && UnionOfTypes(Named("x")).None?
  {
  }

  /** The representation every `Type` inherits from the base object. */
  const ObjectString := "[object Object]"

  /** Under the inherited representation every type has the same key, so
      `distinctUnionOf` keeps a single member of any non-empty flattening. */
  lemma DistinctUnionOfCollapses(types: seq<Type>, before: (string, string) -> bool)
    requires Total(before) && Transitive(before)
    ensures |DistinctUnionOf(types, (t: Type) => ObjectString, before).spec.unionOf| ==
      if |Flatten(types)| == 0 then 0 else 1
  {
    var key := (t: Type) => ObjectString;
    var members := DistinctUnionOf(types, key, before).spec.unionOf;
    var flat := Flatten(types);
    assert ObjectString !in PrototypeKeys;
    if |flat| == 0 {
      assert KeysOf(flat, key) == {};
    } else {
      assert key(flat[0]) in KeysOf(flat, key);
    }
  }

  /** Two different types, of which `distinctUnionOf` keeps only the first and
      drops the second. */
  lemma DistinctUnionOfDropsDifferentTypes(before: (string, string) -> bool)
    requires Total(before) && Transitive(before)
    ensures StringType != NumberType
    ensures DistinctUnionOf([StringType, NumberType], (t: Type) => ObjectString, before).spec.unionOf == [StringType]
  {
    var types := [StringType, NumberType];
    var key := (t: Type) => ObjectString;
    DistinctUnionOfCollapses(types, before);
    FlattenWithoutUnions(types);
    assert ObjectString !in PrototypeKeys;
    assert FirstOfKey(Flatten(types), key, PrototypeKeys, 0);
  }

  /** The union `distinctUnionOf` is meant to build: the arguments flattened one
      level, each different type kept once, ordered as by `unionOf`. */
  function StructurallyDistinctUnionOf(types: seq<Type>, key: Type -> string, before: (string, string) -> bool): (t: Type)
    requires Total(before) && Transitive(before)
    ensures IsUnionSpec(t.spec)
    ensures SortedBy(t.spec.unionOf, key, before)
    ensures forall i, j :: 0 <= i < j < |t.spec.unionOf| ==> t.spec.unionOf[i] != t.spec.unionOf[j]
    ensures forall x :: x in t.spec.unionOf <==> x in Flatten(types)
  {
    var id := (x: Type) => x;
    var unique := Unique(Flatten(types), id, {});
    var t := UnionOf(unique, key, before);
    assert forall x :: x in t.spec.unionOf <==> x in unique by {
      forall x ensures x in t.spec.unionOf <==> x in unique {
        assert x in t.spec.unionOf <==> x in multiset(t.spec.unionOf);
      }
    }
    assert forall x :: x in unique <==> x in Flatten(types) by {
      forall x ensures x in unique <==> x in Flatten(types) {
        assert x in unique <==> id(x) in KeysOf(unique, id);
        assert x in Flatten(types) <==> id(x) in KeysOf(Flatten(types), id);
      }
    }
    PermutationKeepsDistinctKeys(unique, t.spec.unionOf, id);
    t
  }

  /** The intended union keeps both of two different types under any key. */
  lemma StructurallyDistinctUnionOfKeepsDifferentTypes(key: Type -> string, before: (string, string) -> bool)
    requires Total(before) && Transitive(before)
    ensures var members := StructurallyDistinctUnionOf([StringType, NumberType], key, before).spec.unionOf;
      StringType in members && NumberType in members && |members| >= 2
  {
    var types := [StringType, NumberType];
    var members := StructurallyDistinctUnionOf(types, key, before).spec.unionOf;
    FlattenWithoutUnions(types);
    assert StringType in members && NumberType in members;
    var i :| 0 <= i < |members| && members[i] == StringType;
    var j :| 0 <= j < |members| && members[j] == NumberType;
    assert i != j;
  }
}
