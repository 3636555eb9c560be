/** The type decider: turns a raw value-type descriptor, together with the
    descriptors of its earlier versions, into a normalised value type. */
module TypeDecider {
  import opened Wrappers
  import opened Database
  import opened SchemaTypes
  import Constants

  /** The reference lookup found a name; an empty name counts as none. */
  predicate HasName(n: Option<string>) {
    n.Some? && n.value != ""
  }

  /** Every reference in `t` names a type definition, every array and map has an
      element and every union has its `types` array. */
  ghost predicate Resolvable(t: RawType, refName: string -> Option<string>) {
    match t
    case RefType(ref) => HasName(refName(ref))
    case ArrayType(e) => e.Some? && Resolvable(e.value, refName)
    case MapType(e) => e.Some? && Resolvable(e.value, refName)
    case UnionType(ts) => forall i :: 0 <= i < |ts| ==> Resolvable(ts[i], refName)
    case BareUnionType => false
    case _ => true
  }

  /** `err` is a defect that occurs in `t`: an unnamed reference, an array or map
      without element, or a union without `types`. */
  ghost predicate Exhibits(t: RawType, err: Error, refName: string -> Option<string>) {
    match t
    case RefType(ref) => err == ReferenceNotFound(ref) && !HasName(refName(ref))
    case ArrayType(e) => if e.None? then err == ArrayWithoutElement else Exhibits(e.value, err, refName)
    case MapType(e) => if e.None? then err == MapWithoutElement else Exhibits(e.value, err, refName)
    case UnionType(ts) => exists i :: 0 <= i < |ts| && Exhibits(ts[i], err, refName)
    case BareUnionType => err == UnionWithoutTypes
    case _ => false
  }

  /** Every named type in `v` is the tag type or qualified by `cfnType`. */
  ghost predicate Qualified(v: ValueType, cfnType: string) {
    match v
    case Primitive(_) => true
    case Named(n) => n == Constants.CfnTag || (|cfnType| < |n| && n[..|cfnType| + 1] == cfnType + ".")
    case ListOf(e) => Qualified(e, cfnType)
    case MapOf(e) => Qualified(e, cfnType)
    case UnionOf(ms) => forall i :: 0 <= i < |ms| ==> Qualified(ms[i], cfnType)
  }

  /** `doGetType`: resolves `t` for a property of the resource type `cfnType`. */
  function Resolve(t: RawType, cfnType: string, refName: string -> Option<string>): (r: Result<ValueType, Error>)
    ensures r.Success? <==> Resolvable(t, refName)
    ensures r.Success? ==> Qualified(r.value, cfnType)
    ensures r.Failure? ==> Exhibits(t, r.error, refName)
    decreases t
  {
    match t
    case StringType => Success(Primitive(String))
    case BooleanType => Success(Primitive(Boolean))
    case NumberType => Success(Primitive(Number))
    case IntegerType => Success(Primitive(Number))
    case DateTimeType => Success(Primitive(DateTime))
    case RefType(ref) =>
      var n := refName(ref);
      if !HasName(n) then Failure(ReferenceNotFound(ref))
      else
        var named := cfnType + "." + n.value;
        assert named[..|cfnType| + 1] == cfnType + ".";
        Success(Named(named))
    case ArrayType(e) =>
      if e.None? then Failure(ArrayWithoutElement)
      else
        var element :- Resolve(e.value, cfnType, refName);
        Success(ListOf(element))
    case JsonType => Success(Primitive(Json))
    case MapType(e) =>
      if e.None? then Failure(MapWithoutElement)
      else
        var element :- Resolve(e.value, cfnType, refName);
        Success(MapOf(element))
    case TagType => Success(Named(Constants.CfnTag))
    case UnionType(ts) =>
      var members :- ResolveAll(ts, cfnType, refName);
      Success(UnionOf(members))
    case BareUnionType => Failure(UnionWithoutTypes)
    case NullType => Success(Primitive(Undefined))
    case UnknownType(_) => Success(Primitive(Any))
  }

  /** `e` is the error of the first descriptor of `ts` that does not resolve. */
  ghost predicate FirstFailing(ts: seq<RawType>, cfnType: string, refName: string -> Option<string>, e: Error) {
    exists i :: 0 <= i < |ts| && Resolve(ts[i], cfnType, refName) == Failure(e)
      && forall j :: 0 <= j < i ==> Resolve(ts[j], cfnType, refName).Success?
  }

  /** `types.map(doGetType)`: resolves each member in order and stops at the
      first failure. */
  function ResolveAll(ts: seq<RawType>, cfnType: string, refName: string -> Option<string>): (r: Result<seq<ValueType>, Error>)
    ensures r.Success? <==> forall i :: 0 <= i < |ts| ==> Resolvable(ts[i], refName)
    ensures r.Success? ==> |r.value| == |ts|
    ensures r.Success? ==> forall i :: 0 <= i < |ts| ==> Resolve(ts[i], cfnType, refName) == Success(r.value[i])
    ensures r.Failure? ==> exists i :: 0 <= i < |ts| && Exhibits(ts[i], r.error, refName)
    ensures r.Failure? ==> FirstFailing(ts, cfnType, refName, r.error)
    decreases ts
  {
    if |ts| == 0 then Success([])
    else
      var head :- Resolve(ts[0], cfnType, refName);
      var rest := ResolveAll(ts[1..], cfnType, refName);
      if rest.Failure? then
        assert FirstFailing(ts, cfnType, refName, rest.error) by {
          var i :| 0 <= i < |ts[1..]| && Resolve(ts[1..][i], cfnType, refName) == Failure(rest.error)
            && forall j :: 0 <= j < i ==> Resolve(ts[1..][j], cfnType, refName).Success?;
          assert forall j :: 1 <= j < i + 1 ==> ts[j] == ts[1..][j - 1];
          assert ts[i + 1] == ts[1..][i];
        }
        Failure(rest.error)
      else
      var tail := rest.value;
      assert forall i :: 1 <= i < |ts| ==> ts[i] == ts[1..][i - 1];
      Success([head] + tail)
  }

  /** `TypeDecider.getType`: with earlier versions, the current descriptor and
      the earlier ones are resolved as one union, current first. */
  function GetType(cfnType: string, currentType: RawType, previousTypes: seq<RawType>, refName: string -> Option<string>): (r: Result<ValueType, Error>)
    ensures |previousTypes| == 0 ==> r == Resolve(currentType, cfnType, refName)
    ensures |previousTypes| > 0 ==>
      (r.Success? <==> Resolvable(currentType, refName) && forall i :: 0 <= i < |previousTypes| ==> Resolvable(previousTypes[i], refName))
    ensures |previousTypes| > 0 && r.Success? ==>
      && r.value.UnionOf?
      && |r.value.unionOf| == |previousTypes| + 1
      && Resolve(currentType, cfnType, refName) == Success(r.value.unionOf[0])
      && forall i :: 0 <= i < |previousTypes| ==> Resolve(previousTypes[i], cfnType, refName) == Success(r.value.unionOf[i + 1])
    ensures |previousTypes| > 0 && r.Failure? ==> FirstFailing([currentType] + previousTypes, cfnType, refName, r.error)
  {
    if |previousTypes| > 0 then
      var merged := [currentType] + previousTypes;
      assert merged[0] == currentType;
      assert forall i :: 0 <= i < |previousTypes| ==> merged[i + 1] == previousTypes[i];
      assert (forall i :: 0 <= i < |merged| ==> Resolvable(merged[i], refName)) <==>
        Resolvable(currentType, refName) && forall i :: 0 <= i < |previousTypes| ==> Resolvable(previousTypes[i], refName)
      by {
        if forall i :: 0 <= i < |previousTypes| ==> Resolvable(previousTypes[i], refName) {
          assert forall i :: 1 <= i < |merged| ==> merged[i] == previousTypes[i - 1];
        }
      }
      Resolve(UnionType(merged), cfnType, refName)
    else
      Resolve(currentType, cfnType, refName)
  }

  /** Leaf kinds never fail and need no lookup; `number` and `integer` both
      become "number", `null` becomes "undefined", anything unrecognised "any". */
  lemma LeafKinds(cfnType: string, refName: string -> Option<string>)
    ensures Resolve(StringType, cfnType, refName) == Success(Primitive(String))
    ensures Resolve(BooleanType, cfnType, refName) == Success(Primitive(Boolean))
    ensures Resolve(NumberType, cfnType, refName) == Success(Primitive(Number))
    ensures Resolve(IntegerType, cfnType, refName) == Success(Primitive(Number))
    ensures Resolve(DateTimeType, cfnType, refName) == Success(Primitive(DateTime))
    ensures Resolve(JsonType, cfnType, refName) == Success(Primitive(Json))
    ensures Resolve(NullType, cfnType, refName) == Success(Primitive(Undefined))
    ensures Resolve(TagType, cfnType, refName) == Success(Named(Constants.CfnTag))
    ensures forall kind :: Resolve(UnknownType(kind), cfnType, refName) == Success(Primitive(Any))
  {
  }

  /** A reference resolves to `<cfnType>.<name>`, with no suffix added, and fails
      naming the reference when the lookup gives no name. */
  lemma ReferenceKind(ref: string, cfnType: string, refName: string -> Option<string>)
    ensures HasName(refName(ref)) ==>
      Resolve(RefType(ref), cfnType, refName) == Success(Named(cfnType + "." + refName(ref).value))
    ensures !HasName(refName(ref)) ==>
      Resolve(RefType(ref), cfnType, refName) == Failure(ReferenceNotFound(ref))
  {
  }

  /** Arrays and maps wrap the resolved element, or fail without one. */
  lemma ContainerKinds(e: RawType, cfnType: string, refName: string -> Option<string>)
    ensures Resolve(ArrayType(None), cfnType, refName) == Failure(ArrayWithoutElement)
    ensures Resolve(MapType(None), cfnType, refName) == Failure(MapWithoutElement)
    ensures Resolve(e, cfnType, refName).Success? ==>
      && Resolve(ArrayType(Some(e)), cfnType, refName) == Success(ListOf(Resolve(e, cfnType, refName).value))
      && Resolve(MapType(Some(e)), cfnType, refName) == Success(MapOf(Resolve(e, cfnType, refName).value))
    ensures Resolve(e, cfnType, refName).Failure? ==>
      && Resolve(ArrayType(Some(e)), cfnType, refName) == Resolve(e, cfnType, refName)
      && Resolve(MapType(Some(e)), cfnType, refName) == Resolve(e, cfnType, refName)
  {
  }

  /** A union keeps its members' count and order, and only an absent `types`
      fails. */
  lemma UnionKinds(ts: seq<RawType>, cfnType: string, refName: string -> Option<string>)
    ensures Resolve(BareUnionType, cfnType, refName) == Failure(UnionWithoutTypes)
    ensures Resolve(UnionType([]), cfnType, refName) == Success(UnionOf([]))
    ensures Resolve(UnionType(ts), cfnType, refName).Success? ==>
      && |Resolve(UnionType(ts), cfnType, refName).value.unionOf| == |ts|
      && forall i :: 0 <= i < |ts| ==>
           Resolve(ts[i], cfnType, refName) == Success(Resolve(UnionType(ts), cfnType, refName).value.unionOf[i])
  {
  }

  /** Shape is preserved through three levels of nesting, and a failure deep
      inside comes out unchanged. */
  lemma NestedShape(e: RawType, cfnType: string, refName: string -> Option<string>)
    ensures Resolve(e, cfnType, refName).Success? ==>
      Resolve(ArrayType(Some(ArrayType(Some(MapType(Some(e)))))), cfnType, refName)
        == Success(ListOf(ListOf(MapOf(Resolve(e, cfnType, refName).value))))
    ensures Resolve(e, cfnType, refName).Failure? ==>
      Resolve(ArrayType(Some(ArrayType(Some(MapType(Some(e)))))), cfnType, refName)
        == Resolve(e, cfnType, refName)
  {
    ContainerKinds(e, cfnType, refName);
    ContainerKinds(MapType(Some(e)), cfnType, refName);
    ContainerKinds(ArrayType(Some(MapType(Some(e)))), cfnType, refName);
  }

  /** A union of `string` and `number` keeps that order. */
  lemma UnionOrderScenario(cfnType: string, refName: string -> Option<string>)
    ensures Resolve(UnionType([StringType, NumberType]), cfnType, refName)
      == Success(UnionOf([Primitive(String), Primitive(Number)]))
  {
    LeafKinds(cfnType, refName);
    var pair := [StringType, NumberType];
    UnionKinds(pair, cfnType, refName);
    assert Resolvable(pair[0], refName) && Resolvable(pair[1], refName);
    var ms := Resolve(UnionType(pair), cfnType, refName).value.unionOf;
    assert ms == [ms[0], ms[1]];
  }

  /** A union nested in a union is kept as a member, not flattened. */
  lemma UnionNestedScenario(cfnType: string, refName: string -> Option<string>)
    ensures Resolve(UnionType([UnionType([StringType]), StringType]), cfnType, refName)
      == Success(UnionOf([UnionOf([Primitive(String)]), Primitive(String)]))
  {
    LeafKinds(cfnType, refName);
    var inner := [StringType];
    UnionKinds(inner, cfnType, refName);
    assert Resolvable(inner[0], refName);
    var nested := [UnionType(inner), StringType];
    UnionKinds(nested, cfnType, refName);
    assert Resolvable(nested[0], refName) && Resolvable(nested[1], refName);
    var ns := Resolve(UnionType(nested), cfnType, refName).value.unionOf;
    var ins := Resolve(UnionType(inner), cfnType, refName).value.unionOf;
    assert ins == [ins[0]];
    assert ns == [ns[0], ns[1]];
  }

  /** A union that names `string` twice keeps both members. */
  lemma UnionRepeatsScenario(cfnType: string, refName: string -> Option<string>)
    ensures Resolve(UnionType([StringType, StringType]), cfnType, refName)
      == Success(UnionOf([Primitive(String), Primitive(String)]))
  {
    LeafKinds(cfnType, refName);
    var twice := [StringType, StringType];
    UnionKinds(twice, cfnType, refName);
    assert Resolvable(twice[0], refName) && Resolvable(twice[1], refName);
    var ts := Resolve(UnionType(twice), cfnType, refName).value.unionOf;
    assert ts == [ts[0], ts[1]];
  }

  /** A `string` property that used to be a `number` becomes a two-member union,
      current type first. */
  lemma PreviousTypesScenario(cfnType: string, refName: string -> Option<string>)
    ensures GetType(cfnType, StringType, [NumberType], refName)
      == Success(UnionOf([Primitive(String), Primitive(Number)]))
  {
    LeafKinds(cfnType, refName);
    var ms := GetType(cfnType, StringType, [NumberType], refName).value.unionOf;
    assert ms == [ms[0], ms[1]];
  }
}
