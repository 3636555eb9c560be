/** Shared schema mapping and the per-language binding generator. */
module Common {
  import opened Wrappers
  import opened Strings
  import opened Sorting
  import opened Records
  import opened SchemaTypes
  import opened Database
  import opened TypeDecider
  import opened Constants

  // ---------------------------------------------------------------------------
  // Sorting and schema mapping

  /** `sortSchema`: the same keys with the same values, enumerated in ascending
      code-unit order. */
  function SortSchema<T>(unsorted: Record<T>): (r: Record<T>)
    requires unsorted.Valid()
    ensures r.Valid() && KeysSorted(r)
    ensures multiset(r.keys) == multiset(unsorted.keys)
    ensures r.values == unsorted.values
  {
    StringLeIsTotal();
    StringLeIsTransitive();
    var keys := SortBy(unsorted.keys, (k: string) => k, StringLe);
    PermutationKeepsDistinct(unsorted.keys, keys);
    assert forall k :: k in keys <==> k in multiset(unsorted.keys);
    Record(keys, unsorted.values)
  }

  /** The `{name, valueType, required?}` item built for one entry: `required` is
      written only when the source flag is truthy, and then it is `true`. */
  function BaseItem(id: string, valueType: ValueType, required: Option<bool>): (p: PropertySpec)
    ensures p.name == id && p.valueType == valueType
    ensures p.required.Some? <==> required == Some(true)
    ensures p.required.Some? ==> p.required.value
  {
    PropertySpec(id, valueType, if required == Some(true) then Some(true) else None)
  }

  /** The value type of one attribute or property of a resource of type `cfnType`. */
  function ItemType(item: RawItem, cfnType: string, refName: string -> Option<string>): (r: Result<ValueType, Error>) {
    GetType(cfnType, item.rawType, item.previousTypes, refName)
  }

  /** Every entry of `items` resolves. */
  ghost predicate ItemsResolve(items: Record<RawItem>, cfnType: string, refName: string -> Option<string>) {
    forall k :: k in items.values ==> ItemType(items.values[k], cfnType, refName).Success?
  }

  /** `e` is the error of the first of the first `n` entries, in enumeration
      order, whose type does not resolve. */
  ghost predicate FirstFailingItem(items: Record<RawItem>, n: nat, cfnType: string, refName: string -> Option<string>, e: Error)
    requires items.Valid() && n <= |items.keys|
  {
    exists i :: 0 <= i < n && ItemType(items.values[items.keys[i]], cfnType, refName) == Failure(e)
      && forall j :: 0 <= j < i ==> ItemType(items.values[items.keys[j]], cfnType, refName).Success?
  }

  /** The fold of `mapToSchema` over the first `n` entries, in enumeration order;
      the first entry that does not resolve aborts it. */
  function MapEntries<T>(items: Record<RawItem>, n: nat, cfnType: string, refName: string -> Option<string>,
                         mapper: PropertySpec -> T): (r: Result<Record<T>, Error>)
    requires items.Valid() && n <= |items.keys|
    ensures r.Success? <==> forall i :: 0 <= i < n ==> ItemType(items.values[items.keys[i]], cfnType, refName).Success?
    ensures r.Success? ==> r.value.Valid() && r.value.keys == items.keys[..n]
    ensures r.Success? ==> forall i :: 0 <= i < n ==>
      r.value.values[items.keys[i]] ==
        mapper(BaseItem(items.keys[i], ItemType(items.values[items.keys[i]], cfnType, refName).value,
                        items.values[items.keys[i]].required))
    ensures r.Failure? ==> FirstFailingItem(items, n, cfnType, refName, r.error)
    decreases n
  {
    if n == 0 then Success(Empty())
    else
      var prefix := MapEntries(items, n - 1, cfnType, refName, mapper);
      if prefix.Failure? then
        assert FirstFailingItem(items, n, cfnType, refName, prefix.error) by {
          var i :| 0 <= i < n - 1 && ItemType(items.values[items.keys[i]], cfnType, refName) == Failure(prefix.error)
            && forall j :: 0 <= j < i ==> ItemType(items.values[items.keys[j]], cfnType, refName).Success?;
        }
        assert !forall i :: 0 <= i < n - 1 ==> ItemType(items.values[items.keys[i]], cfnType, refName).Success?;
        Failure(prefix.error)
      else
      var acc := prefix.value;
      var id := items.keys[n - 1];
      var item := items.values[id];
      var itemType := ItemType(item, cfnType, refName);
      if itemType.Failure? then
        assert FirstFailingItem(items, n, cfnType, refName, itemType.error) by {
          assert ItemType(items.values[items.keys[n - 1]], cfnType, refName) == Failure(itemType.error);
        }
        assert !ItemType(items.values[items.keys[n - 1]], cfnType, refName).Success?;
        Failure(itemType.error)
      else
      var valueType := itemType.value;
      assert id !in acc.values by {
        assert forall i :: 0 <= i < n - 1 ==> items.keys[i] != id;
      }
      PrefixStep(items.keys, n);
      Success(Put(acc, id, mapper(BaseItem(id, valueType, item.required))))
  }

  /** `mapToSchema`: one entry per source key, named after its key, typed by the
      type decider, passed through `mapper`, and enumerated in sorted key order. */
  function MapToSchema<T>(items: Record<RawItem>, cfnType: string, refName: string -> Option<string>,
                          mapper: PropertySpec -> T): (r: Result<Record<T>, Error>)
    requires items.Valid()
    ensures r.Success? <==> ItemsResolve(items, cfnType, refName)
    ensures r.Failure? ==> FirstFailingItem(items, |items.keys|, cfnType, refName, r.error)
    ensures r.Success? ==> r.value.Valid() && KeysSorted(r.value)
    ensures r.Success? ==> multiset(r.value.keys) == multiset(items.keys)
    ensures r.Success? ==> forall k :: k in r.value.values <==> k in items.values
    ensures r.Success? ==> forall k :: k in items.values ==>
      r.value.values[k] == mapper(BaseItem(k, ItemType(items.values[k], cfnType, refName).value, items.values[k].required))
  {
    var all := |items.keys|;
    assert items.keys[..all] == items.keys;
    assert ItemsResolve(items, cfnType, refName) <==>
      forall i :: 0 <= i < all ==> ItemType(items.values[items.keys[i]], cfnType, refName).Success?
    by {
      assert forall k :: k in items.values ==> exists i :: 0 <= i < all && items.keys[i] == k;
    }
    var mapped :- MapEntries(items, all, cfnType, refName, mapper);
    assert forall k :: k in items.values ==> exists i :: 0 <= i < all && items.keys[i] == k;
    Success(SortSchema(mapped))
  }

  /** `mapAttributesToSchema`: entries carry only `name` and `valueType`. */
  function MapAttributesToSchema(items: Record<RawItem>, cfnType: string, refName: string -> Option<string>): (r: Result<Record<AttributeSpec>, Error>)
    requires items.Valid()
    ensures r.Success? <==> ItemsResolve(items, cfnType, refName)
    ensures r.Failure? ==> FirstFailingItem(items, |items.keys|, cfnType, refName, r.error)
    ensures r.Success? ==> r.value.Valid() && KeysSorted(r.value)
    ensures r.Success? ==> multiset(r.value.keys) == multiset(items.keys)
    ensures r.Success? ==> forall k :: k in r.value.values <==> k in items.values
    ensures r.Success? ==> forall k :: k in items.values ==>
      r.value.values[k] == AttributeSpec(k, ItemType(items.values[k], cfnType, refName).value)
  {
    MapToSchema(items, cfnType, refName, (p: PropertySpec) => AttributeSpec(p.name, p.valueType))
  }

  /** `mapPropertiesToSchema`: entries are the base items unchanged, so a
      `required` key appears exactly for truthy source flags and is then `true`. */
  function MapPropertiesToSchema(items: Record<RawItem>, cfnType: string, refName: string -> Option<string>): (r: Result<Record<PropertySpec>, Error>)
    requires items.Valid()
    ensures r.Success? <==> ItemsResolve(items, cfnType, refName)
    ensures r.Failure? ==> FirstFailingItem(items, |items.keys|, cfnType, refName, r.error)
    ensures r.Success? ==> r.value.Valid() && KeysSorted(r.value)
    ensures r.Success? ==> multiset(r.value.keys) == multiset(items.keys)
    ensures r.Success? ==> forall k :: k in r.value.values <==> k in items.values
    ensures r.Success? ==> forall k :: k in items.values ==>
      && r.value.values[k].name == k
      && r.value.values[k].valueType == ItemType(items.values[k], cfnType, refName).value
      && (r.value.values[k].required.Some? <==> items.values[k].required == Some(true))
      && (r.value.values[k].required.Some? ==> r.value.values[k].required.value)
  {
    MapToSchema(items, cfnType, refName, (p: PropertySpec) => p)
  }

  // ---------------------------------------------------------------------------
  // Service-name transforms

  /** The one literal exception of the C# namespace. */
  const ApiGatewayV2 := "ApiGatewayV2"
  const CsharpApiGatewayV2 := "APIGatewayV2"

  function TypescriptServiceName(service: Service): (r: string) {
    service.name
  }

  /** The first '-' becomes '_'. */
  function PythonServiceName(service: Service): (r: string) {
    ReplaceFirst(service.name, "-", "_")
  }

  /** The first '-' is dropped. */
  function GolangServiceName(service: Service): (r: string) {
    ReplaceFirst(service.name, "-", "")
  }

  /** The first "aws-" becomes "services.", then the first '-' becomes '.'. */
  function JavaServiceName(service: Service): (r: string) {
    ReplaceFirst(ReplaceFirst(service.name, "aws-", "services."), "-", ".")
  }

  /** The first "::" segment of the service namespace, '.', and the capitalized
      service name with its first "ApiGatewayV2" restyled. */
  function CsharpServiceName(service: Service): (r: string) {
    FirstSegment(service.cloudFormationNamespace, "::") + "." +
      ReplaceFirst(service.capitalized, ApiGatewayV2, CsharpApiGatewayV2)
  }

  // ---------------------------------------------------------------------------
  // Go package name

  /** The two global replacements of the Go package name, each applied to the
      whole output of the previous step. */
  datatype GoPass = AcronymPass | CamelPass

  /** Whether a pass writes '_' in front of `s[i]`. The acronym pass matches an
      upper-case run followed by an upper-case and a lower-case letter; the
      leftmost, greedy, non-overlapping matches split every upper-case run of
      length two or more that is followed by a lower-case letter before the run's
      last letter, and nowhere else. The camel pass matches a lower-case letter
      followed by an upper-case one; its matches cannot overlap, so every such
      pair is split. Letters are ASCII only. */
  predicate Boundary(pass: GoPass, s: string, i: nat)
    requires i < |s|
  {
    match pass
    case AcronymPass => 0 < i && i + 1 < |s| && IsUpper(s[i - 1]) && IsUpper(s[i]) && IsLower(s[i + 1])
    case CamelPass => 0 < i && IsLower(s[i - 1]) && IsUpper(s[i])
  }

  /** `s[from..]` with '_' written in front of each boundary of `pass`. */
  function InsertUnderscores(s: string, pass: GoPass, from: nat): (r: string)
    requires from <= |s|
    decreases |s| - from
  {
    if from == |s| then []
    else
      var mark := if Boundary(pass, s, from) then "_" else "";
      mark + ([s[from]] + InsertUnderscores(s, pass, from + 1))
  }

  /** A pass only inserts underscores: nothing else is added, dropped or
      changed. */
  lemma {:induction false} InsertUnderscoresRemove(s: string, pass: GoPass, from: nat)
    requires from <= |s|
    ensures Remove(InsertUnderscores(s, pass, from), '_') == Remove(s[from..], '_')
    decreases |s| - from
  {
    if from < |s| {
      InsertUnderscoresRemove(s, pass, from + 1);
      var mark: string := if Boundary(pass, s, from) then "_" else "";
      MarkedStep(s[from], mark, InsertUnderscores(s, pass, from + 1), s[from + 1..]);
      assert s[from..] == [s[from]] + s[from + 1..];
    }
  }

  /** 1 when `pass` writes an underscore in front of `s[i]`, 0 otherwise. */
  ghost function MarkAt(pass: GoPass, s: string, i: nat): (r: nat)
    requires i < |s|
  {
    if Boundary(pass, s, i) then 1 else 0
  }

  /** The number of boundaries of `pass` at the indices `from` to `upto - 1` of `s`. */
  ghost function Marks(pass: GoPass, s: string, from: nat, upto: nat): (r: nat)
    requires from <= upto <= |s|
    decreases upto - from
  {
    if from == upto then 0 else MarkAt(pass, s, from) + Marks(pass, s, from + 1, upto)
  }

  /** Where the underscores go: the output is as long as the input plus one per
      boundary, and the part written for `s[i]` starts after the `Marks`
      boundaries in front of `i`: a '_' there when `i` is a boundary, then
      `s[i]` itself. */
  lemma InsertUnderscoresPlaces(s: string, pass: GoPass, from: nat)
    requires from <= |s|
    ensures |InsertUnderscores(s, pass, from)| == |s| - from + Marks(pass, s, from, |s|)
    ensures forall i :: from <= i < |s| ==>
      && i - from + Marks(pass, s, from, i) + MarkAt(pass, s, i) < |InsertUnderscores(s, pass, from)|
      && InsertUnderscores(s, pass, from)[i - from + Marks(pass, s, from, i) + MarkAt(pass, s, i)] == s[i]
    ensures forall i :: from <= i < |s| && Boundary(pass, s, i) ==>
      && i - from + Marks(pass, s, from, i) < |InsertUnderscores(s, pass, from)|
      && InsertUnderscores(s, pass, from)[i - from + Marks(pass, s, from, i)] == '_'
  {
    InsertUnderscoresLength(s, pass, from);
    forall i | from <= i < |s| ensures
      && i - from + Marks(pass, s, from, i) + MarkAt(pass, s, i) < |InsertUnderscores(s, pass, from)|
      && InsertUnderscores(s, pass, from)[i - from + Marks(pass, s, from, i) + MarkAt(pass, s, i)] == s[i]
    {
      InsertUnderscoresPlace(s, pass, from, i);
    }
    forall i | from <= i < |s| && Boundary(pass, s, i) ensures
      && i - from + Marks(pass, s, from, i) < |InsertUnderscores(s, pass, from)|
      && InsertUnderscores(s, pass, from)[i - from + Marks(pass, s, from, i)] == '_'
    {
      InsertUnderscoresPlace(s, pass, from, i);
    }
  }

  lemma {:induction false} InsertUnderscoresLength(s: string, pass: GoPass, from: nat)
    requires from <= |s|
    ensures |InsertUnderscores(s, pass, from)| == |s| - from + Marks(pass, s, from, |s|)
    decreases |s| - from
  {
    if from < |s| {
      InsertUnderscoresLength(s, pass, from + 1);
      var mark: string := if Boundary(pass, s, from) then "_" else "";
      assert |InsertUnderscores(s, pass, from)| == |mark| + 1 + |InsertUnderscores(s, pass, from + 1)|;
    }
  }

  /** One index of `InsertUnderscoresPlaces`. */
  lemma {:induction false} InsertUnderscoresPlace(s: string, pass: GoPass, from: nat, i: nat)
    requires from <= i < |s|
    ensures
      && i - from + Marks(pass, s, from, i) + MarkAt(pass, s, i) < |InsertUnderscores(s, pass, from)|
      && InsertUnderscores(s, pass, from)[i - from + Marks(pass, s, from, i) + MarkAt(pass, s, i)] == s[i]
      && (Boundary(pass, s, i) ==> InsertUnderscores(s, pass, from)[i - from + Marks(pass, s, from, i)] == '_')
    decreases i - from
  {
    if i == from {
      InsertUnderscoresHead(s, pass, from);
    } else {
      InsertUnderscoresPlace(s, pass, from + 1, i);
      var p := i - (from + 1) + Marks(pass, s, from + 1, i);
      assert Marks(pass, s, from, i) == MarkAt(pass, s, from) + Marks(pass, s, from + 1, i);
      InsertUnderscoresShift(s, pass, from, p + MarkAt(pass, s, i));
      if Boundary(pass, s, i) {
        InsertUnderscoresShift(s, pass, from, p);
      }
    }
  }

  /** The mark and `s[from]` come first. */
  lemma InsertUnderscoresHead(s: string, pass: GoPass, from: nat)
    requires from < |s|
    ensures MarkAt(pass, s, from) < |InsertUnderscores(s, pass, from)|
    ensures InsertUnderscores(s, pass, from)[MarkAt(pass, s, from)] == s[from]
    ensures Boundary(pass, s, from) ==> InsertUnderscores(s, pass, from)[0] == '_'
  {
    var mark: string := if Boundary(pass, s, from) then "_" else "";
    MarkedIndices(InsertUnderscores(s, pass, from), mark, s[from], InsertUnderscores(s, pass, from + 1));
  }

  /** Index `q` of the rest sits behind the mark and `s[from]`. */
  lemma InsertUnderscoresShift(s: string, pass: GoPass, from: nat, q: nat)
    requires from < |s| && q < |InsertUnderscores(s, pass, from + 1)|
    ensures MarkAt(pass, s, from) + 1 + q < |InsertUnderscores(s, pass, from)|
    ensures InsertUnderscores(s, pass, from)[MarkAt(pass, s, from) + 1 + q] == InsertUnderscores(s, pass, from + 1)[q]
  {
    var mark: string := if Boundary(pass, s, from) then "_" else "";
    MarkedIndices(InsertUnderscores(s, pass, from), mark, s[from], InsertUnderscores(s, pass, from + 1));
  }

  /** Where the characters of `rest` sit once `mark` and `c` are written in front. */
  lemma MarkedIndices(r: string, mark: string, c: char, rest: string)
    requires r == mark + ([c] + rest)
    ensures |r| == |mark| + 1 + |rest| && r[|mark|] == c
    ensures forall q :: 0 <= q < |rest| ==> r[|mark| + 1 + q] == rest[q]
  {
  }

  /** Writing a mark of underscores in front of `c` does not change what is left
      once the underscores are removed. */
  lemma MarkedStep(c: char, mark: string, rest: string, tail: string)
    requires Remove(mark, '_') == [] && Remove(rest, '_') == Remove(tail, '_')
    ensures Remove(mark + ([c] + rest), '_') == Remove([c] + tail, '_')
  {
    RemoveConcat(mark, [c] + rest, '_');
    RemoveConcat([c], rest, '_');
    RemoveConcat([c], tail, '_');
  }

  /** `goPackageNameTransform`: the capitalized service name split at acronym
      and camel-case boundaries, then lower-cased. */
  function GoPackageName(service: Service): (r: string)
    ensures HasNoUpper(r)
    ensures Remove(r, '_') == ToLower(Remove(service.capitalized, '_'))
  {
    var acronyms := InsertUnderscores(service.capitalized, AcronymPass, 0);
    var camel := InsertUnderscores(acronyms, CamelPass, 0);
    InsertUnderscoresRemove(service.capitalized, AcronymPass, 0);
    InsertUnderscoresRemove(acronyms, CamelPass, 0);
    assert service.capitalized[0..] == service.capitalized && acronyms[0..] == acronyms;
    RemoveUnderscoreToLower(camel);
    ToLower(camel)
  }

  // ---------------------------------------------------------------------------
  // Bindings

  /** `generateCoreBindings`: every language gets `name` unchanged at the base
      location of the construct library; the Go package is "awscdk". */
  function GenerateCoreBindings(name: string): (b: Bindings)
    ensures b.typescript.name == name && b.csharp.name == name && b.golang.name == name
    ensures b.java.name == name && b.python.name == name
    ensures b.typescript.moduleName == TypescriptBase && b.csharp.namespace == CsharpBase
    ensures b.golang.moduleName == GolangBase && b.golang.packageName == CoreGoPackage
    ensures b.java.packageName == JavaBase && b.python.moduleName == PythonBase
  {
    Bindings(
      ModuleBinding(TypescriptBase, name),
      NamespaceBinding(CsharpBase, name),
      GoBinding(GolangBase, CoreGoPackage, name),
      PackageBinding(JavaBase, name),
      ModuleBinding(PythonBase, name))
  }

  /** `generateBindings`: each location is the base location followed by the
      language's service-name transform; the Go name has its first '.' replaced
      by '_', the other four names are `name`. */
  function GenerateBindings(service: Service, name: string): (b: Bindings)
    ensures b.typescript.name == name && b.csharp.name == name
    ensures b.java.name == name && b.python.name == name
    ensures b.golang.packageName == GoPackageName(service)
    ensures HasNoUpper(b.golang.packageName)
  {
    Bindings(
      ModuleBinding(TypescriptBase + "/" + TypescriptServiceName(service), name),
      NamespaceBinding(CsharpBase + "." + CsharpServiceName(service), name),
      GoBinding(GolangBase + "/" + GolangServiceName(service), GoPackageName(service), ReplaceFirst(name, ".", "_")),
      PackageBinding(JavaBase + "." + JavaServiceName(service), name),
      ModuleBinding(PythonBase + "." + PythonServiceName(service), name))
  }

  // ---------------------------------------------------------------------------
  // Properties of the naming rules

  /** For a service name `<prefix>-<rest>` whose prefix has no '-', Python turns
      that first '-' into '_'; later '-' are left alone. */
  lemma PythonServiceNameOfHyphenated(service: Service, prefix: string, rest: string)
    requires service.name == prefix + "-" + rest && '-' !in prefix
    ensures PythonServiceName(service) == prefix + "_" + rest
  {
    HyphenReplaced(prefix, rest, "_");
  }

  /** For a service name `<prefix>-<rest>` whose prefix has no '-', Go drops that
      first '-'; later '-' are left alone. */
  lemma GolangServiceNameOfHyphenated(service: Service, prefix: string, rest: string)
    requires service.name == prefix + "-" + rest && '-' !in prefix
    ensures GolangServiceName(service) == prefix + rest
  {
    HyphenDropped(service.name, prefix, rest, "");
  }

  lemma HyphenDropped(s: string, prefix: string, rest: string, dropped: string)
    requires s == prefix + "-" + rest && '-' !in prefix && dropped == []
    ensures ReplaceFirst(s, "-", dropped) == prefix + rest
  {
    HyphenReplaced(prefix, rest, dropped);
    assert prefix + dropped == prefix;
  }

  lemma HyphenReplaced(prefix: string, rest: string, rep: string)
    requires '-' !in prefix
    ensures ReplaceFirst(prefix + "-" + rest, "-", rep) == prefix + rep + rest
  {
    assert prefix + "-" + rest == prefix + (['-'] + rest);
    ReplaceFirstAfterPrefix(prefix, ['-'] + rest, '-', rep);
    ReplaceFirstAtStart('-', rest, rep);
  }

  /** For "aws-<rest>", Java swaps the "aws-" prefix for "services." and then
      turns the first '-' of `rest` into '.'. */
  lemma JavaServiceNameOfAws(service: Service, rest: string)
    requires service.name == "aws-" + rest
    ensures JavaServiceName(service) == "services." + ReplaceFirst(rest, "-", ".")
  {
    var n := service.name;
    assert n[0..4] == "aws-";
    assert FirstOccurrence(n, "aws-", 0);
    assert n[4..] == rest;
    assert ReplaceFirst(n, "aws-", "services.") == "services." + rest;
    ReplaceFirstAfterPrefix("services.", rest, '-', ".");
  }

  /** A service name without "aws-" only has its first '-' turned into '.'. */
  lemma JavaServiceNameOfOther(service: Service, prefix: string, rest: string)
    requires service.name == prefix + "-" + rest && '-' !in prefix
    requires Absent(service.name, "aws-")
    ensures JavaServiceName(service) == prefix + "." + rest
  {
    HyphenReplaced(prefix, rest, ".");
  }

  /** The C# namespace segment is the text before the first "::". */
  lemma CsharpNamespaceSegment(ns: string, rest: string)
    requires ':' !in ns
    ensures FirstSegment(ns + "::" + rest, "::") == ns
  {
    var s := ns + "::" + rest;
    assert s[|ns|..|ns| + 2] == "::";
    forall j | 0 <= j < |ns| ensures !OccursAt(s, "::", j) {
      assert s[j] == ns[j];
    }
    assert FirstOccurrence(s, "::", |ns|);
    assert s[..|ns|] == ns;
  }

  /** The Go class name of the property type `<parent>.<type>Property`, whose
      parent name has no '.', is `<parent>_<type>Property`. */
  lemma GolangNameOfPropertyType(service: Service, parentName: string, typeName: string)
    requires '.' !in parentName
    ensures GenerateBindings(service, Cfn + parentName + "." + typeName + "Property").golang.name
      == Cfn + parentName + "_" + typeName + "Property"
  {
    var p := Cfn + parentName;
    assert '.' !in p by {
      assert forall i :: 0 <= i < |p| ==> p[i] == (if i < 3 then Cfn[i] else parentName[i - 3]);
    }
    assert p + "." + typeName + "Property" == p + (['.'] + (typeName + "Property"));
    ReplaceFirstAfterPrefix(p, ['.'] + (typeName + "Property"), '.', "_");
    ReplaceFirstAtStart('.', typeName + "Property", "_");
  }

  /** Every location of a service binding lies under the matching location of
      the core bindings, and a name without '.' is the same in both. */
  lemma ServiceLocationsExtendCore(service: Service, name: string)
    ensures var b := GenerateBindings(service, name); var c := GenerateCoreBindings(name);
      && b.typescript.moduleName == c.typescript.moduleName + "/" + service.name
      && b.golang.moduleName == c.golang.moduleName + "/" + GolangServiceName(service)
      && b.csharp.namespace == c.csharp.namespace + "." + CsharpServiceName(service)
      && b.java.packageName == c.java.packageName + "." + JavaServiceName(service)
      && b.python.moduleName == c.python.moduleName + "." + PythonServiceName(service)
    ensures '.' !in name ==>
      var b := GenerateBindings(service, name); var c := GenerateCoreBindings(name);
      && b.typescript.name == c.typescript.name && b.csharp.name == c.csharp.name
      && b.golang.name == c.golang.name && b.java.name == c.java.name && b.python.name == c.python.name
  {
    if '.' !in name {
      forall j | 0 <= j <= |name| ensures !OccursAt(name, ".", j) {
        OccursAtChar(name, '.', j);
      }
    }
  }

  /** Python and Go: "aws-s3" becomes "aws_s3" and "awss3". */
  lemma S3ServiceNames(svc: Service)
    requires svc == Service("aws-s3", "S3", "AWS::S3")
    ensures PythonServiceName(svc) == "aws_s3"
    ensures GolangServiceName(svc) == "awss3"
  {
    PythonServiceNameOfHyphenated(svc, "aws", "s3");
    GolangServiceNameOfHyphenated(svc, "aws", "s3");
  }

  /** Java: "aws-s3" becomes "services.s3". */
  lemma S3JavaServiceName(svc: Service)
    requires svc == Service("aws-s3", "S3", "AWS::S3")
    ensures JavaServiceName(svc) == "services.s3"
  {
    var rest := "s3";
    NoCharIn(rest, '-');
    assert ReplaceFirst(rest, "-", ".") == rest;
    JavaServiceNameOfAws(svc, rest);
  }

  /** C#: the namespace "AWS::S3" and capitalized name "S3" give "AWS.S3". */
  lemma S3CsharpServiceName(svc: Service)
    requires svc == Service("aws-s3", "S3", "AWS::S3")
    ensures CsharpServiceName(svc) == "AWS.S3"
  {
    assert svc.cloudFormationNamespace == "AWS" + "::" + "S3";
    assert Absent(svc.capitalized, ApiGatewayV2);
    CsharpServiceNameOf(svc, "AWS", "S3");
  }

  /** A namespace `<ns>::<rest>` and a capitalized name without "ApiGatewayV2"
      give the C# name `<ns>.<capitalized>`. */
  lemma CsharpServiceNameOf(service: Service, ns: string, rest: string)
    requires service.cloudFormationNamespace == ns + "::" + rest && ':' !in ns
    requires Absent(service.capitalized, ApiGatewayV2)
    ensures CsharpServiceName(service) == ns + "." + service.capitalized
  {
    CsharpNamespaceSegment(ns, rest);
  }

  /** The one exception: a capitalized name "ApiGatewayV2" is written
      "APIGatewayV2" in the C# namespace. */
  lemma CsharpServiceNameOfApiGatewayV2(service: Service, ns: string, rest: string)
    requires service.cloudFormationNamespace == ns + "::" + rest && ':' !in ns
    requires service.capitalized == ApiGatewayV2
    ensures CsharpServiceName(service) == ns + "." + CsharpApiGatewayV2
  {
    CsharpNamespaceSegment(ns, rest);
    assert FirstOccurrence(service.capitalized, ApiGatewayV2, 0);
  }

  /** A string without `c` has no occurrence of the one-character pattern `c`. */
  lemma NoCharIn(s: string, c: char)
    requires c !in s
    ensures Absent(s, [c])
  {
    forall j | 0 <= j <= |s| ensures !OccursAt(s, [c], j) {
      OccursAtChar(s, c, j);
    }
  }

  /** A stretch without boundaries is copied unchanged. */
  lemma {:induction false} InsertUnderscoresCopy(s: string, pass: GoPass, from: nat, upto: nat)
    requires from <= upto <= |s|
    requires forall i :: from <= i < upto ==> !Boundary(pass, s, i)
    ensures InsertUnderscores(s, pass, from) == s[from..upto] + InsertUnderscores(s, pass, upto)
    decreases upto - from
  {
    if from < upto {
      InsertUnderscoresCopy(s, pass, from + 1, upto);
      var tail := InsertUnderscores(s, pass, upto);
      assert InsertUnderscores(s, pass, from) == [s[from]] + (s[from + 1..upto] + tail);
      assert s[from..upto] == [s[from]] + s[from + 1..upto];
      assert [s[from]] + (s[from + 1..upto] + tail) == ([s[from]] + s[from + 1..upto]) + tail;
    }
  }

  /** A string with a single boundary at `k` gets a single '_' in front of `s[k]`. */
  lemma InsertUnderscoresSplitOnce(s: string, pass: GoPass, k: nat)
    requires k < |s| && Boundary(pass, s, k)
    requires forall i :: 0 <= i < k ==> !Boundary(pass, s, i)
    requires forall i :: k < i < |s| ==> !Boundary(pass, s, i)
    ensures InsertUnderscores(s, pass, 0) == s[..k] + "_" + s[k..]
  {
    InsertUnderscoresCopy(s, pass, 0, k);
    InsertUnderscoresCopy(s, pass, k + 1, |s|);
    var after := InsertUnderscores(s, pass, k + 1);
    assert InsertUnderscores(s, pass, |s|) == [];
    assert after == s[k + 1..|s|] + [];
    assert after == s[k + 1..];
    assert InsertUnderscores(s, pass, k) == "_" + ([s[k]] + after);
    assert s[k..] == [s[k]] + s[k + 1..];
    assert InsertUnderscores(s, pass, 0) == s[..k] + ("_" + s[k..]);
  }

  /** The acronym pass splits "IoTAnalytics" before the 'A' of "Analytics". */
  lemma IoTAnalyticsAcronymPass(s: string)
    requires s == "IoTAnalytics"
    ensures InsertUnderscores(s, AcronymPass, 0) == "IoT_Analytics"
  {
    forall i | 0 <= i < 3 ensures !Boundary(AcronymPass, s, i) {
      assert i == 0 || i == 1 || i == 2;
    }
    forall i | 3 < i < |s| ensures !Boundary(AcronymPass, s, i) {
      assert i == 4 || i == 5 || i == 6 || i == 7 || i == 8 || i == 9 || i == 10 || i == 11;
    }
    InsertUnderscoresSplitOnce(s, AcronymPass, 3);
  }

  /** The camel pass splits "IoT_Analytics" before the 'T'. */
  lemma IoTAnalyticsCamelPass(s: string)
    requires s == "IoT_Analytics"
    ensures InsertUnderscores(s, CamelPass, 0) == "Io_T_Analytics"
  {
    forall i | 0 <= i < 2 ensures !Boundary(CamelPass, s, i) {
      assert i == 0 || i == 1;
    }
    forall i | 2 < i < |s| ensures !Boundary(CamelPass, s, i) {
      assert i == 3 || i == 4 || i == 5 || i == 6 || i == 7 || i == 8 || i == 9 || i == 10 || i == 11 || i == 12;
    }
    InsertUnderscoresSplitOnce(s, CamelPass, 2);
  }

  /** "IoTAnalytics" gets an underscore at both its acronym and its camel-case
      boundary. */
  lemma IoTAnalyticsGoPackageName(svc: Service)
    requires svc.capitalized == "IoTAnalytics"
    ensures GoPackageName(svc) == "io_t_analytics"
  {
    var acronyms := InsertUnderscores(svc.capitalized, AcronymPass, 0);
    var camel := InsertUnderscores(acronyms, CamelPass, 0);
    assert GoPackageName(svc) == ToLower(camel);
    IoTAnalyticsAcronymPass(svc.capitalized);
    IoTAnalyticsCamelPass(acronyms);
    IoTAnalyticsLower(camel);
  }

  lemma IoTAnalyticsLower(s: string)
    requires s == "Io_T_Analytics"
    ensures ToLower(s) == "io_t_analytics"
  {
  }

  /** "S3" has no acronym or camel-case boundary, so its Go package is "s3". */
  lemma S3GoPackageName(svc: Service)
    requires svc.capitalized == "S3"
    ensures GoPackageName(svc) == "s3"
  {
    assert !Boundary(AcronymPass, "S3", 0) && !Boundary(AcronymPass, "S3", 1);
    assert InsertUnderscores("S3", AcronymPass, 2) == [];
    assert InsertUnderscores("S3", AcronymPass, 1) == "3";
    assert InsertUnderscores("S3", AcronymPass, 0) == "S3";
    assert !Boundary(CamelPass, "S3", 0) && !Boundary(CamelPass, "S3", 1);
    assert InsertUnderscores("S3", CamelPass, 2) == [];
    assert InsertUnderscores("S3", CamelPass, 1) == "3";
    assert InsertUnderscores("S3", CamelPass, 0) == "S3";
    assert ToLower("S3") == "s3";
  }
}
