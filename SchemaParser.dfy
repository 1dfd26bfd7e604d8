/**
 * Derivation of form fields and endpoints from a Swagger 2.0 style document
 * (utils/schemaParser.ts).
 *
 * `ParseSwaggerSchema` is the imperative parser: three passes that push into
 * `fields` and `endpoints` and share one `fieldNames` set. It is proved equal to
 * `DerivedSchema`, a definition in terms of candidate lists: every candidate field,
 * parameters first and then the main definition's properties, is offered in turn
 * to `Claim`, which keeps it only when its name is not taken yet.
 */
module SchemaParser {
  import opened Types
  import opened JsStrings

  // ---------------------------------------------------------------------------
  // Type inference

  /** `enumValues && enumValues.length > 0`. */
  predicate HasOptions(enumValues: Option<seq<string>>) {
    enumValues.Some? && |enumValues.value| > 0
  }

  predicate IsNumeric(swaggerType: Option<string>) {
    swaggerType == Some("number") || swaggerType == Some("integer")
  }

  /** mapSwaggerTypeToFieldType: the parameter path's type table. */
  function MapSwaggerTypeToFieldType(swaggerType: Option<string>, enumValues: Option<seq<string>>): (t: FieldType)
    ensures t == Dropdown <==> HasOptions(enumValues)
    ensures t == Number <==> !HasOptions(enumValues) && IsNumeric(swaggerType)
    ensures t == Checkbox <==> !HasOptions(enumValues) && swaggerType == Some("boolean")
    ensures t == Text <==> !HasOptions(enumValues) && !IsNumeric(swaggerType) && swaggerType != Some("boolean")
    ensures t != Textarea
  {
    if HasOptions(enumValues) then Dropdown
    else if swaggerType == Some("number") || swaggerType == Some("integer") then Number
    else if swaggerType == Some("boolean") then Checkbox
    else Text
  }

  /** The lower-cased name contains "description", "comment" or "note". */
  predicate NamesLongText(name: string) {
    var lower := ToLower(name);
    Includes(lower, "description") || Includes(lower, "comment") || Includes(lower, "note")
  }

  /**
   * createFieldDefinition: a field from a property of the main definition. Any
   * present `enum`, even an empty one, makes a dropdown; a string property whose
   * name suggests long text becomes a textarea.
   */
  function CreateFieldDefinition(name: string, property: SwaggerProperty, requiredFields: seq<string>): (f: FieldDefinition)
    ensures f.name == name
    ensures f.required <==> name in requiredFields
    ensures f.description == Some(property.description.GetOr(""))
    ensures f.options == property.enumValues
    ensures f.kind == Dropdown <==> property.enumValues.Some?
    ensures f.kind == Number <==> property.enumValues.None? && IsNumeric(property.swaggerType)
    ensures f.kind == Checkbox <==> property.enumValues.None? && property.swaggerType == Some("boolean")
    ensures f.kind == Textarea <==> property.enumValues.None? && property.swaggerType == Some("string") && NamesLongText(name)
    ensures f.defaultValue == None
  {
    var kind :=
      if property.enumValues.Some? then Dropdown
      else if property.swaggerType == Some("number") || property.swaggerType == Some("integer") then Number
      else if property.swaggerType == Some("boolean") then Checkbox
      else if property.swaggerType == Some("string") && NamesLongText(name) then Textarea
      else Text;
    FieldDefinition(name, kind, name in requiredFields, Some(property.description.GetOr("")),
                    property.enumValues, None)
  }

  /** `['header', 'query', 'formData'].includes(param.in)`. */
  predicate IsFormLocation(location: Option<string>) {
    location == Some("header") || location == Some("query") || location == Some("formData")
  }

  /**
   * The field a header, query or formData parameter becomes. `options` is the
   * parameter's `enum` as it is, also when the field is not a dropdown.
   */
  function ParameterField(p: Parameter): (f: FieldDefinition)
    ensures f.name == p.name
    ensures f.kind == MapSwaggerTypeToFieldType(p.swaggerType, p.enumValues)
    ensures f.required <==> p.required == Some(true)
    ensures f.description == Some(p.description.GetOr(""))
    ensures f.options == p.enumValues
    ensures f.kind == Dropdown ==> f.options.Some? && |f.options.value| > 0
    ensures f.defaultValue == None
  {
    FieldDefinition(p.name, MapSwaggerTypeToFieldType(p.swaggerType, p.enumValues),
                    p.required.GetOr(false), Some(p.description.GetOr("")), p.enumValues, None)
  }

  // ---------------------------------------------------------------------------
  // Selection of the main definition

  const Patterns: seq<string> := ["Input", "Request", "Dto", "Create", "Update"]

  /** `keys.find(key => key.endsWith(suffix))`. */
  function FirstEndingWith(keys: seq<string>, suffix: string): (r: Option<string>)
    ensures r.Some? ==> r.value in keys && EndsWith(r.value, suffix)
    ensures r.None? <==> forall i :: 0 <= i < |keys| ==> !EndsWith(keys[i], suffix)
    decreases |keys|
  {
    if keys == [] then None
    else if EndsWith(keys[0], suffix) then Some(keys[0])
    else FirstEndingWith(keys[1..], suffix)
  }

  /** Try each suffix of `patterns` in turn; failing all, the first key, if any. */
  function SelectByPatterns(keys: seq<string>, patterns: seq<string>): (r: Option<string>)
    ensures r.Some? ==> r.value in keys
    ensures r.None? <==> keys == []
    decreases |patterns|
  {
    if patterns == [] then (if |keys| > 0 then Some(keys[0]) else None)
    else
      match FirstEndingWith(keys, patterns[0])
      case Some(k) => Some(k)
      case None => SelectByPatterns(keys, patterns[1..])
  }

  lemma PatternsNonEmpty(p: nat)
    requires p < |Patterns|
    ensures |Patterns[p]| > 0
  {
    assert p == 0 || p == 1 || p == 2 || p == 3 || p == 4;
  }

  /** The key findMainDefinition returns; its priority rule is proved in SchemaParserProperties. */
  function MainDefinitionKey(keys: seq<string>): (r: Option<string>)
    ensures r.Some? ==> r.value in keys
    ensures r.None? <==> keys == []
  {
    SelectByPatterns(keys, Patterns)
  }

  /**
   * findMainDefinition: for each suffix in priority order, the first key ending with
   * it; otherwise the first key; `None` (null) only when there are no keys.
   */
  method FindMainDefinition(keys: seq<string>) returns (found: Option<string>)
    ensures found == MainDefinitionKey(keys)
    ensures found.Some? ==> found.value in keys
  {
    var p := 0;
    while p < |Patterns|
      invariant 0 <= p <= |Patterns|
      invariant SelectByPatterns(keys, Patterns[p..]) == MainDefinitionKey(keys)
    {
      var pattern := Patterns[p];
      SuffixStep(Patterns, p);
      PatternsNonEmpty(p);
      var candidate := FirstEndingWith(keys, pattern);
      if candidate.Some? && candidate.value != "" {
        return candidate;
      }
      p := p + 1;
    }
    if |keys| > 0 {
      found := Some(keys[0]);
    } else {
      found := None;
    }
  }

  /** `definitions[key]`: the first entry under `key`. */
  function Lookup(definitions: Definitions, key: string): (d: SwaggerDefinition)
    requires key in Keys(definitions)
    ensures exists i :: 0 <= i < |definitions| && definitions[i] == (key, d)
    decreases |definitions|
  {
    if definitions[0].0 == key then definitions[0].1
    else
      assert Keys(definitions) == [definitions[0].0] + Keys(definitions[1..]);
      var d := Lookup(definitions[1..], key);
      d
  }

  /** getAllDefinitions: the definition names in document order, none when absent. */
  function GetAllDefinitions(swagger: SwaggerSchema): (names: seq<string>)
    ensures swagger.definitions.None? ==> names == []
    ensures swagger.definitions.Some? ==>
      |names| == |swagger.definitions.value|
      && forall i :: 0 <= i < |names| ==> names[i] == swagger.definitions.value[i].0
  {
    if swagger.definitions.None? then [] else Keys(swagger.definitions.value)
  }

  // ---------------------------------------------------------------------------
  // The endpoints pass

  /** `typeof operation === 'object' && operation.summary`. */
  predicate HasSummary(entry: PathEntry) {
    entry.Operation? && entry.summary.Some? && entry.summary.value != ""
  }

  /** The endpoint of one method entry, if it has a summary. */
  function EntryEndpoint(fullPath: string, httpMethod: string, entry: PathEntry): seq<ApiEndpoint> {
    if HasSummary(entry) then [ApiEndpoint(fullPath, ToUpper(httpMethod), entry.summary)] else []
  }

  /** The endpoints of one path item, whose full path is `fullPath`. */
  function ItemEndpoints(fullPath: string, item: PathItem): seq<ApiEndpoint>
    decreases |item|
  {
    if item == [] then [] else EntryEndpoint(fullPath, item[0].0, item[0].1) + ItemEndpoints(fullPath, item[1..])
  }

  /** The endpoints of all path items, path order then method order. */
  function PathsEndpoints(basePath: Option<string>, paths: Paths): seq<ApiEndpoint>
    decreases |paths|
  {
    if paths == [] then []
    else ItemEndpoints(basePath.GetOr("") + paths[0].0, paths[0].1) + PathsEndpoints(basePath, paths[1..])
  }

  function SchemaEndpoints(swagger: SwaggerSchema): seq<ApiEndpoint> {
    match swagger.paths
    case None => []
    case Some(paths) => PathsEndpoints(swagger.basePath, paths)
  }

  // ---------------------------------------------------------------------------
  // Candidate fields

  /** The `parameters` array of an operation; nothing for any other value. */
  function EntryParameters(entry: PathEntry): seq<Parameter> {
    if entry.Operation? && entry.parameters.Some? then entry.parameters.value else []
  }

  function ItemParameters(item: PathItem): seq<Parameter>
    decreases |item|
  {
    if item == [] then [] else EntryParameters(item[0].1) + ItemParameters(item[1..])
  }

  /** Every operation parameter of the document, path order, then method order, then array order. */
  function AllParameters(paths: Paths): seq<Parameter>
    decreases |paths|
  {
    if paths == [] then [] else ItemParameters(paths[0].1) + AllParameters(paths[1..])
  }

  function DocumentParameters(swagger: SwaggerSchema): seq<Parameter> {
    match swagger.paths
    case None => []
    case Some(paths) => AllParameters(paths)
  }

  /** The fields of the header, query and formData parameters among `params`, in order. */
  function FormFields(params: seq<Parameter>): seq<FieldDefinition>
    decreases |params|
  {
    if params == [] then [] else FormContribution(params[0]) + FormFields(params[1..])
  }

  /** The field one parameter contributes to the parameter pass, if any. */
  function FormContribution(p: Parameter): seq<FieldDefinition> {
    if IsFormLocation(p.location) then [ParameterField(p)] else []
  }

  /** The candidates of the parameter pass. */
  function ParameterFields(swagger: SwaggerSchema): seq<FieldDefinition> {
    FormFields(DocumentParameters(swagger))
  }

  /** One candidate per property, in property order. */
  function PropertyFields(properties: Properties, requiredFields: seq<string>): (fs: seq<FieldDefinition>)
    ensures |fs| == |properties|
    ensures forall i :: 0 <= i < |properties| ==>
      fs[i] == CreateFieldDefinition(properties[i].0, properties[i].1, requiredFields)
    decreases |properties|
  {
    if properties == [] then []
    else [CreateFieldDefinition(properties[0].0, properties[0].1, requiredFields)]
         + PropertyFields(properties[1..], requiredFields)
  }

  /**
   * The candidates of the definition pass: the properties of the main definition,
   * nothing when definitions, a (truthy) main key or properties are missing.
   */
  function DefinitionFields(swagger: SwaggerSchema): seq<FieldDefinition> {
    match swagger.definitions
    case None => []
    case Some(definitions) =>
      match MainDefinitionKey(Keys(definitions))
      case None => []
      case Some(key) =>
        if key == "" then []
        else
          var def := Lookup(definitions, key);
          match def.properties
          case None => []
          case Some(properties) => PropertyFields(properties, def.required.GetOr([]))
  }

  // ---------------------------------------------------------------------------
  // First writer wins

  function Names(fields: seq<FieldDefinition>): set<string> {
    set f | f in fields :: f.name
  }

  predicate DistinctNames(fields: seq<FieldDefinition>) {
    forall i, j :: 0 <= i < j < |fields| ==> fields[i].name != fields[j].name
  }

  /** Push `f` unless its name is taken. */
  function Offer(fields: seq<FieldDefinition>, f: FieldDefinition): seq<FieldDefinition> {
    if f.name in Names(fields) then fields else fields + [f]
  }

  /** Offer every candidate in order. */
  function Claim(fields: seq<FieldDefinition>, candidates: seq<FieldDefinition>): seq<FieldDefinition>
    decreases |candidates|
  {
    if candidates == [] then fields else Claim(Offer(fields, candidates[0]), candidates[1..])
  }

  /** What parseSwaggerSchema returns. */
  function DerivedSchema(swagger: SwaggerSchema, serviceName: string): ServiceSchema {
    ServiceSchema(serviceName, Claim([], ParameterFields(swagger) + DefinitionFields(swagger)),
                  SchemaEndpoints(swagger), None)
  }

  // ---------------------------------------------------------------------------
  // Lemmas the parser's proof uses

  lemma NamesAppend(fields: seq<FieldDefinition>, f: FieldDefinition)
    ensures Names(fields + [f]) == Names(fields) + {f.name}
  {
    assert f in fields + [f];
    forall g | g in fields ensures g in fields + [f] { }
  }

  lemma {:induction false} ClaimAppend(fields: seq<FieldDefinition>, a: seq<FieldDefinition>, b: seq<FieldDefinition>)
    ensures Claim(fields, a + b) == Claim(Claim(fields, a), b)
    decreases |a|
  {
    if a == [] {
      assert a + b == b;
    } else {
      assert (a + b)[0] == a[0];
      assert (a + b)[1..] == a[1..] + b;
      ClaimAppend(Offer(fields, a[0]), a[1..], b);
    }
  }

  lemma {:induction false} FormFieldsAppend(a: seq<Parameter>, b: seq<Parameter>)
    ensures FormFields(a + b) == FormFields(a) + FormFields(b)
    decreases |a|
  {
    if a == [] {
      assert a + b == b;
    } else {
      var head := FormContribution(a[0]);
      assert (a + b)[0] == a[0];
      assert (a + b)[1..] == a[1..] + b;
      assert FormFields(a + b) == head + FormFields(a[1..] + b);
      FormFieldsAppend(a[1..], b);
      assert FormFields(a) == head + FormFields(a[1..]);
    }
  }

  /** One step of a loop over a suffix of `s`. */
  lemma SuffixStep<T>(s: seq<T>, i: nat)
    requires i < |s|
    ensures s[i..] == [s[i]] + s[i + 1..]
    ensures s[i..][0] == s[i] && s[i..][1..] == s[i + 1..]
  {
  }

  /** Offering the candidates `[x] + rest`, one at a time. */
  lemma ClaimStep(fields: seq<FieldDefinition>, x: seq<FieldDefinition>, rest: seq<FieldDefinition>)
    requires |x| <= 1
    ensures Claim(fields, x + rest) == Claim(if x == [] then fields else Offer(fields, x[0]), rest)
  {
    if x != [] {
      assert (x + rest)[0] == x[0];
      assert (x + rest)[1..] == rest;
    } else {
      assert x + rest == rest;
    }
  }

  // ---------------------------------------------------------------------------
  // The parser

  /**
   * parseSwaggerSchema: endpoints from every operation with a truthy summary;
   * fields from header/query/formData parameters, then from the main definition's
   * properties, each name taken at most once, first writer wins. The three passes
   * are the three methods below; `fields` and `fieldNames` pass from one to the next.
   */
  method ParseSwaggerSchema(swagger: SwaggerSchema, serviceName: string) returns (schema: ServiceSchema)
    ensures schema == DerivedSchema(swagger, serviceName)
  {
    var fields: seq<FieldDefinition> := [];
    var fieldNames: set<string> := {};
    var endpoints := ExtractEndpoints(swagger);
    fields, fieldNames := ExtractParameterFields(swagger, fields, fieldNames);
    fields, fieldNames := ExtractDefinitionFields(swagger, fields, fieldNames);
    ClaimAppend([], ParameterFields(swagger), DefinitionFields(swagger));
    schema := ServiceSchema(serviceName, fields, endpoints, None);
  }

  /** Pass 1: one endpoint per method entry with a truthy summary, path order then method order. */
  method ExtractEndpoints(swagger: SwaggerSchema) returns (endpoints: seq<ApiEndpoint>)
    ensures endpoints == SchemaEndpoints(swagger)
  {
    endpoints := [];
    if swagger.paths.Some? {
      var paths := swagger.paths.value;
      var i := 0;
      while i < |paths|
        invariant 0 <= i <= |paths|
        invariant endpoints + PathsEndpoints(swagger.basePath, paths[i..]) == PathsEndpoints(swagger.basePath, paths)
      {
        var path := paths[i].0;
        var item := paths[i].1;
        SuffixStep(paths, i);
        ghost var before := endpoints;
        endpoints := ExtractItemEndpoints(swagger.basePath.GetOr("") + path, item, endpoints);
        assert before + PathsEndpoints(swagger.basePath, paths[i..])
            == before + ItemEndpoints(swagger.basePath.GetOr("") + path, item) + PathsEndpoints(swagger.basePath, paths[i + 1..]);
        i := i + 1;
      }
    }
  }

  /** The method entries of one path item, appended to `endpoints0`. */
  method ExtractItemEndpoints(fullPath: string, item: PathItem, endpoints0: seq<ApiEndpoint>)
    returns (endpoints: seq<ApiEndpoint>)
    ensures endpoints == endpoints0 + ItemEndpoints(fullPath, item)
  {
    endpoints := endpoints0;
    var j := 0;
    while j < |item|
      invariant 0 <= j <= |item|
      invariant endpoints + ItemEndpoints(fullPath, item[j..]) == endpoints0 + ItemEndpoints(fullPath, item)
    {
      var httpMethod := item[j].0;
      var operation := item[j].1;
      SuffixStep(item, j);
      ghost var before := endpoints;
      if operation.Operation? && operation.summary.Some? && operation.summary.value != "" {
        endpoints := endpoints + [ApiEndpoint(fullPath, ToUpper(httpMethod), operation.summary)];
      }
      assert endpoints == before + EntryEndpoint(fullPath, httpMethod, operation);
      assert before + ItemEndpoints(fullPath, item[j..])
          == before + EntryEndpoint(fullPath, httpMethod, operation) + ItemEndpoints(fullPath, item[j + 1..]);
      j := j + 1;
    }
  }

  /**
   * Pass 2: every header, query or formData parameter whose name is not taken
   * becomes a field, and its name is taken at once.
   */
  method ExtractParameterFields(swagger: SwaggerSchema, fields0: seq<FieldDefinition>, fieldNames0: set<string>)
    returns (fields: seq<FieldDefinition>, fieldNames: set<string>)
    requires fieldNames0 == Names(fields0)
    ensures fields == Claim(fields0, ParameterFields(swagger))
    ensures fieldNames == Names(fields)
  {
    fields, fieldNames := fields0, fieldNames0;
    if swagger.paths.Some? {
      var paths := swagger.paths.value;
      var i := 0;
      while i < |paths|
        invariant 0 <= i <= |paths|
        invariant fieldNames == Names(fields)
        invariant Claim(fields, FormFields(AllParameters(paths[i..]))) == Claim(fields0, ParameterFields(swagger))
      {
        var item := paths[i].1;
        SuffixStep(paths, i);
        FormFieldsAppend(ItemParameters(item), AllParameters(paths[i + 1..]));
        ClaimAppend(fields, FormFields(ItemParameters(item)), FormFields(AllParameters(paths[i + 1..])));
        fields, fieldNames := ExtractItemParameterFields(item, fields, fieldNames);
        i := i + 1;
      }
    }
  }

  /** The parameter pass over the operations of one path item. */
  method ExtractItemParameterFields(item: PathItem, fields0: seq<FieldDefinition>, fieldNames0: set<string>)
    returns (fields: seq<FieldDefinition>, fieldNames: set<string>)
    requires fieldNames0 == Names(fields0)
    ensures fields == Claim(fields0, FormFields(ItemParameters(item)))
    ensures fieldNames == Names(fields)
  {
    fields, fieldNames := fields0, fieldNames0;
    var j := 0;
    while j < |item|
      invariant 0 <= j <= |item|
      invariant fieldNames == Names(fields)
      invariant Claim(fields, FormFields(ItemParameters(item[j..]))) == Claim(fields0, FormFields(ItemParameters(item)))
    {
      var operation := item[j].1;
      SuffixStep(item, j);
      assert ItemParameters(item[j..]) == EntryParameters(operation) + ItemParameters(item[j + 1..]);
      FormFieldsAppend(EntryParameters(operation), ItemParameters(item[j + 1..]));
      ClaimAppend(fields, FormFields(EntryParameters(operation)), FormFields(ItemParameters(item[j + 1..])));
      if operation.Operation? && operation.parameters.Some? {
        var params := operation.parameters.value;
        ghost var atOperation := fields;
        var k := 0;
        while k < |params|
          invariant 0 <= k <= |params|
          invariant fieldNames == Names(fields)
          invariant Claim(fields, FormFields(params[k..])) == Claim(atOperation, FormFields(params))
        {
          var param := params[k];
          SuffixStep(params, k);
          ClaimStep(fields, FormContribution(param), FormFields(params[k + 1..]));
          if IsFormLocation(param.location) && param.name !in fieldNames {
            NamesAppend(fields, ParameterField(param));
            fields := fields + [ParameterField(param)];
            fieldNames := fieldNames + {param.name};
          }
          k := k + 1;
        }
      }
      j := j + 1;
    }
  }

  /**
   * Pass 3: the properties of the main definition whose names are not taken
   * become fields, in property order.
   */
  method ExtractDefinitionFields(swagger: SwaggerSchema, fields0: seq<FieldDefinition>, fieldNames0: set<string>)
    returns (fields: seq<FieldDefinition>, fieldNames: set<string>)
    requires fieldNames0 == Names(fields0)
    ensures fields == Claim(fields0, DefinitionFields(swagger))
    ensures fieldNames == Names(fields)
  {
    fields, fieldNames := fields0, fieldNames0;
    if swagger.definitions.Some? {
      var definitions := swagger.definitions.value;
      var definitionKeys := Keys(definitions);
      var mainDefinition := FindMainDefinition(definitionKeys);
      if mainDefinition.Some? && mainDefinition.value != "" {
        var def := Lookup(definitions, mainDefinition.value);
        var requiredFields := def.required.GetOr([]);
        if def.properties.Some? {
          var properties := def.properties.value;
          var k := 0;
          while k < |properties|
            invariant 0 <= k <= |properties|
            invariant fieldNames == Names(fields)
            invariant Claim(fields, PropertyFields(properties[k..], requiredFields)) == Claim(fields0, DefinitionFields(swagger))
          {
            var propName := properties[k].0;
            var propDef := properties[k].1;
            SuffixStep(properties, k);
            ClaimStep(fields, [CreateFieldDefinition(propName, propDef, requiredFields)], PropertyFields(properties[k + 1..], requiredFields));
            if propName !in fieldNames {
              var field := CreateFieldDefinition(propName, propDef, requiredFields);
              NamesAppend(fields, field);
              fields := fields + [field];
              fieldNames := fieldNames + {propName};
            }
            k := k + 1;
          }
        }
      }
    }
  }
}
