/**
 * What parseSwaggerSchema promises, proved about `DerivedSchema` (which the parser
 * method is proved to compute): field names are unique, the field kept under a name
 * is the first candidate with that name, parameter fields precede definition fields,
 * only header/query/formData parameters become fields, every operation with a
 * summary gives an endpoint, and the main definition follows the suffix priority.
 */
module SchemaParserProperties {
  import opened Types
  import opened JsStrings
  import opened SchemaParser

  // ---------------------------------------------------------------------------
  // Reference definitions

  /** The first of `fields` named `name`. */
  function FirstWithName(fields: seq<FieldDefinition>, name: string): (r: Option<FieldDefinition>)
    ensures r.Some? ==> r.value in fields && r.value.name == name
    ensures r.None? <==> name !in Names(fields)
    decreases |fields|
  {
    if fields == [] then None
    else if fields[0].name == name then Some(fields[0])
    else
      NamesCons(fields);
      FirstWithName(fields[1..], name)
  }

  /** The index of the first of `fields` named `name`; |fields| when there is none. */
  function FirstIndex(fields: seq<FieldDefinition>, name: string): (i: nat)
    ensures i <= |fields|
    decreases |fields|
  {
    if fields == [] then 0
    else if fields[0].name == name then 0
    else 1 + FirstIndex(fields[1..], name)
  }

  /** The names of the header, query and formData parameters among `params`. */
  function FormParameterNames(params: seq<Parameter>): set<string> {
    set p | p in params && IsFormLocation(p.location) :: p.name
  }

  /** The endpoint an entry of the path item under `path` yields when it has a summary. */
  function EndpointOf(basePath: Option<string>, path: string, entry: (string, PathEntry)): ApiEndpoint
    requires entry.1.Operation?
  {
    ApiEndpoint(basePath.GetOr("") + path, ToUpper(entry.0), entry.1.summary)
  }

  lemma NamesCons(fields: seq<FieldDefinition>)
    requires fields != []
    ensures Names(fields) == {fields[0].name} + Names(fields[1..])
  {
    assert fields == [fields[0]] + fields[1..];
    forall g | g in fields ensures g == fields[0] || g in fields[1..] { }
  }

  // ---------------------------------------------------------------------------
  // First writer wins: Claim(acc, candidates)

  /** The fields kept so far stay in front; every field added is a candidate whose name was free. */
  lemma {:induction false} ClaimPrefix(acc: seq<FieldDefinition>, candidates: seq<FieldDefinition>)
    ensures var out := Claim(acc, candidates);
      && |acc| <= |out| && out[..|acc|] == acc
      && forall k :: |acc| <= k < |out| ==> out[k] in candidates && out[k].name !in Names(acc)
    decreases |candidates|
  {
    if candidates != [] {
      var c := candidates[0];
      var next := Offer(acc, c);
      ClaimPrefix(next, candidates[1..]);
      var out := Claim(next, candidates[1..]);
      assert out == Claim(acc, candidates);
      if c.name !in Names(acc) {
        NamesAppend(acc, c);
        assert out[..|next|][..|acc|] == out[..|acc|];
        assert out[|acc|] == next[|acc|] == c;
      }
      forall k | |acc| <= k < |out|
        ensures out[k] in candidates && out[k].name !in Names(acc)
      {
        if k >= |next| {
          assert out[k] in candidates[1..];
        }
      }
    }
  }

  /** Claim never takes a name twice. */
  lemma {:induction false} ClaimDistinct(acc: seq<FieldDefinition>, candidates: seq<FieldDefinition>)
    requires DistinctNames(acc)
    ensures DistinctNames(Claim(acc, candidates))
    decreases |candidates|
  {
    if candidates != [] {
      var c := candidates[0];
      var next := Offer(acc, c);
      if c.name !in Names(acc) {
        forall i | 0 <= i < |acc| ensures acc[i].name != c.name {
          assert acc[i] in acc;
        }
      }
      ClaimDistinct(next, candidates[1..]);
    }
  }

  /** Every candidate's name ends up taken, and no other name is. */
  lemma {:induction false} ClaimNames(acc: seq<FieldDefinition>, candidates: seq<FieldDefinition>)
    ensures Names(Claim(acc, candidates)) == Names(acc) + Names(candidates)
    decreases |candidates|
  {
    if candidates == [] {
      assert Names(candidates) == {};
    } else {
      var c := candidates[0];
      var next := Offer(acc, c);
      if c.name !in Names(acc) {
        NamesAppend(acc, c);
      }
      ClaimNames(next, candidates[1..]);
      NamesCons(candidates);
    }
  }

  /** Each field Claim adds is the first candidate with its name. */
  lemma {:induction false} ClaimFirstWins(acc: seq<FieldDefinition>, candidates: seq<FieldDefinition>)
    ensures var out := Claim(acc, candidates);
      forall k :: |acc| <= k < |out| ==> FirstWithName(candidates, out[k].name) == Some(out[k])
    decreases |candidates|
  {
    if candidates != [] {
      var c := candidates[0];
      var next := Offer(acc, c);
      var out := Claim(next, candidates[1..]);
      assert out == Claim(acc, candidates);
      ClaimFirstWins(next, candidates[1..]);
      ClaimPrefix(next, candidates[1..]);
      if c.name !in Names(acc) {
        NamesAppend(acc, c);
        assert out[|acc|] == next[..|next|][|acc|] == c;
      }
      forall k | |acc| <= k < |out|
        ensures FirstWithName(candidates, out[k].name) == Some(out[k])
      {
        if k >= |next| {
          assert out[k].name !in Names(next);
          assert c.name in Names(next) by {
            if c.name !in Names(acc) { assert c in next; }
          }
        }
      }
    }
  }

  /** The fields Claim adds come in the order their names first occur among the candidates. */
  lemma {:induction false} ClaimOrder(acc: seq<FieldDefinition>, candidates: seq<FieldDefinition>)
    ensures var out := Claim(acc, candidates);
      forall k1, k2 :: |acc| <= k1 < k2 < |out| ==>
        FirstIndex(candidates, out[k1].name) < FirstIndex(candidates, out[k2].name)
    decreases |candidates|
  {
    if candidates != [] {
      var c := candidates[0];
      var next := Offer(acc, c);
      var out := Claim(next, candidates[1..]);
      assert out == Claim(acc, candidates);
      ClaimOrder(next, candidates[1..]);
      ClaimPrefix(next, candidates[1..]);
      assert c.name in Names(next) by {
        if c.name !in Names(acc) { assert c in next; }
      }
      if c.name !in Names(acc) {
        NamesAppend(acc, c);
        assert out[|acc|] == next[..|next|][|acc|] == c;
      }
      forall k | |next| <= k < |out| ensures out[k].name != c.name {
        assert out[k].name !in Names(next);
      }
      OrderStep(candidates, out, |acc|, |next|);
    }
  }

  /**
   * The order step of ClaimOrder: fields from `mid` on are ordered by the later
   * candidates and none is named like the first; the field at `lo`, if any, is.
   */
  lemma OrderStep(candidates: seq<FieldDefinition>, out: seq<FieldDefinition>, lo: nat, mid: nat)
    requires candidates != [] && lo <= mid <= |out| && mid <= lo + 1
    requires mid == lo + 1 ==> out[lo].name == candidates[0].name
    requires forall k :: mid <= k < |out| ==> out[k].name != candidates[0].name
    requires forall k1, k2 :: mid <= k1 < k2 < |out| ==>
      FirstIndex(candidates[1..], out[k1].name) < FirstIndex(candidates[1..], out[k2].name)
    ensures forall k1, k2 :: lo <= k1 < k2 < |out| ==>
      FirstIndex(candidates, out[k1].name) < FirstIndex(candidates, out[k2].name)
  {
    forall k | mid <= k < |out|
      ensures FirstIndex(candidates, out[k].name) == 1 + FirstIndex(candidates[1..], out[k].name)
    {
    }
  }

  // ---------------------------------------------------------------------------
  // Helpers on names

  /** In a list with distinct names, the first field named `f.name` is `f`. */
  lemma {:induction false} FirstWithNameDistinct(fields: seq<FieldDefinition>, k: nat)
    requires DistinctNames(fields) && k < |fields|
    ensures FirstWithName(fields, fields[k].name) == Some(fields[k])
    decreases k
  {
    if k > 0 {
      assert fields[0].name != fields[k].name;
      assert fields[1..][k - 1] == fields[k];
      FirstWithNameDistinct(fields[1..], k - 1);
    }
  }

  lemma {:induction false} FirstWithNameAppend(a: seq<FieldDefinition>, b: seq<FieldDefinition>, name: string)
    ensures FirstWithName(a + b, name) == if name in Names(a) then FirstWithName(a, name) else FirstWithName(b, name)
    decreases |a|
  {
    if a == [] {
      assert a + b == b;
    } else {
      assert (a + b)[0] == a[0] && (a + b)[1..] == a[1..] + b;
      NamesCons(a);
      FirstWithNameAppend(a[1..], b, name);
    }
  }

  /** Exactly the header, query and formData parameters become candidates, each as ParameterField. */
  lemma {:induction false} FormFieldsExactly(params: seq<Parameter>)
    ensures forall f :: f in FormFields(params) <==>
      exists p :: p in params && IsFormLocation(p.location) && f == ParameterField(p)
    ensures Names(FormFields(params)) == FormParameterNames(params)
    decreases |params|
  {
    if params != [] {
      FormFieldsExactly(params[1..]);
      var head := FormContribution(params[0]);
      assert FormFields(params) == head + FormFields(params[1..]);
      forall f ensures f in FormFields(params) <==>
        exists p :: p in params && IsFormLocation(p.location) && f == ParameterField(p)
      {
        if f in FormFields(params) && f !in head {
          var p :| p in params[1..] && IsFormLocation(p.location) && f == ParameterField(p);
          assert p in params;
        }
        if exists p :: p in params && IsFormLocation(p.location) && f == ParameterField(p) {
          var p :| p in params && IsFormLocation(p.location) && f == ParameterField(p);
          if p != params[0] {
            assert p in params[1..];
          }
        }
      }
      forall n ensures n in Names(FormFields(params)) <==> n in FormParameterNames(params) {
        if n in FormParameterNames(params) {
          var p :| p in params && IsFormLocation(p.location) && p.name == n;
          assert ParameterField(p) in FormFields(params);
        }
      }
    }
  }

  // ---------------------------------------------------------------------------
  // The parser's fields

  /** No two fields of a parsed schema share a name. */
  lemma FieldNamesUnique(swagger: SwaggerSchema, serviceName: string)
    ensures DistinctNames(DerivedSchema(swagger, serviceName).fields)
  {
    ClaimDistinct([], ParameterFields(swagger) + DefinitionFields(swagger));
  }

  /**
   * The schema's fields are determined by the candidates: their names are exactly
   * the candidates' names, each field is the first candidate with its name, and they
   * come in the order of those first occurrences.
   */
  lemma FieldsAreFirstCandidates(swagger: SwaggerSchema, serviceName: string)
    ensures var candidates := ParameterFields(swagger) + DefinitionFields(swagger);
      var fields := DerivedSchema(swagger, serviceName).fields;
      && Names(fields) == Names(ParameterFields(swagger)) + Names(DefinitionFields(swagger))
      && (forall k :: 0 <= k < |fields| ==> FirstWithName(candidates, fields[k].name) == Some(fields[k]))
      && (forall k1, k2 :: 0 <= k1 < k2 < |fields| ==>
            FirstIndex(candidates, fields[k1].name) < FirstIndex(candidates, fields[k2].name))
  {
    var candidates := ParameterFields(swagger) + DefinitionFields(swagger);
    ClaimNames([], candidates);
    assert Names([]) == {};
    NamesAppendAll(ParameterFields(swagger), DefinitionFields(swagger));
    ClaimFirstWins([], candidates);
    ClaimOrder([], candidates);
  }

  lemma NamesAppendAll(a: seq<FieldDefinition>, b: seq<FieldDefinition>)
    ensures Names(a + b) == Names(a) + Names(b)
  {
    forall f | f in a ensures f in a + b { }
    forall f | f in b ensures f in a + b { }
  }

  /**
   * The fields from parameters come first, as the parameter pass leaves them; every
   * later field is a property of the main definition whose name no form parameter took.
   */
  lemma ParameterFieldsComeFirst(swagger: SwaggerSchema, serviceName: string)
    ensures var fromParameters := Claim([], ParameterFields(swagger));
      var fields := DerivedSchema(swagger, serviceName).fields;
      && |fromParameters| <= |fields| && fields[..|fromParameters|] == fromParameters
      && forall k :: |fromParameters| <= k < |fields| ==>
           fields[k] in DefinitionFields(swagger) && fields[k].name !in Names(ParameterFields(swagger))
  {
    var fromParameters := Claim([], ParameterFields(swagger));
    ClaimAppend([], ParameterFields(swagger), DefinitionFields(swagger));
    ClaimPrefix(fromParameters, DefinitionFields(swagger));
    ClaimNames([], ParameterFields(swagger));
    assert Names([]) == {};
  }

  /**
   * When a parameter and a property share a name, the field under that name is the
   * first such parameter's; a property name no parameter took gives that property's field.
   */
  lemma ParameterWinsCollision(swagger: SwaggerSchema, serviceName: string, name: string)
    requires name in Names(ParameterFields(swagger)) + Names(DefinitionFields(swagger))
    ensures var fields := DerivedSchema(swagger, serviceName).fields;
      FirstWithName(fields, name) ==
        if name in Names(ParameterFields(swagger)) then FirstWithName(ParameterFields(swagger), name)
        else FirstWithName(DefinitionFields(swagger), name)
  {
    var fields := DerivedSchema(swagger, serviceName).fields;
    FieldsAreFirstCandidates(swagger, serviceName);
    FieldNamesUnique(swagger, serviceName);
    assert name in Names(fields);
    var f :| f in fields && f.name == name;
    var k :| 0 <= k < |fields| && fields[k] == f;
    FirstWithNameDistinct(fields, k);
    FirstWithNameAppend(ParameterFields(swagger), DefinitionFields(swagger), name);
  }

  /**
   * A name is a field name iff a header, query or formData parameter or a property of
   * the main definition carries it: path and body parameters contribute nothing.
   */
  lemma OnlyFormParametersYieldFields(swagger: SwaggerSchema, serviceName: string, name: string)
    ensures name in Names(DerivedSchema(swagger, serviceName).fields) <==>
      name in FormParameterNames(DocumentParameters(swagger)) || name in Names(DefinitionFields(swagger))
  {
    FieldsAreFirstCandidates(swagger, serviceName);
    FormFieldsExactly(DocumentParameters(swagger));
  }

  /** A field from a parameter is that parameter's ParameterField, so it carries its required flag, description and enum. */
  lemma ParameterFieldsFromFormParameters(swagger: SwaggerSchema, f: FieldDefinition)
    requires f in ParameterFields(swagger)
    ensures exists p :: p in DocumentParameters(swagger) && IsFormLocation(p.location) && f == ParameterField(p)
  {
    FormFieldsExactly(DocumentParameters(swagger));
  }

  /** Without paths, no endpoints and no parameter fields; without definitions, no definition fields. */
  lemma AbsentSectionsContributeNothing(swagger: SwaggerSchema, serviceName: string)
    ensures swagger.paths.None? ==> DerivedSchema(swagger, serviceName).endpoints == [] && ParameterFields(swagger) == []
    ensures swagger.definitions.None? || swagger.definitions == Some([]) ==> DefinitionFields(swagger) == []
    ensures DerivedSchema(swagger, serviceName).serviceName == serviceName
  {
    if swagger.definitions == Some([]) {
      assert Keys(swagger.definitions.value) == [];
    }
  }

  /** The empty document `{}` gives a schema with no fields and no endpoints. */
  lemma EmptyDocument(serviceName: string)
    ensures DerivedSchema(SwaggerSchema(None, None, None), serviceName) == ServiceSchema(serviceName, [], [], None)
  {
    AbsentSectionsContributeNothing(SwaggerSchema(None, None, None), serviceName);
    assert ParameterFields(SwaggerSchema(None, None, None)) + DefinitionFields(SwaggerSchema(None, None, None)) == [];
  }

  /** The definition pass yields one candidate per property of the main definition, none for other definitions. */
  lemma DefinitionFieldsOfMain(swagger: SwaggerSchema, key: string)
    requires swagger.definitions.Some?
    requires MainDefinitionKey(Keys(swagger.definitions.value)) == Some(key) && key != ""
    ensures var def := Lookup(swagger.definitions.value, key);
      match def.properties
      case None => DefinitionFields(swagger) == []
      case Some(properties) =>
        |DefinitionFields(swagger)| == |properties|
        && forall i :: 0 <= i < |properties| ==>
             DefinitionFields(swagger)[i].name == properties[i].0
             && (DefinitionFields(swagger)[i].required <==> properties[i].0 in def.required.GetOr([]))
  {
  }

  /**
   * No definitions, no main definition, or a main definition under the empty (falsy)
   * key: the definition contributes no field.
   */
  lemma NoMainDefinitionNoFields(swagger: SwaggerSchema)
    requires swagger.definitions.None?
      || MainDefinitionKey(Keys(swagger.definitions.value)) == None
      || MainDefinitionKey(Keys(swagger.definitions.value)) == Some("")
    ensures DefinitionFields(swagger) == []
  {
  }

  // ---------------------------------------------------------------------------
  // Type inference on the two paths

  /**
   * The two type tables agree except where the source's differ: an empty `enum`
   * gives a dropdown on the definition path only, and only the definition path
   * has the textarea rule.
   */
  lemma TypeTablesDiffer(name: string, property: SwaggerProperty, requiredFields: seq<string>)
    ensures var kind := CreateFieldDefinition(name, property, requiredFields).kind;
      var mapped := MapSwaggerTypeToFieldType(property.swaggerType, property.enumValues);
      && (property.enumValues == Some([]) ==> kind == Dropdown && mapped != Dropdown)
      && (property.enumValues != Some([]) && kind != Textarea ==> kind == mapped)
      && (kind == Textarea ==> mapped == Text)
  {
  }

  /** An enum beats a numeric type: `enum: ["A","B"]` with `type: "integer"` is a dropdown with those options. */
  lemma EnumBeatsNumeric(name: string, requiredFields: seq<string>)
    ensures var f := CreateFieldDefinition(name, SwaggerProperty(Some("integer"), None, Some(["A", "B"]), None), requiredFields);
      f.kind == Dropdown && f.options == Some(["A", "B"])
  {
  }

  /** `customerComment` (a string) is a textarea. */
  lemma CommentIsTextarea()
    ensures CreateFieldDefinition("customerComment", SwaggerProperty(Some("string"), None, None, None), []).kind == Textarea
  {
    var lower := ToLower("customerComment");
    assert lower[8..] == "comment";
    IncludesSuffix(lower, 8, "comment");
  }

  /** `customerName` (a string) is plain text. */
  lemma NameIsText()
    ensures CreateFieldDefinition("customerName", SwaggerProperty(Some("string"), None, None, None), []).kind == Text
  {
    NameIsNoLongText("customerName");
    StringPropertyField("customerName", []);
  }

  lemma NameIsNoLongText(name: string)
    requires name == "customerName"
    ensures !NamesLongText(name)
  {
    assert ToLower(name) == "customername";
    NameHasNoLongTextWord();
  }

  lemma NameHasNoLongTextWord()
    ensures !Includes("customername", "description")
    ensures !Includes("customername", "comment")
    ensures !Includes("customername", "note")
  {
    DescriptionNotInName();
    CommentNotInName();
    NoteNotInName();
  }

  lemma DescriptionNotInName()
    ensures !Includes("customername", "description")
  {
    var lower := "customername";
    assert lower[0..] == lower;
    // no 'd' at all
    NotIncludesFrom(lower, "description", 0);
  }

  lemma CommentNotInName()
    ensures !Includes("customername", "comment")
  {
    var lower := "customername";
    assert lower[0..] == lower;
    // the only 'c' starts "cu", not "co"
    NotIncludesFrom(lower, "comment", 1);
    NotIncludesSkip(lower, "comment", 0);
  }

  lemma NoteNotInName()
    ensures !Includes("customername", "note")
  {
    var lower := "customername";
    // the only 'n' starts "na", not "no"
    NotIncludesFrom(lower, "note", 9);
    assert lower[8..] == "name";
    assert lower[8..][1] != "note"[1];
    NotIncludesSkip(lower, "note", 8);
    assert lower[..8] == "customer";
    assert forall j :: 0 <= j < 8 ==> lower[..8][j] != 'n';
    NotIncludesPrefix(lower, "note", 8);
  }

  lemma StringIsNoOtherType()
    ensures !IsNumeric(Some("string")) && Some("string") != Some("boolean")
  {
    assert "string"[0] != "number"[0];
    assert |"string"| != |"integer"|;
    assert |"string"| != |"boolean"|;
  }

  /** No occurrence starts in `s[i..]` when the first character of `sub` does not occur there. */
  lemma {:induction false} NotIncludesFrom(s: string, sub: string, i: nat)
    requires i <= |s| && |sub| > 0
    requires forall j :: i <= j < |s| ==> s[j] != sub[0]
    ensures !Includes(s[i..], sub)
    decreases |s| - i
  {
    if i < |s| {
      assert s[i..][0] == s[i] != sub[0];
      assert !(sub <= s[i..]);
      assert s[i..][1..] == s[i + 1..];
      NotIncludesFrom(s, sub, i + 1);
    } else {
      assert s[i..] == [];
    }
  }

  lemma NotIncludesSkip(s: string, sub: string, i: nat)
    requires i < |s| && !(sub <= s[i..]) && !Includes(s[i + 1..], sub)
    ensures !Includes(s[i..], sub)
  {
    assert s[i..][1..] == s[i + 1..];
  }

  /** No occurrence in `s` when none starts before `i` and none in `s[i..]`. */
  lemma {:induction false} NotIncludesPrefix(s: string, sub: string, i: nat)
    requires i <= |s| && |sub| > 0 && !Includes(s[i..], sub)
    requires forall j :: 0 <= j < i ==> s[j] != sub[0]
    ensures !Includes(s, sub)
    decreases i
  {
    if i > 0 {
      assert s[1..][i - 1..] == s[i..];
      NotIncludesPrefix(s[1..], sub, i - 1);
    }
  }

  lemma {:induction false} IncludesSuffix(s: string, i: nat, sub: string)
    requires i <= |s| && Includes(s[i..], sub)
    ensures Includes(s, sub)
    decreases i
  {
    if i > 0 {
      assert s[1..][i - 1..] == s[i..];
      IncludesSuffix(s[1..], i - 1, sub);
    }
  }

  // ---------------------------------------------------------------------------
  // Selection of the main definition

  /**
   * The main definition is the first key ending with the first suffix of
   * Input, Request, Dto, Create, Update that any key ends with.
   */
  lemma MainDefinitionPriority(keys: seq<string>, p: nat, i: nat)
    requires p < |Patterns| && i < |keys| && EndsWith(keys[i], Patterns[p])
    requires forall q, j :: 0 <= q < p && 0 <= j < |keys| ==> !EndsWith(keys[j], Patterns[q])
    requires forall j :: 0 <= j < i ==> !EndsWith(keys[j], Patterns[p])
    ensures MainDefinitionKey(keys) == Some(keys[i])
  {
    SelectFrom(keys, Patterns, p, i);
  }

  lemma {:induction false} SelectFrom(keys: seq<string>, patterns: seq<string>, p: nat, i: nat)
    requires p < |patterns| && i < |keys| && EndsWith(keys[i], patterns[p])
    requires forall q, j :: 0 <= q < p && 0 <= j < |keys| ==> !EndsWith(keys[j], patterns[q])
    requires forall j :: 0 <= j < i ==> !EndsWith(keys[j], patterns[p])
    ensures SelectByPatterns(keys, patterns) == Some(keys[i])
    decreases p
  {
    if p == 0 {
      FirstEndingWithIsFirst(keys, patterns[0], i);
    } else {
      assert FirstEndingWith(keys, patterns[0]).None? by {
        forall j | 0 <= j < |keys| ensures !EndsWith(keys[j], patterns[0]) { }
      }
      SelectFrom(keys, patterns[1..], p - 1, i);
    }
  }

  lemma {:induction false} FirstEndingWithIsFirst(keys: seq<string>, suffix: string, i: nat)
    requires i < |keys| && EndsWith(keys[i], suffix)
    requires forall j :: 0 <= j < i ==> !EndsWith(keys[j], suffix)
    ensures FirstEndingWith(keys, suffix) == Some(keys[i])
    decreases i
  {
    if i > 0 {
      assert !EndsWith(keys[0], suffix);
      FirstEndingWithIsFirst(keys[1..], suffix, i - 1);
    }
  }

  /** With no key ending with any suffix, the first key is chosen; with no keys, none. */
  lemma MainDefinitionFallback(keys: seq<string>)
    requires forall q, j :: 0 <= q < |Patterns| && 0 <= j < |keys| ==> !EndsWith(keys[j], Patterns[q])
    ensures MainDefinitionKey(keys) == if keys == [] then None else Some(keys[0])
  {
    SelectFallback(keys, Patterns);
  }

  lemma {:induction false} SelectFallback(keys: seq<string>, patterns: seq<string>)
    requires forall q, j :: 0 <= q < |patterns| && 0 <= j < |keys| ==> !EndsWith(keys[j], patterns[q])
    ensures SelectByPatterns(keys, patterns) == if keys == [] then None else Some(keys[0])
    decreases |patterns|
  {
    if patterns != [] {
      assert FirstEndingWith(keys, patterns[0]).None? by {
        forall j | 0 <= j < |keys| ensures !EndsWith(keys[j], patterns[0]) { }
      }
      SelectFallback(keys, patterns[1..]);
    }
  }

  /** The three selection examples: Input beats Dto, Request is found after a plain key, else the first key. */
  lemma MainDefinitionExamples()
    ensures MainDefinitionKey(["FooDto", "FooInput"]) == Some("FooInput")
    ensures MainDefinitionKey(["Bar", "BazRequest"]) == Some("BazRequest")
    ensures MainDefinitionKey(["Alpha", "Beta"]) == Some("Alpha")
  {
    InputBeatsDto(["FooDto", "FooInput"]);
    RequestAfterPlainKey(["Bar", "BazRequest"]);
    FirstKeyFallback(["Alpha", "Beta"]);
  }

  lemma InputBeatsDto(keys: seq<string>)
    requires keys == ["FooDto", "FooInput"]
    ensures MainDefinitionKey(keys) == Some("FooInput")
  {
    assert EndsWith(keys[1], "Input");
    assert !EndsWith(keys[0], "Input");
    MainDefinitionPriority(keys, 0, 1);
  }

  lemma RequestAfterPlainKey(keys: seq<string>)
    requires keys == ["Bar", "BazRequest"]
    ensures MainDefinitionKey(keys) == Some("BazRequest")
  {
    assert EndsWith(keys[1], "Request");
    assert !EndsWith(keys[0], "Input") && !EndsWith(keys[1], "Input") && !EndsWith(keys[0], "Request");
    MainDefinitionPriority(keys, 1, 1);
  }

  lemma FirstKeyFallback(keys: seq<string>)
    requires keys == ["Alpha", "Beta"]
    ensures MainDefinitionKey(keys) == Some("Alpha")
  {
    forall q, j | 0 <= q < |Patterns| && 0 <= j < |keys| ensures !EndsWith(keys[j], Patterns[q]) {
      assert q == 0 || q == 1 || q == 2 || q == 3 || q == 4;
    }
    MainDefinitionFallback(keys);
  }

  // ---------------------------------------------------------------------------
  // Endpoints

  lemma {:induction false} ItemEndpointsExactly(basePath: Option<string>, path: string, item: PathItem)
    ensures forall j :: 0 <= j < |item| && HasSummary(item[j].1) ==>
      EndpointOf(basePath, path, item[j]) in ItemEndpoints(basePath.GetOr("") + path, item)
    ensures forall e :: e in ItemEndpoints(basePath.GetOr("") + path, item) ==>
      exists j :: 0 <= j < |item| && HasSummary(item[j].1) && e == EndpointOf(basePath, path, item[j])
    decreases |item|
  {
    if item != [] {
      var fullPath := basePath.GetOr("") + path;
      ItemEndpointsExactly(basePath, path, item[1..]);
      var head := EntryEndpoint(fullPath, item[0].0, item[0].1);
      assert ItemEndpoints(fullPath, item) == head + ItemEndpoints(fullPath, item[1..]);
      forall j | 0 <= j < |item| && HasSummary(item[j].1)
        ensures EndpointOf(basePath, path, item[j]) in ItemEndpoints(fullPath, item)
      {
        if j > 0 {
          assert item[1..][j - 1] == item[j];
        }
      }
      forall e | e in ItemEndpoints(fullPath, item)
        ensures exists j :: 0 <= j < |item| && HasSummary(item[j].1) && e == EndpointOf(basePath, path, item[j])
      {
        if e !in head {
          var j :| 0 <= j < |item[1..]| && HasSummary(item[1..][j].1) && e == EndpointOf(basePath, path, item[1..][j]);
          assert item[1..][j] == item[j + 1];
        }
      }
    }
  }

  /**
   * Every method entry whose value is an operation with a truthy summary gives the
   * endpoint (basePath + path, upper-cased method, summary), and no other endpoint exists.
   */
  lemma {:induction false} EndpointsComplete(basePath: Option<string>, paths: Paths)
    ensures forall i, j :: 0 <= i < |paths| && 0 <= j < |paths[i].1| && HasSummary(paths[i].1[j].1) ==>
      EndpointOf(basePath, paths[i].0, paths[i].1[j]) in PathsEndpoints(basePath, paths)
    ensures forall e :: e in PathsEndpoints(basePath, paths) ==>
      exists i, j :: 0 <= i < |paths| && 0 <= j < |paths[i].1| && HasSummary(paths[i].1[j].1)
                     && e == EndpointOf(basePath, paths[i].0, paths[i].1[j])
    decreases |paths|
  {
    if paths != [] {
      EndpointsComplete(basePath, paths[1..]);
      ItemEndpointsExactly(basePath, paths[0].0, paths[0].1);
      var head := ItemEndpoints(basePath.GetOr("") + paths[0].0, paths[0].1);
      assert PathsEndpoints(basePath, paths) == head + PathsEndpoints(basePath, paths[1..]);
      forall i, j | 0 <= i < |paths| && 0 <= j < |paths[i].1| && HasSummary(paths[i].1[j].1)
        ensures EndpointOf(basePath, paths[i].0, paths[i].1[j]) in PathsEndpoints(basePath, paths)
      {
        if i > 0 {
          assert paths[1..][i - 1] == paths[i];
        }
      }
      forall e | e in PathsEndpoints(basePath, paths)
        ensures exists i, j :: 0 <= i < |paths| && 0 <= j < |paths[i].1| && HasSummary(paths[i].1[j].1)
                               && e == EndpointOf(basePath, paths[i].0, paths[i].1[j])
      {
        if e in head {
          var j :| 0 <= j < |paths[0].1| && HasSummary(paths[0].1[j].1) && e == EndpointOf(basePath, paths[0].0, paths[0].1[j]);
        } else {
          var rest := paths[1..];
          var i, j :| 0 <= i < |rest| && 0 <= j < |rest[i].1| && HasSummary(rest[i].1[j].1)
                      && e == EndpointOf(basePath, rest[i].0, rest[i].1[j]);
          assert rest[i] == paths[i + 1];
        }
      }
    }
  }

  // ---------------------------------------------------------------------------
  // Endpoints in order: one per entry with a summary, in document order

  /** The indices, from `lo` on, of the entries of `item` that yield an endpoint, in increasing order. */
  function SummaryIndicesFrom(item: PathItem, lo: nat): seq<nat>
    decreases |item| - lo
  {
    if lo >= |item| then [] else (if HasSummary(item[lo].1) then [lo] else []) + SummaryIndicesFrom(item, lo + 1)
  }

  /** `idx` lists, strictly increasing, exactly the indices from `lo` on of the entries of `item` with a summary. */
  predicate SummaryIndexList(item: PathItem, lo: nat, idx: seq<nat>) {
    && (forall k :: 0 <= k < |idx| ==> lo <= idx[k] < |item| && HasSummary(item[idx[k]].1))
    && (forall k, l :: 0 <= k < l < |idx| ==> idx[k] < idx[l])
    && (forall j :: lo <= j < |item| && HasSummary(item[j].1) ==> j in idx)
  }

  /** The endpoints the entries of `item` at the indices `idx` yield, in the order of `idx`. */
  function EndpointsAt(basePath: Option<string>, path: string, item: PathItem, idx: seq<nat>): seq<ApiEndpoint>
    requires forall k :: 0 <= k < |idx| ==> idx[k] < |item| && HasSummary(item[idx[k]].1)
  {
    seq(|idx|, k requires 0 <= k < |idx| && idx[k] < |item| && HasSummary(item[idx[k]].1) =>
          EndpointOf(basePath, path, item[idx[k]]))
  }

  lemma {:induction false} SummaryIndicesFromList(item: PathItem, lo: nat)
    ensures SummaryIndexList(item, lo, SummaryIndicesFrom(item, lo))
    decreases |item| - lo
  {
    if lo < |item| {
      SummaryIndicesFromList(item, lo + 1);
      var rest := SummaryIndicesFrom(item, lo + 1);
      if HasSummary(item[lo].1) {
        assert SummaryIndicesFrom(item, lo) == [lo] + rest;
        IndexListCons(item, lo, rest);
      } else {
        assert SummaryIndicesFrom(item, lo) == rest;
        IndexListSkip(item, lo, rest);
      }
    }
  }

  lemma IndexListCons(item: PathItem, lo: nat, rest: seq<nat>)
    requires lo < |item| && HasSummary(item[lo].1) && SummaryIndexList(item, lo + 1, rest)
    ensures SummaryIndexList(item, lo, [lo] + rest)
  {
    var idx := [lo] + rest;
    forall k | 0 < k < |idx| ensures idx[k] == rest[k - 1] { }
    forall j | lo <= j < |item| && HasSummary(item[j].1) ensures j in idx {
      if j > lo {
        assert j in rest;
      }
    }
  }

  lemma IndexListSkip(item: PathItem, lo: nat, rest: seq<nat>)
    requires lo < |item| && !HasSummary(item[lo].1) && SummaryIndexList(item, lo + 1, rest)
    ensures SummaryIndexList(item, lo, rest)
  {
  }

  lemma {:induction false} ItemEndpointsFrom(basePath: Option<string>, path: string, item: PathItem, lo: nat)
    requires lo <= |item|
    ensures SummaryIndexList(item, lo, SummaryIndicesFrom(item, lo))
    ensures ItemEndpoints(basePath.GetOr("") + path, item[lo..])
         == EndpointsAt(basePath, path, item, SummaryIndicesFrom(item, lo))
    decreases |item| - lo
  {
    SummaryIndicesFromList(item, lo);
    if lo < |item| {
      var fullPath := basePath.GetOr("") + path;
      ItemEndpointsFrom(basePath, path, item, lo + 1);
      var rest := SummaryIndicesFrom(item, lo + 1);
      var idx := SummaryIndicesFrom(item, lo);
      ItemEndpointsUnfold(fullPath, item, lo);
      if HasSummary(item[lo].1) {
        assert idx == [lo] + rest;
        EndpointsAtCons(basePath, path, item, lo, rest);
      } else {
        assert idx == rest;
      }
    }
  }

  lemma ItemEndpointsUnfold(fullPath: string, item: PathItem, lo: nat)
    requires lo < |item|
    ensures ItemEndpoints(fullPath, item[lo..])
         == EntryEndpoint(fullPath, item[lo].0, item[lo].1) + ItemEndpoints(fullPath, item[lo + 1..])
  {
    assert item[lo..][1..] == item[lo + 1..];
  }

  lemma EndpointsAtCons(basePath: Option<string>, path: string, item: PathItem, lo: nat, rest: seq<nat>)
    requires lo < |item| && HasSummary(item[lo].1)
    requires forall k :: 0 <= k < |rest| ==> rest[k] < |item| && HasSummary(item[rest[k]].1)
    ensures EndpointsAt(basePath, path, item, [lo] + rest)
         == [EndpointOf(basePath, path, item[lo])] + EndpointsAt(basePath, path, item, rest)
  {
    var idx := [lo] + rest;
    forall k | 0 < k < |idx| ensures idx[k] == rest[k - 1] { }
  }

  /**
   * A path item yields exactly one endpoint per entry with a summary, in the order of
   * its entries: duplicates of a method name after upper-casing both stay.
   */
  lemma ItemEndpointsInOrder(basePath: Option<string>, path: string, item: PathItem)
    ensures SummaryIndexList(item, 0, SummaryIndicesFrom(item, 0))
    ensures ItemEndpoints(basePath.GetOr("") + path, item)
         == EndpointsAt(basePath, path, item, SummaryIndicesFrom(item, 0))
  {
    assert item[0..] == item;
    ItemEndpointsFrom(basePath, path, item, 0);
  }

  /** `p` comes strictly before `q` in document order: by path, then by method entry. */
  predicate PairBefore(p: (nat, nat), q: (nat, nat)) {
    p.0 < q.0 || (p.0 == q.0 && p.1 < q.1)
  }

  /** The (path, entry) index pairs, from path `lo` on, of the entries that yield an endpoint, in document order. */
  function SummaryPairsFrom(paths: Paths, lo: nat): seq<(nat, nat)>
    decreases |paths| - lo
  {
    if lo >= |paths| then []
    else
      var idx := SummaryIndicesFrom(paths[lo].1, 0);
      seq(|idx|, k requires 0 <= k < |idx| => (lo, idx[k])) + SummaryPairsFrom(paths, lo + 1)
  }

  /** `pairs` lists, in document order, exactly the (path, entry) pairs from path `lo` on whose entry has a summary. */
  predicate SummaryPairList(paths: Paths, lo: nat, pairs: seq<(nat, nat)>) {
    && (forall k :: 0 <= k < |pairs| ==>
          lo <= pairs[k].0 < |paths| && pairs[k].1 < |paths[pairs[k].0].1| && HasSummary(paths[pairs[k].0].1[pairs[k].1].1))
    && (forall k, l :: 0 <= k < l < |pairs| ==> PairBefore(pairs[k], pairs[l]))
    && (forall i, j :: lo <= i < |paths| && 0 <= j < |paths[i].1| && HasSummary(paths[i].1[j].1) ==> (i, j) in pairs)
  }

  /** The endpoints the entries at the index pairs `pairs` yield, in the order of `pairs`. */
  function EndpointsAtPairs(basePath: Option<string>, paths: Paths, pairs: seq<(nat, nat)>): seq<ApiEndpoint>
    requires forall k :: 0 <= k < |pairs| ==>
      pairs[k].0 < |paths| && pairs[k].1 < |paths[pairs[k].0].1| && HasSummary(paths[pairs[k].0].1[pairs[k].1].1)
  {
    seq(|pairs|, k requires 0 <= k < |pairs| && pairs[k].0 < |paths| && pairs[k].1 < |paths[pairs[k].0].1|
                             && HasSummary(paths[pairs[k].0].1[pairs[k].1].1) =>
          EndpointOf(basePath, paths[pairs[k].0].0, paths[pairs[k].0].1[pairs[k].1]))
  }

  lemma {:induction false} SummaryPairsFromList(paths: Paths, lo: nat)
    ensures SummaryPairList(paths, lo, SummaryPairsFrom(paths, lo))
    decreases |paths| - lo
  {
    if lo < |paths| {
      SummaryPairsFromList(paths, lo + 1);
      SummaryIndicesFromList(paths[lo].1, 0);
      var idx := SummaryIndicesFrom(paths[lo].1, 0);
      var head := seq(|idx|, k requires 0 <= k < |idx| => (lo, idx[k]));
      var rest := SummaryPairsFrom(paths, lo + 1);
      assert SummaryPairsFrom(paths, lo) == head + rest;
      PairListAppend(paths, lo, idx, head, rest);
    }
  }

  lemma PairListAppend(paths: Paths, lo: nat, idx: seq<nat>, head: seq<(nat, nat)>, rest: seq<(nat, nat)>)
    requires lo < |paths| && SummaryIndexList(paths[lo].1, 0, idx)
    requires |head| == |idx| && forall k :: 0 <= k < |idx| ==> head[k] == (lo, idx[k])
    requires SummaryPairList(paths, lo + 1, rest)
    ensures SummaryPairList(paths, lo, head + rest)
  {
    var pairs := head + rest;
    forall k | 0 <= k < |pairs| ensures pairs[k] == if k < |head| then head[k] else rest[k - |head|] { }
    forall k, l | 0 <= k < l < |pairs| ensures PairBefore(pairs[k], pairs[l]) {
      if l < |head| {
        assert idx[k] < idx[l];
      }
    }
    forall i, j | lo <= i < |paths| && 0 <= j < |paths[i].1| && HasSummary(paths[i].1[j].1)
      ensures (i, j) in pairs
    {
      if i == lo {
        var k :| 0 <= k < |idx| && idx[k] == j;
        assert pairs[k] == (i, j);
      } else {
        assert (i, j) in rest;
      }
    }
  }

  lemma EndpointsAtPairsAppend(basePath: Option<string>, paths: Paths, lo: nat, idx: seq<nat>,
                               head: seq<(nat, nat)>, rest: seq<(nat, nat)>)
    requires lo < |paths|
    requires forall k :: 0 <= k < |idx| ==> idx[k] < |paths[lo].1| && HasSummary(paths[lo].1[idx[k]].1)
    requires |head| == |idx| && forall k :: 0 <= k < |idx| ==> head[k] == (lo, idx[k])
    requires forall k :: 0 <= k < |rest| ==>
      rest[k].0 < |paths| && rest[k].1 < |paths[rest[k].0].1| && HasSummary(paths[rest[k].0].1[rest[k].1].1)
    ensures EndpointsAtPairs(basePath, paths, head + rest)
         == EndpointsAt(basePath, paths[lo].0, paths[lo].1, idx) + EndpointsAtPairs(basePath, paths, rest)
  {
    var pairs := head + rest;
    forall k | 0 <= k < |pairs| ensures pairs[k] == if k < |head| then head[k] else rest[k - |head|] { }
  }

  lemma {:induction false} PathsEndpointsFrom(basePath: Option<string>, paths: Paths, lo: nat)
    requires lo <= |paths|
    ensures SummaryPairList(paths, lo, SummaryPairsFrom(paths, lo))
    ensures PathsEndpoints(basePath, paths[lo..]) == EndpointsAtPairs(basePath, paths, SummaryPairsFrom(paths, lo))
    decreases |paths| - lo
  {
    SummaryPairsFromList(paths, lo);
    if lo < |paths| {
      PathsEndpointsFrom(basePath, paths, lo + 1);
      ItemEndpointsInOrder(basePath, paths[lo].0, paths[lo].1);
      var idx := SummaryIndicesFrom(paths[lo].1, 0);
      var head := seq(|idx|, k requires 0 <= k < |idx| => (lo, idx[k]));
      var rest := SummaryPairsFrom(paths, lo + 1);
      assert SummaryPairsFrom(paths, lo) == head + rest;
      assert paths[lo..][1..] == paths[lo + 1..];
      assert PathsEndpoints(basePath, paths[lo..])
          == ItemEndpoints(basePath.GetOr("") + paths[lo].0, paths[lo].1) + PathsEndpoints(basePath, paths[lo + 1..]);
      EndpointsAtPairsAppend(basePath, paths, lo, idx, head, rest);
    }
  }

  /**
   * A document's paths yield exactly one endpoint per method entry with a summary, path
   * by path and entry by entry in document order, each (basePath + path, upper-cased
   * method, summary).
   */
  lemma EndpointsInOrder(basePath: Option<string>, paths: Paths)
    ensures SummaryPairList(paths, 0, SummaryPairsFrom(paths, 0))
    ensures PathsEndpoints(basePath, paths) == EndpointsAtPairs(basePath, paths, SummaryPairsFrom(paths, 0))
  {
    assert paths[0..] == paths;
    PathsEndpointsFrom(basePath, paths, 0);
  }

  // ---------------------------------------------------------------------------
  // A whole document

  const StringProperty := SwaggerProperty(Some("string"), None, None, None)

  const BranchParameter := Parameter("branch", Some("query"), Some("string"), Some(true), None, None)

  const AccountInput := SwaggerDefinition(None, Some([("currency", StringProperty), ("branch", StringProperty)]), Some(["currency"]))

  /** One POST operation with a required query parameter, and one input definition. */
  const AccountDocument := SwaggerSchema(
    None,
    Some([("AccountInput", AccountInput)]),
    Some([("/acct", [("post", Operation(Some("Create"), Some([BranchParameter])))])]))

  lemma AccountParameterFields()
    ensures ParameterFields(AccountDocument) == [FieldDefinition("branch", Text, true, Some(""), None, None)]
  {
    var item := AccountDocument.paths.value[0].1;
    assert ItemParameters(item) == EntryParameters(item[0].1) + ItemParameters([]);
    assert AllParameters(AccountDocument.paths.value) == ItemParameters(item) + AllParameters([]);
    assert DocumentParameters(AccountDocument) == [BranchParameter];
    assert FormFields([BranchParameter]) == FormContribution(BranchParameter) + FormFields([]);
    assert MapSwaggerTypeToFieldType(Some("string"), None) == Text;
  }

  /** A string shorter than `sub` does not contain it. */
  lemma {:induction false} NotIncludesShorter(s: string, sub: string)
    requires |s| < |sub|
    ensures !Includes(s, sub)
    decreases |s|
  {
    if s != [] {
      NotIncludesShorter(s[1..], sub);
    }
  }

  lemma CurrencyHasNoLongTextWord()
    ensures !NamesLongText("currency")
  {
    assert ToLower("currency") == "currency";
    NotIncludesShorter("currency", "description");
    CommentNotInCurrency("currency");
    NoteNotInCurrency("currency");
  }

  lemma CommentNotInCurrency(w: string)
    requires w == "currency"
    ensures !Includes(w, "comment")
  {
    // the 'c's start "cu" and "cy"
    NotIncludesShorter(w[6..], "comment");
    assert w[1..][5..] == w[6..];
    NotIncludesPrefix(w[1..], "comment", 5);
    assert w[0..] == w && w[0 + 1..] == w[1..];
    assert w[1] != "comment"[1];
    NotIncludesSkip(w, "comment", 0);
  }

  lemma NoteNotInCurrency(w: string)
    requires w == "currency"
    ensures !Includes(w, "note")
  {
    // the 'n' starts "ncy"
    NotIncludesShorter(w[5..], "note");
    NotIncludesPrefix(w, "note", 5);
  }

  lemma BranchHasNoLongTextWord()
    ensures !NamesLongText("branch")
  {
    assert ToLower("branch") == "branch";
    NotIncludesShorter("branch", "description");
    NotIncludesShorter("branch", "comment");
    NoteNotInBranch("branch");
  }

  lemma NoteNotInBranch(w: string)
    requires w == "branch"
    ensures !Includes(w, "note")
  {
    // the 'n' starts "nch"
    NotIncludesShorter(w[3..], "note");
    NotIncludesPrefix(w, "note", 3);
  }

  /** A plain string property whose name suggests no long text is a text field. */
  lemma StringPropertyField(name: string, requiredFields: seq<string>)
    requires !NamesLongText(name)
    ensures CreateFieldDefinition(name, StringProperty, requiredFields) ==
      FieldDefinition(name, Text, name in requiredFields, Some(""), None, None)
  {
    StringIsNoOtherType();
  }

  lemma AccountMainDefinition()
    ensures MainDefinitionKey(Keys(AccountDocument.definitions.value)) == Some("AccountInput")
  {
    var keys := Keys(AccountDocument.definitions.value);
    assert keys == ["AccountInput"];
    assert EndsWith("AccountInput", "Input");
    MainDefinitionPriority(keys, 0, 0);
  }

  lemma AccountDefinitionFields()
    ensures DefinitionFields(AccountDocument) ==
      [FieldDefinition("currency", Text, true, Some(""), None, None),
       FieldDefinition("branch", Text, false, Some(""), None, None)]
  {
    AccountMainDefinition();
    assert Lookup(AccountDocument.definitions.value, "AccountInput") == AccountInput;
    AccountPropertyFields(AccountInput.properties.value);
  }

  lemma AccountPropertyFields(properties: Properties)
    requires properties == [("currency", StringProperty), ("branch", StringProperty)]
    ensures PropertyFields(properties, ["currency"]) ==
      [FieldDefinition("currency", Text, true, Some(""), None, None),
       FieldDefinition("branch", Text, false, Some(""), None, None)]
  {
    CurrencyHasNoLongTextWord();
    BranchHasNoLongTextWord();
    StringPropertyField("currency", ["currency"]);
    StringPropertyField("branch", ["currency"]);
  }

  lemma AccountEndpoints()
    ensures SchemaEndpoints(AccountDocument) == [ApiEndpoint("/acct", "POST", Some("Create"))]
  {
    var item := AccountDocument.paths.value[0].1;
    assert ToUpper("post") == "POST";
    assert ItemEndpoints("/acct", item) == EntryEndpoint("/acct", "post", item[0].1) + ItemEndpoints("/acct", []);
    assert "" + "/acct" == "/acct";
    assert PathsEndpoints(None, AccountDocument.paths.value) == ItemEndpoints("/acct", item) + PathsEndpoints(None, []);
  }

  /** A later candidate named like the first one is dropped, the others kept in order. */
  lemma ClaimShadowed(first: FieldDefinition, second: FieldDefinition, shadowed: FieldDefinition)
    requires first.name != second.name && shadowed.name == first.name
    ensures Claim([], [first, second, shadowed]) == [first, second]
  {
    assert Names([]) == {};
    assert Offer([], first) == [first];
    assert Names([first]) == {first.name};
    assert Offer([first], second) == [first, second];
    assert Names([first, second]) == {first.name, second.name};
    assert Offer([first, second], shadowed) == [first, second];
    assert [first, second, shadowed][1..] == [second, shadowed];
    assert [second, shadowed][1..] == [shadowed];
    assert [shadowed][1..] == [];
    calc {
      Claim([], [first, second, shadowed]);
      Claim([first], [second, shadowed]);
      Claim([first, second], [shadowed]);
      Claim([first, second], []);
    }
  }

  /**
   * The parameter `branch` wins over the property of the same name, `currency` is
   * added from the definition, and the operation gives one upper-cased endpoint.
   */
  lemma AccountDocumentSchema(serviceName: string)
    ensures DerivedSchema(AccountDocument, serviceName) == ServiceSchema(
      serviceName,
      [FieldDefinition("branch", Text, true, Some(""), None, None),
       FieldDefinition("currency", Text, true, Some(""), None, None)],
      [ApiEndpoint("/acct", "POST", Some("Create"))],
      None)
  {
    AccountParameterFields();
    AccountDefinitionFields();
    AccountEndpoints();
    var branch := FieldDefinition("branch", Text, true, Some(""), None, None);
    var currency := FieldDefinition("currency", Text, true, Some(""), None, None);
    var shadowed := FieldDefinition("branch", Text, false, Some(""), None, None);
    assert ParameterFields(AccountDocument) + DefinitionFields(AccountDocument) == [branch, currency, shadowed];
    ClaimShadowed(branch, currency, shadowed);
  }
}
