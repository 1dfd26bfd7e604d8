/**
 * The record shapes of the form generator: the output records (field definitions,
 * endpoints, the service schema) and the input, a Swagger 2.0 style document.
 *
 * A JavaScript object decoded from JSON is an ordered list of key/value pairs here,
 * in the order Object.keys/Object.entries visit them. Every optional member is an
 * Option; the JavaScript truthiness tests the parser makes on them are written out
 * where they are used.
 */
module Types {

  datatype Option<+T> = None | Some(value: T) {
    /** `x || d` for a member whose present values are all truthy, or `x ?? d`. */
    function GetOr(default: T): T {
      match this
      case Some(v) => v
      case None => default
    }
  }

  /** FieldDefinition['type']: exactly one of five input kinds. */
  datatype FieldType = Text | Number | Dropdown | Checkbox | Textarea

  /** A `string | number | boolean` value: a default value, or what a form input holds. */
  datatype Scalar = Str(text: string) | Num(number: real) | Bool(flag: bool)

  /**
   * One form input. `kind` is the TypeScript member `type` (a Dafny keyword).
   * `required` is always a boolean; the other three members are optional.
   */
  datatype FieldDefinition = FieldDefinition(
    name: string,
    kind: FieldType,
    required: bool,
    description: Option<string>,
    options: Option<seq<string>>,
    defaultValue: Option<Scalar>)

  /** `httpMethod` is the TypeScript member `method` (a Dafny keyword). */
  datatype ApiEndpoint = ApiEndpoint(path: string, httpMethod: string, summary: Option<string>)

  /** A Property Object inside a definition; `swaggerType` is its `type`, `enumValues` its `enum`. */
  datatype SwaggerProperty = SwaggerProperty(
    swaggerType: Option<string>,
    description: Option<string>,
    enumValues: Option<seq<string>>,
    format: Option<string>)

  type Properties = seq<(string, SwaggerProperty)>

  /** A Schema Object under `definitions`: its properties and the names it lists as required. */
  datatype SwaggerDefinition = SwaggerDefinition(
    swaggerType: Option<string>,
    properties: Option<Properties>,
    required: Option<seq<string>>)

  type Definitions = seq<(string, SwaggerDefinition)>

  /** The output of the parser for one service. */
  datatype ServiceSchema = ServiceSchema(
    serviceName: string,
    fields: seq<FieldDefinition>,
    endpoints: seq<ApiEndpoint>,
    definitions: Option<Definitions>)

  /**
   * A Parameter Object of an operation. `location` is its `in` member; a present
   * `required` is a boolean.
   */
  datatype Parameter = Parameter(
    name: string,
    location: Option<string>,
    swaggerType: Option<string>,
    required: Option<bool>,
    description: Option<string>,
    enumValues: Option<seq<string>>)

  /**
   * A value under a path item, keyed by HTTP method: an Operation Object, or any
   * other value (a string, a number, the path-level `parameters` array, ...), which
   * has neither a `summary` nor a `parameters` member.
   */
  datatype PathEntry =
    | Operation(summary: Option<string>, parameters: Option<seq<Parameter>>)
    | Other

  type PathItem = seq<(string, PathEntry)>

  type Paths = seq<(string, PathItem)>

  /** The document: every top-level section is optional. */
  datatype SwaggerSchema = SwaggerSchema(
    basePath: Option<string>,
    definitions: Option<Definitions>,
    paths: Option<Paths>)

  /** The keys of an object, in order (Object.keys). */
  function Keys<V>(entries: seq<(string, V)>): (keys: seq<string>)
    ensures |keys| == |entries|
    ensures forall i :: 0 <= i < |entries| ==> keys[i] == entries[i].0
  {
    seq(|entries|, i requires 0 <= i < |entries| => entries[i].0)
  }
}
