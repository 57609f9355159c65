/**
 * The meaning of every function of binder.go as a pure function on values.
 * A settable `reflect.Value` is here the value it currently holds, and each
 * function returns the value the field holds afterwards together with the
 * error it returns; the imperative methods of module `Binder` are proved to
 * write exactly these values.
 */
module Semantics {
  import opened Wrappers
  import Strconv
  import opened Schema

  /** A query or form mapping, `map[string][]string`. */
  type Params = map<string, seq<string>>

  /** The errors `bindData` and the coercions return. */
  datatype BindError =
    | NotAStruct                  // "binding element must be a struct"
    | Num(e: Strconv.NumError)    // a `*strconv.NumError` from a parse
    | UnknownType                 // "unknown type"
    | Unmarshal(detail: string)   // the error an `UnmarshalParam` returned
    | IndexOutOfRange             // `inputValue[0]` on an empty value list panics

  /** The outcome of an `unmarshalField*` call: `handled` is its boolean result. */
  datatype Outcome = Outcome(handled: bool, value: Value, err: Option<BindError>)

  /** A field's new value and the error the call returned. */
  type Written = (Value, Option<BindError>)

  // ---------------------------------------------------------------------
  // Custom hook

  /** The `Unmarshal` error an `UnmarshalParam` result turns into. */
  function HookError(d: Decoded): Option<BindError>
  {
    if d.err.Some? then Some(Unmarshal(d.err.value)) else None
  }

  /**
   * `unmarshalFieldNonPtr`: when the type has an `UnmarshalParam`, the field
   * becomes what that method leaves in a fresh zero value, error or not.
   */
  function UnmarshalFieldNonPtr(t: Type, s: string, cur: Value, env: Env): Outcome
  {
    if t.isUnmarshaler then
      var d := env.unmarshalParam(t, s);
      Outcome(true, d.value, HookError(d))
    else Outcome(false, cur, None)
  }

  /**
   * `unmarshalFieldPtr` for a pointer to `p`: a nil pointer is first set to
   * a new zero `p`, then the hook of `p` is tried on the pointee.
   */
  function UnmarshalFieldPtr(p: Type, s: string, cur: Value, env: Env): Outcome
  {
    var pointee := if cur.PtrV? && cur.target.Some? then cur.target.value else Zero(p);
    var o := UnmarshalFieldNonPtr(p, s, pointee, env);
    Outcome(o.handled, PtrV(Some(o.value)), o.err)
  }

  /** `unmarshalField`: the pointer path for pointer kinds, the direct path otherwise. */
  function UnmarshalField(t: Type, s: string, cur: Value, env: Env): Outcome
  {
    match t.kind
    case Ptr(p) => UnmarshalFieldPtr(p, s, cur, env)
    case _ => UnmarshalFieldNonPtr(t, s, cur, env)
  }

  // ---------------------------------------------------------------------
  // Scalar coercions

  /** `setIntField`: "" reads as "0"; on a parse error the field keeps its value. */
  function SetIntField(s: string, bitSize: nat, cur: Value, intSize: Strconv.IntSize): Written
  {
    var input := if s == "" then "0" else s;
    match Strconv.ParseInt(input, bitSize, intSize)
    case Success(n) => (IntV(n), None)
    case Failure(e) => (cur, Some(Num(e)))
  }

  /** `setUintField`: "" reads as "0"; on a parse error the field keeps its value. */
  function SetUintField(s: string, bitSize: nat, cur: Value, intSize: Strconv.IntSize): Written
  {
    var input := if s == "" then "0" else s;
    match Strconv.ParseUint(input, bitSize, intSize)
    case Success(n) => (UintV(n), None)
    case Failure(e) => (cur, Some(Num(e)))
  }

  /** `setBoolField`: "" reads as "false"; on a parse error the field keeps its value. */
  function SetBoolField(s: string, cur: Value): Written
  {
    var input := if s == "" then "false" else s;
    match Strconv.ParseBool(input)
    case Success(b) => (BoolV(b), None)
    case Failure(e) => (cur, Some(Num(e)))
  }

  /**
   * `setWithProperType`: the hook first; otherwise the kind switch.  A
   * pointer kind matches no case of the switch, so after `unmarshalField`
   * has allocated it the call ends in "unknown type".
   */
  function SetWithProperType(t: Type, s: string, cur: Value, env: Env): Written
  {
    var o := UnmarshalField(t, s, cur, env);
    if o.handled then (o.value, o.err)
    else
      match t.kind
      case Int(w) => SetIntField(s, BitSizeArg(w), o.value, env.intSize)
      case Uint(w) => SetUintField(s, BitSizeArg(w), o.value, env.intSize)
      case Bool => SetBoolField(s, o.value)
      case String => (StrV(s), None)
      case _ => (o.value, Some(UnknownType))
  }

  /**
   * The slice `bindData` builds: element `i` starts as the zero element and
   * is set from `input[i]`; the first element that fails ends the loop.
   */
  /** Element `i` of a bound slice: the zero element set from `s`. */
  function ElemResult(elem: Type, s: string, env: Env): Written
  {
    SetWithProperType(elem, s, Zero(elem), env)
  }

  function ConvertElems(elem: Type, input: seq<string>, env: Env): Result<seq<Value>, BindError>
    decreases |input|
  {
    if input == [] then Success([])
    else
      match ConvertElems(elem, input[..|input| - 1], env)
      case Failure(e) => Failure(e)
      case Success(prefix) =>
        var (v, e) := ElemResult(elem, input[|input| - 1], env);
        if e.Some? then Failure(e.value) else Success(prefix + [v])
  }

  /** One more value after a prefix that succeeded: its element is appended, or its error ends the loop. */
  lemma ConvertElemsSnoc(elem: Type, input: seq<string>, i: nat, prefix: seq<Value>, env: Env)
    requires i < |input| && ConvertElems(elem, input[..i], env) == Success(prefix)
    ensures var (v, e) := ElemResult(elem, input[i], env);
      ConvertElems(elem, input[..i + 1], env) == if e.Some? then Failure(e.value) else Success(prefix + [v])
  {
    assert input[..i + 1][..i] == input[..i];
  }

  /** Once a prefix of the input fails, the whole input fails with the same error. */
  lemma {:induction false} ConvertElemsPrefixFailure(elem: Type, input: seq<string>, n: nat, env: Env)
    requires n <= |input| && ConvertElems(elem, input[..n], env).Failure?
    ensures ConvertElems(elem, input, env) == ConvertElems(elem, input[..n], env)
    decreases |input|
  {
    if n < |input| {
      var init := input[..|input| - 1];
      assert init[..n] == input[..n];
      ConvertElemsPrefixFailure(elem, init, n, env);
    } else {
      assert input[..n] == input;
    }
  }

  // ---------------------------------------------------------------------
  // Schema walk

  /** The map key of a field: its `form` tag, else its name. */
  function FieldKey(f: Field): string
  {
    if f.tag != "" then f.tag else f.name
  }

  /** An untagged struct field, which `bindData` flattens into its parent. */
  predicate Flattened(f: Field)
  {
    f.tag == "" && f.typ.kind.Struct?
  }

  /** The body of the field loop of `bindData` for one field. */
  function BindField(f: Field, cur: Value, data: Params, env: Env): Written
    decreases f
  {
    if !f.settable then (cur, None)
    else if Flattened(f) then
      if cur.StructV? && |cur.fields| == |f.typ.kind.fields| then
        var (vs, e) := BindFields(f.typ.kind.fields, cur.fields, data, env, 0);
        (StructV(vs), e)
      else (cur, None)
    else if FieldKey(f) !in data then (cur, None)
    else
      var input := data[FieldKey(f)];
      if |input| == 0 then (cur, Some(IndexOutOfRange))
      else
        var o := UnmarshalField(f.typ, input[0], cur, env);
        if o.handled then (o.value, o.err)
        else if f.typ.kind.Slice? then
          match ConvertElems(f.typ.kind.elem, input, env)
          case Success(es) => (SliceV(es), None)
          case Failure(e) => (o.value, Some(e))
        else SetWithProperType(f.typ, input[0], o.value, env)
  }

  /** The field loop of `bindData` from field `i` on; the first error stops it. */
  function BindFields(fs: seq<Field>, vs: seq<Value>, data: Params, env: Env, i: nat): (seq<Value>, Option<BindError>)
    requires |vs| == |fs| && i <= |fs|
    decreases fs, |fs| - i
  {
    if i == |fs| then (vs, None)
    else
      var (v, e) := BindField(fs[i], vs[i], data, env);
      if e.Some? then (vs[i := v], e)
      else BindFields(fs, vs[i := v], data, env, i + 1)
  }

  /**
   * `bindData` on a destination of type `t` whose fields hold `vs`: a
   * destination that is not a struct is refused without a write.
   */
  function BindData(t: Type, vs: seq<Value>, data: Params, env: Env): (r: (seq<Value>, Option<BindError>))
    requires t.kind.Struct? ==> |vs| == |t.kind.fields|
    ensures !t.kind.Struct? ==> r == (vs, Some(NotAStruct))
    ensures |r.0| == |vs|
  {
    if !t.kind.Struct? then (vs, Some(NotAStruct))
    else
      BindFieldsLength(t.kind.fields, vs, data, env, 0);
      BindFields(t.kind.fields, vs, data, env, 0)
  }

  lemma {:induction false} BindFieldsLength(fs: seq<Field>, vs: seq<Value>, data: Params, env: Env, i: nat)
    requires |vs| == |fs| && i <= |fs|
    ensures |BindFields(fs, vs, data, env, i).0| == |vs|
    decreases |fs| - i
  {
    if i < |fs| {
      var (v, e) := BindField(fs[i], vs[i], data, env);
      if e.None? {
        BindFieldsLength(fs, vs[i := v], data, env, i + 1);
      }
    }
  }

  // ---------------------------------------------------------------------
  // Content dispatch

  const GET := "GET"
  const MIMEApplicationJSON := "application/json"
  const MIMEApplicationXML := "application/xml"
  const MIMEApplicationForm := "application/x-www-form-urlencoded"
  const MIMEMultipartForm := "multipart/form-data"

  /** Where `Bind` takes the data from. */
  datatype Route = FromQuery | NoBody | Json | Xml | FromForm | Unsupported

  /**
   * The decision `Bind` makes from the request method, the Content-Type header and
   * whether there is a body: GET reads the query whatever else holds; a
   * missing body is refused before the content type is looked at; the
   * content type is then matched by prefix, JSON before XML before forms.
   */
  function RouteOf(verb: string, contentType: string, hasBody: bool): (r: Route)
    ensures r == FromQuery <==> verb == GET
    ensures r == NoBody <==> verb != GET && !hasBody
    ensures r == Json <==> verb != GET && hasBody && MIMEApplicationJSON <= contentType
    ensures r == Xml <==> verb != GET && hasBody && !(MIMEApplicationJSON <= contentType)
                          && MIMEApplicationXML <= contentType
    ensures r == FromForm <==> verb != GET && hasBody && !(MIMEApplicationJSON <= contentType)
                               && !(MIMEApplicationXML <= contentType)
                               && (MIMEApplicationForm <= contentType || MIMEMultipartForm <= contentType)
    ensures r == Unsupported <==> verb != GET && hasBody && !(MIMEApplicationJSON <= contentType)
                                  && !(MIMEApplicationXML <= contentType) && !(MIMEApplicationForm <= contentType)
                                  && !(MIMEMultipartForm <= contentType)
  {
    if verb == GET then FromQuery
    else if !hasBody then NoBody
    else if MIMEApplicationJSON <= contentType then Json
    else if MIMEApplicationXML <= contentType then Xml
    else if MIMEApplicationForm <= contentType || MIMEMultipartForm <= contentType then FromForm
    else Unsupported
  }

  /**
   * What the request supplies: its method (`verb`), its Content-Type header ("" if
   * absent), whether it has a body, its query and form mappings, and the
   * error the JSON or XML decoder reports for its body, if any.
   */
  datatype Request = Request(
    verb: string,
    contentType: string,
    hasBody: bool,
    query: Params,
    form: Params,
    decodeError: Option<string>)

  /** Why a `400 Bad Request` was returned. */
  datatype BadRequestCause =
    | EmptyBody                          // "request body can't be empty"
    | Binding(e: BindError)              // a `bindData` error, by its message
    | Decode(route: Route, detail: string) // a JSON or XML decoder error

  /** The errors `Bind` returns. */
  datatype HTTPError = BadRequest(cause: BadRequestCause) | UnsupportedMediaType

  function WrapBindError(e: Option<BindError>): Option<HTTPError>
  {
    if e.Some? then Some(BadRequest(Binding(e.value))) else None
  }

  /** `Bind`: the destination's new field values and the error returned. */
  function Bind(t: Type, vs: seq<Value>, req: Request, env: Env): (r: (seq<Value>, Option<HTTPError>))
    requires t.kind.Struct? ==> |vs| == |t.kind.fields|
    ensures req.verb == GET ==>
      r == (BindData(t, vs, req.query, env).0, WrapBindError(BindData(t, vs, req.query, env).1))
    ensures req.verb != GET && !req.hasBody ==> r == (vs, Some(BadRequest(EmptyBody)))
    ensures RouteOf(req.verb, req.contentType, req.hasBody) == Unsupported ==>
      r == (vs, Some(UnsupportedMediaType))
    ensures RouteOf(req.verb, req.contentType, req.hasBody) == FromForm ==>
      r == (BindData(t, vs, req.form, env).0, WrapBindError(BindData(t, vs, req.form, env).1))
  {
    match RouteOf(req.verb, req.contentType, req.hasBody)
    case FromQuery =>
      var (ws, e) := BindData(t, vs, req.query, env);
      (ws, WrapBindError(e))
    case NoBody => (vs, Some(BadRequest(EmptyBody)))
    case Json =>
      (vs, if req.decodeError.Some? then Some(BadRequest(Decode(Json, req.decodeError.value))) else None)
    case Xml =>
      (vs, if req.decodeError.Some? then Some(BadRequest(Decode(Xml, req.decodeError.value))) else None)
    case FromForm =>
      var (ws, e) := BindData(t, vs, req.form, env);
      (ws, WrapBindError(e))
    case Unsupported => (vs, Some(UnsupportedMediaType))
  }
}
