/**
 * binder.go as imperative code.  A settable `reflect.Value` is a cell
 * `dest[k]` of an array; a struct being bound is the array of its field
 * values; the pointee of a pointer is a fresh one-cell array whose content is
 * written back through the pointer.  Every method states its new state and
 * its result as the matching function of module `Semantics`.
 */
module Binder {
  import opened Wrappers
  import opened Schema
  import Strconv
  import Semantics

  /** `unmarshalFieldNonPtr`: run the type's `UnmarshalParam` on a fresh zero value and store what it leaves. */
  method UnmarshalFieldNonPtr(t: Type, value: string, dest: array<Value>, k: nat, env: Env)
    returns (handled: bool, err: Option<Semantics.BindError>)
    requires k < dest.Length
    modifies dest
    ensures var o := Semantics.UnmarshalFieldNonPtr(t, value, old(dest[k]), env);
      dest[..] == old(dest[..])[k := o.value] && handled == o.handled && err == o.err
  {
    if t.isUnmarshaler {
      var d := env.unmarshalParam(t, value);
      dest[k] := d.value;
      err := Semantics.HookError(d);
      return true, err;
    }
    return false, None;
  }

  /** `unmarshalFieldPtr`: allocate a nil pointer, then try the hook on the pointee. */
  method UnmarshalFieldPtr(p: Type, value: string, dest: array<Value>, k: nat, env: Env)
    returns (handled: bool, err: Option<Semantics.BindError>)
    requires k < dest.Length
    modifies dest
    ensures var o := Semantics.UnmarshalFieldPtr(p, value, old(dest[k]), env);
      dest[..] == old(dest[..])[k := o.value] && handled == o.handled && err == o.err
  {
    if !(dest[k].PtrV? && dest[k].target.Some?) {
      dest[k] := PtrV(Some(Zero(p)));
    }
    var pointee := dest[k].target.value;
    var cell := new Value[1](_ => pointee);
    handled, err := UnmarshalFieldNonPtr(p, value, cell, 0, env);
    dest[k] := PtrV(Some(cell[0]));
  }

  /** `unmarshalField`. */
  method UnmarshalField(t: Type, value: string, dest: array<Value>, k: nat, env: Env)
    returns (handled: bool, err: Option<Semantics.BindError>)
    requires k < dest.Length
    modifies dest
    ensures var o := Semantics.UnmarshalField(t, value, old(dest[k]), env);
      dest[..] == old(dest[..])[k := o.value] && handled == o.handled && err == o.err
  {
    match t.kind
    case Ptr(p) =>
      handled, err := UnmarshalFieldPtr(p, value, dest, k, env);
    case _ =>
      handled, err := UnmarshalFieldNonPtr(t, value, dest, k, env);
  }

  /** `setIntField`. */
  method SetIntField(value: string, bitSize: nat, dest: array<Value>, k: nat, intSize: Strconv.IntSize)
    returns (err: Option<Semantics.BindError>)
    requires k < dest.Length
    modifies dest
    ensures var (v, e) := Semantics.SetIntField(value, bitSize, old(dest[k]), intSize);
      dest[..] == old(dest[..])[k := v] && err == e
  {
    var input := value;
    if input == "" {
      input := "0";
    }
    var r := Strconv.ParseInt(input, bitSize, intSize);
    if r.Success? {
      dest[k] := IntV(r.value);
      return None;
    }
    return Some(Semantics.Num(r.error));
  }

  /** `setUintField`. */
  method SetUintField(value: string, bitSize: nat, dest: array<Value>, k: nat, intSize: Strconv.IntSize)
    returns (err: Option<Semantics.BindError>)
    requires k < dest.Length
    modifies dest
    ensures var (v, e) := Semantics.SetUintField(value, bitSize, old(dest[k]), intSize);
      dest[..] == old(dest[..])[k := v] && err == e
  {
    var input := value;
    if input == "" {
      input := "0";
    }
    var r := Strconv.ParseUint(input, bitSize, intSize);
    if r.Success? {
      dest[k] := UintV(r.value);
      return None;
    }
    return Some(Semantics.Num(r.error));
  }

  /** `setBoolField`. */
  method SetBoolField(value: string, dest: array<Value>, k: nat)
    returns (err: Option<Semantics.BindError>)
    requires k < dest.Length
    modifies dest
    ensures var (v, e) := Semantics.SetBoolField(value, old(dest[k]));
      dest[..] == old(dest[..])[k := v] && err == e
  {
    var input := value;
    if input == "" {
      input := "false";
    }
    var r := Strconv.ParseBool(input);
    if r.Success? {
      dest[k] := BoolV(r.value);
      return None;
    }
    return Some(Semantics.Num(r.error));
  }

  /** `setWithProperType`. */
  method SetWithProperType(t: Type, value: string, dest: array<Value>, k: nat, env: Env)
    returns (err: Option<Semantics.BindError>)
    requires k < dest.Length
    modifies dest
    ensures var (v, e) := Semantics.SetWithProperType(t, value, old(dest[k]), env);
      dest[..] == old(dest[..])[k := v] && err == e
  {
    var handled;
    handled, err := UnmarshalField(t, value, dest, k, env);
    if handled {
      return;
    }
    match t.kind
    case Int(w) =>
      err := SetIntField(value, BitSizeArg(w), dest, k, env.intSize);
    case Uint(w) =>
      err := SetUintField(value, BitSizeArg(w), dest, k, env.intSize);
    case Bool =>
      err := SetBoolField(value, dest, k);
    case String =>
      dest[k] := StrV(value);
      err := None;
    case _ =>
      err := Some(Semantics.UnknownType);
  }

  /**
   * The slice loop of `bindData`: a new slice of `|input|` zero elements,
   * element `i` set from `input[i]`, stopping at the first error.
   */
  method FillSlice(elem: Type, input: seq<string>, env: Env)
    returns (slice: array<Value>, err: Option<Semantics.BindError>)
    ensures fresh(slice)
    ensures Semantics.ConvertElems(elem, input, env) == if err.Some? then Failure(err.value) else Success(slice[..])
  {
    slice := new Value[|input|](_ => Zero(elem));
    var i := 0;
    while i < |input|
      invariant 0 <= i <= |input| == slice.Length
      invariant Semantics.ConvertElems(elem, input[..i], env) == Success(slice[..i])
      invariant forall j :: i <= j < |input| ==> slice[j] == Zero(elem)
    {
      Semantics.ConvertElemsSnoc(elem, input, i, slice[..i], env);
      err := SetWithProperType(elem, input[i], slice, i, env);
      if err.Some? {
        Semantics.ConvertElemsPrefixFailure(elem, input, i + 1, env);
        return;
      }
      assert slice[..i + 1] == slice[..i] + [slice[i]];
      i := i + 1;
    }
    assert input[..i] == input;
    assert slice[..i] == slice[..];
    err := None;
  }

  /** The body of the field loop of `bindData`, for the field `f` held in `dest[k]`. */
  method BindField(f: Field, dest: array<Value>, k: nat, data: Semantics.Params, env: Env)
    returns (err: Option<Semantics.BindError>)
    requires k < dest.Length
    modifies dest
    ensures var (v, e) := Semantics.BindField(f, old(dest[k]), data, env);
      dest[..] == old(dest[..])[k := v] && err == e
    decreases f.typ, 1
  {
    if !f.settable {
      return None;
    }
    var key := f.tag;
    if key == "" {
      key := f.name;
      if f.typ.kind.Struct? {
        var cur := dest[k];
        if cur.StructV? && |cur.fields| == |f.typ.kind.fields| {
          var sub := new Value[|cur.fields|](j requires 0 <= j < |cur.fields| => cur.fields[j]);
          assert sub[..] == cur.fields;
          err := BindData(f.typ, sub, data, env);
          dest[k] := StructV(sub[..]);
        } else {
          err := None;
        }
        return;
      }
    }
    if key !in data {
      return None;
    }
    var input := data[key];
    if |input| == 0 {
      return Some(Semantics.IndexOutOfRange);
    }
    var handled;
    handled, err := UnmarshalField(f.typ, input[0], dest, k, env);
    if handled {
      return;
    }
    if f.typ.kind.Slice? && |input| > 0 {
      var slice;
      slice, err := FillSlice(f.typ.kind.elem, input, env);
      if err.None? {
        dest[k] := SliceV(slice[..]);
      }
    } else {
      err := SetWithProperType(f.typ, input[0], dest, k, env);
    }
  }

  /**
   * `bindData`: refuse a destination that is not a struct, else bind its
   * fields in declared order, stopping at the first error.
   */
  method BindData(t: Type, dest: array<Value>, data: Semantics.Params, env: Env)
    returns (err: Option<Semantics.BindError>)
    requires t.kind.Struct? ==> dest.Length == |t.kind.fields|
    modifies dest
    ensures (dest[..], err) == Semantics.BindData(t, old(dest[..]), data, env)
    decreases t, 0
  {
    if !t.kind.Struct? {
      return Some(Semantics.NotAStruct);
    }
    var fs := t.kind.fields;
    var i := 0;
    while i < |fs|
      invariant 0 <= i <= |fs| == dest.Length
      invariant Semantics.BindFields(fs, dest[..], data, env, i) == Semantics.BindFields(fs, old(dest[..]), data, env, 0)
    {
      err := BindField(fs[i], dest, i, data, env);
      if err.Some? {
        return;
      }
      i := i + 1;
    }
    err := None;
  }

  /** `Bind`: route the request, then bind from the query, the form or a decoder. */
  method Bind(t: Type, dest: array<Value>, req: Semantics.Request, env: Env)
    returns (err: Option<Semantics.HTTPError>)
    requires t.kind.Struct? ==> dest.Length == |t.kind.fields|
    modifies dest
    ensures (dest[..], err) == Semantics.Bind(t, old(dest[..]), req, env)
  {
    if req.verb == Semantics.GET {
      var e := BindData(t, dest, req.query, env);
      return Semantics.WrapBindError(e);
    }
    var ctype := req.contentType;
    if !req.hasBody {
      return Some(Semantics.BadRequest(Semantics.EmptyBody));
    }
    err := Some(Semantics.UnsupportedMediaType);
    if Semantics.MIMEApplicationJSON <= ctype {
      err := if req.decodeError.Some? then Some(Semantics.BadRequest(Semantics.Decode(Semantics.Json, req.decodeError.value))) else None;
    } else if Semantics.MIMEApplicationXML <= ctype {
      err := if req.decodeError.Some? then Some(Semantics.BadRequest(Semantics.Decode(Semantics.Xml, req.decodeError.value))) else None;
    } else if Semantics.MIMEApplicationForm <= ctype || Semantics.MIMEMultipartForm <= ctype {
      var e := BindData(t, dest, req.form, env);
      err := Semantics.WrapBindError(e);
    }
  }
}
