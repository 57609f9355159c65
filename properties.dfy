/**
 * What binder.go promises, proved about the functions of module `Semantics`
 * (and therefore, through their contracts, about the methods of `Binder`).
 */
module Properties {
  import opened Wrappers
  import opened Strconv
  import opened Schema
  import opened Semantics

  // ---------------------------------------------------------------------
  // Scalar coercions

  /**
   * An int field: "" gives 0; otherwise the bind succeeds exactly when the
   * string is a signed decimal literal in the range of the declared width,
   * and stores its value; on failure the field keeps its value and the
   * error is `ParseInt`'s, naming the input, a range error when the literal
   * is well formed.
   */
  lemma IntFieldCoercion(s: string, w: Width, cur: Value, intSize: IntSize)
    ensures var (v, e) := SetIntField(s, BitSizeArg(w), cur, intSize);
      var b := EffectiveBitSize(BitSizeArg(w), intSize);
      && (s == "" ==> v == IntV(0) && e == None)
      && (s != "" ==> (e == None <==> IsSignedDecimal(s) && InIntRange(SignedDecimal(s), b)))
      && (s != "" && e == None ==> v == IntV(SignedDecimal(s)))
      && (e.Some? ==> v == cur && e.value == Num(NumError("ParseInt", s, e.value.e.cause)))
      && (e.Some? && IsSignedDecimal(s) ==> e.value.e.cause == ErrRange)
  {
    if s == "" {
      IntFieldEmpty(w, cur, intSize);
    } else {
      IntFieldParsed(s, BitSizeArg(w), cur, intSize);
    }
  }

  /** "" is read as "0", which every width accepts. */
  lemma IntFieldEmpty(w: Width, cur: Value, intSize: IntSize)
    ensures SetIntField("", BitSizeArg(w), cur, intSize) == (IntV(0), None)
  {
    assert Unsigned("0") == "0";
    assert Decimal("0") == 0 by {
      assert "0"[..0] == [];
    }
    ParseIntDecimal("0", BitSizeArg(w), intSize);
  }

  /** A non-empty string is set exactly when `ParseInt` accepts it. */
  lemma IntFieldParsed(s: string, bitSize: nat, cur: Value, intSize: IntSize)
    requires s != "" && (bitSize == 0 || 2 <= bitSize <= 64)
    ensures var (v, e) := SetIntField(s, bitSize, cur, intSize);
      var b := EffectiveBitSize(bitSize, intSize);
      && (e == None <==> IsSignedDecimal(s) && InIntRange(SignedDecimal(s), b))
      && (e == None ==> v == IntV(SignedDecimal(s)))
      && (e.Some? ==> v == cur && e.value == Num(NumError("ParseInt", s, e.value.e.cause)))
      && (e.Some? && IsSignedDecimal(s) ==> e.value.e.cause == ErrRange)
  {
    ParseIntSpec(s, bitSize, intSize);
  }

  /**
   * A uint field: "" gives 0; otherwise the bind succeeds exactly when the
   * string is all digits (no sign) and its value is below 2^b, and stores
   * that value; on failure the field keeps its value.
   */
  lemma UintFieldCoercion(s: string, w: Width, cur: Value, intSize: IntSize)
    ensures var (v, e) := SetUintField(s, BitSizeArg(w), cur, intSize);
      var b := EffectiveBitSize(BitSizeArg(w), intSize);
      && (s == "" ==> v == UintV(0) && e == None)
      && (s != "" ==> (e == None <==> AllDigits(s) && Decimal(s) < Pow2(b)))
      && (s != "" && e == None ==> v == UintV(Decimal(s)))
      && (e.Some? ==> v == cur && e.value == Num(NumError("ParseUint", s, e.value.e.cause)))
      && (e.Some? && AllDigits(s) ==> e.value.e.cause == ErrRange)
  {
    var input := if s == "" then "0" else s;
    ParseUintSpec(input, BitSizeArg(w), intSize);
    if s == "" {
      assert Decimal("0") == 0 by {
        assert "0"[..0] == [];
      }
    }
  }

  /** A bool field: "" gives false; one of the twelve literals gives its value; anything else is an error and the field keeps its value. */
  lemma BoolFieldCoercion(s: string, cur: Value)
    ensures var (v, e) := SetBoolField(s, cur);
      && (s == "" ==> v == BoolV(false) && e == None)
      && (s in TrueLiterals ==> v == BoolV(true) && e == None)
      && (s in FalseLiterals ==> v == BoolV(false) && e == None)
      && (s != "" && s !in TrueLiterals + FalseLiterals ==>
            v == cur && e == Some(Num(NumError("ParseBool", s, ErrSyntax))))
  {
  }

  /** Round trip: binding the decimal rendering of `n` to an int field stores `n` iff `n` fits the width. */
  lemma IntFieldRoundTrip(n: int, w: Width, cur: Value, intSize: IntSize)
    ensures var b := EffectiveBitSize(BitSizeArg(w), intSize);
      SetIntField(FormatInt(n), BitSizeArg(w), cur, intSize) ==
        if InIntRange(n, b) then (IntV(n), None)
        else (cur, Some(Num(NumError("ParseInt", FormatInt(n), ErrRange))))
  {
    IntRoundTripAt(n, BitSizeArg(w), cur, intSize);
  }

  lemma IntRoundTripAt(n: int, bitSize: nat, cur: Value, intSize: IntSize)
    requires bitSize == 0 || 2 <= bitSize <= 64
    ensures var b := EffectiveBitSize(bitSize, intSize);
      SetIntField(FormatInt(n), bitSize, cur, intSize) ==
        if InIntRange(n, b) then (IntV(n), None)
        else (cur, Some(Num(NumError("ParseInt", FormatInt(n), ErrRange))))
  {
    FormatUintDecimal(if n < 0 then -n else n);
    ParseIntFormat(n, bitSize, intSize);
  }

  /** Round trip: binding the decimal rendering of `n` to a uint field stores `n` iff `n` fits the width. */
  lemma UintFieldRoundTrip(n: nat, w: Width, cur: Value, intSize: IntSize)
    ensures var b := EffectiveBitSize(BitSizeArg(w), intSize);
      var (v, e) := SetUintField(FormatUint(n), BitSizeArg(w), cur, intSize);
      (e == None <==> n < Pow2(b)) && (e == None ==> v == UintV(n)) && (e.Some? ==> v == cur)
  {
    FormatUintDecimal(n);
    ParseUintFormat(n, BitSizeArg(w), intSize);
  }

  /**
   * The kind switch of `setWithProperType` for a type without a hook: a
   * string is stored verbatim; integers and bools go to their setters; a
   * pointer ends allocated and "unknown type"; every other kind is
   * "unknown type" and the field is left as it was.
   */
  lemma KindDispatch(t: Type, s: string, cur: Value, env: Env)
    requires !t.isUnmarshaler && (t.kind.Ptr? ==> !t.kind.pointee.isUnmarshaler)
    ensures var r := SetWithProperType(t, s, cur, env);
      && (t.kind == String ==> r == (StrV(s), None))
      && (t.kind.Int? ==> r == SetIntField(s, BitSizeArg(t.kind.iw), cur, env.intSize))
      && (t.kind.Uint? ==> r == SetUintField(s, BitSizeArg(t.kind.uw), cur, env.intSize))
      && (t.kind == Bool ==> r == SetBoolField(s, cur))
      && (t.kind.Slice? || t.kind.Struct? || t.kind == Other ==> r == (cur, Some(UnknownType)))
      && (t.kind.Ptr? ==> r.1 == Some(UnknownType) && r.0.PtrV? && r.0.target.Some?)
      && (t.kind.Ptr? && cur.PtrV? && cur.target.Some? ==> r.0 == cur)
      && (t.kind.Ptr? && cur == PtrV(None) ==> r.0 == PtrV(Some(Zero(t.kind.pointee))))
  {
  }

  // ---------------------------------------------------------------------
  // Custom hook

  /**
   * A present key on a field whose (non-pointer) type has a hook: the field
   * becomes what `UnmarshalParam` decodes from the first value, whatever it
   * held before, whether or not the call failed, and whatever the kind
   * (slices included), and the hook's error is returned as is.
   */
  lemma HookPrecedence(f: Field, cur: Value, data: Params, env: Env)
    requires f.settable && !Flattened(f) && FieldKey(f) in data && |data[FieldKey(f)]| > 0
    requires !f.typ.kind.Ptr? && f.typ.isUnmarshaler
    ensures var d := env.unmarshalParam(f.typ, data[FieldKey(f)][0]);
      BindField(f, cur, data, env) == (d.value, HookError(d))
  {
  }

  /**
   * A present key on a pointer field whose pointee type has a hook: the
   * pointer ends non-nil, pointing at what `UnmarshalParam` decodes from the
   * first value, and the hook's error is returned as is.
   */
  lemma PointerHook(f: Field, cur: Value, data: Params, env: Env)
    requires f.settable && !Flattened(f) && FieldKey(f) in data && |data[FieldKey(f)]| > 0
    requires f.typ.kind.Ptr? && f.typ.kind.pointee.isUnmarshaler
    ensures var d := env.unmarshalParam(f.typ.kind.pointee, data[FieldKey(f)][0]);
      BindField(f, cur, data, env) == (PtrV(Some(d.value)), HookError(d))
  {
  }

  /**
   * A present key on a pointer field whose pointee has no hook: a nil
   * pointer is allocated to a zero pointee, a non-nil one is kept, and the
   * bind fails with "unknown type".
   */
  lemma PointerWithoutHook(f: Field, cur: Value, data: Params, env: Env)
    requires f.settable && !Flattened(f) && FieldKey(f) in data && |data[FieldKey(f)]| > 0
    requires f.typ.kind.Ptr? && !f.typ.kind.pointee.isUnmarshaler
    ensures var r := BindField(f, cur, data, env);
      && r.1 == Some(UnknownType)
      && r.0 == PtrV(Some(if cur.PtrV? && cur.target.Some? then cur.target.value else Zero(f.typ.kind.pointee)))
  {
  }

  /**
   * A present key on a field with no hook that is neither a slice nor a
   * pointer: only the first value is used, coerced by the field's kind, and
   * any further values are ignored.
   */
  lemma ScalarField(f: Field, cur: Value, data: Params, env: Env)
    requires f.settable && !Flattened(f) && FieldKey(f) in data && |data[FieldKey(f)]| > 0
    requires !f.typ.isUnmarshaler && !f.typ.kind.Slice? && !f.typ.kind.Ptr?
    ensures var input := data[FieldKey(f)];
      BindField(f, cur, data, env) == SetWithProperType(f.typ, input[0], cur, env)
    ensures var input := data[FieldKey(f)];
      BindField(f, cur, data[FieldKey(f) := [input[0]]], env) == BindField(f, cur, data, env)
  {
  }

  // ---------------------------------------------------------------------
  // Slices

  /** `j` is the first value whose element fails. */
  predicate FirstFailure(elem: Type, input: seq<string>, env: Env, j: int)
  {
    && 0 <= j < |input|
    && (forall i :: 0 <= i < j ==> ElemResult(elem, input[i], env).1 == None)
    && ElemResult(elem, input[j], env).1.Some?
  }

  /**
   * The slice built from N values has exactly N elements, element `i` set
   * from value `i`, when no element fails; otherwise the error is that of
   * the first element that fails.
   */
  lemma ConvertElemsSpec(elem: Type, input: seq<string>, env: Env)
    ensures var r := ConvertElems(elem, input, env);
      && (r.Success? <==> forall i :: 0 <= i < |input| ==> ElemResult(elem, input[i], env).1 == None)
      && (r.Success? ==> |r.value| == |input|)
      && (r.Success? ==> forall i :: 0 <= i < |input| ==> r.value[i] == ElemResult(elem, input[i], env).0)
      && (r.Failure? ==> exists j :: FirstFailure(elem, input, env, j) && ElemResult(elem, input[j], env).1 == Some(r.error))
  {
    var conv := ElemConv(elem, env);
    ConvertElemsIsConvert(elem, input, env);
    ConvertSuccess(conv, input);
    ConvertFailure(conv, input);
    var r := ConvertElems(elem, input, env);
    if r.Failure? {
      var j :| FirstFailureOf(conv, input, j) && conv(input[j]).1 == Some(r.error);
      assert FirstFailure(elem, input, env, j);
    }
  }

  /** The element conversion of a slice of `elem`, as a function value. */
  function ElemConv(elem: Type, env: Env): string -> Written
  {
    s => ElemResult(elem, s, env)
  }

  /**
   * A proof device, not part of the model: the loop of `ConvertElems` with
   * its element step abstracted to any conversion `conv`, so that the facts
   * about the loop are proved once without unfolding the coercions.
   * `ConvertElemsIsConvert` shows that `ConvertElems` is this loop.
   */
  function Convert(conv: string -> Written, input: seq<string>): Result<seq<Value>, BindError>
    decreases |input|
  {
    if input == [] then Success([])
    else
      match Convert(conv, input[..|input| - 1])
      case Failure(e) => Failure(e)
      case Success(prefix) =>
        var (v, e) := conv(input[|input| - 1]);
        if e.Some? then Failure(e.value) else Success(prefix + [v])
  }

  /** `ConvertElems` is the slice loop over the conversion of its element type. */
  lemma {:induction false} ConvertElemsIsConvert(elem: Type, input: seq<string>, env: Env)
    ensures ConvertElems(elem, input, env) == Convert(ElemConv(elem, env), input)
    decreases |input|
  {
    if input != [] {
      ConvertElemsIsConvert(elem, input[..|input| - 1], env);
    }
  }

  /** `j` is the first value that `conv` fails on. */
  predicate FirstFailureOf(conv: string -> Written, input: seq<string>, j: int)
  {
    && 0 <= j < |input|
    && (forall i :: 0 <= i < j ==> conv(input[i]).1 == None)
    && conv(input[j]).1.Some?
  }

  /** The loop succeeds exactly when no value fails, and then holds each value's conversion in order. */
  lemma {:induction false} ConvertSuccess(conv: string -> Written, input: seq<string>)
    ensures var r := Convert(conv, input);
      && (r.Success? <==> forall i :: 0 <= i < |input| ==> conv(input[i]).1 == None)
      && (r.Success? ==> |r.value| == |input|)
      && (r.Success? ==> forall i :: 0 <= i < |input| ==> r.value[i] == conv(input[i]).0)
    decreases |input|
  {
    if input != [] {
      var init := input[..|input| - 1];
      var last := |input| - 1;
      ConvertSuccess(conv, init);
      assert forall i :: 0 <= i < |init| ==> init[i] == input[i];
      var r0 := Convert(conv, init);
      var (v, e) := conv(input[last]);
      if r0.Success? && e.None? {
        var r := Convert(conv, input);
        assert r.value == r0.value + [v];
        forall i | 0 <= i < |input|
          ensures r.value[i] == conv(input[i]).0
        {
          if i < last {
            assert r.value[i] == r0.value[i];
          }
        }
      }
    }
  }

  /** A failing loop fails with the error of the first value that fails. */
  lemma {:induction false} ConvertFailure(conv: string -> Written, input: seq<string>)
    ensures var r := Convert(conv, input);
      r.Failure? ==> exists j :: FirstFailureOf(conv, input, j) && conv(input[j]).1 == Some(r.error)
    decreases |input|
  {
    if input != [] {
      var init := input[..|input| - 1];
      var last := |input| - 1;
      ConvertFailure(conv, init);
      ConvertSuccess(conv, init);
      assert forall i :: 0 <= i < |init| ==> init[i] == input[i];
      var r0 := Convert(conv, init);
      if r0.Failure? {
        var j :| FirstFailureOf(conv, init, j) && conv(init[j]).1 == Some(r0.error);
        assert FirstFailureOf(conv, input, j);
      } else if conv(input[last]).1.Some? {
        assert FirstFailureOf(conv, input, last);
      }
    }
  }

  /**
   * A present key with N > 0 values on a slice field without a hook: on
   * success the field is a new slice of exactly N elements, element `i` set
   * from value `i` in order; otherwise the error is the first failing
   * element's and the field keeps its previous slice.
   */
  lemma SliceExpansion(f: Field, cur: Value, data: Params, env: Env)
    requires f.settable && FieldKey(f) in data && |data[FieldKey(f)]| > 0
    requires f.typ.kind.Slice? && !f.typ.isUnmarshaler
    ensures var input := data[FieldKey(f)];
      var elem := f.typ.kind.elem;
      var (v, e) := BindField(f, cur, data, env);
      && (e == None <==> forall i :: 0 <= i < |input| ==> ElemResult(elem, input[i], env).1 == None)
      && (e == None ==> v.SliceV? && |v.elems| == |input|)
      && (e == None ==> forall i :: 0 <= i < |input| ==> v.elems[i] == ElemResult(elem, input[i], env).0)
      && (e.Some? ==> v == cur)
      && (e.Some? ==> exists j :: FirstFailure(elem, input, env, j) && ElemResult(elem, input[j], env).1 == e)
  {
    ConvertElemsSpec(f.typ.kind.elem, data[FieldKey(f)], env);
  }

  // ---------------------------------------------------------------------
  // The keys a schema reads

  /** The keys binding a field may look up: none if unsettable, the nested struct's if flattened, else its key. */
  function FieldKeys(f: Field): set<string>
    decreases f
  {
    if !f.settable then {}
    else if Flattened(f) then FieldsKeys(f.typ.kind.fields, 0)
    else {FieldKey(f)}
  }

  /** The keys binding fields `i..` may look up. */
  function FieldsKeys(fs: seq<Field>, i: nat): set<string>
    decreases fs, if i <= |fs| then |fs| - i else 0
  {
    if i >= |fs| then {} else FieldKeys(fs[i]) + FieldsKeys(fs, i + 1)
  }

  /** Two mappings that agree on `keys`: same presence, same values. */
  predicate AgreeOn(d1: Params, d2: Params, keys: set<string>)
  {
    forall k :: k in keys ==> (k in d1 <==> k in d2) && (k in d1 ==> d1[k] == d2[k])
  }

  /** Binding a field depends on the mapping only through the field's keys. */
  lemma {:induction false} BindFieldLocal(f: Field, cur: Value, d1: Params, d2: Params, env: Env)
    requires AgreeOn(d1, d2, FieldKeys(f))
    ensures BindField(f, cur, d1, env) == BindField(f, cur, d2, env)
    decreases f
  {
    if f.settable && Flattened(f) && cur.StructV? && |cur.fields| == |f.typ.kind.fields| {
      BindFieldsLocal(f.typ.kind.fields, cur.fields, d1, d2, env, 0);
    }
  }

  /** Binding fields `i..` depends on the mapping only through their keys. */
  lemma {:induction false} BindFieldsLocal(fs: seq<Field>, vs: seq<Value>, d1: Params, d2: Params, env: Env, i: nat)
    requires |vs| == |fs| && i <= |fs|
    requires AgreeOn(d1, d2, FieldsKeys(fs, i))
    ensures BindFields(fs, vs, d1, env, i) == BindFields(fs, vs, d2, env, i)
    decreases fs, |fs| - i
  {
    if i < |fs| {
      BindFieldLocal(fs[i], vs[i], d1, d2, env);
      var (v, e) := BindField(fs[i], vs[i], d1, env);
      if e.None? {
        BindFieldsLocal(fs, vs[i := v], d1, d2, env, i + 1);
      }
    }
  }

  /** A field none of whose keys is in the mapping is left as it was, without error. */
  lemma {:induction false} BindFieldUntouched(f: Field, cur: Value, data: Params, env: Env)
    requires data.Keys !! FieldKeys(f)
    ensures BindField(f, cur, data, env) == (cur, None)
    decreases f
  {
    if f.settable && Flattened(f) && cur.StructV? && |cur.fields| == |f.typ.kind.fields| {
      BindFieldsUntouched(f.typ.kind.fields, cur.fields, data, env, 0);
    }
  }

  /** Fields none of whose keys is in the mapping are left as they were, without error. */
  lemma {:induction false} BindFieldsUntouched(fs: seq<Field>, vs: seq<Value>, data: Params, env: Env, i: nat)
    requires |vs| == |fs| && i <= |fs|
    requires data.Keys !! FieldsKeys(fs, i)
    ensures BindFields(fs, vs, data, env, i) == (vs, None)
    decreases fs, |fs| - i
  {
    if i < |fs| {
      BindFieldUntouched(fs[i], vs[i], data, env);
      assert vs[i := vs[i]] == vs;
      BindFieldsUntouched(fs, vs, data, env, i + 1);
    }
  }

  /**
   * An untagged struct field is flattened: its nested fields are bound from
   * the same mapping, in order.  On success each nested field holds what its
   * own bind wrote; on an error, the error is that of the first nested field
   * that fails, the nested fields before it hold their own binds, and the
   * ones after it are untouched.
   */
  lemma FlattenedField(f: Field, vs: seq<Value>, data: Params, env: Env)
    requires f.settable && Flattened(f) && |vs| == |f.typ.kind.fields|
    ensures var (v, e) := BindField(f, StructV(vs), data, env);
      v.StructV? && |v.fields| == |vs|
    ensures var (v, e) := BindField(f, StructV(vs), data, env);
      var fs := f.typ.kind.fields;
      e == None ==> BoundBetween(fs, vs, v.fields, data, env, 0, |fs|)
    ensures var (v, e) := BindField(f, StructV(vs), data, env);
      var fs := f.typ.kind.fields;
      e.Some? ==> exists j :: FailedAt(fs, vs, v.fields, data, env, 0, j) && BindField(fs[j], vs[j], data, env).1 == e && BoundBetween(fs, vs, v.fields, data, env, 0, j)
  {
    BindFieldsStopsAtError(f.typ.kind.fields, vs, data, env, 0);
  }

  /**
   * The outer name of a flattened struct field is never looked up: a value
   * under that name changes nothing unless a nested field uses that key.
   */
  lemma FlattenedNameIgnored(f: Field, cur: Value, data: Params, vals: seq<string>, env: Env)
    requires Flattened(f) && f.name !in FieldsKeys(f.typ.kind.fields, 0)
    ensures BindField(f, cur, data[f.name := vals], env) == BindField(f, cur, data, env)
  {
    BindFieldLocal(f, cur, data[f.name := vals], data, env);
  }

  // ---------------------------------------------------------------------
  // Field loop

  /** Every field in `i..j-1` holds what its own bind wrote from its entry value, without error. */
  predicate BoundBetween(fs: seq<Field>, vs: seq<Value>, ws: seq<Value>, data: Params, env: Env, i: nat, j: int)
    requires |vs| == |fs| == |ws| && j <= |fs|
  {
    forall k :: i <= k < j ==> BindField(fs[k], vs[k], data, env) == (ws[k], None)
  }

  /** Field `j` (at or after `i`) is where the loop stopped: it holds what its own bind wrote and the fields after it are untouched. */
  predicate FailedAt(fs: seq<Field>, vs: seq<Value>, ws: seq<Value>, data: Params, env: Env, i: nat, j: int)
    requires |vs| == |fs| == |ws|
  {
    && i <= j < |fs|
    && ws[j + 1..] == vs[j + 1..]
    && BindField(fs[j], vs[j], data, env).0 == ws[j]
  }

  /**
   * The field loop from `i` on: fields before `i` are untouched; on success
   * every field from `i` on holds what its own bind wrote; on an error there
   * is a field `j` whose own bind, from its value on entry, produced that
   * error, every field in `i..j-1` was bound without error and holds its
   * bind's value, and every field after `j` is untouched.
   */
  lemma {:induction false} BindFieldsStopsAtError(fs: seq<Field>, vs: seq<Value>, data: Params, env: Env, i: nat)
    requires |vs| == |fs| && i <= |fs|
    ensures var (ws, e) := BindFields(fs, vs, data, env, i);
      && |ws| == |vs| && ws[..i] == vs[..i]
      && (e == None ==> BoundBetween(fs, vs, ws, data, env, i, |fs|))
      && (e.Some? ==> exists j :: FailedAt(fs, vs, ws, data, env, i, j) && BindField(fs[j], vs[j], data, env).1 == e && BoundBetween(fs, vs, ws, data, env, i, j))
    decreases |fs| - i
  {
    BindFieldsLength(fs, vs, data, env, i);
    if i < |fs| {
      var (v, e) := BindField(fs[i], vs[i], data, env);
      var vs' := vs[i := v];
      if e.None? {
        BindFieldsStopsAtError(fs, vs', data, env, i + 1);
        BindFieldsLength(fs, vs', data, env, i + 1);
        var (ws, e') := BindFields(fs, vs', data, env, i + 1);
        assert ws[..i] == vs'[..i] == vs[..i] by {
          assert ws[..i] == ws[..i + 1][..i];
        }
        assert ws[i] == v by {
          assert ws[i] == ws[..i + 1][i];
        }
        if e'.Some? {
          var j :| FailedAt(fs, vs', ws, data, env, i + 1, j) && BindField(fs[j], vs'[j], data, env).1 == e'
            && BoundBetween(fs, vs', ws, data, env, i + 1, j);
          assert vs'[j] == vs[j] && vs'[j + 1..] == vs[j + 1..];
          assert FailedAt(fs, vs, ws, data, env, i, j);
          assert BoundBetween(fs, vs, ws, data, env, i, j) by {
            forall k | i <= k < j
              ensures BindField(fs[k], vs[k], data, env) == (ws[k], None)
            {
              if k > i {
                assert vs'[k] == vs[k];
              }
            }
          }
        } else {
          assert BoundBetween(fs, vs, ws, data, env, i, |fs|) by {
            forall k | i <= k < |fs|
              ensures BindField(fs[k], vs[k], data, env) == (ws[k], None)
            {
              if k > i {
                assert vs'[k] == vs[k];
              }
            }
          }
        }
      } else {
        assert vs'[i + 1..] == vs[i + 1..];
        assert FailedAt(fs, vs, vs', data, env, i, i);
        assert BoundBetween(fs, vs, vs', data, env, i, i);
      }
    }
  }

  /**
   * In a bind where other keys are present, a field none of whose keys is
   * present ends with the value it had: it is never the field that fails.
   */
  lemma AbsentFieldKept(fs: seq<Field>, vs: seq<Value>, data: Params, env: Env, k: nat)
    requires |vs| == |fs| && k < |fs|
    requires data.Keys !! FieldKeys(fs[k])
    ensures var ws := BindFields(fs, vs, data, env, 0).0;
      |ws| == |vs| && ws[k] == vs[k]
  {
    BindFieldsStopsAtError(fs, vs, data, env, 0);
    BindFieldUntouched(fs[k], vs[k], data, env);
    var (ws, e) := BindFields(fs, vs, data, env, 0);
    if e.Some? {
      var j :| FailedAt(fs, vs, ws, data, env, 0, j) && BindField(fs[j], vs[j], data, env).1 == e
        && BoundBetween(fs, vs, ws, data, env, 0, j);
      if k > j {
        assert ws[k] == ws[j + 1..][k - j - 1];
      }
    }
  }

  // ---------------------------------------------------------------------
  // Types are preserved

  lemma UnmarshalFieldPreservesType(t: Type, s: string, cur: Value, env: Env)
    requires Sound(env) && HasType(cur, t, env.intSize)
    ensures HasType(UnmarshalField(t, s, cur, env).value, t, env.intSize)
  {
    if t.kind.Ptr? {
      ZeroHasType(t.kind.pointee, env.intSize);
      var p := t.kind.pointee;
      assert HasType(env.unmarshalParam(p, s).value, p, env.intSize);
    } else {
      assert HasType(env.unmarshalParam(t, s).value, t, env.intSize);
    }
  }

  lemma SetWithProperTypePreservesType(t: Type, s: string, cur: Value, env: Env)
    requires Sound(env) && HasType(cur, t, env.intSize)
    ensures HasType(SetWithProperType(t, s, cur, env).0, t, env.intSize)
  {
    UnmarshalFieldPreservesType(t, s, cur, env);
    var input := if s == "" then "0" else s;
    match t.kind
    case Int(w) => ParseIntBound(input, BitSizeArg(w), env.intSize);
    case _ =>
  }

  lemma {:induction false} ConvertElemsPreservesType(elem: Type, input: seq<string>, env: Env)
    requires Sound(env)
    ensures var r := ConvertElems(elem, input, env);
      r.Success? ==> forall j :: 0 <= j < |r.value| ==> HasType(r.value[j], elem, env.intSize)
    decreases |input|
  {
    if input != [] {
      ConvertElemsPreservesType(elem, input[..|input| - 1], env);
      ZeroHasType(elem, env.intSize);
      SetWithProperTypePreservesType(elem, input[|input| - 1], Zero(elem), env);
    }
  }

  /** With every `UnmarshalParam` well typed, binding a field leaves it holding a value of its type. */
  lemma {:induction false} BindFieldPreservesType(f: Field, cur: Value, data: Params, env: Env)
    requires Sound(env) && HasType(cur, f.typ, env.intSize)
    ensures HasType(BindField(f, cur, data, env).0, f.typ, env.intSize)
    decreases f
  {
    if f.settable {
      if Flattened(f) {
        BindFieldsPreservesTypes(f.typ.kind.fields, cur.fields, data, env, 0);
      } else if FieldKey(f) in data && |data[FieldKey(f)]| > 0 {
        var input := data[FieldKey(f)];
        UnmarshalFieldPreservesType(f.typ, input[0], cur, env);
        var o := UnmarshalField(f.typ, input[0], cur, env);
        if f.typ.kind.Slice? {
          ConvertElemsPreservesType(f.typ.kind.elem, input, env);
          var r := ConvertElems(f.typ.kind.elem, input, env);
          if r.Success? {
            assert HasType(SliceV(r.value), f.typ, env.intSize);
          }
        } else {
          SetWithProperTypePreservesType(f.typ, input[0], o.value, env);
        }
      }
    }
  }

  /** With every `UnmarshalParam` well typed, the field loop keeps every field's value of its type. */
  lemma {:induction false} BindFieldsPreservesTypes(fs: seq<Field>, vs: seq<Value>, data: Params, env: Env, i: nat)
    requires Sound(env) && FieldsHaveTypes(vs, fs, env.intSize) && i <= |fs|
    ensures FieldsHaveTypes(BindFields(fs, vs, data, env, i).0, fs, env.intSize)
    decreases fs, |fs| - i
  {
    if i < |fs| {
      BindFieldPreservesType(fs[i], vs[i], data, env);
      var (v, e) := BindField(fs[i], vs[i], data, env);
      var vs' := vs[i := v];
      assert FieldsHaveTypes(vs', fs, env.intSize);
      if e.None? {
        BindFieldsPreservesTypes(fs, vs', data, env, i + 1);
      }
    }
  }

  // ---------------------------------------------------------------------
  // Two requests end to end

  /** GET with query {"Name": ["Ann"], "Age": ["30"]} into `struct { Name string; Age int }`. */
  lemma QueryScenario(env: Env)
    ensures var t := Type("User", Struct([Field("Name", "", true, Type("string", String, false)),
                                          Field("Age", "", true, Type("int", Int(Native), false))]), false);
      var query := map["Name" := ["Ann"], "Age" := ["30"]];
      Bind(t, [StrV(""), IntV(0)], Request(GET, "", false, query, map[], None), env)
        == ([StrV("Ann"), IntV(30)], None)
  {
    var name := Field("Name", "", true, Type("string", String, false));
    var age := Field("Age", "", true, Type("int", Int(Native), false));
    var fs := [name, age];
    var query := map["Name" := ["Ann"], "Age" := ["30"]];
    assert query["Name"][0] == "Ann" && query["Age"][0] == "30";
    assert BindField(name, StrV(""), query, env) == (StrV("Ann"), None);
    ThirtyBinds(env);
    assert BindField(age, IntV(0), query, env) == (IntV(30), None);
    assert [StrV(""), IntV(0)][0 := StrV("Ann")] == [StrV("Ann"), IntV(0)];
    assert [StrV("Ann"), IntV(0)][1 := IntV(30)] == [StrV("Ann"), IntV(30)];
    assert BindFields(fs, [StrV("Ann"), IntV(30)], query, env, 2) == ([StrV("Ann"), IntV(30)], None);
  }

  /** The string "30" sets a platform-width int field to 30. */
  lemma ThirtyBinds(env: Env)
    ensures SetIntField("30", 0, IntV(0), env.intSize) == (IntV(30), None)
  {
    assert Unsigned("30") == "30";
    assert Decimal("30") == 30 by {
      assert "30"[..1] == "3";
      assert "3"[..0] == "";
    }
    var b := EffectiveBitSize(0, env.intSize);
    assert Pow2(b - 1) >= 32 by {
      assert Pow2(5) == 32 by {
        assert Pow2(1) == 2 && Pow2(2) == 4 && Pow2(3) == 8 && Pow2(4) == 16;
      }
      Pow2Monotone(5, b - 1);
    }
    ParseUintDigits("30", 0, env.intSize);
    ParseIntCutoff("30", 0, env.intSize, 30);
  }

  lemma {:induction false} Pow2Monotone(m: nat, n: nat)
    requires m <= n
    ensures Pow2(m) <= Pow2(n)
    decreases n
  {
    if m < n {
      Pow2Monotone(m, n - 1);
    }
  }

  /** A form POST of {"Tags": ["a", "b", "c"]} into `struct { Tags []string }`. */
  lemma FormSliceScenario(env: Env)
    ensures var t := Type("Form", Struct([Field("Tags", "", true, Type("", Slice(Type("string", String, false)), false))]), false);
      var form := map["Tags" := ["a", "b", "c"]];
      var req := Request("POST", MIMEApplicationForm, true, map[], form, None);
      Bind(t, [SliceV([])], req, env) == ([SliceV([StrV("a"), StrV("b"), StrV("c")])], None)
  {
    var f := Field("Tags", "", true, Type("", Slice(Type("string", String, false)), false));
    var form := map["Tags" := ["a", "b", "c"]];
    SliceExpansion(f, SliceV([]), form, env);
    var str := Type("string", String, false);
    assert form["Tags"] == ["a", "b", "c"];
    assert forall i :: 0 <= i < 3 ==> ElemResult(str, form["Tags"][i], env) == (StrV(form["Tags"][i]), None);
    var r := BindField(f, SliceV([]), form, env);
    assert r.1 == None;
    assert r.0.elems == [StrV("a"), StrV("b"), StrV("c")];
    assert [SliceV([])][0 := r.0] == [r.0];
    assert BindFields([f], [r.0], form, env, 1) == ([r.0], None);
    assert BindFields([f], [SliceV([])], form, env, 0) == ([r.0], None);
    assert !(MIMEApplicationJSON <= MIMEApplicationForm) && !(MIMEApplicationXML <= MIMEApplicationForm) by {
      assert MIMEApplicationJSON[12] != MIMEApplicationForm[12];
      assert MIMEApplicationXML[13] != MIMEApplicationForm[13];
    }
    assert RouteOf("POST", MIMEApplicationForm, true) == FromForm;
  }
}
