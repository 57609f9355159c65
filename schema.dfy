/**
 * The explicit schema that stands in for Go reflection: a destination's
 * declared type, its fields in declared order, and the values those fields
 * hold.  Whether a type has a `BindUnmarshaler` is a flag on the type, and
 * the hook's `UnmarshalParam` is an abstract function carried by `Env`.
 */
module Schema {
  import opened Wrappers
  import Strconv

  /** The width of an integer kind; `Native` is Go's `int`/`uint`. */
  datatype Width = Native | W8 | W16 | W32 | W64

  /** The `bitSize` argument the binder passes to `strconv` for a width. */
  function BitSizeArg(w: Width): (b: nat)
    ensures b == 0 || b == 8 || b == 16 || b == 32 || b == 64
  {
    match w
    case Native => 0
    case W8 => 8
    case W16 => 16
    case W32 => 32
    case W64 => 64
  }

  /**
   * A declared Go type: its name (which tells apart two named types of the
   * same kind, so each can carry its own `UnmarshalParam`; "" for an unnamed
   * type), its reflect kind, and whether a pointer to it implements
   * `BindUnmarshaler` (the check `bindUnmarshaler` makes on a freshly
   * allocated `*T`).
   */
  datatype Type = Type(name: string, kind: Kind, isUnmarshaler: bool)

  /**
   * The reflect kinds the binder distinguishes; `Other` is every remaining
   * kind except the float kinds, which are not modelled.
   */
  datatype Kind =
    | Int(iw: Width)
    | Uint(uw: Width)
    | Bool
    | String
    | Slice(elem: Type)
    | Ptr(pointee: Type)
    | Struct(fields: seq<Field>)
    | Other

  /** A struct field: its name, its `form` tag ("" when absent), whether reflect can set it, and its type. */
  datatype Field = Field(name: string, tag: string, settable: bool, typ: Type)

  /** A value held by a field; a pointer is `PtrV(None)` when nil. */
  datatype Value =
    | IntV(i: int)
    | UintV(u: nat)
    | BoolV(b: bool)
    | StrV(s: string)
    | SliceV(elems: seq<Value>)
    | PtrV(target: Option<Value>)
    | StructV(fields: seq<Value>)
    | OtherV(token: nat)

  /** Go's zero value of a type, which `reflect.New` and `reflect.MakeSlice` produce. */
  function Zero(t: Type): Value
    decreases t
  {
    match t.kind
    case Int(_) => IntV(0)
    case Uint(_) => UintV(0)
    case Bool => BoolV(false)
    case String => StrV("")
    case Slice(_) => SliceV([])
    case Ptr(_) => PtrV(None)
    case Struct(fs) => StructV(seq(|fs|, j requires 0 <= j < |fs| => Zero(fs[j].typ)))
    case Other => OtherV(0)
  }

  /** The range of a signed integer of `bits` bits. */
  predicate InIntRange(n: int, bits: nat)
    requires bits >= 1
  {
    -(Strconv.Pow2(bits - 1) as int) <= n < Strconv.Pow2(bits - 1)
  }

  /** A value that a Go variable of type `t` can hold. */
  ghost predicate HasType(v: Value, t: Type, intSize: Strconv.IntSize)
    decreases t
  {
    match t.kind
    case Int(w) => v.IntV? && InIntRange(v.i, Strconv.EffectiveBitSize(BitSizeArg(w), intSize))
    case Uint(w) => v.UintV? && v.u < Strconv.Pow2(Strconv.EffectiveBitSize(BitSizeArg(w), intSize))
    case Bool => v.BoolV?
    case String => v.StrV?
    case Slice(e) => v.SliceV? && forall j :: 0 <= j < |v.elems| ==> HasType(v.elems[j], e, intSize)
    case Ptr(p) => v.PtrV? && (v.target.Some? ==> HasType(v.target.value, p, intSize))
    case Struct(fs) => v.StructV? && FieldsHaveTypes(v.fields, fs, intSize)
    case Other => v.OtherV?
  }

  /** The field values of a struct value match its fields, one for one. */
  ghost predicate FieldsHaveTypes(vs: seq<Value>, fs: seq<Field>, intSize: Strconv.IntSize)
    decreases fs
  {
    |vs| == |fs| && forall j :: 0 <= j < |fs| ==> HasType(vs[j], fs[j].typ, intSize)
  }

  /** Every zero value has its type. */
  lemma {:induction false} ZeroHasType(t: Type, intSize: Strconv.IntSize)
    ensures HasType(Zero(t), t, intSize)
    decreases t
  {
    match t.kind
    case Struct(fs) =>
      forall j | 0 <= j < |fs|
        ensures HasType(Zero(t).fields[j], fs[j].typ, intSize)
      {
        ZeroHasType(fs[j].typ, intSize);
      }
    case _ =>
  }

  /** What `UnmarshalParam` leaves in a fresh zero value of the type, and the error it returns. */
  datatype Decoded = Decoded(value: Value, err: Option<string>)

  /**
   * What the binder depends on beyond the schema: the platform's `int`
   * width and the `UnmarshalParam` methods of the types that have one.
   */
  datatype Env = Env(intSize: Strconv.IntSize, unmarshalParam: (Type, string) -> Decoded)

  /** Every `UnmarshalParam` leaves a value of its own type. */
  ghost predicate Sound(env: Env) {
    forall t, s :: HasType(env.unmarshalParam(t, s).value, t, env.intSize)
  }
}
