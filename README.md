# echo form/query binder — a Dafny model

This project models the data binder of the echo web framework (`binder.go`).
`Bind` looks at the request and decides where a destination struct is filled
from: a GET request is bound from its query parameters. A request with a
method other than GET and no body is refused. After that, the Content-Type
prefix sends the body to the JSON decoder, the XML decoder or the form
binder, and any other content type is refused as unsupported media. The form
and query binder (`bindData`) walks the struct's fields in declared order:

- it skips fields reflection cannot set;
- the lookup key is the `form` tag, else the field name;
- an untagged struct field is flattened (its own fields are bound from the same map);
- a field whose key is absent is left alone;
- a field whose type has a `BindUnmarshaler` is decoded by its `UnmarshalParam`;
- a slice field gets one element per value;
- any other field gets the first value, coerced by its kind (`setWithProperType`,
  `setIntField`, `setUintField`, `setBoolField`).

The first error stops the walk. The fields written before it keep their new values.

Go reflection is replaced by an explicit schema (module `Schema`):

- a `Type` is a name, a kind and a flag saying whether `*T` implements `BindUnmarshaler`;
  the name keeps two named types of the same kind apart, so each has its own `UnmarshalParam`;
- a `Field` has a name, a tag, a settable flag and a type;
- a `Value` is what a field holds (a pointer is `PtrV(None)` when nil).

The platform's `int` width and the `UnmarshalParam` methods of the hooked
types are an `Env` parameter. The three `strconv` parsers the binder calls
(`ParseInt`, `ParseUint`, `ParseBool`, base 10) come from Go's standard
library. They are written out in module `Strconv`, with Go's error values
and its order of syntax and range checks. Module `Semantics` gives every
binder.go function as a pure function on values. Module `Binder` is the same
code as imperative methods over arrays of field values, and each method's
postcondition equates its new state and result with its `Semantics`
function. Module `Properties` proves what the binder promises about those
functions.

Two behaviours of the code are worth stating plainly:

- A pointer field without a hook is allocated by `unmarshalFieldPtr`
  (binder.go:300-306). `setWithProperType` then reaches the kind switch
  (binder.go:191), where a pointer matches no case, so the bind fails with
  "unknown type" (binder.go:220-221). For the concrete pointer types of
  binder.go:140-187 the code also replaces the pointer with one to the
  parsed value first, or panics in `Set` when the parsed value's type does
  not match the field. When it does not panic it still returns "unknown
  type". This model leaves that table out.
- A key present with an empty value list is indexed at `inputValue[0]`
  (binder.go:105) before the slice branch's `numElems > 0` guard
  (binder.go:113) is reached, so the code panics there.

## Model

| member | source | states |
|---|---|---|
| `Strconv.ParseUint` | binder.go:241 | `ParseUint(s, 10, bitSize)` as Go's digit loop: a result is below 2^b and a bit size above 64 never succeeds; every error names `ParseUint` and the input |
| `Strconv.ParseInt` | binder.go:230 | `ParseInt(s, 10, bitSize)` as Go's sign strip plus `ParseUint`, with the signed cutoff checks: a bit size above 64 never succeeds, and every error names `ParseInt` and the whole input (its value range is `ParseIntSpec`) |
| `Strconv.ParseIntSpec` | binder.go:230 | `ParseInt(s, 10, bitSize)` succeeds exactly when `s` is an optional sign followed by at least one digit and its value lies in [-2^(b-1), 2^(b-1)-1], where b is the bit size or the platform width for 0; it then returns that value; every error names `ParseInt` and the whole input; a well-formed literal out of range is `ErrRange` |
| `Strconv.ParseUintSpec` | binder.go:241 | `ParseUint(s, 10, bitSize)` succeeds exactly on non-empty digit strings (no sign) whose value is below 2^b, returning that value; every error names `ParseUint` and the input; a digit string that does not fit is `ErrRange` |
| `Strconv.ParseIntFormat` | binder.go:230 | round trip: the decimal rendering of any integer parses back to it exactly when it is in the signed range of the width, else it is a range error |
| `Strconv.ParseUintFormat` | binder.go:241 | round trip: the decimal rendering of any natural number parses back to it exactly when it is below 2^b |
| `Strconv.ParseBool` | binder.go:252 | accepts exactly `1 t T TRUE true True` (true) and `0 f F FALSE false False` (false); anything else is a `ParseBool` syntax error naming the input |
| `Schema.BitSizeArg` | binder.go:192-211 | the kind switch passes bit size 0 (platform width) or 8, 16, 32, 64 to the integer setters |
| `Schema.ZeroHasType` | binder.go:303 | the zero value that `reflect.New` or `reflect.MakeSlice` creates is a value of its type |
| `Semantics.RouteOf` | binder.go:31-68 | GET goes to the query whatever the body and content type; otherwise a missing body is refused before the content type is examined; then JSON, XML, then form or multipart prefixes are tried in that order; a content type matching none is unsupported (each case as an if-and-only-if) |
| `Semantics.Bind` | binder.go:29-70 | GET binds from the query only and wraps a binding error as Bad Request; a non-GET request without a body fails with "request body can't be empty" and leaves the destination unchanged; an unmatched content type fails with `ErrUnsupportedMediaType` without a write; form content binds from the form parameters |
| `Semantics.BindData` | binder.go:72-78 | a destination that is not a struct fails with "binding element must be a struct" and no field is written; the result has as many field values as the input |
| `Binder.UnmarshalFieldNonPtr` | binder.go:291-298 | when the type has a hook, the field is overwritten with what `UnmarshalParam` leaves in a fresh zero value, even when it returns an error, and the call reports handled; otherwise nothing changes |
| `Binder.UnmarshalFieldPtr` | binder.go:300-306 | a nil pointer is first allocated to a zero pointee, then the pointee's hook is tried through the pointer; only that field changes |
| `Binder.UnmarshalField` | binder.go:270-277 | a pointer kind takes the pointer path, every other kind the direct path |
| `Binder.SetIntField` | binder.go:226-235 | writes the `ParseInt` result (with "" read as "0") on success and leaves the field unchanged on error, returning the parse error |
| `Binder.SetUintField` | binder.go:237-246 | writes the `ParseUint` result (with "" read as "0") on success and leaves the field unchanged on error |
| `Binder.SetBoolField` | binder.go:248-257 | writes the `ParseBool` result (with "" read as "false") on success and leaves the field unchanged on error |
| `Binder.SetWithProperType` | binder.go:131-224 | the hook first, then the kind switch; only the target cell changes |
| `Binder.FillSlice` | binder.go:112-121 | builds a new slice of one zero element per value, sets element i from value i in order, and stops at the first failing element with its error |
| `Binder.BindField` | binder.go:81-126 | one iteration of the field loop; only the field's own cell changes |
| `Binder.BindData` | binder.go:72-129 | refuses a non-struct without a write, else runs the field loop in declared order and stops at the first error |
| `Binder.Bind` | binder.go:29-70 | the routing decision followed by the query binding, the form binding or the decoder's reported outcome |
| `Properties.IntFieldCoercion` | binder.go:226-235 | "" yields 0; otherwise an int field is set exactly when the string is a signed decimal in the width's range, to its value; on failure the field keeps its value and the error is `ParseInt`'s, a range error for a well-formed literal |
| `Properties.UintFieldCoercion` | binder.go:237-246 | "" yields 0; otherwise a uint field is set exactly when the string is all digits with value below 2^b; on failure the field keeps its value |
| `Properties.BoolFieldCoercion` | binder.go:248-257 | "" yields false; the six true and six false literals give their value; anything else is a syntax error and the field keeps its value |
| `Properties.IntFieldRoundTrip` | binder.go:226-235 | binding the decimal rendering of n stores n exactly when n fits the width, else a range error and no write |
| `Properties.UintFieldRoundTrip` | binder.go:237-246 | binding the decimal rendering of n to a uint field stores n exactly when n < 2^b |
| `Properties.KindDispatch` | binder.go:191-223 | without a hook: a string is stored verbatim, ints, uints and bools go to their setters, slices, structs and other kinds return "unknown type" unchanged, and a pointer ends allocated (an existing pointee kept) with "unknown type" |
| `Properties.HookPrecedence` | binder.go:105-110 | a present key on a hooked non-pointer field: the result is the hook's decode of the first value and its error, whatever the field held and whatever its kind, ahead of slice expansion and scalar coercion |
| `Properties.PointerHook` | binder.go:300-306 | a present key on a pointer whose pointee is hooked: the pointer ends non-nil pointing at the decoded value, with the hook's error |
| `Properties.PointerWithoutHook` | binder.go:131-224 | a present key on a pointer without a hook: a nil pointer is allocated to a zero pointee, a non-nil one is kept, and the bind fails with "unknown type" |
| `Properties.ScalarField` | binder.go:105-125 | a present key on an unhooked field that is neither a slice nor a pointer is set from the first value by the kind switch; further values under the key make no difference |
| `Properties.ConvertElemsSpec` | binder.go:112-121 | the slice built from N values succeeds exactly when no element fails; it then has N elements, element i set from value i; otherwise the error is that of the first failing element |
| `Properties.SliceExpansion` | binder.go:112-121 | a present key with N > 0 values on an unhooked slice field: success gives a slice of exactly N elements in order; failure returns the first failing element's error and leaves the previous slice in place |
| `Properties.BindFieldLocal` | binder.go:87-103 | binding a field reads the map only at its keys: its tag, else its name, or a flattened struct's nested keys, or none when unsettable |
| `Properties.BindFieldsLocal` | binder.go:80-127 | the field loop reads the map only at the keys of its fields |
| `Properties.BindFieldUntouched` | binder.go:83-103 | an unsettable field, or one none of whose keys is present, is left unchanged without error |
| `Properties.BindFieldsUntouched` | binder.go:80-127 | with none of the schema's keys present, the bind writes nothing and succeeds |
| `Properties.FlattenedField` | binder.go:89-98 | an untagged struct field's nested fields are bound from the same map in order: on success each holds what its own bind wrote; on an error it is the first failing nested field's, the nested fields before it hold their own binds and those after it are untouched |
| `Properties.FlattenedNameIgnored` | binder.go:89-98 | the outer name of an untagged struct field is never looked up: a value under it changes nothing unless a nested field uses that key |
| `Properties.BindFieldsStopsAtError` | binder.go:80-127 | fields before the loop's start are untouched; on success every later field holds what its own bind wrote; on an error some field j produced it, every field before j was bound without error and holds its own bind's value, j holds what its bind wrote, and every field after j is untouched |
| `Properties.AbsentFieldKept` | binder.go:100-103 | in any bind, a field none of whose keys is present ends with the value it had, whatever the other fields do |
| `Properties.UnmarshalFieldPreservesType` | binder.go:270-306 | with well-typed hooks, the hook path leaves a value of the field's type |
| `Properties.SetWithProperTypePreservesType` | binder.go:131-224 | with well-typed hooks, coercion leaves a value of the field's type, integers within their width |
| `Properties.ConvertElemsPreservesType` | binder.go:112-121 | every element of a built slice has the element type |
| `Properties.BindFieldPreservesType` | binder.go:81-126 | binding a field keeps its value of its declared type |
| `Properties.BindFieldsPreservesTypes` | binder.go:80-127 | the field loop keeps every field's value of its declared type |
| `Properties.QueryScenario` | binder.go:31-36 | GET with query Name=Ann, Age=30 into `{Name string; Age int}` gives `{Ann, 30}` without error |
| `Properties.FormSliceScenario` | binder.go:64-67 | a form POST of Tags=a,b,c into `{Tags []string}` gives `["a", "b", "c"]` |

## Left out

- JSON and XML decoding (binder.go:44-63): the decoders are foreign code. The model keeps the routing decision and takes the decoder's reported error as a field of the request (`decodeError`). What a decoder writes into the destination is not modelled, and neither is the wording of its error messages.
- Floating-point fields (`setFloatField`, binder.go:259-268, and the float entries of the pointer table): the schema has no float kind, because float parsing is not modelled.
- The concrete pointer-type table (binder.go:140-187): it compares against identifiers defined outside this file and discards parse errors. When one of its cases matches, the code replaces the pointer with a pointer to the parsed value, or panics in `Set` on a type mismatch. Neither that write nor that panic is captured. The model keeps the pointee that `unmarshalFieldPtr` allocated and returns "unknown type".
- HTTP error construction (`NewHTTPError`, status codes, error text): errors are the abstract kinds `BadRequest(cause)` (status 400) and `UnsupportedMediaType`.
- Go reflection itself (`reflect.New`, `CanInterface`, `Set` type checks, `reflect.TypeOf(ptr).Elem()` panicking on a non-pointer): the destination is given as its type plus the values of its fields.
- Pointer identity and aliasing: a pointer is a value holding its pointee. Two fields sharing a pointee, and writes seen through another alias, are not modelled.
- Go panics: the panic of `inputValue[0]` on an empty value list (binder.go:105) is modelled as the error `IndexOutOfRange`, not as a panic unwinding the request.
- `UnmarshalParam` is an abstract function of the type and the string. Types are told apart by name, kind and hook flag, so two distinct Go types that agree on all three (such as two types of the same name from different packages) must decode alike. Any effect `UnmarshalParam` has beyond its receiver is not modelled.
- The request's method, header and body are request fields (`verb`, `contentType`, `hasBody`). The header lookup and body stream are not modelled. The constants `GET` and the four MIME types are defined outside binder.go and carry their standard values here.
- `Semantics.BindField`: a destination value that does not have its schema type (which Go's type system rules out) is left unchanged rather than rejected.
- `Strconv.ParseIntSpec`: states nothing for bit size 1, which the binder never passes. There, `ParseInt` returns -1 for any negative literal.
