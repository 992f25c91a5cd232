/** Pointer/value helpers (package `trans`, file base.go). A Go pointer `*T` is an
    `Option<T>`: `None` is nil, `Some(v)` points at a `v`. A default-value provider
    `IDefaultValue[T]` is represented by the value its `DefaultValue()` returns. */
module Trans {
  import opened Wrappers

  type int8 = x: int | -0x80 <= x < 0x80
  type int16 = x: int | -0x8000 <= x < 0x8000
  type int32 = x: int | -0x8000_0000 <= x < 0x8000_0000
  type int64 = x: int | -0x8000_0000_0000_0000 <= x < 0x8000_0000_0000_0000
  type uint8 = x: int | 0 <= x < 0x100
  type uint16 = x: int | 0 <= x < 0x1_0000
  type uint32 = x: int | 0 <= x < 0x1_0000_0000
  type uint64 = x: int | 0 <= x < 0x1_0000_0000_0000_0000

  /** `ToPtr`: a pointer to (a copy of) v. */
  function ToPtr<T>(v: T): Option<T> {
    Some(v)
  }

  /** `FromPtr`: the pointee, or the provider's default for nil. */
  function FromPtr<T>(p: Option<T>, defaultValue: T): T {
    if p.None? then defaultValue else p.value
  }

  /** FromPtr's two cases, and `FromPtr(ToPtr(v), d) == v`. */
  lemma FromPtrLaws<T>(p: Option<T>, v: T, d: T)
    ensures FromPtr(None, d) == d
    ensures p.Some? ==> FromPtr(p, d) == p.value
    ensures FromPtr(ToPtr(v), d) == v
  {
  }

  // The zero-value providers (`StringDefaultValue{}.DefaultValue()` and the like).
  function StringDefaultValue(): string { "" }
  function IntDefaultValue(): int64 { 0 }
  function Int8DefaultValue(): int8 { 0 }
  function Int16DefaultValue(): int16 { 0 }
  function Int32DefaultValue(): int32 { 0 }
  function Int64DefaultValue(): int64 { 0 }
  function UintDefaultValue(): uint64 { 0 }
  function Uint8DefaultValue(): uint8 { 0 }
  function Uint16DefaultValue(): uint16 { 0 }
  function Uint32DefaultValue(): uint32 { 0 }
  function Uint64DefaultValue(): uint64 { 0 }
  function BoolDefaultValue(): bool { false }

  /** The string, integer and bool providers give the zero value of their type. */
  lemma DefaultProvidersAreZero()
    ensures StringDefaultValue() == "" && BoolDefaultValue() == false
    ensures IntDefaultValue() == Int8DefaultValue() == Int16DefaultValue() == 0
    ensures Int32DefaultValue() == Int64DefaultValue() == 0
    ensures UintDefaultValue() == Uint8DefaultValue() == Uint16DefaultValue() == 0
    ensures Uint32DefaultValue() == Uint64DefaultValue() == 0
  {
  }

  // The typed dereferencing wrappers (`StringValue(a)` and the like); Go's `int` and
  // `uint` are taken to be 64 bits wide.
  function StringValue(a: Option<string>): string { FromPtr(a, StringDefaultValue()) }
  function IntValue(a: Option<int64>): int64 { FromPtr(a, IntDefaultValue()) }
  function Int8Value(a: Option<int8>): int8 { FromPtr(a, Int8DefaultValue()) }
  function Int16Value(a: Option<int16>): int16 { FromPtr(a, Int16DefaultValue()) }
  function Int32Value(a: Option<int32>): int32 { FromPtr(a, Int32DefaultValue()) }
  function Int64Value(a: Option<int64>): int64 { FromPtr(a, Int64DefaultValue()) }
  function UintValue(a: Option<uint64>): uint64 { FromPtr(a, UintDefaultValue()) }
  function Uint8Value(a: Option<uint8>): uint8 { FromPtr(a, Uint8DefaultValue()) }
  function Uint16Value(a: Option<uint16>): uint16 { FromPtr(a, Uint16DefaultValue()) }
  function Uint32Value(a: Option<uint32>): uint32 { FromPtr(a, Uint32DefaultValue()) }
  function Uint64Value(a: Option<uint64>): uint64 { FromPtr(a, Uint64DefaultValue()) }
  function BoolValue(a: Option<bool>): bool { FromPtr(a, BoolDefaultValue()) }

  /** Every typed wrapper returns the pointee, or ""/0/false for nil. */
  lemma TypedWrappersDereference(s: Option<string>, n: Option<int64>, n8: Option<int8>,
                                 n16: Option<int16>, n32: Option<int32>, n64: Option<int64>,
                                 u: Option<uint64>, u8: Option<uint8>, u16: Option<uint16>,
                                 u32: Option<uint32>, u64: Option<uint64>, b: Option<bool>)
    ensures StringValue(s) == (if s.Some? then s.value else "")
    ensures IntValue(n) == (if n.Some? then n.value else 0)
    ensures Int8Value(n8) == (if n8.Some? then n8.value else 0)
    ensures Int16Value(n16) == (if n16.Some? then n16.value else 0)
    ensures Int32Value(n32) == (if n32.Some? then n32.value else 0)
    ensures Int64Value(n64) == (if n64.Some? then n64.value else 0)
    ensures UintValue(u) == (if u.Some? then u.value else 0)
    ensures Uint8Value(u8) == (if u8.Some? then u8.value else 0)
    ensures Uint16Value(u16) == (if u16.Some? then u16.value else 0)
    ensures Uint32Value(u32) == (if u32.Some? then u32.value else 0)
    ensures Uint64Value(u64) == (if u64.Some? then u64.value else 0)
    ensures BoolValue(b) == (b.Some? && b.value)
  {
  }

  /** Pointers to the elements of a sequence, one per element, in order. */
  function PtrsOf<T>(values: seq<T>): (ps: seq<Option<T>>)
    ensures |ps| == |values|
    ensures forall i :: 0 <= i < |values| ==> ps[i] == ToPtr(values[i])
  {
    if values == [] then [] else [ToPtr(values[0])] + PtrsOf(values[1..])
  }

  /** `BatchPtrs(values...)`: fills a fresh slice with a pointer to each argument. */
  method BatchPtrs<T>(values: seq<T>) returns (result: seq<Option<T>>)
    ensures result == PtrsOf(values)
  {
    var a := new Option<T>[|values|](_ => None);
    for i := 0 to |values|
      invariant forall k :: 0 <= k < i ==> a[k] == ToPtr(values[k])
    {
      a[i] := ToPtr(values[i]);
    }
    result := a[..];
  }
}
