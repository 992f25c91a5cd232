# Model of the `moweilong/mo` utility core in Dafny

This project models the small sequential pieces of the Go module `github.com/moweilong/mo`
and proves properties of them:

- **Order numbers** (`id`): the wrapping counter `idCounter`, which hands out 0..999 and
  then starts again, and the three order-number formats. These are prefix + 14-digit
  timestamp + 4-digit random draw, prefix + timestamp + counter value, and timestamp +
  5-byte tenant field + 4 nanosecond digits + 4 random digits.
- **Byte utilities** (`byteutil`): the 8-byte big-endian codec for `int` and the
  ASCII-only case maps.
- **Pointer helpers** (`trans`): value/pointer conversions, the default-value providers,
  and the slice and map conversions.
- **Query builders** (`entx/query`): the order-by mini-grammar (`"-f"` descending, `"f"`
  ascending, `""` and `"-"` skipped) and the field-list normaliser.
- **Log options** (`pkg/mlog`): the defaults and `Validate`.

Files and modules:

| file | module | models |
|---|---|---|
| `wrappers.dfy` | `Wrappers` | `Option`, for Go's nil |
| `arith.dfy` | `Arith` | powers and Euclidean-division facts (helpers) |
| `decimal.dfy` | `Decimal` | `fmt`'s `%d` and `%0<w>d` for non-negative numbers, and reading digits back |
| `order_id.dfy` | `OrderId` | `id/order_id.go` |
| `byteutil.dfy` | `ByteUtil` | `byteutil/byteutil.go` |
| `trans_base.dfy` | `Trans` | `trans/base.go` |
| `trans_collection.dfy` | `TransCollection` | `trans/collection.go` |
| `query.dfy` | `Query` | `entx/query/order.go`, `entx/query/select.go` |
| `mlog.dfy` | `MLog` | `pkg/mlog/options.go` |

How Go is represented:

- A Go string is a Dafny `string` in which each character stands for one byte. Go's
  `len` and slicing count bytes, so `tenantID[:5]` is `tenantID[..5]` here.
- A pointer `*T` is an `Option<T>`: `None` is nil and `Some(v)` points at `v`.
- A nil slice or nil map is `None`, and a non-nil one is `Some(...)`.
- `MapKeys` and `MapValues` only range over their map, and ranging over a nil map
  visits nothing. So they take a plain `map`, and their result is never nil.
- A default-value provider `IDefaultValue[T]` is represented by the value its
  `DefaultValue()` returns.
- Go's `int` and `uint` are taken to be 64 bits wide.
- The clock, the random source and the time zone are parameters:
  - `now: Instant` is a `DateTime` with bounded fields. It is the wall-clock reading
    that `time.Now()` gives, in the location the time carries.
  - `r: Draw` is a draw of `rand.Intn(10000)`, a number in `[0, 10000)`.
  - A nil `tm` argument is `None` and stands for "use `now`".
- The process-wide counter `orderIdIndex` becomes an explicit `IdCounter` object. It is
  passed to `GenerateOrderIdWithIncreaseIndex`, and its constructor gives Go's zero value.
- An ORM `sql.Selector` is a `Selector` class holding its ORDER BY clauses and its
  selected columns.
- A closure returned by a builder is a `SelectorFn` value, and `Apply` runs it.
- `stringcase.ToSnakeCase` is not part of this model. It is a function parameter
  `toSnakeCase`.
- The zap level parser is not part of this model. It is a predicate parameter
  `levelOk`, true exactly when `zapcore.Level.UnmarshalText` accepts the text.

Two details of the ID code that the model keeps:

- The tenant ID's nano part is `nanoPart[:4]`, where `nanoPart` is `%06d` of
  `UnixNano() % 1000000` (`id/order_id.go:71,74`). That is `(ns mod 10^6) / 100`.
- The read at `id/order_id.go:15` is not atomic. Only sequential behaviour is modelled.

## Model

| member | source | states |
|---|---|---|
| `OrderId.IdCounter.constructor` | id/order_id.go:21 | a fresh counter holds 0, Go's zero value of the package variable |
| `OrderId.IdCounter.Increase` | id/order_id.go:14-19 | returns the value read before the add; afterwards the counter is the 32-bit `v+1`, reset to 0 when that is exactly 1000; a value below 1000 stays below 1000 |
| `OrderId.NextInWindow` | id/order_id.go:15-17 | inside [0,1000) one increase is `+1 mod 1000`, so the counter never leaves [0,1000) |
| `OrderId.AfterIsModular` | id/order_id.go:14-19 | from a value v < 1000, n sequential increases leave `(v+n) mod 1000` |
| `OrderId.FreshCounterSequence` | id/order_id.go:14-19 | from a fresh counter the i-th call (i < 1000) returns i: 0..999 in increasing order |
| `OrderId.WindowWrapsAround` | id/order_id.go:16-17 | after 1000 calls the counter is back where it started, so the 1001st call from 0 returns 0 |
| `OrderId.WindowDistinct` | id/order_id.go:14-19 | any fewer than 1000 consecutive calls starting inside the window return pairwise distinct values |
| `OrderId.Stamp` | id/order_id.go:31 | the layout "20060102150405" renders a time as exactly 14 decimal digits |
| `OrderId.StampFields` | id/order_id.go:31 | year, month, day, hour, minute and second can be read back from digits 0-3, 4-5, 6-7, 8-9, 10-11 and 12-13 of the stamp |
| `OrderId.StampInjective` | id/order_id.go:31 | two times have the same stamp if and only if they agree to the second |
| `OrderId.GenerateOrderIdWithRandom` | id/order_id.go:24-37 | the ID is the prefix, then the 14-digit stamp of `tm` (of now when `tm` is nil), then 4 digits denoting the draw; length is len(prefix)+18 |
| `OrderId.IndexOrderId` | id/order_id.go:46-50 | prefix, then the stamp, then the counter value in unpadded decimal (no leading zero, 1 to 3 digits while the value is below 1000, exactly the one digit "0" for 0) |
| `OrderId.GenerateOrderIdWithIncreaseIndex` | id/order_id.go:41-51 | the ID is `IndexOrderId` for the stamp of `tm` (or now) and the counter value before the call; the counter advances by one `Increase` |
| `OrderId.IndexOrderIdInjective` | id/order_id.go:50 | with the same prefix and time, two counter values give the same ID if and only if they are equal |
| `OrderId.IndexOrderIdsDistinctInWindow` | id/order_id.go:41-51 | IDs minted with one prefix and one time by fewer than 1000 sequential calls, starting inside the window, are pairwise distinct |
| `OrderId.MintIndexOrderIds` | id/order_id_test.go:41-47 | n calls in a row on one counter: ID i carries the counter value after i increases, the counter ends n increases on, and from inside the window at most 1000 IDs are pairwise distinct |
| `OrderId.MintedIdsDistinct` | id/order_id_test.go:41-47 | a run of at most 1000 IDs minted from consecutive counter values inside the window has no repeats |
| `OrderId.TenantField` | id/order_id.go:56-63 | always exactly 5 bytes; byte i is the tenant's byte i when it has one and '0' otherwise |
| `OrderId.TenantFieldCases` | id/order_id.go:56-63 | inputs of 5 or more bytes keep their first 5; a 5-byte input passes through; shorter inputs are right-padded with '0'; `""` gives `"00000"` and `"M"` gives `"M0000"` |
| `OrderId.TenantFieldTruncationCollides` | id/order_id.go:57-58 | tenants sharing their first 5 bytes get the same field |
| `OrderId.NanoFragment` | id/order_id.go:71-74 | the first 4 of the 6 zero-padded digits of m < 10^6 denote m / 100 |
| `OrderId.GenerateOrderIdWithTenantId` | id/order_id.go:55-75 | length 27: stamp in bytes 0-13, tenant field in 14-18, then 8 digits; digits 19-22 denote `(ns mod 10^6)/100` and digits 23-26 the draw |
| `Decimal.Format` | id/order_id.go:50 | `%d` yields a non-empty all-digit string with no leading zero; 0 is written as "0" |
| `Decimal.ValueOfFormat` | id/order_id.go:50 | reading back the `%d` rendering gives the number |
| `Decimal.FormatInjective` | id/order_id.go:50 | two numbers have the same `%d` rendering if and only if they are equal |
| `Decimal.FormatLength` | id/order_id.go:39-50 | a number below 10^k renders in at most k digits |
| `Decimal.PaddedFacts` | id/order_id.go:36 | for n < 10^w, `%0<w>d` gives exactly w digits that denote n |
| `Decimal.DropLastDigits` | id/order_id.go:74 | keeping all but the last k digits divides the value by 10^k |
| `ByteUtil.IntToBytes` | byteutil/byteutil.go:9-15 | returns a fresh 8-byte array holding `uint64(n)` in big-endian order |
| `ByteUtil.BytesToInt` | byteutil/byteutil.go:19-27 | returns 0 for any input whose length is not 8; for 8 bytes, returns the signed number whose two's-complement value is the bytes read big-endian |
| `ByteUtil.EncodingLayout` | byteutil/byteutil.go:11-13 | the encoding has exactly 8 bytes, and byte i holds bits 56-8i..63-8i of `uint64(n)`, so byte 0 is the most significant |
| `ByteUtil.DecodeEncode` | byteutil/byteutil.go:9-27 | `BytesToInt(IntToBytes(n)) == n` for every 64-bit n, negative ones included |
| `ByteUtil.EncodeDecode` | byteutil/byteutil.go:9-27 | every 8-byte input is the encoding of the number it decodes to |
| `ByteUtil.BigEndianRoundTrip` | byteutil/byteutil.go:13-26 | reading back the k-byte big-endian rendering of u < 256^k gives u |
| `ByteUtil.ByteToLower` | byteutil/byteutil.go:40-50 | 'A'..'Z' map to the same letter plus 0x20, which is the lower-case letter; every other byte, bytes of 128 and up included, is unchanged |
| `ByteUtil.ByteToUpper` | byteutil/byteutil.go:54-64 | 'a'..'z' map to the same letter minus 0x20 (bit 0x20 cleared); every other byte is unchanged |
| `ByteUtil.CaseMapLaws` | byteutil/byteutil.go:40-64 | both maps are idempotent; `ByteToUpper(ByteToLower(b)) == ByteToUpper(b)` and the converse; on letters the two maps are mutually inverse |
| `Trans.FromPtrLaws` | trans/base.go:9-19 | `FromPtr(nil, d)` is d; a non-nil pointer gives its pointee; `FromPtr(ToPtr(v), d) == v` |
| `Trans.DefaultProvidersAreZero` | trans/base.go:113-192 | the string, integer and bool providers return "", 0 and false |
| `Trans.TypedWrappersDereference` | trans/base.go:22-79 | every typed wrapper from `StringValue` to `BoolValue` returns the pointee, or ""/0/false for nil |
| `Trans.PtrsOf` | trans/base.go:97-103 | one pointer per value, in order, entry i pointing at value i |
| `Trans.BatchPtrs` | trans/base.go:97-103 | fills a new slice with one pointer per argument, entry i pointing at argument i; no arguments give length 0 |
| `TransCollection.SliceToPtrs` | trans/collection.go:7-16 | nil gives nil; otherwise the same length, entry i pointing at element i |
| `TransCollection.ValuesOf` | trans/collection.go:23-30 | same length; entry i is the pointee of pointer i, or the default when it is nil |
| `TransCollection.SliceFromPtrs` | trans/collection.go:19-32 | nil gives nil; an empty slice gives an empty non-nil one; otherwise each pointee, with nil entries replaced by the default |
| `TransCollection.ValuesOfPtrsOf` | trans/collection.go:7-32 | `SliceFromPtrs(SliceToPtrs(s), d)` gives back s |
| `TransCollection.PtrsOfValuesOf` | trans/collection.go:7-32 | converting pointers to values and back keeps the length, keeps each non-nil pointee, and turns nil entries into pointers to the default; with no nil entries it is the identity |
| `TransCollection.MapKeys` | trans/collection.go:35-41 | returns every key of the map exactly once (length len(source), no repeats), and never nil |
| `TransCollection.MapValues` | trans/collection.go:44-50 | length len(source), and each value occurs as often as there are keys mapping to it: exactly the multiset of the map's values |
| `TransCollection.MapFromPtrs` | trans/collection.go:53-66 | nil gives nil; otherwise the same key set, each key mapped to its pointee or to the default for a nil pointer (so an empty map gives an empty non-nil one) |
| `Query.Selector.OrderBy` | entx/query/order.go:39-41 | adding an ORDER BY term appends it and leaves the selected columns alone |
| `Query.Selector.Select` | entx/query/select.go:17 | the selected columns become exactly the given list |
| `Query.ParseOrderBy` | entx/query/order.go:16-32 | an entry yields a clause if and only if it is neither `""` nor `"-"`; the clause is descending if and only if the entry starts with '-'; its column is the rest of the entry then, and otherwise the whole entry, and it is never empty |
| `Query.ParseRenderRoundTrip` | entx/query/order.go:16-32 | parsing inverts writing a clause as `"-col"` or `"col"`, in both directions, for every entry that is not skipped |
| `Query.OrderClausesBounded` | entx/query/order.go:16-33 | a list of entries yields at most as many clauses as entries, and each clause is the parse of one of them |
| `Query.OrderClausesAppend` | entx/query/order.go:16-33 | entries are handled in input order: the clauses of `a ++ b` are those of a followed by those of b |
| `Query.OrderClausesOfRendered` | entx/query/order.go:16-33 | writing a list of clauses as entries and building from them gives the list back |
| `Query.BuildOrderSelect` | entx/query/order.go:37-43 | appends exactly one term on the field, descending when `desc` holds and ascending otherwise |
| `Query.ApplyOrderConditions` | entx/query/order.go:15-34 | running the closure appends the clauses of the entries, in input order, after the clauses already on the selector; nothing else changes |
| `Query.QueryCommandToOrderConditions` | entx/query/order.go:10-35 | an empty list gives a nil closure; otherwise the closure appends the entries' clauses; the error is always nil |
| `Query.BuildOrderSelector` | entx/query/order.go:45-53 | an empty list gives a closure appending exactly one clause, the default field descending; a non-empty list behaves exactly like `QueryCommandToOrderConditions`; the error is always nil |
| `Query.BuildFieldSelect` | entx/query/select.go:8-19 | on a non-empty slice, rewrites entry i in place to `ToSnakeCase` of its name, with "id_" and "_id" read as "id"; the selected columns become exactly the rewritten slice, in order; an empty slice changes nothing; the order terms are untouched |
| `Query.BuildFieldSelector` | entx/query/select.go:21-29 | an empty slice gives a nil closure; otherwise a closure over the caller's own slice; the error is always nil |
| `Query.Apply` | entx/query/order.go:15-49 | running any returned closure has that closure's effect: the order-condition closure of lines 15-34 and the default-order closure of lines 47-49 append their order terms, and the field-selection closure of entx/query/select.go:25-27 rewrites the slice and selects it |
| `MLog.NewOptions` | pkg/mlog/options.go:39-49 | the defaults are level "info" and format "json", the output paths are `["stdout"]`, every boolean is false, and the name is empty |
| `MLog.ToLowerEqualFold` | pkg/mlog/options.go:60-61 | lower-casing a text gives a lower-case word if and only if the text spells that word in any mix of cases |
| `MLog.FormatAcceptedIff` | pkg/mlog/options.go:60-63 | the format check accepts exactly the spellings of "console" and "json" in any mix of cases |
| `MLog.DefaultFormatAccepted` | pkg/mlog/options.go:45-63 | the default options pass the format check |
| `MLog.Validate` | pkg/mlog/options.go:52-66 | at most 2 errors; none if and only if the level parses and the format is accepted; a level error comes first and a format error last, carrying the original format text; the options are not changed |

## Left out

- Concurrency: the atomic add and compare-and-swap, and the unsynchronised read at `id/order_id.go:15`, are modelled as one sequential step. The concurrent test's bound of at least 900 distinct IDs is about interleavings and is not modelled.
- The clock, randomness and Go's time formatting are parameters. `time.Now`, `rand.Intn` and the time zone database are not modelled.
- `OrderId.Stamp`: covers years 0..9999 only. Go prints other years with more digits or a sign.
- `OrderId.GenerateOrderIdWithTenantId`: uses the nanosecond within the second, modulo 10^6. This equals `UnixNano() % 1000000` only for instants from 1970 up to 2262-04-11, where `UnixNano` fits in int64. Before 1970 Go's remainder is negative and `%06d` prints a '-'. After 2262-04-11 `UnixNano` overflows and its result is undefined, so the fragment can hold a '-' or other digits. The contract's all-digits and fragment clauses hold in Go only inside that range.
- `GenerateOrderIdWithPrefixSonyflake` and `GenerateOrderIdWithPrefixSnowflake`: their generators `NewSonyflakeID` and `NewSnowflakeID` are not part of this model.
- `ToPtr`, `SliceToPtrs` and `BatchPtrs`: `Option` values stand for pointers, so the model does not capture that `SliceToPtrs` shares the input's backing array, that writes through the pointers change it, or that each `ToPtr` call allocates.
- Float and time providers: `Float32Value`, `Float64Value` and their providers use floating point. `TimeValue` and `TimeDefaultValue` read the clock.
- `trans/uuid.go`: a thin wrapper over `github.com/google/uuid`, which is not part of this model.
- `Query.BuildOrderSelect`: the clause holds the field name. The table qualification and quoting that `s.C(field)` adds are part of the ORM, which is not part of this model.
- `Query.QueryCommandToOrderConditions`: the closure captures `orderBys` by value here. In Go it shares the caller's slice, so later writes to it would show.
- `MLog.FormatAcceptedIff`: `strings.ToLower` is modelled on ASCII letters only. For the two accepted words this can differ from Unicode lowering only through the non-ASCII characters that lower to ASCII letters: the Kelvin sign U+212A lowers to 'k' and U+0130 'İ' lowers to 'i'. Neither word contains a 'k' or an 'i'.
- `MLog.Validate`: the error text of the zap level parser is represented by the error's kind and the level text.
- `Options.AddFlags`, the logger, `rid/rid.go`, `entx/query/query.go`, `entx/entx.go`, the ORM mixins and wiring, networking, server bootstrap and context keys: these are wiring around outside libraries.
