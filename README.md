# arrow2 core in Dafny

This project models five pieces of the Rust crate arrow2 and proves their properties in Dafny:

- the builders the Avro reader fills for nested and dictionary-encoded columns;
- the framing of one encapsulated IPC message;
- the resolution of a dictionary-encoded column while decoding IPC;
- subtraction of decimal arrays under four overflow policies;
- division of decimal arrays under the same four policies.

Files:

- `common.dfy` (`Common`) holds what the parts share:
  - integer ranges and the `i32` and `byte` types;
  - `Option` and `Result`;
  - the `ArrowError` variants the core raises;
  - the logical `DataType`s the core mentions.
- `avro_nested.dfy` (`AvroNested`) has two classes:
  - `DynMutableListArray<O>` owns an offsets buffer, a child builder and a lazily created validity bitmap. Its ghost field `slots` records the pushes (valid or null). The invariant `Valid()` ties offsets and bitmap to `slots`.
  - `FixedItemsUtf8Dictionary` holds optional `i32` keys against a dictionary that never changes.
- `ipc_write.dfy` (`IpcWrite`) models the asynchronous writer as a `Writer` object whose `bytes` each `write_all` extends.
  - `write_continuation`, `write_body_buffers` and `write_message` are methods on that writer.
  - The layout of a message is proved about the pure function `Frame` and the predicate `IsEncapsulated`. This is the "Encapsulated message format" of the Apache Arrow Columnar Format.
- `ipc_dictionary.dfy` (`IpcDictionary`) makes the field-node and buffer-descriptor queues (`VecDeque`s) fields of a `Queues` object.
  - `read_primitive` and `skip_primitive` pop from it.
  - `read_dictionary` first resolves `dict_id as usize` in the map of dictionaries read so far.
- `decimal.dfy` (`Decimal`) holds the helpers of the decimal kernels:
  - powers of ten, `max_value` and `number_digits`;
  - `adjusted_precision_scale` and `get_parameters`;
  - Rust's truncating `i128::checked_div`;
  - the drivers `binary` and `binary_checked` with `combine_validities`;
  - the specification of the precision growth of the adaptive kernels.
- `decimal_sub.dfy` (`DecimalSub`) and `decimal_div.dfy` (`DecimalDiv`) model the kernels:
  - The per-element closures are functions, and the array kernels are functions over them.
  - `adaptive_sub` and `adaptive_div` are methods. Their loops update `res_p` and `max` as the source's iterator does.
  - Those loops are proved against the specification `res_p == Max(p0, MaxDigits(values))`.
  - `GrownPrecisionIsLeast` proves that this is the least precision, at least the initial one, that bounds every result.

How panics, I/O and the outside helpers are modelled:

- A kernel that can panic on data returns `Eval<...>`, whose `Panicked(reason)` is the panic. `Eval<Result<...>>` therefore separates a panic, an `Err` and an `Ok`.
- Panics that only a caller breaking a precondition can cause are `requires` clauses. Examples are `assert_eq!(values.len(), 0)` in `new_from`, `get_child_field`, `unwrap` on a queue and `unwrap` of the dictionary id.
- I/O is not modelled: the writer cannot fail, and the bytes that `read_primitive` decodes are a `Decoder` function parameter.
- Some helpers live outside the modelled files: `get_parameters`, `max_value`, `number_digits`, `adjusted_precision_scale`, `binary`, `binary_checked`, `combine_validities`, `pad_to_8`, `CONTINUATION_MARKER`, `read_primitive` and `skip_primitive`. They are written from the behaviour the modelled code relies on. Their source files are not part of this model.

Notes on the code:

- A child length above the offset type's maximum is `ArrowError::KeyOverflowError` (`src/io/avro/read/nested.rs:46`).
- The comment above `saturating_div` says it panics on a zero divisor. The code returns `0` (`src/compute/arithmetics/decimal/div.rs:115`). The model follows the code: see `DecimalDiv.SaturatingDivOp` and `DecimalDiv.ZeroDivisor`.

## Model

| member | source | states |
|---|---|---|
| AvroNested.DynMutableListArray.NewFrom | src/io/avro/read/nested.rs:19-30 | the child must be empty and the type a list type of the offsets' width; afterwards offsets are `[0]`, validity is absent, no slot is pushed, and the invariant holds |
| AvroNested.DynMutableListArray.PushChildValue | src/io/avro/read/nested.rs:39-41 | a value pushed into the child through `mut_values()` (the child builder's `AvroNested.MutableValues.Push`) grows the child by exactly that value and keeps the invariant, since the offsets stay where they are |
| AvroNested.DynMutableListArray.TryPushValid | src/io/avro/read/nested.rs:44-54 | when the child's length exceeds the width's maximum: `KeyOverflowError` and nothing changes; otherwise that length is appended as an offset, a present bitmap gets `true`, an absent one stays absent, and the invariant (ordered offsets, null slots empty, bitmap equal to the lazy bitmap of the pushes) is kept |
| AvroNested.DynMutableListArray.PushNull | src/io/avro/read/nested.rs:57-63 | appends a copy of the last offset (an empty run); a present bitmap gets `false`; an absent one becomes `true` for every earlier slot followed by `false`; the invariant is kept |
| AvroNested.DynMutableListArray.LastOffset | src/io/avro/read/nested.rs:66-68 | the last offset is the largest offset and is at most the child's length |
| AvroNested.DynMutableListArray.InitValidity | src/io/avro/read/nested.rs:70-77 | the bitmap becomes `len - 1` times `true` followed by `false`, with the offsets untouched |
| AvroNested.DynMutableListArray.Len | src/io/avro/read/nested.rs:81-83 | the number of pushes, one less than the number of offsets |
| AvroNested.DynMutableListArray.Validity | src/io/avro/read/nested.rs:85-87 | absent exactly when every push was valid; otherwise one bit per push, equal to the pushes |
| AvroNested.DynMutableListArray.AsBox | src/io/avro/read/nested.rs:89-96 | the frozen list array carries the data type, offsets, child values (taken by `AvroNested.MutableValues.AsArc`) and bitmap; it is well formed, has one slot per push, and slot `k` is non-null exactly when push `k` was valid; the builder is left without offsets or bitmap |
| AvroNested.LazyValidityStep | src/io/avro/read/nested.rs:50-52 | the lazy bitmap after one more push: a valid push extends a present bitmap by `true` and leaves an absent one absent; a null push extends by `false` or backfills `true` before the `false` |
| AvroNested.LazyValidityReadsBack | src/io/avro/read/nested.rs:59-62 | reading the lazy bitmap back gives every pushed validity |
| AvroNested.AdjacentOrderedIsSorted | src/io/avro/read/nested.rs:47 | offsets whose neighbours are ordered are ordered throughout |
| AvroNested.ListScenario | src/io/avro/read/nested.rs:44-77 | pushes valid, valid, null, valid around child values 1, 2, 3 give offsets `[0, 1, 2, 2, 3]` and validity `[true, true, false, true]` |
| AvroNested.ListScenarioReadsBack | src/io/avro/read/nested.rs:89-95 | the scenario's frozen array reads `[[1], [2], null, [3]]` |
| AvroNested.FixedItemsUtf8Dictionary.WithCapacity | src/io/avro/read/nested.rs:137-146 | the data type is `Dictionary(Int32, values' type)`, the dictionary is the one given, and there are no keys |
| AvroNested.FixedItemsUtf8Dictionary.PushValid | src/io/avro/read/nested.rs:148-150 | appends `Some(key)` |
| AvroNested.FixedItemsUtf8Dictionary.PushNull | src/io/avro/read/nested.rs:153-155 | appends `None` |
| AvroNested.FixedItemsUtf8Dictionary.Len | src/io/avro/read/nested.rs:159-161 | the number of keys pushed, which a present validity matches in length |
| AvroNested.FixedItemsUtf8Dictionary.Validity | src/io/avro/read/nested.rs:163-165 | present exactly when a null key was pushed, and then one bit per key telling whether it is present |
| AvroNested.FixedItemsUtf8Dictionary.AsBox | src/io/avro/read/nested.rs:167-172 | the frozen array pairs the pushed keys with the unchanged dictionary; its type is the builder's; the builder's keys are taken |
| AvroNested.DictionaryScenario | src/io/avro/read/nested.rs:148-172 | keys `1, null, 0` against `["a", "b"]` read back `"b", null, "a"` with validity `[true, false, true]` |
| IpcWrite.ClearLowBits3 | src/io/ipc/write/common_async.rs:24 | `x & !7` is the multiple of 8 at most `x` and within 8 of it |
| IpcWrite.AlignedSizeIsLeast | src/io/ipc/write/common_async.rs:20-25 | `aligned_size` (`IpcWrite.AlignedSize`) is the least multiple of 8 holding the metadata and the 8-byte prefix, so the padding is below 8 |
| IpcWrite.PadTo8 | src/io/ipc/write/common_async.rs:63 | below 8, brings the length to a multiple of 8, and is 0 for an aligned length |
| IpcWrite.WrapI32 | src/io/ipc/write/common_async.rs:27 | the `as i32` cast keeps lengths up to `i32::MAX` and is congruent to its input modulo 2^32 |
| IpcWrite.LeBytesRoundTrip | src/io/ipc/write/common_async.rs:53 | the four little-endian bytes of an `i32` (`IpcWrite.ToLeBytes`, `to_le_bytes`) read back as that `i32` |
| IpcWrite.WriteContinuation | src/io/ipc/write/common_async.rs:48-56 | appends the marker and the little-endian length through the sink's `IpcWrite.Writer.WriteAll`, flushes (`IpcWrite.Writer.Flush`), and returns 8 |
| IpcWrite.WriteBodyBuffers | src/io/ipc/write/common_async.rs:58-74 | appends the data and its zero padding, flushes, and returns the byte count, a multiple of 8 |
| IpcWrite.WriteMessage | src/io/ipc/write/common_async.rs:11-44 | a body whose length is not a multiple of 8 gives `Ipc("Arrow data not aligned")` and writes nothing; otherwise it appends the frame and returns `(aligned_size, body length)` |
| IpcWrite.FrameLayout | src/io/ipc/write/common_async.rs:20-43 | the frame is marker, length field reading `aligned_size - 8`, metadata, zeros up to `aligned_size`, then the body; its length is a multiple of 8 |
| IpcWrite.WrittenMessageIsEncapsulated | src/io/ipc/write/common_async.rs:37-43 | what a successful write adds is an encapsulated message of `aligned_size + body_len` bytes, both multiples of 8; an empty body adds nothing after the header |
| IpcWrite.WriteMessageExample | src/io/ipc/write/common_async.rs:20-43 | metadata `"AB"` and an 8-byte body give 24 bytes with length field 8 and return `(16, 8)` |
| IpcDictionary.ReadPrimitive | src/io/ipc/read/array/dictionary.rs:41-49 | pops one field node and two buffer descriptors (`IpcDictionary.Queues.PopNode`, `IpcDictionary.Queues.PopBuffer`, i.e. `pop_front().unwrap()`) and returns what the decoder makes of them |
| IpcDictionary.SkipPrimitive | src/io/ipc/read/array/dictionary.rs:58 | pops one field node and two buffer descriptors |
| IpcDictionary.AsUsize | src/io/ipc/read/array/dictionary.rs:29 | `dict_id as usize` keeps a non-negative id and wraps a negative one |
| IpcDictionary.Resolve | src/io/ipc/read/array/dictionary.rs:30-39 | the registered array when the id is known; otherwise an error carrying the id and all valid ids (which do not contain it) |
| IpcDictionary.ResolveAfterRegister | src/io/ipc/read/array/dictionary.rs:30-39 | an id resolves to the array just registered under it, and other ids resolve as before |
| IpcDictionary.ReadDictionary | src/io/ipc/read/array/dictionary.rs:16-52 | an unknown id fails with the id and the valid ids and leaves both queues untouched; a known id consumes one node and two buffers, propagates a key read error, and otherwise pairs the keys with exactly the registered values |
| IpcDictionary.SkipDictionary | src/io/ipc/read/array/dictionary.rs:54-59 | consumes exactly what `skip_primitive` consumes |
| IpcDictionary.ReadSkipParity | src/io/ipc/read/array/dictionary.rs:16-59 | reading and skipping a dictionary column leave the queues in the same state |
| IpcDictionary.UnknownIdExample | src/io/ipc/read/array/dictionary.rs:30-38 | id 3 against ids 0 and 1 fails listing `{0, 1}` and leaves the column queued |
| Decimal.MaxValueIsPow10 | src/compute/arithmetics/decimal/sub.rs:40 | `max_value(p)` (`Decimal.MaxValue`, `p` nines built digit by digit) is `10^p - 1` |
| Decimal.FitsIffDigits | src/compute/arithmetics/decimal/sub.rs:221-224 | a magnitude is at most `max_value(p)` exactly when it has at most `p` digits |
| Decimal.NumberDigitsIsLeastPrecision | src/compute/arithmetics/decimal/sub.rs:221-224 | `number_digits(x)` (`Decimal.NumberDigits`) is the least precision whose `max_value` bounds `abs(x)` |
| Decimal.AdjustedPrecisionScale | src/compute/arithmetics/decimal/sub.rs:199 | the result scale is the larger scale, `diff` is the scale difference, and the integer digits hold both operands' |
| Decimal.GetParameters | src/compute/arithmetics/decimal/sub.rs:38 | equal decimal types give their precision and scale; different decimal types give `InvalidArgumentError`; a non-decimal type panics |
| Decimal.TruncDiv | src/compute/arithmetics/decimal/div.rs:57 | the quotient rounded toward zero: remainder smaller than the divisor, with the dividend's sign |
| Decimal.TruncQuotientUnique | src/compute/arithmetics/decimal/div.rs:57 | the truncated quotient is unique |
| Decimal.TruncQuotientScale | src/compute/arithmetics/decimal/div.rs:227-232 | scaling dividend and divisor by one positive factor keeps the truncated quotient |
| Decimal.I128CheckedDiv | src/compute/arithmetics/decimal/div.rs:57 | `None` exactly for a zero divisor or `i128::MIN / -1`; otherwise the truncated quotient |
| Decimal.Saturate | src/compute/arithmetics/decimal/sub.rs:88-97 | within `[-max, max]`; the result itself when it fits; otherwise the bound on its side |
| Decimal.SaturateIsNearest | src/compute/arithmetics/decimal/sub.rs:88-97 | the saturated value is the representable value nearest to the result |
| Decimal.CombineValidities | src/compute/arithmetics/decimal/sub.rs:230 | through the bitmap `&` (`Decimal.And`), a slot is valid exactly when valid in both inputs; absent only when both are absent |
| Decimal.Binary | src/compute/arithmetics/decimal/sub.rs:54 | with the element-wise driver `Decimal.MapValues`, different lengths give the length error; a panic exactly when some element panics; otherwise each value is the closure's and a slot is null exactly when null in either input |
| Decimal.BinaryChecked | src/compute/arithmetics/decimal/sub.rs:160 | different lengths give the length error; a slot is null exactly when null in either input or the closure gives `None`, and holds `0` then |
| Decimal.GrownPrecisionIsLeast | src/compute/arithmetics/decimal/sub.rs:199-233 | the final precision `Max(p0, Decimal.MaxDigits(values))` bounds every value and is the least precision, at least the initial one, that does |
| Decimal.GrowStep | src/compute/arithmetics/decimal/sub.rs:221-224 | one `if res.abs() > max { res_p = number_digits(res) }` step keeps `res_p` equal to the grown precision of the values so far |
| DecimalSub.SubOp | src/compute/arithmetics/decimal/sub.rs:42-52 | the difference when its magnitude is at most `max`, else a subtraction overflow panic |
| DecimalSub.SaturatingSubOp | src/compute/arithmetics/decimal/sub.rs:85-98 | within `[-max, max]` and equal to the difference when it fits |
| DecimalSub.CheckedSubOp | src/compute/arithmetics/decimal/sub.rs:151-158 | `None` exactly when the difference exceeds `max`, else the difference |
| DecimalSub.SubPoliciesAgree | src/compute/arithmetics/decimal/sub.rs:42-158 | the policies agree where the difference fits; where it does not, `sub` panics, `checked_sub` is null and `saturating_sub` is the bound on the side of the difference |
| DecimalSub.Sub | src/compute/arithmetics/decimal/sub.rs:37-55 | a non-decimal type panics, different types are an error, and different lengths are the length error; otherwise a panic exactly when some difference exceeds `max`, else element-wise differences with combined nulls |
| DecimalSub.SaturatingSub | src/compute/arithmetics/decimal/sub.rs:57-101 | panics for a non-decimal type; differing decimal types give `InvalidArgumentError`, and so do differing lengths; otherwise every value is the saturated difference, with combined nulls |
| DecimalSub.CheckedSub | src/compute/arithmetics/decimal/sub.rs:123-161 | panics for a non-decimal type; differing decimal types give `InvalidArgumentError`, and so do differing lengths; otherwise a slot is null exactly when an input is null or the difference exceeds `max`, and other slots hold the difference |
| DecimalSub.AdaptiveSub | src/compute/arithmetics/decimal/sub.rs:188-242 | the length error first, then the type error; otherwise each value is the difference of the operands rescaled to the larger scale, the precision is the grown precision and bounds every value, and nulls combine |
| DecimalSub.RescaledDifferences | src/compute/arithmetics/decimal/sub.rs:199-227 | the loop yields every rescaled difference and ends with `res_p` equal to the grown precision |
| DecimalSub.ShiftIsRescale | src/compute/arithmetics/decimal/sub.rs:207-211 | shifting the operand with the smaller scale is rescaling both to the larger scale |
| DecimalSub.SubExample | src/compute/arithmetics/decimal/sub.rs:28-35 | `[1, 1, null, 2] - [1, 2, null, 2]` is `[0, -1, null, 0]` |
| DecimalSub.SaturatingSubExample | src/compute/arithmetics/decimal/sub.rs:69-75 | `[-990.00, 111.00, null, 222.00] - [10.00, 222.00, null, 111.00]` is `[-999.99, -111.00, null, 111.00]` |
| DecimalSub.CheckedSubExample | src/compute/arithmetics/decimal/sub.rs:135-141 | the same inputs under `checked_sub` give `[null, -111.00, null, 111.00]` |
| DecimalSub.AdaptiveSubExample | src/compute/arithmetics/decimal/sub.rs:181-186 | `99.9999 - (-0.0001)` is `100.0000` at `Decimal(7, 4)` |
| DecimalDiv.DivOp | src/compute/arithmetics/decimal/div.rs:44-66 | a division-by-zero panic exactly for a zero divisor; otherwise the truncated quotient of the scaled dividend when it fits, else a multiplication overflow panic |
| DecimalDiv.SaturatingDivOp | src/compute/arithmetics/decimal/div.rs:101-117 | within `[-max, max]`; `0` for a zero divisor; otherwise the saturated truncated quotient |
| DecimalDiv.CheckedDivOp | src/compute/arithmetics/decimal/div.rs:150-160 | `None` exactly for a zero divisor or an oversized quotient; otherwise the truncated quotient |
| DecimalDiv.DivPoliciesAgree | src/compute/arithmetics/decimal/div.rs:44-160 | the policies agree where `checked_div` yields a quotient; otherwise `div` panics and a non-zero divisor saturates to a bound |
| DecimalDiv.ZeroDivisor | src/compute/arithmetics/decimal/div.rs:57-158 | a zero divisor makes `div` panic, `checked_div` null and `saturating_div` `0` |
| DecimalDiv.Div | src/compute/arithmetics/decimal/div.rs:39-69 | a type panic, the type error and the length error as `sub`; otherwise a panic exactly when some divisor is zero or some quotient exceeds `max`, else truncated quotients with combined nulls |
| DecimalDiv.SaturatingDiv | src/compute/arithmetics/decimal/div.rs:71-120 | panics for a non-decimal type; differing decimal types give `InvalidArgumentError`, and so do differing lengths; otherwise every value is the saturating quotient, with combined nulls |
| DecimalDiv.CheckedDiv | src/compute/arithmetics/decimal/div.rs:122-163 | panics for a non-decimal type; differing decimal types give `InvalidArgumentError`, and so do differing lengths; otherwise a slot is null exactly when an input is null, the divisor is zero or the quotient exceeds `max`, and other slots hold the truncated quotient |
| DecimalDiv.AdaptiveDiv | src/compute/arithmetics/decimal/div.rs:205-263 | the length error, then the type error; a division-by-zero panic exactly when some divisor value is zero; otherwise each value is the quotient of the two decimals at the larger scale, the precision is the grown precision, and nulls combine |
| DecimalDiv.RescaledQuotients | src/compute/arithmetics/decimal/div.rs:216-248 | the loop panics exactly when a divisor is zero; otherwise it yields every scaled quotient and `res_p` equal to the grown precision |
| DecimalDiv.ShiftedDiv | src/compute/arithmetics/decimal/div.rs:223-232 | `None` exactly for a zero divisor; otherwise the quotient of the two decimals at the larger scale |
| DecimalDiv.ShiftedQuotientIsScaled | src/compute/arithmetics/decimal/div.rs:223-232 | shifting the divisor or the dividend, as the source does, gives the quotient at the larger scale |
| DecimalDiv.DivExample | src/compute/arithmetics/decimal/div.rs:31-37 | `[1.00, 4.00, 6.00] / [1.00, 2.00, 2.00]` is `[1.00, 2.00, 3.00]` |
| DecimalDiv.SaturatingDivExample | src/compute/arithmetics/decimal/div.rs:84-90 | `[999.99, 4.00, 6.00] / [0.01, 2.00, 2.00]` is `[999.99, 2.00, 3.00]` |
| DecimalDiv.CheckedDivExample | src/compute/arithmetics/decimal/div.rs:133-139 | `[1.00, 4.00, 6.00] / [0.00, null, 2.00]` is `[null, null, 3.00]` |
| DecimalDiv.DivPanicsOnNullDivisor | src/compute/arithmetics/decimal/div.rs:21-22 | `div` panics on a null divisor slot, whose stored value is 0 |
| DecimalDiv.AdaptiveDivExample | src/compute/arithmetics/decimal/div.rs:186-203 | `1000.00 / 10.0000` is `100.0000` at `Decimal(9, 4)` |

## Left out

- I/O errors are not modelled. The writer and the reader cannot fail, so every `?` on `write_all` and `flush` succeeds. The suspension of the `await`s happens in the asynchronous runtime, which is outside this model.
- The Arrow body compression is not modelled: decompression is folded into the `Decoder` parameter of `read_primitive`. `src/io/ipc/compression.rs` is not part of this model.
- `Arc`/`Box` sharing is modelled by value, so the model does not capture reference identity.
- `as_arc` has the same effect as `as_box`, so it is not modelled separately.
- `as_any`, `as_mut_any` and `data_type` are not modelled: they are accessors.
- `shrink_to_fit` is not modelled: it is `todo!()`.
- `new_with_capacity` is not modelled: it only derives the default list type of the child's type.
- `mut_values` is modelled only as it is used: one push into the child (`PushChildValue`).
- The child builder of the list builder is reduced to a builder of optional integers. Its own `as_arc` takes its values, as arrow2's mutable arrays do.
- The keys of `FixedItemsUtf8Dictionary` are a sequence of optional `i32`. The lazy validity of `MutablePrimitiveArray` is computed from that sequence by `Validity`.
- `DynMutableListArray.TryPushValid`: the source's `assert!(size >= last_offset)` is proved unreachable from the invariant rather than modelled as a panic.
- `DecimalSub.Sub`, `DecimalSub.SaturatingSub`, `DecimalSub.CheckedSub`: require that no difference overflows `i128` (`SubFits`). The source's debug build would panic and its release build would wrap. A precision of 39 or more is not modelled either: `max_value(precision)` overflows `i128` there before any element is read, even for empty arrays, while the model uses `10^precision - 1`.
- `DecimalDiv.Div`, `DecimalDiv.SaturatingDiv`, `DecimalDiv.CheckedDiv`: require that no dividend times `10^scale` overflows `i128` (`DivFits`). This also excludes `i128::MIN / -1`, the one case where `checked_div` yields `None` for a non-zero divisor. A precision of 39 or more is not modelled either: `max_value(precision)` overflows `i128` there before any element is read, even for empty arrays, while the model uses `10^precision - 1`.
- `DecimalSub.AdaptiveSub`, `DecimalDiv.AdaptiveDiv`: require that the rescaled operands and their difference, or the shifted dividend and divisor, stay within `i128`, and that both decimal types have scale at most precision at most 38. `max_value(39)` and beyond would overflow `i128`. This is not modelled.
- `IpcWrite.ClearLowBits3`: `(x + 7) & !7` is modelled arithmetically, as `x` minus `x % 8`, not on 64-bit words. A `usize` overflow of `flatbuf_size + 15` is not modelled.
- `IpcDictionary.ReadDictionary`: requires the field to carry a dictionary id (the source unwraps it), and requires a known id's queues to hold a primitive column (the source unwraps the pops).
- `IpcDictionary.ReadPrimitive`, `IpcDictionary.ReadSkipParity`: `read_primitive` is taken to pop the column's node and both buffer descriptors before it decodes, so a failing decode is assumed to consume the whole column. Its source file is not part of this model.
- The exact text of the `Ipc` error for an unknown dictionary id is not modelled. The error keeps the id and the set of valid ids as data, because the debug listing of a `HashSet` has no fixed order.
