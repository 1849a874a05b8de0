/** Types shared by every part of the model: fixed-width integer ranges,
    bytes, the optional-value wrapper, the crate's error type and the
    logical data types the core mentions. */
module Common {

  /** An unsigned 8-bit value, as written to an IPC stream. */
  type byte = b: int | 0 <= b < 256

  const I32_MIN: int := -0x8000_0000
  const I32_MAX: int := 0x7fff_ffff
  const I64_MAX: int := 0x7fff_ffff_ffff_ffff
  const I128_MAX: int := 0x7fff_ffff_ffff_ffff_ffff_ffff_ffff_ffff
  /** One more than the largest `usize` on a 64-bit target. */
  const USIZE_MODULUS: int := 0x1_0000_0000_0000_0000

  /** A Rust `i32`. */
  type i32 = x: int | I32_MIN <= x <= I32_MAX

  /** `x` is an `i128` whose absolute value is again an `i128` (that is,
      `x != i128::MIN`), so that `x.abs()` cannot overflow. Intermediate
      results of the decimal kernels are required to satisfy this. */
  predicate Fits(x: int) { -I128_MAX <= x <= I128_MAX }

  function Abs(x: int): (r: nat)
    ensures r == x || r == -x
  {
    if x < 0 then -x else x
  }

  datatype Option<T> = None | Some(value: T)

  /** The variants of `ArrowError` that the modelled core produces. */
  datatype ArrowError =
    | KeyOverflowError
    | InvalidArgumentError(message: string)
    | Ipc(message: string)
      /** `ArrowError::Ipc("Dictionary id {id} not found. Valid ids: {ids:?}")`:
          the set is kept as a set because a `HashSet`'s debug listing has no
          fixed order. */
    | IpcDictionaryNotFound(id: nat, validIds: set<nat>)

  datatype Result<T> = Ok(value: T) | Err(error: ArrowError)

  datatype IntegerType = Int8 | Int16 | Int32 | Int64 | UInt8 | UInt16 | UInt32 | UInt64

  /** The logical types that the core builds, checks or reports. */
  datatype DataType =
    | Primitive(key: IntegerType)
    | Utf8
    | LargeUtf8
    | List(child: DataType)
    | LargeList(child: DataType)
    | Dictionary(keyType: IntegerType, values: DataType)
    | Decimal(precision: nat, scale: nat)
    | Other(name: string)
}
