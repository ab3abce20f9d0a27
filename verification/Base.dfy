/** Vocabulary shared by every module: options, names, 64-bit timestamps and normalised JSON. */
module Base {

  datatype Option<+T> = None | Some(value: T)

  type ServerName = string
  type KeyId = string

  newtype byte = b: int | 0 <= b < 256
  type Bytes = seq<byte>

  const INT64_MIN: int := -0x8000_0000_0000_0000
  const INT64_MAX: int := 0x7FFF_FFFF_FFFF_FFFF

  /** A value decoded into a Go int64. */
  type Timestamp = t: int | INT64_MIN <= t <= INT64_MAX

  /** A JSON value after one trip through an encoder and a decoder. */
  datatype Json =
    | Null
    | Bool(b: bool)
    | Num(n: int)
    | Str(s: string)
    | Arr(items: seq<Json>)
    | Obj(fields: Fields)

  type Fields = map<string, Json>

  function Max(a: int, b: int): int {
    if a < b then b else a
  }

  predicate NoDuplicates<T(==)>(s: seq<T>) {
    forall i, j | 0 <= i < j < |s| :: s[i] != s[j]
  }

  function Elements<T>(s: seq<T>): set<T> {
    set x | x in s
  }
}
