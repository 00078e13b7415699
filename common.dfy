/**
 * The plain records shared by every crate of the review mesh
 * (common/src/lib.rs), and the fixed-width integer types they use.
 *
 * Rust derives structural equality and `Clone` for every record; Dafny
 * datatypes are values with structural equality, so both come for free.
 */
module Common {

  /** 2^64: one past the largest `usize`/`u64` on a 64-bit target. */
  const U64_LIMIT: int := 0x1_0000_0000_0000_0000

  /** `usize` on a 64-bit target. */
  type usize = x: int | 0 <= x < 0x1_0000_0000_0000_0000

  /** `u64`, used for the output of the 64-bit hasher. */
  type u64 = x: int | 0 <= x < 0x1_0000_0000_0000_0000

  /** `u32`, the width git reports hunk positions in. */
  type u32 = x: int | 0 <= x < 0x1_0000_0000

  /** One byte of a `Vec<u8>` / `&[u8]`. */
  type byte = x: int | 0 <= x < 256

  datatype Option<T> = None | Some(value: T)

  /**
   * A `DateTime<Utc>`. The model never looks inside a timestamp; it only
   * stores, compares and passes it on.
   */
  datatype Timestamp = Timestamp(unixNanos: int)

  datatype ReviewSession = ReviewSession(
    id: string,
    title: string,
    createdAt: Timestamp,
    participants: seq<string>)

  datatype Comment = Comment(
    id: string,
    sessionId: string,
    author: string,
    file: string,
    hunkId: string,
    line: usize,
    body: string,
    createdAt: Timestamp,
    resolved: bool)

  datatype ChatLine = ChatLine(
    id: string,
    sessionId: string,
    author: string,
    body: string,
    createdAt: Timestamp)

  datatype DiffHunk = DiffHunk(
    id: string,
    file: string,
    oldStart: usize,
    oldLines: usize,
    newStart: usize,
    newLines: usize,
    content: string)
}
