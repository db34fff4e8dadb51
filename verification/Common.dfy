/** Constants, small datatypes and sequence facts shared by the whole model. */
module Common {
  datatype Option<+T> = None | Some(value: T)
  datatype Result<+T, +E> = Ok(value: T) | Err(error: E)

  type byte = bv8

  /** Payload bytes per data packet, and so the chunk size of a stream buffer. */
  const CHUNK: nat := 1368

  /** Time to live, in milliseconds, of every expiring table in the protocol. */
  const DISCARD_MS: nat := 500

  /** Most chunks a sender emits in one tick, and so the largest batch. */
  const BATCH: nat := 28

  const U16: nat := 0x1_0000
  const U32: nat := 0x1_0000_0000

  function Min(a: int, b: int): int { if a < b then a else b }

  /** Number of chunks that carry at least one byte of a buffer of `len` bytes. */
  function RealChunks(len: nat): nat { (len + CHUNK - 1) / CHUNK }

  /** The bytes of chunk `i` of `src`; empty when the chunk starts at or past the end. */
  function ChunkBytes(src: seq<byte>, i: nat): (r: seq<byte>)
    ensures |r| <= CHUNK
  {
    if i * CHUNK < |src| then src[i * CHUNK..Min((i + 1) * CHUNK, |src|)] else []
  }

  /** `ts` lies more than `ttl` before `now`. */
  predicate Expired(ts: nat, now: nat, ttl: nat) { now > ts + ttl }

  function Elements(r: seq<nat>): set<nat> { set x | x in r }

  lemma ElementsStep(r: seq<nat>, k: nat)
    requires k < |r|
    ensures Elements(r[..k + 1]) == Elements(r[..k]) + {r[k]}
  {
    assert r[..k + 1] == r[..k] + [r[k]];
  }

  ghost predicate Distinct(s: seq<nat>) { forall j, k :: 0 <= j < k < |s| ==> s[j] != s[k] }

  /** A requested stretch of the sender's buffer; `length` is a u16 on the wire. */
  datatype ByteRange = ByteRange(start: nat, length: nat)
}
