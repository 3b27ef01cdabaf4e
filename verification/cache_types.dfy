/**
 * Values shared by the whole model of the Redis-backed relevant cache:
 * keys, byte payloads, the dynamically typed arguments the Go API accepts,
 * stored entries, SCAN replies, and the collaborators whose definitions
 * live outside redis.go.
 */
module CacheTypes {

  /** A key in the store's keyspace; one containing '*' is a pattern. */
  type Key = string

  newtype byte = b: int | 0 <= b < 256

  type Bytes = seq<byte>

  datatype Option<T> = None | Some(value: T)

  /** The error kinds the operations can report. */
  datatype Error =
    | InvalidKey          // getKey refused the argument
    | NotEnoughArguments  // Set called with no argument
    | NotAnItem           // Set called with one argument that is not an *Item
    | TooManyArguments    // Set called with more than three arguments (see SetPlan)
    | NotFound            // GET of a key the store does not hold
    | StoreError          // the store answered a command with an error

  datatype Result<T> = Ok(value: T) | Err(error: Error)

  datatype Outcome = Pass | Fail(error: Error)

  /** A cacheable item: a payload that declares the keys it is relevant to. */
  datatype Item = Item(key: Key, payload: Bytes, ttl: int, relevantKeys: seq<Key>)

  /**
   * The Go API takes `interface{}` arguments; these are the shapes the model
   * distinguishes (Nil is the zero value the Go code writes when no case of
   * its argument switch applies).
   */
  datatype Value = Str(s: string) | Int(n: int) | Raw(b: Bytes) | ItemRef(item: Item) | Nil

  /** What decodeMeta yields: the relevance list (None when the value carries none) and the payload. */
  datatype Decoded = Decoded(relevant: Option<seq<Key>>, payload: Bytes)

  /** An entry of the store: the stored blob and its expiry in seconds, if any. */
  datatype Stored = Stored(value: Bytes, expireSeconds: Option<nat>)

  /** One reply to a SCAN round trip: a page of keys and the next cursor, or an error. */
  datatype ScanReply = Page(keys: seq<Key>, cursor: nat) | ScanFailed

  /**
   * Functions redis.go calls whose definitions are not part of this model:
   * getKey (string or *Item to key), Item.encode, decodeMeta followed by the
   * split of the relevance section on keyDelimiter, and the client library's
   * conversion of a raw argument into the bytes it sends.
   */
  datatype Externals = Externals(
    getKey: Value -> Option<Key>,
    encode: Item -> Bytes,
    decodeMeta: Bytes -> Decoded,
    marshal: Value -> Bytes)

  predicate HasAsterisk(k: Key) {
    '*' in k
  }
}
