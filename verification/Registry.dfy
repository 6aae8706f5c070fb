/** What the schema registry serves (internal/registry), with the network and the hash left as functions. */
module Registry {
  newtype byte = x: int | 0 <= x < 256

  type Bytes = seq<byte>

  /** The outcome of a request: an answer, a 404, or any other failure. */
  datatype Fetched<+T> = Got(value: T) | NotFound | Failed(message: string)

  /** Per kind, the integrity the manifest states. */
  type Manifest = map<string, string>

  /** A schema with its version and the integrity the manifest states for it. */
  datatype Resolved = Resolved(version: string, integrity: string, schema: Bytes)

  /** VerifyIntegrity, for a given hash. */
  predicate Verified(hash: Bytes -> string, body: Bytes, integrity: string) {
    hash(body) == integrity
  }
}
