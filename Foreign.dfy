/**
 * The library routines the client calls but whose contents this model does not define:
 * the AES block function (PyCryptodome), `json.loads` and the MD5 digest (`hashlib`).
 * Each is a field of a value the caller passes in, so every proof holds for all of them.
 */
module Foreign {
  import opened Wrappers
  import opened Bytes
  import Json

  datatype Primitives = Primitives(
    /** AES decryption of one block under a key. */
    aesDecryptBlock: (seq<byte>, Block) -> Block,
    /** `json.loads(plaintext)`; `None` when it raises. */
    jsonLoads: seq<byte> -> Option<Json.Value>,
    /** `hashlib.md5(s.encode('utf8')).hexdigest()`. */
    md5HexDigest: string -> string
  )
}
