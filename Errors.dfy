/** The exceptions the client lets escape, one constructor per distinct cause. */
module Errors {

  datatype Error =
      /** `ValueError('Error decoding response hex')`: the response body is not hexadecimal. */
    | HexDecodeError
      /** `ValueError('Error decrypting response')`: CBC rejected the length, or the padding is bad. */
    | DecryptError
      /** The `ValueError` `AES.new` raises for a key that is not 16, 24 or 32 bytes long. */
    | KeyLengthError
      /** The error `json.loads` raises for a plaintext that is not a JSON document. */
    | ParseError
      /** `config_dict[field]` failed: a `KeyError`, or a `TypeError` when the config is not an object. */
    | ConfigFieldError(field: string)
      /** `bytes.fromhex(config_dict['key'])` failed: the key is not a string, or not hexadecimal. */
    | ServerKeyError
}
