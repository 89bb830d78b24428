/** The two library calls the proxy uses to decide whether bytes form a
    JSON document: `bytes.decode("utf-8")` and `json.loads`. Neither is
    modelled; a `Codec` value supplies their outcome for every byte string,
    so every property below holds whatever UTF-8 and JSON validity are. */
module Codec {
  import opened Common

  /** What `json.loads` does with text that decoded. */
  datatype Loaded =
    | Document(typeName: string)  // parsed; the Python type name of the top-level value
    | Malformed                   // raised `json.JSONDecodeError`
    | Crash(message: string)      // raised something else, `RecursionError` on deep nesting say

  datatype Codec = Codec(
    utf8Ok: Bytes -> bool,          // `b.decode("utf-8")` returns instead of raising
    decodeError: Bytes -> string,   // `str()` of the `UnicodeDecodeError` it raises otherwise
    loads: Bytes -> Loaded,         // `json.loads` of the decoded text
    typeLogged: Bytes -> Option<string>  // the exception printing the parsed body's `type` raises, if any
  )

  /** The bytes decode and the text parses. */
  predicate JsonOk(c: Codec, b: Bytes) {
    c.utf8Ok(b) && c.loads(b).Document?
  }

  /** The bytes decode but do not parse yet: the only outcome after which
      the receive loop keeps reading. */
  predicate Undecided(c: Codec, b: Bytes) {
    c.utf8Ok(b) && c.loads(b).Malformed?
  }

  /** The type name `json.loads` gives a JSON object. */
  const DictType: string := "dict"

  /** The bytes parse to a dictionary whose `type` entry can be printed:
      `do_POST` passes such a body on to the enclave. Printing raises, for
      instance, `UnicodeEncodeError` when the entry holds a lone surrogate
      such as `"\ud800"`. */
  predicate Forwardable(c: Codec, b: Bytes) {
    JsonOk(c, b) && c.loads(b).typeName == DictType && c.typeLogged(b).None?
  }
}
