/**
 * The JSON documents the cache stores next to its outputs. A document is a
 * JSON object: string keys mapped to strings, nested objects, or other
 * scalars (numbers, booleans, null) kept as the text Python's `str` gives
 * them. The JSON text format itself is abstracted into a codec.
 */
module Documents {
  import opened Wrappers
  import opened FileSystem

  datatype Value = Text(s: string) | Table(entries: map<string, Value>) | Scalar(shown: string)

  /** A JSON object at the top level of a metadata file. */
  type Metadata = map<string, Value>

  /**
   * json.dump and json.load. `encode` writes any document: every value of
   * this model is one json.dump accepts. `decode` fails (JSONDecodeError,
   * UnicodeDecodeError on bytes that are not UTF-8, or a top-level value
   * that is not an object) or yields one.
   */
  datatype Codec = Codec(encode: Metadata -> Bytes, decode: Bytes -> Option<Metadata>)

  /** What the json module guarantees: a dumped document loads back unchanged. */
  ghost predicate Lossless(c: Codec) {
    forall m :: c.decode(c.encode(m)) == Some(m)
  }

  /**
   * The text an f-string gives a value. Objects are not given a text in
   * this model.
   */
  function Render(v: Value): (r: Option<string>)
    ensures r.Some? <==> !v.Table?
    ensures v.Text? ==> r == Some(v.s)
  {
    match v
    case Text(s) => Some(s)
    case Scalar(shown) => Some(shown)
    case Table(_) => None
  }
}
