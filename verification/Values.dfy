/** Attribute values and items (include/cynamodb/core/types.hpp). */
module Values {
  import opened Bytes

  datatype Value =
    | S(s: ByteString)
    | N(n: ByteString)
    | B(b: ByteString)
    | BOOL(flag: bool)
    | NUL
    | M(fields: map<ByteString, Value>)
    | L(elems: seq<Value>)
    | SS(strings: seq<ByteString>)
    | NS(numbers: seq<ByteString>)
    | BS(blobs: seq<ByteString>)

  type Item = map<ByteString, Value>

  /** The named attributes the item has. */
  function Only(item: Item, names: seq<ByteString>): (r: Item) {
    map k | k in item && k in names :: item[k]
  }
}
