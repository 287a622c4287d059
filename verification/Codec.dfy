/** protobuf messages as seen through proto.Marshal and proto.Unmarshal: any pair
    of functions that round-trips and writes nothing exactly for the zero message. */
module Codec {
  import opened Wrappers

  datatype Codec<!T> = Codec(enc: T -> Bytes, dec: Bytes -> Option<T>, zero: T)

  ghost predicate Lawful<T(!new)>(c: Codec<T>) {
    && (forall x: T :: c.dec(c.enc(x)) == Some(x))
    && (forall x: T :: c.enc(x) == [] <==> x == c.zero)
  }
}
