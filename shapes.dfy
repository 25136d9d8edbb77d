/**
 * Object types as value-level trees. A property whose type is not an object
 * (a `string`, say) is a `Leaf`; an object type maps each of its keys to the
 * shape of that key's type.
 */
module Shapes {

  datatype Shape = Leaf | Obj(fields: map<string, Shape>)

  /** No key at any depth of `s` contains the character `c`. */
  predicate KeysAvoid(s: Shape, c: char)
  {
    s.Obj? ==> forall k :: k in s.fields ==> c !in k && KeysAvoid(s.fields[k], c)
  }

  /** The `User` interface of both path samples. */
  const Street: Shape := Obj(map["streetName" := Leaf, "streetNumber" := Leaf])
  const Flat: Shape := Obj(map["flatName" := Leaf, "flatNumber" := Leaf])
  const Address: Shape :=
    Obj(map["country" := Leaf, "city" := Leaf, "street" := Street, "flat" := Flat])
  const User: Shape :=
    Obj(map["id" := Leaf, "firstName" := Leaf, "lastName" := Leaf, "address" := Address])
}
