/** The untyped PHP values that the operations which inspect types see:
    flattening checks for iterables, summing checks for numbers. */
module Values {

  /** An integer, a string, or an iterable (array or Traversable) of values.
      Floats, booleans, `null` and objects are not part of this model. */
  datatype Value = Integer(n: int) | Text(s: string) | Items(elements: seq<Value>)

  /** `gettype` of a value. */
  function TypeName(v: Value): string
  {
    match v
    case Integer(_) => "integer"
    case Text(_) => "string"
    case Items(_) => "array"
  }
}
