/** Small datatypes shared by the models. */
module Basics {

  /** A value that may be absent: a null pointer, `std::nullopt`, an SQL NULL. */
  datatype Option<+T> = None | Some(value: T)

  /** The character that ends a C string. */
  const NUL: char := '\0'

  /** A string that survives being passed on as a C string. */
  predicate NulFree(s: string) { NUL !in s }

  lemma Associative(a: string, b: string, c: string)
    ensures a + b + c == a + (b + c)
  {
  }
}
