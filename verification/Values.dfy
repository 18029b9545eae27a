/** Values that several of the modelled files share. Texts and lengths are wrapped, so that a key is never
    taken for a name, nor a length for a quantity. */
module Values {

  /** A key of a JSON object. */
  datatype Key = Key(text: string)

  /** A JSON value that is moved without being looked into. */
  datatype Json = Json(text: string)

  /** A length in millimetres, as an exact number. */
  datatype Mm = Mm(value: real)

  datatype Name = Name(text: string)
}
