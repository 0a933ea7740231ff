/** The catalog item the adapter returns. */
module Products {

  /**
   * An immutable record of six fields, stored exactly as given: no field is
   * trimmed or checked, so a negative price or an empty title is representable.
   * Equality is structural, over all six fields.
   */
  datatype Product = Product(
    id: int,
    title: string,
    price: real,
    description: string,
    category: string,
    image: string)
}
