/**
 * The two write intents the adapter accepts. Each is built by a constructor that
 * trims title and category and then checks, in this order, that the title is not
 * empty, that the price is not negative and that the category is not empty; the
 * first rule that fails decides the exception message.
 */
module Commands {
  import opened Wrappers
  import opened PhpStrings
  import opened Products

  const TitleEmpty := "title must not be empty"
  const PriceNegative := "price must not be negative"
  const CategoryUndefined := "undefined category"

  /** A title or category as a constructed command holds it: trimmed and not empty. */
  predicate IsTrimmedText(s: string) {
    s != "" && Trim(s) == s
  }

  datatype AddProductCommand = AddProductCommand(
    title: string,
    price: real,
    description: string,
    category: string,
    image: string)
  {
    /** What every successfully constructed command satisfies. */
    predicate Valid() {
      IsTrimmedText(title) && price >= 0.0 && IsTrimmedText(category)
    }
  }

  datatype UpdateProductCommand = UpdateProductCommand(
    id: int,
    title: string,
    price: real,
    description: string,
    category: string,
    image: string)
  {
    /** Same invariant as for adding; the id is not constrained. */
    predicate Valid() {
      IsTrimmedText(title) && price >= 0.0 && IsTrimmedText(category)
    }
  }

  /** The three rules, checked in order; None when all of them pass. */
  function FirstViolation(title: string, price: real, category: string): Option<string> {
    if Trim(title) == "" then Some(TitleEmpty)
    else if price < 0.0 then Some(PriceNegative)
    else if Trim(category) == "" then Some(CategoryUndefined)
    else None
  }

  /** Trimming a text that is not blank gives text a command may hold. */
  lemma TrimmedTextOf(s: string)
    requires Trim(s) != ""
    ensures IsTrimmedText(Trim(s))
  {
    TrimIdempotent(s);
  }

  /** new AddProductCommand(title, price, description, category, image) */
  function NewAddProductCommand(title: string, price: real, description: string, category: string, image: string)
    : (r: Result<AddProductCommand>)
    ensures r.Success? <==> !AllTrimChars(title) && price >= 0.0 && !AllTrimChars(category)
    ensures AllTrimChars(title) ==> r == Failure(TitleEmpty)
    ensures !AllTrimChars(title) && price < 0.0 ==> r == Failure(PriceNegative)
    ensures !AllTrimChars(title) && price >= 0.0 && AllTrimChars(category) ==> r == Failure(CategoryUndefined)
    ensures r.Success? ==> r.value.Valid()
    ensures r.Success? ==> r.value.title == Trim(title) && r.value.category == Trim(category)
    ensures r.Success? ==> r.value.price == price && r.value.description == description && r.value.image == image
  {
    match FirstViolation(title, price, category)
    case Some(message) => Failure(message)
    case None =>
      TrimmedTextOf(title);
      TrimmedTextOf(category);
      Success(AddProductCommand(Trim(title), price, description, Trim(category), image))
  }

  /** new UpdateProductCommand(id, title, price, description, category, image) */
  function NewUpdateProductCommand(id: int, title: string, price: real, description: string, category: string, image: string)
    : (r: Result<UpdateProductCommand>)
    ensures r.Success? <==> !AllTrimChars(title) && price >= 0.0 && !AllTrimChars(category)
    ensures AllTrimChars(title) ==> r == Failure(TitleEmpty)
    ensures !AllTrimChars(title) && price < 0.0 ==> r == Failure(PriceNegative)
    ensures !AllTrimChars(title) && price >= 0.0 && AllTrimChars(category) ==> r == Failure(CategoryUndefined)
    ensures r.Success? ==> r.value.Valid() && r.value.id == id
    ensures r.Success? ==> r.value.title == Trim(title) && r.value.category == Trim(category)
    ensures r.Success? ==> r.value.price == price && r.value.description == description && r.value.image == image
  {
    match FirstViolation(title, price, category)
    case Some(message) => Failure(message)
    case None =>
      TrimmedTextOf(title);
      TrimmedTextOf(category);
      Success(UpdateProductCommand(id, Trim(title), price, description, Trim(category), image))
  }

  /** The rules and messages of the two constructors are the same; only the id is added. */
  lemma UpdateValidatesLikeAdd(id: int, title: string, price: real, description: string, category: string, image: string)
    ensures NewUpdateProductCommand(id, title, price, description, category, image).Failure?
        <==> NewAddProductCommand(title, price, description, category, image).Failure?
    ensures NewUpdateProductCommand(id, title, price, description, category, image).Failure? ==>
      NewUpdateProductCommand(id, title, price, description, category, image).error
        == NewAddProductCommand(title, price, description, category, image).error
  {
  }

  /** The three messages are pairwise distinct, so the message names the rule that failed. */
  lemma MessagesDistinct()
    ensures TitleEmpty != PriceNegative && PriceNegative != CategoryUndefined && TitleEmpty != CategoryUndefined
  {
  }

  /**
   * A product whose title and category are already trimmed and non-empty and
   * whose price is not negative becomes an update command holding all six of its
   * fields unchanged.
   */
  lemma ProductRoundTripsThroughUpdate(p: Product)
    requires IsTrimmedText(p.title) && p.price >= 0.0 && IsTrimmedText(p.category)
    ensures NewUpdateProductCommand(p.id, p.title, p.price, p.description, p.category, p.image)
      == Success(UpdateProductCommand(p.id, p.title, p.price, p.description, p.category, p.image))
  {
  }

  /** Building a command from the fields of a valid one gives that command back. */
  lemma ReconstructionIsIdentity(c: AddProductCommand)
    requires c.Valid()
    ensures NewAddProductCommand(c.title, c.price, c.description, c.category, c.image) == Success(c)
  {
  }

  /** The failing cases the constructor's tests exercise. */
  lemma RejectedSamples(id: int, price: real, description: string, category: string, image: string)
    requires price >= 0.0 && !AllTrimChars(category)
    ensures NewUpdateProductCommand(id, "", price, description, category, image) == Failure(TitleEmpty)
    ensures NewUpdateProductCommand(id, "   ", price, description, category, image) == Failure(TitleEmpty)
    ensures NewUpdateProductCommand(id, "Mens Casual Slim Fit", -1.23, description, category, image) == Failure(PriceNegative)
    ensures NewUpdateProductCommand(id, "Mens Casual Slim Fit", price, description, "", image) == Failure(CategoryUndefined)
  {
    var title := "Mens Casual Slim Fit";
    assert !AllTrimChars(title) by { assert !IsTrimChar(title[0]); }
    assert AllTrimChars("   ") by {
      forall i | 0 <= i < |"   "| ensures IsTrimChar("   "[i]) { }
    }
  }
}
