# FakeStore adapter — a Dafny model

This project models the FakeStore adapter of a small PHP service. The adapter wraps a
third-party product catalog whose HTTP conventions are unusual: it always answers 200,
it signals a missing product with an empty body on `GET` and with the literal body `null`
on `DELETE`, and on writes it returns only the id it assigned. The adapter turns every
answer into one of three outcomes: a value, "resource not found", or an upstream error
(a `RuntimeException` with a fixed message format that embeds the status or the two ids). Before any call, two command constructors
trim and validate the data of a write.

Modules, one per source file or concern:

- `Wrappers` (`wrappers.dfy`): `Option`, and `Result` for a constructor that either
  returns a value or throws with a message.
- `PhpStrings` (`php_strings.dfy`): the PHP built-ins the core relies on. `Trim` is
  `trim()` with its default character list (space, `\t`, `\n`, `\r`, NUL, vertical tab).
  `IsEmpty` is `empty()` on a string, which holds for `""` and `"0"`. `FormatInt` is
  `sprintf`'s `%d`.
- `Products` (`product.dfy`): the immutable six-field `Product` record. It is a datatype,
  so its fields cannot change, and equality is structural. It stores what it is given and
  validates nothing.
- `Commands` (`commands.dfy`): `AddProductCommand` and `UpdateProductCommand`, built by
  `NewAddProductCommand` and `NewUpdateProductCommand`. These trim title and category, then
  check title, price and category, in that order.
- `FakeStore` (`fakestore_api.dfy`): the requests the five operations send, the `Outcome`
  type, the error messages, and the `Api` datatype with its five operations.

The HTTP client is the field `upstream: Request -> Response` of `Api`. A `Request` holds the
verb, the path relative to the client's base URL, and the JSON body. A `Response` holds the
status and the raw body. Each operation computes its one request, applies `upstream` to it
once, and interprets the status and body. The decoding the PHP code delegates to
the Symfony serializer (`Product[]`, `Product`) and to `toArray()['id']` is the field
`decoding`: three uninterpreted functions of the body.

## Model

| member | source | states |
|---|---|---|
| `PhpStrings.Trim` | src/FakeStore/AddProductCommand.php:23 | trim() gives a string with no strippable character at either end. The result is empty exactly when every character of the input is strippable, so whitespace-only titles trim to empty. |
| `PhpStrings.TrimIsBareMiddle` | src/FakeStore/AddProductCommand.php:23 | An independent definition of trim(): for any split of s into strippable characters, a bare middle and strippable characters, trim(s) is that middle. |
| `PhpStrings.TrimIdempotent` | src/FakeStore/AddProductCommand.php:30-38 | Trimming a trimmed title or category changes nothing. |
| `PhpStrings.TrimFixedPoint` | src/FakeStore/AddProductCommand.php:23 | A string is its own trim() exactly when it has no strippable character at either end. |
| `PhpStrings.FormatInt` | src/FakeStore/API.php:27 | %d prints a minus sign exactly for negative numbers, followed by at least one decimal digit and nothing else, with no leading zero unless the number is 0. |
| `PhpStrings.EmptyStrings` | src/FakeStore/API.php:44 | empty() holds for `""` and `"0"` and for no string longer than one character. It does not hold for `"00"`, `"0.0"`, `" "`, `"false"` or `"null"`. |
| `PhpStrings.ParseFormatInt` | src/FakeStore/API.php:27 | What %d prints can be read back as the same integer. |
| `PhpStrings.FormatIntInjective` | src/FakeStore/API.php:37 | Two integers print the same under %d exactly when they are equal. |
| `Commands.NewAddProductCommand` | src/FakeStore/AddProductCommand.php:16-40 | Construction succeeds iff the title is not blank, the price is not negative and the category is not blank. Otherwise the message is the first failing rule's, checked in the order title, price, category. On success the command is valid and holds the trimmed title and category, with price, description and image verbatim. |
| `Commands.NewUpdateProductCommand` | src/FakeStore/UpdateProductCommand.php:17-43 | The same rules in the same order with the same messages. The id is stored verbatim and never checked. On success the title and category are trimmed and the other fields are verbatim. |
| `Commands.UpdateValidatesLikeAdd` | src/FakeStore/UpdateProductCommand.php:25-35 | For equal inputs the update constructor fails exactly when the add constructor fails, and with the same message. |
| `Commands.MessagesDistinct` | src/FakeStore/AddProductCommand.php:24-33 | The three validation messages are pairwise different, so a message names one rule. |
| `Commands.ProductRoundTripsThroughUpdate` | tests/FakeStore/UpdateProductCommandTest.php:17-34 | Take a product whose title and category are already trimmed and non-empty and whose price is not negative. It is accepted as an update command holding all six of its fields unchanged. |
| `Commands.ReconstructionIsIdentity` | src/FakeStore/AddProductCommand.php:23-39 | Rebuilding a valid add command from its own fields gives that same command. |
| `Commands.RejectedSamples` | tests/FakeStore/UpdateProductCommandTest.php:82-110 | An empty title and a title of spaces fail with "title must not be empty". A price of -1.23 fails with "price must not be negative". An empty category fails with "undefined category". |
| `FakeStore.LookupFindsPair` | src/FakeStore/API.php:55-61 | In a JSON object without repeated keys, looking a key up finds the value stored with it. |
| `FakeStore.ProductBodyFields` | src/FakeStore/API.php:55-61 | The body of add and update has exactly the keys title, price, description, category and image, in that order and without repeats. Each key holds the given value. |
| `FakeStore.GetProductsRequest` | src/FakeStore/API.php:25 | The list request is `GET /products` with no body. |
| `FakeStore.GetProductRequest` | src/FakeStore/API.php:37 | The get request is `GET /products/{id}` with no body. |
| `FakeStore.AddProductRequest` | src/FakeStore/API.php:54-62 | The add request is `POST /products`, and its JSON body holds the command's five fields. |
| `FakeStore.UpdateProductRequest` | src/FakeStore/API.php:85-93 | The update request is `PUT /products/{command id}`, with the same body shape as add. |
| `FakeStore.DeleteProductRequest` | src/FakeStore/API.php:118 | The delete request is `DELETE /products/{id}` with no body. |
| `FakeStore.ProductPathNamesId` | src/FakeStore/API.php:37 | Two product paths are equal exactly when their ids are, and no product path is the list path. |
| `FakeStore.StatusMessageNamesStatus` | src/FakeStore/API.php:27 | "API responded with status <code>" determines the code. |
| `FakeStore.IdMismatchMessageNamesIds` | src/FakeStore/API.php:102 | "expected product id #<a>, got <b>" determines both a and b. |
| `FakeStore.SplitAtComma` | src/FakeStore/API.php:102 | The mismatch message divides at its first comma into the two printed ids. |
| `FakeStore.MessageSamples` | tests/FakeStore/APITest.php:51 | Status 500 gives exactly "API responded with status 500", and expected id 16 with returned id 99 gives exactly "expected product id #16, got 99". |
| `FakeStore.Outcome.Message` | tests/FakeStore/ResourceNotFoundException.php:9-11 | The not-found outcome carries the exception's default message "resource not found". An upstream error carries its own message. |
| `FakeStore.NotFoundMessageDistinct` | tests/FakeStore/ResourceNotFoundException.php:9-11 | The not-found message is never a status message or an id-mismatch message. |
| `FakeStore.ErrorKindsDistinct` | src/FakeStore/API.php:96-102 | A status error and an id-mismatch error never have the same message. |
| `FakeStore.Api.GetProducts` | src/FakeStore/API.php:22-32 | A status other than 200 gives an upstream error with the status message, and the body is not used. Status 200 gives exactly the decoded list. This operation never reports not-found. |
| `FakeStore.Api.GetProduct` | src/FakeStore/API.php:34-49 | A status other than 200 gives an upstream error with the status message. Not-found happens exactly on status 200 with body `""` or `"0"`. Any other 200 body gives the decoded product. |
| `FakeStore.Api.AddProduct` | src/FakeStore/API.php:51-80 | A status other than 200 gives an upstream error with the status message. Otherwise the result is a product with the assigned id and the command's five fields. This operation never reports not-found. |
| `FakeStore.Api.UpdateProduct` | src/FakeStore/API.php:82-113 | A status other than 200 gives an upstream error with the status message. A returned id different from the command's gives the mismatch message naming both ids. This operation succeeds exactly when the status is 200 and the ids match. It then returns the command's id and fields, and it never reports not-found. |
| `FakeStore.Api.DeleteProduct` | src/FakeStore/API.php:115-129 | A status other than 200 gives an upstream error with the status message. Not-found happens exactly on status 200 with the raw body `null`. Any other 200 body is success. |
| `FakeStore.OutcomeDependsOnOneRequest` | src/FakeStore/API.php:25-118 | Each operation's outcome is fixed by the upstream's answer to its one request, so no other request affects it. |
| `FakeStore.NonOkStatusIgnoresBody` | src/FakeStore/API.php:26-27 | In every operation, two answers with the same non-200 status give the same outcome whatever their bodies. |
| `FakeStore.AbsenceSignalsDiffer` | src/FakeStore/API.php:44-46 | A 200 body of `null` is passed by get to the deserialiser, not reported as not found. A 200 body of `""`, `"0"` or `"null "` is a successful delete. |
| `FakeStore.AddProductRoundTrip` | tests/FakeStore/APITest.php:101-126 | Adding a valid product through its command, with the product's own id assigned, returns that very product. |
| `FakeStore.UpdateProductRoundTrip` | tests/FakeStore/APITest.php:148-174 | Updating a valid product through its command, with its id confirmed, returns that very product. |

## Left out

- The HTTP transport (Symfony HttpClient, its base URL and headers) is the pure function `upstream`. Transport exceptions are not modelled: the source does not catch them.
- JSON decoding is not modelled. The Symfony serializer and `toArray()` are uninterpreted functions that always return a value. Their exceptions are left out: on malformed bodies, on bodies that are not a product (such as `null` on get), and on a missing `id` key.
- `FakeStore.Api.UpdateProduct`: the id check in the source uses `!==` on a decoded JSON value. A string `"16"` would therefore differ from the int `16`. The model's decoded id is an `int`, so this type-level mismatch is not captured.
- Prices are `real`. PHP floats also have NaN, which passes `$price < 0` and would be accepted, and `-0.0`. Neither is modelled, and no arithmetic is done on prices.
- Integers are unbounded. PHP's 64-bit range does not matter here, because ids and statuses pass through unchanged and are only compared or printed.
- Strings are sequences of characters. PHP's `trim()` works on bytes, and its default list contains only ASCII characters, so no multi-byte character is affected either way.
- The not-found exception's optional message parameter is left out. The adapter always uses the default.
- The controllers, DTOs, argument resolver and test helper are not part of this model. They are routing, framework validation and file I/O.
