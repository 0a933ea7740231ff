/**
 * The FakeStore adapter. Each of its five operations sends one fixed request to
 * the upstream catalog and turns the status and body of the answer into one of
 * three outcomes: a value, "resource not found", or an upstream error.
 *
 * The HTTP client is the function `upstream` from request to response, so an
 * operation's outcome is a function of the answer to the one request it sends.
 * The JSON decoding the adapter delegates (the serializer for products and
 * product lists, `toArray()['id']` for the assigned id) is three uninterpreted
 * functions of the body.
 */
module FakeStore {
  import opened Wrappers
  import opened PhpStrings
  import opened Products
  import opened Commands

  // ------------------------------------------------------------- requests

  datatype HttpMethod = GET | POST | PUT | DELETE

  datatype Json = JString(str: string) | JNumber(num: real)

  /** A JSON object as the ordered key/value list the client encodes. */
  type JsonObject = seq<(string, Json)>

  /** A request relative to the client's configured base URL. */
  datatype Request = Request(verb: HttpMethod, path: string, json: Option<JsonObject>)

  datatype Response = Response(status: int, content: string)

  const HttpOk := 200

  const ProductsPath := "/products"

  /** sprintf('/products/%d', id) */
  function ProductPath(id: int): string {
    ProductsPath + "/" + FormatInt(id)
  }

  function Keys(obj: JsonObject): (ks: seq<string>)
    ensures |ks| == |obj|
    ensures forall i :: 0 <= i < |obj| ==> ks[i] == obj[i].0
  {
    if obj == [] then [] else [obj[0].0] + Keys(obj[1..])
  }

  /** The value stored under key, from the first pair that has it. */
  function Lookup(obj: JsonObject, key: string): Option<Json> {
    if obj == [] then None
    else if obj[0].0 == key then Some(obj[0].1)
    else Lookup(obj[1..], key)
  }

  /** No key occurs twice, so every key names one value. */
  predicate DistinctKeys(obj: JsonObject) {
    forall i, j :: 0 <= i < j < |obj| ==> obj[i].0 != obj[j].0
  }

  /** In an object without repeated keys, looking a key up finds the value stored with it. */
  lemma {:induction false} LookupFindsPair(obj: JsonObject, i: nat)
    requires DistinctKeys(obj) && i < |obj|
    ensures Lookup(obj, obj[i].0) == Some(obj[i].1)
  {
    if i > 0 {
      assert obj[0].0 != obj[i].0;
      assert DistinctKeys(obj[1..]) by {
        forall a, b | 0 <= a < b < |obj[1..]| ensures obj[1..][a].0 != obj[1..][b].0 {
          assert obj[1..][a] == obj[a + 1] && obj[1..][b] == obj[b + 1];
        }
      }
      assert obj[1..][i - 1] == obj[i];
      LookupFindsPair(obj[1..], i - 1);
    }
  }

  /** The body add and update send: the five command fields, under their own names. */
  function ProductBody(title: string, price: real, description: string, category: string, image: string): JsonObject {
    [ ("title", JString(title)),
      ("price", JNumber(price)),
      ("description", JString(description)),
      ("category", JString(category)),
      ("image", JString(image)) ]
  }

  const BodyKeys: seq<string> := ["title", "price", "description", "category", "image"]

  /** The body carries exactly these five fields, each with the given value. */
  lemma ProductBodyFields(title: string, price: real, description: string, category: string, image: string)
    ensures var body := ProductBody(title, price, description, category, image);
      && Keys(body) == BodyKeys
      && DistinctKeys(body)
      && Lookup(body, "title") == Some(JString(title))
      && Lookup(body, "price") == Some(JNumber(price))
      && Lookup(body, "description") == Some(JString(description))
      && Lookup(body, "category") == Some(JString(category))
      && Lookup(body, "image") == Some(JString(image))
  {
    var body := ProductBody(title, price, description, category, image);
    assert DistinctKeys(body);
    LookupFindsPair(body, 0);
    LookupFindsPair(body, 1);
    LookupFindsPair(body, 2);
    LookupFindsPair(body, 3);
    LookupFindsPair(body, 4);
  }

  function GetProductsRequest(): (r: Request)
    ensures r.verb == GET && r.path == "/products" && r.json == None
  {
    Request(GET, ProductsPath, None)
  }

  function GetProductRequest(id: int): (r: Request)
    ensures r.verb == GET && r.path == "/products/" + FormatInt(id) && r.json == None
  {
    Request(GET, ProductPath(id), None)
  }

  function AddProductRequest(cmd: AddProductCommand): (r: Request)
    ensures r.verb == POST && r.path == "/products"
    ensures r.json == Some(ProductBody(cmd.title, cmd.price, cmd.description, cmd.category, cmd.image))
  {
    Request(POST, ProductsPath, Some(ProductBody(cmd.title, cmd.price, cmd.description, cmd.category, cmd.image)))
  }

  function UpdateProductRequest(cmd: UpdateProductCommand): (r: Request)
    ensures r.verb == PUT && r.path == "/products/" + FormatInt(cmd.id)
    ensures r.json == Some(ProductBody(cmd.title, cmd.price, cmd.description, cmd.category, cmd.image))
  {
    Request(PUT, ProductPath(cmd.id), Some(ProductBody(cmd.title, cmd.price, cmd.description, cmd.category, cmd.image)))
  }

  function DeleteProductRequest(id: int): (r: Request)
    ensures r.verb == DELETE && r.path == "/products/" + FormatInt(id) && r.json == None
  {
    Request(DELETE, ProductPath(id), None)
  }

  /** The path of a single product names its id, and differs from the list path. */
  lemma ProductPathNamesId(a: int, b: int)
    ensures ProductPath(a) == ProductPath(b) <==> a == b
    ensures ProductPath(a) != ProductsPath
  {
    if ProductPath(a) == ProductPath(b) {
      assert FormatInt(a) == ProductPath(a)[|ProductsPath| + 1..];
      assert FormatInt(b) == ProductPath(b)[|ProductsPath| + 1..];
    }
    FormatIntInjective(a, b);
  }

  // ------------------------------------------------------------- outcomes

  const ResourceNotFoundMessage := "resource not found"

  /**
   * What an operation produces: its value, the payload-free not-found signal,
   * or the upstream error (a RuntimeException) with its message.
   */
  datatype Outcome<+T> = Ok(value: T) | ResourceNotFound | UpstreamError(message: string)
  {
    /** The message the thrown exception carries. */
    function Message(): (m: string)
      requires !Ok?
      ensures ResourceNotFound? ==> m == "resource not found"
      ensures UpstreamError? ==> m == message
    {
      if ResourceNotFound? then ResourceNotFoundMessage else message
    }
  }

  /** sprintf('API responded with status %d', status) */
  function StatusMessage(status: int): string {
    "API responded with status " + FormatInt(status)
  }

  /** sprintf('expected product id #%d, got %d', expected, got) */
  function IdMismatchMessage(expected: int, got: int): string {
    "expected product id #" + FormatInt(expected) + ", got " + FormatInt(got)
  }

  /** The status can be recovered from its error message. */
  lemma StatusMessageNamesStatus(a: int, b: int)
    ensures StatusMessage(a) == StatusMessage(b) <==> a == b
  {
    var prefix := "API responded with status ";
    if StatusMessage(a) == StatusMessage(b) {
      assert FormatInt(a) == StatusMessage(a)[|prefix|..];
      assert FormatInt(b) == StatusMessage(b)[|prefix|..];
    }
    FormatIntInjective(a, b);
  }

  predicate NoComma(s: string) {
    forall i :: 0 <= i < |s| ==> s[i] != ','
  }

  /** The text before the first comma. */
  function BeforeComma(s: string): string {
    if s == [] || s[0] == ',' then [] else [s[0]] + BeforeComma(s[1..])
  }

  lemma {:induction false} BeforeCommaOf(x: string, rest: string)
    requires NoComma(x)
    requires rest != [] && rest[0] == ','
    ensures BeforeComma(x + rest) == x
  {
    if x == [] {
      assert x + rest == rest;
    } else {
      assert (x + rest)[0] == x[0];
      assert (x + rest)[1..] == x[1..] + rest;
      BeforeCommaOf(x[1..], rest);
    }
  }

  lemma SplitAtComma(x: string, y: string, x': string, y': string)
    requires NoComma(x) && NoComma(x')
    requires x + ", got " + y == x' + ", got " + y'
    ensures x == x' && y == y'
  {
    var sep := ", got ";
    assert x + sep + y == x + (sep + y) && x' + sep + y' == x' + (sep + y');
    BeforeCommaOf(x, sep + y);
    BeforeCommaOf(x', sep + y');
    var lhs := x + sep + y;
    assert y == lhs[|x| + |sep|..];
    assert y' == lhs[|x'| + |sep|..];
  }

  /** Both the expected and the returned id can be recovered from the mismatch message. */
  lemma FormattedIdHasNoComma(n: int)
    ensures NoComma(FormatInt(n))
  {
    var r := FormatInt(n);
    forall i | 0 <= i < |r| ensures r[i] != ',' {
      assert IsDigit(r[i]) || r[i] == '-';
    }
  }

  lemma IdMismatchMessageNamesIds(a: int, b: int, c: int, d: int)
    ensures IdMismatchMessage(a, b) == IdMismatchMessage(c, d) <==> a == c && b == d
  {
    var prefix := "expected product id #";
    if IdMismatchMessage(a, b) == IdMismatchMessage(c, d) {
      var x, y, x', y' := FormatInt(a), FormatInt(b), FormatInt(c), FormatInt(d);
      var rest := IdMismatchMessage(a, b)[|prefix|..];
      assert rest == x + ", got " + y;
      assert rest == x' + ", got " + y';
      FormattedIdHasNoComma(a);
      FormattedIdHasNoComma(c);
      SplitAtComma(x, y, x', y');
      FormatIntInjective(a, c);
      FormatIntInjective(b, d);
    }
  }

  /** A status error and an id mismatch never carry the same message. */
  lemma ErrorKindsDistinct(status: int, expected: int, got: int)
    ensures StatusMessage(status) != IdMismatchMessage(expected, got)
  {
    assert StatusMessage(status)[0] == 'A';
    assert IdMismatchMessage(expected, got)[0] == 'e';
  }

  /** The not-found exception's default message is neither a status nor an id-mismatch message. */
  lemma NotFoundMessageDistinct<T>(o: Outcome<T>, status: int, expected: int, got: int)
    requires o.ResourceNotFound?
    ensures o.Message() != StatusMessage(status)
    ensures o.Message() != IdMismatchMessage(expected, got)
  {
    assert o.Message()[0] == 'r';
    assert StatusMessage(status)[0] == 'A';
    assert IdMismatchMessage(expected, got)[0] == 'e';
  }

  /** The messages the adapter's tests expect, character for character. */
  lemma MessageSamples()
    ensures StatusMessage(500) == "API responded with status 500"
    ensures IdMismatchMessage(16, 99) == "expected product id #16, got 99"
  {
    assert FormatNat(50) == FormatNat(5) + [DigitChar(0)];
    assert FormatNat(500) == FormatNat(50) + [DigitChar(0)];
    assert FormatNat(16) == FormatNat(1) + [DigitChar(6)];
    assert FormatNat(99) == FormatNat(9) + [DigitChar(9)];
  }

  // ------------------------------------------------------------ the adapter

  /** The decoding the adapter delegates, as functions of the response body. */
  datatype Decoding = Decoding(
    products: string -> seq<Product>,
    product: string -> Product,
    assignedId: string -> int)

  /** A product returned by a write carries the command's five fields. */
  predicate HoldsAddFields(p: Product, cmd: AddProductCommand) {
    p.title == cmd.title && p.price == cmd.price && p.description == cmd.description
      && p.category == cmd.category && p.image == cmd.image
  }

  predicate HoldsUpdateFields(p: Product, cmd: UpdateProductCommand) {
    p.title == cmd.title && p.price == cmd.price && p.description == cmd.description
      && p.category == cmd.category && p.image == cmd.image
  }

  datatype Api = Api(upstream: Request -> Response, decoding: Decoding)
  {
    /** getProducts(): the list as the serializer decodes it, unfiltered and in order. */
    function GetProducts(): (r: Outcome<seq<Product>>)
      ensures var answer := upstream(GetProductsRequest());
        && (r.UpstreamError? <==> answer.status != HttpOk)
        && (r.UpstreamError? ==> r.message == StatusMessage(answer.status))
        && !r.ResourceNotFound?
        && (r.Ok? ==> r.value == decoding.products(answer.content))
    {
      var response := upstream(GetProductsRequest());
      if response.status != HttpOk then UpstreamError(StatusMessage(response.status))
      else Ok(decoding.products(response.content))
    }

    /** getProduct(id): an empty() body on status 200 means the product does not exist. */
    function GetProduct(id: int): (r: Outcome<Product>)
      ensures var answer := upstream(GetProductRequest(id));
        && (r.UpstreamError? <==> answer.status != HttpOk)
        && (r.UpstreamError? ==> r.message == StatusMessage(answer.status))
        && (r.ResourceNotFound? <==> answer.status == HttpOk && (answer.content == "" || answer.content == "0"))
        && (r.Ok? ==> r.value == decoding.product(answer.content))
    {
      var response := upstream(GetProductRequest(id));
      if response.status != HttpOk then UpstreamError(StatusMessage(response.status))
      else if IsEmpty(response.content) then ResourceNotFound
      else Ok(decoding.product(response.content))
    }

    /** addProduct(cmd): the new product is the command's fields under the id the upstream assigned. */
    function AddProduct(cmd: AddProductCommand): (r: Outcome<Product>)
      ensures var answer := upstream(AddProductRequest(cmd));
        && (r.UpstreamError? <==> answer.status != HttpOk)
        && (r.UpstreamError? ==> r.message == StatusMessage(answer.status))
        && !r.ResourceNotFound?
        && (r.Ok? ==> r.value.id == decoding.assignedId(answer.content) && HoldsAddFields(r.value, cmd))
    {
      var response := upstream(AddProductRequest(cmd));
      if response.status != HttpOk then UpstreamError(StatusMessage(response.status))
      else
        var id := decoding.assignedId(response.content);
        Ok(Product(id, cmd.title, cmd.price, cmd.description, cmd.category, cmd.image))
    }

    /** updateProduct(cmd): succeeds only when the upstream confirms the command's id. */
    function UpdateProduct(cmd: UpdateProductCommand): (r: Outcome<Product>)
      ensures var answer := upstream(UpdateProductRequest(cmd));
        && (answer.status != HttpOk ==> r == UpstreamError(StatusMessage(answer.status)))
        && (answer.status == HttpOk && decoding.assignedId(answer.content) != cmd.id ==>
              r == UpstreamError(IdMismatchMessage(cmd.id, decoding.assignedId(answer.content))))
        && (r.Ok? <==> answer.status == HttpOk && decoding.assignedId(answer.content) == cmd.id)
        && !r.ResourceNotFound?
        && (r.Ok? ==> r.value.id == cmd.id && HoldsUpdateFields(r.value, cmd))
    {
      var response := upstream(UpdateProductRequest(cmd));
      if response.status != HttpOk then UpstreamError(StatusMessage(response.status))
      else
        var id := decoding.assignedId(response.content);
        if id != cmd.id then UpstreamError(IdMismatchMessage(cmd.id, id))
        else Ok(Product(cmd.id, cmd.title, cmd.price, cmd.description, cmd.category, cmd.image))
    }

    /** deleteProduct(id): the literal body "null" on status 200 means the product did not exist. */
    function DeleteProduct(id: int): (r: Outcome<()>)
      ensures var answer := upstream(DeleteProductRequest(id));
        && (r.UpstreamError? <==> answer.status != HttpOk)
        && (r.UpstreamError? ==> r.message == StatusMessage(answer.status))
        && (r.ResourceNotFound? <==> answer.status == HttpOk && answer.content == "null")
    {
      var response := upstream(DeleteProductRequest(id));
      if response.status != HttpOk then UpstreamError(StatusMessage(response.status))
      else if response.content == "null" then ResourceNotFound
      else Ok(())
    }
  }

  // ------------------------------------------------------------ properties

  /**
   * Each operation asks the upstream exactly one question: two clients that give
   * the same answer to that one request lead to the same outcome, whatever they
   * would answer to anything else.
   */
  lemma OutcomeDependsOnOneRequest(
    u: Request -> Response, v: Request -> Response, d: Decoding,
    id: int, add: AddProductCommand, update: UpdateProductCommand)
    ensures u(GetProductsRequest()) == v(GetProductsRequest()) ==>
      Api(u, d).GetProducts() == Api(v, d).GetProducts()
    ensures u(GetProductRequest(id)) == v(GetProductRequest(id)) ==>
      Api(u, d).GetProduct(id) == Api(v, d).GetProduct(id)
    ensures u(AddProductRequest(add)) == v(AddProductRequest(add)) ==>
      Api(u, d).AddProduct(add) == Api(v, d).AddProduct(add)
    ensures u(UpdateProductRequest(update)) == v(UpdateProductRequest(update)) ==>
      Api(u, d).UpdateProduct(update) == Api(v, d).UpdateProduct(update)
    ensures u(DeleteProductRequest(id)) == v(DeleteProductRequest(id)) ==>
      Api(u, d).DeleteProduct(id) == Api(v, d).DeleteProduct(id)
  {
  }

  /**
   * A status other than 200 fails every operation with the same message, and the
   * body is not looked at: two answers with that status fail identically.
   */
  lemma NonOkStatusIgnoresBody(
    u: Request -> Response, v: Request -> Response, d: Decoding,
    id: int, add: AddProductCommand, update: UpdateProductCommand)
    ensures u(GetProductsRequest()).status == v(GetProductsRequest()).status != HttpOk ==>
      Api(u, d).GetProducts() == Api(v, d).GetProducts()
    ensures u(GetProductRequest(id)).status == v(GetProductRequest(id)).status != HttpOk ==>
      Api(u, d).GetProduct(id) == Api(v, d).GetProduct(id)
    ensures u(AddProductRequest(add)).status == v(AddProductRequest(add)).status != HttpOk ==>
      Api(u, d).AddProduct(add) == Api(v, d).AddProduct(add)
    ensures u(UpdateProductRequest(update)).status == v(UpdateProductRequest(update)).status != HttpOk ==>
      Api(u, d).UpdateProduct(update) == Api(v, d).UpdateProduct(update)
    ensures u(DeleteProductRequest(id)).status == v(DeleteProductRequest(id)).status != HttpOk ==>
      Api(u, d).DeleteProduct(id) == Api(v, d).DeleteProduct(id)
  {
  }

  /**
   * Get and delete signal absence differently: an empty body or "0" makes get
   * report not-found but lets delete succeed, and "null" (compared as raw text,
   * so "null " does not match) makes delete report not-found while get passes it to the deserialiser.
   */
  lemma AbsenceSignalsDiffer(api: Api, id: int)
    ensures var g := api.upstream(GetProductRequest(id));
      g.status == HttpOk && g.content == "null" ==> api.GetProduct(id) == Ok(api.decoding.product("null"))
    ensures var del := api.upstream(DeleteProductRequest(id));
      del.status == HttpOk && (del.content == "" || del.content == "0" || del.content == "null ") ==>
        api.DeleteProduct(id) == Ok(())
  {
  }

  /**
   * Adding a product through a command built from it, when the upstream assigns
   * the product's own id, gives back that very product: only the assigned id is
   * taken from the answer.
   */
  lemma AddProductRoundTrip(api: Api, p: Product)
    requires IsTrimmedText(p.title) && p.price >= 0.0 && IsTrimmedText(p.category)
    ensures NewAddProductCommand(p.title, p.price, p.description, p.category, p.image).Success?
    ensures var cmd := NewAddProductCommand(p.title, p.price, p.description, p.category, p.image).value;
      var answer := api.upstream(AddProductRequest(cmd));
      answer.status == HttpOk && api.decoding.assignedId(answer.content) == p.id ==>
        api.AddProduct(cmd) == Ok(p)
  {
    var cmd := AddProductCommand(p.title, p.price, p.description, p.category, p.image);
    ReconstructionIsIdentity(cmd);
    var answer := api.upstream(AddProductRequest(cmd));
    if answer.status == HttpOk && api.decoding.assignedId(answer.content) == p.id {
      var r := api.AddProduct(cmd);
      assert r.Ok?;
      assert r.value.id == p.id && HoldsAddFields(r.value, cmd);
    }
  }

  /** Updating a product through a command built from it gives back that product once the upstream confirms the id. */
  lemma UpdateProductRoundTrip(api: Api, p: Product)
    requires IsTrimmedText(p.title) && p.price >= 0.0 && IsTrimmedText(p.category)
    ensures NewUpdateProductCommand(p.id, p.title, p.price, p.description, p.category, p.image).Success?
    ensures var cmd := NewUpdateProductCommand(p.id, p.title, p.price, p.description, p.category, p.image).value;
      var answer := api.upstream(UpdateProductRequest(cmd));
      answer.status == HttpOk && api.decoding.assignedId(answer.content) == p.id ==>
        api.UpdateProduct(cmd) == Ok(p)
  {
    ProductRoundTripsThroughUpdate(p);
    var cmd := UpdateProductCommand(p.id, p.title, p.price, p.description, p.category, p.image);
    var answer := api.upstream(UpdateProductRequest(cmd));
    if answer.status == HttpOk && api.decoding.assignedId(answer.content) == p.id {
      var r := api.UpdateProduct(cmd);
      assert r.Ok?;
      assert r.value.id == p.id && HoldsUpdateFields(r.value, cmd);
    }
  }
}
