/** The values the wishlist repository sends to and reads from the Masterdata
    document store: wishlist documents, the wrappers the repository returns,
    and the array-shaped response bodies of the search and scroll endpoints.

    JSON text is not modelled character by character. A response body is
    either a JSON array, seen as its sequence of elements, or some other text
    that `JArray.Parse` rejects; an element is either a C# null slot or a
    payload that deserialisation turns into a document, into null, or into an
    exception. */
module Documents {

  datatype Option<+T> = None | Some(value: T)

  /** What an exception that escapes an operation was about. */
  datatype Fault =
    | MalformedJson              // JArray.Parse rejected a response body
    | BadDocument(reason: string) // JsonConvert.DeserializeObject threw
    | NullReference              // a member was accessed through a null reference
    | MissingScrollToken         // the scroll response had no X-VTEX-MD-TOKEN header

  /** The result of a repository call: the value it returns, or the exception it raises. */
  datatype Outcome<+T> = Returned(value: T) | Raised(fault: Fault)

  /** A wishlist entry: an attribute bag the repository never looks inside. */
  datatype ListItem = ListItem(attributes: map<string, string>)

  /** `ListItemsWrapper`: one named list of items with its visibility flag. */
  datatype ListItemsWrapper = ListItemsWrapper(listItems: seq<ListItem>, isPublic: Option<bool>, name: Option<string>)

  /** `WishListWrapper`: the stored document (`Id`, `Email`, `ListItemsWrapper`). */
  datatype WishListDoc = WishListDoc(id: Option<string>, email: Option<string>, lists: Option<seq<ListItemsWrapper>>)

  /** A text body as the store answered it. */
  datatype Body = ArrayBody(elements: seq<Element>) | OtherBody(text: string)

  /** One element of a JSON array: a null slot, or a JSON value. */
  datatype Element = Absent | Present(payload: Payload)

  /** A JSON value as deserialisation sees it. */
  datatype Payload = DocJson(doc: WishListDoc) | NullJson | BadJson(reason: string)

  /** The human-readable `message` that `GetWishList` attaches on failure. */
  datatype Note =
    | ErrorNote(fault: Fault, rsp: Body)       // the caught exception and the response body
    | StatusNote(status: int, rsp: Body)       // the status code and the response body

  /** `ResponseListWrapper`: a wishlist document plus the `message` field. */
  datatype ResponseList = ResponseList(id: Option<string>, email: Option<string>,
                                       lists: Option<seq<ListItemsWrapper>>, message: Option<Note>)

  /** `new ResponseListWrapper()`: every field null. */
  const DefaultResponse := ResponseList(None, None, None, None)

  /** The outcome of `JsonConvert.DeserializeObject`. */
  datatype Decoded<+T> = Decoded(value: T) | DecodedNull | DecodeFailed(reason: string)

  /** `JArray.Parse`: the elements of an array body, or None where it throws. */
  function ParseArray(b: Body): Option<seq<Element>>
  {
    match b
    case ArrayBody(es) => Some(es)
    case OtherBody(_) => None
  }

  /** `JsonConvert.DeserializeObject<WishListWrapper>(token.ToString())`. */
  function Deserialize(p: Payload): Decoded<WishListDoc>
  {
    match p
    case DocJson(d) => Decoded(d)
    case NullJson => DecodedNull
    case BadJson(reason) => DecodeFailed(reason)
  }

  /** The element is present and deserialises to a document. */
  predicate HoldsDocument(e: Element)
  {
    e.Present? && Deserialize(e.payload).Decoded?
  }

  /** The document an element deserialises to. */
  function DocumentOf(e: Element): WishListDoc
    requires HoldsDocument(e)
  {
    Deserialize(e.payload).value
  }

  /** The same document read as a `ResponseListWrapper`, with no message. */
  function AsResponse(d: WishListDoc): ResponseList
  {
    ResponseList(d.id, d.email, d.lists, None)
  }
}
