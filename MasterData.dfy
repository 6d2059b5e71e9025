/** A simulated Masterdata document store. The repository reaches it only
    through HTTP requests; here each endpoint it uses is one method, every
    request is appended to a call log together with the credential that was
    attached to it, and the answers are fixed by the store's state:

    - the schema endpoint answers a GET with its text when it is readable and
      stores the body of a PUT when it is writable;
    - a search answers from a table of replies by e-mail (an owner that is not
      in the table gets a successful empty array);
    - PATCH and DELETE answer with a fixed success flag;
    - a scroll serves a finite sequence of pages, the first on the opening
      call and the next one on each continuation; once the pages run out it
      serves an empty array. */
module MasterData {
  import opened Documents

  /** The requests the repository issues, without URI, headers or encoding. */
  datatype Request =
    | GetSchema
    | PutSchema(body: string)
    | PatchDocument(doc: WishListDoc)
    | DeleteDocument(id: Option<string>)
    | Search(email: string)
    | OpenScroll(size: nat)
    | ContinueScroll(token: Option<string>)

  /** One issued request and the credential attached to it (None: no auth headers). */
  datatype Call = Call(credential: Option<string>, request: Request)

  /** The schema endpoint: whether a GET succeeds, the stored text, whether a PUT succeeds. */
  datatype SchemaEndpoint = SchemaEndpoint(readable: bool, text: string, writable: bool)

  /** An HTTP answer: `IsSuccessStatusCode`, the status code and the body. */
  datatype Reply = Reply(success: bool, status: int, body: Body)

  /** The scroll endpoint: the pages it will serve and the token header of its opening answer. */
  datatype ScrollEndpoint = ScrollEndpoint(pages: seq<Body>, token: Option<string>)

  /** The page served at position k of a scroll; an empty array past the last page. */
  function PageAt(pages: seq<Body>, k: nat): (b: Body)
    ensures k < |pages| ==> b == pages[k]
    ensures |pages| <= k ==> b == ArrayBody([])
  {
    if k < |pages| then pages[k] else ArrayBody([])
  }

  /** The answer to a search for `email`: its scripted reply, or an empty array. */
  function SearchReply(searches: map<string, Reply>, email: string): Reply
  {
    if email in searches then searches[email] else Reply(true, 200, ArrayBody([]))
  }

  class Store {
    var schema: SchemaEndpoint
    var searches: map<string, Reply>
    var patchSucceeds: bool
    var deleteSucceeds: bool
    var scroll: ScrollEndpoint
    var cursor: nat          // position of the page the next continuation call serves
    var log: seq<Call>       // every request issued so far, oldest first

    constructor (schema: SchemaEndpoint, searches: map<string, Reply>, patchSucceeds: bool,
                 deleteSucceeds: bool, scroll: ScrollEndpoint)
      ensures this.schema == schema && this.searches == searches
      ensures this.patchSucceeds == patchSucceeds && this.deleteSucceeds == deleteSucceeds
      ensures this.scroll == scroll && cursor == 0 && log == []
    {
      this.schema := schema;
      this.searches := searches;
      this.patchSucceeds := patchSucceeds;
      this.deleteSucceeds := deleteSucceeds;
      this.scroll := scroll;
      cursor := 0;
      log := [];
    }

    /** GET schemas/{schema}: success flag and body. */
    method ReadSchema(credential: Option<string>) returns (success: bool, body: string)
      modifies this`log
      ensures log == old(log) + [Call(credential, GetSchema)]
      ensures success == schema.readable && body == schema.text
    {
      log := log + [Call(credential, GetSchema)];
      success, body := schema.readable, schema.text;
    }

    /** PUT schemas/{schema}: replaces the stored text when the endpoint is writable. */
    method WriteSchema(credential: Option<string>, body: string) returns (success: bool)
      modifies this`log, this`schema
      ensures log == old(log) + [Call(credential, PutSchema(body))]
      ensures success == old(schema).writable
      ensures schema == if success then old(schema).(text := body) else old(schema)
    {
      log := log + [Call(credential, PutSchema(body))];
      success := schema.writable;
      if success {
        schema := schema.(text := body);
      }
    }

    /** GET search?...&email={email}. */
    method RunSearch(credential: Option<string>, email: string) returns (reply: Reply)
      modifies this`log
      ensures log == old(log) + [Call(credential, Search(email))]
      ensures reply == SearchReply(searches, email)
    {
      log := log + [Call(credential, Search(email))];
      reply := SearchReply(searches, email);
    }

    /** PATCH documents. */
    method Patch(credential: Option<string>, doc: WishListDoc) returns (success: bool)
      modifies this`log
      ensures log == old(log) + [Call(credential, PatchDocument(doc))]
      ensures success == patchSucceeds
    {
      log := log + [Call(credential, PatchDocument(doc))];
      success := patchSucceeds;
    }

    /** DELETE documents/{id}. */
    method Delete(credential: Option<string>, id: Option<string>) returns (success: bool)
      modifies this`log
      ensures log == old(log) + [Call(credential, DeleteDocument(id))]
      ensures success == deleteSucceeds
    {
      log := log + [Call(credential, DeleteDocument(id))];
      success := deleteSucceeds;
    }

    /** GET scroll?_size={size}&...: the token header and the first page. */
    method Open(credential: Option<string>, size: nat) returns (token: Option<string>, page: Body)
      modifies this`log, this`cursor
      ensures log == old(log) + [Call(credential, OpenScroll(size))]
      ensures token == scroll.token && page == PageAt(scroll.pages, 0) && cursor == 1
    {
      log := log + [Call(credential, OpenScroll(size))];
      token, page := scroll.token, PageAt(scroll.pages, 0);
      cursor := 1;
    }

    /** GET scroll?_token={token}: the next page. */
    method Continue(credential: Option<string>, token: Option<string>) returns (page: Body)
      modifies this`log, this`cursor
      ensures log == old(log) + [Call(credential, ContinueScroll(token))]
      ensures page == PageAt(scroll.pages, old(cursor)) && cursor == old(cursor) + 1
    {
      log := log + [Call(credential, ContinueScroll(token))];
      page := PageAt(scroll.pages, cursor);
      cursor := cursor + 1;
    }
  }
}
