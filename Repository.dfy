/** `WishListRepository`: the operations the storefront calls (save, fetch by
    owner, delete, fetch all), each run against the simulated store. Every
    operation checks the schema first, except that `GetWishList` returns
    before the check when the owner id is null or empty. */
module Repository {
  import opened Documents
  import opened MasterData
  import opened SchemaGuard
  import opened Scroll
  import opened Lookup

  /** The document `SaveWishList` upserts: the given id and owner, and exactly one
      named list carrying the given items (none when the list is null) and visibility. */
  function UpsertBody(listItems: Option<seq<ListItem>>, shopperId: Option<string>, listName: Option<string>,
                      isPublic: Option<bool>, documentId: Option<string>): (d: WishListDoc)
    ensures d.id == documentId && d.email == shopperId
    ensures d.lists.Some? && |d.lists.value| == 1
    ensures d.lists.value[0].name == listName && d.lists.value[0].isPublic == isPublic
    ensures listItems.None? ==> d.lists.value[0].listItems == []
    ensures listItems.Some? ==> d.lists.value[0].listItems == listItems.value
  {
    var items := if listItems.None? then [] else listItems.value;
    WishListDoc(documentId, shopperId, Some([ListItemsWrapper(items, isPublic, listName)]))
  }

  /** The materialising loop of `GetAllLists`: every element of the merged array
      that deserialises to a document is added, in order; null slots and null
      deserialisations are skipped; the first element whose deserialisation
      throws ends the loop, the exception being caught. */
  method Materialize(merged: seq<Element>) returns (lists: seq<WishListDoc>)
    ensures lists == KeptAll(merged[..FirstThrow(merged, 0)])
  {
    lists := [];
    var l := 0;
    while l < |merged|
      invariant 0 <= l <= FirstThrow(merged, 0)
      invariant lists == KeptAll(merged[..l])
    {
      var listWrapper := merged[l];
      assert merged[..l + 1][..l] == merged[..l];
      if listWrapper.Present? {
        match Deserialize(listWrapper.payload)
        case DecodeFailed(_) =>
          break;
        case DecodedNull =>
        case Decoded(d) =>
          lists := lists + [d];
      }
      l := l + 1;
    }
    assert merged[..FirstThrow(merged, 0)] == merged[..l];
  }

  class WishListRepository {
    const store: Store
    const authToken: Option<string>      // the context's auth token, sent by save, get, delete and the schema check
    const credential: Option<string>     // the inbound request's credential header, sent by the scroll calls
    const schemaJson: string             // the compiled-in schema text
    var tokenResponse: Option<string>    // the scroll token shared by FirstScroll and SubScroll

    /** The constructor checks the schema once, as the source does before any operation. */
    constructor (store: Store, authToken: Option<string>, credential: Option<string>, schemaJson: string)
      modifies store`log, store`schema
      ensures this.store == store && this.authToken == authToken
      ensures this.credential == credential && this.schemaJson == schemaJson
      ensures tokenResponse == None
      ensures store.log == old(store.log) + VerifyCalls(old(store.schema), authToken, schemaJson)
      ensures store.schema == AfterVerify(old(store.schema), schemaJson)
    {
      this.store := store;
      this.authToken := authToken;
      this.credential := credential;
      this.schemaJson := schemaJson;
      tokenResponse := None;
      new;
      VerifySchema();
    }

    /** Reads the stored schema and, when the read succeeds and the text differs
        from the compiled-in text, writes the compiled-in text back. */
    method VerifySchema()
      modifies store`log, store`schema
      ensures store.log == old(store.log) + VerifyCalls(old(store.schema), authToken, schemaJson)
      ensures store.schema == AfterVerify(old(store.schema), schemaJson)
    {
      var success, responseContent := store.ReadSchema(authToken);
      if success {
        if responseContent != schemaJson {
          var applied := store.WriteSchema(authToken, schemaJson);
        }
      }
    }

    /** Upserts one wishlist document and returns whether the store accepted it. */
    method SaveWishList(listItems: Option<seq<ListItem>>, shopperId: Option<string>, listName: Option<string>,
                        isPublic: Option<bool>, documentId: Option<string>) returns (saved: bool)
      modifies store`log, store`schema
      ensures saved == store.patchSucceeds
      ensures store.log == old(store.log) + VerifyCalls(old(store.schema), authToken, schemaJson)
                           + [Call(authToken, PatchDocument(UpsertBody(listItems, shopperId, listName, isPublic, documentId)))]
      ensures store.schema == AfterVerify(old(store.schema), schemaJson)
    {
      VerifySchema();
      var wishListWrapper := UpsertBody(listItems, shopperId, listName, isPublic, documentId);
      saved := store.Patch(authToken, wishListWrapper);
    }

    /** Deletes one document by id and returns whether the store accepted it. */
    method DeleteWishList(documentId: Option<string>) returns (removed: bool)
      modifies store`log, store`schema
      ensures removed == store.deleteSucceeds
      ensures store.log == old(store.log) + DeleteRound(authToken, old(store.schema), schemaJson, documentId)
      ensures store.schema == AfterVerify(old(store.schema), schemaJson)
    {
      VerifySchema();
      removed := store.Delete(authToken, documentId);
    }

    /** Fetches the owner's wishlist and deletes the other documents the search
        returns, up to the first one whose handling throws. */
    method GetWishList(shopperId: Option<string>) returns (r: Outcome<Option<ResponseList>>)
      modifies store`log, store`schema
      ensures shopperId.None? || shopperId.value == "" ==>
        r == Returned(Some(DefaultResponse)) && store.log == old(store.log) && store.schema == old(store.schema)
      ensures shopperId.Some? && shopperId.value != "" ==>
        var reply := SearchReply(store.searches, shopperId.value);
        var verified := AfterVerify(old(store.schema), schemaJson);
        r == LookupOutcome(reply) &&
        store.schema == verified &&
        store.log == old(store.log) + VerifyCalls(old(store.schema), authToken, schemaJson)
                     + [Call(authToken, Search(shopperId.value))]
                     + DeleteLog(authToken, verified, schemaJson, TryBlock(reply.body).deleted)
    {
      var responseListWrapper: Option<ResponseList> := Some(DefaultResponse);
      if shopperId.None? || shopperId.value == "" {
        return Returned(responseListWrapper);
      }
      VerifySchema();
      ghost var verified := store.schema;
      VerifyIdempotent(old(store.schema), schemaJson);
      var reply := store.RunSearch(authToken, shopperId.value);
      var fault: Option<Fault>;
      match ParseArray(reply.body) {
        case None =>
          fault := Some(MalformedJson);
        case Some(searchResult) =>
          responseListWrapper, fault := RepairDuplicates(searchResult, verified);
      }
      if fault.Some? {
        if responseListWrapper.None? {
          return Raised(NullReference);
        }
        responseListWrapper := Some(responseListWrapper.value.(message := Some(ErrorNote(fault.value, reply.body))));
      }
      if !reply.success {
        if responseListWrapper.None? {
          return Raised(NullReference);
        }
        responseListWrapper := Some(responseListWrapper.value.(message := Some(StatusNote(reply.status, reply.body))));
      }
      return Returned(responseListWrapper);
    }

    /** The loop of `GetWishList`'s try block over the search array: element 0
        becomes the answer, each later element is deleted by its `Id`, and the
        first exception ends the loop before that element is deleted. */
    method RepairDuplicates(searchResult: seq<Element>, ghost verified: SchemaEndpoint)
      returns (found: Option<ResponseList>, fault: Option<Fault>)
      requires store.schema == verified && AfterVerify(verified, schemaJson) == verified
      modifies store`log, store`schema
      ensures var stop := RepairStop(searchResult, 0);
        found == Canonical(searchResult, stop) &&
        fault == (if stop < |searchResult| then StepFault(searchResult[stop], stop == 0) else None) &&
        store.schema == verified &&
        store.log == old(store.log) + DeleteLog(authToken, verified, schemaJson, Duplicates(searchResult, stop))
    {
      found, fault := Some(DefaultResponse), None;
      ghost var searched := store.log;
      ghost var ids: seq<Option<string>> := [];
      var l := 0;
      while l < |searchResult| && fault.None?
        invariant 0 <= l <= RepairStop(searchResult, 0)
        invariant fault.Some? ==> l == RepairStop(searchResult, 0) < |searchResult| && fault == StepFault(searchResult[l], l == 0)
        invariant found == Canonical(searchResult, l)
        invariant store.schema == verified
        invariant ids == Duplicates(searchResult, l)
        invariant store.log == searched + DeleteLog(authToken, verified, schemaJson, ids)
        decreases |searchResult| - l, if fault.None? then 1 else 0
      {
        var listWrapper := searchResult[l];
        if listWrapper.Absent? {
          fault := Some(NullReference);
        } else {
          var decoded := Deserialize(listWrapper.payload);
          if decoded.DecodeFailed? {
            fault := Some(BadDocument(decoded.reason));
          } else if l == 0 {
            found := if decoded.Decoded? then Some(AsResponse(decoded.value)) else None;
          } else if decoded.DecodedNull? {
            fault := Some(NullReference);
          } else {
            var removed := DeleteWishList(decoded.value.id);
            DeleteLogSnoc(authToken, verified, schemaJson, ids, decoded.value.id);
            assert store.log == searched + DeleteLog(authToken, verified, schemaJson, ids + [decoded.value.id]);
            ids := ids + [decoded.value.id];
          }
        }
        if fault.None? {
          RepairStopPast(searchResult, l);
          l := l + 1;
        }
      }
    }

    /** Opens the scroll: saves the token header of the answer and returns its body. */
    method FirstScroll() returns (r: Outcome<Body>)
      modifies this`tokenResponse, store`log, store`cursor
      ensures store.log == old(store.log) + [Call(credential, OpenScroll(PAGE_SIZE))] && store.cursor == 1
      ensures store.scroll.token.None? ==> r == Raised(MissingScrollToken) && tokenResponse == old(tokenResponse)
      ensures store.scroll.token.Some? ==> r == Returned(PageAt(store.scroll.pages, 0)) && tokenResponse == store.scroll.token
    {
      var token, responseContent := store.Open(credential, PAGE_SIZE);
      if token.None? {
        return Raised(MissingScrollToken);
      }
      tokenResponse := token;
      return Returned(responseContent);
    }

    /** Continues the scroll with the saved token; the token itself is left as it is. */
    method SubScroll() returns (responseContent: Body)
      modifies store`log, store`cursor
      ensures store.log == old(store.log) + [Call(credential, ContinueScroll(tokenResponse))]
      ensures responseContent == PageAt(store.scroll.pages, old(store.cursor)) && store.cursor == old(store.cursor) + 1
      ensures tokenResponse == old(tokenResponse)
    {
      responseContent := store.Continue(credential, tokenResponse);
    }

    /** Scans the whole collection and materialises it. */
    method GetAllLists() returns (r: Outcome<seq<WishListDoc>>)
      modifies this`tokenResponse, store`log, store`schema, store`cursor
      ensures var run := Scan(store.scroll);
        store.log == old(store.log) + VerifyCalls(old(store.schema), authToken, schemaJson)
                     + ScrollCalls(credential, store.scroll.token, run.calls) &&
        store.cursor == run.calls &&
        r == match run.outcome
             case Raised(f) => Raised(f)
             case Returned(merged) => Returned(Listing(merged))
      ensures store.schema == AfterVerify(old(store.schema), schemaJson)
      ensures tokenResponse == if store.scroll.token.Some? then store.scroll.token else old(tokenResponse)
    {
      VerifySchema();
      ghost var verified := store.schema;
      ghost var start := store.log;
      ghost var pages := store.scroll.pages;
      var i := 0;
      var status := true;
      var searchResult: seq<Element> := [];
      assert start + ScrollCalls(credential, store.scroll.token, 0) == start;
      while status
        invariant i == 0 ==> status && tokenResponse == old(tokenResponse)
        invariant 1 <= i ==> store.scroll.token.Some? && tokenResponse == store.scroll.token
        invariant 1 <= i ==> PageAt(pages, 0).ArrayBody? && store.cursor == i
        invariant 1 <= i ==> if status then i <= LastPage(pages, 1) else i == LastPage(pages, 1) + 1
        invariant Parsed(pages, i) && searchResult == Merge(pages, i)
        invariant store.log == start + ScrollCalls(credential, store.scroll.token, i)
        invariant store.schema == verified
        decreases if status then LastPage(pages, 1) + 1 - i else 0
      {
        if i == 0 {
          var res := FirstScroll();
          if res.Raised? {
            return Raised(res.fault);
          }
          var resArray := ParseArray(res.value);
          if resArray.None? {
            return Raised(MalformedJson);
          }
          searchResult := searchResult + resArray.value;
        } else {
          var res := SubScroll();
          var resArray := ParseArray(res);
          if resArray.None? {
            return Raised(MalformedJson);
          }
          if |resArray.value| < PAGE_SIZE {
            status := false;
          }
          searchResult := searchResult + resArray.value;
        }
        assert Parsed(pages, i + 1);
        i := i + 1;
      }
      var wishLists := Materialize(searchResult);
      r := Returned(wishLists);
    }
  }
}
