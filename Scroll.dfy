/** The full-collection scan of `GetAllLists`: one opening scroll call, then
    continuation calls until a continuation page holds fewer than
    `PAGE_SIZE` elements, every page merged onto the end of one array; and
    the listing built from that array afterwards.

    The first page is never size-checked: even a short first page is followed
    by a continuation call. A page that is not a JSON array raises out of the
    scan, as does an opening answer without a token header. */
module Scroll {
  import opened Documents
  import opened MasterData

  /** The `_size` of the opening call and the short-page threshold. */
  const PAGE_SIZE: nat := 200

  /** A continuation page that ends the loop: short, or raising before the size check. */
  predicate EndsScan(b: Body)
  {
    b.OtherBody? || |b.elements| < PAGE_SIZE
  }

  /** The position of the continuation page the scan stops at: the first one from
      `from` on that ends it. It exists because past the stored pages the store
      serves empty arrays. */
  function LastPage(pages: seq<Body>, from: nat): (k: nat)
    requires 1 <= from
    ensures from <= k
    ensures EndsScan(PageAt(pages, k))
    ensures forall j :: from <= j < k ==> !EndsScan(PageAt(pages, j))
    ensures k <= from || k <= |pages|
    decreases |pages| - from
  {
    if EndsScan(PageAt(pages, from)) then from else LastPage(pages, from + 1)
  }

  /** Pages 0 to n - 1 all parse as arrays. */
  predicate Parsed(pages: seq<Body>, n: nat)
  {
    forall j :: 0 <= j < n ==> PageAt(pages, j).ArrayBody?
  }

  /** `searchResult` after pages 0 to n - 1 have been merged onto an empty array. */
  function Merge(pages: seq<Body>, n: nat): seq<Element>
    requires Parsed(pages, n)
  {
    if n == 0 then [] else Merge(pages, n - 1) + PageAt(pages, n - 1).elements
  }

  /** The elements of a list of array bodies, first body first. */
  function Concat(bs: seq<Body>): seq<Element>
    requires forall j :: 0 <= j < |bs| ==> bs[j].ArrayBody?
  {
    if bs == [] then [] else bs[0].elements + Concat(bs[1..])
  }

  /** How a scan ends: the number of scroll calls it issued and what it returned or raised. */
  datatype ScanRun = ScanRun(calls: nat, outcome: Outcome<seq<Element>>)

  /** The scan of a scroll endpoint. */
  function Scan(s: ScrollEndpoint): ScanRun
  {
    if s.token.None? then ScanRun(1, Raised(MissingScrollToken))
    else if PageAt(s.pages, 0).OtherBody? then ScanRun(1, Raised(MalformedJson))
    else
      var k := LastPage(s.pages, 1);
      if PageAt(s.pages, k).OtherBody? then ScanRun(k + 1, Raised(MalformedJson))
      else ScanRun(k + 1, Returned(Merge(s.pages, k + 1)))
  }

  /** The scroll requests of a scan that issued n calls: the opening call, then
      continuation calls carrying `token`. */
  function ScrollCalls(credential: Option<string>, token: Option<string>, n: nat): seq<Call>
  {
    if n == 0 then []
    else if n == 1 then [Call(credential, OpenScroll(PAGE_SIZE))]
    else ScrollCalls(credential, token, n - 1) + [Call(credential, ContinueScroll(token))]
  }

  /** A scan's log is one opening call with `_size=200` followed only by
      continuation calls, every one of them with the same token. */
  lemma {:induction false} ScrollCallsShape(credential: Option<string>, token: Option<string>, n: nat)
    requires 1 <= n
    ensures |ScrollCalls(credential, token, n)| == n
    ensures ScrollCalls(credential, token, n)[0] == Call(credential, OpenScroll(PAGE_SIZE))
    ensures forall j :: 1 <= j < n ==> ScrollCalls(credential, token, n)[j] == Call(credential, ContinueScroll(token))
  {
    if n > 1 {
      ScrollCallsShape(credential, token, n - 1);
    }
  }

  /** A scan that returns has made at least one continuation call, stopped at
      the first short continuation page, included that page, and returned the
      pages it read merged in order. */
  lemma ScanStopsAtFirstShortPage(s: ScrollEndpoint)
    requires Scan(s).outcome.Returned?
    ensures 2 <= Scan(s).calls
    ensures var k := Scan(s).calls - 1;
      Parsed(s.pages, k + 1) &&
      |PageAt(s.pages, k).elements| < PAGE_SIZE &&
      (forall j :: 1 <= j < k ==> |PageAt(s.pages, j).elements| >= PAGE_SIZE) &&
      Scan(s).outcome.value == Merge(s.pages, k + 1)
  {
    var k := LastPage(s.pages, 1);
    forall j | 0 <= j < k + 1 ensures PageAt(s.pages, j).ArrayBody? {
      if 1 <= j < k { assert !EndsScan(PageAt(s.pages, j)); }
    }
  }

  /** A scan raises when and only when the opening answer has no token or one of
      the pages it reads is not an array; then it never makes another call. A
      missing token raises on the opening call, before its page is parsed; with
      a token, what is raised is the parse error. */
  lemma ScanRaisesOnMalformedPage(s: ScrollEndpoint)
    ensures Scan(s).outcome.Raised? <==>
      s.token.None? || exists j {:trigger PageAt(s.pages, j)} :: 0 <= j < Scan(s).calls && PageAt(s.pages, j).OtherBody?
    ensures Scan(s).outcome.Raised? ==>
      Scan(s).calls == 1 || PageAt(s.pages, Scan(s).calls - 1).OtherBody?
    ensures s.token.None? ==> Scan(s) == ScanRun(1, Raised(MissingScrollToken))
    ensures s.token.Some? && Scan(s).outcome.Raised? ==> Scan(s).outcome.fault == MalformedJson
  {
    if s.token.Some? && PageAt(s.pages, 0).ArrayBody? {
      var k := LastPage(s.pages, 1);
      if PageAt(s.pages, k).ArrayBody? {
        forall j | 0 <= j < k + 1 ensures PageAt(s.pages, j).ArrayBody? {
          if 1 <= j < k { assert !EndsScan(PageAt(s.pages, j)); }
        }
      }
    }
  }

  lemma {:induction false} ConcatSnoc(bs: seq<Body>, b: Body)
    requires forall j :: 0 <= j < |bs| ==> bs[j].ArrayBody?
    requires b.ArrayBody?
    ensures Concat(bs + [b]) == Concat(bs) + b.elements
  {
    if bs == [] {
      assert [b][1..] == [];
    } else {
      assert (bs + [b])[1..] == bs[1..] + [b];
      ConcatSnoc(bs[1..], b);
    }
  }

  /** Merging the first n pages is concatenating them. */
  lemma {:induction false} MergeIsConcat(pages: seq<Body>, n: nat)
    requires n <= |pages|
    requires Parsed(pages, n)
    ensures forall j :: 0 <= j < n ==> pages[..n][j].ArrayBody?
    ensures Merge(pages, n) == Concat(pages[..n])
  {
    assert forall j :: 0 <= j < n ==> pages[..n][j] == PageAt(pages, j);
    if n > 0 {
      MergeIsConcat(pages, n - 1);
      assert pages[..n] == pages[..n - 1] + [pages[n - 1]];
      ConcatSnoc(pages[..n - 1], pages[n - 1]);
    }
  }

  /** When every stored page is an array and every one between the first and the
      last is full, the scan returns all stored elements in order. It issues one
      call per page when the last page is a short continuation page, and one
      more, answered by an empty array, otherwise. */
  lemma ScanReadsAllPages(s: ScrollEndpoint)
    requires s.token.Some? && 1 <= |s.pages|
    requires forall j :: 0 <= j < |s.pages| ==> s.pages[j].ArrayBody?
    requires forall j :: 1 <= j < |s.pages| - 1 ==> |s.pages[j].elements| >= PAGE_SIZE
    ensures Scan(s).outcome == Returned(Concat(s.pages))
    ensures Scan(s).calls ==
      if 2 <= |s.pages| && |s.pages[|s.pages| - 1].elements| < PAGE_SIZE then |s.pages| else |s.pages| + 1
  {
    var n := |s.pages|;
    if 2 <= n && |s.pages[n - 1].elements| < PAGE_SIZE {
      LastPageIs(s.pages, 1, n - 1);
      MergeIsConcat(s.pages, n);
      assert s.pages[..n] == s.pages;
    } else {
      LastPageIs(s.pages, 1, n);
      MergeIsConcat(s.pages, n);
      assert s.pages[..n] == s.pages;
      assert Parsed(s.pages, n + 1);
      assert Merge(s.pages, n + 1) == Merge(s.pages, n) + [];
      assert Merge(s.pages, n) + [] == Merge(s.pages, n);
    }
  }

  /** Pages of 200, 200 and 150 elements: three calls, 550 elements, in page order. */
  lemma ThreePageScan(p0: seq<Element>, p1: seq<Element>, p2: seq<Element>, token: string)
    requires |p0| == PAGE_SIZE && |p1| == PAGE_SIZE && |p2| == 150
    ensures var run := Scan(ScrollEndpoint([ArrayBody(p0), ArrayBody(p1), ArrayBody(p2)], Some(token)));
      run.calls == 3 && run.outcome == Returned(p0 + p1 + p2) && |run.outcome.value| == 550
  {
    var pages := [ArrayBody(p0), ArrayBody(p1), ArrayBody(p2)];
    ScanReadsAllPages(ScrollEndpoint(pages, Some(token)));
    assert pages[1..] == [ArrayBody(p1), ArrayBody(p2)];
    assert pages[1..][1..] == [ArrayBody(p2)];
    assert Concat([ArrayBody(p2)]) == p2 by { assert [ArrayBody(p2)][1..] == []; }
    assert Concat(pages) == p0 + (p1 + p2);
    assert p0 + (p1 + p2) == p0 + p1 + p2;
  }

  /** Pages of 200, 200, 200 and 0 elements: the empty page ends the scan after four calls. */
  lemma EmptyLastPageEndsScan(p0: seq<Element>, p1: seq<Element>, p2: seq<Element>, token: string)
    requires |p0| == PAGE_SIZE && |p1| == PAGE_SIZE && |p2| == PAGE_SIZE
    ensures var run := Scan(ScrollEndpoint([ArrayBody(p0), ArrayBody(p1), ArrayBody(p2), ArrayBody([])], Some(token)));
      run.calls == 4 && run.outcome == Returned(p0 + p1 + p2)
  {
    var pages := [ArrayBody(p0), ArrayBody(p1), ArrayBody(p2), ArrayBody([])];
    ScanReadsAllPages(ScrollEndpoint(pages, Some(token)));
    assert pages[1..] == [ArrayBody(p1), ArrayBody(p2), ArrayBody([])];
    assert pages[1..][1..] == [ArrayBody(p2), ArrayBody([])];
    assert pages[1..][1..][1..] == [ArrayBody([])];
    assert Concat([ArrayBody([])]) == [] by { assert [ArrayBody([])][1..] == []; }
    assert Concat(pages[1..][1..]) == p2 by { assert p2 + [] == p2; }
    assert Concat(pages) == p0 + (p1 + p2);
    assert p0 + (p1 + p2) == p0 + p1 + p2;
  }

  /** A short first page is still followed by one continuation call. */
  lemma ShortFirstPageStillContinues(p0: seq<Element>, token: string)
    requires |p0| < PAGE_SIZE
    ensures var run := Scan(ScrollEndpoint([ArrayBody(p0)], Some(token)));
      run.calls == 2 && run.outcome == Returned(p0)
  {
    var pages := [ArrayBody(p0)];
    ScanReadsAllPages(ScrollEndpoint(pages, Some(token)));
    assert pages[1..] == [];
    assert Concat(pages) == p0 by { assert p0 + [] == p0; }
  }

  /** The scan stops at page m when m is the first page from `from` on that ends it. */
  lemma {:induction false} LastPageIs(pages: seq<Body>, from: nat, m: nat)
    requires 1 <= from <= m
    requires EndsScan(PageAt(pages, m))
    requires forall j :: from <= j < m ==> !EndsScan(PageAt(pages, j))
    ensures LastPage(pages, from) == m
    decreases m - from
  {
    if from < m {
      LastPageIs(pages, from + 1, m);
    }
  }

  // ---- the listing built from the merged array ----

  /** Materialising this element throws: deserialisation fails. */
  predicate Throws(e: Element)
  {
    e.Present? && Deserialize(e.payload).DecodeFailed?
  }

  /** What materialising one element adds: nothing for a null slot or a null deserialisation. */
  function Kept(e: Element): seq<WishListDoc>
  {
    if HoldsDocument(e) then [DocumentOf(e)] else []
  }

  /** The documents added while materialising `es` with no exception. */
  function KeptAll(es: seq<Element>): seq<WishListDoc>
  {
    if es == [] then [] else KeptAll(es[..|es| - 1]) + Kept(es[|es| - 1])
  }

  /** The position of the first element whose deserialisation throws, |es| if none. */
  function FirstThrow(es: seq<Element>, from: nat): (j: nat)
    requires from <= |es|
    ensures from <= j <= |es|
    ensures j < |es| ==> Throws(es[j])
    ensures forall i :: from <= i < j ==> !Throws(es[i])
    decreases |es| - from
  {
    if from == |es| then from
    else if Throws(es[from]) then from
    else FirstThrow(es, from + 1)
  }

  /** `WishLists` after the materialising loop: the documents of the elements
      before the first failing one (the exception is caught and the loop left). */
  function Listing(es: seq<Element>): seq<WishListDoc>
  {
    KeptAll(es[..FirstThrow(es, 0)])
  }

  /** When every element deserialises to a document, the listing holds all of
      them, in order. */
  lemma {:induction false} ListingOfCleanArray(es: seq<Element>)
    requires forall i :: 0 <= i < |es| ==> es[i].Present? && es[i].payload.DocJson?
    ensures |Listing(es)| == |es|
    ensures forall i :: 0 <= i < |es| ==> Listing(es)[i] == es[i].payload.doc
  {
    assert FirstThrow(es, 0) == |es|;
    assert es[..|es|] == es;
    KeptAllClean(es);
  }

  lemma {:induction false} KeptAllClean(es: seq<Element>)
    requires forall i :: 0 <= i < |es| ==> es[i].Present? && es[i].payload.DocJson?
    ensures |KeptAll(es)| == |es|
    ensures forall i :: 0 <= i < |es| ==> KeptAll(es)[i] == es[i].payload.doc
  {
    if es != [] {
      KeptAllClean(es[..|es| - 1]);
    }
  }

  /** Once an element fails to deserialise, nothing after it reaches the
      listing: appending more elements does not change it. */
  lemma ListingIgnoresTail(es: seq<Element>, rest: seq<Element>)
    requires exists j :: 0 <= j < |es| && Throws(es[j])
    ensures Listing(es + rest) == Listing(es)
  {
    var j := FirstThrow(es, 0);
    var all := es + rest;
    FirstThrowPrefix(es, rest, 0);
    assert all[..j] == es[..j];
  }

  lemma {:induction false} FirstThrowPrefix(es: seq<Element>, rest: seq<Element>, from: nat)
    requires from <= |es|
    requires FirstThrow(es, from) < |es|
    ensures FirstThrow(es + rest, from) == FirstThrow(es, from)
    decreases |es| - from
  {
    assert (es + rest)[from] == es[from];
    if !Throws(es[from]) {
      FirstThrowPrefix(es, rest, from + 1);
    }
  }
}
