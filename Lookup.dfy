/** The read-with-repair of `GetWishList`: a search by owner e-mail whose
    element 0 is the answer and whose later elements are deleted, one
    `DeleteWishList` each, up to the first element whose handling throws.

    The try block walks the search array in order. Element 0 is deserialised
    into the answer; a null deserialisation makes the answer itself null.
    Every later element is deserialised and its `Id` deleted; a null
    deserialisation there is a null dereference. The first exception leaves
    the loop; the catch block, and then a non-success status, overwrite the
    answer's `message` -- which raises in turn when the answer is null. */
module Lookup {
  import opened Documents
  import opened MasterData
  import opened SchemaGuard

  /** The exception handling element l of the search array raises, if any. */
  function StepFault(e: Element, first: bool): Option<Fault>
  {
    match e
    case Absent => Some(NullReference)
    case Present(p) =>
      match Deserialize(p)
      case DecodeFailed(reason) => Some(BadDocument(reason))
      case DecodedNull => if first then None else Some(NullReference)
      case Decoded(_) => None
  }

  /** The position of the first element, from `from` on, whose handling raises; |es| if none. */
  function RepairStop(es: seq<Element>, from: nat): (j: nat)
    requires from <= |es|
    ensures from <= j <= |es|
    ensures j < |es| ==> StepFault(es[j], j == 0).Some?
    ensures forall l :: from <= l < j ==> StepFault(es[l], l == 0).None?
    decreases |es| - from
  {
    if from == |es| then from
    else if StepFault(es[from], from == 0).Some? then from
    else RepairStop(es, from + 1)
  }

  /** The `Id` deleted for a duplicate; a later element handled without an
      exception always deserialises to a document. */
  function DuplicateId(e: Element): Option<string>
    requires HoldsDocument(e)
  {
    DocumentOf(e).id
  }

  /** The ids deleted while handling elements 1 to n - 1: each one's own `Id`, in order. */
  function Duplicates(es: seq<Element>, n: nat): seq<Option<string>>
    requires n <= RepairStop(es, 0)
  {
    if n <= 1 then [] else
      assert StepFault(es[n - 1], false).None?;
      Duplicates(es, n - 1) + [DuplicateId(es[n - 1])]
  }

  /** Handling elements 1 to n - 1 deletes each one's own id, in order, once. */
  lemma {:induction false} DuplicatesAreLaterIds(es: seq<Element>, n: nat)
    requires n <= RepairStop(es, 0)
    ensures forall l :: 1 <= l < n ==> HoldsDocument(es[l])
    ensures |Duplicates(es, n)| == if n == 0 then 0 else n - 1
    ensures forall j :: 0 <= j < |Duplicates(es, n)| ==> Duplicates(es, n)[j] == DuplicateId(es[j + 1])
  {
    if n > 1 {
      DuplicatesAreLaterIds(es, n - 1);
    }
  }

  /** `responseListWrapper` after the loop: the default wrapper until element 0 has
      been handled, then element 0 read as a wrapper (None: a null reference). */
  function Canonical(es: seq<Element>, handled: nat): Option<ResponseList>
    requires handled <= RepairStop(es, 0)
  {
    if handled == 0 then Some(DefaultResponse)
    else
      assert StepFault(es[0], true).None?;
      match Deserialize(es[0].payload)
      case Decoded(d) => Some(AsResponse(d))
      case _ => None
  }

  /** The state the try block leaves: the answer, the exception it was left by, the deletions it issued. */
  datatype TryExit = TryExit(found: Option<ResponseList>, fault: Option<Fault>, deleted: seq<Option<string>>)

  function TryBlock(body: Body): TryExit
  {
    match ParseArray(body)
    case None => TryExit(Some(DefaultResponse), Some(MalformedJson), [])
    case Some(es) =>
      var stop := RepairStop(es, 0);
      TryExit(Canonical(es, stop),
              if stop < |es| then StepFault(es[stop], stop == 0) else None,
              Duplicates(es, stop))
  }

  /** The catch block: the fault's message is written into the answer. */
  function AfterCatch(t: TryExit, body: Body): Outcome<Option<ResponseList>>
  {
    if t.fault.None? then Returned(t.found)
    else if t.found.None? then Raised(NullReference)
    else Returned(Some(t.found.value.(message := Some(ErrorNote(t.fault.value, body)))))
  }

  /** The status check: a non-success status overwrites the message. */
  function AfterStatus(o: Outcome<Option<ResponseList>>, reply: Reply): Outcome<Option<ResponseList>>
  {
    if reply.success then o
    else match o
      case Raised(f) => Raised(f)
      case Returned(None) => Raised(NullReference)
      case Returned(Some(w)) => Returned(Some(w.(message := Some(StatusNote(reply.status, reply.body)))))
  }

  /** What `GetWishList` returns for a search reply, once the owner id is non-empty. */
  function LookupOutcome(reply: Reply): Outcome<Option<ResponseList>>
  {
    AfterStatus(AfterCatch(TryBlock(reply.body), reply.body), reply)
  }

  /** The requests of one `DeleteWishList`: the schema check, then the DELETE. */
  function DeleteRound(credential: Option<string>, e: SchemaEndpoint, expected: string, id: Option<string>): seq<Call>
  {
    VerifyCalls(e, credential, expected) + [Call(credential, DeleteDocument(id))]
  }

  /** The requests of the deletions, one `DeleteWishList` per id. */
  function DeleteLog(credential: Option<string>, e: SchemaEndpoint, expected: string, ids: seq<Option<string>>): seq<Call>
  {
    if ids == [] then []
    else DeleteLog(credential, e, expected, ids[..|ids| - 1]) + DeleteRound(credential, e, expected, ids[|ids| - 1])
  }

  /** One more deletion appends its schema check and its DELETE to the log. */
  lemma DeleteLogSnoc(credential: Option<string>, e: SchemaEndpoint, expected: string, ids: seq<Option<string>>, id: Option<string>)
    ensures DeleteLog(credential, e, expected, ids + [id])
         == DeleteLog(credential, e, expected, ids) + DeleteRound(credential, e, expected, id)
  {
    assert (ids + [id])[..|ids|] == ids;
  }

  /** Handling element l without an exception moves the stop past it. */
  lemma RepairStopPast(es: seq<Element>, l: nat)
    requires l <= RepairStop(es, 0) && l < |es|
    requires StepFault(es[l], l == 0).None?
    ensures l + 1 <= RepairStop(es, 0)
  {
  }

  /** The ids of the DELETE requests in a call log, in order. */
  function Deletes(log: seq<Call>): seq<Option<string>>
  {
    if log == [] then []
    else Deletes(log[..|log| - 1]) + (if log[|log| - 1].request.DeleteDocument? then [log[|log| - 1].request.id] else [])
  }

  lemma {:induction false} DeletesAppend(a: seq<Call>, b: seq<Call>)
    ensures Deletes(a + b) == Deletes(a) + Deletes(b)
    decreases |b|
  {
    if b == [] {
      assert a + b == a;
    } else {
      var b' := b[..|b| - 1];
      assert (a + b)[..|a + b| - 1] == a + b';
      DeletesAppend(a, b');
    }
  }

  lemma VerifyDeletesNothing(e: SchemaEndpoint, credential: Option<string>, expected: string)
    ensures Deletes(VerifyCalls(e, credential, expected)) == []
  {
    var g := [Call(credential, GetSchema)];
    var p := if Drifted(e, expected) then [Call(credential, PutSchema(expected))] else [];
    DeletesAppend(g, p);
    assert g[..0] == [];
    if Drifted(e, expected) {
      assert p[..0] == [];
    }
  }

  /** The deletions issue exactly one DELETE per id, in order, and nothing else is deleted. */
  lemma {:induction false} DeleteLogDeletes(credential: Option<string>, e: SchemaEndpoint, expected: string, ids: seq<Option<string>>)
    ensures Deletes(DeleteLog(credential, e, expected, ids)) == ids
    decreases |ids|
  {
    if ids != [] {
      var front := ids[..|ids| - 1];
      var last := [Call(credential, DeleteDocument(ids[|ids| - 1]))];
      DeleteLogDeletes(credential, e, expected, front);
      DeletesAppend(DeleteLog(credential, e, expected, front), DeleteRound(credential, e, expected, ids[|ids| - 1]));
      DeletesAppend(VerifyCalls(e, credential, expected), last);
      VerifyDeletesNothing(e, credential, expected);
      assert last[..0] == [];
      assert front + [ids[|ids| - 1]] == ids;
    }
  }

  /** When every element of a successful search is a document, the answer is
      element 0 with no message, and every later element is deleted by its own
      id, in order; an empty result is the default wrapper with no deletion. */
  lemma SearchRepairsDuplicates(reply: Reply)
    requires reply.success && reply.body.ArrayBody?
    requires forall l :: 0 <= l < |reply.body.elements| ==> HoldsDocument(reply.body.elements[l])
    ensures var es := reply.body.elements;
      |TryBlock(reply.body).deleted| == (if |es| == 0 then 0 else |es| - 1) &&
      (forall j :: 0 <= j < |TryBlock(reply.body).deleted| ==>
         TryBlock(reply.body).deleted[j] == DuplicateId(es[j + 1])) &&
      LookupOutcome(reply) ==
        if |es| == 0 then Returned(Some(DefaultResponse))
        else Returned(Some(AsResponse(DocumentOf(es[0]))))
  {
    var es := reply.body.elements;
    forall l | 0 <= l < |es| ensures StepFault(es[l], l == 0).None? {
      assert HoldsDocument(es[l]);
    }
    assert RepairStop(es, 0) == |es|;
    DuplicatesAreLaterIds(es, |es|);
  }

  /** A non-success status always ends in the status message, overriding any
      parse or deserialisation message; the only alternative is the null
      reference raised exactly when the answer is null, which happens when
      element 0 is JSON `null`. */
  lemma StatusOverridesMessage(reply: Reply)
    requires !reply.success
    ensures match LookupOutcome(reply)
      case Returned(r) => r.Some? && r.value.message == Some(StatusNote(reply.status, reply.body))
      case Raised(f) => f == NullReference
    ensures LookupOutcome(reply).Raised? <==> TryBlock(reply.body).found.None?
  {
  }

  /** A body that is not an array deletes nothing and answers the default
      wrapper carrying the parse error, or the status message on a failed call. */
  lemma MalformedSearchDeletesNothing(reply: Reply)
    requires reply.body.OtherBody?
    ensures TryBlock(reply.body).deleted == []
    ensures LookupOutcome(reply) == Returned(Some(DefaultResponse.(message := Some(
      if reply.success then ErrorNote(MalformedJson, reply.body) else StatusNote(reply.status, reply.body)))))
  {
  }

  /** No element after the first one whose handling raises is deleted. */
  lemma DeletionsStopAtFault(reply: Reply, j: nat)
    requires reply.body.ArrayBody? && j < |reply.body.elements|
    requires StepFault(reply.body.elements[j], j == 0).Some?
    ensures |TryBlock(reply.body).deleted| < if j == 0 then 1 else j
  {
    var stop := RepairStop(reply.body.elements, 0);
    assert stop <= j;
    DuplicatesAreLaterIds(reply.body.elements, stop);
  }
}
