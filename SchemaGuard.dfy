/** The schema check (`VerifySchema`), run at construction and at the start
    of every repository operation except a `GetWishList` for a null or empty
    owner id, which returns before it. It reads the stored schema; when the
    read succeeds and the text is not exactly the compiled-in schema, it
    writes the compiled-in schema back; when the read fails, it does nothing.
    The functions here say which requests one check issues and what it leaves
    in the store. */
module SchemaGuard {
  import opened Documents
  import opened MasterData

  /** The check finds the stored schema readable and different from the expected text. */
  predicate Drifted(e: SchemaEndpoint, expected: string)
  {
    e.readable && e.text != expected
  }

  /** The requests one check issues: the GET, then a PUT of the expected text on drift. */
  function VerifyCalls(e: SchemaEndpoint, credential: Option<string>, expected: string): seq<Call>
  {
    [Call(credential, GetSchema)] + if Drifted(e, expected) then [Call(credential, PutSchema(expected))] else []
  }

  /** The schema endpoint after one check. */
  function AfterVerify(e: SchemaEndpoint, expected: string): SchemaEndpoint
  {
    if Drifted(e, expected) && e.writable then e.(text := expected) else e
  }

  /** The bodies of the schema PUTs in a call log, in order. */
  function Puts(log: seq<Call>): seq<string>
  {
    if log == [] then []
    else Puts(log[..|log| - 1]) + (if log[|log| - 1].request.PutSchema? then [log[|log| - 1].request.body] else [])
  }

  lemma {:induction false} PutsAppend(a: seq<Call>, b: seq<Call>)
    ensures Puts(a + b) == Puts(a) + Puts(b)
    decreases |b|
  {
    if b == [] {
      assert a + b == a;
    } else {
      var b' := b[..|b| - 1];
      assert (a + b)[..|a + b| - 1] == a + b';
      PutsAppend(a, b');
    }
  }

  /** One check issues a GET first, and PUTs the expected text exactly when the
      stored schema was readable and different from it. */
  lemma VerifyPutsOnDriftOnly(e: SchemaEndpoint, credential: Option<string>, expected: string)
    ensures VerifyCalls(e, credential, expected)[0] == Call(credential, GetSchema)
    ensures Puts(VerifyCalls(e, credential, expected)) == if Drifted(e, expected) then [expected] else []
  {
    var g := [Call(credential, GetSchema)];
    var p := if Drifted(e, expected) then [Call(credential, PutSchema(expected))] else [];
    PutsAppend(g, p);
    assert Puts(g) == [] by { assert g[..0] == []; }
    if Drifted(e, expected) {
      assert p[..0] == [];
    }
  }

  /** After a check, a second check changes nothing more. */
  lemma VerifyIdempotent(e: SchemaEndpoint, expected: string)
    ensures AfterVerify(AfterVerify(e, expected), expected) == AfterVerify(e, expected)
  {
  }

  /** Two checks in a row against a writable store issue at most one PUT, and
      none when the first check already found the expected text. */
  lemma {:induction false} SecondVerifyDoesNotPut(e: SchemaEndpoint, credential: Option<string>, expected: string)
    requires e.writable
    ensures Puts(VerifyCalls(AfterVerify(e, expected), credential, expected)) == []
    ensures Puts(VerifyCalls(e, credential, expected) + VerifyCalls(AfterVerify(e, expected), credential, expected))
            == if Drifted(e, expected) then [expected] else []
  {
    var e1 := AfterVerify(e, expected);
    assert !Drifted(e1, expected);
    VerifyPutsOnDriftOnly(e, credential, expected);
    VerifyPutsOnDriftOnly(e1, credential, expected);
    PutsAppend(VerifyCalls(e, credential, expected), VerifyCalls(e1, credential, expected));
  }

  /** A store whose schema cannot be read is left alone: no PUT, nothing changed. */
  lemma UnreadableSchemaIsLeftAlone(e: SchemaEndpoint, credential: Option<string>, expected: string)
    requires !e.readable
    ensures VerifyCalls(e, credential, expected) == [Call(credential, GetSchema)]
    ensures AfterVerify(e, expected) == e
  {
  }
}
