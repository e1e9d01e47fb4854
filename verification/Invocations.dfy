/**
 Acceptance of contract invocations: a client chooses the invocation id, and the store
 keeps the first request under each id. A later request under the same id is a retry if
 it asks for the same thing, and a conflict otherwise.
 */
module Invocations {
  import opened Wrappers
  import opened JsonValues
  import opened CanonicalJson
  import opened ContractServer

  datatype Fingerprint = Fingerprint(invocationId: Text, identity: Text, wireVersion: Text, inputHash: Text)

  datatype ConflictReason = ContractIdentityMismatch | WireVersionMismatch | CanonicalInputMismatch

  datatype Rejection =
    | MissingRegistration
    | InputRejected
    | Unauthorized
    | InvocationUnauthorized
    | InvocationConflict(reason: ConflictReason)

  datatype Row = Row(ownerKey: Text, fingerprint: Fingerprint, workflowName: Text, input: Json)

  type Rows = rows: map<Text, Row> | forall id :: id in rows ==> rows[id].fingerprint.invocationId == id witness map[]

  datatype RunReference = RunReference(identity: Text, wireVersion: Text, invocationId: Text)

  /** The first difference between the stored and the requested fingerprint of one invocation. */
  function ValidateInvocationReuse(existing: Fingerprint, requested: Fingerprint): (r: Result<(), Rejection>)
    ensures existing.invocationId == requested.invocationId ==> (r.Success? <==> existing == requested)
    ensures existing.invocationId != requested.invocationId ==> r.Success?
    ensures r.Failure? ==> r.error.InvocationConflict?
    ensures r.Failure? ==>
              match r.error.reason
              case ContractIdentityMismatch => existing.identity != requested.identity
              case WireVersionMismatch => existing.identity == requested.identity && existing.wireVersion != requested.wireVersion
              case CanonicalInputMismatch =>
                && existing.identity == requested.identity && existing.wireVersion == requested.wireVersion
                && existing.inputHash != requested.inputHash
  {
    if existing.invocationId != requested.invocationId then Success(())
    else if existing.identity != requested.identity then Failure(InvocationConflict(ContractIdentityMismatch))
    else if existing.wireVersion != requested.wireVersion then Failure(InvocationConflict(WireVersionMismatch))
    else if existing.inputHash != requested.inputHash then Failure(InvocationConflict(CanonicalInputMismatch))
    else Success(())
  }

  /** The invocation table, one row per invocation id. */
  class InvocationStore {
    var rows: Rows

    constructor ()
      ensures rows == map[]
    {
      rows := map[];
    }

    /** One statement: insert the row, or read the row that the same owner inserted earlier. */
    method Enqueue(row: Row) returns (result: Result<Fingerprint, Rejection>)
      modifies this
      ensures rows == Stored(old(rows), row)
      ensures result == (if row.ownerKey == rows[row.fingerprint.invocationId].ownerKey
                         then Success(rows[row.fingerprint.invocationId].fingerprint)
                         else Failure(InvocationUnauthorized))
    {
      var id := row.fingerprint.invocationId;
      if id !in rows {
        rows := rows[id := row];
        return Success(row.fingerprint);
      }
      if rows[id].ownerKey != row.ownerKey {
        return Failure(InvocationUnauthorized);
      }
      return Success(rows[id].fingerprint);
    }
  }

  function Stored(rows: Rows, row: Row): (after: Rows)
    ensures row.fingerprint.invocationId in after
    ensures forall id :: id in rows ==> id in after && after[id] == rows[id]
    ensures forall id :: id in after ==> id in rows || id == row.fingerprint.invocationId
  {
    if row.fingerprint.invocationId in rows then rows else rows[row.fingerprint.invocationId := row]
  }

  /** A request whose input has been decoded, authorized and encoded again. */
  datatype Request = Request(ownerKey: Text, contractIdentity: Text, wireVersion: Text, invocationId: Text, input: Json)

  function RowOf(hash: Text -> Text, request: Request): Row {
    Row(request.ownerKey,
        Fingerprint(request.invocationId, request.contractIdentity, request.wireVersion, hash(StableJson(request.input))),
        StableJson(KeyValue(request.contractIdentity, request.wireVersion)),
        request.input)
  }

  /** What the store and the check of reuse answer to a request. */
  function Answer(hash: Text -> Text, rows: Rows, request: Request): Result<RunReference, Rejection> {
    var row := RowOf(hash, request);
    var kept := Stored(rows, row)[request.invocationId];
    if kept.ownerKey != request.ownerKey then Failure(InvocationUnauthorized)
    else match ValidateInvocationReuse(kept.fingerprint, row.fingerprint)
         case Failure(error) => Failure(error)
         case Success(_) => Success(RunReference(request.contractIdentity, request.wireVersion, request.invocationId))
  }

  /** The checks of one registration: input schema in both directions and authorization. */
  datatype Checks = Checks(decode: Json -> Option<Json>, authorize: (Text, Json) -> bool, encode: Json -> Option<Json>)

  /** The transport handler over a validated set of registrations. */
  class TransportHandler {
    const registrations: map<Text, Registration>
    const hash: Text -> Text
    const store: InvocationStore

    constructor (registrations: map<Text, Registration>, hash: Text -> Text, store: InvocationStore)
      ensures this.registrations == registrations && this.hash == hash && this.store == store
    {
      this.registrations, this.hash, this.store := registrations, hash, store;
    }

    /** A request that fails a check before the store leaves the store as it was. */
    method Enqueue(contract: Contract, ownerKey: Text, invocationId: Text, input: Json, checks: Checks)
      returns (result: Result<RunReference, Rejection>)
      modifies store
      ensures var decoded := checks.decode(input);
              var blocked :=
                if ContractKey(contract) !in registrations then Some(Rejection.MissingRegistration)
                else if decoded.None? then Some(InputRejected)
                else if !checks.authorize(ownerKey, decoded.value) then Some(Unauthorized)
                else if checks.encode(decoded.value).None? then Some(InputRejected)
                else None;
              if blocked.Some? then result == Failure(blocked.value) && store.rows == old(store.rows)
              else
                var request := Request(ownerKey, contract.identity, contract.wireVersion, invocationId,
                                       checks.encode(decoded.value).value);
                && result == Answer(hash, old(store.rows), request)
                && store.rows == Stored(old(store.rows), RowOf(hash, request))
    {
      if ContractKey(contract) !in registrations {
        return Failure(Rejection.MissingRegistration);
      }
      var decoded := checks.decode(input);
      if decoded.None? {
        return Failure(InputRejected);
      }
      if !checks.authorize(ownerKey, decoded.value) {
        return Failure(Unauthorized);
      }
      var encoded := checks.encode(decoded.value);
      if encoded.None? {
        return Failure(InputRejected);
      }
      var requested := Fingerprint(invocationId, contract.identity, contract.wireVersion, hash(StableJson(encoded.value)));
      var accepted := store.Enqueue(Row(ownerKey, requested, ContractKey(contract), encoded.value));
      if accepted.Failure? {
        return Failure(accepted.error);
      }
      var reuse := ValidateInvocationReuse(accepted.value, requested);
      if reuse.Failure? {
        return Failure(reuse.error);
      }
      return Success(RunReference(contract.identity, contract.wireVersion, invocationId));
    }
  }

  // ------------------------------------------------------------- whole histories

  /** The table after a history of requests. */
  function RowsAfter(hash: Text -> Text, requests: seq<Request>): Rows {
    if requests == [] then map[]
    else Stored(RowsAfter(hash, requests[..|requests| - 1]), RowOf(hash, requests[|requests| - 1]))
  }

  /** The first request under an id, if any carries it. */
  function First(requests: seq<Request>, id: Text): (first: Option<nat>)
    ensures first.Some? ==> first.value < |requests| && requests[first.value].invocationId == id
    ensures forall j :: 0 <= j < (if first.Some? then first.value else |requests|) ==> requests[j].invocationId != id
  {
    if requests == [] then None
    else
      var n := |requests| - 1;
      var earlier := First(requests[..n], id);
      if earlier.Some? then earlier else if requests[n].invocationId == id then Some(n) else None
  }

  /** The table holds the first request under every id, whatever came later. */
  lemma {:induction false} FirstWriterWins(hash: Text -> Text, requests: seq<Request>, id: Text)
    ensures id in RowsAfter(hash, requests) <==> First(requests, id).Some?
    ensures First(requests, id).Some? ==> RowsAfter(hash, requests)[id] == RowOf(hash, requests[First(requests, id).value])
  {
    if requests != [] {
      FirstWriterWins(hash, requests[..|requests| - 1], id);
    }
  }

  /** The digest assumed of the hash: distinct well formed UTF-16 texts have distinct hashes. */
  ghost predicate CollisionFree(hash: Text -> Text) {
    forall a, b :: Paired(a) && Paired(b) && hash(a) == hash(b) ==> a == b
  }

  lemma HashDecides(hash: Text -> Text, a: Json, b: Json)
    requires CollisionFree(hash) && WellFormed(a) && WellFormed(b)
    ensures hash(StableJson(a)) == hash(StableJson(b)) <==> Meaning(a) == Meaning(b)
  {
    StableJsonPaired(a);
    StableJsonPaired(b);
    StableJsonIsCanonical(a, b);
  }

  /** The members of an object have distinct keys, as in every JavaScript object. */
  predicate Sound(request: Request) {
    WellFormed(request.input)
  }

  predicate AllSound(requests: seq<Request>) {
    forall i :: 0 <= i < |requests| ==> Sound(requests[i])
  }

  /** Two requests ask for the same thing. */
  predicate Equivalent(a: Request, b: Request)
    requires Sound(a) && Sound(b)
  {
    && a.ownerKey == b.ownerKey && a.contractIdentity == b.contractIdentity && a.wireVersion == b.wireVersion
    && Meaning(a.input) == Meaning(b.input)
  }

  /** The request asks for the same thing as the first one under its id, if there is one. */
  predicate AgreesWithFirst(requests: seq<Request>, request: Request)
    requires AllSound(requests) && Sound(request)
  {
    var first := First(requests, request.invocationId);
    first.Some? ==> Equivalent(requests[first.value], request)
  }

  lemma AnswerDecides(hash: Text -> Text, rows: Rows, kept: Request, request: Request)
    requires CollisionFree(hash) && Sound(kept) && Sound(request)
    requires request.invocationId in rows && rows[request.invocationId] == RowOf(hash, kept)
    ensures Answer(hash, rows, request).Success? <==> Equivalent(kept, request)
  {
    HashDecides(hash, kept.input, request.input);
  }

  lemma FirstDecides(hash: Text -> Text, rows: Rows, requests: seq<Request>, request: Request, first: Option<nat>)
    requires CollisionFree(hash) && Sound(request)
    requires first.Some? ==> first.value < |requests| && Sound(requests[first.value])
    requires request.invocationId in rows <==> first.Some?
    requires first.Some? ==> rows[request.invocationId] == RowOf(hash, requests[first.value])
    ensures Answer(hash, rows, request).Success? <==> first.None? || Equivalent(requests[first.value], request)
  {
    if first.Some? {
      AnswerDecides(hash, rows, requests[first.value], request);
    }
  }

  /**
   After any history, a request is accepted exactly when its id is new, or when it asks for
   the same thing as the first request under that id: the same owner, contract and wire
   version, and the same input up to the order of object members.
   */
  lemma ReuseAcceptedExactly(hash: Text -> Text, requests: seq<Request>, rows: Rows, request: Request)
    requires CollisionFree(hash) && Sound(request) && AllSound(requests)
    requires rows == RowsAfter(hash, requests)
    ensures Answer(hash, rows, request).Success? <==> AgreesWithFirst(requests, request)
  {
    FirstWriterWins(hash, requests, request.invocationId);
    FirstDecides(hash, rows, requests, request, First(requests, request.invocationId));
  }

  /** Which rejection a request meets, by the first request under its id, and what a success refers to. */
  predicate Explains(first: Request, request: Request, answer: Result<RunReference, Rejection>)
    requires Sound(first) && Sound(request)
  {
    if first.ownerKey != request.ownerKey then answer == Failure(InvocationUnauthorized)
    else if first.contractIdentity != request.contractIdentity then answer == Failure(InvocationConflict(ContractIdentityMismatch))
    else if first.wireVersion != request.wireVersion then answer == Failure(InvocationConflict(WireVersionMismatch))
    else if Meaning(first.input) != Meaning(request.input) then answer == Failure(InvocationConflict(CanonicalInputMismatch))
    else answer == Success(RunReference(first.contractIdentity, first.wireVersion, first.invocationId))
  }

  lemma KeptExplains(hash: Text -> Text, rows: Rows, kept: Request, request: Request)
    requires CollisionFree(hash) && Sound(kept) && Sound(request) && kept.invocationId == request.invocationId
    requires request.invocationId in rows && rows[request.invocationId] == RowOf(hash, kept)
    ensures Explains(kept, request, Answer(hash, rows, request))
  {
    HashDecides(hash, kept.input, request.input);
  }

  /**
   The answer after any history. A request under a new id is accepted with a reference to
   itself; under a known id the first difference from the first request under it, in the
   order of owner, contract, wire version and input, is the reason of the rejection.
   */
  lemma AnswerExplained(hash: Text -> Text, requests: seq<Request>, request: Request)
    requires CollisionFree(hash) && Sound(request) && AllSound(requests)
    ensures var (first, answer) := (First(requests, request.invocationId), Answer(hash, RowsAfter(hash, requests), request));
            if first.None? then answer == Success(RunReference(request.contractIdentity, request.wireVersion, request.invocationId))
            else Explains(requests[first.value], request, answer)
  {
    var first := First(requests, request.invocationId);
    FirstWriterWins(hash, requests, request.invocationId);
    if first.Some? {
      KeptExplains(hash, RowsAfter(hash, requests), requests[first.value], request);
    }
  }

  lemma FirstOfPrefix(requests: seq<Request>, id: Text, n: nat)
    requires n < |requests| && requests[n].invocationId == id
    ensures First(requests, id) == if First(requests[..n], id).Some? then First(requests[..n], id) else Some(n)
  {
    var (f, g) := (First(requests[..n], id), First(requests, id));
    assert f.Some? ==> requests[f.value].invocationId == id;
    assert g.value < n ==> requests[..n][g.value] == requests[g.value];
  }

  lemma AgreesInWhole(requests: seq<Request>, n: nat)
    requires AllSound(requests) && n < |requests| && AgreesWithFirst(requests[..n], requests[n])
    ensures First(requests, requests[n].invocationId).Some? && AgreesWithFirst(requests, requests[n])
  {
    FirstOfPrefix(requests, requests[n].invocationId, n);
  }

  /** Every request accepted at any moment of a history asked for the same thing as the first under its id. */
  lemma AcceptedAgreesWithFirst(hash: Text -> Text, requests: seq<Request>, earlier: seq<Request>, request: Request, rows: Rows)
    requires CollisionFree(hash) && AllSound(requests) && AllSound(earlier) && Sound(request)
    requires earlier + [request] <= requests
    requires rows == RowsAfter(hash, earlier) && Answer(hash, rows, request).Success?
    ensures First(requests, request.invocationId).Some? && AgreesWithFirst(requests, request)
  {
    ReuseAcceptedExactly(hash, earlier, rows, request);
    assert requests[..|earlier|] == earlier && requests[|earlier|] == request;
    AgreesInWhole(requests, |earlier|);
  }
}
