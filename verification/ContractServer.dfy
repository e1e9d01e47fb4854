/**
 The server side of published workflow contracts: startup validation of the
 registrations, and the acceptance of invocations under client-chosen ids.
 */
module ContractServer {
  import opened Wrappers
  import opened JsonValues
  import opened JsonStrings
  import opened CanonicalJson

  /** A published declaration; two declarations are the same only if they are one object. */
  class Contract {
    const identity: Text
    const wireVersion: Text

    constructor (identity: Text, wireVersion: Text)
      ensures this.identity == identity && this.wireVersion == wireVersion
    {
      this.identity := identity;
      this.wireVersion := wireVersion;
    }
  }

  datatype Registration = Registration(contract: Contract, definitionVersion: string)

  function KeyValue(identity: Text, wireVersion: Text): Json {
    JArr([JStr(identity), JStr(wireVersion)])
  }

  /** The two fields printed as a JSON array. */
  function ContractKey(contract: Contract): Text {
    StableJson(KeyValue(contract.identity, contract.wireVersion))
  }

  /** The key's text: the identity and then the wire version, quoted, in brackets and with a comma between. */
  lemma ContractKeyText(contract: Contract)
    ensures ContractKey(contract) ==
            ['[' as int] + Quote(contract.identity) + [',' as int] + Quote(contract.wireVersion) + [']' as int]
  {
    var texts := [Quote(contract.identity), Quote(contract.wireVersion)];
    assert texts[..1] == [texts[0]];
    PrintsAsJson(KeyValue(contract.identity, contract.wireVersion), [], texts);
  }

  /** The key is unambiguous, whatever characters the two fields contain. */
  lemma ContractKeyInjective(a: Contract, b: Contract)
    ensures ContractKey(a) == ContractKey(b) <==> a.identity == b.identity && a.wireVersion == b.wireVersion
  {
    var (v, w) := (KeyValue(a.identity, a.wireVersion), KeyValue(b.identity, b.wireVersion));
    assert WellFormed(v) && WellFormed(w);
    StableJsonIsCanonical(v, w);
    if Meaning(v) == Meaning(w) {
      assert Meaning(v).items[0] == Meaning(w).items[0] && Meaning(v).items[1] == Meaning(w).items[1];
    }
  }

  // -------------------------------------------------------------- registrations

  datatype FaultReason =
    | DuplicatePublishedContract
    | DuplicateRegistration
    | MissingRegistration
    | UnexpectedRegistration
    | IncompatibleRegistration

  datatype RegistrationError = RegistrationError(reason: FaultReason, contract: Contract)

  function ContractKeys(contracts: seq<Contract>): (keys: seq<Text>)
    ensures |keys| == |contracts|
    ensures forall i :: 0 <= i < |keys| ==> keys[i] == ContractKey(contracts[i])
  {
    seq(|contracts|, i requires 0 <= i < |contracts| => ContractKey(contracts[i]))
  }

  function RegistrationKeys(registrations: seq<Registration>): (keys: seq<Text>)
    ensures |keys| == |registrations|
    ensures forall i :: 0 <= i < |keys| ==> keys[i] == ContractKey(registrations[i].contract)
  {
    seq(|registrations|, i requires 0 <= i < |registrations| => ContractKey(registrations[i].contract))
  }

  predicate Distinct(keys: seq<Text>) {
    forall i, j :: 0 <= i < j < |keys| ==> keys[i] != keys[j]
  }

  /** The registration refers to the very object that was published. */
  predicate RefersTo(published: seq<Contract>, registration: Registration) {
    registration.contract in published
  }

  /** Contracts and registrations correspond one to one, by object identity. */
  predicate Corresponds(published: seq<Contract>, registrations: seq<Registration>) {
    && Distinct(ContractKeys(published))
    && Distinct(RegistrationKeys(registrations))
    && (forall i :: 0 <= i < |registrations| ==> RefersTo(published, registrations[i]))
    && (forall k :: k in ContractKeys(published) ==> k in RegistrationKeys(registrations))
  }

  /** What each error says about the first declaration or registration at fault. */
  ghost predicate Explains(error: RegistrationError, published: seq<Contract>, registrations: seq<Registration>) {
    var (pks, rks) := (ContractKeys(published), RegistrationKeys(registrations));
    match error.reason
    case DuplicatePublishedContract =>
      exists j :: 0 <= j < |published| && published[j] == error.contract && Distinct(pks[..j]) && pks[j] in pks[..j]
    case MissingRegistration =>
      && Distinct(pks) && Distinct(rks) && (forall i :: 0 <= i < |registrations| ==> RefersTo(published, registrations[i]))
      && exists j :: 0 <= j < |published| && published[j] == error.contract && pks[j] !in rks
                     && forall i :: 0 <= i < j ==> pks[i] in rks
    case _ => Distinct(pks) && exists j :: Faulty(error, published, registrations, j)
  }

  /** Registration `j` is the first at fault, and the reason says in which way. */
  predicate Faulty(error: RegistrationError, published: seq<Contract>, registrations: seq<Registration>, j: int) {
    var (pks, rks) := (ContractKeys(published), RegistrationKeys(registrations));
    && 0 <= j < |registrations| && registrations[j].contract == error.contract
    && Distinct(rks[..j]) && (forall i :: 0 <= i < j ==> RefersTo(published, registrations[i]))
    && error.reason == (if rks[j] in rks[..j] then DuplicateRegistration
                        else if rks[j] !in pks then UnexpectedRegistration
                        else IncompatibleRegistration)
    && (error.reason.IncompatibleRegistration? ==> !RefersTo(published, registrations[j]))
  }

  lemma FaultyIsNoCorrespondence(error: RegistrationError, published: seq<Contract>, registrations: seq<Registration>, j: int)
    requires Faulty(error, published, registrations, j)
    ensures !Corresponds(published, registrations)
  {
    var (pks, rks) := (ContractKeys(published), RegistrationKeys(registrations));
    assert rks[j] in rks[..j] ==> !Distinct(rks);
    assert forall i :: 0 <= i < |published| && published[i] == registrations[j].contract ==> pks[i] == rks[j];
  }

  /** The map holds the value of every key, and nothing else. */
  predicate Indexes<V(==)>(m: map<Text, V>, keys: seq<Text>, values: seq<V>) {
    && |keys| == |values|
    && (forall i :: 0 <= i < |keys| ==> keys[i] in m && m[keys[i]] == values[i])
    && (forall k :: k in m ==> k in keys)
  }

  lemma IndexExtends<V>(m: map<Text, V>, keys: seq<Text>, values: seq<V>, n: nat)
    requires n < |keys| == |values| && keys[n] !in m
    requires Distinct(keys[..n]) && Indexes(m, keys[..n], values[..n])
    ensures Distinct(keys[..n + 1]) && Indexes(m[keys[n] := values[n]], keys[..n + 1], values[..n + 1])
  {
    assert keys[..n + 1] == keys[..n] + [keys[n]] && values[..n + 1] == values[..n] + [values[n]];
    assert forall i :: 0 <= i < n ==> keys[..n][i] in m;
  }

  method IndexPublished(published: seq<Contract>) returns (result: Result<map<Text, Contract>, RegistrationError>)
    ensures result.Success? ==> Distinct(ContractKeys(published)) && Indexes(result.value, ContractKeys(published), published)
    ensures result.Failure? ==>
              result.error.reason.DuplicatePublishedContract? && !Distinct(ContractKeys(published))
              && forall registrations :: Explains(result.error, published, registrations)
  {
    ghost var keys := ContractKeys(published);
    var byKey: map<Text, Contract> := map[];
    for n := 0 to |published|
      invariant Distinct(keys[..n]) && Indexes(byKey, keys[..n], published[..n])
    {
      var key := ContractKey(published[n]);
      if key in byKey {
        assert keys[n] == key && key in keys[..n];
        return Failure(RegistrationError(DuplicatePublishedContract, published[n]));
      }
      IndexExtends(byKey, keys, published, n);
      byKey := byKey[key := published[n]];
    }
    assert published[..|published|] == published && keys[..|published|] == keys;
    return Success(byKey);
  }

  /** A published contract under its own key is found as the same object, and only it. */
  lemma LooksUp(byKey: map<Text, Contract>, published: seq<Contract>, contract: Contract)
    requires Indexes(byKey, ContractKeys(published), published)
    ensures contract in published <==> ContractKey(contract) in byKey && byKey[ContractKey(contract)] == contract
  {
    var keys := ContractKeys(published);
    if contract in published {
      var i :| 0 <= i < |published| && published[i] == contract;
      assert keys[i] == ContractKey(contract);
    }
    if ContractKey(contract) in byKey {
      var i :| 0 <= i < |keys| && keys[i] == ContractKey(contract);
      assert byKey[keys[i]] == published[i];
    }
  }

  method IndexRegistrations(published: seq<Contract>, byKey: map<Text, Contract>, registrations: seq<Registration>)
    returns (result: Result<map<Text, Registration>, RegistrationError>)
    requires Distinct(ContractKeys(published)) && Indexes(byKey, ContractKeys(published), published)
    ensures result.Success? ==>
              && Distinct(RegistrationKeys(registrations)) && Indexes(result.value, RegistrationKeys(registrations), registrations)
              && forall i :: 0 <= i < |registrations| ==> RefersTo(published, registrations[i])
    ensures result.Failure? ==>
              && !result.error.reason.DuplicatePublishedContract? && !result.error.reason.MissingRegistration?
              && Explains(result.error, published, registrations) && !Corresponds(published, registrations)
  {
    ghost var keys := RegistrationKeys(registrations);
    var registered: map<Text, Registration> := map[];
    for n := 0 to |registrations|
      invariant Distinct(keys[..n]) && Indexes(registered, keys[..n], registrations[..n])
      invariant forall i :: 0 <= i < n ==> RefersTo(published, registrations[i])
    {
      var registration := registrations[n];
      var key := ContractKey(registration.contract);
      assert keys[n] == key && (key in registered <==> key in keys[..n]);
      assert key in byKey <==> key in ContractKeys(published);
      LooksUp(byKey, published, registration.contract);
      if key in registered || key !in byKey || byKey[key] != registration.contract {
        var reason := if key in registered then DuplicateRegistration
                      else if key !in byKey then UnexpectedRegistration
                      else IncompatibleRegistration;
        var error := RegistrationError(reason, registration.contract);
        assert Faulty(error, published, registrations, n);
        FaultyIsNoCorrespondence(error, published, registrations, n);
        return Failure(error);
      }
      IndexExtends(registered, keys, registrations, n);
      registered := registered[key := registration];
    }
    assert registrations[..|registrations|] == registrations && keys[..|registrations|] == keys;
    return Success(registered);
  }

  /**
   Validation succeeds exactly when contracts and registrations correspond one to one; it
   then returns the registration of every key. Otherwise it names the first fault.
   */
  method ValidateWorkflowContractRegistrations(published: seq<Contract>, registrations: seq<Registration>)
    returns (result: Result<map<Text, Registration>, RegistrationError>)
    ensures result.Success? <==> Corresponds(published, registrations)
    ensures result.Success? ==> Indexes(result.value, RegistrationKeys(registrations), registrations)
    ensures result.Failure? ==> Explains(result.error, published, registrations)
  {
    var index := IndexPublished(published);
    if index.Failure? {
      return Failure(index.error);
    }
    result := IndexRegistrations(published, index.value, registrations);
    if result.Failure? {
      return;
    }
    ghost var (pks, rks) := (ContractKeys(published), RegistrationKeys(registrations));
    for n := 0 to |published|
      invariant forall i :: 0 <= i < n ==> pks[i] in rks
    {
      var key := ContractKey(published[n]);
      assert pks[n] == key && (key in result.value <==> key in rks);
      if key !in result.value {
        return Failure(RegistrationError(MissingRegistration, published[n]));
      }
    }
  }

  /**
   After a successful validation every published contract has exactly one registration,
   found under its key and referring to the same object, and there is no other.
   */
  lemma ValidationIsBijection(published: seq<Contract>, registrations: seq<Registration>, m: map<Text, Registration>)
    requires Corresponds(published, registrations) && Indexes(m, RegistrationKeys(registrations), registrations)
    ensures m.Keys == set k | k in ContractKeys(published)
    ensures forall i :: 0 <= i < |published| ==>
              ContractKey(published[i]) in m && m[ContractKey(published[i])].contract == published[i]
    ensures forall r :: r in registrations ==> ContractKey(r.contract) in m && m[ContractKey(r.contract)] == r
  {
    var (pks, rks) := (ContractKeys(published), RegistrationKeys(registrations));
    forall k | k in rks ensures k in pks && k in m && ContractKey(m[k].contract) == k && m[k].contract in published {
      var i :| 0 <= i < |rks| && rks[i] == k;
      assert RefersTo(published, registrations[i]) && m[rks[i]] == registrations[i];
      var j :| 0 <= j < |published| && published[j] == registrations[i].contract;
      assert pks[j] == k;
    }
    forall i | 0 <= i < |published|
      ensures ContractKey(published[i]) in m && m[ContractKey(published[i])].contract == published[i]
    {
      var k := pks[i];
      assert k in rks;
      var j :| 0 <= j < |published| && published[j] == m[k].contract;
      assert pks[j] == k;
    }
    forall r | r in registrations ensures ContractKey(r.contract) in m && m[ContractKey(r.contract)] == r {
      var i :| 0 <= i < |registrations| && registrations[i] == r;
      assert rks[i] == ContractKey(r.contract);
    }
  }
}
