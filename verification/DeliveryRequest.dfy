/** The request shared by all delivery adapters, and its canonical form. */
module DeliveryRequest {
  import opened Wrappers

  const REQUIRED_KEYS := {
    "adapter", "candidate_sha", "compose_file", "container_name", "repository", "service", "trusted_ref"}
  const REQUEST_KEYS := REQUIRED_KEYS + {"reason"}

  type Payload = map<string, string>

  datatype RequestError = UnknownField | MissingOrInvalid

  datatype DeployRequest = DeployRequest(
    repository: string,
    service: string,
    candidateSha: string,
    trustedRef: string,
    composeFile: string,
    containerName: string,
    adapter: string,
    reason: Option<string>)

  /** The syntax of each field, by name, is a parameter. */
  type FieldRules = (string, string) -> bool

  function ParseRequest(valid: FieldRules, payload: Payload): Result<DeployRequest, RequestError> {
    if !(payload.Keys <= REQUEST_KEYS) then Failure(UnknownField)
    else if !(REQUIRED_KEYS <= payload.Keys) then Failure(MissingOrInvalid)
    else if exists k | k in payload :: !valid(k, payload[k]) then Failure(MissingOrInvalid)
    else Success(DeployRequest(
      payload["repository"], payload["service"], payload["candidate_sha"], payload["trusted_ref"],
      payload["compose_file"], payload["container_name"], payload["adapter"],
      if "reason" in payload then Some(payload["reason"]) else None))
  }

  /** The seven identity fields, without the human reason. */
  function Identity(r: DeployRequest): Payload {
    map["adapter" := r.adapter, "candidate_sha" := r.candidateSha, "compose_file" := r.composeFile,
        "container_name" := r.containerName, "repository" := r.repository, "service" := r.service,
        "trusted_ref" := r.trustedRef]
  }

  function CanonicalizeRequest(r: DeployRequest): Payload {
    if r.reason.Some? then Identity(r)["reason" := r.reason.value] else Identity(r)
  }

  /** Parsing loses nothing: the canonical form of a parsed request is the payload it came from. */
  lemma CanonicalFormIsPayload(valid: FieldRules, payload: Payload)
    requires ParseRequest(valid, payload).Success?
    ensures CanonicalizeRequest(ParseRequest(valid, payload).value) == payload
  {
    var r := ParseRequest(valid, payload).value;
    assert CanonicalizeRequest(r).Keys == payload.Keys;
  }

  /** Reading back the identity of a parsed request gives the same request without its reason. */
  lemma IdentityParsesBack(valid: FieldRules, payload: Payload)
    requires ParseRequest(valid, payload).Success?
    ensures var r := ParseRequest(valid, payload).value;
            ParseRequest(valid, Identity(r)) == Success(r.(reason := None))
  {
    CanonicalFormIsPayload(valid, payload);
    var r := ParseRequest(valid, payload).value;
    forall k | k in Identity(r)
      ensures valid(k, Identity(r)[k])
    {
      assert Identity(r)[k] == payload[k];
    }
  }
}
