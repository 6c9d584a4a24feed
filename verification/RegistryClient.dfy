/**
 The registry client: requests that refresh their credentials on HTTP 401 out of
 one shared budget, and the multi-request operations built on them.

 The network is a parameter: a registry answers the next request as an
 arbitrary function of everything exchanged so far.
 */
module RegistryClient {
  import opened Wrappers
  import opened OciLayout

  const MAX_AUTH_RETRIES_LIMIT: nat := 5

  /** A parsed WWW-Authenticate header; the scheme is lower case. */
  datatype Challenge = Challenge(scheme: string, realm: string, service: string)

  /** Where the registry asks an upload to continue. */
  datatype Location = NoLocation | OtherHost | SameHost(url: string)

  datatype Reply =
    | Lost
    | Reply(status: int, challenge: Option<Challenge>, location: Location, contentDigest: string, token: string)

  datatype Call =
    | GetBase
    | GetToken(realm: string, service: string)
    | HeadBlob(digest: Digest)
    | PostUpload
    | PutUpload(url: string, digest: Digest)
    | PutManifest(reference: string, node: Node)
    | HeadManifest(reference: string, mediaType: string)

  datatype Exchange = Exchange(call: Call, authorization: Option<string>, reply: Reply)

  /** The mutable part of the client, with everything it has sent and how long it has slept. */
  datatype Session = Session(
    authorization: Option<string>,
    challenge: Option<Challenge>,
    refreshes: nat,
    slept: nat,
    log: seq<Exchange>)

  /** The fixed part of the client and the registry that answers it. */
  datatype Registry = Registry(
    answer: (seq<Exchange>, Call, Option<string>) -> Reply,
    basic: string,
    maxAuthRetries: nat)

  /** How a request or operation ends; Unauthorized asks the caller to restart with fresh credentials. */
  datatype Outcome = Done(reply: Reply) | Unauthorized | PushError

  const FRESH := Session(None, None, 0, 0, [])

  function Pow2(n: nat): nat {
    if n == 0 then 1 else 2 * Pow2(n - 1)
  }

  function Min(a: nat, b: nat): nat {
    if a <= b then a else b
  }

  predicate StartsWith(text: string, prefix: string) {
    prefix <= text
  }

  predicate AllowedRealm(realm: string) {
    || StartsWith(realm, "https://")
    || StartsWith(realm, "http://127.0.0.1")
    || StartsWith(realm, "http://localhost")
  }

  /** The calls that obtain credentials; tokens are asked for at allowed realms only. */
  predicate IsAuth(c: Call) {
    c.GetBase? || (c.GetToken? && AllowedRealm(c.realm))
  }

  function Send(g: Registry, s: Session, call: Call, authorization: Option<string>): (Session, Reply) {
    var reply := g.answer(s.log, call, authorization);
    (s.(log := s.log + [Exchange(call, authorization, reply)]), reply)
  }

  /** Fresh credentials from the registry's challenge; false when no credentials can be had. */
  function Authenticate(g: Registry, s: Session): (Session, bool) {
    if s.challenge.None? then
      var (s1, reply) := Send(g, s, GetBase, None);
      if reply.Lost? then
        (s1, false)
      else
        var challenge := if reply.status == 401 && reply.challenge.Some? then reply.challenge.value
                         else Challenge("none", "", "");
        Authorize(g, s1.(challenge := Some(challenge)), challenge)
    else
      Authorize(g, s, s.challenge.value)
  }

  function Authorize(g: Registry, s: Session, challenge: Challenge): (Session, bool) {
    if challenge.scheme == "basic" then
      (s.(authorization := Some(g.basic)), true)
    else if challenge.scheme != "bearer" then
      (s.(authorization := None), true)
    else if !AllowedRealm(challenge.realm) then
      (s, false)
    else
      var (s1, reply) := Send(g, s, GetToken(challenge.realm, challenge.service), Some(g.basic));
      if reply.Lost? || reply.status != 200 || reply.token == "" then
        (s1, false)
      else
        (s1.(authorization := Some("Bearer " + reply.token)), true)
  }

  /** The session after a 401 has been charged to the budget and slept off, before new credentials. */
  function Charge(s: Session, challenge: Option<Challenge>): Session {
    s.(refreshes := s.refreshes + 1,
       challenge := if challenge.Some? then challenge else s.challenge,
       slept := s.slept + Min(Pow2(s.refreshes), 30))
  }

  function Request(g: Registry, s: Session, call: Call, expected: set<int>, retryInPlace: bool): (r: (Session, Outcome))
    ensures s.refreshes <= r.0.refreshes
    ensures r.1.Unauthorized? ==> s.refreshes < r.0.refreshes <= g.maxAuthRetries
    decreases g.maxAuthRetries - s.refreshes
  {
    var (s1, reply) := Send(g, s, call, s.authorization);
    if reply.Lost? then
      (s1, PushError)
    else if reply.status != 401 then
      (s1, if reply.status in expected then Done(reply) else PushError)
    else if s1.refreshes >= g.maxAuthRetries then
      (s1, PushError)
    else
      var (s2, ok) := Authenticate(g, Charge(s1, reply.challenge));
      if !ok then
        (s2, PushError)
      else if !retryInPlace then
        (s2, Unauthorized)
      else
        Request(g, s2, call, expected, retryInPlace)
  }

  function UploadBlob(g: Registry, s: Session, digest: Digest): (r: (Session, Outcome))
    ensures s.refreshes <= r.0.refreshes
    ensures r.1.Unauthorized? ==> s.refreshes < r.0.refreshes <= g.maxAuthRetries
  {
    var (s1, posted) := Request(g, s, PostUpload, {202}, false);
    if !posted.Done? then
      (s1, posted)
    else if !posted.reply.Reply? || !posted.reply.location.SameHost? then
      (s1, PushError)
    else
      Request(g, s1, PutUpload(posted.reply.location.url, digest), {201}, false)
  }

  /** An upload session does not survive new credentials, so the whole upload is repeated. */
  function UploadUntilAuthorized(g: Registry, s: Session, digest: Digest): (r: (Session, Outcome))
    ensures s.refreshes <= r.0.refreshes && !r.1.Unauthorized?
    decreases g.maxAuthRetries - s.refreshes
  {
    var (s1, out) := UploadBlob(g, s, digest);
    if out.Unauthorized? then UploadUntilAuthorized(g, s1, digest) else (s1, out)
  }

  function PushBlob(g: Registry, s: Session, digest: Digest): (Session, Outcome) {
    var (s1, out) := Request(g, s, HeadBlob(digest), {200, 302, 307, 404}, true);
    if !out.Done? || !out.reply.Reply? || out.reply.status != 404 then
      (s1, out)
    else
      UploadUntilAuthorized(g, s1, digest)
  }

  function PushManifest(g: Registry, s: Session, reference: string, node: Node): (Session, Outcome) {
    var (s1, out) := Request(g, s, PutManifest(reference, node), {201}, true);
    if out.Done? && out.reply.Reply? && out.reply.contentDigest != "" && out.reply.contentDigest != node.digest then
      (s1, PushError)
    else
      (s1, out)
  }

  function VerifyTag(g: Registry, s: Session, tag: string, node: Node): (Session, Outcome) {
    var (s1, out) := Request(g, s, HeadManifest(tag, node.mediaType), {200}, true);
    if out.Done? && out.reply.Reply? && out.reply.contentDigest != node.digest then
      (s1, PushError)
    else
      (s1, out)
  }

  /** The client object: the fields that requests update in place, and its loops. */
  class Client {
    const registry: Registry
    var authorization: Option<string>
    var challenge: Option<Challenge>
    var authRefreshes: nat
    var slept: nat
    var log: seq<Exchange>

    constructor (registry: Registry)
      ensures this.registry == registry && Value() == FRESH
    {
      this.registry := registry;
      authorization, challenge, authRefreshes, slept, log := None, None, 0, 0, [];
    }

    function Value(): Session
      reads this
    {
      Session(authorization, challenge, authRefreshes, slept, log)
    }

    method Raw(call: Call, credentials: Option<string>) returns (reply: Reply)
      modifies this`log
      ensures (Value(), reply) == Send(registry, old(Value()), call, credentials)
    {
      reply := registry.answer(log, call, credentials);
      log := log + [Exchange(call, credentials, reply)];
    }

    method Refresh() returns (ok: bool)
      modifies this
      ensures (Value(), ok) == Authenticate(registry, old(Value()))
    {
      if challenge.None? {
        var reply := Raw(GetBase, None);
        if reply.Lost? {
          return false;
        }
        challenge := if reply.status == 401 && reply.challenge.Some? then reply.challenge
                     else Some(Challenge("none", "", ""));
      }
      if challenge.value.scheme == "basic" {
        authorization := Some(registry.basic);
        return true;
      }
      if challenge.value.scheme != "bearer" {
        authorization := None;
        return true;
      }
      if !AllowedRealm(challenge.value.realm) {
        return false;
      }
      var reply := Raw(GetToken(challenge.value.realm, challenge.value.service), Some(registry.basic));
      if reply.Lost? || reply.status != 200 || reply.token == "" {
        return false;
      }
      authorization := Some("Bearer " + reply.token);
      return true;
    }

    /** Charges a 401 to the budget and sleeps it off. */
    method BackOff(challenged: Option<Challenge>)
      modifies this
      ensures Value() == Charge(old(Value()), challenged)
    {
      authRefreshes := authRefreshes + 1;
      if challenged.Some? {
        challenge := challenged;
      }
      slept := slept + Min(Pow2(authRefreshes - 1), 30);
    }

    method SendAuthorized(call: Call, expected: set<int>, retryInPlace: bool) returns (out: Outcome)
      modifies this
      ensures (Value(), out) == Request(registry, old(Value()), call, expected, retryInPlace)
    {
      ghost var all := Request(registry, Value(), call, expected, retryInPlace);
      while true
        invariant all == Request(registry, Value(), call, expected, retryInPlace)
        decreases registry.maxAuthRetries - authRefreshes
      {
        var reply := Raw(call, authorization);
        if reply.Lost? {
          return PushError;
        }
        if reply.status != 401 {
          return if reply.status in expected then Done(reply) else PushError;
        }
        if authRefreshes >= registry.maxAuthRetries {
          return PushError;
        }
        BackOff(reply.challenge);
        var ok := Refresh();
        if !ok {
          return PushError;
        }
        if !retryInPlace {
          return Unauthorized;
        }
      }
    }

    method Upload(digest: Digest) returns (out: Outcome)
      modifies this
      ensures (Value(), out) == UploadBlob(registry, old(Value()), digest)
    {
      out := SendAuthorized(PostUpload, {202}, false);
      if !out.Done? {
        return;
      }
      if !out.reply.Reply? || !out.reply.location.SameHost? {
        return PushError;
      }
      out := SendAuthorized(PutUpload(out.reply.location.url, digest), {201}, false);
    }

    method Push(digest: Digest) returns (out: Outcome)
      modifies this
      ensures (Value(), out) == PushBlob(registry, old(Value()), digest)
    {
      out := SendAuthorized(HeadBlob(digest), {200, 302, 307, 404}, true);
      if !out.Done? || !out.reply.Reply? || out.reply.status != 404 {
        return;
      }
      while true
        invariant UploadUntilAuthorized(registry, Value(), digest)
               == PushBlob(registry, old(Value()), digest)
        decreases registry.maxAuthRetries - authRefreshes
      {
        out := Upload(digest);
        if !out.Unauthorized? {
          return;
        }
      }
    }

    method PutNode(reference: string, node: Node) returns (out: Outcome)
      modifies this
      ensures (Value(), out) == PushManifest(registry, old(Value()), reference, node)
    {
      out := SendAuthorized(PutManifest(reference, node), {201}, true);
      if out.Done? && out.reply.Reply? && out.reply.contentDigest != "" && out.reply.contentDigest != node.digest {
        out := PushError;
      }
    }

    method Verify(tag: string, node: Node) returns (out: Outcome)
      modifies this
      ensures (Value(), out) == VerifyTag(registry, old(Value()), tag, node)
    {
      out := SendAuthorized(HeadManifest(tag, node.mediaType), {200}, true);
      if out.Done? && out.reply.Reply? && out.reply.contentDigest != node.digest {
        out := PushError;
      }
    }
  }
}
