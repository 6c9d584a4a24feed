/**
 Where credentials may be sent for a token: over https, or in plain text to the
 machine itself. The hosts of addresses follow RFC 3986, section 3.2.
 */
module TokenRealms {
  import opened RegistryClient

  const LOOPBACKS := {"127.0.0.1", "localhost"}

  /** The text before the first of these characters. */
  function UpTo(text: string, stops: string): string {
    if text == "" || text[0] in stops then "" else [text[0]] + UpTo(text[1..], stops)
  }

  /** What stands between the scheme and the path. */
  function Authority(address: string): string
    requires StartsWith(address, "http://")
  {
    UpTo(address[7..], "/?#")
  }

  /** The text after the last '@', which ends user information. */
  function AfterUser(authority: string): string {
    if '@' in authority then AfterUser(authority[1..]) else authority
  }

  /** The host of an address: what stands between user information and port. */
  function HostOf(address: string): string
    requires StartsWith(address, "http://")
  {
    UpTo(AfterUser(Authority(address)), ":")
  }

  /** Nobody on the network can read what is sent to this address. */
  predicate IsPrivate(address: string) {
    StartsWith(address, "https://") || (StartsWith(address, "http://") && HostOf(address) in LOOPBACKS)
  }

  lemma {:induction false} UpToAfter(part: string, rest: string, stops: string)
    requires forall c | c in part :: c !in stops
    ensures UpTo(part + rest, stops) == part + UpTo(rest, stops)
  {
    hide UpTo;
    if part == "" {
      assert part + rest == rest && part + UpTo(rest, stops) == UpTo(rest, stops);
    } else {
      UpToAfter(part[1..], rest, stops);
      assert (part + rest)[0] == part[0] && (part + rest)[1..] == part[1..] + rest;
      UpToStep(part + rest, stops);
      assert [part[0]] + (part[1..] + UpTo(rest, stops)) == part + UpTo(rest, stops);
    }
  }

  lemma UpToStep(text: string, stops: string)
    requires text != "" && text[0] !in stops
    ensures UpTo(text, stops) == [text[0]] + UpTo(text[1..], stops)
  {
  }

  lemma HostAndRest(host: string, rest: string)
    requires host in LOOPBACKS
    requires '@' !in Authority("http://" + host + rest)
    ensures HostOf("http://" + host + rest) == host + UpTo(UpTo(rest, "/?#"), ":")
  {
    hide UpTo, AfterUser;
    AuthorityAndRest(host, rest);
    NoUser(Authority("http://" + host + rest));
    PlainName(host);
    UpToAfter(host, UpTo(rest, "/?#"), ":");
  }

  lemma AuthorityAndRest(host: string, rest: string)
    requires host in LOOPBACKS
    ensures Authority("http://" + host + rest) == host + UpTo(rest, "/?#")
  {
    hide UpTo;
    assert ("http://" + host + rest)[7..] == host + rest;
    PlainName(host);
    UpToAfter(host, rest, "/?#");
  }

  lemma PlainName(host: string)
    requires host in LOOPBACKS
    ensures forall c | c in host :: c !in "/?#" && c !in ":"
  {
  }

  lemma NoUser(authority: string)
    requires '@' !in authority
    ensures AfterUser(authority) == authority
  {
  }

  /** A host follows the user information of this plain address, and is the machine itself. */
  predicate NamesLoopbackAfterUser(address: string) {
    && StartsWith(address, "http://") && '@' in Authority(address)
    && UpTo(AfterUser(Authority(address)), ":") in LOOPBACKS
  }

  /** Of this plain address, nothing but a port, path, query or fragment follows the first sixteen characters. */
  predicate EndsItsHost(address: string) {
    && StartsWith(address, "http://") && '@' !in Authority(address)
    && (|address| <= 16 || address[16] in ":/?#")
  }

  /**
   An allowed realm is private if and only if it uses https, or nothing but a port,
   path, query or fragment follows the loopback name, or that name was only user
   information in front of a loopback name.
   */
  lemma AllowedIsPrivateIff(realm: string)
    requires AllowedRealm(realm)
    ensures IsPrivate(realm) <==>
            StartsWith(realm, "https://") || EndsItsHost(realm) || NamesLoopbackAfterUser(realm)
  {
    hide UpTo, AfterUser, Authority;
    if !StartsWith(realm, "https://") && StartsWith(realm, "http://") && '@' !in Authority(realm) {
      var host, rest := realm[7..16], realm[16..];
      assert realm == "http://" + host + rest && realm[..16] == "http://" + host;
      assert host in LOOPBACKS by {
        PrefixHost(realm);
      }
      HostAndRest(host, rest);
      LoopbackAlone(host, UpTo(UpTo(rest, "/?#"), ":"));
      NothingBefore(rest);
    }
  }

  lemma PrefixHost(realm: string)
    requires AllowedRealm(realm) && !StartsWith(realm, "https://")
    ensures |realm| >= 16 && realm[7..16] in LOOPBACKS
  {
    if StartsWith(realm, "http://127.0.0.1") {
      assert realm[..16] == "http://127.0.0.1";
      assert realm[7..16] == realm[..16][7..] == "127.0.0.1";
    } else {
      assert realm[..16] == "http://localhost";
      assert realm[7..16] == realm[..16][7..] == "localhost";
    }
  }

  lemma LoopbackAlone(host: string, more: string)
    requires host in LOOPBACKS
    ensures host + more in LOOPBACKS <==> more == ""
  {
    assert |host| == 9;
    if more == "" {
      assert host + more == host;
    } else {
      assert |host + more| > 9;
    }
  }

  lemma NothingBefore(rest: string)
    ensures UpTo(UpTo(rest, "/?#"), ":") == "" <==> rest == "" || rest[0] in ":/?#"
  {
  }

  lemma AuthorityIsPart(address: string)
    requires StartsWith(address, "http://")
    ensures forall c | c in Authority(address) :: c in address
  {
    hide UpTo;
    UpToIsPart(address[7..], "/?#");
  }

  lemma {:induction false} UpToIsPart(text: string, stops: string)
    ensures forall c | c in UpTo(text, stops) :: c in text
  {
    if text != "" {
      UpToIsPart(text[1..], stops);
    }
  }

  lemma LongerHosts(rest: string)
    requires rest != "" && rest[0] !in ":/?#" && '@' !in rest
    ensures AllowedRealm("http://localhost" + rest) && !IsPrivate("http://localhost" + rest)
  {
    hide UpTo, AfterUser, Authority, IsPrivate;
    var realm := "http://localhost" + rest;
    assert realm[..16] == "http://localhost" && realm[16] == rest[0];
    AuthorityIsPart(realm);
    assert realm[4] == ':' && "https://"[4] == 's';
    AllowedIsPrivateIff(realm);
  }

  /** A plain realm whose host only begins like the machine's own name is allowed. */
  lemma LongerHostIsAllowed()
    ensures AllowedRealm("http://localhost.example/token") && !IsPrivate("http://localhost.example/token")
  {
    hide AllowedRealm, IsPrivate;
    LongerHosts(".example/token");
    assert "http://localhost" + ".example/token" == "http://localhost.example/token";
  }
}
