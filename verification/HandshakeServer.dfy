/** The handlers of the security handshake, as a server object that they change in place. */
module HandshakeServer {
  import opened Common
  import opened Handshake

  class Server {
    const build: Build
    var flags: Flags
    var types: seq<nat>
    var clients: map<nat, Client>
    var creds: map<nat, Option<nat>>
    var nextClient: nat
    var nextCred: nat
    var aborted: bool

    ghost function View(): State reads this {
      State(flags, types, clients, creds, nextClient, nextCred, aborted)
    }

    constructor (build: Build)
      ensures View() == Init() && this.build == build
    {
      this.build := build;
      flags, types, clients, creds := Flags(false, false, false, false), [], map[], map[];
      nextClient, nextCred, aborted := 0, 0, false;
    }

    /** `init_security_types` */
    method InitSecurityTypes()
      modifies this
      requires !aborted
      ensures View() == InitTypes(old(View()), build)
    {
      if |types| > 0 {
        return;
      }
      if flags.requireAuth {
        if build.tls && build.certificate {
          types := types + [19];
        }
        if build.crypto {
          types := types + [129] + [5];
          if !flags.requireEncryption {
            types := types + [30];
            if flags.allowBroken && !flags.requireUsername {
              types := types + [2];
            }
          }
        }
      } else {
        types := types + [1];
      }
      if |types| == 0 {
        aborted := true;
      }
    }

    /** `is_allowed_security_type` */
    method IsAllowedSecurityType(choice: nat) returns (allowed: bool)
      ensures allowed <==> choice in types
    {
      for i := 0 to |types|
        invariant choice !in types[..i]
      {
        if types[i] == choice {
          return true;
        }
      }
      return false;
    }

    /** `client_close`: the client is gone, and whatever observed it observes nothing. */
    method ClientClose(c: nat)
      requires c in clients && Inv(View())
      modifies this
      ensures View() == CloseClient(old(View()), c)
    {
      var observers := set k | k in creds && creds[k] == Some(c);
      ghost var all := observers;
      while observers != {}
        invariant observers <= all
        invariant View() == old(View()).(creds := creds)
        invariant creds.Keys == old(creds).Keys
        invariant forall k :: k in creds ==> creds[k] == if k in all && k !in observers then None else old(creds)[k]
      {
        var k :| k in observers;
        creds := creds[k := None];
        observers := observers - {k};
      }
      clients := map x | x in clients && x != c :: clients[x];
      assert clients == CloseClient(old(View()), c).clients;
      assert creds == Observed(old(creds), old(clients).Keys - {c});
    }

    /** `security_handshake_authenticate`; the answer comes later. */
    method HandshakeAuthenticate(c: nat)
      requires c in clients
      modifies this
      ensures View() == Authenticate(old(View()), c)
    {
      clients := clients[c := clients[c].(phase := Authenticating, asked := true)];
      creds := creds[nextCred := Some(c)];
      nextCred := nextCred + 1;
    }

    method SetPhase(c: nat, phase: Phase)
      requires c in clients
      modifies this`clients
      ensures clients == old(clients)[c := old(clients)[c].(phase := phase)]
    {
      clients := clients[c := clients[c].(phase := phase)];
    }

    /** `on_version_message_rfb33` */
    method OnVersionMessage33(c: nat, d: Data)
      requires c in clients && Inv(View())
      modifies this
      ensures View() == Act(old(View()), c, OnVersion33(old(View()), build, old(clients)[c]), d)
    {
      if build.crypto && flags.requireAuth {
        var allowed := IsAllowedSecurityType(2);
        if allowed {
          SetPhase(c, DesResponse);
          return;
        }
      }
      if flags.requireAuth {
        ClientClose(c);
        return;
      }
      SetPhase(c, Initialising);
    }

    /** `on_version_message` */
    method OnVersionMessage(c: nat, d: Data)
      requires Inv(View()) && !aborted && c in clients && clients[c].phase == Version
      modifies this
      ensures View() == Receive(old(View()), build, c, d)
    {
      if d.version < 0 {
        ClientClose(c);
        return;
      }
      InitSecurityTypes();
      if aborted {
        return;
      }
      ghost var t := View();
      clients := clients[c := clients[c].(minor := d.version)];
      if d.version == 3 {
        OnVersionMessage33(c, d);
        MinorDoesNotMatter(t, build, c, d);
        return;
      }
      SetPhase(c, Security);
    }

    /** `on_security_message` */
    method OnSecurityMessage(c: nat, d: Data)
      requires Inv(View()) && c in clients && clients[c].phase == Security
      modifies this
      ensures View() == Act(old(View()), c, OnSecurity(old(View()), build, old(clients)[c], d), d)
    {
      var allowed := IsAllowedSecurityType(d.choice);
      if !allowed {
        ClientClose(c);
      } else if d.choice == 1 {
        SetPhase(c, Initialising);
      } else if d.choice == 19 && build.tls {
        SetPhase(c, VencryptVersion);
      } else if d.choice == 2 && build.crypto {
        SetPhase(c, DesResponse);
      } else if d.choice == 30 && build.crypto {
        SetPhase(c, AppleDhResponse);
      } else if (d.choice == 5 || d.choice == 129) && build.crypto {
        SetPhase(c, RsaPublicKey);
      } else {
        ClientClose(c);
      }
    }

    /** `vencrypt_handle_message` */
    method OnVencryptMessage(c: nat, d: Data)
      requires Inv(View()) && c in clients
      requires clients[c].phase in {VencryptVersion, VencryptSubtype, VencryptPlain}
      modifies this
      ensures View() == Act(old(View()), c, OnVencrypt(old(clients)[c], d), d)
    {
      if clients[c].phase == VencryptVersion {
        if d.major != 0 || d.minor != 2 {
          ClientClose(c);
          return;
        }
        SetPhase(c, VencryptSubtype);
      } else if clients[c].phase == VencryptSubtype {
        if d.extra || d.subtype != 262 || !d.tlsOk {
          ClientClose(c);
          return;
        }
        clients := clients[c := clients[c].(transport := Tls)];
        SetPhase(c, VencryptPlain);
      } else {
        if d.nameLength > 256 || d.passwordLength > 256 {
          ClientClose(c);
          return;
        }
        HandshakeAuthenticate(c);
      }
    }

    /** `rsa_aes_handle_message` */
    method OnRsaAesMessage(c: nat, d: Data)
      requires Inv(View()) && c in clients
      requires clients[c].phase in {RsaPublicKey, RsaChallenge, RsaClientHash, RsaCredentials}
      modifies this
      ensures View() == Act(old(View()), c, OnRsaAes(old(clients)[c], d), d)
    {
      if clients[c].phase == RsaPublicKey {
        if d.keyLength > 1000000 || !d.importOk {
          ClientClose(c);
          return;
        }
        SetPhase(c, RsaChallenge);
      } else if clients[c].phase == RsaChallenge {
        if !d.decryptOk {
          ClientClose(c);
          return;
        }
        if d.rsaOk {
          clients := clients[c := clients[c].(transport := RsaAes)];
        } else {
          clients := clients[c := clients[c].(upgradeFailed := true)];
        }
        SetPhase(c, RsaClientHash);
      } else if clients[c].phase == RsaClientHash {
        if !d.hashOk {
          ClientClose(c);
          return;
        }
        SetPhase(c, RsaCredentials);
      } else {
        HandshakeAuthenticate(c);
      }
    }

    /** `disconnect_all_other_clients` */
    method DisconnectAllOthers(c: nat)
      requires Inv(View()) && c in clients
      modifies this
      ensures View() == Restrict(old(View()), {c})
    {
      var others := clients.Keys - {c};
      assert Restrict(View(), {c} + others) == View() by {
        EveryoneLeft(View(), {c} + others);
      }
      while others != {}
        invariant others == clients.Keys - {c} && c in clients && others <= old(clients).Keys - {c}
        invariant Inv(View()) && View() == Restrict(old(View()), {c} + others)
      {
        var x :| x in others;
        RestrictKeeps(View(), clients.Keys - {x});
        OneLess(old(View()), c, others, x);
        ClientClose(x);
        others := others - {x};
      }
      assert {c} + others == {c};
    }

    /** `on_init_message` */
    method OnInitMessage(c: nat, d: Data)
      requires Inv(View()) && c in clients && clients[c].phase == Initialising
      modifies this
      ensures View() == EnterDesktop(old(View()), c, d)
    {
      if !d.shared {
        RestrictKeeps(View(), {c});
        DisconnectAllOthers(c);
      }
      if !d.initOk {
        ClientClose(c);
        return;
      }
      SetPhase(c, Ready);
    }

    /** `try_read_client_message`, as far as the handshake goes. */
    method TryReadMessage(c: nat, d: Data)
      requires Inv(View()) && !aborted && c in clients
      modifies this
      ensures View() == Next(old(View()), build, Message(c, d)) && Inv(View())
    {
      NextKeeps(View(), build, Message(c, d));
      match clients[c].phase
      case Version => OnVersionMessage(c, d);
      case Security => OnSecurityMessage(c, d);
      case VencryptVersion | VencryptSubtype | VencryptPlain => OnVencryptMessage(c, d);
      case DesResponse | AppleDhResponse => HandshakeAuthenticate(c);
      case RsaPublicKey | RsaChallenge | RsaClientHash | RsaCredentials => OnRsaAesMessage(c, d);
      case Initialising => OnInitMessage(c, d);
      case Authenticating | Ready =>
    }

    /** `nvnc_auth_creds_accept`; the client is in the state that the source asserts. */
    method AuthCredsAccept(k: nat)
      requires Inv(View()) && Enabled(View(), Accepted(k))
      modifies this
      ensures View() == Next(old(View()), build, Accepted(k)) && Inv(View())
    {
      NextKeeps(View(), build, Accepted(k));
      if creds[k].Some? {
        var c := creds[k].value;
        assert clients[c].phase == Authenticating;
        clients := clients[c := clients[c].(accepted := true)];
        SetPhase(c, Initialising);
      }
      creds := creds - {k};
    }

    /** `nvnc_auth_creds_reject` */
    method AuthCredsReject(k: nat)
      requires Inv(View()) && Enabled(View(), Rejected(k))
      modifies this
      ensures View() == Next(old(View()), build, Rejected(k)) && Inv(View())
    {
      NextKeeps(View(), build, Rejected(k));
      if creds[k].Some? {
        var c := creds[k].value;
        assert clients[c].phase == Authenticating;
        ClientClose(c);
      }
      creds := creds - {k};
    }
  }

  lemma EveryoneLeft(s: State, left: set<nat>)
    requires Inv(s) && s.clients.Keys <= left
    ensures Restrict(s, left) == s
  {
  }

  lemma OneLess(s: State, c: nat, others: set<nat>, x: nat)
    requires Inv(s) && x in others && x != c
    ensures CloseClient(Restrict(s, {c} + others), x) == Restrict(s, {c} + (others - {x}))
  {
    var t := Restrict(s, {c} + others);
    RestrictTwice(s, {c} + others, t.clients.Keys - {x});
    var l, r := Restrict(t, t.clients.Keys - {x}), Restrict(s, {c} + (others - {x}));
    assert l.clients == r.clients;
    assert l.creds == r.creds;
  }

  lemma RestrictTwice(s: State, a: set<nat>, b: set<nat>)
    ensures Restrict(Restrict(s, a), b) == Restrict(s, a * b)
  {
    assert Observed(Observed(s.creds, a), b) == Observed(s.creds, a * b);
  }

  /** The version number is noted before the decision, which does not depend on it. */
  lemma MinorDoesNotMatter(t: State, build: Build, c: nat, d: Data)
    requires c in t.clients && d.version == 3 && t.clients[c].phase == Version
    ensures var u := t.(clients := t.clients[c := t.clients[c].(minor := d.version)]);
      Act(u, c, OnVersion33(u, build, u.clients[c]), d) == Act(t, c, OnVersion(t, build, t.clients[c], d), d)
  {
    var u := t.(clients := t.clients[c := t.clients[c].(minor := d.version)]);
    assert OnVersion33(u, build, u.clients[c]) == OnVersion(t, build, t.clients[c], d);
    assert CloseClient(u, c).clients == CloseClient(t, c).clients;
    assert u.clients.Keys == t.clients.Keys;
  }
}
