/**
  The ways in: by each security type on offer a client gets as far as the question to the
  application, and once accepted onto the desktop.
 */
module HandshakeProgress {
  import opened Common
  import opened Handshake

  // ---------------------------------------------------------------- answers

  /** An accepted client gets in with its next message; its transport stays what it was. */
  lemma {:induction false} AcceptedClientGetsIn(build: Build, es: seq<Event>, k: nat, c: nat, d: Data)
    requires After(build, es).Some? && Enabled(After(build, es).value, Accepted(k))
    requires After(build, es).value.creds[k] == Some(c) && d.initOk
    ensures After(build, es + [Accepted(k)] + [Message(c, d)]).Some?
    ensures var t := After(build, es + [Accepted(k)] + [Message(c, d)]).value;
      && c in t.clients && t.clients[c].phase == Ready && t.clients[c].accepted
      && t.clients[c].transport == After(build, es).value.clients[c].transport
      && k !in t.creds && !t.aborted
  {
    var t := Answer(build, es, k, c);
    var u := Admit(build, es + [Accepted(k)], t, c, d);
  }

  lemma {:induction false} Answer(build: Build, es: seq<Event>, k: nat, c: nat) returns (t: State)
    requires After(build, es).Some? && Enabled(After(build, es).value, Accepted(k))
    requires After(build, es).value.creds[k] == Some(c)
    ensures c in After(build, es).value.clients
    ensures After(build, es + [Accepted(k)]) == Some(t) && !t.aborted && c in t.clients && k !in t.creds
    ensures t.clients[c] == After(build, es).value.clients[c].(phase := Initialising, accepted := true)
  {
    t := Extend(build, es, After(build, es).value, Accepted(k));
  }

  lemma {:induction false} Admit(build: Build, es: seq<Event>, s: State, c: nat, d: Data) returns (t: State)
    requires After(build, es) == Some(s) && !s.aborted && d.initOk
    requires c in s.clients && s.clients[c].phase == Initialising
    ensures After(build, es + [Message(c, d)]) == Some(t) && !t.aborted && c in t.clients
    ensures t.clients[c] == s.clients[c].(phase := Ready) && t.creds.Keys == s.creds.Keys
  {
    t := Extend(build, es, s, Message(c, d));
  }

  /** A rejected client is gone, and no credentials observe it any more. */
  lemma {:induction false} RejectedClientIsGone(build: Build, es: seq<Event>, k: nat, c: nat)
    requires After(build, es).Some? && Enabled(After(build, es).value, Rejected(k))
    requires After(build, es).value.creds[k] == Some(c)
    ensures After(build, es + [Rejected(k)]).Some?
    ensures var s, t := After(build, es).value, After(build, es + [Rejected(k)]).value;
      && t.clients == s.clients - {c} && k !in t.creds && forall j :: j in t.creds ==> t.creds[j] != Some(c)
  {
    var t := Extend(build, es, After(build, es).value, Rejected(k));
  }

  /** What concerns client `c`: its messages, its end, its answers, and a client that wants to be alone. */
  predicate Concerns(s: State, e: Event, c: nat) {
    match e
    case Message(x, d) => x == c || (x in s.clients && s.clients[x].phase == Initialising && !d.shared)
    case HangUp(x) => x == c
    case Accepted(k) => k in s.creds && s.creds[k] == Some(c)
    case Rejected(k) => k in s.creds && s.creds[k] == Some(c)
    case _ => false
  }

  /** Nothing else touches a client, nor the question that is open about it. */
  lemma {:induction false} OthersDoNotMatter(s: State, build: Build, e: Event, c: nat)
    requires Inv(s) && Enabled(s, e) && c in s.clients && !Concerns(s, e, c)
    ensures var t := Next(s, build, e);
      && c in t.clients && t.clients[c] == s.clients[c]
      && forall k :: k in s.creds && s.creds[k] == Some(c) ==> k in t.creds && t.creds[k] == Some(c)
  {
    if e.Message? {
      OthersMessages(s, build, e.c, e.d, c);
    }
  }

  lemma {:induction false} OthersMessages(s: State, build: Build, x: nat, d: Data, c: nat)
    requires Inv(s) && x in s.clients && c in s.clients && x != c
    requires s.clients[x].phase != Initialising || d.shared
    ensures var t := Receive(s, build, x, d);
      && c in t.clients && t.clients[c] == s.clients[c]
      && forall k :: k in s.creds && s.creds[k] == Some(c) ==> k in t.creds && t.creds[k] == Some(c)
  {
    var t := if s.clients[x].phase == Version && d.version >= 0 then InitTypes(s, build) else s;
    if !t.aborted && OnMessage(t, build, s.clients[x], d).Some? {
      ActsOnOne(t, x, OnMessage(t, build, s.clients[x], d).value, d, c);
    }
  }

  lemma {:induction false} ActsOnOne(s: State, x: nat, a: Action, d: Data, c: nat)
    requires Inv(s) && x in s.clients && c in s.clients && x != c && (a.Enter? ==> d.shared)
    ensures var t := Act(s, x, a, d);
      && c in t.clients && t.clients[c] == s.clients[c]
      && forall k :: k in s.creds && s.creds[k] == Some(c) ==> k in t.creds && t.creds[k] == Some(c)
  {
  }

  lemma {:induction false} Extend(build: Build, es: seq<Event>, s: State, e: Event) returns (t: State)
    requires After(build, es) == Some(s) && Enabled(s, e)
    ensures Inv(s) && t == Next(s, build, e) && After(build, es + [e]) == Some(t)
  {
    assert (es + [e])[..|es|] == es;
    AfterOne(build, es + [e], |es|, s);
    assert (es + [e])[..|es| + 1] == es + [e];
    t := Next(s, build, e);
  }

  // ---------------------------------------------------------------- what is on offer

  lemma OfferedIff(build: Build, flags: Flags, choice: nat)
    ensures choice in SecurityTypes(build, flags) <==> (match choice
      case 1 => !flags.requireAuth
      case 19 => flags.requireAuth && build.tls && build.certificate
      case 5 | 129 => flags.requireAuth && build.crypto
      case 30 => flags.requireAuth && build.crypto && !flags.requireEncryption
      case 2 =>
        && flags.requireAuth && build.crypto && !flags.requireEncryption
        && flags.allowBroken && !flags.requireUsername
      case _ => false)
  {
  }

  /** The list made for the first client, which the later ones share. */
  function Offer(s: State, build: Build): seq<nat> { if s.types == [] then SecurityTypes(build, s.flags) else s.types }

  predicate Supported(build: Build, choice: nat) {
    match choice
    case 1 => true
    case 19 => build.tls
    case 2 | 5 | 30 | 129 => build.crypto
    case _ => false
  }

  /** Nothing is ever offered that the build cannot do. */
  lemma {:induction false} OfferIsSupported(build: Build, es: seq<Event>, choice: nat)
    requires After(build, es).Some? && choice in Offer(After(build, es).value, build)
    ensures Supported(build, choice)
  {
    var s := After(build, es).value;
    if s.types == [] {
      OfferedIff(build, s.flags, choice);
    } else {
      TypesAreMade(build, es);
      var flags :| s.types == SecurityTypes(build, flags);
      OfferedIff(build, flags, choice);
    }
  }

  lemma {:induction false} TypesAreMade(build: Build, es: seq<Event>)
    requires After(build, es).Some? && After(build, es).value.types != []
    ensures exists flags :: After(build, es).value.types == SecurityTypes(build, flags)
  {
    var before := es[..|es| - 1];
    var s, e := After(build, before).value, es[|es| - 1];
    if s.types != [] {
      TypesAreMade(build, before);
    }
    TypesOfNext(s, build, e);
  }

  lemma TypesOfNext(s: State, build: Build, e: Event)
    requires Inv(s) && Enabled(s, e)
    ensures Next(s, build, e).types in {s.types, SecurityTypes(build, s.flags)}
  {
  }

  // ---------------------------------------------------------------- the ways in

  /** The phases that a security type leads through. */
  function Way(choice: nat): seq<Phase> {
    [Version, Security] + match choice
      case 1 => [Initialising]
      case 19 => [VencryptVersion, VencryptSubtype, VencryptPlain, Authenticating]
      case 5 | 129 => [RsaPublicKey, RsaChallenge, RsaClientHash, RsaCredentials, Authenticating]
      case 30 => [AppleDhResponse, Authenticating]
      case _ => [DesResponse, Authenticating]
  }

  /** What the type makes of the transport. */
  function Secured(choice: nat): Transport {
    if choice == 19 then Tls else if choice in {5, 129} then RsaAes else Plain
  }

  /** Well-formed messages of a client that knows version 3.7 or later and chooses this type. */
  predicate Fine(d: Data, choice: nat) {
    && d.version > 3 && d.choice == choice
    && d.major == 0 && d.minor == 2 && !d.extra && d.subtype == 262 && d.tlsOk
    && d.nameLength <= 256 && d.passwordLength <= 256
    && d.keyLength <= 1000000 && d.importOk && d.decryptOk && d.rsaOk && d.hashOk
  }

  function Messages(c: nat, ds: seq<Data>): (es: seq<Event>)
    ensures |es| == |ds|
  {
    if ds == [] then [] else Messages(c, ds[..|ds| - 1]) + [Message(c, ds[|ds| - 1])]
  }

  /** Where a client is after `i` of its messages; `asked` are the credentials handed out for it. */
  ghost predicate IsOnItsWay(s: State, build: Build, c: nat, choice: nat, i: nat, k: nat) {
    && !s.aborted && choice in Offer(s, build) && c in s.clients && i < |Way(choice)|
    && s.clients[c].phase == Way(choice)[i] && !s.clients[c].accepted
    && s.clients[c].transport == TransportAt(choice, i) && (i > 0 ==> s.types != [])
    && (s.clients[c].phase == Authenticating ==> s.clients[c].asked && k in s.creds && s.creds[k] == Some(c))
    && (s.clients[c].phase != Authenticating ==> s.nextCred == k)
  }

  /** TLS begins with the subtype, RSA-AES with the challenge. */
  function TransportAt(choice: nat, i: nat): Transport { if i <= 3 then Plain else Secured(choice) }

  /** The version message makes the list, if it is the first. */
  lemma {:induction false} VersionMessage(s: State, build: Build, c: nat, choice: nat, k: nat, d: Data)
    requires Inv(s) && IsOnItsWay(s, build, c, choice, 0, k) && Fine(d, choice)
    ensures IsOnItsWay(Next(s, build, Message(c, d)), build, c, choice, 1, k)
  {
  }

  lemma {:induction false} Goes(s: State, build: Build, c: nat, d: Data, client: Client)
    requires Inv(s) && Enabled(s, Message(c, d)) && s.clients[c].phase != Version
    requires OnMessage(s, build, s.clients[c], d) == Some(Go(client))
    ensures Next(s, build, Message(c, d)) == s.(clients := s.clients[c := client])
  {
  }

  lemma {:induction false} IsAskedAbout(s: State, build: Build, c: nat, d: Data)
    requires Inv(s) && Enabled(s, Message(c, d)) && s.clients[c].phase != Version
    requires OnMessage(s, build, s.clients[c], d) == Some(Ask)
    ensures var t := Next(s, build, Message(c, d));
      && t == s.(clients := t.clients, creds := t.creds, nextCred := s.nextCred + 1)
      && c in t.clients && t.clients[c] == s.clients[c].(phase := Authenticating, asked := true)
      && s.nextCred in t.creds && t.creds[s.nextCred] == Some(c)
  {
  }

  /** The message that is due at place `i > 0`: the last one leads to the question, the others further on. */
  lemma {:induction false} Replies(s: State, build: Build, c: Client, choice: nat, i: nat, d: Data)
    requires 0 < i && i + 1 < |Way(choice)| && c.phase == Way(choice)[i] && c.transport == TransportAt(choice, i)
    requires choice in s.types && Supported(build, choice) && Fine(d, choice)
    ensures OnMessage(s, build, c, d) == Some(
      if Way(choice)[i + 1] == Authenticating then Ask
      else Go(c.(phase := Way(choice)[i + 1], transport := TransportAt(choice, i + 1))))
    ensures Way(choice)[i + 1] == Authenticating ==> TransportAt(choice, i + 1) == c.transport
    ensures c.phase != Version && c.phase != Authenticating
  {
  }

  lemma {:induction false} OneMessage(s: State, build: Build, c: nat, choice: nat, i: nat, k: nat, d: Data)
    requires Inv(s) && IsOnItsWay(s, build, c, choice, i, k) && i + 1 < |Way(choice)|
    requires Supported(build, choice) && Fine(d, choice)
    ensures IsOnItsWay(Next(s, build, Message(c, d)), build, c, choice, i + 1, k)
  {
    if i == 0 {
      VersionMessage(s, build, c, choice, k, d);
    } else {
      var client := s.clients[c];
      Replies(s, build, client, choice, i, d);
      if Way(choice)[i + 1] == Authenticating {
        IsAskedAbout(s, build, c, d);
      } else {
        Goes(s, build, c, d, client.(phase := Way(choice)[i + 1], transport := TransportAt(choice, i + 1)));
      }
    }
  }

  lemma {:induction false} GoesItsWay(build: Build, es: seq<Event>, choice: nat, ds: seq<Data>) returns (t: State)
    requires After(build, es).Some? && !After(build, es).value.aborted
    requires choice in Offer(After(build, es).value, build)
    requires |ds| < |Way(choice)| && forall i :: 0 <= i < |ds| ==> Fine(ds[i], choice)
    ensures var s := After(build, es).value;
      && After(build, es + [Connect] + Messages(s.nextClient, ds)) == Some(t)
      && IsOnItsWay(t, build, s.nextClient, choice, |ds|, s.nextCred)
  {
    var s := After(build, es).value;
    if ds == [] {
      t := Extend(build, es, s, Connect);
      assert es + [Connect] + [] == es + [Connect];
    } else {
      var n := |ds| - 1;
      var u := GoesItsWay(build, es, choice, ds[..n]);
      var run := es + [Connect] + Messages(s.nextClient, ds[..n]);
      OfferIsSupported(build, es, choice);
      t := Extend(build, run, u, Message(s.nextClient, ds[n]));
      OneMessage(u, build, s.nextClient, choice, n, s.nextCred, ds[n]);
      assert run + [Message(s.nextClient, ds[n])] == es + [Connect] + Messages(s.nextClient, ds);
    }
  }

  /** The whole run of a new client: connection, messages, the answer where one is needed, the init message. */
  function Visit(s: State, choice: nat, ds: seq<Data>, init: Data): seq<Event> {
    [Connect] + Messages(s.nextClient, ds) + Last(s.nextClient, s.nextCred, choice, init)
  }

  function Last(c: nat, k: nat, choice: nat, init: Data): seq<Event> {
    (if choice == 1 then [] else [Accepted(k)]) + [Message(c, init)]
  }

  /**
    In every state that a server comes to, a new client gets in by every type on offer: its
    messages lead to the question, the acceptance and its init message to the desktop, on the
    transport of that type.
   */
  lemma {:induction false} EveryOfferLetsIn(
      build: Build, es: seq<Event>, choice: nat, ds: seq<Data>, init: Data) returns (t: State)
    requires After(build, es).Some? && !After(build, es).value.aborted
    requires choice in Offer(After(build, es).value, build)
    requires |ds| + 1 == |Way(choice)| && forall i :: 0 <= i < |ds| ==> Fine(ds[i], choice)
    requires init.initOk
    ensures After(build, es + Visit(After(build, es).value, choice, ds, init)) == Some(t)
    ensures var c := After(build, es).value.nextClient;
      && c in t.clients && t.clients[c].phase == Ready && t.clients[c].transport == Secured(choice)
      && (choice != 1 ==> t.clients[c].asked && t.clients[c].accepted)
  {
    var s := After(build, es).value;
    var u := GoesItsWay(build, es, choice, ds);
    var run := es + [Connect] + Messages(s.nextClient, ds);
    OfferIsSupported(build, es, choice);
    t := GetsOnto(build, run, u, s.nextClient, choice, s.nextCred, init);
    Regroup(es, [Connect], Messages(s.nextClient, ds), Last(s.nextClient, s.nextCred, choice, init));
  }

  lemma Regroup<T>(a: seq<T>, b: seq<T>, c: seq<T>, d: seq<T>)
    ensures a + (b + c + d) == (a + b) + c + d
  {
  }

  lemma {:induction false} GetsOnto(
      build: Build, es: seq<Event>, s: State, c: nat, choice: nat, k: nat, init: Data) returns (t: State)
    requires After(build, es) == Some(s) && Supported(build, choice) && init.initOk
    requires IsOnItsWay(s, build, c, choice, |Way(choice)| - 1, k)
    ensures After(build, es + Last(c, k, choice, init)) == Some(t)
    ensures c in t.clients && t.clients[c].phase == Ready && t.clients[c].transport == Secured(choice)
    ensures choice != 1 ==> t.clients[c].asked && t.clients[c].accepted
  {
    if choice == 1 {
      t := Admit(build, es, s, c, init);
      assert es + Last(c, k, choice, init) == es + [Message(c, init)];
    } else {
      assert es + Last(c, k, choice, init) == es + [Accepted(k)] + [Message(c, init)];
      var a := Answer(build, es, k, c);
      t := Admit(build, es + [Accepted(k)], a, c, init);
    }
  }

  /** So it is with the demands made first: every type they leave on offer leads to an accepted client. */
  lemma {:induction false} DemandsLeaveAWayIn(
      build: Build, flags: Flags, choice: nat, ds: seq<Data>, init: Data) returns (t: State)
    requires flags.requireAuth && choice in SecurityTypes(build, flags)
    requires |ds| + 1 == |Way(choice)| && forall i :: 0 <= i < |ds| ==> Fine(ds[i], choice)
    requires init.initOk
    ensures After(build, [EnableAuth(flags), Connect] + Messages(0, ds) + [Accepted(0), Message(0, init)]) == Some(t)
    ensures 0 in t.clients && t.clients[0].phase == Ready && t.clients[0].asked && t.clients[0].accepted
    ensures t.clients[0].transport == Secured(choice)
  {
    var s := Extend(build, [], Init(), EnableAuth(flags));
    assert [] + [EnableAuth(flags)] == [EnableAuth(flags)];
    OfferedIff(build, flags, choice);
    t := EveryOfferLetsIn(build, [EnableAuth(flags)], choice, ds, init);
    Regroup([EnableAuth(flags)], [Connect], Messages(0, ds), Last(0, 0, choice, init));
    assert [EnableAuth(flags)] + [Connect] == [EnableAuth(flags), Connect];
    assert Last(0, 0, choice, init) == [Accepted(0), Message(0, init)];
  }

  /** What a message may not be, phase by phase. */
  predicate Unacceptable(s: State, build: Build, c: Client, d: Data) {
    match c.phase
    case Version => d.version < 0 || (d.version == 3 && s.flags.requireAuth && 2 !in Offer(s, build))
    case Security => d.choice !in s.types
    case VencryptVersion => d.major != 0 || d.minor != 2
    case VencryptSubtype => d.extra || d.subtype != 262 || !d.tlsOk
    case VencryptPlain => d.nameLength > 256 || d.passwordLength > 256
    case RsaPublicKey => d.keyLength > 1000000 || !d.importOk
    case RsaChallenge => !d.decryptOk
    case RsaClientHash => !d.hashOk
    case Initialising => !d.initOk
    case _ => false
  }

  /** A message ends its sender's connection exactly if it is unacceptable; where the server has no way in to offer it gives up. */
  lemma {:induction false} ClosedIff(build: Build, es: seq<Event>, c: nat, d: Data)
    requires After(build, es).Some? && Enabled(After(build, es).value, Message(c, d))
    ensures var s := After(build, es).value; var t := Next(s, build, Message(c, d));
      && (!t.aborted ==> (c !in t.clients <==> Unacceptable(s, build, s.clients[c], d)))
      && (t.aborted <==> s.clients[c].phase == Version && d.version >= 0 && Offer(s, build) == [])
  {
    var s := After(build, es).value;
    forall choice | choice in Offer(s, build) ensures Supported(build, choice) {
      OfferIsSupported(build, es, choice);
    }
    if s.clients[c].phase == Version {
      ClosedByVersionIff(s, build, c, d);
    } else {
      ClosedLaterIff(s, build, c, d);
    }
  }

  lemma {:induction false} ClosedByVersionIff(s: State, build: Build, c: nat, d: Data)
    requires Inv(s) && Enabled(s, Message(c, d)) && s.clients[c].phase == Version
    requires forall choice :: choice in Offer(s, build) ==> Supported(build, choice)
    ensures var t := Next(s, build, Message(c, d));
      && (!t.aborted ==> (c !in t.clients <==> Unacceptable(s, build, s.clients[c], d)))
      && (t.aborted <==> d.version >= 0 && Offer(s, build) == [])
  {
  }

  lemma {:induction false} ClosedLaterIff(s: State, build: Build, c: nat, d: Data)
    requires Inv(s) && Enabled(s, Message(c, d)) && s.clients[c].phase != Version
    requires forall choice :: choice in s.types ==> Supported(build, choice)
    ensures var t := Next(s, build, Message(c, d));
      !t.aborted && (c !in t.clients <==> Unacceptable(s, build, s.clients[c], d))
  {
  }

  /** Version 3.3 has no choice of types: where authentication is demanded, the way is that of type 2. */
  lemma {:induction false} OldClientIsAskedAbout(
      build: Build, es: seq<Event>, c: nat, d: Data, response: Data) returns (t: State)
    requires After(build, es).Some? && !After(build, es).value.aborted
    requires var s := After(build, es).value;
      && c in s.clients && s.clients[c].phase == Version && s.flags.requireAuth && 2 in Offer(s, build)
    requires d.version == 3
    ensures After(build, es + [Message(c, d)] + [Message(c, response)]) == Some(t)
    ensures var k := After(build, es).value.nextCred;
      && c in t.clients && t.clients[c].phase == Authenticating && t.clients[c].minor == 3
      && k in t.creds && t.creds[k] == Some(c)
  {
    var s := After(build, es).value;
    OfferIsSupported(build, es, 2);
    OldVersion(s, build, c, d);
    var u := Extend(build, es, s, Message(c, d));
    IsAskedAbout(u, build, c, response);
    t := Extend(build, es + [Message(c, d)], u, Message(c, response));
  }

  lemma {:induction false} OldVersion(s: State, build: Build, c: nat, d: Data)
    requires Inv(s) && Enabled(s, Message(c, d)) && d.version == 3 && build.crypto
    requires s.clients[c].phase == Version && s.flags.requireAuth && 2 in Offer(s, build)
    ensures var t := Next(s, build, Message(c, d));
      && !t.aborted && t.nextCred == s.nextCred && c in t.clients
      && t.clients[c].phase == DesResponse && t.clients[c].minor == 3
  {
  }
}
