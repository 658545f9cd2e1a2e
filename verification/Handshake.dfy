/**
  The security handshake: which ways in a server offers, the phases a client goes through,
  and the credentials that the application accepts or rejects at any later time.
 */
module Handshake {
  import opened Common

  datatype Phase =
    | Version | Security
    | VencryptVersion | VencryptSubtype | VencryptPlain
    | DesResponse | AppleDhResponse
    | RsaPublicKey | RsaChallenge | RsaClientHash | RsaCredentials
    | Initialising | Authenticating | Ready

  datatype Transport = Plain | Tls | RsaAes

  /** `asked`, `accepted` and `upgradeFailed` are history. */
  datatype Client = Client(
    phase: Phase, minor: int, transport: Transport, asked: bool, accepted: bool, upgradeFailed: bool)

  datatype Flags = Flags(requireAuth: bool, requireEncryption: bool, allowBroken: bool, requireUsername: bool)

  /** What the library was built with, and whether a certificate was loaded. */
  datatype Build = Build(tls: bool, crypto: bool, certificate: bool)

  /**
    `creds` holds the credentials handed to the application and not yet answered, each with
    the client it observes, if that is still there. `aborted` says that the server gave up.
   */
  datatype State = State(
    flags: Flags, types: seq<nat>, clients: map<nat, Client>, creds: map<nat, Option<nat>>,
    nextClient: nat, nextCred: nat, aborted: bool)

  function Init(): State { State(Flags(false, false, false, false), [], map[], map[], 0, 0, false) }

  /**
    What the handler of the current phase finds in the bytes it reads (the version, a
    security type, lengths and so on), and what the libraries it calls report.
   */
  datatype Data = Data(
    version: int, choice: nat, major: nat, minor: nat, extra: bool, subtype: nat,
    nameLength: nat, passwordLength: nat, keyLength: nat, shared: bool,
    tlsOk: bool, importOk: bool, decryptOk: bool, rsaOk: bool, hashOk: bool, initOk: bool)

  // ---------------------------------------------------------------- security types

  /** None 1, VNC authentication 2, RSA-AES 5, VeNCrypt 19, Apple DH 30, RSA-AES-256 129. */
  function SecurityTypes(build: Build, flags: Flags): seq<nat> {
    if !flags.requireAuth then [1]
    else
      var vencrypt := if build.tls && build.certificate then [19] else [];
      var broken := if flags.allowBroken && !flags.requireUsername then [2] else [];
      var unencrypted := if flags.requireEncryption then [] else [30] + broken;
      if build.crypto then vencrypt + [129, 5] + unencrypted else vencrypt
  }

  /** The list is made once, for the first client; having none is fatal. */
  function InitTypes(s: State, build: Build): State {
    if s.types != [] then s
    else s.(types := SecurityTypes(build, s.flags), aborted := SecurityTypes(build, s.flags) == [])
  }

  // ---------------------------------------------------------------- phases

  datatype Action = Close | Go(client: Client) | Ask | Enter

  function OnVersion33(s: State, build: Build, c: Client): Action {
    if build.crypto && s.flags.requireAuth && 2 in s.types then Go(c.(phase := DesResponse))
    else if s.flags.requireAuth then Close
    else Go(c.(phase := Initialising))
  }

  function OnVersion(s: State, build: Build, c: Client, d: Data): Action {
    if d.version < 0 then Close
    else if d.version == 3 then OnVersion33(s, build, c.(minor := 3))
    else Go(c.(minor := d.version, phase := Security))
  }

  function OnSecurity(s: State, build: Build, c: Client, d: Data): Action {
    if d.choice !in s.types then Close
    else if d.choice == 1 then Go(c.(phase := Initialising))
    else if d.choice == 19 && build.tls then Go(c.(phase := VencryptVersion))
    else if !build.crypto then Close
    else if d.choice == 2 then Go(c.(phase := DesResponse))
    else if d.choice == 30 then Go(c.(phase := AppleDhResponse))
    else if d.choice == 5 || d.choice == 129 then Go(c.(phase := RsaPublicKey))
    else Close
  }

  /** The VeNCrypt subtype X509Plain is 262. */
  function OnVencrypt(c: Client, d: Data): Action {
    match c.phase
    case VencryptVersion => if d.major != 0 || d.minor != 2 then Close else Go(c.(phase := VencryptSubtype))
    case VencryptSubtype =>
      if d.extra || d.subtype != 262 || !d.tlsOk then Close
      else Go(c.(phase := VencryptPlain, transport := Tls))
    case _ => if d.nameLength > 256 || d.passwordLength > 256 then Close else Ask
  }

  /** The result of the upgrade to RSA-AES is not looked at. */
  function OnRsaAes(c: Client, d: Data): Action {
    match c.phase
    case RsaPublicKey => if d.keyLength > 1000000 || !d.importOk then Close else Go(c.(phase := RsaChallenge))
    case RsaChallenge =>
      if !d.decryptOk then Close
      else if d.rsaOk then Go(c.(phase := RsaClientHash, transport := RsaAes))
      else Go(c.(phase := RsaClientHash, upgradeFailed := true))
    case RsaClientHash => if !d.hashOk then Close else Go(c.(phase := RsaCredentials))
    case _ => Ask
  }

  /** What a complete message does to its sender; `None` where messages wait. */
  function OnMessage(s: State, build: Build, c: Client, d: Data): Option<Action> {
    match c.phase
    case Version => Some(OnVersion(s, build, c, d))
    case Security => Some(OnSecurity(s, build, c, d))
    case VencryptVersion | VencryptSubtype | VencryptPlain => Some(OnVencrypt(c, d))
    case DesResponse | AppleDhResponse => Some(Ask)
    case RsaPublicKey | RsaChallenge | RsaClientHash | RsaCredentials => Some(OnRsaAes(c, d))
    case Initialising => Some(Enter)
    case Authenticating | Ready => None
  }

  // ---------------------------------------------------------------- the server

  /** Clients other than those in `left` are gone, and no longer observed. */
  function Observed(creds: map<nat, Option<nat>>, left: set<nat>): map<nat, Option<nat>> {
    map k | k in creds :: if creds[k].Some? && creds[k].value !in left then None else creds[k]
  }

  function Restrict(s: State, left: set<nat>): State {
    s.(clients := map c | c in s.clients && c in left :: s.clients[c], creds := Observed(s.creds, left))
  }

  function CloseClient(s: State, c: nat): State { Restrict(s, s.clients.Keys - {c}) }

  /** `security_handshake_authenticate` */
  function Authenticate(s: State, c: nat): State
    requires c in s.clients
  {
    s.(clients := s.clients[c := s.clients[c].(phase := Authenticating, asked := true)],
       creds := s.creds[s.nextCred := Some(c)], nextCred := s.nextCred + 1)
  }

  /** `on_init_message`: a client that does not share is left alone. */
  function EnterDesktop(s: State, c: nat, d: Data): State
    requires c in s.clients
  {
    var t := if d.shared then s else Restrict(s, {c});
    if d.initOk then t.(clients := t.clients[c := s.clients[c].(phase := Ready)]) else CloseClient(t, c)
  }

  function Act(s: State, c: nat, a: Action, d: Data): State
    requires c in s.clients
  {
    match a
    case Close => CloseClient(s, c)
    case Go(client) => s.(clients := s.clients[c := client])
    case Ask => Authenticate(s, c)
    case Enter => EnterDesktop(s, c, d)
  }

  function Receive(s: State, build: Build, c: nat, d: Data): State
    requires c in s.clients
  {
    var t := if s.clients[c].phase == Version && d.version >= 0 then InitTypes(s, build) else s;
    if t.aborted then t
    else match OnMessage(t, build, s.clients[c], d)
      case None => t
      case Some(a) => Act(t, c, a, d)
  }

  /** `nvnc_auth_creds_accept` */
  function Accept(s: State, k: nat): State
    requires k in s.creds && (s.creds[k].Some? ==> s.creds[k].value in s.clients)
  {
    match s.creds[k]
    case None => s.(creds := s.creds - {k})
    case Some(c) =>
      s.(clients := s.clients[c := s.clients[c].(phase := Initialising, accepted := true)], creds := s.creds - {k})
  }

  /** `nvnc_auth_creds_reject` */
  function Reject(s: State, k: nat): State
    requires k in s.creds
  {
    match s.creds[k]
    case None => s.(creds := s.creds - {k})
    case Some(c) => var t := CloseClient(s, c); t.(creds := t.creds - {k})
  }

  datatype Event =
    | EnableAuth(flags: Flags)
    | Connect
    | Message(c: nat, d: Data)
    | HangUp(c: nat)
    | Accepted(k: nat)
    | Rejected(k: nat)

  predicate Enabled(s: State, e: Event) {
    !s.aborted && match e
      case EnableAuth(_) => true
      case Connect => true
      case Message(c, _) => c in s.clients
      case HangUp(c) => c in s.clients
      case Accepted(k) => k in s.creds
      case Rejected(k) => k in s.creds
  }

  function Next(s: State, build: Build, e: Event): State
    requires Inv(s) && Enabled(s, e)
  {
    match e
    case EnableAuth(flags) => s.(flags := flags)
    case Connect =>
      s.(clients := s.clients[s.nextClient := Client(Version, 0, Plain, false, false, false)],
         nextClient := s.nextClient + 1)
    case Message(c, d) => Receive(s, build, c, d)
    case HangUp(c) => CloseClient(s, c)
    case Accepted(k) => Accept(s, k)
    case Rejected(k) => Reject(s, k)
  }

  // ---------------------------------------------------------------- the invariant

  /** Credentials observe a client that waits for the answer, and no client is asked about twice. */
  ghost predicate Inv(s: State) {
    && (forall c :: c in s.clients ==> c < s.nextClient)
    && (forall k :: k in s.creds ==> k < s.nextCred)
    && (forall k :: k in s.creds && s.creds[k].Some? ==>
          s.creds[k].value in s.clients && s.clients[s.creds[k].value].phase == Authenticating)
    && (forall k, j :: k in s.creds && j in s.creds && k != j && s.creds[k].Some? ==> s.creds[k] != s.creds[j])
  }

  lemma RestrictKeeps(s: State, left: set<nat>)
    requires Inv(s)
    ensures Inv(Restrict(s, left))
  {
  }

  lemma ActKeeps(s: State, c: nat, a: Action, d: Data)
    requires Inv(s) && c in s.clients && s.clients[c].phase != Authenticating
    ensures Inv(Act(s, c, a, d))
  {
    match a
    case Close => RestrictKeeps(s, s.clients.Keys - {c});
    case Go(client) =>
    case Ask =>
    case Enter =>
      RestrictKeeps(s, {c});
      var t := if d.shared then s else Restrict(s, {c});
      RestrictKeeps(t, t.clients.Keys - {c});
  }

  lemma {:induction false} ReceiveKeeps(s: State, build: Build, c: nat, d: Data)
    requires Inv(s) && c in s.clients
    ensures Inv(Receive(s, build, c, d))
  {
    var t := if s.clients[c].phase == Version && d.version >= 0 then InitTypes(s, build) else s;
    assert Inv(t);
    if !t.aborted && s.clients[c].phase != Authenticating && s.clients[c].phase != Ready {
      ActKeeps(t, c, OnMessage(t, build, s.clients[c], d).value, d);
    }
  }

  lemma {:induction false} NextKeeps(s: State, build: Build, e: Event)
    requires Inv(s) && Enabled(s, e)
    ensures Inv(Next(s, build, e))
  {
    match e
    case EnableAuth(_) =>
    case Connect =>
    case Message(c, d) => ReceiveKeeps(s, build, c, d);
    case HangUp(c) => RestrictKeeps(s, s.clients.Keys - {c});
    case Accepted(k) =>
    case Rejected(k) =>
      if s.creds[k].Some? {
        RestrictKeeps(s, s.clients.Keys - {s.creds[k].value});
      }
  }

  ghost function After(build: Build, es: seq<Event>): (s: Option<State>)
    ensures s.Some? ==> Inv(s.value)
  {
    if es == [] then Some(Init())
    else
      match After(build, es[..|es| - 1])
      case None => None
      case Some(s) =>
        var e := es[|es| - 1];
        if Enabled(s, e) then NextKeeps(s, build, e); Some(Next(s, build, e)) else None
  }

  /** An answer always finds its client waiting for it, or gone. */
  lemma {:induction false} AnswersFindAWaitingClient(build: Build, es: seq<Event>, k: nat)
    requires After(build, es).Some? && k in After(build, es).value.creds
    ensures var s := After(build, es).value;
      s.creds[k].Some? ==> s.creds[k].value in s.clients && s.clients[s.creds[k].value].phase == Authenticating
  {
  }

  /** An answer to credentials whose client is gone changes no client. */
  lemma {:induction false} LateAnswersChangeNoClient(build: Build, es: seq<Event>, k: nat)
    requires After(build, es).Some? && Enabled(After(build, es).value, Accepted(k))
    requires After(build, es).value.creds[k] == None
    ensures var s := After(build, es).value;
      Next(s, build, Accepted(k)).clients == s.clients && Next(s, build, Rejected(k)).clients == s.clients
  {
  }

  /** Once a client is gone, the credentials it left behind observe nobody, in every later state. */
  lemma ClosedClientIsForgotten(s: State, build: Build, c: nat)
    requires Inv(s) && Enabled(s, HangUp(c))
    ensures var t := Next(s, build, HangUp(c));
      c !in t.clients && t.nextClient == s.nextClient && forall k :: k in t.creds ==> t.creds[k] != Some(c)
  {
  }

  // ---------------------------------------------------------------- no way around

  /** The demands of the application: authentication, and encryption too if `enc`. */
  predicate Demands(flags: Flags, enc: bool) { flags.requireAuth && (enc ==> flags.requireEncryption) }

  predicate IsEncrypted(c: Client) { c.transport != Plain || c.upgradeFailed }

  predicate ClientOk(c: Client, enc: bool) {
    match c.phase
    case Version | Security | VencryptVersion | VencryptSubtype | RsaPublicKey | RsaChallenge => true
    case DesResponse | AppleDhResponse => !enc
    case VencryptPlain | RsaClientHash | RsaCredentials => enc ==> IsEncrypted(c)
    case Authenticating => c.asked && (enc ==> IsEncrypted(c))
    case Initialising | Ready => c.asked && c.accepted && (enc ==> IsEncrypted(c))
  }

  predicate TypesOk(types: seq<nat>, enc: bool) { 1 !in types && (enc ==> 2 !in types && 30 !in types) }

  ghost predicate Strict(s: State, enc: bool) {
    && (forall c :: c in s.clients ==> ClientOk(s.clients[c], enc))
    && (s.nextClient > 0 ==> Demands(s.flags, enc))
    && (s.types != [] ==> s.nextClient > 0)
    && TypesOk(s.types, enc)
  }

  /** The demands are made before the first connection and never taken back. */
  predicate KeepsDemands(s: State, e: Event, enc: bool) {
    && (e.Connect? ==> Demands(s.flags, enc))
    && (e.EnableAuth? && s.nextClient > 0 ==> Demands(e.flags, enc))
  }

  /** What a message may ask for keeps its sender within the demands. */
  predicate ActionOk(c: Client, a: Action, enc: bool) {
    match a
    case Close => true
    case Go(client) => ClientOk(client, enc)
    case Ask => enc ==> IsEncrypted(c)
    case Enter => c.asked && c.accepted && (enc ==> IsEncrypted(c))
  }

  lemma MessageIsOk(s: State, build: Build, c: Client, d: Data, enc: bool)
    requires ClientOk(c, enc) && Demands(s.flags, enc) && TypesOk(s.types, enc)
    requires OnMessage(s, build, c, d).Some?
    ensures ActionOk(c, OnMessage(s, build, c, d).value, enc)
  {
  }

  lemma ActIsStrict(s: State, c: nat, a: Action, d: Data, enc: bool)
    requires Strict(s, enc) && c in s.clients && ActionOk(s.clients[c], a, enc)
    ensures Strict(Act(s, c, a, d), enc)
  {
  }

  lemma {:induction false} NextIsStrict(s: State, build: Build, e: Event, enc: bool)
    requires Inv(s) && Enabled(s, e) && Strict(s, enc) && KeepsDemands(s, e, enc)
    ensures Strict(Next(s, build, e), enc)
  {
    match e
    case Message(c, d) =>
      var t := if s.clients[c].phase == Version && d.version >= 0 then InitTypes(s, build) else s;
      assert Strict(t, enc);
      if !t.aborted && OnMessage(t, build, s.clients[c], d).Some? {
        assert ClientOk(s.clients[c], enc);
        MessageIsOk(t, build, s.clients[c], d, enc);
        ActIsStrict(t, c, OnMessage(t, build, s.clients[c], d).value, d, enc);
      }
    case _ =>
  }

  ghost predicate Disciplined(build: Build, es: seq<Event>, enc: bool) {
    forall i :: 0 <= i < |es| && After(build, es[..i]).Some? ==> KeepsDemands(After(build, es[..i]).value, es[i], enc)
  }

  lemma {:induction false} RunsAreStrict(build: Build, es: seq<Event>, enc: bool)
    requires After(build, es).Some? && Disciplined(build, es, enc)
    ensures Strict(After(build, es).value, enc)
  {
    if es != [] {
      var before := es[..|es| - 1];
      forall i | 0 <= i < |before| && After(build, before[..i]).Some?
        ensures KeepsDemands(After(build, before[..i]).value, before[i], enc)
      {
        assert before[..i] == es[..i];
      }
      RunsAreStrict(build, before, enc);
      NextIsStrict(After(build, before).value, build, es[|es| - 1], enc);
    }
  }

  /**
    Where authentication is demanded before the first connection, a client becomes ready only
    after the application was asked about it and accepted it; where encryption is demanded
    too, only on an encrypted transport, unless an RSA-AES upgrade failed unnoticed.
   */
  lemma {:induction false} ReadyMeansAccepted(build: Build, es: seq<Event>, enc: bool, c: nat)
    requires After(build, es).Some? && Disciplined(build, es, enc)
    requires c in After(build, es).value.clients && After(build, es).value.clients[c].phase == Ready
    ensures var client := After(build, es).value.clients[c];
      client.asked && client.accepted && (enc ==> client.transport != Plain || client.upgradeFailed)
  {
    RunsAreStrict(build, es, enc);
    assert ClientOk(After(build, es).value.clients[c], enc);
  }

  /** Credentials leave the application's hands only for clients on an encrypted transport, likewise. */
  lemma {:induction false} AskedMeansEncrypted(build: Build, es: seq<Event>, k: nat)
    requires After(build, es).Some? && Disciplined(build, es, true)
    requires k in After(build, es).value.creds && After(build, es).value.creds[k].Some?
    ensures var s := After(build, es).value;
      s.creds[k].value in s.clients && IsEncrypted(s.clients[s.creds[k].value])
  {
    RunsAreStrict(build, es, true);
    var s := After(build, es).value;
    assert ClientOk(s.clients[s.creds[k].value], true);
  }

  // ---------------------------------------------------------------- the ways around

  /** A message admits its sender without an answer from the application exactly in these two cases. */
  lemma AdmittedUnaskedIff(s: State, build: Build, c: nat, d: Data)
    requires Inv(s) && Enabled(s, Message(c, d))
    ensures var t := Next(s, build, Message(c, d));
      (c in t.clients && t.clients[c].phase == Initialising) <==> (
        || (s.clients[c].phase == Security && d.choice == 1 && 1 in s.types)
        || (s.clients[c].phase == Version && d.version == 3 && !s.flags.requireAuth))
  {
  }

  const anyData := Data(8, 1, 0, 2, false, 262, 0, 0, 0, true, true, true, true, true, true, true)

  predicate BeginsLate(es: seq<Event>) {
    && |es| >= 7
    && es[0] == Connect && es[1] == Message(0, anyData)
    && es[2] == EnableAuth(Flags(true, true, false, false))
    && es[3] == Connect && es[4] == es[5] == es[6] == Message(1, anyData)
  }

  /**
    Demands made after the first client has come do not bind the next one: it connects, and
    gets in by three messages, without an answer from the application.
   */
  lemma {:induction false} LateDemandsAreIgnored(build: Build, es: seq<Event>)
    requires BeginsLate(es)
    ensures After(build, es[..7]).Some?
    ensures var s := After(build, es[..7]).value;
      s.flags.requireAuth && 1 in s.clients && s.clients[1].phase == Ready && !s.clients[1].accepted
  {
    var s4 := SecondClientConnects(build, es);
    var s5 := UnaskedAt(build, es, 4, s4);
    var s6 := UnaskedAt(build, es, 5, s5);
    var s7 := UnaskedAt(build, es, 6, s6);
  }

  lemma {:induction false} SecondClientConnects(build: Build, es: seq<Event>) returns (s4: State)
    requires BeginsLate(es)
    ensures After(build, es[..4]) == Some(s4) && s4.flags.requireAuth && !s4.aborted && s4.types == [1]
    ensures 1 in s4.clients && s4.clients[1].phase == Version && !s4.clients[1].accepted
  {
    var s3 := FirstClientFixesTypes(build, es);
    AfterOne(build, es, 3, s3);
    s4 := Next(s3, build, es[3]);
  }

  lemma {:induction false} UnaskedAt(build: Build, es: seq<Event>, i: nat, s: State) returns (t: State)
    requires i < |es| && After(build, es[..i]) == Some(s) && es[i] == Message(1, anyData)
    requires !s.aborted && s.types == [1] && 1 in s.clients && s.clients[1].phase in {Version, Security, Initialising}
    ensures After(build, es[..i + 1]) == Some(t)
    ensures !t.aborted && t.types == [1] && t.flags == s.flags && 1 in t.clients
    ensures t.clients[1].accepted == s.clients[1].accepted
    ensures t.clients[1].phase == match s.clients[1].phase
      case Version => Security
      case Security => Initialising
      case _ => Ready
  {
    AfterOne(build, es, i, s);
    UnaskedStep(s, build, 1);
    t := Next(s, build, es[i]);
  }

  /** With `None` on offer, a client comes in by three messages that nobody is asked about. */
  lemma UnaskedStep(s: State, build: Build, c: nat)
    requires Inv(s) && !s.aborted && s.types == [1] && c in s.clients
    requires s.clients[c].phase in {Version, Security, Initialising}
    ensures var t := Next(s, build, Message(c, anyData));
      && !t.aborted && t.types == s.types && t.flags == s.flags && c in t.clients
      && t.clients[c].accepted == s.clients[c].accepted
      && t.clients[c].phase == match s.clients[c].phase
        case Version => Security
        case Security => Initialising
        case _ => Ready
  {
  }

  lemma {:induction false} FirstClientFixesTypes(build: Build, es: seq<Event>) returns (s3: State)
    requires BeginsLate(es)
    ensures After(build, es[..3]) == Some(s3)
    ensures s3.types == [1] && s3.flags.requireAuth && !s3.aborted && s3.nextClient == 1
  {
    var s0 := Init();
    AfterOne(build, es, 0, s0);
    var s1 := Next(s0, build, es[0]);
    AfterOne(build, es, 1, s1);
    var s2 := Next(s1, build, es[1]);
    assert s2.types == [1] && !s2.aborted && s2.nextClient == 1;
    AfterOne(build, es, 2, s2);
    s3 := Next(s2, build, es[2]);
  }

  lemma {:induction false} AfterOne(build: Build, es: seq<Event>, i: nat, s: State)
    requires i < |es| && After(build, es[..i]) == Some(s) && Enabled(s, es[i])
    ensures Inv(s) && After(build, es[..i + 1]) == Some(Next(s, build, es[i]))
  {
    assert es[..i + 1][..i] == es[..i] && es[..i + 1][i] == es[i];
  }
}
