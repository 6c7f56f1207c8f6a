/** What holds in every state that any run of a session reaches, for any draws and any interleaving of the two ends. */
module ProtocolTheorems {
  import opened Wrappers
  import opened Bytes
  import opened Crypto
  import opened Decimal
  import opened Protocol

  lemma {:induction false} RunKeepsInv(prims: Primitives, es: seq<Event>)
    requires prims.Commutes() && prims.KeysMatch()
    requires Run(prims, START, es).Some?
    ensures Inv(prims, Run(prims, START, es).value)
    ensures Clock(Run(prims, START, es).value) == |es|
  {
    hide Inv, Step, Clock;
    if es == [] {
      StartIsGood(prims);
    } else {
      var before := es[..|es| - 1];
      RunKeepsInv(prims, before);
      StepKeepsInv(prims, Run(prims, START, before).value, es[|es| - 1]);
    }
  }

  lemma StartIsGood(prims: Primitives)
    ensures Inv(prims, START) && Clock(START) == 0
  {
  }

  ghost predicate Secured(st: State) {
    st.clientCipher.Aes256? && st.serverCipher.Aes256?
  }

  // What reaches the client is always sealed with the cipher it decodes with, or in plain while it has none. What
  // reaches the server is, too, exactly while encryption_handler_server is not between sending its response and
  // installing its cipher: decoding no frame before the handler has returned is what keeps the server from reading
  // a sealed echo in plain.
  lemma CipherModes(prims: Primitives, es: seq<Event>)
    requires prims.Commutes() && prims.KeysMatch()
    requires Run(prims, START, es).Some?
    ensures var st := Run(prims, START, es).value;
            && (st.toClient != [] ==> st.toClient[0].cipher == st.clientCipher)
            && (st.toServer != [] ==>
                  (st.toServer[0].cipher == st.serverCipher <==> !st.serverHandler.Responded?))
  {
    hide Payload;
    RunKeepsInv(prims, es);
  }

  // Requests and responses travel in plain, echoes sealed.
  lemma PlainHandshakeSealedEchoes(prims: Primitives, es: seq<Event>)
    requires prims.Commutes() && prims.KeysMatch()
    requires Run(prims, START, es).Some?
    ensures var st := Run(prims, START, es).value;
            && (forall f :: f in st.toServer ==> (f.cipher.Plain? <==> !f.packet.Echo?))
            && (forall f :: f in st.toClient ==> (f.cipher.Plain? <==> !f.packet.Echo?))
  {
    hide Payload, Step, Run, Clock, GetHash, ServerCipher, ClientCipher;
    RunKeepsInv(prims, es);
  }

  // The gap is real: the client may finish the handshake while the server is still inside its handler, and then a
  // sealed echo waits at a server that has no cipher yet and that could not decode it.
  lemma EchoBeforeCipher(prims: Primitives, a: Secret, b: Secret, salt: ByteArray, draw: Draw)
    returns (es: seq<Event>)
    requires prims.Commutes() && prims.KeysMatch()
    ensures es == [ClientStart(a), ClientAwait, ServerReceive, ServerRespond(b, salt, draw)]
                  + [ClientReceive, ClientVerify, ClientInstall, ClientFirstEcho]
    ensures Run(prims, START, es).Some?
    ensures var st := Run(prims, START, es).value;
            && st.toServer == [Frame(SessionCipher(prims, a, b, salt), Echo("0"))] && st.serverCipher.Plain?
            && ServerDecode(st).serverHandler.ServerGarbled?
  {
    hide Step, GetHash, ServerCipher, ClientCipher, ServerResponse;
    var es2 := StartRun(prims, a, true);
    ServerAnswers(prims, es2, Awaiting(a), a, b, salt, draw);
    ResponseAgrees(prims, a, b, salt, draw);
    ServerDerives(prims, a, b, salt, draw);
    es := ClientRunsAhead(prims, es2 + [ServerReceive, ServerRespond(b, salt, draw)], a,
      ServerResponse(prims, b, salt, draw), SessionCipher(prims, a, b, salt));
  }

  // The client has sent its request, and perhaps begun to wait.
  lemma StartRun(prims: Primitives, a: Secret, awaiting: bool) returns (es: seq<Event>)
    ensures es == if awaiting then [ClientStart(a), ClientAwait] else [ClientStart(a)]
    ensures Run(prims, START, es) ==
            Some(State(if awaiting then Awaiting(a) else Requested(a), ClientIdle, Plain, ServerIdle, Plain,
                       [Frame(Plain, Request(prims.dhPublic(a)))], [], 0))
  {
    var request := Frame(Plain, Request(prims.dhPublic(a)));
    assert [] + [request] == [request] && [] + [ClientStart(a)] == [ClientStart(a)];
    assert [ClientStart(a)] + [ClientAwait] == [ClientStart(a), ClientAwait];
    RunOne(prims, [], ClientStart(a));
    RunOne(prims, [ClientStart(a)], ClientAwait);
    es := if awaiting then [ClientStart(a), ClientAwait] else [ClientStart(a)];
  }

  // The server takes the request, answers it and stands before the installation of its cipher.
  lemma ServerAnswers(prims: Primitives, before: seq<Event>, task: ClientTask, a: Secret, b: Secret, salt: ByteArray,
                      draw: Draw)
    requires prims.Commutes()
    requires Run(prims, START, before) ==
             Some(State(task, ClientIdle, Plain, ServerIdle, Plain, [Frame(Plain, Request(prims.dhPublic(a)))], [], 0))
    ensures Run(prims, START, before + [ServerReceive, ServerRespond(b, salt, draw)]) ==
            Some(State(task, ClientIdle, Plain, Responded(SessionCipher(prims, a, b, salt)), Plain, [],
                       [Frame(Plain, ServerResponse(prims, b, salt, draw))], 0))
  {
    hide GetHash, ServerCipher, ServerResponse;
    var response := ServerResponse(prims, b, salt, draw);
    assert [Frame(Plain, Request(prims.dhPublic(a)))][1..] == [];
    assert [] + [Frame(Plain, response)] == [Frame(Plain, response)];
    ServerDerives(prims, a, b, salt, draw);
    RunOne(prims, before, ServerReceive);
    RunOne(prims, before + [ServerReceive], ServerRespond(b, salt, draw));
    assert before + [ServerReceive] + [ServerRespond(b, salt, draw)]
        == before + [ServerReceive, ServerRespond(b, salt, draw)];
  }

  lemma ClientRunsAhead(prims: Primitives, before: seq<Event>, a: Secret, response: Packet, cipher: Cipher)
    returns (es: seq<Event>)
    requires Agrees(prims, a, response, cipher)
    requires Run(prims, START, before) ==
             Some(State(Awaiting(a), ClientIdle, Plain, Responded(cipher), Plain, [], [Frame(Plain, response)], 0))
    ensures es == before + [ClientReceive, ClientVerify, ClientInstall, ClientFirstEcho]
    ensures Run(prims, START, es) ==
            Some(State(Finished, ClientIdle, cipher, Responded(cipher), Plain, [Frame(cipher, Echo("0"))], [], 0))
  {
    hide GetHash, ClientCipher;
    assert [Frame(Plain, response)][1..] == [];
    assert [] + [Frame(cipher, Echo("0"))] == [Frame(cipher, Echo("0"))];
    var es1 := before + [ClientReceive];
    var es2 := es1 + [ClientVerify];
    var es3 := es2 + [ClientInstall];
    es := es3 + [ClientFirstEcho];
    RunOne(prims, before, ClientReceive);
    RunOne(prims, es1, ClientVerify);
    RunOne(prims, es2, ClientInstall);
    RunOne(prims, es3, ClientFirstEcho);
  }

  // The cipher of a session whose ends drew these values: the key is the hash of the shared secret followed by the
  // salt.
  function SessionCipher(prims: Primitives, a: Secret, b: Secret, salt: ByteArray): Cipher {
    Aes256(prims.sha256(prims.dhShared(a, prims.dhPublic(b)) + salt), salt, 20)
  }

  lemma ServerDerives(prims: Primitives, a: Secret, b: Secret, salt: ByteArray, draw: Draw)
    requires prims.Commutes()
    ensures ServerCipher(prims, b, prims.dhPublic(a), ServerResponse(prims, b, salt, draw))
         == SessionCipher(prims, a, b, salt)
  {
    RoundsAreAlways20(draw);
  }

  lemma RunOne(prims: Primitives, es: seq<Event>, e: Event)
    ensures Run(prims, START, es + [e]) ==
            match Run(prims, START, es)
            case None => None
            case Some(st) => Step(prims, st, e)
  {
    assert (es + [e])[..|es + [e]| - 1] == es;
  }

  // Honest ends never meet a frame they cannot decode, and the client never rejects the server's signature.
  lemma NoHonestSessionFails(prims: Primitives, es: seq<Event>)
    requires prims.Commutes() && prims.KeysMatch()
    requires Run(prims, START, es).Some?
    ensures var st := Run(prims, START, es).value;
            !st.serverHandler.ServerGarbled? && !st.clientHandler.ClientGarbled? && !st.task.Destroyed?
  {
    RunKeepsInv(prims, es);
  }

  predicate ServerHasKey(st: State) {
    st.serverHandler.Responded? || st.serverCipher.Aes256?
  }

  predicate HasSecret(task: ClientTask) {
    task.Requested? || task.Early? || task.Awaiting? || task.Received? || task.Verified?
  }

  // Where the keys of a state come from: the secrets and the salt drawn in the run that led to it.
  ghost predicate Origin(prims: Primitives, es: seq<Event>, st: State) {
    && (st.task.NotStarted? <==> forall a :: ClientStart(a) !in es)
    && (ServerHasKey(st) <==> exists b, salt, draw :: ServerRespond(b, salt, draw) in es)
    && (forall a :: ClientStart(a) in es && HasSecret(st.task) ==> st.task.secret == a)
    && (forall a, b, salt, draw :: ClientStart(a) in es && ServerRespond(b, salt, draw) in es ==>
          ServerKey(st) == SessionCipher(prims, a, b, salt))
  }

  // What a step does to the values that the origin of the keys speaks of.
  lemma StepMovesKeys(prims: Primitives, st: State, e: Event)
    requires prims.Commutes()
    requires Inv(prims, st) && Step(prims, st, e).Some?
    ensures var after := Step(prims, st, e).value;
            && (after.task.NotStarted? <==> st.task.NotStarted? && !e.ClientStart?)
            && (ServerHasKey(after) <==> ServerHasKey(st) || e.ServerRespond?)
            && (e.ClientStart? ==> st.task.NotStarted? && !ServerHasKey(st) && after.task == Requested(e.secret))
            && (HasSecret(after.task) && !e.ClientStart? ==>
                  HasSecret(st.task) && after.task.secret == st.task.secret)
            && (e.ServerRespond? ==>
                  && !ServerHasKey(st) && HasSecret(st.task)
                  && ServerKey(after) == SessionCipher(prims, st.task.secret, e.secret, e.salt))
            && (ServerHasKey(st) ==> ServerKey(after) == ServerKey(st))
  {
    hide Payload, EchoReply, ServerCipher, ClientCipher, ServerResponse, GetHash, SessionCipher;
    match e
    case ServerRespond(b, salt, draw) => ServerDerives(prims, st.task.secret, b, salt, draw);
    case _ =>
  }

  lemma StepKeepsOrigin(prims: Primitives, es: seq<Event>, st: State, e: Event)
    requires prims.Commutes()
    requires Inv(prims, st) && Origin(prims, es, st) && Step(prims, st, e).Some?
    ensures Origin(prims, es + [e], Step(prims, st, e).value)
  {
    hide Inv, Step, SessionCipher, ServerKey, ServerHasKey, HasSecret;
    StepMovesKeys(prims, st, e);
  }

  lemma {:induction false} RunKeepsOrigin(prims: Primitives, es: seq<Event>)
    requires prims.Commutes() && prims.KeysMatch()
    requires Run(prims, START, es).Some?
    ensures Origin(prims, es, Run(prims, START, es).value)
  {
    hide Inv, Step, Clock;
    if es == [] {
    } else {
      var before, last := es[..|es| - 1], es[|es| - 1];
      RunKeepsInv(prims, before);
      RunKeepsOrigin(prims, before);
      StepKeepsOrigin(prims, before, Run(prims, START, before).value, last);
      assert es == before + [last];
    }
  }

  // Whenever both ends have a cipher it is the same one, and it is made of the secrets and the salt that the two ends
  // drew in this run.
  lemma KeyAgreement(prims: Primitives, es: seq<Event>)
    requires prims.Commutes() && prims.KeysMatch()
    requires Run(prims, START, es).Some? && Secured(Run(prims, START, es).value)
    ensures var st := Run(prims, START, es).value;
            && st.clientCipher == st.serverCipher
            && (exists a, b, salt, draw :: ClientStart(a) in es && ServerRespond(b, salt, draw) in es)
            && (forall a, b, salt, draw :: ClientStart(a) in es && ServerRespond(b, salt, draw) in es ==>
                  st.serverCipher == SessionCipher(prims, a, b, salt))
  {
    hide Payload;
    RunKeepsInv(prims, es);
    RunKeepsOrigin(prims, es);
    var a :| ClientStart(a) in es;
    var b, salt, draw :| ServerRespond(b, salt, draw) in es;
  }

  // What the client's side of a run has come to, whatever keys the two ends have.
  ghost predicate Trusted(prims: Primitives, es: seq<Event>, st: State) {
    match st.task
    case NotStarted => st.clientCipher.Plain?
    case Requested(a) => st.clientCipher.Plain? && ClientStart(a) in es
    case Awaiting(a) => st.clientCipher.Plain? && ClientStart(a) in es
    case Early(a, r) => st.clientCipher.Plain? && ClientStart(a) in es && r.Response?
    case Received(a, r) => st.clientCipher.Plain? && ClientStart(a) in es && r.Response?
    case Verified(a, r) => st.clientCipher.Plain? && ClientStart(a) in es && Accepted(prims, r)
    case Destroyed => st.clientCipher.Plain?
    case _ => exists a, r :: ClientStart(a) in es && TrustedCipher(prims, a, r, st.clientCipher)
  }

  ghost predicate Accepted(prims: Primitives, r: Packet) {
    r.Response? && prims.verify(prims.sha256(r.publicKey + r.salt + prims.responseId), r.signature)
  }

  ghost predicate TrustedCipher(prims: Primitives, a: Secret, r: Packet, cipher: Cipher) {
    && Accepted(prims, r)
    && cipher == Aes256(prims.sha256(prims.dhShared(a, r.publicKey) + r.salt), r.salt, r.nRounds % 0x1_0000)
  }

  lemma StepKeepsTrust(prims: Primitives, es: seq<Event>, st: State, e: Event)
    requires Trusted(prims, es, st) && Step(prims, st, e).Some?
    ensures Trusted(prims, es + [e], Step(prims, st, e).value)
  {
    hide EchoReply, ServerCipher, ServerResponse;
    var after := Step(prims, st, e).value;
    if st.task.Keyed? || st.task.Finished? {
      var a, r :| ClientStart(a) in es && TrustedCipher(prims, a, r, st.clientCipher);
      assert after.clientCipher == st.clientCipher && ClientStart(a) in es + [e];
    } else if e.ClientInstall? {
      assert TrustedCipher(prims, st.task.secret, st.task.response, after.clientCipher);
    }
  }

  lemma {:induction false} RunKeepsTrust(prims: Primitives, es: seq<Event>)
    requires Run(prims, START, es).Some?
    ensures Trusted(prims, es, Run(prims, START, es).value)
  {
    hide Step;
    if es == [] {
    } else {
      var before, last := es[..|es| - 1], es[|es| - 1];
      RunKeepsTrust(prims, before);
      StepKeepsTrust(prims, before, Run(prims, START, before).value, last);
      assert es == before + [last];
    }
  }

  // No client encrypts on the word of a stranger, whoever is at the other end: with whatever keys the two have, the
  // cipher of a client is made of its own secret and of a response whose signature its key accepts, and it is in
  // place exactly when the task is past its check.
  lemma ClientTrustsSignatures(prims: Primitives, es: seq<Event>) returns (a: Secret, r: Packet)
    requires Run(prims, START, es).Some?
    ensures var st := Run(prims, START, es).value;
            && (st.clientCipher.Aes256? <==> st.task.Keyed? || st.task.Finished?)
            && (st.task.Verified? ==> r == st.task.response)
            && (st.clientCipher.Aes256? || st.task.Verified? ==>
                  && ClientStart(a) in es && r.Response?
                  && prims.verify(prims.sha256(r.publicKey + r.salt + prims.responseId), r.signature))
            && (st.clientCipher.Aes256? ==>
                  st.clientCipher ==
                  Aes256(prims.sha256(prims.dhShared(a, r.publicKey) + r.salt), r.salt, r.nRounds % 0x1_0000))
  {
    RunKeepsTrust(prims, es);
    var st := Run(prims, START, es).value;
    a, r := 0, Echo("");
    if st.task.Verified? {
      a, r := st.task.secret, st.task.response;
    } else if st.task.Keyed? || st.task.Finished? {
      a, r :| ClientStart(a) in es && TrustedCipher(prims, a, r, st.clientCipher);
    }
  }

  // Nothing that belongs behind the check has happened.
  ghost predicate Unsecured(st: State) {
    && !st.task.Verified? && !st.task.Keyed? && !st.task.Finished? && st.clientCipher.Plain?
    && !st.serverHandler.ServerEchoing? && !st.clientHandler.ClientEchoing?
    && (forall f :: f in st.toServer ==> !f.packet.Echo?) && (forall f :: f in st.toClient ==> !f.packet.Echo?)
  }

  lemma StepStaysUnsecured(prims: Primitives, st: State, e: Event)
    requires forall h, s :: !prims.verify(h, s)
    requires Unsecured(st) && Step(prims, st, e).Some?
    ensures Unsecured(Step(prims, st, e).value)
  {
    hide EchoReply, ServerCipher, ClientCipher, GetHash;
  }

  // A client whose key accepts nothing, as one that holds another server's key, never gets past its check: it keeps
  // talking in plain and no echo is ever sent.
  lemma {:induction false} RejectedStaysPlain(prims: Primitives, es: seq<Event>)
    requires forall h, s :: !prims.verify(h, s)
    requires Run(prims, START, es).Some?
    ensures var st := Run(prims, START, es).value;
            && !st.task.Verified? && !st.task.Keyed? && !st.task.Finished? && st.clientCipher.Plain?
            && (forall f :: f in st.toServer ==> !f.packet.Echo?)
            && Unsecured(st)
  {
    hide Step;
    if es == [] {
    } else {
      RejectedStaysPlain(prims, es[..|es| - 1]);
      StepStaysUnsecured(prims, Run(prims, START, es[..|es| - 1]).value, es[|es| - 1]);
    }
  }

  // A frame is handed on exactly when it is sealed with the cipher of the end that decodes it.
  lemma DecodedExactly(prims: Primitives, st: State)
    ensures st.serverHandler.ServerIdle? && st.toServer != [] ==>
              (ServerDecode(st).serverHandler.ServerGarbled? <==> st.toServer[0].cipher != st.serverCipher)
    ensures st.clientHandler.ClientIdle? && st.toClient != [] ==>
              (ClientDecode(prims, st).clientHandler.ClientGarbled? <==> st.toClient[0].cipher != st.clientCipher)
  {
  }

  // How many echoes there are, in the queues and in the handlers.
  function Tokens(st: State): nat {
    |st.toServer| + |st.toClient|
    + (if st.serverHandler.ServerEchoing? then 1 else 0) + (if st.clientHandler.ClientEchoing? then 1 else 0)
  }

  // Once the client has sent its first echo there is exactly one, carrying the decimal of the number of echoes
  // answered so far: an even number on its way to the server or in its hands, an odd one at the client's side.
  lemma EchoConservation(prims: Primitives, es: seq<Event>)
    requires prims.Commutes() && prims.KeysMatch()
    requires Run(prims, START, es).Some? && Run(prims, START, es).value.task.Finished?
    ensures var st := Run(prims, START, es).value;
            && st.handled <= INT_MAX
            && Tokens(st) == 1
            && (forall f :: f in st.toServer ==> f.packet == Echo(ToString(st.handled)) && st.handled % 2 == 0)
            && (forall f :: f in st.toClient ==> f.packet == Echo(ToString(st.handled)) && st.handled % 2 == 1)
            && (st.serverHandler.ServerEchoing? ==>
                  st.serverHandler.message == ToString(st.handled) && st.handled % 2 == 0)
            && (st.clientHandler.ClientEchoing? ==>
                  st.clientHandler.message == ToString(st.handled) && st.handled % 2 == 1)
  {
    RunKeepsInv(prims, es);
  }

  // A handler holds the largest int, to which process_echo adds one.
  predicate AtIntLimit(st: State) {
    st.handled == INT_MAX && (st.serverHandler.ServerEchoing? || st.clientHandler.ClientEchoing?)
  }

  // In a run a handler always holds a number, and below the limit it can be answered.
  lemma EchoesAreAnswerable(prims: Primitives, es: seq<Event>)
    requires prims.Commutes() && prims.KeysMatch()
    requires Run(prims, START, es).Some? && !AtIntLimit(Run(prims, START, es).value)
    ensures var st := Run(prims, START, es).value;
            && (st.serverHandler.ServerEchoing? ==> Answerable(st.serverHandler.message))
            && (st.clientHandler.ClientEchoing? ==> Answerable(st.clientHandler.message))
  {
    hide Run, Step, Clock, ServerCipher, ClientCipher, GetHash, EchoReply, Stoi, ToString;
    RunKeepsInv(prims, es);
    PayloadIsAnswerable(Run(prims, START, es).value.handled);
  }

  predicate Answerable(message: string) {
    EchoReply(message).Some? && Stoi(message) != Some(INT_MAX)
  }

  lemma PayloadIsAnswerable(handled: nat)
    requires handled <= INT_MAX
    ensures Answerable(Payload(handled)) <==> handled < INT_MAX
  {
    RoundTrip(handled);
  }

  // The client waits for a response that was dropped, and the server has nothing left to do.
  predicate Stuck(st: State) {
    Lost(st) && st.task.Awaiting? && st.serverHandler.ServerIdle?
  }

  // The run has one more step, unless a handler is about to overflow its int or the response was lost; then it has
  // none.
  lemma Progress(prims: Primitives, es: seq<Event>)
    requires prims.Commutes() && prims.KeysMatch()
    requires Run(prims, START, es).Some?
    ensures var st := Run(prims, START, es).value;
            (exists e :: Step(prims, st, e).Some?) <==> !AtIntLimit(st) && !Stuck(st)
  {
    RunKeepsInv(prims, es);
    var st := Run(prims, START, es).value;
    if AtIntLimit(st) || Stuck(st) {
      NoEventEnabled(prims, st);
    } else {
      var e := EnabledEvent(prims, st);
    }
  }

  lemma NoEventEnabled(prims: Primitives, st: State)
    requires Inv(prims, st) && (AtIntLimit(st) || Stuck(st))
    ensures forall e :: Step(prims, st, e).None?
  {
    hide Payload, EchoReply;
    ReplyToPayload(INT_MAX);
  }

  // An event that is enabled and does not lose the response.
  lemma EnabledEvent(prims: Primitives, st: State) returns (e: Event)
    requires Inv(prims, st) && !AtIntLimit(st) && !Stuck(st)
    ensures Step(prims, st, e).Some? && (e.ClientReceive? ==> HasWaited(st.task))
  {
    hide Payload, EchoReply;
    ReplyToPayload(st.handled);
    e :=
      if st.task.NotStarted? then ClientStart(0)
      else if st.task.Requested? || st.task.Early? then ClientAwait
      else if st.task.Received? then ClientVerify
      else if st.task.Verified? then ClientInstall
      else if st.task.Keyed? then ClientFirstEcho
      else if st.serverHandler.Exchanging? then ServerRespond(0, [], 0)
      else if st.serverHandler.Responded? then ServerInstall
      else if st.serverHandler.ServerEchoing? then ServerEcho
      else if st.clientHandler.ClientEchoing? then ClientEcho
      else if st.toServer != [] then ServerReceive
      else ClientReceive;
  }

  // --------------------------------------------------------------------------------- waiting after the response

  // The client decoded a frame before it had called await_packet.
  predicate DecodedBeforeWait(es: seq<Event>) {
    exists i :: 0 <= i < |es| && es[i].ClientReceive? && ClientAwait !in es[..i]
  }

  predicate HasWaited(task: ClientTask) {
    !task.NotStarted? && !task.Requested? && !task.Early?
  }

  lemma StepLoses(prims: Primitives, st: State, e: Event)
    requires prims.Commutes() && prims.KeysMatch()
    requires Inv(prims, st) && Step(prims, st, e).Some?
    ensures var after := Step(prims, st, e).value;
            && (HasWaited(after.task) <==> HasWaited(st.task) || e.ClientAwait?)
            && (Lost(after) <==> Lost(st) || (e.ClientReceive? && !HasWaited(st.task) && !prims.keepsEarly))
  {
    hide Payload, EchoReply, ServerCipher, ClientCipher, ServerResponse, GetHash;
  }

  // A response is lost exactly when it is decoded before the client waits and the dispatcher keeps no such packet.
  lemma {:induction false} LostExactly(prims: Primitives, es: seq<Event>)
    requires prims.Commutes() && prims.KeysMatch()
    requires Run(prims, START, es).Some?
    ensures HasWaited(Run(prims, START, es).value.task) <==> ClientAwait in es
    ensures Lost(Run(prims, START, es).value) <==> !prims.keepsEarly && DecodedBeforeWait(es)
  {
    hide Inv, Step, Clock, Lost;
    if es == [] {
      assert !Lost(START) by { LostAtStart(); }
    } else {
      var before, last := es[..|es| - 1], es[|es| - 1];
      RunKeepsInv(prims, before);
      LostExactly(prims, before);
      StepLoses(prims, Run(prims, START, before).value, last);
      DecodedBeforeWaitStep(before, last);
      assert es == before + [last];
    }
  }

  lemma LostAtStart()
    ensures !Lost(START)
  {
  }

  lemma DecodedBeforeWaitStep(es: seq<Event>, e: Event)
    ensures DecodedBeforeWait(es + [e]) <==>
            DecodedBeforeWait(es) || (e.ClientReceive? && ClientAwait !in es)
  {
    var longer := es + [e];
    assert forall i :: 0 <= i <= |es| ==> longer[..i] == es[..i];
    assert es[..|es|] == es && longer[|es|] == e;
    if DecodedBeforeWait(es) {
      var i :| 0 <= i < |es| && es[i].ClientReceive? && ClientAwait !in es[..i];
      assert longer[i].ClientReceive?;
    }
  }

  // A run that can go no further is either secured and at the limit of its int, or it lost the response after six
  // steps; it completes the handshake exactly when the dispatcher keeps early packets or the client waited in time.
  lemma CompleteRuns(prims: Primitives, es: seq<Event>)
    requires prims.Commutes() && prims.KeysMatch()
    requires Run(prims, START, es).Some? && forall e :: Step(prims, Run(prims, START, es).value, e).None?
    ensures Secured(Run(prims, START, es).value) <==> prims.keepsEarly || !DecodedBeforeWait(es)
    ensures |es| == if prims.keepsEarly || !DecodedBeforeWait(es) then LONGEST_RUN else 6
  {
    hide Payload, ServerCipher, ClientCipher, ServerResponse, GetHash, Step;
    Progress(prims, es);
    RunKeepsInv(prims, es);
    LostExactly(prims, es);
  }

  // The loss is real where packets are dropped, whatever is drawn.
  lemma ResponseBeforeWait(prims: Primitives, a: Secret, b: Secret, salt: ByteArray, draw: Draw)
    returns (es: seq<Event>)
    requires prims.Commutes() && prims.KeysMatch() && !prims.keepsEarly
    ensures es == [ClientStart(a), ServerReceive, ServerRespond(b, salt, draw)]
                  + [ClientReceive, ClientAwait, ServerInstall]
    ensures Run(prims, START, es).Some? && Stuck(Run(prims, START, es).value)
  {
    hide Step, GetHash, ServerCipher;
    var es1 := StartRun(prims, a, false);
    ServerAnswers(prims, es1, Requested(a), a, b, salt, draw);
    es := ClientWaitsLate(prims, es1 + [ServerReceive, ServerRespond(b, salt, draw)], a,
      ServerResponse(prims, b, salt, draw), SessionCipher(prims, a, b, salt));
  }

  lemma ClientWaitsLate(prims: Primitives, before: seq<Event>, a: Secret, response: Packet, cipher: Cipher)
    returns (es: seq<Event>)
    requires !prims.keepsEarly && response.Response? && cipher.Aes256?
    requires Run(prims, START, before) ==
             Some(State(Requested(a), ClientIdle, Plain, Responded(cipher), Plain, [], [Frame(Plain, response)], 0))
    ensures es == before + [ClientReceive, ClientAwait, ServerInstall]
    ensures Run(prims, START, es) == Some(State(Awaiting(a), ClientIdle, Plain, ServerIdle, cipher, [], [], 0))
  {
    assert [Frame(Plain, response)][1..] == [];
    var es1 := before + [ClientReceive];
    var es2 := es1 + [ClientAwait];
    es := es2 + [ServerInstall];
    RunOne(prims, before, ClientReceive);
    RunOne(prims, es1, ClientAwait);
    RunOne(prims, es2, ServerInstall);
  }

  // ------------------------------------------------------------------------------------------------ whole runs

  // Every run is secured from its ninth step on, and from then on answers one echo in every two steps. A run of eight
  // steps need not be: the one of EchoBeforeCipher is not.
  lemma HandshakeCompletes(prims: Primitives, es: seq<Event>)
    requires prims.Commutes() && prims.KeysMatch()
    requires Run(prims, START, es).Some? && |es| >= 9
    ensures Secured(Run(prims, START, es).value)
    ensures Run(prims, START, es).value.handled == (|es| - 9) / 2
  {
    hide Payload, ServerCipher, ClientCipher, ServerResponse, GetHash, Step;
    RunKeepsInv(prims, es);
  }

  const LONGEST_RUN: nat := 9 + 2 * INT_MAX + 1

  // A run answers at most 2^31 - 1 echoes and so ends after 2^32 + 8 steps.
  lemma RunsEnd(prims: Primitives, es: seq<Event>)
    requires prims.Commutes() && prims.KeysMatch()
    requires Run(prims, START, es).Some?
    ensures |es| <= LONGEST_RUN
    ensures AtIntLimit(Run(prims, START, es).value) <==> |es| == LONGEST_RUN
  {
    hide Payload, ServerCipher, ClientCipher, ServerResponse, GetHash, Step;
    RunKeepsInv(prims, es);
  }

  // There are runs of every length up to that one, whatever the dispatcher does with early packets.
  lemma {:induction false} RunsGoOn(prims: Primitives, n: nat) returns (es: seq<Event>)
    requires prims.Commutes() && prims.KeysMatch()
    requires n <= LONGEST_RUN
    ensures |es| == n && Run(prims, START, es).Some? && !Lost(Run(prims, START, es).value)
  {
    hide Inv, Step, Clock, AtIntLimit, Lost;
    if n == 0 {
      es := [];
      LostAtStart();
    } else {
      var before := RunsGoOn(prims, n - 1);
      RunKeepsInv(prims, before);
      RunsEnd(prims, before);
      var st := Run(prims, START, before).value;
      var e := EnabledEvent(prims, st);
      RunOne(prims, before, e);
      StepLoses(prims, st, e);
      es := before + [e];
    }
  }
}
