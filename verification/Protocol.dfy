/** One session between a client and the server as a labelled transition system: the handshake that installs a cipher
    at either end, and the echo that the two ends bounce from then on. A step is a stretch of code between two points
    at which the other end, or the other thread, can come in. */
module Protocol {
  import opened Wrappers
  import opened Bytes
  import opened Crypto
  import opened Decimal

  datatype Packet =
    | Request(publicKey: ByteArray)
    | Response(publicKey: ByteArray, salt: ByteArray, nRounds: Int32, signature: ByteArray)
    | Echo(message: string)

  // What a session encrypts with.
  datatype Cipher = Plain | Aes256(key: ByteArray, salt: ByteArray, rounds: nat)

  // A packet on the wire, sealed with the cipher its sender had when send_packet was called.
  datatype Frame = Frame(cipher: Cipher, packet: Packet)

  // setup_encryption_for_session, between its suspension points; secret is the state of its DH helper.
  datatype ClientTask =
    | NotStarted
    | Requested(secret: Secret)                     // the request is sent, await_packet not called yet
    | Early(secret: Secret, response: Packet)       // the response came before that; the dispatcher keeps it
    | Awaiting(secret: Secret)                      // in await_packet
    | Received(secret: Secret, response: Packet)    // await_packet has returned
    | Verified(secret: Secret, response: Packet)    // the signature is accepted
    | Keyed                                         // setup_encryption is done
    | Finished                                      // the first echo is sent
    | Destroyed                                     // the signature is rejected

  // The packet handler that is running, if any. Garbled is a frame that did not decode.
  datatype ClientHandler = ClientIdle | ClientEchoing(message: string) | ClientGarbled
  datatype ServerHandler =
    | ServerIdle
    | Exchanging(clientKey: ByteArray)              // in encryption_handler_server
    | Responded(next: Cipher)                       // the response is sent, the cipher not installed yet
    | ServerEchoing(message: string)
    | ServerGarbled

  datatype State = State(
    task: ClientTask, clientHandler: ClientHandler, clientCipher: Cipher,
    serverHandler: ServerHandler, serverCipher: Cipher,
    toServer: seq<Frame>, toClient: seq<Frame>,
    handled: nat)                                   // how many echoes have been answered

  const START: State := State(NotStarted, ClientIdle, Plain, ServerIdle, Plain, [], [], 0)

  // The truncated chi-squared draw: not negative, and small enough not to overflow the sum it goes into.
  type Draw = d: nat | d <= 0x7fff_ffff - 5

  datatype Event =
    | ClientStart(secret: Secret)
    | ClientAwait
    | ServerReceive
    | ServerRespond(secret: Secret, salt: ByteArray, draw: Draw)
    | ServerInstall
    | ClientReceive
    | ClientVerify
    | ClientInstall
    | ClientFirstEcho
    | ServerEcho
    | ClientEcho

  // ---------------------------------------------------------------------------------------------------- handlers

  // DHKeyExchangeResponsePacket::get_hash
  function GetHash(prims: Primitives, response: Packet): ByteArray
    requires response.Response?
  {
    prims.sha256(response.publicKey + response.salt + prims.responseId)
  }

  function Min(x: int, y: int): int { if y < x then y else x }
  function Max(x: int, y: int): int { if x < y then y else x }

  // n_rounds, first capped from above at 5 and then from below at 20.
  function Rounds(draw: Draw): Int32 {
    Max(Min(5 + draw, 5), 20)
  }

  function ToUint16(x: int): nat { x % 0x1_0000 }

  function ServerResponse(prims: Primitives, secret: Secret, salt: ByteArray, draw: Draw): Packet {
    var unsigned := Response(prims.dhPublic(secret), salt, Rounds(draw), []);
    unsigned.(signature := prims.sign(GetHash(prims, unsigned)))
  }

  // What the server derives: it hashes the shared secret followed by the salt it drew.
  function ServerCipher(prims: Primitives, secret: Secret, clientKey: ByteArray, response: Packet): Cipher
    requires response.Response?
  {
    var sharedKey := prims.sha256(prims.dhShared(secret, clientKey) + response.salt);
    Aes256(sharedKey, response.salt, ToUint16(response.nRounds))
  }

  // What the client derives from the response, with its own secret and the server's public key.
  function ClientCipher(prims: Primitives, secret: Secret, response: Packet): Cipher
    requires response.Response?
  {
    var sharedKey := prims.sha256(prims.dhShared(secret, response.publicKey) + response.salt);
    Aes256(sharedKey, response.salt, ToUint16(response.nRounds))
  }

  // process_echo: the number in the message plus one. None where the source has no defined result: stoi throws, or
  // the sum does not fit in an int.
  function EchoReply(message: string): Option<string> {
    match Stoi(message)
    case Some(n) => if n < INT_MAX then Some(ToString(n + 1)) else None
    case None => None
  }

  // -------------------------------------------------------------------------------------------------------- steps

  // None: the step is not enabled. A handler runs to its end before its session decodes the next frame; the
  // client's task is not a handler and runs beside them.
  function Step(prims: Primitives, st: State, e: Event): Option<State> {
    match e
    case ClientStart(secret) =>
      if st.task.NotStarted? then
        var request := Frame(st.clientCipher, Request(prims.dhPublic(secret)));
        Some(st.(task := Requested(secret), toServer := st.toServer + [request]))
      else None
    case ClientAwait =>
      if st.task.Requested? then Some(st.(task := Awaiting(st.task.secret)))
      else if st.task.Early? then Some(st.(task := Received(st.task.secret, st.task.response)))
      else None
    case ServerReceive =>
      if st.serverHandler.ServerIdle? && st.toServer != [] then Some(ServerDecode(st)) else None
    case ServerRespond(secret, salt, draw) =>
      if st.serverHandler.Exchanging? then
        var response := ServerResponse(prims, secret, salt, draw);
        Some(st.(serverHandler := Responded(ServerCipher(prims, secret, st.serverHandler.clientKey, response)),
                 toClient := st.toClient + [Frame(st.serverCipher, response)]))
      else None
    case ServerInstall =>
      if st.serverHandler.Responded? then
        Some(st.(serverHandler := ServerIdle, serverCipher := st.serverHandler.next))
      else None
    case ClientReceive =>
      if st.clientHandler.ClientIdle? && st.toClient != [] then Some(ClientDecode(prims, st)) else None
    case ClientVerify =>
      if st.task.Received? && st.task.response.Response? then
        var response := st.task.response;
        var accepted := prims.verify(GetHash(prims, response), response.signature);
        Some(st.(task := if accepted then Verified(st.task.secret, response) else Destroyed))
      else None
    case ClientInstall =>
      if st.task.Verified? && st.task.response.Response? then
        Some(st.(task := Keyed, clientCipher := ClientCipher(prims, st.task.secret, st.task.response)))
      else None
    case ClientFirstEcho =>
      if st.task.Keyed? then
        Some(st.(task := Finished, toServer := st.toServer + [Frame(st.clientCipher, Echo("0"))]))
      else None
    case ServerEcho =>
      if st.serverHandler.ServerEchoing? then
        match EchoReply(st.serverHandler.message)
        case Some(reply) =>
          Some(st.(serverHandler := ServerIdle, toClient := st.toClient + [Frame(st.serverCipher, Echo(reply))],
                   handled := st.handled + 1))
        case None => None
      else None
    case ClientEcho =>
      if st.clientHandler.ClientEchoing? then
        match EchoReply(st.clientHandler.message)
        case Some(reply) =>
          Some(st.(clientHandler := ClientIdle, toServer := st.toServer + [Frame(st.clientCipher, Echo(reply))],
                   handled := st.handled + 1))
        case None => None
      else None
  }

  // The server decodes the next frame and hands the packet to its default handler. There is none for responses.
  function ServerDecode(st: State): State
    requires st.toServer != []
  {
    var frame, rest := st.toServer[0], st.(toServer := st.toServer[1..]);
    if frame.cipher != st.serverCipher then rest.(serverHandler := ServerGarbled)
    else match frame.packet
      case Request(publicKey) => rest.(serverHandler := Exchanging(publicKey))
      case Echo(message) => rest.(serverHandler := ServerEchoing(message))
      case Response(_, _, _, _) => rest
  }

  // The client decodes the next frame. A response goes to the task if it waits for one; if it does not wait yet, the
  // dispatcher keeps the response for it or drops it. An echo goes to the handler.
  function ClientDecode(prims: Primitives, st: State): State
    requires st.toClient != []
  {
    var frame, rest := st.toClient[0], st.(toClient := st.toClient[1..]);
    if frame.cipher != st.clientCipher then rest.(clientHandler := ClientGarbled)
    else match frame.packet
      case Response(_, _, _, _) =>
        if st.task.Awaiting? then rest.(task := Received(st.task.secret, frame.packet))
        else if st.task.Requested? && prims.keepsEarly then rest.(task := Early(st.task.secret, frame.packet))
        else rest
      case Echo(message) => rest.(clientHandler := ClientEchoing(message))
      case Request(_) => rest
  }

  // The state after a whole sequence of events, if each of them is enabled when its turn comes.
  function Run(prims: Primitives, st: State, es: seq<Event>): Option<State> {
    if es == [] then Some(st)
    else match Run(prims, st, es[..|es| - 1])
      case None => None
      case Some(before) => Step(prims, before, es[|es| - 1])
  }

  // ---------------------------------------------------------------------------------------------------- invariant

  // The server has derived a cipher and either installed it or is about to.
  ghost predicate ServerKeyed(st: State) {
    || (st.serverHandler.Responded? && st.serverHandler.next.Aes256? && st.serverCipher.Plain?)
    || (st.serverHandler.ServerIdle? && st.serverCipher.Aes256?)
  }

  ghost function ServerKey(st: State): Cipher {
    if st.serverHandler.Responded? then st.serverHandler.next else st.serverCipher
  }

  // A response that the client holding this secret accepts and that makes it derive the given cipher.
  ghost predicate Agrees(prims: Primitives, secret: Secret, response: Packet, cipher: Cipher) {
    && response.Response?
    && prims.verify(GetHash(prims, response), response.signature)
    && ClientCipher(prims, secret, response) == cipher
    && cipher.Aes256? && cipher.rounds == 20
  }

  // The response was decoded before the client waited for it, and the dispatcher dropped it.
  predicate Lost(st: State) {
    && (st.task.Requested? || st.task.Awaiting?) && st.toClient == []
    && (st.serverHandler.Responded? || st.serverCipher.Aes256?)
  }

  ghost predicate Quiet(st: State) {
    st.toServer == [] && st.toClient == [] && st.clientHandler.ClientIdle? && st.handled == 0
  }

  function Payload(handled: nat): string {
    if handled <= INT_MAX then ToString(handled) else ""
  }

  // The echo token, wherever it is: in a queue, sealed, or in the hands of a handler.
  ghost predicate TokenToServer(st: State) {
    && st.toServer == [Frame(st.clientCipher, Echo(Payload(st.handled)))] && st.toClient == []
    && st.clientHandler.ClientIdle? && ServerKeyed(st)
    && (st.serverHandler.Responded? ==> st.handled == 0)
  }

  ghost predicate TokenAtServer(st: State) {
    && st.toServer == [] && st.toClient == [] && st.clientHandler.ClientIdle?
    && st.serverHandler == ServerEchoing(Payload(st.handled))
  }

  ghost predicate TokenToClient(st: State) {
    && st.toClient == [Frame(st.serverCipher, Echo(Payload(st.handled)))] && st.toServer == []
    && st.clientHandler.ClientIdle? && st.serverHandler.ServerIdle?
  }

  ghost predicate TokenAtClient(st: State) {
    && st.toServer == [] && st.toClient == [] && st.serverHandler.ServerIdle?
    && st.clientHandler == ClientEchoing(Payload(st.handled))
  }

  ghost predicate OneToken(st: State) {
    if st.handled % 2 == 0 then TokenToServer(st) || TokenAtServer(st) else TokenToClient(st) || TokenAtClient(st)
  }

  ghost predicate AwaitingResponse(prims: Primitives, st: State, secret: Secret) {
    && st.clientHandler.ClientIdle? && st.clientCipher.Plain? && st.handled == 0
    && (|| (&& st.toServer == [Frame(Plain, Request(prims.dhPublic(secret)))] && st.toClient == []
            && st.serverHandler.ServerIdle? && st.serverCipher.Plain?)
        || (&& st.toServer == [] && st.toClient == []
            && st.serverHandler == Exchanging(prims.dhPublic(secret)) && st.serverCipher.Plain?)
        || (&& st.toServer == [] && |st.toClient| == 1 && st.toClient[0].cipher.Plain?
            && ServerKeyed(st) && Agrees(prims, secret, st.toClient[0].packet, ServerKey(st))))
  }

  ghost predicate LostInv(prims: Primitives, st: State) {
    !prims.keepsEarly && Quiet(st) && st.clientCipher.Plain? && ServerKeyed(st)
  }

  ghost predicate Inv(prims: Primitives, st: State) {
    && st.handled <= INT_MAX
    && match st.task
       case NotStarted => st == START
       case Requested(secret) => AwaitingResponse(prims, st, secret) || LostInv(prims, st)
       case Early(secret, response) =>
         && prims.keepsEarly && Quiet(st) && st.clientCipher.Plain? && ServerKeyed(st)
         && Agrees(prims, secret, response, ServerKey(st))
       case Awaiting(secret) => AwaitingResponse(prims, st, secret) || LostInv(prims, st)
       case Received(secret, response) =>
         Quiet(st) && st.clientCipher.Plain? && ServerKeyed(st) && Agrees(prims, secret, response, ServerKey(st))
       case Verified(secret, response) =>
         Quiet(st) && st.clientCipher.Plain? && ServerKeyed(st) && Agrees(prims, secret, response, ServerKey(st))
       case Keyed =>
         Quiet(st) && ServerKeyed(st) && st.clientCipher == ServerKey(st) && st.clientCipher.rounds == 20
       case Finished =>
         OneToken(st) && st.clientCipher == ServerKey(st) && st.clientCipher.Aes256? && st.clientCipher.rounds == 20
       case Destroyed => false
  }

  // How many steps a run takes to a state.
  function Clock(st: State): nat {
    ClientSteps(st.task) + ServerSteps(st) + 2 * st.handled
    + if st.serverHandler.ServerEchoing? || st.clientHandler.ClientEchoing? || Lost(st) then 1 else 0
  }

  function ClientSteps(task: ClientTask): nat {
    match task
    case NotStarted => 0
    case Requested(_) => 1
    case Early(_, _) => 2
    case Awaiting(_) => 2
    case Received(_, _) => 3
    case Verified(_, _) => 4
    case Keyed => 5
    case Finished => 6
    case Destroyed => 4
  }

  function ServerSteps(st: State): nat {
    if st.serverCipher.Aes256? then 3
    else if st.serverHandler.Responded? then 2
    else if st.serverHandler.Exchanging? then 1
    else 0
  }

  // ------------------------------------------------------------------------------------------------------- proofs

  // Filling in the signature and the number of rounds does not change what is signed.
  lemma HashIgnoresSignatureAndRounds(prims: Primitives, r: Packet, s: Packet)
    requires r.Response? && s.Response? && r.publicKey == s.publicKey && r.salt == s.salt
    ensures GetHash(prims, r) == GetHash(prims, s)
  {
  }

  // The salt is signed too: under one public key, responses with different salts have different hashes.
  lemma SaltIsSigned(prims: Primitives, r: Packet, s: Packet)
    requires prims.HashInjective()
    requires r.Response? && s.Response? && r.publicKey == s.publicKey
    ensures GetHash(prims, r) == GetHash(prims, s) <==> r.salt == s.salt
    ensures GetHash(prims, r) == prims.sha256(r.publicKey + r.salt + prims.responseId)
  {
    if GetHash(prims, r) == GetHash(prims, s) {
      var x, y := r.publicKey + r.salt + prims.responseId, s.publicKey + s.salt + prims.responseId;
      assert x == y && |r.salt| == |s.salt|;
      var i, j := |r.publicKey|, |r.publicKey| + |r.salt|;
      assert r.salt == x[i..j] == y[i..j] == s.salt;
    }
  }

  // The conversion to uint16_t: the residue modulo 2^16.
  lemma Uint16(x: int)
    ensures ToUint16(x) < 0x1_0000 && (x - ToUint16(x)) % 0x1_0000 == 0
  {
  }

  // What the server sends when it answers, in any state: its public key, the salt and the rounds, signed under the
  // hash of key, salt and packet id.
  lemma ResponseSent(prims: Primitives, st: State, secret: Secret, salt: ByteArray, draw: Draw)
    requires Step(prims, st, ServerRespond(secret, salt, draw)).Some?
    ensures var signature := prims.sign(prims.sha256(prims.dhPublic(secret) + salt + prims.responseId));
            Step(prims, st, ServerRespond(secret, salt, draw)).value.toClient ==
            st.toClient + [Frame(st.serverCipher, Response(prims.dhPublic(secret), salt, 20, signature))]
  {
    RoundsAreAlways20(draw);
  }

  // The order of the two bounds matters: the result is 20 whatever is drawn.
  lemma RoundsAreAlways20(draw: Draw)
    ensures Rounds(draw) == 20 && ToUint16(Rounds(draw)) == 20
  {
  }

  // A clamp to [5, 20], which the two bounds read like, would keep every draw up to 15. The code agrees with it
  // exactly on the draws that the upper bound applies to.
  lemma RoundsAreNotClamped(draw: Draw)
    ensures Rounds(draw) == Min(Max(5 + draw, 5), 20) <==> draw >= 15
  {
  }

  // The response an honest server sends carries a signature the client accepts and makes it derive the server's
  // cipher: the two compute the shared secret from opposite halves of the exchange.
  lemma ResponseAgrees(prims: Primitives, clientSecret: Secret, secret: Secret, salt: ByteArray, draw: Draw)
    requires prims.Commutes() && prims.KeysMatch()
    ensures var response := ServerResponse(prims, secret, salt, draw);
            Agrees(prims, clientSecret, response,
                   ServerCipher(prims, secret, prims.dhPublic(clientSecret), response))
  {
    var unsigned := Response(prims.dhPublic(secret), salt, Rounds(draw), []);
    HashIgnoresSignatureAndRounds(prims, unsigned, ServerResponse(prims, secret, salt, draw));
    RoundsAreAlways20(draw);
  }

  lemma ReplyToPayload(handled: nat)
    requires handled <= INT_MAX
    ensures EchoReply(Payload(handled)) == if handled < INT_MAX then Some(Payload(handled + 1)) else None
  {
    RoundTrip(handled);
  }

  // The answer to any message that reads as a number is the text of its successor, and there is none for the others.
  lemma ReplyToMessage(message: string)
    ensures match Stoi(message)
            case None => EchoReply(message).None?
            case Some(n) => EchoReply(message) == if n < 0x7fff_ffff then Some(ToString(n + 1)) else None
  {
  }

  lemma FirstPayload()
    ensures Payload(0) == "0" && Payload(1) == "1"
  {
    DigitsPrinted(0);
    DigitsPrinted(1);
  }

  // A step that the clock counts and that keeps the invariant.
  ghost predicate Good(prims: Primitives, st: State, e: Event) {
    Inv(prims, st) && Step(prims, st, e).Some? ==>
      Inv(prims, Step(prims, st, e).value) && Clock(Step(prims, st, e).value) == Clock(st) + 1
  }

  lemma ClientStartIsGood(prims: Primitives, st: State, secret: Secret)
    requires prims.Commutes() && prims.KeysMatch()
    ensures Good(prims, st, ClientStart(secret))
  {
    hide EchoReply, Payload, ToString, GetHash, Rounds, ServerResponse, ServerCipher, ClientCipher;
  }

  lemma ClientAwaitIsGood(prims: Primitives, st: State)
    requires prims.Commutes() && prims.KeysMatch()
    ensures Good(prims, st, ClientAwait)
  {
    hide EchoReply, Payload, ToString, GetHash, Rounds, ServerResponse, ServerCipher, ClientCipher;
  }

  lemma ServerReceiveIsGood(prims: Primitives, st: State)
    requires prims.Commutes() && prims.KeysMatch()
    ensures Good(prims, st, ServerReceive)
  {
    hide EchoReply, Payload, ToString, GetHash, Rounds, ServerResponse, ServerCipher, ClientCipher;
  }

  lemma ServerRespondIsGood(prims: Primitives, st: State, secret: Secret, salt: ByteArray, draw: Draw)
    requires prims.Commutes() && prims.KeysMatch()
    ensures Good(prims, st, ServerRespond(secret, salt, draw))
  {
    hide EchoReply, Payload, ToString, GetHash, Rounds, ServerResponse, ServerCipher, ClientCipher;
    if Inv(prims, st) && st.serverHandler.Exchanging? {
      ResponseAgrees(prims, st.task.secret, secret, salt, draw);
    }
  }

  lemma ServerInstallIsGood(prims: Primitives, st: State)
    requires prims.Commutes() && prims.KeysMatch()
    ensures Good(prims, st, ServerInstall)
  {
    hide EchoReply, Payload, ToString, GetHash, Rounds, ServerResponse, ServerCipher, ClientCipher;
  }

  lemma ClientReceiveIsGood(prims: Primitives, st: State)
    requires prims.Commutes() && prims.KeysMatch()
    ensures Good(prims, st, ClientReceive)
  {
    hide EchoReply, Payload, ToString, GetHash, Rounds, ServerResponse, ServerCipher, ClientCipher;
  }

  lemma ClientVerifyIsGood(prims: Primitives, st: State)
    requires prims.Commutes() && prims.KeysMatch()
    ensures Good(prims, st, ClientVerify)
  {
    hide EchoReply, Payload, ToString, GetHash, Rounds, ServerResponse, ServerCipher, ClientCipher;
  }

  lemma ClientInstallIsGood(prims: Primitives, st: State)
    requires prims.Commutes() && prims.KeysMatch()
    ensures Good(prims, st, ClientInstall)
  {
    hide EchoReply, Payload, ToString, GetHash, Rounds, ServerResponse, ServerCipher, ClientCipher;
  }

  lemma ClientFirstEchoIsGood(prims: Primitives, st: State)
    requires prims.Commutes() && prims.KeysMatch()
    ensures Good(prims, st, ClientFirstEcho)
  {
    hide EchoReply, Payload, ToString, GetHash, Rounds, ServerResponse, ServerCipher, ClientCipher;
    FirstPayload();
  }

  lemma ServerEchoIsGood(prims: Primitives, st: State)
    requires prims.Commutes() && prims.KeysMatch()
    ensures Good(prims, st, ServerEcho)
  {
    hide EchoReply, Payload, ToString, GetHash, Rounds, ServerResponse, ServerCipher, ClientCipher;
    if Inv(prims, st) {
      ReplyToPayload(st.handled);
    }
  }

  lemma ClientEchoIsGood(prims: Primitives, st: State)
    requires prims.Commutes() && prims.KeysMatch()
    ensures Good(prims, st, ClientEcho)
  {
    hide EchoReply, Payload, ToString, GetHash, Rounds, ServerResponse, ServerCipher, ClientCipher;
    if Inv(prims, st) {
      ReplyToPayload(st.handled);
    }
  }

  // Every step keeps the invariant and takes one tick of the clock.
  lemma StepKeepsInv(prims: Primitives, st: State, e: Event)
    requires prims.Commutes() && prims.KeysMatch()
    requires Inv(prims, st) && Step(prims, st, e).Some?
    ensures Inv(prims, Step(prims, st, e).value)
    ensures Clock(Step(prims, st, e).value) == Clock(st) + 1
  {
    hide Inv, Step, Clock;
    match e
    case ClientStart(secret) => ClientStartIsGood(prims, st, secret);
    case ClientAwait => ClientAwaitIsGood(prims, st);
    case ServerReceive => ServerReceiveIsGood(prims, st);
    case ServerRespond(secret, salt, draw) => ServerRespondIsGood(prims, st, secret, salt, draw);
    case ServerInstall => ServerInstallIsGood(prims, st);
    case ClientReceive => ClientReceiveIsGood(prims, st);
    case ClientVerify => ClientVerifyIsGood(prims, st);
    case ClientInstall => ClientInstallIsGood(prims, st);
    case ClientFirstEcho => ClientFirstEchoIsGood(prims, st);
    case ServerEcho => ServerEchoIsGood(prims, st);
    case ClientEcho => ClientEchoIsGood(prims, st);
  }
}
