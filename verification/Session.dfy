/** The code of the two ends over their session objects: send_packet and setup_encryption change a session in place,
    and each stretch of handler or coroutine code takes the link through the step of the protocol of that name. */
module Sessions {
  import opened Wrappers
  import opened Bytes
  import opened Crypto
  import opened Decimal
  import opened Protocol
  import opened ProtocolTheorems

  // One end of a connection. The frames it has sent and the other end has not decoded yet stay queued here.
  class Session {
    var encryption: Cipher
    var sent: seq<Frame>

    constructor ()
      ensures encryption == Plain && sent == []
    {
      encryption, sent := Plain, [];
    }

    method SendPacket(packet: Packet)
      modifies this`sent
      ensures sent == old(sent) + [Frame(encryption, packet)]
    {
      sent := sent + [Frame(encryption, packet)];
    }

    method SetupEncryption(cipher: Cipher)
      modifies this`encryption
      ensures encryption == cipher
    {
      encryption := cipher;
    }

    // The other end takes the oldest frame.
    method TakeFrame() returns (frame: Frame)
      requires sent != []
      modifies this`sent
      ensures frame == old(sent)[0] && sent == old(sent)[1..]
    {
      frame := sent[0];
      sent := sent[1..];
    }
  }

  // The hash that is signed: the key, the salt and the packet's id, appended to one byte array.
  method ComputeHash(prims: Primitives, response: Packet) returns (hash: ByteArray)
    requires response.Response?
    ensures hash == GetHash(prims, response)
    ensures hash == prims.sha256(response.publicKey + response.salt + prims.responseId)
  {
    var arr: ByteArray := [];
    arr := arr + response.publicKey;
    arr := arr + response.salt;
    arr := arr + prims.responseId;
    assert arr == response.publicKey + response.salt + prims.responseId;
    hash := prims.sha256(arr);
  }

  // How a call of process_echo ends: by sending an answer, or by the exception of std::stoi.
  datatype EchoOutcome = Answered | Thrown

  // process_echo, the same code at both ends. The precondition is what the addition needs to be defined.
  method ProcessEcho(connection: Session, message: string) returns (outcome: EchoOutcome)
    requires Stoi(message) != Some(INT_MAX)
    modifies connection`sent
    ensures match Stoi(message)
            case None => outcome == Thrown && connection.sent == old(connection.sent)
            case Some(number) =>
              && outcome == Answered
              && connection.sent == old(connection.sent) + [Frame(connection.encryption, Echo(ToString(number + 1)))]
  {
    match Stoi(message) {
      case None => outcome := Thrown;
      case Some(number) =>
        var response := Echo("");
        response := response.(message := ToString(number + 1));
        connection.SendPacket(response);
        outcome := Answered;
    }
  }

  // Both ends of a connection, with how far their code has come.
  class Link {
    const prims: Primitives
    const client: Session
    const server: Session
    var task: ClientTask
    var clientHandler: ClientHandler
    var serverHandler: ServerHandler
    ghost var handled: nat
    ghost var events: seq<Event>    // the steps taken so far

    // The objects are where a run of the protocol has taken them.
    ghost predicate Valid()
      reads Objects()
    {
      client != server && Run(prims, START, events) == Some(Abs())
    }

    ghost function Objects(): set<object> {
      {this, client, server}
    }

    ghost function Abs(): State
      reads Objects()
    {
      State(task, clientHandler, client.encryption, serverHandler, server.encryption, client.sent, server.sent, handled)
    }

    constructor (prims: Primitives)
      ensures Valid() && Abs() == START && events == [] && this.prims == prims
      ensures fresh(client) && fresh(server)
    {
      this.prims := prims;
      client := new Session();
      server := new Session();
      task, clientHandler, serverHandler, handled, events := NotStarted, ClientIdle, ServerIdle, 0, [];
    }

    // setup_encryption_for_session up to its co_await.
    method SendRequest(secret: Secret)
      requires Valid() && task.NotStarted?
      modifies this, client
      ensures Valid() && events == old(events) + [ClientStart(secret)]
      ensures Step(prims, old(Abs()), ClientStart(secret)) == Some(Abs())
      ensures task == Requested(secret) && client.encryption == old(client.encryption)
      ensures client.sent == old(client.sent) + [Frame(client.encryption, Request(prims.dhPublic(secret)))]
    {
      var dhPacket := Request(prims.dhPublic(secret));
      client.SendPacket(dhPacket);
      task := Requested(secret);
      events := events + [ClientStart(secret)];
      RunOne(prims, old(events), ClientStart(secret));
    }

    // The call of await_packet: it finds the response that came early, or begins to wait.
    method AwaitPacket()
      requires Valid() && (task.Requested? || task.Early?)
      modifies this
      ensures Valid() && events == old(events) + [ClientAwait]
      ensures Step(prims, old(Abs()), ClientAwait) == Some(Abs())
      ensures task == if old(task).Early? then Received(old(task).secret, old(task).response)
                     else Awaiting(old(task).secret)
    {
      task := if task.Early? then Received(task.secret, task.response) else Awaiting(task.secret);
      events := events + [ClientAwait];
      RunOne(prims, old(events), ClientAwait);
    }

    method ServerDispatch()
      requires Valid() && serverHandler.ServerIdle? && client.sent != []
      modifies this, client
      ensures Valid() && events == old(events) + [ServerReceive]
      ensures Step(prims, old(Abs()), ServerReceive) == Some(Abs())
      ensures client.sent == old(client.sent)[1..] && client.encryption == old(client.encryption)
      ensures var frame := old(client.sent)[0];
              serverHandler ==
              if frame.cipher != server.encryption then ServerGarbled
              else match frame.packet
                case Request(publicKey) => Exchanging(publicKey)
                case Echo(message) => ServerEchoing(message)
                case Response(_, _, _, _) => ServerIdle
    {
      var frame := client.TakeFrame();
      if frame.cipher != server.encryption {
        serverHandler := ServerGarbled;
      } else {
        match frame.packet {
          case Request(publicKey) => serverHandler := Exchanging(publicKey);
          case Echo(message) => serverHandler := ServerEchoing(message);
          case Response(_, _, _, _) =>
        }
      }
      events := events + [ServerReceive];
      RunOne(prims, old(events), ServerReceive);
    }

    // encryption_handler_server up to and including its send_packet.
    method Respond(secret: Secret, salt: ByteArray, draw: Draw)
      requires Valid() && serverHandler.Exchanging?
      modifies this, server
      ensures Valid() && events == old(events) + [ServerRespond(secret, salt, draw)]
      ensures Step(prims, old(Abs()), ServerRespond(secret, salt, draw)) == Some(Abs())
      ensures unchanged(client) && server.encryption == old(server.encryption)
      ensures var signature := prims.sign(prims.sha256(prims.dhPublic(secret) + salt + prims.responseId));
              server.sent ==
              old(server.sent) +
              [Frame(server.encryption, Response(prims.dhPublic(secret), salt, 20, signature))]
      ensures var sharedSecret := prims.dhShared(secret, old(serverHandler).clientKey);
              serverHandler == Responded(Aes256(prims.sha256(sharedSecret + salt), salt, 20))
    {
      hide Run;
      var responsePacket := Response([], [], 0, []);
      responsePacket := responsePacket.(publicKey := prims.dhPublic(secret));
      responsePacket := responsePacket.(salt := salt);
      responsePacket := responsePacket.(nRounds := 5 + draw);
      responsePacket := responsePacket.(nRounds := Min(responsePacket.nRounds, 5));
      responsePacket := responsePacket.(nRounds := Max(responsePacket.nRounds, 20));
      var hash := ComputeHash(prims, responsePacket);
      responsePacket := responsePacket.(signature := prims.sign(hash));
      var sharedSecret := prims.dhShared(secret, serverHandler.clientKey);
      sharedSecret := sharedSecret + responsePacket.salt;
      var sharedKey := prims.sha256(sharedSecret);
      server.SendPacket(responsePacket);
      serverHandler := Responded(Aes256(sharedKey, responsePacket.salt, ToUint16(responsePacket.nRounds)));
      HashIgnoresSignatureAndRounds(prims, Response(prims.dhPublic(secret), salt, Rounds(draw), []), responsePacket);
      events := events + [ServerRespond(secret, salt, draw)];
      RunOne(prims, old(events), ServerRespond(secret, salt, draw));
    }

    // The rest of encryption_handler_server.
    method Install()
      requires Valid() && serverHandler.Responded?
      modifies this, server
      ensures Valid() && events == old(events) + [ServerInstall]
      ensures Step(prims, old(Abs()), ServerInstall) == Some(Abs())
      ensures serverHandler.ServerIdle? && server.sent == old(server.sent)
      ensures server.encryption == old(serverHandler).next
    {
      server.SetupEncryption(serverHandler.next);
      serverHandler := ServerIdle;
      events := events + [ServerInstall];
      RunOne(prims, old(events), ServerInstall);
    }

    // encryption_handler_server as a whole, when nothing comes between its two parts.
    method EncryptionHandlerServer(secret: Secret, salt: ByteArray, draw: Draw)
      requires Valid() && serverHandler.Exchanging?
      modifies this, server
      ensures Valid() && events == old(events) + [ServerRespond(secret, salt, draw), ServerInstall]
      ensures serverHandler.ServerIdle?
      ensures server.encryption ==
              ServerCipher(prims, secret, old(serverHandler.clientKey), ServerResponse(prims, secret, salt, draw))
    {
      Respond(secret, salt, draw);
      Install();
    }

    method ClientDispatch()
      requires Valid() && clientHandler.ClientIdle? && server.sent != []
      modifies this, server
      ensures Valid() && events == old(events) + [ClientReceive]
      ensures Step(prims, old(Abs()), ClientReceive) == Some(Abs())
      ensures server.sent == old(server.sent)[1..] && server.encryption == old(server.encryption)
      ensures var frame := old(server.sent)[0];
              clientHandler ==
              if frame.cipher != client.encryption then ClientGarbled
              else if frame.packet.Echo? then ClientEchoing(frame.packet.message)
              else ClientIdle
      ensures var frame := old(server.sent)[0];
              task ==
              if frame.cipher != client.encryption || !frame.packet.Response? then old(task)
              else if old(task).Awaiting? then Received(old(task).secret, frame.packet)
              else if old(task).Requested? && prims.keepsEarly then Early(old(task).secret, frame.packet)
              else old(task)
    {
      var frame := server.TakeFrame();
      if frame.cipher != client.encryption {
        clientHandler := ClientGarbled;
      } else {
        match frame.packet {
          case Response(_, _, _, _) =>
            if task.Awaiting? {
              task := Received(task.secret, frame.packet);
            } else if task.Requested? && prims.keepsEarly {
              task := Early(task.secret, frame.packet);
            }
          case Echo(message) => clientHandler := ClientEchoing(message);
          case Request(_) =>
        }
      }
      events := events + [ClientReceive];
      RunOne(prims, old(events), ClientReceive);
    }

    // setup_encryption_for_session after its co_await, in three parts.
    method VerifyResponse()
      requires Valid() && task.Received? && task.response.Response?
      modifies this
      ensures Valid() && events == old(events) + [ClientVerify]
      ensures Step(prims, old(Abs()), ClientVerify) == Some(Abs())
      ensures var r := old(task).response;
              var accepted := prims.verify(prims.sha256(r.publicKey + r.salt + prims.responseId), r.signature);
              && (accepted ==> task == Verified(old(task).secret, r))
              && (!accepted ==> task == Destroyed)
    {
      var hash := ComputeHash(prims, task.response);
      if !prims.verify(hash, task.response.signature) {
        task := Destroyed;
      } else {
        task := Verified(task.secret, task.response);
      }
      events := events + [ClientVerify];
      RunOne(prims, old(events), ClientVerify);
    }

    method InstallAtClient()
      requires Valid() && task.Verified? && task.response.Response?
      modifies this, client
      ensures Valid() && events == old(events) + [ClientInstall]
      ensures Step(prims, old(Abs()), ClientInstall) == Some(Abs())
      ensures task.Keyed? && client.sent == old(client.sent)
      ensures var r := old(task).response;
              var sharedSecret := prims.dhShared(old(task).secret, r.publicKey);
              client.encryption == Aes256(prims.sha256(sharedSecret + r.salt), r.salt, r.nRounds % 0x1_0000)
    {
      var sharedSecret := prims.dhShared(task.secret, task.response.publicKey);
      sharedSecret := sharedSecret + task.response.salt;
      var sharedKey := prims.sha256(sharedSecret);
      client.SetupEncryption(Aes256(sharedKey, task.response.salt, ToUint16(task.response.nRounds)));
      task := Keyed;
      events := events + [ClientInstall];
      RunOne(prims, old(events), ClientInstall);
    }

    method SendFirstEcho()
      requires Valid() && task.Keyed?
      modifies this, client
      ensures Valid() && events == old(events) + [ClientFirstEcho]
      ensures Step(prims, old(Abs()), ClientFirstEcho) == Some(Abs())
      ensures task.Finished? && client.encryption == old(client.encryption)
      ensures client.sent == old(client.sent) + [Frame(client.encryption, Echo("0"))]
    {
      var echo := Echo("");
      echo := echo.(message := "0");
      client.SendPacket(echo);
      task := Finished;
      events := events + [ClientFirstEcho];
      RunOne(prims, old(events), ClientFirstEcho);
    }

    method AnswerAtServer()
      requires Valid() && prims.Commutes() && prims.KeysMatch()
      requires serverHandler.ServerEchoing? && !AtIntLimit(Abs())
      modifies this, server
      ensures Valid() && events == old(events) + [ServerEcho]
      ensures Step(prims, old(Abs()), ServerEcho) == Some(Abs())
      ensures Stoi(old(serverHandler).message).Some? && Stoi(old(serverHandler).message).value < 0x7fff_ffff
      ensures var number := Stoi(old(serverHandler).message).value;
              server.sent == old(server.sent) + [Frame(server.encryption, Echo(ToString(number + 1)))]
      ensures server.encryption == old(server.encryption)
    {
      hide Run, AtIntLimit, Stoi;
      EchoesAreAnswerable(prims, events);
      var outcome := ProcessEcho(server, serverHandler.message);
      serverHandler := ServerIdle;
      handled := handled + 1;
      events := events + [ServerEcho];
      RunOne(prims, old(events), ServerEcho);
    }

    method AnswerAtClient()
      requires Valid() && prims.Commutes() && prims.KeysMatch()
      requires clientHandler.ClientEchoing? && !AtIntLimit(Abs())
      modifies this, client
      ensures Valid() && events == old(events) + [ClientEcho]
      ensures Step(prims, old(Abs()), ClientEcho) == Some(Abs())
      ensures Stoi(old(clientHandler).message).Some? && Stoi(old(clientHandler).message).value < 0x7fff_ffff
      ensures var number := Stoi(old(clientHandler).message).value;
              client.sent == old(client.sent) + [Frame(client.encryption, Echo(ToString(number + 1)))]
      ensures client.encryption == old(client.encryption)
    {
      hide Run, AtIntLimit, Stoi;
      EchoesAreAnswerable(prims, events);
      var outcome := ProcessEcho(client, clientHandler.message);
      clientHandler := ClientIdle;
      handled := handled + 1;
      events := events + [ClientEcho];
      RunOne(prims, old(events), ClientEcho);
    }

    // The scheduler resumes the code that the event names.
    method Resume(e: Event)
      requires Valid() && prims.Commutes() && prims.KeysMatch() && Step(prims, Abs(), e).Some?
      modifies Objects()
      ensures Valid() && events == old(events) + [e]
      ensures Step(prims, old(Abs()), e) == Some(Abs())
    {
      assert !AtIntLimit(Abs()) by {
        Progress(prims, events);
      }
      match e {
        case ClientStart(secret) => SendRequest(secret);
        case ClientAwait => AwaitPacket();
        case ServerReceive => ServerDispatch();
        case ServerRespond(secret, salt, draw) => Respond(secret, salt, draw);
        case ServerInstall => Install();
        case ClientReceive => ClientDispatch();
        case ClientVerify => VerifyResponse();
        case ClientInstall => InstallAtClient();
        case ClientFirstEcho => SendFirstEcho();
        case ServerEcho => AnswerAtServer();
        case ClientEcho => AnswerAtClient();
      }
    }
  }
}
