# Packet distribution system: verified model

The system is a server and its clients, which exchange packets over TCP sessions, trade and account records inside
those packets, and a generator for the keys the two sides trust each other by. This project models and proves:

* **The secure session** (`Protocol`, `ProtocolTheorems`, `Sessions`, `Crypto`). A client sends a Diffie-Hellman
  request in plain, the server answers with a signed response and installs a cipher, the client checks the signature,
  installs the same cipher and sends the echo "0"; from then on the two ends bounce an incremented number. A session
  is a transition system over the client's task and handler, the server's handler, the cipher at either end and the
  two queues of frames; the code of both ends is proved, statement by statement, to take its steps, and the objects
  it works on to stay within runs of the protocol.
* **The server** (`Server`, `TcpServers`). Any number of sessions, with accepts, closes and cleanups of the
  connection table interleaved in any way, over session objects of which no two share any part.
* **The archive layer** (`Codec`, `Archives`, `TradeInfo`, `AccountInfo`, `NodeInfo`, `Packets`, `TradeRecords`,
  `AccountRecords`, `RecordTheorems`). Every `serialize` body, run in both directions over one archive object.
* **Key files, hexadecimal text, decimal text, drive walk** (`KeyFiles`, `Paths`, `Hex`, `Decimal`, `Drives`).

## Assumptions

* Diffie-Hellman, SHA-256 and ECDSA are functions the model is given. The theorems assume that shared secrets commute
  and that the client's public key accepts what the server's private key signs; `Crypto.LawsCanBeMet` shows the two
  assumptions to be satisfiable. Secrets, salt and the chi-squared draw are arbitrary inputs of a step; the draw is
  small enough for its sum with 5 to be an int.
* Queues are first in, first out. A session decodes no further frame while one of its packet handlers is running; the
  client's coroutine is not a handler and runs beside them. A session decodes nothing before its default handlers are
  registered. Whether the dispatcher keeps a packet that nothing waits for yet, or drops it, is a parameter. Steps of
  the connection table are atomic (the mutex declared for it is never taken).
* The archive writes integers in little-endian order, a string or vector behind its length in eight bytes, a flag as
  0 or 1, and a double as its 64-bit pattern. A packet transfers its base classes in the order of its declaration,
  then its payload. A read that throws ends a load: nothing is replaced after it.
* Which paths an output stream can open and which folders can be created are parameters; the empty path names no file
  and cannot be opened. A stream that did not open ignores what is written to it, and one that did never fails to
  write. Different path strings are different files, an existing target is a file, and a stream writes each piece
  where its previous one ended.

## Where the code and its evident intent differ

* The number of rounds is bounded by `min(n, 5)` and then `max(n, 20)`, and so is always 20
  (`Protocol.RoundsAreNotClamped` says exactly when a clamp to the range from 5 to 20 would have given the same).
* Four `serialize` bodies leave members out: mql5 `OrderInfoInteger` lists `state` where `type_filling`, `type_time`
  and `reason` stand, mql4 `OrderInfo` omits `take_profit`, and the two derived mql5 account records omit their base.
  `RecordTheorems.LoadRecord` says exactly when such a record survives nevertheless, and `TakeProfitIsLost`,
  `FillingIsLost`, `LoginIsLost` and `BalanceIsLost` give one that does not for each of the four.
* The key generator never looks at its output streams. Both paths for merged keys are empty by default: then no key is
  written and the run succeeds (`KeyFiles.NoPathNoFile`), and with one of the two options given, the keys of the other
  kind are lost (`KeyFiles.PublicPathOnly`). One path given for both makes the two streams overwrite each other
  (`KeyFiles.OnePathTwice`). `KeyFiles.WriteMergedKeys` says exactly when both files come out right.
* The client calls `send_packet` before `await_packet`, with several threads behind the io_context. If the response is
  decoded in between, everything depends on the dispatcher keeping it (`ProtocolTheorems.CompleteRuns`).

## Model

| member | source | states |
|---|---|---|
| `ProtocolTheorems.CipherModes` | central_server/main.cpp:73-109 | In every state of every run, a frame at the head of a queue is sealed with its receiver's current cipher; for frames to the server this holds if and only if the server is not between sending its response and installing its cipher |
| `ProtocolTheorems.EchoBeforeCipher` | central_server/main.cpp:104-108 | That gap is reachable for all secrets, salts and draws: a named run of eight steps leaves an echo sealed with their cipher in front of a server that has none and could not decode it, so the protocol depends on no frame being decoded before the handler returns |
| `ProtocolTheorems.PlainHandshakeSealedEchoes` | client_test/main.cpp:20-56 | Every frame ever queued is in plain if and only if it is not an echo |
| `ProtocolTheorems.KeyAgreement` | client_test/main.cpp:38-50 | Once both ends have a cipher, it is in both AES under the hash of the Diffie-Hellman secret of the two secrets drawn in this run followed by the salt drawn in this run, with that salt and 20 rounds |
| `ProtocolTheorems.NoHonestSessionFails` | client_test/main.cpp:32-36 | With a matching key pair the client never rejects a response and neither end meets a frame it cannot decode |
| `ProtocolTheorems.ClientTrustsSignatures` | client_test/main.cpp:32-50 | With whatever keys the two ends have, the client gets past its check only with a response whose signature over key, salt and packet id its key accepts, and its cipher is made of its own secret and that response |
| `ProtocolTheorems.RejectedStaysPlain` | client_test/main.cpp:32-36 | A client whose key accepts no signature never gets past its check in any run: it keeps talking in plain and no echo is ever sent |
| `ProtocolTheorems.EchoConservation` | central_server/main.cpp:19-25 | From the first echo on there is exactly one, in a queue or in a handler, carrying the decimal of the number of echoes answered; even towards the server, odd towards the client |
| `ProtocolTheorems.Progress` | central_server/main.cpp:97-108 | A reachable state has a next step if and only if no handler is about to add one to the largest int and the response has not been lost to a client that waits for it |
| `ProtocolTheorems.HandshakeCompletes` | client_test/main.cpp:26-56 | In every interleaving that comes to nine steps both ends are secured, and the number of echoes answered is half of the steps beyond those |
| `ProtocolTheorems.RunsEnd` | client_test/main.cpp:60-66 | No run is longer than 2^32 + 8 steps, and a run is that long if and only if a handler has reached the limit of int, after 2^31 - 1 answers |
| `ProtocolTheorems.RunsGoOn` | client_test/main.cpp:60-66 | There is a run of every length up to that bound |
| `ProtocolTheorems.CompleteRuns` | client_test/main.cpp:26-29 | A run that can go no further is secured if and only if the dispatcher keeps early packets or the client decoded nothing before it waited; otherwise it ended after six steps |
| `ProtocolTheorems.LostExactly` | client_test/main.cpp:26-29 | At any point of any run the response is lost if and only if it was decoded before the client called await_packet and the dispatcher drops such packets |
| `ProtocolTheorems.ResponseBeforeWait` | client_test/main.cpp:26-29 | Where such packets are dropped, a named run of six steps ends with a client that waits forever |
| `ProtocolTheorems.RunKeepsOrigin` | client_test/main.cpp:38-50 | Secrets and keys held in any reachable state stem from the draws of the run that led to it |
| `ProtocolTheorems.EchoesAreAnswerable` | central_server/main.cpp:22 | Below the limit of int std::stoi never throws on a message that a handler of a run holds |
| `ProtocolTheorems.RunKeepsInv` | central_server/main.cpp:59-109 | Every reachable state satisfies the invariant over phases, ciphers and queue contents, and the clock computed from a state is the number of steps taken to it |
| `Protocol.StepKeepsInv` | central_server/main.cpp:66-109 | Each single step keeps that invariant and advances the clock by one |
| `Protocol.ResponseAgrees` | central_server/main.cpp:77-106 | The response the server sends is accepted by a client holding the matching key, which then derives the cipher the server derived |
| `Protocol.ResponseSent` | central_server/main.cpp:77-104 | In any state the server answers with its public key, the salt and 20 rounds, signed under the hash of key, salt and packet id, and sealed with the cipher in force |
| `Protocol.SaltIsSigned` | common/packets/packet-crypto.hpp:10-17 | For an injective hash, responses with one public key have the same signed hash if and only if they have the same salt |
| `Protocol.RoundsAreAlways20` | central_server/main.cpp:91-93 | The number of rounds is 20 for every draw and survives the cast to 16 bits |
| `Protocol.RoundsAreNotClamped` | central_server/main.cpp:91-93 | The two bounds do not clamp the draw to the range from 5 to 20: they agree with that clamp if and only if the draw is at least 15 |
| `Protocol.ReplyToPayload` | central_server/main.cpp:22 | The answer to the decimal of n is the decimal of n + 1, and has no defined value if and only if n is the largest int; decimals are the ones of `Decimal.ToStringPrinted` |
| `Sessions.ComputeHash` | common/packets/packet-crypto.hpp:10-17 | Appending piece by piece hashes public key, salt and packet id in this order |
| `Sessions.ProcessEcho` | central_server/main.cpp:19-25 | Answers with exactly one frame, sealed with the session's cipher and holding the decimal of the number read plus one; when `std::stoi` throws, sends nothing |
| `Sessions.Link.SendRequest` | client_test/main.cpp:20-26 | The code up to its send_packet is the protocol step of that name |
| `Sessions.Link.AwaitPacket` | client_test/main.cpp:29 | Beginning to wait is a step of its own; it finds a response that the dispatcher kept |
| `Sessions.Link.Respond` | central_server/main.cpp:75-104 | Filling in the response field by field, signing, deriving and sending is one protocol step; frame and derived cipher are spelled out, the client and the server's own cipher are untouched |
| `Sessions.Link.Install` | central_server/main.cpp:105-108 | Installing the derived cipher is the next protocol step |
| `Sessions.Link.EncryptionHandlerServer` | central_server/main.cpp:73-109 | The whole handler extends the run by exactly those two steps and leaves the server with the cipher it derived |
| `Sessions.Link.ServerDispatch` | central_server/main.cpp:66-68 | Decoding a frame and choosing the registered handler is the receive step, undecodable frames included |
| `Sessions.Link.ClientDispatch` | client_test/main.cpp:29-29 | The same at the client, where a response resumes the waiting task, or is kept or dropped if the task does not wait yet |
| `Sessions.Link.VerifyResponse` | client_test/main.cpp:32-36 | The task goes on with the response if and only if the client's key accepts its signature over the hash of key, salt and packet id; otherwise the session is destroyed |
| `Sessions.Link.InstallAtClient` | client_test/main.cpp:38-50 | Deriving and installing the client's cipher is one protocol step |
| `Sessions.Link.SendFirstEcho` | client_test/main.cpp:52-56 | Sends the echo 0 sealed with the installed cipher |
| `Sessions.Link.AnswerAtServer` | central_server/main.cpp:19-25 | The server's echo handler is the protocol step of that name, on whatever message a run has brought it, up to the limit of int |
| `Sessions.Link.AnswerAtClient` | client_test/main.cpp:60-66 | The client's echo handler is the protocol step of that name, on whatever message a run has brought it, up to the limit of int |
| `Sessions.Link.Resume` | central_server/main.cpp:150-160 | Whatever the scheduler resumes, the two session objects stay where a run of the protocol has taken them |
| `Crypto.ModPowCommutes` | client_test/main.cpp:38 | The Diffie-Hellman law holds for modular exponentiation |
| `Crypto.LawsCanBeMet` | central_server/main.cpp:95-101 | Primitives that satisfy every law the protocol is proved under exist |
| `Server.SessionsAreIndependent` | central_server/main.cpp:59-71 | In any run of the server, with any number of sessions, each session is exactly where its own events alone would have taken it |
| `Server.EverySessionIsSafe` | central_server/main.cpp:111-124 | The protocol invariant, key agreement and step count hold for every connection of every run |
| `Server.TableRefinesFilter` | central_server/main.cpp:53-70 | After any run the table is in accept order without duplicates and holds every open connection; right after a cleanup it holds exactly the open ones |
| `Server.StepKeepsTable` | central_server/main.cpp:111-118 | Each event keeps that, and a cleanup establishes exactness from any such table |
| `TcpServers.TcpServer.DoAccept` | central_server/main.cpp:42-58 | A failed accept changes nothing, a successful one appends one connection; the server stays where its history has taken it |
| `TcpServers.TcpServer.SetupNewConnection` | central_server/main.cpp:59-71 | The new session is the last entry of the vector, behind all earlier ones, and shares no object with them |
| `TcpServers.TcpServer.CleanupTask` | central_server/main.cpp:111-119 | Compacting the vector in place leaves the open entries in their order and is the cleanup step |
| `TcpServers.TcpServer.Close` | central_server/main.cpp:115 | Closing marks one connection and leaves the table to the next cleanup |
| `TcpServers.TcpServer.Deliver` | central_server/main.cpp:66-68 | A step of one session moves its objects as the protocol says and leaves those of every other session as they are |
| `TcpServers.SessionObjectsAreSafe` | central_server/main.cpp:59-71 | Whatever has happened to a server, the session objects behind every connection satisfy the protocol invariant, have met no frame they could not decode and hold equal ciphers once both have one |
| `TcpServers.VectorIsRight` | central_server/main.cpp:111-118 | After any history the vector is in accept order without duplicates and holds every open session; right after a cleanup it holds no closed one |
| `Codec.RoundTrip` | common/mql-cpp/trade-info.hpp:96-127 | Any list of scalars is read back whole from its bytes followed by any suffix, and the reader stops at the suffix |
| `Codec.Canonical` | common/mql-cpp/trade-info.hpp:96-127 | A successful read consumed the encoding of what it returned: no byte string has two readings |
| `Codec.PrefixFree` | common/mql-cpp/trade-info.hpp:316-416 | Encodings of the same kinds that agree up to some tails agree on every value and on the tails |
| `Codec.TruncatedReadFails` | common/mql-cpp/trade-info.hpp:316-416 | Reading any proper part of what was saved throws |
| `Codec.DecodeEncode` | common/packets/node-info.hpp:14-20 | One saved integer, flag, double or string is read back from any stream that starts with it |
| `Codec.EncodeLayout` | common/mql-cpp/enums.hpp:289-305 | The layout of each kind of scalar: residues in eight or four bytes with the least significant first, a flag as one byte, a string behind its length |
| `Archives.Archive.Transfer` | common/mql-cpp/trade-info.hpp:45-61 | One statement writes the value when saving and replaces it when loading; after a failed read nothing is replaced any more |
| `Archives.Archive.TransferTime` | common/mql-cpp/common.hpp:22-38 | A timestamp goes through an unsigned 64-bit word and comes back unchanged, negative ones included |
| `Archives.Archive.TransferEnum` | common/mql-cpp/enums.hpp:289-305 | An enumeration goes through its int |
| `Archives.Archive.HasRead` | common/mql-cpp/trade-info.hpp:96-127 | A loading archive asked for the kinds that were saved has not failed, has every value and stands at the suffix |
| `Bytes.Signed64RoundTrip` | common/mql-cpp/common.hpp:22-38 | A negative count travels as itself plus 2^64, any other as itself, and conversion back is the identity |
| `TradeInfo.SerializeOrderInfoInteger` | common/mql-cpp/trade-info.hpp:45-61 | Saving appends the listed members in source order, with state four times; loading a saved record restores all of them, keeps the filling type, lifetime type and reason, and stops where it ends |
| `TradeInfo.SerializeOrderInfoDouble` | common/mql-cpp/trade-info.hpp:84-93 | Saving appends the members in source order; loading a saved record, whatever follows it, restores it and stops where it ends |
| `TradeInfo.SerializeOrderInfoString` | common/mql-cpp/trade-info.hpp:108-113 | Saving appends the members in source order; loading a saved record, whatever follows it, restores it and stops where it ends |
| `TradeInfo.SerializeOrderInfo` | common/mql-cpp/trade-info.hpp:121-126 | Saving appends the members of the three base classes in source order; loading a saved order restores all but the three members its integer base leaves out |
| `TradeInfo.SerializePositionInfoInteger` | common/mql-cpp/trade-info.hpp:175-186 | Saving appends the members in source order, two timestamps and two enumerations among them; loading a saved record, whatever follows it, restores it and stops where it ends |
| `TradeInfo.SerializePositionInfoDouble` | common/mql-cpp/trade-info.hpp:209-218 | Saving appends the members in source order; loading a saved record, whatever follows it, restores it and stops where it ends |
| `TradeInfo.SerializePositionInfoString` | common/mql-cpp/trade-info.hpp:239-244 | Saving appends the members in source order; loading a saved record, whatever follows it, restores it and stops where it ends |
| `TradeInfo.SerializePositionInfo` | common/mql-cpp/trade-info.hpp:252-257 | Saving appends the members of the three base classes in source order; loading a saved record, whatever follows it, restores it and stops where it ends |
| `TradeInfo.SerializeDealInfoInteger` | common/mql-cpp/trade-info.hpp:317-328 | Saving appends the members in source order; loading a saved record, whatever follows it, restores it and stops where it ends |
| `TradeInfo.SerializeDealInfoDouble` | common/mql-cpp/trade-info.hpp:370-380 | Saving appends the members in source order; loading a saved record, whatever follows it, restores it and stops where it ends |
| `TradeInfo.SerializeDealInfoString` | common/mql-cpp/trade-info.hpp:397-402 | Saving appends the members in source order; loading a saved record, whatever follows it, restores it and stops where it ends |
| `TradeInfo.SerializeDealInfo` | common/mql-cpp/trade-info.hpp:410-415 | Saving appends the members of the three base classes in source order; loading a saved record, whatever follows it, restores it and stops where it ends |
| `TradeInfo.SerializeMql4OrderInfo` | common/mql-cpp/trade-info.hpp:444-461 | Saving appends the listed members in source order; loading a saved order restores all of them, keeps the take-profit level and stops where it ends |
| `AccountInfo.SerializeAccountInfoDouble` | common/mql-cpp/account-info.hpp:21-32 | Saving appends the members in source order; loading a saved record, whatever follows it, restores it and stops where it ends |
| `AccountInfo.SerializeAccountInfoString` | common/mql-cpp/account-info.hpp:45-51 | Saving appends the members in source order; loading a saved record, whatever follows it, restores it and stops where it ends |
| `AccountInfo.SerializeAccountInfoInteger` | common/mql-cpp/account-info.hpp:67-76 | Saving appends the members in source order, enumerations and flags among them; loading a saved record, whatever follows it, restores it and stops where it ends |
| `AccountInfo.SerializeAccountInfoDoubleMinimal` | common/mql-cpp/account-info.hpp:90-97 | Saving appends the members in source order; loading a saved record, whatever follows it, restores it and stops where it ends |
| `AccountInfo.SerializeAccountInfoIntegerMinimal` | common/mql-cpp/account-info.hpp:108-112 | Saving appends the members in source order; loading a saved record, whatever follows it, restores it and stops where it ends |
| `AccountInfo.SerializeAccountInfoMinimal` | common/mql-cpp/account-info.hpp:122-127 | Saving appends the members of the three base classes in source order; loading a saved record, whatever follows it, restores it and stops where it ends |
| `AccountInfo.SerializeFullAccountInfo` | common/mql-cpp/account-info.hpp:144-149 | Saving appends the members of the three base classes in source order; loading a saved record, whatever follows it, restores it and stops where it ends |
| `AccountInfo.SerializeMql5AccountInfoInteger` | common/mql-cpp/account-info.hpp:169-175 | Saving appends its own members in source order; loading a saved record restores them and keeps the whole base class |
| `AccountInfo.SerializeMql5AccountInfoDouble` | common/mql-cpp/account-info.hpp:189-196 | Saving appends its own members in source order; loading a saved record restores them and keeps the whole base class |
| `RecordTheorems.SaveThenLoadStream` | common/mql-cpp/trade-info.hpp:96-127 | Records of any types, parts of records, packets and node reports included, saved back to back are loaded back one by one, each restored into the record it is loaded into, with the reader left at the suffix |
| `RecordTheorems.LoadRecord` | common/mql-cpp/account-info.hpp:115-150 | A record whose bytes come next is restored, whatever record it is loaded into and whatever precedes and follows it, and comes back whole if and only if the record loaded into agreed with it on the members left out |
| `RecordTheorems.StreamPrefixFree` | common/packets/account-trade-info.hpp:11-15 | Streams of records that agree on their bytes up to some tails agree on every listed member of every record and on the tails |
| `RecordTheorems.RecordPrefixFree` | common/mql-cpp/trade-info.hpp:316-416 | The same for single records of one type, of fixed or variable length |
| `RecordTheorems.SameBytes` | common/mql-cpp/trade-info.hpp:444-461 | Two records of one type have the same bytes if and only if they agree on the listed members: the others leave no trace |
| `RecordTheorems.PacketBytes` | common/packets/account-trade-info.hpp:22-86 | A request is its tag on the wire, a response packet its tag and then its record |
| `RecordTheorems.StreamInOrder` | common/packets/account-trade-info.hpp:22-86 | Records saved back to back stand one behind the other |
| `RecordTheorems.SerializeResponse` | common/packets/account-trade-info.hpp:22-86 | A response packet transfers its tag and then the record it derives from; loading a saved packet restores both |
| `RecordTheorems.SerializeRecord` | common/packets/account-trade-info.hpp:22-86 | The same contract for whatever is sent: on saving the record stays as it is, on loading it is restored from what was saved |
| `TradeRecords.SerializeTradeRecord` | common/packets/account-trade-info.hpp:49-86 | The trade records and their parts as contents of packets of their own |
| `AccountRecords.SerializeAccountRecord` | common/packets/account-trade-info.hpp:22-47 | The account records and their parts as contents of packets of their own |
| `RecordTheorems.RestoredWhole` | common/mql-cpp/account-info.hpp:159-197 | The members left out are those of the record loaded into; a record comes back whole if and only if the two agree on them |
| `RecordTheorems.TakeProfitIsLost` | common/mql-cpp/trade-info.hpp:444-461 | A concrete mql4 order with a take-profit level of 1, saved and loaded into a blank one, has level 0 |
| `RecordTheorems.FillingIsLost` | common/mql-cpp/trade-info.hpp:45-61 | A concrete mql5 order comes back with its state and without filling type, lifetime type and reason |
| `RecordTheorems.LoginIsLost` | common/mql-cpp/account-info.hpp:159-175 | A concrete derived account record comes back without the login number of its base |
| `RecordTheorems.BalanceIsLost` | common/mql-cpp/account-info.hpp:180-196 | A concrete derived account record comes back without the balance of its base |
| `NodeInfo.SerializeNodeInformation` | common/packets/node-info.hpp:27-32 | Saving appends the payload in source order, a vector as its length and its elements; loading a saved report restores it with all disks and stops where it ends |
| `NodeInfo.SerializeElements` | common/packets/node-info.hpp:14-20 | The elements of the vector, read until their number is reached or a read throws |
| `NodeInfo.DisksInOrder` | common/packets/node-info.hpp:14-20 | The elements stand one behind the other, each as its name, its available and its total bytes |
| `NodeInfo.SaveThenLoadNodeInformation` | common/packets/node-info.hpp:27-32 | A report with any number of disks survives saving and loading |
| `NodeInfo.NodeInformationPrefixFree` | common/packets/node-info.hpp:27-32 | Two reports that agree on their bytes up to some tails are equal, even if nothing is known about their lengths |
| `Packets.SerializePacketTag` | common/packets/account-trade-info.hpp:11-15 | Saving appends the tag; loading a saved record, whatever follows it, restores it and stops where it ends |
| `Packets.SerializeVersionResponse` | common/packets/account-trade-info.hpp:20 | Saving appends the tag and then the two flags; loading a saved record, whatever follows it, restores it and stops where it ends |
| `KeyFiles.WriteSeparateKeys` | keygen/main.cc:42-70 | The run stops at the first pair with an existing target, at the first pair of all if a folder cannot be created, or at the end; of the pairs before that, every target that opens holds its key, and every other path is as before |
| `KeyFiles.KeysInTheirFiles` | keygen/main.cc:48-66 | The private key of pair i is in private, i and .pem of the private folder, the public one in public, i and .pem of the public folder, for every file that could be opened; the others are as before |
| `KeyFiles.OnlyNumberedFilesChange` | keygen/main.cc:48-66 | A file that a run has changed is one of those, and its path begins with one of the two folders |
| `KeyFiles.TargetsPrinted` | keygen/main.cc:48-49 | The paths of a pair, spelled out for every folder |
| `KeyFiles.NothingIsDestroyed` | keygen/main.cc:50-60 | Without force every file present before keeps its contents, however the run ends |
| `KeyFiles.OutcomeIsDetermined` | keygen/main.cc:42-70 | The stopping point and the resulting files are determined by what the run finds; it goes through all pairs if and only if the folders can be created and force is set or no target existed |
| `KeyFiles.KeysInPlace` | keygen/main.cc:63-66 | A run that goes through leaves every key in its file if and only if every target can be opened or held its key before |
| `KeyFiles.WriteMergedKeys` | keygen/main.cc:14-40 | Refuses and changes nothing if a target exists and force is off; otherwise both files come out right if and only if both paths can be opened, which the empty path never can, and differ or the two texts are equal |
| `KeyFiles.MergedInOrder` | keygen/main.cc:31-37 | The texts hold the keys of pair after pair, each with a newline behind it, the private ones in one and the public ones in the other |
| `KeyFiles.MergedRight` | keygen/main.cc:29-39 | The same condition on any files a run can leave behind |
| `KeyFiles.NoPathNoFile` | keygen/main.cc:82-83 | With both paths empty, their default, the run succeeds and changes no file |
| `KeyFiles.PublicPathOnly` | keygen/main.cc:82-83 | With the public path alone the run succeeds, the public keys are written and the private keys are nowhere |
| `KeyFiles.OnePathTwice` | keygen/main.cc:29-39 | With one path for both and one pair of different keys, the file does not hold both texts |
| `Paths.PathsDiffer` | keygen/main.cc:47-49 | No two key files of a run share a path, even in one folder |
| `Paths.JoinInFolder` | keygen/main.cc:48-49 | A path is the folder, a separator unless the folder brings its own, and the name |
| `Paths.JoinInjective` | keygen/main.cc:48-49 | Folder and name can be told from the path they make |
| `Paths.NamesPrinted` | keygen/main.cc:48-49 | The names are private or public, the decimal of the counter and .pem |
| `Decimal.StoiToString` | central_server/main.cpp:22 | Reading a printed int gives it back, whatever text that does not start with a digit follows it |
| `Decimal.RoundTrip` | client_test/main.cpp:63 | The same without a tail, for every int |
| `Decimal.ToStringPrinted` | central_server/main.cpp:22 | An int is printed as a minus sign if it is negative and its magnitude without a leading zero |
| `Decimal.DigitsOfNumber` | central_server/main.cpp:22 | Every string of digits without a leading zero is the one printed for the number it spells |
| `Decimal.DigitsPrinted` | central_server/main.cpp:22 | What is printed, digit by digit to the base 10 |
| `Decimal.StoiReads` | central_server/main.cpp:22 | std::stoi on every text with white space, a sign and digits: the number they spell, or the exception if an int cannot hold it |
| `Decimal.StoiThrows` | central_server/main.cpp:22 | On every other text it throws |
| `Decimal.DigitsInjective` | keygen/main.cc:48-49 | Different numbers print differently |
| `Decimal.PrefixInRange` | central_server/main.cpp:22 | No number read on the way exceeds the final one |
| `Hex.BytesToHexStr` | common/common.hpp:4-15 | The loop with its shift and mask prints the text defined by division |
| `Hex.FromHexToHex` | common/common.hpp:4-15 | A decoder recovers every byte string from its text |
| `Hex.HexShape` | common/common.hpp:4-15 | Two digits of 0123456789abcdef for each byte, at the byte's place, the high one first |
| `Hex.HexAppend` | common/common.hpp:4-15 | The text of a concatenation is the concatenation of the texts |
| `Drives.GetDisksLoad` | common/packets/node-info.cpp:160-184 | Terminates for every mask and lists, in ascending letter order, exactly the set bits whose query succeeds, each with its own letter, available bytes and total bytes as the query reports them, no more than there are set bits |
| `Drives.BitIsDigit` | common/packets/node-info.cpp:165-182 | The bits the walk tests are the binary digits of the mask |

## Left out

- TradeInfo.SerializeOrderInfoInteger and the other record members: records are values, passed in and returned; a record being overwritten in place through a reference, and references to one record from two places, are not captured.
- Archives.Archive.Transfer: what an archive holds of a record after a read has thrown is only said to be no later member; the buffer is a byte sequence, not a stream of the serialization library.
- Sessions.ProcessEcho: the largest int is excluded, because its increment is undefined; in the protocol a message on which `std::stoi` throws has no step, so what the exception does further up is not followed; ProtocolTheorems.EchoesAreAnswerable shows that no run brings one about.
- TcpServers.TcpServer.Deliver: a closed session takes no further step; what a handler that is still running does to it is decided in a library that is not part of this model.
- Sessions.Link.VerifyResponse: after a rejected signature the task stops at the call to `Destroy()`; the source goes on using the destroyed session, and what that does is decided in a library that is not part of this model.
- KeyFiles.WriteSeparateKeys: at most 2^31 - 1 pairs, because the loop counter is an int; with more, its increment is not defined.
- TcpServers.TcpServer.CleanupTask: one round of the loop; the timer between rounds, and the moment at which a session removed from the vector is destroyed, are not modelled.
- Drives.GetDisksLoad: the test of the lowest bit and the right shift of an unsigned mask are written as remainder and quotient by two; the Linux and macOS branches are left out.
- The session creation loop of the client's `main`: it creates one session.
- Sockets, threads, coroutine scheduling, logging, and the time limits of packets.
- Re-keying a secured session: the client sends a single request.
- Packet identifiers and the packets without any payload.
- Operating system queries of node-info.cpp other than the drive walk, argument parsing and key generation in keygen, reading keys from files, the two DLLs and the C header.
- Newline translation in text streams, writes that fail half-way, and paths that differ only in spelling.
