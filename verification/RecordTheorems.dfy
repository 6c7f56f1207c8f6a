/** What the archive layer promises about everything it carries: a saved record is loaded back exactly, with the reader
    left at whatever follows it, and records written back to back, of any types and in any number, are recovered one
    by one. The records whose `serialize` does not mention every member keep what it does not mention. */
module RecordTheorems {
  import opened Wrappers
  import opened Bytes
  import opened Codec
  import opened Archives
  import opened TradeInfo
  import opened AccountInfo
  import opened NodeInfo
  import opened Packets
  import opened TradeRecords
  import opened AccountRecords

  // Everything that is sent. A response packet of the trade subsystem is its tag and then the record it derives from.
  datatype Record =
    | Trade(trade: TradeRecord)
    | Account(account: AccountRecord)
    | Disk(disk: DiskInfo)
    | Node(node: NodeInformationResponse)
    | Request(tag: PacketTag)
    | Version(version: VersionResponse)
    | Response(responseTag: PacketTag, info: Record)
  {
    // What `serialize` transfers for the record, after what the log t already holds.
    function Logged(t: Log): Log {
      match this
      case Trade(x) => x.Logged(t)
      case Account(x) => x.Logged(t)
      case Disk(x) => x.Logged(t)
      case Node(x) => x.Logged(t)
      case Request(x) => x.Logged(t)
      case Version(x) => x.Logged(t)
      case Response(x, y) => y.Logged(x.Logged(t))
    }

    // What is saved of the record, wherever in a stream it stands.
    function Bytes(): ByteArray {
      Saved(Logged(START))
    }
  }

  predicate SameType(x: Record, y: Record) {
    match x
    case Trade(v) => y.Trade? && v.SameType(y.trade)
    case Account(v) => y.Account? && v.SameType(y.account)
    case Disk(_) => y.Disk?
    case Node(_) => y.Node?
    case Request(_) => y.Request?
    case Version(_) => y.Version?
    case Response(_, info) => y.Response? && SameType(info, y.info)
  }

  // The record that loading the bytes of saved into the record into leaves behind: the members that `serialize`
  // lists come from saved, the others stay.
  function Restored(saved: Record, into: Record): Record {
    match (saved, into)
    case (Trade(x), Trade(y)) => Trade(x.Restored(y))
    case (Account(x), Account(y)) => Account(x.Restored(y))
    case (Response(tag, x), Response(_, y)) => Response(tag, Restored(x, y))
    case _ => saved
  }

  // Agreement on the members that `serialize` leaves out.
  predicate SameUnlisted(x: Record, y: Record) {
    match (x, y)
    case (Trade(v), Trade(w)) => v.SameUnlisted(w)
    case (Account(v), Account(w)) => v.SameUnlisted(w)
    case (Response(_, v), Response(_, w)) => SameUnlisted(v, w)
    case _ => true
  }

  // Agreement on the members that it lists.
  predicate SameListed(x: Record, y: Record) {
    Restored(x, y) == y
  }

  // A saved record comes back whole exactly when the record it is loaded into already agreed with it on the members
  // that are left out; for the records that list everything this is always.
  lemma {:induction false} RestoredWhole(saved: Record, into: Record)
    requires SameType(saved, into)
    ensures Restored(saved, into) == saved <==> SameUnlisted(saved, into)
    ensures SameType(saved, Restored(saved, into)) && SameUnlisted(Restored(saved, into), into)
  {
    hide TradeRecord.Restored, TradeRecord.SameUnlisted, TradeRecord.SameType;
    hide AccountRecord.Restored, AccountRecord.SameUnlisted, AccountRecord.SameType;
    match saved
    case Trade(x) => TradeRecordRestoredWhole(x, into.trade);
    case Account(x) => AccountRecordRestoredWhole(x, into.account);
    case Response(_, info) => RestoredWhole(info, into.info);
    case _ =>
  }

  // ------------------------------------------------------------------------------------------------ what is saved

  // Saving a record appends its bytes, whatever is there already.
  lemma {:induction false} Appends(x: Record, t: Log)
    ensures Saved(x.Logged(t)) == Saved(t) + x.Bytes()
  {
    hide KindsOf, EncodeAll, TradeRecord.Logged, AccountRecord.Logged, PacketTag.Logged;
    match x {
      case Trade(v) => TradeRecordAppends(v, t);
      case Account(v) => AccountRecordAppends(v, t);
      case Disk(v) => DiskAppends(v, t);
      case Node(v) => NodeAppends(v, t);
      case Request(v) => TagAppends(v, t);
      case Version(v) => VersionAppends(v, t);
      case Response(tag, info) =>
        TagAppends(tag, t);
        Appends(info, tag.Logged(t));
        Appends(info, tag.Logged(START));
        Associative(Saved(t), Saved(tag.Logged(START)), info.Bytes());
    }
  }

  lemma DiskAppends(x: DiskInfo, t: Log)
    ensures After(x.Logged(t), t, x.Logged(START))
  {
    hide KindsOf, Saved, After;
    AfterAdd();
  }

  lemma TagAppends(x: PacketTag, t: Log)
    ensures After(x.Logged(t), t, x.Logged(START))
  {
    hide KindsOf, Saved, After;
    AfterAdd();
  }

  lemma VersionAppends(x: VersionResponse, t: Log)
    ensures After(x.Logged(t), t, x.Logged(START))
  {
    hide KindsOf, Saved, After;
    AfterAdd();
  }

  lemma NodeHeadAppends(x: NodeInformationResponse, t: Log)
    ensures After(x.LoggedHead(t), t, x.LoggedHead(START))
  {
    hide KindsOf, Saved, After;
    AfterAdd();
  }

  lemma NodeAppends(x: NodeInformationResponse, t: Log)
    ensures After(x.Logged(t), t, x.Logged(START))
  {
    hide KindsOf, Saved, NodeInformationResponse.LoggedHead;
    NodeHeadAppends(x, t);
    DisksAppend(x.LoggedHead(t), x.disksLoad);
    DisksAppend(x.LoggedHead(START), x.disksLoad);
    Associative(Saved(t), Saved(x.LoggedHead(START)), DisksBytes(x.disksLoad));
  }

  // Logs of one layout that agree on their bytes up to some tails come from records that agree.
  lemma FramedPrefixFree(l: Log, m: Log, agree: bool, s: ByteArray, t: ByteArray)
    requires Framed(l, START, m, START, agree) && Saved(l) + s == Saved(m) + t
    ensures agree && s == t
  {
    PrefixFree(l, m, s, t);
  }

  // Prefix-freedom: records of one type that agree on their bytes up to some tails agree on every listed member and
  // on the tails.
  lemma {:induction false} RecordPrefixFree(x: Record, y: Record, s: ByteArray, t: ByteArray)
    requires SameType(x, y) && x.Bytes() + s == y.Bytes() + t
    ensures SameListed(x, y) && s == t
  {
    hide Framed, Saved, TradeRecord.Logged, AccountRecord.Logged, TradeRecord.SameType, AccountRecord.SameType,
      TradeRecord.Restored, AccountRecord.Restored, PacketTag.Logged;
    match x {
      case Trade(v) =>
        TradeRecordFramed(y.trade, v, START, START);
        FramedPrefixFree(y.trade.Logged(START), v.Logged(START), y.trade == v.Restored(y.trade), t, s);
      case Account(v) =>
        AccountRecordFramed(y.account, v, START, START);
        FramedPrefixFree(y.account.Logged(START), v.Logged(START), y.account == v.Restored(y.account), t, s);
      case Disk(v) =>
        DiskInfoFramed(v, y.disk, START, START);
        FramedPrefixFree(v.Logged(START), y.disk.Logged(START), v == y.disk, s, t);
      case Node(v) => NodeInformationPrefixFree(v, y.node, s, t);
      case Request(v) =>
        PacketTagFramed(v, y.tag, START, START);
        FramedPrefixFree(v.Logged(START), y.tag.Logged(START), v == y.tag, s, t);
      case Version(v) =>
        VersionResponseFramed(v, y.version, START, START);
        FramedPrefixFree(v.Logged(START), y.version.Logged(START), v == y.version, s, t);
      case Response(tag, info) =>
        ResponseBytes(tag, info, s);
        ResponseBytes(y.responseTag, y.info, t);
        PacketTagFramed(tag, y.responseTag, START, START);
        FramedPrefixFree(tag.Logged(START), y.responseTag.Logged(START), tag == y.responseTag, info.Bytes() + s,
          y.info.Bytes() + t);
        RecordPrefixFree(info, y.info, s, t);
    }
  }

  lemma ResponseBytes(tag: PacketTag, info: Record, s: ByteArray)
    ensures Response(tag, info).Bytes() + s == Saved(tag.Logged(START)) + (info.Bytes() + s)
  {
    Appends(info, tag.Logged(START));
    Associative(Saved(tag.Logged(START)), info.Bytes(), s);
  }

  // On the wire a response packet is its tag and then its record, a request its tag.
  lemma PacketBytes(tag: PacketTag, info: Record)
    ensures Request(tag).Bytes() == Encode(Word(tag.uid))
    ensures Response(tag, info).Bytes() == Encode(Word(tag.uid)) + info.Bytes()
  {
    hide Encode;
    Appends(info, tag.Logged(START));
    assert Saved(START) == [];
  }

  // Records of one type have the same bytes exactly when they agree on the members that are listed: the others leave
  // no trace.
  lemma SameBytes(x: Record, y: Record)
    requires SameType(x, y)
    ensures x.Bytes() == y.Bytes() <==> SameListed(x, y)
  {
    hide SameListed;
    if x.Bytes() == y.Bytes() {
      RecordPrefixFree(x, y, [], []);
    }
    if SameListed(x, y) {
      Traceless(x, y, START);
    }
  }

  lemma {:induction false} Traceless(x: Record, y: Record, t: Log)
    requires SameType(x, y) && SameListed(x, y)
    ensures x.Logged(t) == y.Logged(t)
  {
    hide TradeRecord.Logged, AccountRecord.Logged, TradeRecord.SameType, AccountRecord.SameType,
      TradeRecord.Restored, AccountRecord.Restored;
    match x {
      case Trade(v) => TradeRecordTraceless(v, y.trade, t);
      case Account(v) => AccountRecordTraceless(v, y.account, t);
      case Response(tag, info) => Traceless(info, y.info, tag.Logged(t));
      case _ =>
    }
  }

  // Records saved one after the other.
  function StreamBytes(xs: seq<Record>): ByteArray {
    if xs == [] then [] else xs[0].Bytes() + StreamBytes(xs[1..])
  }

  // They stand one behind the other.
  lemma {:induction false} StreamInOrder(xs: seq<Record>, x: Record)
    ensures StreamBytes([]) == [] && StreamBytes(xs + [x]) == StreamBytes(xs) + x.Bytes()
  {
    hide Record.Bytes;
    if xs == [] {
      assert [] + [x] == [x] && [x][1..] == [];
      assert x.Bytes() + [] == x.Bytes() == [] + x.Bytes();
    } else {
      StreamInOrder(xs[1..], x);
      assert (xs + [x])[1..] == xs[1..] + [x];
      Associative(xs[0].Bytes(), StreamBytes(xs[1..]), x.Bytes());
    }
  }

  ghost predicate SameTypes(xs: seq<Record>, ys: seq<Record>) {
    |xs| == |ys| && forall i :: 0 <= i < |xs| ==> SameType(xs[i], ys[i])
  }

  // Prefix-freedom for streams of records of any types: streams that agree on their bytes up to some tails agree on
  // every listed member of every record, and on the tails.
  lemma {:induction false} StreamPrefixFree(xs: seq<Record>, ys: seq<Record>, s: ByteArray, t: ByteArray)
    requires SameTypes(xs, ys)
    requires StreamBytes(xs) + s == StreamBytes(ys) + t
    ensures s == t && forall i :: 0 <= i < |xs| ==> SameListed(xs[i], ys[i])
  {
    hide SameType, SameListed, Record.Bytes;
    if xs == [] {
      assert [] + s == s && [] + t == t;
    } else {
      Associative(xs[0].Bytes(), StreamBytes(xs[1..]), s);
      Associative(ys[0].Bytes(), StreamBytes(ys[1..]), t);
      RecordPrefixFree(xs[0], ys[0], StreamBytes(xs[1..]) + s, StreamBytes(ys[1..]) + t);
      StreamPrefixFree(xs[1..], ys[1..], s, t);
      forall i | 0 < i < |xs|
        ensures SameListed(xs[i], ys[i])
      {
        assert xs[i] == xs[1..][i - 1] && ys[i] == ys[1..][i - 1];
      }
    }
  }

  // -------------------------------------------------------------------------------------------- saving and loading

  // `serialize` of whatever record is at hand.
  method SerializeRecord(ar: Archive, x: Record) returns (r: Record)
    requires ar.Valid()
    modifies ar
    ensures ar.Valid() && SameType(r, x) && Restored(r, x) == r
    ensures ar.saving ==> r == x && ar.trace == x.Logged(old(ar.trace)) && ar.output == old(ar.output) + x.Bytes()
    ensures forall saved: Record, suffix: ByteArray {:trigger ar.Finds(saved.Logged(old(ar.trace)), suffix)} ::
              SameType(saved, x) && ar.Finds(saved.Logged(old(ar.trace)), suffix) ==>
                r == Restored(saved, x) && ar.Found(saved.Logged(old(ar.trace)), suffix)
    decreases x, 0
  {
    hide Archive.Finds, Archive.Found, TradeRecord.Logged, AccountRecord.Logged, TradeRecord.SameType,
      AccountRecord.SameType, TradeRecord.Restored, AccountRecord.Restored, DiskInfo.Logged,
      NodeInformationResponse.Logged, PacketTag.Logged, VersionResponse.Logged;
    Appends(x, ar.trace);
    match x {
      case Trade(v) =>
        var w := SerializeTradeRecord(ar, v);
        r := Trade(w);
      case Account(v) =>
        var w := SerializeAccountRecord(ar, v);
        r := Account(w);
      case Disk(v) =>
        var w := SerializeDiskInfo(ar, v);
        r := Disk(w);
      case Node(v) =>
        var w := SerializeNodeInformation(ar, v);
        r := Node(w);
      case Request(v) =>
        var w := SerializePacketTag(ar, v);
        r := Request(w);
      case Version(v) =>
        var w := SerializeVersionResponse(ar, v);
        r := Version(w);
      case Response(tag, info) =>
        r := SerializeResponse(ar, tag, info);
    }
  }

  // A response packet: the base classes in the order of its declaration, the tag and then the record.
  method SerializeResponse(ar: Archive, tag: PacketTag, info: Record) returns (r: Record)
    requires ar.Valid()
    modifies ar
    ensures ar.Valid() && SameType(r, Response(tag, info)) && Restored(r, Response(tag, info)) == r
    ensures ar.saving ==> r == Response(tag, info) && ar.trace == r.Logged(old(ar.trace))
    ensures ar.saving ==> ar.output == old(ar.output) + Encode(Word(tag.uid)) + info.Bytes()
    ensures forall saved: Record, suffix: ByteArray {:trigger ar.Finds(saved.Logged(old(ar.trace)), suffix)} ::
              SameType(saved, Response(tag, info)) && ar.Finds(saved.Logged(old(ar.trace)), suffix) ==>
                r == Restored(saved, Response(tag, info)) && ar.Found(saved.Logged(old(ar.trace)), suffix)
    decreases info, 1
  {
    hide Archive.Finds, Archive.Found, PacketTag.Logged, Record.Bytes, Saved, KindsOf, TradeRecord.Logged,
      AccountRecord.Logged, TradeRecord.SameType, AccountRecord.SameType, TradeRecord.Restored, AccountRecord.Restored;
    ghost var t := ar.trace;
    var newTag := SerializePacketTag(ar, tag);
    forall saved: Record, suffix: ByteArray | saved.Response? && ar.Finds(saved.Logged(t), suffix)
      ensures newTag == saved.responseTag && ar.trace == saved.responseTag.Logged(t)
    {
      TagFirst(ar, t, saved, suffix);
    }
    var newInfo := SerializeRecord(ar, info);
    r := Response(newTag, newInfo);
    forall saved: Record, suffix: ByteArray | SameType(saved, Response(tag, info)) && ar.Finds(saved.Logged(t), suffix)
      ensures r == Restored(saved, Response(tag, info)) && ar.Found(saved.Logged(t), suffix)
    {
      assert saved.Logged(t) == saved.info.Logged(saved.responseTag.Logged(t));
    }
  }

  // What comes before the record is its tag.
  lemma TagFirst(ar: Archive, t: Log, saved: Record, suffix: ByteArray)
    requires saved.Response? && ar.Finds(saved.Logged(t), suffix)
    ensures ar.Finds(saved.responseTag.Logged(t), saved.info.Bytes() + suffix)
  {
    Appends(saved.info, saved.responseTag.Logged(t));
    Associative(Saved(saved.responseTag.Logged(t)), saved.info.Bytes(), suffix);
  }

  // Loading a record whose bytes come next: it is restored, which makes it whole exactly when the record it is loaded
  // into agreed with it on the members left out, and the reader stops where its bytes end.
  method LoadRecord(ar: Archive, into: Record, ghost saved: Record, ghost suffix: ByteArray) returns (r: Record)
    requires ar.Valid() && !ar.saving && ar.ok && SameType(saved, into)
    requires ar.Remaining() == saved.Bytes() + suffix
    modifies ar
    ensures ar.Valid() && ar.ok && ar.Remaining() == suffix
    ensures r == Restored(saved, into)
    ensures r == saved <==> SameUnlisted(saved, into)
  {
    ComesNext(ar, saved, suffix);
    r := SerializeRecord(ar, into);
    RestoredWhole(saved, into);
  }

  lemma ComesNext(ar: Archive, saved: Record, suffix: ByteArray)
    requires ar.Valid() && !ar.saving && ar.ok && ar.Remaining() == saved.Bytes() + suffix
    ensures ar.Finds(saved.Logged(ar.trace), suffix)
  {
    hide EncodeAll, DecodeAll, Record.Bytes;
    Canonical(ar.trace.kinds, ar.input);
    Appends(saved, ar.trace);
    Associative(Saved(ar.trace), saved.Bytes(), suffix);
  }

  method SaveStream(xs: seq<Record>) returns (bytes: ByteArray)
    ensures bytes == StreamBytes(xs)
  {
    var out := new Archive.Output();
    for i := 0 to |xs|
      invariant out.Valid() && out.saving && out.output + StreamBytes(xs[i..]) == StreamBytes(xs)
    {
      hide EncodeAll, Record.Logged;
      Appends(xs[i], out.trace);
      Associative(out.output, xs[i].Bytes(), StreamBytes(xs[i + 1..]));
      assert xs[i..][0] == xs[i] && xs[i..][1..] == xs[i + 1..];
      var saved := SerializeRecord(out, xs[i]);
    }
    bytes := out.output;
    assert bytes + [] == bytes;
  }

  lemma StreamNext(xs: seq<Record>, i: nat, suffix: ByteArray)
    requires i < |xs|
    ensures StreamBytes(xs[i..]) + suffix == xs[i].Bytes() + (StreamBytes(xs[i + 1..]) + suffix)
  {
    hide Record.Bytes;
    assert xs[i..][0] == xs[i] && xs[i..][1..] == xs[i + 1..];
    Associative(xs[i].Bytes(), StreamBytes(xs[i + 1..]), suffix);
  }

  lemma NothingLeft(xs: seq<Record>, suffix: ByteArray)
    ensures StreamBytes(xs[|xs|..]) + suffix == suffix
  {
    assert [] + suffix == suffix;
  }

  // The next record of a stream.
  method LoadNext(ar: Archive, into: Record, ghost xs: seq<Record>, i: nat, ghost suffix: ByteArray)
    returns (r: Record)
    requires ar.Valid() && !ar.saving && ar.ok && i < |xs| && SameType(xs[i], into)
    requires ar.Remaining() == StreamBytes(xs[i..]) + suffix
    modifies ar
    ensures ar.Valid() && ar.ok && ar.Remaining() == StreamBytes(xs[i + 1..]) + suffix
    ensures r == Restored(xs[i], into)
  {
    hide Restored, SameType, SameUnlisted, Record.Bytes, StreamBytes, KindsOf, EncodeAll, DecodeAll;
    StreamNext(xs, i, suffix);
    r := LoadRecord(ar, into, xs[i], StreamBytes(xs[i + 1..]) + suffix);
  }

  method LoadStream(bytes: ByteArray, ys: seq<Record>, ghost xs: seq<Record>, ghost suffix: ByteArray)
    returns (rs: seq<Record>, rest: ByteArray)
    requires SameTypes(xs, ys) && bytes == StreamBytes(xs) + suffix
    ensures |rs| == |xs| && rest == suffix
    ensures forall i :: 0 <= i < |xs| ==> rs[i] == Restored(xs[i], ys[i])
  {
    hide Restored, SameType, Record.Bytes, StreamBytes, KindsOf, EncodeAll, DecodeAll;
    var inp := new Archive.Input(bytes);
    rs := [];
    assert xs[0..] == xs;
    for i := 0 to |ys|
      invariant inp.Valid() && !inp.saving && inp.ok && inp.Remaining() == StreamBytes(xs[i..]) + suffix
      invariant |rs| == i && forall j :: 0 <= j < i ==> rs[j] == Restored(xs[j], ys[j])
    {
      var r := LoadNext(inp, ys[i], xs, i, suffix);
      rs := rs + [r];
    }
    rest := inp.Remaining();
    NothingLeft(xs, suffix);
  }

  // Records of any types saved back to back are loaded back one by one, however many there are: each is restored
  // into the record it is loaded into, and the reader stops at whatever follows the last one.
  method SaveThenLoadStream(xs: seq<Record>, ys: seq<Record>, suffix: ByteArray)
    returns (bytes: ByteArray, rs: seq<Record>, rest: ByteArray)
    requires SameTypes(xs, ys)
    ensures bytes == StreamBytes(xs) + suffix
    ensures |rs| == |xs| && rest == suffix
    ensures forall i :: 0 <= i < |xs| ==> rs[i] == Restored(xs[i], ys[i])
  {
    bytes := SaveStream(xs);
    bytes := bytes + suffix;
    rs, rest := LoadStream(bytes, ys, xs, suffix);
  }

  // One record, with nothing before or behind it.
  method SaveThenLoad(x: Record, y: Record) returns (bytes: ByteArray, r: Record)
    requires SameType(x, y)
    ensures bytes == x.Bytes() && r == Restored(x, y)
  {
    var rs, rest;
    bytes, rs, rest := SaveThenLoadStream([x], [y], []);
    assert StreamBytes([x]) == x.Bytes() + StreamBytes([]) == x.Bytes();
    r := rs[0];
  }

  // ------------------------------------------------------------------------------------ the four incomplete bodies

  const BLANK_MQL4_ORDER := Mql4OrderInfo(0, 0, [], 0, 0, 0, 0, 0, 0, 0, 0, 0, [], 0, 0, 0)
  const BLANK_ORDER := OrderInfoInteger(0, 0, 0, 0, 0, 0, 0, 0, 0, 0, 0, 0, 0, 0)
  const BLANK_INTEGERS := Mql5AccountInfoInteger(AccountInfoInteger(0, 0, 0, 0, 0, false, false), 0, 0, false, false)
  const BLANK_DOUBLES := Mql5AccountInfoDouble(AccountInfoDouble(0, 0, 0, 0, 0, 0, 0, 0, 0), 0, 0, 0, 0, 0)

  // An mql4 order with a take-profit level, saved and loaded into a blank one, comes back without the level.
  method TakeProfitIsLost() returns (bytes: ByteArray, loaded: Mql4OrderInfo)
    ensures bytes == Trade(Mql4Order(BLANK_MQL4_ORDER.(takeProfit := 1, lots := 1))).Bytes()
    ensures loaded == BLANK_MQL4_ORDER.(lots := 1) && loaded.takeProfit == 0
  {
    hide Record.Bytes, Record.Logged;
    var r;
    bytes, r := SaveThenLoad(
      Trade(Mql4Order(BLANK_MQL4_ORDER.(takeProfit := 1, lots := 1))), Trade(Mql4Order(BLANK_MQL4_ORDER)));
    loaded := r.trade.mql4Order;
  }

  // An mql5 order comes back with its state, which is listed four times, and without the three members in whose
  // places it is listed.
  method FillingIsLost() returns (bytes: ByteArray, loaded: OrderInfoInteger)
    ensures var order := BLANK_ORDER.(state := 3, typeFilling := 1, typeTime := 1, reason := 1);
            bytes == Trade(OrderIntegers(order)).Bytes()
    ensures loaded == BLANK_ORDER.(state := 3) && loaded.typeFilling == loaded.typeTime == loaded.reason == 0
  {
    hide Record.Bytes, Record.Logged;
    var r;
    bytes, r := SaveThenLoad(
      Trade(OrderIntegers(BLANK_ORDER.(state := 3, typeFilling := 1, typeTime := 1, reason := 1))),
      Trade(OrderIntegers(BLANK_ORDER)));
    loaded := r.trade.orderIntegers;
  }

  // The two derived mql5 account records come back without the members of their base.
  method LoginIsLost() returns (bytes: ByteArray, loaded: Mql5AccountInfoInteger)
    ensures var base := BLANK_INTEGERS.base.(accountLogin := 7);
            bytes == Account(Mql5AccountIntegers(BLANK_INTEGERS.(base := base, currencyDigits := 2))).Bytes()
    ensures loaded == BLANK_INTEGERS.(currencyDigits := 2) && loaded.base.accountLogin == 0
  {
    hide Record.Bytes, Record.Logged;
    var base := BLANK_INTEGERS.base.(accountLogin := 7);
    var r;
    bytes, r := SaveThenLoad(
      Account(Mql5AccountIntegers(BLANK_INTEGERS.(base := base, currencyDigits := 2))),
      Account(Mql5AccountIntegers(BLANK_INTEGERS)));
    loaded := r.account.mql5AccountIntegers;
  }

  method BalanceIsLost() returns (bytes: ByteArray, loaded: Mql5AccountInfoDouble)
    ensures var base := BLANK_DOUBLES.base.(balance := 7);
            bytes == Account(Mql5AccountDoubles(BLANK_DOUBLES.(base := base, assets := 2))).Bytes()
    ensures loaded == BLANK_DOUBLES.(assets := 2) && loaded.base.balance == 0
  {
    hide Record.Bytes, Record.Logged;
    var base := BLANK_DOUBLES.base.(balance := 7);
    var r;
    bytes, r := SaveThenLoad(
      Account(Mql5AccountDoubles(BLANK_DOUBLES.(base := base, assets := 2))),
      Account(Mql5AccountDoubles(BLANK_DOUBLES)));
    loaded := r.account.mql5AccountDoubles;
  }
}
