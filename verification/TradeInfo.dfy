/** The order, position and deal records of mql5 and the order record of mql4, and their `serialize` bodies. A record
    is a value; a `serialize` call takes the record it is run on and returns it as it stands afterwards. */
module TradeInfo {
  import opened Bytes
  import opened Codec
  import opened Archives
  import opened Enums

  // `serialize` lists state four times and leaves out typeFilling, typeTime and reason.
  datatype OrderInfoInteger = OrderInfoInteger(
    ticket: Int64, timeSetup: DateTime, orderType: EnumOrderType, state: EnumOrderState,
    timeExpiration: DateTime, timeDone: DateTime, timeSetupMsc: Int64, timeDoneMsc: Int64,
    typeFilling: EnumOrderTypeFilling, typeTime: EnumOrderTypeTime, magic: Int64, reason: EnumOrderReason,
    positionId: Int64, positionById: Int64
  ) {
    // What `serialize` transfers, in its order, after what the log t already holds. The four copies of the state
    // are equal when saving; a loaded stream may hold four different ones.
    function LoggedCopies(t: Log, state1: EnumOrderState, state2: EnumOrderState, state3: EnumOrderState): Log {
      t.Add(Long(ticket)).Add(Word(ToUint64(timeSetup))).Add(Int(orderType)).Add(Int(state1))
       .Add(Word(ToUint64(timeExpiration))).Add(Word(ToUint64(timeDone))).Add(Long(timeSetupMsc))
       .Add(Long(timeDoneMsc)).Add(Int(state2)).Add(Int(state3)).Add(Long(magic)).Add(Int(state))
       .Add(Long(positionId)).Add(Long(positionById))
    }

    function Logged(t: Log): Log {
      LoggedCopies(t, state, state, state)
    }

    // Agreement on the members that `serialize` leaves out.
    predicate SameUnlisted(that: OrderInfoInteger) {
      typeFilling == that.typeFilling && typeTime == that.typeTime && reason == that.reason
    }

    // What loading this record into another one leaves there.
    function Restored(into: OrderInfoInteger): OrderInfoInteger {
      this.(typeFilling := into.typeFilling, typeTime := into.typeTime, reason := into.reason)
    }
  }

  // Lists every member once.
  datatype OrderInfoDouble = OrderInfoDouble(
    volumeInitial: Double, volumeCurrent: Double, priceOpen: Double, stopLoss: Double, takeProfit: Double,
    priceCurrent: Double, stopLimit: Double
  ) {
    // What `serialize` transfers, in its order, after what the log t already holds.
    function Logged(t: Log): Log {
      t.Add(Word(volumeInitial)).Add(Word(volumeCurrent)).Add(Word(priceOpen)).Add(Word(stopLoss))
       .Add(Word(takeProfit)).Add(Word(priceCurrent)).Add(Word(stopLimit))
    }
  }

  // Lists every member once.
  datatype OrderInfoString = OrderInfoString(
    symbol: Text, comment: Text, externalId: Text
  ) {
    // What `serialize` transfers, in its order, after what the log t already holds.
    function Logged(t: Log): Log {
      t.Add(Str(symbol)).Add(Str(comment)).Add(Str(externalId))
    }
  }

  // Composed of its three base classes, serialized in this order.
  datatype OrderInfo = OrderInfo(
    integers: OrderInfoInteger, doubles: OrderInfoDouble, strings: OrderInfoString
  ) {
    // What `serialize` transfers, in its order, after what the log t already holds.
    function Logged(t: Log): Log {
      LoggedCopies(t, integers.state, integers.state, integers.state)
    }

    function LoggedCopies(t: Log, state1: EnumOrderState, state2: EnumOrderState, state3: EnumOrderState): Log {
      strings.Logged(doubles.Logged(integers.LoggedCopies(t, state1, state2, state3)))
    }

    // What loading this record into another one leaves there.
    function Restored(into: OrderInfo): OrderInfo {
      this.(integers := integers.Restored(into.integers))
    }
  }

  // The copies of the state that come first leave no trace in the record.
  lemma OrderInfoIntegerFramed(x: OrderInfoInteger, state1: EnumOrderState, state2: EnumOrderState,
                               state3: EnumOrderState, z: OrderInfoInteger, t: Log, u: Log)
    ensures Framed(x.LoggedCopies(t, state1, state2, state3), t, z.Logged(u), u, x == z.Restored(x))
  {
    hide ToUint64, KindsOf;
    Unsigned64Injective();
  }

  method SerializeOrderInfoInteger(ar: Archive, x: OrderInfoInteger)
    returns (r: OrderInfoInteger, ghost state1: EnumOrderState, ghost state2: EnumOrderState,
             ghost state3: EnumOrderState)
    requires ar.Valid()
    modifies ar
    ensures ar.Valid() && ar.trace == r.LoggedCopies(old(ar.trace), state1, state2, state3)
    ensures ar.saving ==> r == x && state1 == state2 == state3 == x.state
    ensures r.typeFilling == x.typeFilling && r.typeTime == x.typeTime && r.reason == x.reason
    ensures ar.saving ==>
              ar.output == old(ar.output) + Encode(Long(x.ticket)) + Encode(Word(ToUint64(x.timeSetup))) +
              Encode(Int(x.orderType)) + Encode(Int(x.state)) + Encode(Word(ToUint64(x.timeExpiration))) +
              Encode(Word(ToUint64(x.timeDone))) + Encode(Long(x.timeSetupMsc)) + Encode(Long(x.timeDoneMsc)) +
              Encode(Int(x.state)) + Encode(Int(x.state)) + Encode(Long(x.magic)) + Encode(Int(x.state)) +
              Encode(Long(x.positionId)) + Encode(Long(x.positionById))
    ensures forall saved: OrderInfoInteger, suffix: ByteArray
              {:trigger ar.Finds(saved.Logged(old(ar.trace)), suffix)} ::
              ar.Finds(saved.Logged(old(ar.trace)), suffix) ==>
                r == saved.(typeFilling := x.typeFilling, typeTime := x.typeTime, reason := x.reason) &&
                ar.Found(saved.Logged(old(ar.trace)), suffix)
  {
    hide Encode;
    ghost var t := ar.trace;
    var ticket := ar.TransferLong(x.ticket);
    var timeSetup := ar.TransferTime(x.timeSetup);
    var orderType := ar.TransferEnum(x.orderType);
    var state := ar.TransferEnum(x.state);
    state1 := state;
    var timeExpiration := ar.TransferTime(x.timeExpiration);
    var timeDone := ar.TransferTime(x.timeDone);
    var timeSetupMsc := ar.TransferLong(x.timeSetupMsc);
    var timeDoneMsc := ar.TransferLong(x.timeDoneMsc);
    state := ar.TransferEnum(state);
    state2 := state;
    state := ar.TransferEnum(state);
    state3 := state;
    var magic := ar.TransferLong(x.magic);
    state := ar.TransferEnum(state);
    var positionId := ar.TransferLong(x.positionId);
    var positionById := ar.TransferLong(x.positionById);
    r := x.(ticket := ticket, timeSetup := timeSetup, orderType := orderType, state := state,
      timeExpiration := timeExpiration, timeDone := timeDone, timeSetupMsc := timeSetupMsc,
      timeDoneMsc := timeDoneMsc, magic := magic, positionId := positionId, positionById := positionById);
    assert ar.trace == r.LoggedCopies(t, state1, state2, state3);
    hide OrderInfoInteger.LoggedCopies, Archive.Finds;
    forall saved: OrderInfoInteger, suffix: ByteArray | ar.Finds(saved.Logged(t), suffix)
      ensures r == saved.Restored(x) && ar.Found(saved.Logged(t), suffix)
    {
      OrderInfoIntegerFramed(r, state1, state2, state3, saved, t, t);
      ar.HasRead(saved.Logged(t), suffix);
    }
  }

  lemma OrderInfoDoubleFramed(x: OrderInfoDouble, z: OrderInfoDouble, t: Log, u: Log)
    ensures Framed(x.Logged(t), t, z.Logged(u), u, x == z)
  {
    hide ToUint64, KindsOf;
    Unsigned64Injective();
  }

  method SerializeOrderInfoDouble(ar: Archive, x: OrderInfoDouble) returns (r: OrderInfoDouble)
    requires ar.Valid()
    modifies ar
    ensures ar.Valid() && ar.trace == r.Logged(old(ar.trace))
    ensures ar.saving ==> r == x
    ensures ar.saving ==>
              ar.output == old(ar.output) + Encode(Word(x.volumeInitial)) + Encode(Word(x.volumeCurrent)) +
              Encode(Word(x.priceOpen)) + Encode(Word(x.stopLoss)) + Encode(Word(x.takeProfit)) +
              Encode(Word(x.priceCurrent)) + Encode(Word(x.stopLimit))
    ensures forall saved: OrderInfoDouble, suffix: ByteArray
              {:trigger ar.Finds(saved.Logged(old(ar.trace)), suffix)} ::
              ar.Finds(saved.Logged(old(ar.trace)), suffix) ==>
                r == saved && ar.Found(saved.Logged(old(ar.trace)), suffix)
  {
    hide Encode;
    var volumeInitial := ar.TransferWord(x.volumeInitial);
    var volumeCurrent := ar.TransferWord(x.volumeCurrent);
    var priceOpen := ar.TransferWord(x.priceOpen);
    var stopLoss := ar.TransferWord(x.stopLoss);
    var takeProfit := ar.TransferWord(x.takeProfit);
    var priceCurrent := ar.TransferWord(x.priceCurrent);
    var stopLimit := ar.TransferWord(x.stopLimit);
    r := OrderInfoDouble(volumeInitial, volumeCurrent, priceOpen, stopLoss, takeProfit, priceCurrent, stopLimit);
    ar.HasReadAny();
  }

  lemma OrderInfoStringFramed(x: OrderInfoString, z: OrderInfoString, t: Log, u: Log)
    ensures Framed(x.Logged(t), t, z.Logged(u), u, x == z)
  {
    hide ToUint64, KindsOf;
    Unsigned64Injective();
  }

  method SerializeOrderInfoString(ar: Archive, x: OrderInfoString) returns (r: OrderInfoString)
    requires ar.Valid()
    modifies ar
    ensures ar.Valid() && ar.trace == r.Logged(old(ar.trace))
    ensures ar.saving ==> r == x
    ensures ar.saving ==>
              ar.output == old(ar.output) + Encode(Str(x.symbol)) + Encode(Str(x.comment)) + Encode(Str(x.externalId))
    ensures forall saved: OrderInfoString, suffix: ByteArray
              {:trigger ar.Finds(saved.Logged(old(ar.trace)), suffix)} ::
              ar.Finds(saved.Logged(old(ar.trace)), suffix) ==>
                r == saved && ar.Found(saved.Logged(old(ar.trace)), suffix)
  {
    hide Encode;
    var symbol := ar.TransferText(x.symbol);
    var comment := ar.TransferText(x.comment);
    var externalId := ar.TransferText(x.externalId);
    r := OrderInfoString(symbol, comment, externalId);
    ar.HasReadAny();
  }

  lemma OrderInfoFramed(x: OrderInfo, state1: EnumOrderState, state2: EnumOrderState, state3: EnumOrderState,
                        z: OrderInfo, t: Log, u: Log)
    ensures Framed(x.LoggedCopies(t, state1, state2, state3), t, z.Logged(u), u, x == z.Restored(x))
  {
    hide OrderInfoInteger.LoggedCopies, OrderInfoDouble.Logged, OrderInfoString.Logged;
    var x1, z1 := x.integers.LoggedCopies(t, state1, state2, state3), z.integers.Logged(u);
    OrderInfoIntegerFramed(x.integers, state1, state2, state3, z.integers, t, u);
    OrderInfoDoubleFramed(x.doubles, z.doubles, x1, z1);
    OrderInfoStringFramed(x.strings, z.strings, x.doubles.Logged(x1), z.doubles.Logged(z1));
  }

  method SerializeOrderInfo(ar: Archive, x: OrderInfo)
    returns (r: OrderInfo, ghost state1: EnumOrderState, ghost state2: EnumOrderState, ghost state3: EnumOrderState)
    requires ar.Valid()
    modifies ar
    ensures ar.Valid() && ar.trace == r.LoggedCopies(old(ar.trace), state1, state2, state3)
    ensures r.integers.typeFilling == x.integers.typeFilling && r.integers.typeTime == x.integers.typeTime
    ensures r.integers.reason == x.integers.reason
    ensures ar.saving ==> r == x && state1 == state2 == state3 == x.integers.state
    ensures ar.saving ==>
              ar.output == old(ar.output) + Encode(Long(x.integers.ticket)) +
              Encode(Word(ToUint64(x.integers.timeSetup))) + Encode(Int(x.integers.orderType)) +
              Encode(Int(x.integers.state)) + Encode(Word(ToUint64(x.integers.timeExpiration))) +
              Encode(Word(ToUint64(x.integers.timeDone))) + Encode(Long(x.integers.timeSetupMsc)) +
              Encode(Long(x.integers.timeDoneMsc)) + Encode(Int(x.integers.state)) + Encode(Int(x.integers.state)) +
              Encode(Long(x.integers.magic)) + Encode(Int(x.integers.state)) + Encode(Long(x.integers.positionId)) +
              Encode(Long(x.integers.positionById)) + Encode(Word(x.doubles.volumeInitial)) +
              Encode(Word(x.doubles.volumeCurrent)) + Encode(Word(x.doubles.priceOpen)) +
              Encode(Word(x.doubles.stopLoss)) + Encode(Word(x.doubles.takeProfit)) +
              Encode(Word(x.doubles.priceCurrent)) + Encode(Word(x.doubles.stopLimit)) + Encode(Str(x.strings.symbol)) +
              Encode(Str(x.strings.comment)) + Encode(Str(x.strings.externalId))
    ensures forall saved: OrderInfo, suffix: ByteArray
              {:trigger ar.Finds(saved.Logged(old(ar.trace)), suffix)} ::
              ar.Finds(saved.Logged(old(ar.trace)), suffix) ==>
                r == saved.(integers := saved.integers.(typeFilling := x.integers.typeFilling,
                                                        typeTime := x.integers.typeTime,
                                                        reason := x.integers.reason)) &&
                ar.Found(saved.Logged(old(ar.trace)), suffix)
  {
    hide Encode, Archive.Finds, OrderInfoInteger.LoggedCopies, OrderInfoDouble.Logged, OrderInfoString.Logged;
    ghost var t := ar.trace;
    var integers;
    integers, state1, state2, state3 := SerializeOrderInfoInteger(ar, x.integers);
    var doubles := SerializeOrderInfoDouble(ar, x.doubles);
    var strings := SerializeOrderInfoString(ar, x.strings);
    r := OrderInfo(integers, doubles, strings);
    forall saved: OrderInfo, suffix: ByteArray | ar.Finds(saved.Logged(t), suffix)
      ensures r == saved.Restored(x) && ar.Found(saved.Logged(t), suffix)
    {
      OrderInfoFramed(r, state1, state2, state3, saved, t, t);
      ar.HasRead(saved.Logged(t), suffix);
    }
  }

  // Lists every member once.
  datatype PositionInfoInteger = PositionInfoInteger(
    ticket: Int64, openTime: DateTime, openTimeMsc: Int64, timeUpdate: DateTime, timeUpdateMsc: Int64,
    positionType: EnumPositionType, magic: Int64, identifier: Int64, reason: EnumPositionReason
  ) {
    // What `serialize` transfers, in its order, after what the log t already holds.
    function Logged(t: Log): Log {
      t.Add(Long(ticket)).Add(Word(ToUint64(openTime))).Add(Long(openTimeMsc)).Add(Word(ToUint64(timeUpdate)))
       .Add(Long(timeUpdateMsc)).Add(Int(positionType)).Add(Long(magic)).Add(Long(identifier)).Add(Int(reason))
    }
  }

  // Lists every member once.
  datatype PositionInfoDouble = PositionInfoDouble(
    volume: Double, priceOpen: Double, stopLoss: Double, takeProfit: Double, priceCurrent: Double, swap: Double,
    profit: Double
  ) {
    // What `serialize` transfers, in its order, after what the log t already holds.
    function Logged(t: Log): Log {
      t.Add(Word(volume)).Add(Word(priceOpen)).Add(Word(stopLoss)).Add(Word(takeProfit)).Add(Word(priceCurrent))
       .Add(Word(swap)).Add(Word(profit))
    }
  }

  // Lists every member once.
  datatype PositionInfoString = PositionInfoString(
    symbol: Text, comment: Text, externalId: Text
  ) {
    // What `serialize` transfers, in its order, after what the log t already holds.
    function Logged(t: Log): Log {
      t.Add(Str(symbol)).Add(Str(comment)).Add(Str(externalId))
    }
  }

  // Composed of its three base classes, serialized in this order.
  datatype PositionInfo = PositionInfo(
    integers: PositionInfoInteger, doubles: PositionInfoDouble, strings: PositionInfoString
  ) {
    // What `serialize` transfers, in its order, after what the log t already holds.
    function Logged(t: Log): Log {
      strings.Logged(doubles.Logged(integers.Logged(t)))
    }
  }

  lemma PositionInfoIntegerFramed(x: PositionInfoInteger, z: PositionInfoInteger, t: Log, u: Log)
    ensures Framed(x.Logged(t), t, z.Logged(u), u, x == z)
  {
    hide ToUint64, KindsOf;
    Unsigned64Injective();
  }

  method SerializePositionInfoInteger(ar: Archive, x: PositionInfoInteger) returns (r: PositionInfoInteger)
    requires ar.Valid()
    modifies ar
    ensures ar.Valid() && ar.trace == r.Logged(old(ar.trace))
    ensures ar.saving ==> r == x
    ensures ar.saving ==>
              ar.output == old(ar.output) + Encode(Long(x.ticket)) + Encode(Word(ToUint64(x.openTime))) +
              Encode(Long(x.openTimeMsc)) + Encode(Word(ToUint64(x.timeUpdate))) + Encode(Long(x.timeUpdateMsc)) +
              Encode(Int(x.positionType)) + Encode(Long(x.magic)) + Encode(Long(x.identifier)) + Encode(Int(x.reason))
    ensures forall saved: PositionInfoInteger, suffix: ByteArray
              {:trigger ar.Finds(saved.Logged(old(ar.trace)), suffix)} ::
              ar.Finds(saved.Logged(old(ar.trace)), suffix) ==>
                r == saved && ar.Found(saved.Logged(old(ar.trace)), suffix)
  {
    hide Encode, ToUint64, KindsOf, Saved, Archive.Valid, Archive.Finds, Archive.Remaining;
    var ticket := ar.TransferLong(x.ticket);
    var openTime := ar.TransferTime(x.openTime);
    var openTimeMsc := ar.TransferLong(x.openTimeMsc);
    var timeUpdate := ar.TransferTime(x.timeUpdate);
    var timeUpdateMsc := ar.TransferLong(x.timeUpdateMsc);
    var positionType := ar.TransferEnum(x.positionType);
    var magic := ar.TransferLong(x.magic);
    var identifier := ar.TransferLong(x.identifier);
    var reason := ar.TransferEnum(x.reason);
    r := PositionInfoInteger(ticket, openTime, openTimeMsc, timeUpdate, timeUpdateMsc, positionType, magic,
      identifier, reason);
    Unsigned64Injective();
    ar.HasReadAny();
  }

  lemma PositionInfoDoubleFramed(x: PositionInfoDouble, z: PositionInfoDouble, t: Log, u: Log)
    ensures Framed(x.Logged(t), t, z.Logged(u), u, x == z)
  {
    hide ToUint64, KindsOf;
    Unsigned64Injective();
  }

  method SerializePositionInfoDouble(ar: Archive, x: PositionInfoDouble) returns (r: PositionInfoDouble)
    requires ar.Valid()
    modifies ar
    ensures ar.Valid() && ar.trace == r.Logged(old(ar.trace))
    ensures ar.saving ==> r == x
    ensures ar.saving ==>
              ar.output == old(ar.output) + Encode(Word(x.volume)) + Encode(Word(x.priceOpen)) +
              Encode(Word(x.stopLoss)) + Encode(Word(x.takeProfit)) + Encode(Word(x.priceCurrent)) +
              Encode(Word(x.swap)) + Encode(Word(x.profit))
    ensures forall saved: PositionInfoDouble, suffix: ByteArray
              {:trigger ar.Finds(saved.Logged(old(ar.trace)), suffix)} ::
              ar.Finds(saved.Logged(old(ar.trace)), suffix) ==>
                r == saved && ar.Found(saved.Logged(old(ar.trace)), suffix)
  {
    hide Encode;
    var volume := ar.TransferWord(x.volume);
    var priceOpen := ar.TransferWord(x.priceOpen);
    var stopLoss := ar.TransferWord(x.stopLoss);
    var takeProfit := ar.TransferWord(x.takeProfit);
    var priceCurrent := ar.TransferWord(x.priceCurrent);
    var swap := ar.TransferWord(x.swap);
    var profit := ar.TransferWord(x.profit);
    r := PositionInfoDouble(volume, priceOpen, stopLoss, takeProfit, priceCurrent, swap, profit);
    ar.HasReadAny();
  }

  lemma PositionInfoStringFramed(x: PositionInfoString, z: PositionInfoString, t: Log, u: Log)
    ensures Framed(x.Logged(t), t, z.Logged(u), u, x == z)
  {
    hide ToUint64, KindsOf;
    Unsigned64Injective();
  }

  method SerializePositionInfoString(ar: Archive, x: PositionInfoString) returns (r: PositionInfoString)
    requires ar.Valid()
    modifies ar
    ensures ar.Valid() && ar.trace == r.Logged(old(ar.trace))
    ensures ar.saving ==> r == x
    ensures ar.saving ==>
              ar.output == old(ar.output) + Encode(Str(x.symbol)) + Encode(Str(x.comment)) + Encode(Str(x.externalId))
    ensures forall saved: PositionInfoString, suffix: ByteArray
              {:trigger ar.Finds(saved.Logged(old(ar.trace)), suffix)} ::
              ar.Finds(saved.Logged(old(ar.trace)), suffix) ==>
                r == saved && ar.Found(saved.Logged(old(ar.trace)), suffix)
  {
    hide Encode;
    var symbol := ar.TransferText(x.symbol);
    var comment := ar.TransferText(x.comment);
    var externalId := ar.TransferText(x.externalId);
    r := PositionInfoString(symbol, comment, externalId);
    ar.HasReadAny();
  }

  lemma PositionInfoFramed(x: PositionInfo, z: PositionInfo, t: Log, u: Log)
    ensures Framed(x.Logged(t), t, z.Logged(u), u, x == z)
  {
    hide PositionInfoInteger.Logged, PositionInfoDouble.Logged, PositionInfoString.Logged;
    var x1, z1 := x.integers.Logged(t), z.integers.Logged(u);
    PositionInfoIntegerFramed(x.integers, z.integers, t, u);
    PositionInfoDoubleFramed(x.doubles, z.doubles, x1, z1);
    PositionInfoStringFramed(x.strings, z.strings, x.doubles.Logged(x1), z.doubles.Logged(z1));
  }

  method SerializePositionInfo(ar: Archive, x: PositionInfo) returns (r: PositionInfo)
    requires ar.Valid()
    modifies ar
    ensures ar.Valid() && ar.trace == r.Logged(old(ar.trace))
    ensures ar.saving ==> r == x
    ensures ar.saving ==>
              ar.output == old(ar.output) + Encode(Long(x.integers.ticket)) +
              Encode(Word(ToUint64(x.integers.openTime))) + Encode(Long(x.integers.openTimeMsc)) +
              Encode(Word(ToUint64(x.integers.timeUpdate))) + Encode(Long(x.integers.timeUpdateMsc)) +
              Encode(Int(x.integers.positionType)) + Encode(Long(x.integers.magic)) +
              Encode(Long(x.integers.identifier)) + Encode(Int(x.integers.reason)) + Encode(Word(x.doubles.volume)) +
              Encode(Word(x.doubles.priceOpen)) + Encode(Word(x.doubles.stopLoss)) +
              Encode(Word(x.doubles.takeProfit)) + Encode(Word(x.doubles.priceCurrent)) + Encode(Word(x.doubles.swap)) +
              Encode(Word(x.doubles.profit)) + Encode(Str(x.strings.symbol)) + Encode(Str(x.strings.comment)) +
              Encode(Str(x.strings.externalId))
    ensures forall saved: PositionInfo, suffix: ByteArray
              {:trigger ar.Finds(saved.Logged(old(ar.trace)), suffix)} ::
              ar.Finds(saved.Logged(old(ar.trace)), suffix) ==>
                r == saved && ar.Found(saved.Logged(old(ar.trace)), suffix)
  {
    hide Encode, Archive.Finds, PositionInfoInteger.Logged, PositionInfoDouble.Logged, PositionInfoString.Logged;
    ghost var t := ar.trace;
    var integers := SerializePositionInfoInteger(ar, x.integers);
    var doubles := SerializePositionInfoDouble(ar, x.doubles);
    var strings := SerializePositionInfoString(ar, x.strings);
    r := PositionInfo(integers, doubles, strings);
    forall saved: PositionInfo, suffix: ByteArray | ar.Finds(saved.Logged(t), suffix)
      ensures r == saved && ar.Found(saved.Logged(t), suffix)
    {
      PositionInfoFramed(r, saved, t, t);
      ar.HasRead(saved.Logged(t), suffix);
    }
  }

  // Lists every member once.
  datatype DealInfoInteger = DealInfoInteger(
    ticket: Int64, order: Int64, time: DateTime, timeMsc: Int64, dealType: EnumDealType, entry: EnumDealEntry,
    magic: Int64, reason: EnumDealReason, positionId: Int64
  ) {
    // What `serialize` transfers, in its order, after what the log t already holds.
    function Logged(t: Log): Log {
      t.Add(Long(ticket)).Add(Long(order)).Add(Word(ToUint64(time))).Add(Long(timeMsc)).Add(Int(dealType))
       .Add(Int(entry)).Add(Long(magic)).Add(Int(reason)).Add(Long(positionId))
    }
  }

  // Lists every member once.
  datatype DealInfoDouble = DealInfoDouble(
    volume: Double, price: Double, commission: Double, swap: Double, profit: Double, fee: Double,
    stopLoss: Double, takeProfit: Double
  ) {
    // What `serialize` transfers, in its order, after what the log t already holds.
    function Logged(t: Log): Log {
      t.Add(Word(volume)).Add(Word(price)).Add(Word(commission)).Add(Word(swap)).Add(Word(profit))
       .Add(Word(fee)).Add(Word(stopLoss)).Add(Word(takeProfit))
    }
  }

  // Lists every member once.
  datatype DealInfoString = DealInfoString(
    symbol: Text, comment: Text, externalId: Text
  ) {
    // What `serialize` transfers, in its order, after what the log t already holds.
    function Logged(t: Log): Log {
      t.Add(Str(symbol)).Add(Str(comment)).Add(Str(externalId))
    }
  }

  // Composed of its three base classes, serialized in this order.
  datatype DealInfo = DealInfo(
    integers: DealInfoInteger, doubles: DealInfoDouble, strings: DealInfoString
  ) {
    // What `serialize` transfers, in its order, after what the log t already holds.
    function Logged(t: Log): Log {
      strings.Logged(doubles.Logged(integers.Logged(t)))
    }
  }

  lemma DealInfoIntegerFramed(x: DealInfoInteger, z: DealInfoInteger, t: Log, u: Log)
    ensures Framed(x.Logged(t), t, z.Logged(u), u, x == z)
  {
    hide ToUint64, KindsOf;
    Unsigned64Injective();
  }

  method SerializeDealInfoInteger(ar: Archive, x: DealInfoInteger) returns (r: DealInfoInteger)
    requires ar.Valid()
    modifies ar
    ensures ar.Valid() && ar.trace == r.Logged(old(ar.trace))
    ensures ar.saving ==> r == x
    ensures ar.saving ==>
              ar.output == old(ar.output) + Encode(Long(x.ticket)) + Encode(Long(x.order)) +
              Encode(Word(ToUint64(x.time))) + Encode(Long(x.timeMsc)) + Encode(Int(x.dealType)) +
              Encode(Int(x.entry)) + Encode(Long(x.magic)) + Encode(Int(x.reason)) + Encode(Long(x.positionId))
    ensures forall saved: DealInfoInteger, suffix: ByteArray
              {:trigger ar.Finds(saved.Logged(old(ar.trace)), suffix)} ::
              ar.Finds(saved.Logged(old(ar.trace)), suffix) ==>
                r == saved && ar.Found(saved.Logged(old(ar.trace)), suffix)
  {
    hide Encode, ToUint64, KindsOf, Saved, Archive.Valid, Archive.Finds, Archive.Remaining;
    var ticket := ar.TransferLong(x.ticket);
    var order := ar.TransferLong(x.order);
    var time := ar.TransferTime(x.time);
    var timeMsc := ar.TransferLong(x.timeMsc);
    var dealType := ar.TransferEnum(x.dealType);
    var entry := ar.TransferEnum(x.entry);
    var magic := ar.TransferLong(x.magic);
    var reason := ar.TransferEnum(x.reason);
    var positionId := ar.TransferLong(x.positionId);
    r := DealInfoInteger(ticket, order, time, timeMsc, dealType, entry, magic, reason, positionId);
    Unsigned64Injective();
    ar.HasReadAny();
  }

  lemma DealInfoDoubleFramed(x: DealInfoDouble, z: DealInfoDouble, t: Log, u: Log)
    ensures Framed(x.Logged(t), t, z.Logged(u), u, x == z)
  {
    hide ToUint64, KindsOf;
    Unsigned64Injective();
  }

  method SerializeDealInfoDouble(ar: Archive, x: DealInfoDouble) returns (r: DealInfoDouble)
    requires ar.Valid()
    modifies ar
    ensures ar.Valid() && ar.trace == r.Logged(old(ar.trace))
    ensures ar.saving ==> r == x
    ensures ar.saving ==>
              ar.output == old(ar.output) + Encode(Word(x.volume)) + Encode(Word(x.price)) +
              Encode(Word(x.commission)) + Encode(Word(x.swap)) + Encode(Word(x.profit)) + Encode(Word(x.fee)) +
              Encode(Word(x.stopLoss)) + Encode(Word(x.takeProfit))
    ensures forall saved: DealInfoDouble, suffix: ByteArray
              {:trigger ar.Finds(saved.Logged(old(ar.trace)), suffix)} ::
              ar.Finds(saved.Logged(old(ar.trace)), suffix) ==>
                r == saved && ar.Found(saved.Logged(old(ar.trace)), suffix)
  {
    hide Encode;
    var volume := ar.TransferWord(x.volume);
    var price := ar.TransferWord(x.price);
    var commission := ar.TransferWord(x.commission);
    var swap := ar.TransferWord(x.swap);
    var profit := ar.TransferWord(x.profit);
    var fee := ar.TransferWord(x.fee);
    var stopLoss := ar.TransferWord(x.stopLoss);
    var takeProfit := ar.TransferWord(x.takeProfit);
    r := DealInfoDouble(volume, price, commission, swap, profit, fee, stopLoss, takeProfit);
    ar.HasReadAny();
  }

  lemma DealInfoStringFramed(x: DealInfoString, z: DealInfoString, t: Log, u: Log)
    ensures Framed(x.Logged(t), t, z.Logged(u), u, x == z)
  {
    hide ToUint64, KindsOf;
    Unsigned64Injective();
  }

  method SerializeDealInfoString(ar: Archive, x: DealInfoString) returns (r: DealInfoString)
    requires ar.Valid()
    modifies ar
    ensures ar.Valid() && ar.trace == r.Logged(old(ar.trace))
    ensures ar.saving ==> r == x
    ensures ar.saving ==>
              ar.output == old(ar.output) + Encode(Str(x.symbol)) + Encode(Str(x.comment)) + Encode(Str(x.externalId))
    ensures forall saved: DealInfoString, suffix: ByteArray
              {:trigger ar.Finds(saved.Logged(old(ar.trace)), suffix)} ::
              ar.Finds(saved.Logged(old(ar.trace)), suffix) ==>
                r == saved && ar.Found(saved.Logged(old(ar.trace)), suffix)
  {
    hide Encode;
    var symbol := ar.TransferText(x.symbol);
    var comment := ar.TransferText(x.comment);
    var externalId := ar.TransferText(x.externalId);
    r := DealInfoString(symbol, comment, externalId);
    ar.HasReadAny();
  }

  lemma DealInfoFramed(x: DealInfo, z: DealInfo, t: Log, u: Log)
    ensures Framed(x.Logged(t), t, z.Logged(u), u, x == z)
  {
    hide DealInfoInteger.Logged, DealInfoDouble.Logged, DealInfoString.Logged;
    var x1, z1 := x.integers.Logged(t), z.integers.Logged(u);
    DealInfoIntegerFramed(x.integers, z.integers, t, u);
    DealInfoDoubleFramed(x.doubles, z.doubles, x1, z1);
    DealInfoStringFramed(x.strings, z.strings, x.doubles.Logged(x1), z.doubles.Logged(z1));
  }

  method SerializeDealInfo(ar: Archive, x: DealInfo) returns (r: DealInfo)
    requires ar.Valid()
    modifies ar
    ensures ar.Valid() && ar.trace == r.Logged(old(ar.trace))
    ensures ar.saving ==> r == x
    ensures ar.saving ==>
              ar.output == old(ar.output) + Encode(Long(x.integers.ticket)) + Encode(Long(x.integers.order)) +
              Encode(Word(ToUint64(x.integers.time))) + Encode(Long(x.integers.timeMsc)) +
              Encode(Int(x.integers.dealType)) + Encode(Int(x.integers.entry)) + Encode(Long(x.integers.magic)) +
              Encode(Int(x.integers.reason)) + Encode(Long(x.integers.positionId)) + Encode(Word(x.doubles.volume)) +
              Encode(Word(x.doubles.price)) + Encode(Word(x.doubles.commission)) + Encode(Word(x.doubles.swap)) +
              Encode(Word(x.doubles.profit)) + Encode(Word(x.doubles.fee)) + Encode(Word(x.doubles.stopLoss)) +
              Encode(Word(x.doubles.takeProfit)) + Encode(Str(x.strings.symbol)) + Encode(Str(x.strings.comment)) +
              Encode(Str(x.strings.externalId))
    ensures forall saved: DealInfo, suffix: ByteArray
              {:trigger ar.Finds(saved.Logged(old(ar.trace)), suffix)} ::
              ar.Finds(saved.Logged(old(ar.trace)), suffix) ==>
                r == saved && ar.Found(saved.Logged(old(ar.trace)), suffix)
  {
    hide Encode, Archive.Finds, DealInfoInteger.Logged, DealInfoDouble.Logged, DealInfoString.Logged;
    ghost var t := ar.trace;
    var integers := SerializeDealInfoInteger(ar, x.integers);
    var doubles := SerializeDealInfoDouble(ar, x.doubles);
    var strings := SerializeDealInfoString(ar, x.strings);
    r := DealInfo(integers, doubles, strings);
    forall saved: DealInfo, suffix: ByteArray | ar.Finds(saved.Logged(t), suffix)
      ensures r == saved && ar.Found(saved.Logged(t), suffix)
    {
      DealInfoFramed(r, saved, t, t);
      ar.HasRead(saved.Logged(t), suffix);
    }
  }

  // mql4::OrderInfo. `serialize` leaves out takeProfit.
  datatype Mql4OrderInfo = Mql4OrderInfo(
    closePrice: Double, closeTime: DateTime, comment: Text, commission: Double, expiration: DateTime,
    lots: Double, magic: Int32, openPrice: Double, openTime: DateTime, orderProfit: Double, stopLoss: Double,
    swap: Double, symbol: Text, takeProfit: Double, ticket: Int32, orderType: Int32
  ) {
    // What `serialize` transfers, in its order, after what the log t already holds.
    function Logged(t: Log): Log {
      t.Add(Word(closePrice)).Add(Word(ToUint64(closeTime))).Add(Str(comment)).Add(Word(commission))
       .Add(Word(ToUint64(expiration))).Add(Word(lots)).Add(Int(magic)).Add(Word(openPrice))
       .Add(Word(ToUint64(openTime))).Add(Word(orderProfit)).Add(Word(stopLoss)).Add(Word(swap))
       .Add(Str(symbol)).Add(Int(ticket)).Add(Int(orderType))
    }
  }

  lemma Mql4OrderInfoFramed(x: Mql4OrderInfo, z: Mql4OrderInfo, t: Log, u: Log)
    ensures Framed(x.Logged(t), t, z.Logged(u), u, x == z.(takeProfit := x.takeProfit))
  {
    hide ToUint64, KindsOf;
    Unsigned64Injective();
  }

  method SerializeMql4OrderInfo(ar: Archive, x: Mql4OrderInfo) returns (r: Mql4OrderInfo)
    requires ar.Valid()
    modifies ar
    ensures ar.Valid() && ar.trace == r.Logged(old(ar.trace))
    ensures ar.saving ==> r == x
    ensures r.takeProfit == x.takeProfit
    ensures ar.saving ==>
              ar.output == old(ar.output) + Encode(Word(x.closePrice)) + Encode(Word(ToUint64(x.closeTime))) +
              Encode(Str(x.comment)) + Encode(Word(x.commission)) + Encode(Word(ToUint64(x.expiration))) +
              Encode(Word(x.lots)) + Encode(Int(x.magic)) + Encode(Word(x.openPrice)) +
              Encode(Word(ToUint64(x.openTime))) + Encode(Word(x.orderProfit)) + Encode(Word(x.stopLoss)) +
              Encode(Word(x.swap)) + Encode(Str(x.symbol)) + Encode(Int(x.ticket)) + Encode(Int(x.orderType))
    ensures forall saved: Mql4OrderInfo, suffix: ByteArray
              {:trigger ar.Finds(saved.Logged(old(ar.trace)), suffix)} ::
              ar.Finds(saved.Logged(old(ar.trace)), suffix) ==>
                r == saved.(takeProfit := x.takeProfit) && ar.Found(saved.Logged(old(ar.trace)), suffix)
  {
    hide Encode;
    ghost var t := ar.trace;
    var closePrice := ar.TransferWord(x.closePrice);
    var closeTime := ar.TransferTime(x.closeTime);
    var comment := ar.TransferText(x.comment);
    var commission := ar.TransferWord(x.commission);
    var expiration := ar.TransferTime(x.expiration);
    var lots := ar.TransferWord(x.lots);
    var magic := ar.TransferInt(x.magic);
    var openPrice := ar.TransferWord(x.openPrice);
    var openTime := ar.TransferTime(x.openTime);
    var orderProfit := ar.TransferWord(x.orderProfit);
    var stopLoss := ar.TransferWord(x.stopLoss);
    var swap := ar.TransferWord(x.swap);
    var symbol := ar.TransferText(x.symbol);
    var ticket := ar.TransferInt(x.ticket);
    var orderType := ar.TransferInt(x.orderType);
    r := x.(closePrice := closePrice, closeTime := closeTime, comment := comment, commission := commission,
      expiration := expiration, lots := lots, magic := magic, openPrice := openPrice, openTime := openTime,
      orderProfit := orderProfit, stopLoss := stopLoss, swap := swap, symbol := symbol, ticket := ticket,
      orderType := orderType);
    assert ar.trace == r.Logged(t);
    hide Mql4OrderInfo.Logged, Archive.Finds;
    forall saved: Mql4OrderInfo, suffix: ByteArray | ar.Finds(saved.Logged(t), suffix)
      ensures r == saved.(takeProfit := x.takeProfit) && ar.Found(saved.Logged(t), suffix)
    {
      Mql4OrderInfoFramed(r, saved, t, t);
      ar.HasRead(saved.Logged(t), suffix);
    }
  }
}
