/** The records and the parts of records of the trade subsystem that travel on their own: each is the content of a
    response packet. */
module TradeRecords {
  import opened Bytes
  import opened Codec
  import opened Archives
  import opened Enums
  import opened TradeInfo

  datatype TradeRecord =
    | OrderIntegers(orderIntegers: OrderInfoInteger)
    | OrderDoubles(orderDoubles: OrderInfoDouble)
    | OrderStrings(orderStrings: OrderInfoString)
    | Order(order: OrderInfo)
    | PositionIntegers(positionIntegers: PositionInfoInteger)
    | PositionDoubles(positionDoubles: PositionInfoDouble)
    | PositionStrings(positionStrings: PositionInfoString)
    | Position(position: PositionInfo)
    | DealIntegers(dealIntegers: DealInfoInteger)
    | DealDoubles(dealDoubles: DealInfoDouble)
    | DealStrings(dealStrings: DealInfoString)
    | Deal(deal: DealInfo)
    | Mql4Order(mql4Order: Mql4OrderInfo)
  {
    // What `serialize` transfers for the record, after what the log t already holds.
    function Logged(t: Log): Log {
      match this
      case OrderIntegers(x) => x.Logged(t)
      case OrderDoubles(x) => x.Logged(t)
      case OrderStrings(x) => x.Logged(t)
      case Order(x) => x.Logged(t)
      case PositionIntegers(x) => x.Logged(t)
      case PositionDoubles(x) => x.Logged(t)
      case PositionStrings(x) => x.Logged(t)
      case Position(x) => x.Logged(t)
      case DealIntegers(x) => x.Logged(t)
      case DealDoubles(x) => x.Logged(t)
      case DealStrings(x) => x.Logged(t)
      case Deal(x) => x.Logged(t)
      case Mql4Order(x) => x.Logged(t)
    }

    predicate SameType(that: TradeRecord) {
      match this
      case OrderIntegers(_) => that.OrderIntegers?
      case OrderDoubles(_) => that.OrderDoubles?
      case OrderStrings(_) => that.OrderStrings?
      case Order(_) => that.Order?
      case PositionIntegers(_) => that.PositionIntegers?
      case PositionDoubles(_) => that.PositionDoubles?
      case PositionStrings(_) => that.PositionStrings?
      case Position(_) => that.Position?
      case DealIntegers(_) => that.DealIntegers?
      case DealDoubles(_) => that.DealDoubles?
      case DealStrings(_) => that.DealStrings?
      case Deal(_) => that.Deal?
      case Mql4Order(_) => that.Mql4Order?
    }

    // What loading this record into another one leaves there: the members that `serialize` lists come from this
    // record, the others stay.
    function Restored(into: TradeRecord): TradeRecord {
      match (this, into)
      case (OrderIntegers(x), OrderIntegers(y)) => OrderIntegers(x.Restored(y))
      case (Order(x), Order(y)) => Order(x.Restored(y))
      case (Mql4Order(x), Mql4Order(y)) => Mql4Order(x.(takeProfit := y.takeProfit))
      case _ => this
    }

    // Agreement on the members that `serialize` leaves out.
    predicate SameUnlisted(that: TradeRecord) {
      match (this, that)
      case (OrderIntegers(x), OrderIntegers(y)) => x.SameUnlisted(y)
      case (Order(x), Order(y)) => x.integers.SameUnlisted(y.integers)
      case (Mql4Order(x), Mql4Order(y)) => x.takeProfit == y.takeProfit
      case _ => true
    }
  }

  lemma TradeRecordRestoredWhole(saved: TradeRecord, into: TradeRecord)
    requires saved.SameType(into)
    ensures saved.Restored(into) == saved <==> saved.SameUnlisted(into)
    ensures saved.SameType(saved.Restored(into)) && saved.Restored(into).SameUnlisted(into)
  {
    match saved
    case Order(order) =>
      assert saved.Restored(into) == Order(order.Restored(into.order));
    case _ =>
  }

  lemma TradeRecordFramed(x: TradeRecord, y: TradeRecord, t: Log, u: Log)
    requires y.SameType(x)
    ensures Framed(x.Logged(t), t, y.Logged(u), u, x == y.Restored(x))
  {
    hide KindsOf,
      OrderInfoInteger.LoggedCopies, OrderInfoDouble.Logged, OrderInfoString.Logged, OrderInfo.LoggedCopies,
      PositionInfoInteger.Logged, PositionInfoDouble.Logged, PositionInfoString.Logged, PositionInfo.Logged,
      DealInfoInteger.Logged, DealInfoDouble.Logged, DealInfoString.Logged, DealInfo.Logged, Mql4OrderInfo.Logged;
    match x {
      case OrderIntegers(v) => OrderInfoIntegerFramed(v, v.state, v.state, v.state, y.orderIntegers, t, u);
      case OrderDoubles(v) => OrderInfoDoubleFramed(v, y.orderDoubles, t, u);
      case OrderStrings(v) => OrderInfoStringFramed(v, y.orderStrings, t, u);
      case Order(v) =>
        var state := v.integers.state;
        OrderInfoFramed(v, state, state, state, y.order, t, u);
      case PositionIntegers(v) => PositionInfoIntegerFramed(v, y.positionIntegers, t, u);
      case PositionDoubles(v) => PositionInfoDoubleFramed(v, y.positionDoubles, t, u);
      case PositionStrings(v) => PositionInfoStringFramed(v, y.positionStrings, t, u);
      case Position(v) => PositionInfoFramed(v, y.position, t, u);
      case DealIntegers(v) => DealInfoIntegerFramed(v, y.dealIntegers, t, u);
      case DealDoubles(v) => DealInfoDoubleFramed(v, y.dealDoubles, t, u);
      case DealStrings(v) => DealInfoStringFramed(v, y.dealStrings, t, u);
      case Deal(v) => DealInfoFramed(v, y.deal, t, u);
      case Mql4Order(v) => Mql4OrderInfoFramed(v, y.mql4Order, t, u);
    }
  }

  lemma TradeRecordAppends(x: TradeRecord, t: Log)
    ensures After(x.Logged(t), t, x.Logged(START))
  {
    hide KindsOf, Saved, After;
    AfterAdd();
  }

  // Members that are not listed leave no trace.
  lemma TradeRecordTraceless(x: TradeRecord, y: TradeRecord, t: Log)
    requires x.SameType(y) && y == x.Restored(y)
    ensures x.Logged(t) == y.Logged(t)
  {
    hide KindsOf;
  }

  predicate IsOrder(x: TradeRecord) {
    x.OrderIntegers? || x.OrderDoubles? || x.OrderStrings? || x.Order? || x.Mql4Order?
  }

  method SerializeOrderRecord(ar: Archive, x: TradeRecord) returns (r: TradeRecord)
    requires IsOrder(x)
    requires ar.Valid()
    modifies ar
    ensures ar.Valid() && r.SameType(x) && x.SameType(r) && r.Restored(x) == r
    ensures ar.saving ==> r == x && ar.trace == x.Logged(old(ar.trace))
    ensures forall saved: TradeRecord, suffix: ByteArray {:trigger ar.Finds(saved.Logged(old(ar.trace)), suffix)} ::
              saved.SameType(x) && ar.Finds(saved.Logged(old(ar.trace)), suffix) ==>
                r == saved.Restored(x) && ar.Found(saved.Logged(old(ar.trace)), suffix)
  {
    hide Encode, KindsOf, Saved, Archive.Valid, Archive.Finds, Archive.Found, ToUint64,
      OrderInfoInteger.LoggedCopies, OrderInfoDouble.Logged, OrderInfoString.Logged, OrderInfo.LoggedCopies,
      Mql4OrderInfo.Logged;
    match x {
      case OrderIntegers(v) =>
        var w;
        ghost var state1, state2, state3;
        w, state1, state2, state3 := SerializeOrderInfoInteger(ar, v);
        r := OrderIntegers(w);
      case OrderDoubles(v) =>
        var w := SerializeOrderInfoDouble(ar, v);
        r := OrderDoubles(w);
      case OrderStrings(v) =>
        var w := SerializeOrderInfoString(ar, v);
        r := OrderStrings(w);
      case Order(v) =>
        var w;
        ghost var state1, state2, state3;
        w, state1, state2, state3 := SerializeOrderInfo(ar, v);
        r := Order(w);
      case Mql4Order(v) =>
        var w := SerializeMql4OrderInfo(ar, v);
        r := Mql4Order(w);
    }
  }

  // `serialize` of whatever record is at hand.
  method SerializeTradeRecord(ar: Archive, x: TradeRecord) returns (r: TradeRecord)
    requires ar.Valid()
    modifies ar
    ensures ar.Valid() && r.SameType(x) && x.SameType(r) && r.Restored(x) == r
    ensures ar.saving ==> r == x && ar.trace == x.Logged(old(ar.trace))
    ensures forall saved: TradeRecord, suffix: ByteArray {:trigger ar.Finds(saved.Logged(old(ar.trace)), suffix)} ::
              saved.SameType(x) && ar.Finds(saved.Logged(old(ar.trace)), suffix) ==>
                r == saved.Restored(x) && ar.Found(saved.Logged(old(ar.trace)), suffix)
  {
    hide Encode, KindsOf, Saved, Archive.Valid, Archive.Finds, Archive.Found, ToUint64,
      OrderInfoInteger.LoggedCopies, OrderInfoDouble.Logged, OrderInfoString.Logged, OrderInfo.LoggedCopies,
      PositionInfoInteger.Logged, PositionInfoDouble.Logged, PositionInfoString.Logged, PositionInfo.Logged,
      DealInfoInteger.Logged, DealInfoDouble.Logged, DealInfoString.Logged, DealInfo.Logged, Mql4OrderInfo.Logged;
    match x {
      case PositionIntegers(v) =>
        var w := SerializePositionInfoInteger(ar, v);
        r := PositionIntegers(w);
      case PositionDoubles(v) =>
        var w := SerializePositionInfoDouble(ar, v);
        r := PositionDoubles(w);
      case PositionStrings(v) =>
        var w := SerializePositionInfoString(ar, v);
        r := PositionStrings(w);
      case Position(v) =>
        var w := SerializePositionInfo(ar, v);
        r := Position(w);
      case DealIntegers(v) =>
        var w := SerializeDealInfoInteger(ar, v);
        r := DealIntegers(w);
      case DealDoubles(v) =>
        var w := SerializeDealInfoDouble(ar, v);
        r := DealDoubles(w);
      case DealStrings(v) =>
        var w := SerializeDealInfoString(ar, v);
        r := DealStrings(w);
      case Deal(v) =>
        var w := SerializeDealInfo(ar, v);
        r := Deal(w);
      case _ =>
        r := SerializeOrderRecord(ar, x);
    }
  }
}
