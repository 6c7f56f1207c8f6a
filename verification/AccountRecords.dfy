/** The account records and the parts of account records that travel on their own: each is the content of a response
    packet. */
module AccountRecords {
  import opened Bytes
  import opened Codec
  import opened Archives
  import opened AccountInfo

  datatype AccountRecord =
    | AccountIntegers(accountIntegers: AccountInfoInteger)
    | AccountDoubles(accountDoubles: AccountInfoDouble)
    | AccountStrings(accountStrings: AccountInfoString)
    | FullAccount(fullAccount: FullAccountInfo)
    | AccountIntegersMinimal(accountIntegersMinimal: AccountInfoIntegerMinimal)
    | AccountDoublesMinimal(accountDoublesMinimal: AccountInfoDoubleMinimal)
    | AccountMinimal(accountMinimal: AccountInfoMinimal)
    | Mql5AccountIntegers(mql5AccountIntegers: Mql5AccountInfoInteger)
    | Mql5AccountDoubles(mql5AccountDoubles: Mql5AccountInfoDouble)
  {
    // What `serialize` transfers for the record, after what the log t already holds.
    function Logged(t: Log): Log {
      match this
      case AccountIntegers(x) => x.Logged(t)
      case AccountDoubles(x) => x.Logged(t)
      case AccountStrings(x) => x.Logged(t)
      case FullAccount(x) => x.Logged(t)
      case AccountIntegersMinimal(x) => x.Logged(t)
      case AccountDoublesMinimal(x) => x.Logged(t)
      case AccountMinimal(x) => x.Logged(t)
      case Mql5AccountIntegers(x) => x.Logged(t)
      case Mql5AccountDoubles(x) => x.Logged(t)
    }

    predicate SameType(that: AccountRecord) {
      match this
      case AccountIntegers(_) => that.AccountIntegers?
      case AccountDoubles(_) => that.AccountDoubles?
      case AccountStrings(_) => that.AccountStrings?
      case FullAccount(_) => that.FullAccount?
      case AccountIntegersMinimal(_) => that.AccountIntegersMinimal?
      case AccountDoublesMinimal(_) => that.AccountDoublesMinimal?
      case AccountMinimal(_) => that.AccountMinimal?
      case Mql5AccountIntegers(_) => that.Mql5AccountIntegers?
      case Mql5AccountDoubles(_) => that.Mql5AccountDoubles?
    }

    // What loading this record into another one leaves there: the members that `serialize` lists come from this
    // record, the others stay.
    function Restored(into: AccountRecord): AccountRecord {
      match (this, into)
      case (Mql5AccountIntegers(x), Mql5AccountIntegers(y)) => Mql5AccountIntegers(x.(base := y.base))
      case (Mql5AccountDoubles(x), Mql5AccountDoubles(y)) => Mql5AccountDoubles(x.(base := y.base))
      case _ => this
    }

    // Agreement on the members that `serialize` leaves out.
    predicate SameUnlisted(that: AccountRecord) {
      match (this, that)
      case (Mql5AccountIntegers(x), Mql5AccountIntegers(y)) => x.base == y.base
      case (Mql5AccountDoubles(x), Mql5AccountDoubles(y)) => x.base == y.base
      case _ => true
    }
  }

  lemma AccountRecordRestoredWhole(saved: AccountRecord, into: AccountRecord)
    requires saved.SameType(into)
    ensures saved.Restored(into) == saved <==> saved.SameUnlisted(into)
    ensures saved.SameType(saved.Restored(into)) && saved.Restored(into).SameUnlisted(into)
  {
  }

  lemma AccountRecordFramed(x: AccountRecord, y: AccountRecord, t: Log, u: Log)
    requires y.SameType(x)
    ensures Framed(x.Logged(t), t, y.Logged(u), u, x == y.Restored(x))
  {
    hide KindsOf,
      AccountInfoInteger.Logged, AccountInfoDouble.Logged, AccountInfoString.Logged, FullAccountInfo.Logged,
      AccountInfoIntegerMinimal.Logged, AccountInfoDoubleMinimal.Logged, AccountInfoMinimal.Logged,
      Mql5AccountInfoInteger.Logged, Mql5AccountInfoDouble.Logged;
    match x {
      case AccountIntegers(v) => AccountInfoIntegerFramed(v, y.accountIntegers, t, u);
      case AccountDoubles(v) => AccountInfoDoubleFramed(v, y.accountDoubles, t, u);
      case AccountStrings(v) => AccountInfoStringFramed(v, y.accountStrings, t, u);
      case FullAccount(v) => FullAccountInfoFramed(v, y.fullAccount, t, u);
      case AccountIntegersMinimal(v) => AccountInfoIntegerMinimalFramed(v, y.accountIntegersMinimal, t, u);
      case AccountDoublesMinimal(v) => AccountInfoDoubleMinimalFramed(v, y.accountDoublesMinimal, t, u);
      case AccountMinimal(v) => AccountInfoMinimalFramed(v, y.accountMinimal, t, u);
      case Mql5AccountIntegers(v) => Mql5AccountInfoIntegerFramed(v, y.mql5AccountIntegers, t, u);
      case Mql5AccountDoubles(v) => Mql5AccountInfoDoubleFramed(v, y.mql5AccountDoubles, t, u);
    }
  }

  lemma AccountRecordAppends(x: AccountRecord, t: Log)
    ensures After(x.Logged(t), t, x.Logged(START))
  {
    hide KindsOf, Saved, After;
    AfterAdd();
  }

  // Members that are not listed leave no trace.
  lemma AccountRecordTraceless(x: AccountRecord, y: AccountRecord, t: Log)
    requires x.SameType(y) && y == x.Restored(y)
    ensures x.Logged(t) == y.Logged(t)
  {
    hide KindsOf;
  }

  // `serialize` of whatever record is at hand.
  method SerializeAccountRecord(ar: Archive, x: AccountRecord) returns (r: AccountRecord)
    requires ar.Valid()
    modifies ar
    ensures ar.Valid() && r.SameType(x) && x.SameType(r) && r.Restored(x) == r
    ensures ar.saving ==> r == x && ar.trace == x.Logged(old(ar.trace))
    ensures forall saved: AccountRecord, suffix: ByteArray {:trigger ar.Finds(saved.Logged(old(ar.trace)), suffix)} ::
              saved.SameType(x) && ar.Finds(saved.Logged(old(ar.trace)), suffix) ==>
                r == saved.Restored(x) && ar.Found(saved.Logged(old(ar.trace)), suffix)
  {
    hide Encode, KindsOf, Saved, Archive.Valid, Archive.Finds, Archive.Found, ToUint64,
      AccountInfoInteger.Logged, AccountInfoDouble.Logged, AccountInfoString.Logged, FullAccountInfo.Logged,
      AccountInfoIntegerMinimal.Logged, AccountInfoDoubleMinimal.Logged, AccountInfoMinimal.Logged,
      Mql5AccountInfoInteger.Logged, Mql5AccountInfoDouble.Logged;
    match x {
      case AccountIntegers(v) =>
        var w := SerializeAccountInfoInteger(ar, v);
        r := AccountIntegers(w);
      case AccountDoubles(v) =>
        var w := SerializeAccountInfoDouble(ar, v);
        r := AccountDoubles(w);
      case AccountStrings(v) =>
        var w := SerializeAccountInfoString(ar, v);
        r := AccountStrings(w);
      case FullAccount(v) =>
        var w := SerializeFullAccountInfo(ar, v);
        r := FullAccount(w);
      case AccountIntegersMinimal(v) =>
        var w := SerializeAccountInfoIntegerMinimal(ar, v);
        r := AccountIntegersMinimal(w);
      case AccountDoublesMinimal(v) =>
        var w := SerializeAccountInfoDoubleMinimal(ar, v);
        r := AccountDoublesMinimal(w);
      case AccountMinimal(v) =>
        var w := SerializeAccountInfoMinimal(ar, v);
        r := AccountMinimal(w);
      case Mql5AccountIntegers(v) =>
        var w := SerializeMql5AccountInfoInteger(ar, v);
        r := Mql5AccountIntegers(w);
      case Mql5AccountDoubles(v) =>
        var w := SerializeMql5AccountInfoDouble(ar, v);
        r := Mql5AccountDoubles(w);
    }
  }
}
