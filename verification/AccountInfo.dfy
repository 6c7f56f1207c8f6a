/** The account records of mql::common, mql4 and mql5, and their `serialize` bodies. */
module AccountInfo {
  import opened Bytes
  import opened Codec
  import opened Archives
  import opened Enums

  // Lists every member once.
  datatype AccountInfoDouble = AccountInfoDouble(
    balance: Double, credit: Double, profit: Double, equity: Double, margin: Double, marginFree: Double,
    marginLevel: Double, marginSoCall: Double, marginSoSo: Double
  ) {
    // What `serialize` transfers, in its order, after what the log t already holds.
    function Logged(t: Log): Log {
      t.Add(Word(balance)).Add(Word(credit)).Add(Word(profit)).Add(Word(equity)).Add(Word(margin))
       .Add(Word(marginFree)).Add(Word(marginLevel)).Add(Word(marginSoCall)).Add(Word(marginSoSo))
    }
  }

  lemma AccountInfoDoubleFramed(x: AccountInfoDouble, z: AccountInfoDouble, t: Log, u: Log)
    ensures Framed(x.Logged(t), t, z.Logged(u), u, x == z)
  {
    hide ToUint64, KindsOf;
    Unsigned64Injective();
  }

  method SerializeAccountInfoDouble(ar: Archive, x: AccountInfoDouble) returns (r: AccountInfoDouble)
    requires ar.Valid()
    modifies ar
    ensures ar.Valid() && ar.trace == r.Logged(old(ar.trace))
    ensures ar.saving ==> r == x
    ensures ar.saving ==>
              ar.output == old(ar.output) + Encode(Word(x.balance)) + Encode(Word(x.credit)) + Encode(Word(x.profit)) +
              Encode(Word(x.equity)) + Encode(Word(x.margin)) + Encode(Word(x.marginFree)) +
              Encode(Word(x.marginLevel)) + Encode(Word(x.marginSoCall)) + Encode(Word(x.marginSoSo))
    ensures forall saved: AccountInfoDouble, suffix: ByteArray
              {:trigger ar.Finds(saved.Logged(old(ar.trace)), suffix)} ::
              ar.Finds(saved.Logged(old(ar.trace)), suffix) ==>
                r == saved && ar.Found(saved.Logged(old(ar.trace)), suffix)
  {
    hide Encode;
    var balance := ar.TransferWord(x.balance);
    var credit := ar.TransferWord(x.credit);
    var profit := ar.TransferWord(x.profit);
    var equity := ar.TransferWord(x.equity);
    var margin := ar.TransferWord(x.margin);
    var marginFree := ar.TransferWord(x.marginFree);
    var marginLevel := ar.TransferWord(x.marginLevel);
    var marginSoCall := ar.TransferWord(x.marginSoCall);
    var marginSoSo := ar.TransferWord(x.marginSoSo);
    r := AccountInfoDouble(balance, credit, profit, equity, margin, marginFree, marginLevel, marginSoCall,
      marginSoSo);
    ar.HasReadAny();
  }

  // Lists every member once.
  datatype AccountInfoString = AccountInfoString(
    accountName: Text, tradeServerName: Text, accountCurrency: Text, accountCompany: Text
  ) {
    // What `serialize` transfers, in its order, after what the log t already holds.
    function Logged(t: Log): Log {
      t.Add(Str(accountName)).Add(Str(tradeServerName)).Add(Str(accountCurrency)).Add(Str(accountCompany))
    }
  }

  lemma AccountInfoStringFramed(x: AccountInfoString, z: AccountInfoString, t: Log, u: Log)
    ensures Framed(x.Logged(t), t, z.Logged(u), u, x == z)
  {
    hide ToUint64, KindsOf;
    Unsigned64Injective();
  }

  method SerializeAccountInfoString(ar: Archive, x: AccountInfoString) returns (r: AccountInfoString)
    requires ar.Valid()
    modifies ar
    ensures ar.Valid() && ar.trace == r.Logged(old(ar.trace))
    ensures ar.saving ==> r == x
    ensures ar.saving ==>
              ar.output == old(ar.output) + Encode(Str(x.accountName)) + Encode(Str(x.tradeServerName)) +
              Encode(Str(x.accountCurrency)) + Encode(Str(x.accountCompany))
    ensures forall saved: AccountInfoString, suffix: ByteArray
              {:trigger ar.Finds(saved.Logged(old(ar.trace)), suffix)} ::
              ar.Finds(saved.Logged(old(ar.trace)), suffix) ==>
                r == saved && ar.Found(saved.Logged(old(ar.trace)), suffix)
  {
    hide Encode;
    var accountName := ar.TransferText(x.accountName);
    var tradeServerName := ar.TransferText(x.tradeServerName);
    var accountCurrency := ar.TransferText(x.accountCurrency);
    var accountCompany := ar.TransferText(x.accountCompany);
    r := AccountInfoString(accountName, tradeServerName, accountCurrency, accountCompany);
    ar.HasReadAny();
  }

  // Lists every member once.
  datatype AccountInfoInteger = AccountInfoInteger(
    accountLogin: Int64, tradeMode: EnumAccountTradeMode, accountLeverage: Int64, limitOrders: Int32,
    marginSoMode: EnumAccountStopOutMode, tradeAllowed: bool, expertTradeAllowed: bool
  ) {
    // What `serialize` transfers, in its order, after what the log t already holds.
    function Logged(t: Log): Log {
      t.Add(Long(accountLogin)).Add(Int(tradeMode)).Add(Long(accountLeverage)).Add(Int(limitOrders))
       .Add(Int(marginSoMode)).Add(Flag(tradeAllowed)).Add(Flag(expertTradeAllowed))
    }
  }

  lemma AccountInfoIntegerFramed(x: AccountInfoInteger, z: AccountInfoInteger, t: Log, u: Log)
    ensures Framed(x.Logged(t), t, z.Logged(u), u, x == z)
  {
    hide ToUint64, KindsOf;
    Unsigned64Injective();
  }

  method SerializeAccountInfoInteger(ar: Archive, x: AccountInfoInteger) returns (r: AccountInfoInteger)
    requires ar.Valid()
    modifies ar
    ensures ar.Valid() && ar.trace == r.Logged(old(ar.trace))
    ensures ar.saving ==> r == x
    ensures ar.saving ==>
              ar.output == old(ar.output) + Encode(Long(x.accountLogin)) + Encode(Int(x.tradeMode)) +
              Encode(Long(x.accountLeverage)) + Encode(Int(x.limitOrders)) + Encode(Int(x.marginSoMode)) +
              Encode(Flag(x.tradeAllowed)) + Encode(Flag(x.expertTradeAllowed))
    ensures forall saved: AccountInfoInteger, suffix: ByteArray
              {:trigger ar.Finds(saved.Logged(old(ar.trace)), suffix)} ::
              ar.Finds(saved.Logged(old(ar.trace)), suffix) ==>
                r == saved && ar.Found(saved.Logged(old(ar.trace)), suffix)
  {
    hide Encode;
    ghost var t := ar.trace;
    var accountLogin := ar.TransferLong(x.accountLogin);
    var tradeMode := ar.TransferEnum(x.tradeMode);
    var accountLeverage := ar.TransferLong(x.accountLeverage);
    var limitOrders := ar.TransferInt(x.limitOrders);
    var marginSoMode := ar.TransferEnum(x.marginSoMode);
    var tradeAllowed := ar.TransferFlag(x.tradeAllowed);
    var expertTradeAllowed := ar.TransferFlag(x.expertTradeAllowed);
    r := AccountInfoInteger(accountLogin, tradeMode, accountLeverage, limitOrders, marginSoMode, tradeAllowed,
      expertTradeAllowed);
    assert ar.trace == r.Logged(t);
    hide AccountInfoInteger.Logged, Archive.Finds;
    forall saved: AccountInfoInteger, suffix: ByteArray | ar.Finds(saved.Logged(t), suffix)
      ensures r == saved && ar.Found(saved.Logged(t), suffix)
    {
      AccountInfoIntegerFramed(r, saved, t, t);
      ar.HasRead(saved.Logged(t), suffix);
    }
  }

  // Lists every member once.
  datatype AccountInfoDoubleMinimal = AccountInfoDoubleMinimal(
    balance: Double, profit: Double, equity: Double, margin: Double, marginFree: Double
  ) {
    // What `serialize` transfers, in its order, after what the log t already holds.
    function Logged(t: Log): Log {
      t.Add(Word(balance)).Add(Word(profit)).Add(Word(equity)).Add(Word(margin)).Add(Word(marginFree))
    }
  }

  lemma AccountInfoDoubleMinimalFramed(x: AccountInfoDoubleMinimal, z: AccountInfoDoubleMinimal, t: Log, u: Log)
    ensures Framed(x.Logged(t), t, z.Logged(u), u, x == z)
  {
    hide ToUint64, KindsOf;
    Unsigned64Injective();
  }

  method SerializeAccountInfoDoubleMinimal(ar: Archive, x: AccountInfoDoubleMinimal)
    returns (r: AccountInfoDoubleMinimal)
    requires ar.Valid()
    modifies ar
    ensures ar.Valid() && ar.trace == r.Logged(old(ar.trace))
    ensures ar.saving ==> r == x
    ensures ar.saving ==>
              ar.output == old(ar.output) + Encode(Word(x.balance)) + Encode(Word(x.profit)) + Encode(Word(x.equity)) +
              Encode(Word(x.margin)) + Encode(Word(x.marginFree))
    ensures forall saved: AccountInfoDoubleMinimal, suffix: ByteArray
              {:trigger ar.Finds(saved.Logged(old(ar.trace)), suffix)} ::
              ar.Finds(saved.Logged(old(ar.trace)), suffix) ==>
                r == saved && ar.Found(saved.Logged(old(ar.trace)), suffix)
  {
    hide Encode;
    var balance := ar.TransferWord(x.balance);
    var profit := ar.TransferWord(x.profit);
    var equity := ar.TransferWord(x.equity);
    var margin := ar.TransferWord(x.margin);
    var marginFree := ar.TransferWord(x.marginFree);
    r := AccountInfoDoubleMinimal(balance, profit, equity, margin, marginFree);
    ar.HasReadAny();
  }

  // Lists every member once.
  datatype AccountInfoIntegerMinimal = AccountInfoIntegerMinimal(
    accountLogin: Int64, accountLeverage: Int64
  ) {
    // What `serialize` transfers, in its order, after what the log t already holds.
    function Logged(t: Log): Log {
      t.Add(Long(accountLogin)).Add(Long(accountLeverage))
    }
  }

  lemma AccountInfoIntegerMinimalFramed(x: AccountInfoIntegerMinimal, z: AccountInfoIntegerMinimal, t: Log, u: Log)
    ensures Framed(x.Logged(t), t, z.Logged(u), u, x == z)
  {
    hide ToUint64, KindsOf;
    Unsigned64Injective();
  }

  method SerializeAccountInfoIntegerMinimal(ar: Archive, x: AccountInfoIntegerMinimal)
    returns (r: AccountInfoIntegerMinimal)
    requires ar.Valid()
    modifies ar
    ensures ar.Valid() && ar.trace == r.Logged(old(ar.trace))
    ensures ar.saving ==> r == x
    ensures ar.saving ==>
              ar.output == old(ar.output) + Encode(Long(x.accountLogin)) + Encode(Long(x.accountLeverage))
    ensures forall saved: AccountInfoIntegerMinimal, suffix: ByteArray
              {:trigger ar.Finds(saved.Logged(old(ar.trace)), suffix)} ::
              ar.Finds(saved.Logged(old(ar.trace)), suffix) ==>
                r == saved && ar.Found(saved.Logged(old(ar.trace)), suffix)
  {
    hide Encode;
    var accountLogin := ar.TransferLong(x.accountLogin);
    var accountLeverage := ar.TransferLong(x.accountLeverage);
    r := AccountInfoIntegerMinimal(accountLogin, accountLeverage);
    ar.HasReadAny();
  }

  // Composed of its three base classes, serialized in this order.
  datatype AccountInfoMinimal = AccountInfoMinimal(
    integers: AccountInfoIntegerMinimal, doubles: AccountInfoDoubleMinimal, strings: AccountInfoString
  ) {
    // What `serialize` transfers, in its order, after what the log t already holds.
    function Logged(t: Log): Log {
      strings.Logged(doubles.Logged(integers.Logged(t)))
    }
  }

  lemma AccountInfoMinimalFramed(x: AccountInfoMinimal, z: AccountInfoMinimal, t: Log, u: Log)
    ensures Framed(x.Logged(t), t, z.Logged(u), u, x == z)
  {
    hide AccountInfoIntegerMinimal.Logged, AccountInfoDoubleMinimal.Logged, AccountInfoString.Logged;
    var x1, z1 := x.integers.Logged(t), z.integers.Logged(u);
    AccountInfoIntegerMinimalFramed(x.integers, z.integers, t, u);
    AccountInfoDoubleMinimalFramed(x.doubles, z.doubles, x1, z1);
    AccountInfoStringFramed(x.strings, z.strings, x.doubles.Logged(x1), z.doubles.Logged(z1));
  }

  method SerializeAccountInfoMinimal(ar: Archive, x: AccountInfoMinimal) returns (r: AccountInfoMinimal)
    requires ar.Valid()
    modifies ar
    ensures ar.Valid() && ar.trace == r.Logged(old(ar.trace))
    ensures ar.saving ==> r == x
    ensures ar.saving ==>
              ar.output == old(ar.output) + Encode(Long(x.integers.accountLogin)) +
              Encode(Long(x.integers.accountLeverage)) + Encode(Word(x.doubles.balance)) +
              Encode(Word(x.doubles.profit)) + Encode(Word(x.doubles.equity)) + Encode(Word(x.doubles.margin)) +
              Encode(Word(x.doubles.marginFree)) + Encode(Str(x.strings.accountName)) +
              Encode(Str(x.strings.tradeServerName)) + Encode(Str(x.strings.accountCurrency)) +
              Encode(Str(x.strings.accountCompany))
    ensures forall saved: AccountInfoMinimal, suffix: ByteArray
              {:trigger ar.Finds(saved.Logged(old(ar.trace)), suffix)} ::
              ar.Finds(saved.Logged(old(ar.trace)), suffix) ==>
                r == saved && ar.Found(saved.Logged(old(ar.trace)), suffix)
  {
    hide Encode, Archive.Finds, AccountInfoIntegerMinimal.Logged, AccountInfoDoubleMinimal.Logged,
      AccountInfoString.Logged;
    ghost var t := ar.trace;
    var integers := SerializeAccountInfoIntegerMinimal(ar, x.integers);
    var doubles := SerializeAccountInfoDoubleMinimal(ar, x.doubles);
    var strings := SerializeAccountInfoString(ar, x.strings);
    r := AccountInfoMinimal(integers, doubles, strings);
    forall saved: AccountInfoMinimal, suffix: ByteArray | ar.Finds(saved.Logged(t), suffix)
      ensures r == saved && ar.Found(saved.Logged(t), suffix)
    {
      AccountInfoMinimalFramed(r, saved, t, t);
      ar.HasRead(saved.Logged(t), suffix);
    }
  }

  // Composed of its three base classes, serialized in this order.
  datatype FullAccountInfo = FullAccountInfo(
    integers: AccountInfoInteger, doubles: AccountInfoDouble, strings: AccountInfoString
  ) {
    // What `serialize` transfers, in its order, after what the log t already holds.
    function Logged(t: Log): Log {
      strings.Logged(doubles.Logged(integers.Logged(t)))
    }
  }

  lemma FullAccountInfoFramed(x: FullAccountInfo, z: FullAccountInfo, t: Log, u: Log)
    ensures Framed(x.Logged(t), t, z.Logged(u), u, x == z)
  {
    hide AccountInfoInteger.Logged, AccountInfoDouble.Logged, AccountInfoString.Logged;
    var x1, z1 := x.integers.Logged(t), z.integers.Logged(u);
    AccountInfoIntegerFramed(x.integers, z.integers, t, u);
    AccountInfoDoubleFramed(x.doubles, z.doubles, x1, z1);
    AccountInfoStringFramed(x.strings, z.strings, x.doubles.Logged(x1), z.doubles.Logged(z1));
  }

  method SerializeFullAccountInfo(ar: Archive, x: FullAccountInfo) returns (r: FullAccountInfo)
    requires ar.Valid()
    modifies ar
    ensures ar.Valid() && ar.trace == r.Logged(old(ar.trace))
    ensures ar.saving ==> r == x
    ensures ar.saving ==>
              ar.output == old(ar.output) + Encode(Long(x.integers.accountLogin)) + Encode(Int(x.integers.tradeMode)) +
              Encode(Long(x.integers.accountLeverage)) + Encode(Int(x.integers.limitOrders)) +
              Encode(Int(x.integers.marginSoMode)) + Encode(Flag(x.integers.tradeAllowed)) +
              Encode(Flag(x.integers.expertTradeAllowed)) + Encode(Word(x.doubles.balance)) +
              Encode(Word(x.doubles.credit)) + Encode(Word(x.doubles.profit)) + Encode(Word(x.doubles.equity)) +
              Encode(Word(x.doubles.margin)) + Encode(Word(x.doubles.marginFree)) +
              Encode(Word(x.doubles.marginLevel)) + Encode(Word(x.doubles.marginSoCall)) +
              Encode(Word(x.doubles.marginSoSo)) + Encode(Str(x.strings.accountName)) +
              Encode(Str(x.strings.tradeServerName)) + Encode(Str(x.strings.accountCurrency)) +
              Encode(Str(x.strings.accountCompany))
    ensures forall saved: FullAccountInfo, suffix: ByteArray
              {:trigger ar.Finds(saved.Logged(old(ar.trace)), suffix)} ::
              ar.Finds(saved.Logged(old(ar.trace)), suffix) ==>
                r == saved && ar.Found(saved.Logged(old(ar.trace)), suffix)
  {
    hide Encode, Archive.Finds, AccountInfoInteger.Logged, AccountInfoDouble.Logged, AccountInfoString.Logged;
    ghost var t := ar.trace;
    var integers := SerializeAccountInfoInteger(ar, x.integers);
    var doubles := SerializeAccountInfoDouble(ar, x.doubles);
    var strings := SerializeAccountInfoString(ar, x.strings);
    r := FullAccountInfo(integers, doubles, strings);
    forall saved: FullAccountInfo, suffix: ByteArray | ar.Finds(saved.Logged(t), suffix)
      ensures r == saved && ar.Found(saved.Logged(t), suffix)
    {
      FullAccountInfoFramed(r, saved, t, t);
      ar.HasRead(saved.Logged(t), suffix);
    }
  }

  // mql5::AccountInfoInteger. `serialize` does not mention the base class.
  datatype Mql5AccountInfoInteger = Mql5AccountInfoInteger(
    base: AccountInfoInteger, marginMode: EnumAccountMarginMode, currencyDigits: Int32, fifoClose: bool,
    hedgeAllowed: bool
  ) {
    // What `serialize` transfers, in its order, after what the log t already holds.
    function Logged(t: Log): Log {
      t.Add(Int(marginMode)).Add(Int(currencyDigits)).Add(Flag(fifoClose)).Add(Flag(hedgeAllowed))
    }
  }

  lemma Mql5AccountInfoIntegerFramed(x: Mql5AccountInfoInteger, z: Mql5AccountInfoInteger, t: Log, u: Log)
    ensures Framed(x.Logged(t), t, z.Logged(u), u, x == z.(base := x.base))
  {
    hide ToUint64, KindsOf;
    Unsigned64Injective();
  }

  method SerializeMql5AccountInfoInteger(ar: Archive, x: Mql5AccountInfoInteger) returns (r: Mql5AccountInfoInteger)
    requires ar.Valid()
    modifies ar
    ensures ar.Valid() && ar.trace == r.Logged(old(ar.trace))
    ensures ar.saving ==> r == x
    ensures r.base == x.base
    ensures ar.saving ==>
              ar.output == old(ar.output) + Encode(Int(x.marginMode)) + Encode(Int(x.currencyDigits)) +
              Encode(Flag(x.fifoClose)) + Encode(Flag(x.hedgeAllowed))
    ensures forall saved: Mql5AccountInfoInteger, suffix: ByteArray
              {:trigger ar.Finds(saved.Logged(old(ar.trace)), suffix)} ::
              ar.Finds(saved.Logged(old(ar.trace)), suffix) ==>
                r == saved.(base := x.base) && ar.Found(saved.Logged(old(ar.trace)), suffix)
  {
    hide Encode;
    ghost var t := ar.trace;
    var marginMode := ar.TransferEnum(x.marginMode);
    var currencyDigits := ar.TransferInt(x.currencyDigits);
    var fifoClose := ar.TransferFlag(x.fifoClose);
    var hedgeAllowed := ar.TransferFlag(x.hedgeAllowed);
    r := x.(marginMode := marginMode, currencyDigits := currencyDigits, fifoClose := fifoClose,
      hedgeAllowed := hedgeAllowed);
    assert ar.trace == r.Logged(t);
    hide Mql5AccountInfoInteger.Logged, Archive.Finds;
    forall saved: Mql5AccountInfoInteger, suffix: ByteArray | ar.Finds(saved.Logged(t), suffix)
      ensures r == saved.(base := x.base) && ar.Found(saved.Logged(t), suffix)
    {
      Mql5AccountInfoIntegerFramed(r, saved, t, t);
      ar.HasRead(saved.Logged(t), suffix);
    }
  }

  // mql5::AccountInfoDouble. `serialize` does not mention the base class.
  datatype Mql5AccountInfoDouble = Mql5AccountInfoDouble(
    base: AccountInfoDouble, marginInitial: Double, marginMaintenance: Double, assets: Double,
    liabilities: Double, commissionBlocked: Double
  ) {
    // What `serialize` transfers, in its order, after what the log t already holds.
    function Logged(t: Log): Log {
      t.Add(Word(marginInitial)).Add(Word(marginMaintenance)).Add(Word(assets)).Add(Word(liabilities))
       .Add(Word(commissionBlocked))
    }
  }

  lemma Mql5AccountInfoDoubleFramed(x: Mql5AccountInfoDouble, z: Mql5AccountInfoDouble, t: Log, u: Log)
    ensures Framed(x.Logged(t), t, z.Logged(u), u, x == z.(base := x.base))
  {
    hide ToUint64, KindsOf;
    Unsigned64Injective();
  }

  method SerializeMql5AccountInfoDouble(ar: Archive, x: Mql5AccountInfoDouble) returns (r: Mql5AccountInfoDouble)
    requires ar.Valid()
    modifies ar
    ensures ar.Valid() && ar.trace == r.Logged(old(ar.trace))
    ensures ar.saving ==> r == x
    ensures r.base == x.base
    ensures ar.saving ==>
              ar.output == old(ar.output) + Encode(Word(x.marginInitial)) + Encode(Word(x.marginMaintenance)) +
              Encode(Word(x.assets)) + Encode(Word(x.liabilities)) + Encode(Word(x.commissionBlocked))
    ensures forall saved: Mql5AccountInfoDouble, suffix: ByteArray
              {:trigger ar.Finds(saved.Logged(old(ar.trace)), suffix)} ::
              ar.Finds(saved.Logged(old(ar.trace)), suffix) ==>
                r == saved.(base := x.base) && ar.Found(saved.Logged(old(ar.trace)), suffix)
  {
    hide Encode;
    var marginInitial := ar.TransferWord(x.marginInitial);
    var marginMaintenance := ar.TransferWord(x.marginMaintenance);
    var assets := ar.TransferWord(x.assets);
    var liabilities := ar.TransferWord(x.liabilities);
    var commissionBlocked := ar.TransferWord(x.commissionBlocked);
    r := x.(marginInitial := marginInitial, marginMaintenance := marginMaintenance, assets := assets,
      liabilities := liabilities, commissionBlocked := commissionBlocked);
    ar.HasReadAny();
  }
}
