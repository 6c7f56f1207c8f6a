/** The byte layout of the archive as functions on values: what one saved scalar looks like, what a read of a
    scalar of a given kind finds, and the laws that make any list of scalars self-delimiting. */
module Codec {
  import opened Wrappers
  import opened Bytes

  // What the `ar &x` statements of the records write: int64_t, int, uint64_t or double, bool, std::string.
  datatype Kind = LongKind | IntKind | WordKind | FlagKind | TextKind
  datatype Scalar = Long(i64: Int64) | Int(i32: Int32) | Word(u64: Word64) | Flag(b: bool) | Str(text: Text)

  function KindOf(v: Scalar): Kind {
    match v
    case Long(_) => LongKind
    case Int(_) => IntKind
    case Word(_) => WordKind
    case Flag(_) => FlagKind
    case Str(_) => TextKind
  }

  // A list that grows at its end, the way the statements of a `serialize` body follow one another.
  datatype Stack<T> = Empty | Push(front: Stack<T>, last: T)

  // The scalars transferred so far, together with their kinds.
  datatype Transfers = Transfers(vals: Stack<Scalar>, kinds: Stack<Kind>) {
    function Add(v: Scalar): Log
      requires kinds == KindsOf(vals)
    {
      Transfers(Push(vals, v), Push(kinds, KindOf(v)))
    }
  }

  type Log = t: Transfers | t.kinds == KindsOf(t.vals) witness Transfers(Empty, Empty)

  const START: Log := Transfers(Empty, Empty)

  function KindsOf(vs: Stack<Scalar>): Stack<Kind> {
    match vs
    case Empty => Empty
    case Push(front, v) => Push(KindsOf(front), KindOf(v))
  }

  // Every scalar starts with an integer of this many bytes; for a string that integer is its length.
  function Width(k: Kind): nat {
    match k
    case LongKind => 8
    case IntKind => 4
    case WordKind => 8
    case FlagKind => 1
    case TextKind => 8
  }

  // The unsigned integer written for v.
  function Pattern(v: Scalar): nat {
    match v
    case Long(x) => ToUint64(x)
    case Int(x) => ToUint32(x)
    case Word(u) => u
    case Flag(b) => if b then 1 else 0
    case Str(s) => |s|
  }

  function Tail(v: Scalar): ByteArray {
    if v.Str? then v.text else []
  }

  // Integers are little-endian and of fixed width; a string is its length followed by its bytes.
  function Encode(v: Scalar): ByteArray {
    LittleEndian(Pattern(v), Width(KindOf(v))) + Tail(v)
  }

  // None is the exception an input archive throws: the stream is too short, or a flag byte is neither 0 nor 1.
  function Decode(k: Kind, bs: ByteArray): Option<(Scalar, ByteArray)> {
    var w := Width(k);
    if |bs| < w then None
    else DecodePattern(k, FromLittleEndian(bs[..w]), bs[w..])
  }

  function DecodePattern(k: Kind, n: nat, rest: ByteArray): Option<(Scalar, ByteArray)>
    requires n < Pow256(Width(k))
  {
    Pow256Words();
    match k
    case LongKind => Some((Long(ToInt64(n)), rest))
    case IntKind => Some((Int(ToInt32(n)), rest))
    case WordKind => Some((Word(n), rest))
    case FlagKind => if n > 1 then None else Some((Flag(n == 1), rest))
    case TextKind => if |rest| < n then None else Some((Str(rest[..n]), rest[n..]))
  }

  // The layout, kind by kind: integers of eight or four bytes as residues, the least significant byte first; a flag
  // as one byte; a string behind its length.
  lemma EncodeLayout(x: Int64, n: Int32, u: Word64, b: bool, s: Text)
    ensures |Encode(Word(u))| == 8 && forall i :: 0 <= i < 8 ==> Encode(Word(u))[i] == (u / Pow256(i)) % 256
    ensures Encode(Long(x)) == Encode(Word(if x < 0 then x + 0x1_0000_0000_0000_0000 else x))
    ensures Encode(Int(n)) == Encode(Word(if n < 0 then n + 0x1_0000_0000 else n))[..4]
    ensures Encode(Flag(b)) == [if b then 1 else 0]
    ensures Encode(Str(s)) == Encode(Word(|s|)) + s
  {
    forall i | 0 <= i < 8
      ensures Octet(u, i) == (u / Pow256(i)) % 256
    {
      OctetIsDigit(u, i);
    }
    var low := ToUint32(n);
    assert LittleEndian(low, 8)[..4] == LittleEndian(low, 4);
    assert forall v: Scalar :: !v.Str? ==> Encode(v) == LittleEndian(Pattern(v), Width(KindOf(v)));
    assert LittleEndian(|s|, 8) + [] == LittleEndian(|s|, 8);
  }

  lemma PatternFits(v: Scalar)
    ensures Pattern(v) < Pow256(Width(KindOf(v)))
  {
    Pow256Words();
  }

  // Reading back one saved scalar, whatever follows it.
  lemma DecodeEncode(v: Scalar, suffix: ByteArray)
    ensures Decode(KindOf(v), Encode(v) + suffix) == Some((v, suffix))
  {
    var w, bs := Width(KindOf(v)), Encode(v) + suffix;
    PatternFits(v);
    LittleEndianRoundTrip(Pattern(v), w);
    assert bs[..w] == LittleEndian(Pattern(v), w);
    assert bs[w..] == Tail(v) + suffix;
    assert DecodePattern(KindOf(v), Pattern(v), Tail(v) + suffix) == Some((v, suffix)) by {
      if v.Str? {
        assert (v.text + suffix)[..|v.text|] == v.text && (v.text + suffix)[|v.text|..] == suffix;
      } else {
        assert Tail(v) + suffix == suffix;
      }
    }
  }

  // A successful read consumed exactly the bytes that saving the value would have produced.
  lemma EncodeDecode(k: Kind, bs: ByteArray)
    requires Decode(k, bs).Some?
    ensures KindOf(Decode(k, bs).value.0) == k
    ensures bs == Encode(Decode(k, bs).value.0) + Decode(k, bs).value.1
  {
    var w := Width(k);
    var n := FromLittleEndian(bs[..w]);
    var (v, rest) := Decode(k, bs).value;
    FromLittleEndianRoundTrip(bs[..w]);
    PatternDecode(k, n, bs[w..]);
    assert bs == bs[..w] + bs[w..];
    Associative(LittleEndian(n, w), Tail(v), rest);
  }

  lemma Leftover(k: Kind, bs: ByteArray)
    requires Decode(k, bs).Some?
    ensures KindOf(Decode(k, bs).value.0) == k
    ensures |Decode(k, bs).value.1| <= |bs| && Decode(k, bs).value.1 == bs[|bs| - |Decode(k, bs).value.1|..]
  {
    EncodeDecode(k, bs);
  }

  lemma PatternDecode(k: Kind, n: nat, bs: ByteArray)
    requires n < Pow256(Width(k)) && DecodePattern(k, n, bs).Some?
    ensures var (v, rest) := DecodePattern(k, n, bs).value;
            KindOf(v) == k && Pattern(v) == n && bs == Tail(v) + rest
  {
    Pow256Words();
  }

  lemma Associative(a: ByteArray, b: ByteArray, c: ByteArray)
    ensures a + (b + c) == (a + b) + c
  {
  }

  function EncodeAll(vs: Stack<Scalar>): ByteArray {
    match vs
    case Empty => []
    case Push(front, v) => EncodeAll(front) + Encode(v)
  }

  // Reading scalars of the given kinds one after the other: the values and the bytes left over.
  function DecodeAll(ks: Stack<Kind>, bs: ByteArray): Option<(Stack<Scalar>, ByteArray)> {
    match ks
    case Empty => Some((Empty, bs))
    case Push(front, k) =>
      match DecodeAll(front, bs)
      case None => None
      case Some((vs, rest)) =>
        match Decode(k, rest)
        case None => None
        case Some((v, rest')) => Some((Push(vs, v), rest'))
  }

  // The framed round trip: a saved list is read back whole and the reader stops exactly at the suffix.
  lemma {:induction false} RoundTrip(vs: Stack<Scalar>, suffix: ByteArray)
    ensures DecodeAll(KindsOf(vs), EncodeAll(vs) + suffix) == Some((vs, suffix))
  {
    hide Encode, Decode;
    match vs
    case Empty =>
      assert EncodeAll(vs) + suffix == suffix;
    case Push(front, v) =>
      Associative(EncodeAll(front), Encode(v), suffix);
      RoundTrip(front, Encode(v) + suffix);
      DecodeEncode(v, suffix);
  }

  // Whatever a reader accepts is the encoding of what it returns: no byte string has two readings.
  lemma {:induction false} Canonical(ks: Stack<Kind>, bs: ByteArray)
    requires DecodeAll(ks, bs).Some?
    ensures KindsOf(DecodeAll(ks, bs).value.0) == ks
    ensures bs == EncodeAll(DecodeAll(ks, bs).value.0) + DecodeAll(ks, bs).value.1
  {
    hide Encode, Decode;
    match ks
    case Empty =>
    case Push(front, k) =>
      Canonical(front, bs);
      var (vs, rest) := DecodeAll(front, bs).value;
      EncodeDecode(k, rest);
      var (v, rest') := Decode(k, rest).value;
      Associative(EncodeAll(vs), Encode(v), rest');
  }

  // The bytes of a whole log.
  function Saved(log: Log): ByteArray {
    EncodeAll(log.vals)
  }

  // One more scalar saved.
  lemma SaveStep(t: Log, v: Scalar)
    ensures Saved(t.Add(v)) == Saved(t) + Encode(v)
  {
  }

  // One more scalar asked for: reading it goes on where reading the others stopped.
  lemma LoadStep(t: Log, v: Scalar, bs: ByteArray)
    ensures DecodeAll(t.kinds, bs).None? ==> DecodeAll(t.Add(v).kinds, bs).None?
    ensures DecodeAll(t.kinds, bs).Some? ==>
              var (vs, rest) := DecodeAll(t.kinds, bs).value;
              DecodeAll(t.Add(v).kinds, bs) ==
              match Decode(KindOf(v), rest)
              case None => None
              case Some((w, rest')) => Some((Push(vs, w), rest'))
  {
    hide Decode;
  }

  // Two records saved after the logs t and u have left the logs s and s': their layouts are the same, and what was
  // transferred tells whether they agree.
  predicate Framed(s: Log, t: Log, s': Log, u: Log, agree: bool) {
    && (t.kinds == u.kinds ==> s.kinds == s'.kinds)
    && (s == s' ==> t == u && agree)
  }

  // What s holds is what t holds and then what u holds.
  ghost predicate After(s: Log, t: Log, u: Log) {
    Saved(s) == Saved(t) + Saved(u)
  }

  lemma AfterAdd()
    ensures forall t: Log :: After(t, t, START)
    ensures forall s: Log, t: Log, u: Log, v: Scalar {:trigger After(s.Add(v), t, u.Add(v))} ::
              After(s, t, u) ==> After(s.Add(v), t, u.Add(v))
  {
    hide Encode;
    forall s: Log, t: Log, u: Log, v: Scalar | After(s, t, u)
      ensures After(s.Add(v), t, u.Add(v))
    {
      Associative(Saved(t), Saved(u), Encode(v));
    }
  }

  // Prefix-freedom: two lists of the same kinds that agree on their bytes up to some tails agree altogether.
  lemma PrefixFree(l: Log, m: Log, s: ByteArray, t: ByteArray)
    requires l.kinds == m.kinds
    requires Saved(l) + s == Saved(m) + t
    ensures l == m && s == t
  {
    RoundTrip(l.vals, s);
    RoundTrip(m.vals, t);
  }

  // No proper part of what was saved can be read: a stream that was cut short makes the reader throw.
  lemma TruncatedReadFails(l: Log, n: nat)
    requires n < |Saved(l)|
    ensures DecodeAll(l.kinds, Saved(l)[..n]).None?
  {
    hide Encode, Decode;
    var bs := Saved(l)[..n];
    if DecodeAll(l.kinds, bs).Some? {
      Canonical(l.kinds, bs);
      var (vs, rest) := DecodeAll(l.kinds, bs).value;
      var m: Log := Transfers(vs, l.kinds);
      var lost := Saved(l)[n..];
      Associative(Saved(m), rest, lost);
      assert Saved(l) + [] == bs + lost;
      PrefixFree(l, m, [], rest + lost);
      assert false;
    }
  }
}
