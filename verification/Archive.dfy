/** The archive object the `serialize` templates are run on. One and the same sequence of `ar &x` statements
    writes the fields when the archive saves and overwrites them when it loads. */
module Archives {
  import opened Wrappers
  import opened Bytes
  import opened Codec

  class Archive {
    const saving: bool      // Archive::is_saving
    const input: ByteArray  // the bytes to load from
    var output: ByteArray   // the bytes saved so far
    var cursor: nat         // where the next scalar is read
    var ok: bool            // false once a read has thrown: nothing that follows is executed
    ghost var trace: Log    // every scalar transferred, in order

    // When saving, the output is the encoding of the trace. When loading, the trace is what decoding the input
    // yields for the kinds asked for, and ok tells whether that decoding exists.
    ghost predicate Valid()
      reads this
    {
      && cursor <= |input|
      && (saving ==> ok && output == Saved(trace))
      && (!saving ==>
            DecodeAll(trace.kinds, input) == if ok then Some((trace.vals, input[cursor..])) else None)
    }

    function Remaining(): ByteArray
      reads this
      requires cursor <= |input|
    {
      input[cursor..]
    }

    constructor Output()
      ensures saving && Valid() && output == [] && trace == START
    {
      saving, input, output, cursor, ok, trace := true, [], [], 0, true, START;
    }

    constructor Input(bytes: ByteArray)
      ensures !saving && Valid() && ok && input == bytes && trace == START && cursor == 0
    {
      saving, input, output, cursor, ok, trace := false, bytes, [], 0, true, START;
    }

    // `ar &v` for a scalar: v goes out unchanged, or the result is what comes in.
    method Transfer(v: Scalar) returns (r: Scalar)
      requires Valid()
      modifies this
      ensures Valid() && trace == old(trace).Add(r)
      ensures KindOf(r) == KindOf(v)
      ensures saving || !ok ==> r == v
      ensures saving ==> output == old(output) + Encode(v)
    {
      hide Encode, Decode, EncodeAll, DecodeAll, KindOf, KindsOf;
      r := v;
      SaveStep(trace, v);
      LoadStep(trace, v, input);
      if saving {
        output := output + Encode(v);
      } else if ok {
        match Decode(KindOf(v), input[cursor..]) {
          case None => ok := false;
          case Some((w, rest)) =>
            Leftover(KindOf(v), input[cursor..]);
            r := w;
            cursor := |input| - |rest|;
        }
      }
      trace := trace.Add(r);
    }

    method TransferLong(x: Int64) returns (r: Int64)
      requires Valid()
      modifies this
      ensures Valid() && trace == old(trace).Add(Long(r))
      ensures saving || !ok ==> r == x
      ensures saving ==> output == old(output) + Encode(Long(x))
    {
      var v := Transfer(Long(x));
      r := v.i64;
    }

    method TransferInt(x: Int32) returns (r: Int32)
      requires Valid()
      modifies this
      ensures Valid() && trace == old(trace).Add(Int(r))
      ensures saving || !ok ==> r == x
      ensures saving ==> output == old(output) + Encode(Int(x))
    {
      var v := Transfer(Int(x));
      r := v.i32;
    }

    // uint64_t, and double by its bit pattern.
    method TransferWord(x: Word64) returns (r: Word64)
      requires Valid()
      modifies this
      ensures Valid() && trace == old(trace).Add(Word(r))
      ensures saving || !ok ==> r == x
      ensures saving ==> output == old(output) + Encode(Word(x))
    {
      var v := Transfer(Word(x));
      r := v.u64;
    }

    method TransferFlag(x: bool) returns (r: bool)
      requires Valid()
      modifies this
      ensures Valid() && trace == old(trace).Add(Flag(r))
      ensures saving || !ok ==> r == x
      ensures saving ==> output == old(output) + Encode(Flag(x))
    {
      var v := Transfer(Flag(x));
      r := v.b;
    }

    method TransferText(x: Text) returns (r: Text)
      requires Valid()
      modifies this
      ensures Valid() && trace == old(trace).Add(Str(r))
      ensures saving || !ok ==> r == x
      ensures saving ==> output == old(output) + Encode(Str(x))
    {
      var v := Transfer(Str(x));
      r := v.text;
    }

    // MQL_DateTime: signed milliseconds, written through an unsigned 64-bit integer.
    method TransferTime(milliseconds: Int64) returns (r: Int64)
      requires Valid()
      modifies this
      ensures Valid() && trace == old(trace).Add(Word(ToUint64(r)))
      ensures saving || !ok ==> r == milliseconds
      ensures saving ==> output == old(output) + Encode(Word(ToUint64(milliseconds)))
    {
      r := milliseconds;
      if saving {
        var uintTime := ToUint64(milliseconds);
        uintTime := TransferWord(uintTime);
      } else {
        var uintTime: Word64 := ToUint64(milliseconds); // the source leaves it uninitialised until it is read
        uintTime := TransferWord(uintTime);
        r := ToInt64(uintTime);
        Unsigned64RoundTrip(uintTime);
        Signed64RoundTrip(milliseconds);
      }
    }

    // MQL_DECLARE_ENUM_SERIALIZE: the enumeration's underlying int. A scoped enumeration can hold every int, so
    // loading rejects none.
    method TransferEnum(e: Int32) returns (r: Int32)
      requires Valid()
      modifies this
      ensures Valid() && trace == old(trace).Add(Int(r))
      ensures saving || !ok ==> r == e
      ensures saving ==> output == old(output) + Encode(Int(e))
    {
      r := e;
      var t: Int32 := e;
      t := TransferInt(t);
      r := t;
    }

    // The input holds what was saved under the given log, and then the suffix.
    ghost predicate Finds(saved: Log, suffix: ByteArray) {
      !saving && input == Saved(saved) + suffix
    }

    // It has been read: every value is there, and the reader stands at the suffix.
    ghost predicate Found(saved: Log, suffix: ByteArray)
      reads this
    {
      ok && trace == saved && cursor <= |input| && Remaining() == suffix
    }

    // A loading archive that was asked for the kinds of the values its input starts with has read all of them
    // and stopped exactly where they end.
    lemma HasRead(saved: Log, suffix: ByteArray)
      requires Valid() && Finds(saved, suffix) && trace.kinds == saved.kinds
      ensures Found(saved, suffix)
    {
      RoundTrip(saved.vals, suffix);
    }

    lemma HasReadAny()
      requires Valid()
      ensures forall saved: Log, suffix: ByteArray {:trigger Finds(saved, suffix)} ::
                Finds(saved, suffix) && trace.kinds == saved.kinds ==> Found(saved, suffix)
    {
      forall saved: Log, suffix: ByteArray | Finds(saved, suffix) && trace.kinds == saved.kinds
        ensures Found(saved, suffix)
      {
        HasRead(saved, suffix);
      }
    }
  }
}
