/** Packets of the trade subsystem that carry no record: a request is a tag, a version response a tag followed by its
    own payload. The response packets that derive from a record are composed in RecordTheorems. */
module Packets {
  import opened Bytes
  import opened Codec
  import opened Archives

  datatype PacketTag = PacketTag(uid: Word64) {
    function Logged(t: Log): Log {
      t.Add(Word(uid))
    }
  }

  // MQL_VersionResponse: two flags of its own.
  datatype VersionResponse = VersionResponse(tag: PacketTag, mql4: bool, mql5: bool) {
    function Logged(t: Log): Log {
      tag.Logged(t).Add(Flag(mql4)).Add(Flag(mql5))
    }
  }

  lemma PacketTagFramed(x: PacketTag, z: PacketTag, t: Log, u: Log)
    ensures Framed(x.Logged(t), t, z.Logged(u), u, x == z)
  {
  }

  lemma VersionResponseFramed(x: VersionResponse, z: VersionResponse, t: Log, u: Log)
    ensures Framed(x.Logged(t), t, z.Logged(u), u, x == z)
  {
    hide KindsOf;
  }

  method SerializePacketTag(ar: Archive, x: PacketTag) returns (r: PacketTag)
    requires ar.Valid()
    modifies ar
    ensures ar.Valid() && ar.trace == r.Logged(old(ar.trace))
    ensures ar.saving ==> r == x
    ensures ar.saving ==>
              ar.output == old(ar.output) + Encode(Word(x.uid))
    ensures forall saved: PacketTag, suffix: ByteArray
              {:trigger ar.Finds(saved.Logged(old(ar.trace)), suffix)} ::
              ar.Finds(saved.Logged(old(ar.trace)), suffix) ==>
                r == saved && ar.Found(saved.Logged(old(ar.trace)), suffix)
  {
    hide Encode;
    var uid := ar.TransferWord(x.uid);
    r := PacketTag(uid);
    ar.HasReadAny();
  }

  method SerializeVersionResponse(ar: Archive, x: VersionResponse) returns (r: VersionResponse)
    requires ar.Valid()
    modifies ar
    ensures ar.Valid() && ar.trace == r.Logged(old(ar.trace))
    ensures ar.saving ==> r == x
    ensures ar.saving ==>
              ar.output == old(ar.output) + Encode(Word(x.tag.uid)) + Encode(Flag(x.mql4)) + Encode(Flag(x.mql5))
    ensures forall saved: VersionResponse, suffix: ByteArray
              {:trigger ar.Finds(saved.Logged(old(ar.trace)), suffix)} ::
              ar.Finds(saved.Logged(old(ar.trace)), suffix) ==>
                r == saved && ar.Found(saved.Logged(old(ar.trace)), suffix)
  {
    hide Encode;
    var tag := SerializePacketTag(ar, x.tag);
    var mql4 := ar.TransferFlag(x.mql4);
    var mql5 := ar.TransferFlag(x.mql5);
    r := VersionResponse(tag, mql4, mql5);
    ar.HasReadAny();
  }
}
