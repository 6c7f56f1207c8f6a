/** Node information: the disk record, and the response packet whose payload ends in a vector of disks. */
module NodeInfo {
  import opened Bytes
  import opened Codec
  import opened Archives

  datatype DiskInfo = DiskInfo(name: Text, availableBytes: Double, totalBytes: Double) {
    function Logged(t: Log): Log {
      t.Add(Str(name)).Add(Word(availableBytes)).Add(Word(totalBytes))
    }
  }

  // A std::vector<DiskInfo>: its length fits in size_t.
  type Disks = ds: seq<DiskInfo> | |ds| < TWO_64

  // The payload in declaration order. A vector is its length followed by its elements.
  datatype NodeInformationResponse = NodeInformationResponse(
    cpuLoad: Double, gpuLoad: Double, ramLoad: Double, swapLoad: Double, uptime: Word64, processCount: Int32,
    ramBytes: Word64, swapBytes: Word64, openedFiles: Int32, socketCount: Int32, disksLoad: Disks
  ) {
    // Everything up to and including the number of disks.
    function LoggedHead(t: Log): Log {
      t.Add(Word(cpuLoad)).Add(Word(gpuLoad)).Add(Word(ramLoad)).Add(Word(swapLoad)).Add(Word(uptime))
       .Add(Int(processCount)).Add(Word(ramBytes)).Add(Word(swapBytes)).Add(Int(openedFiles))
       .Add(Int(socketCount)).Add(Word(|disksLoad|))
    }

    function Logged(t: Log): Log {
      LoggedDisks(LoggedHead(t), disksLoad)
    }
  }

  function LoggedDisks(t: Log, ds: seq<DiskInfo>): Log {
    if ds == [] then t else ds[|ds| - 1].Logged(LoggedDisks(t, ds[..|ds| - 1]))
  }

  lemma {:induction false} LoggedDisksKinds(t: Log, ds: seq<DiskInfo>, es: seq<DiskInfo>)
    requires |ds| == |es|
    ensures LoggedDisks(t, ds).kinds == LoggedDisks(t, es).kinds
  {
    if ds == [] {
    } else {
      LoggedDisksKinds(t, ds[..|ds| - 1], es[..|es| - 1]);
    }
  }

  lemma {:induction false} LoggedDisksInjective(t: Log, ds: seq<DiskInfo>, es: seq<DiskInfo>)
    requires |ds| == |es| && LoggedDisks(t, ds) == LoggedDisks(t, es)
    ensures ds == es
  {
    if ds == [] {
    } else {
      LoggedDisksInjective(t, ds[..|ds| - 1], es[..|es| - 1]);
      assert ds == ds[..|ds| - 1] + [ds[|ds| - 1]];
      assert es == es[..|es| - 1] + [es[|es| - 1]];
    }
  }

  // The bytes of the elements alone.
  function DisksBytes(ds: seq<DiskInfo>): ByteArray {
    Saved(LoggedDisks(START, ds))
  }

  lemma DiskBytes(t: Log, d: DiskInfo)
    ensures Saved(d.Logged(t))
         == Saved(t) + Encode(Str(d.name)) + Encode(Word(d.availableBytes)) + Encode(Word(d.totalBytes))
  {
    hide Encode;
    assert Saved(t.Add(Str(d.name))) == Saved(t) + Encode(Str(d.name));
    assert Saved(t.Add(Str(d.name)).Add(Word(d.availableBytes)))
        == Saved(t) + Encode(Str(d.name)) + Encode(Word(d.availableBytes));
  }

  // The elements stand one behind the other, each with its name, its available and its total bytes.
  lemma DisksInOrder(ds: seq<DiskInfo>, d: DiskInfo)
    ensures DisksBytes([]) == []
    ensures DisksBytes(ds + [d])
         == DisksBytes(ds) + Encode(Str(d.name)) + Encode(Word(d.availableBytes)) + Encode(Word(d.totalBytes))
  {
    assert (ds + [d])[..|ds + [d]| - 1] == ds;
    DiskBytes(LoggedDisks(START, ds), d);
  }

  // Writing disks after a log appends their bytes, whatever the log holds.
  lemma {:induction false} DisksAppend(t: Log, ds: seq<DiskInfo>)
    ensures Saved(LoggedDisks(t, ds)) == Saved(t) + DisksBytes(ds)
  {
    hide Encode;
    if ds == [] {
      assert DisksBytes(ds) == [];
    } else {
      var front, d := ds[..|ds| - 1], ds[|ds| - 1];
      DisksAppend(t, front);
      DiskBytes(LoggedDisks(t, front), d);
      DiskBytes(LoggedDisks(START, front), d);
      var a, b, c := Encode(Str(d.name)), Encode(Word(d.availableBytes)), Encode(Word(d.totalBytes));
      assert Saved(t) + DisksBytes(front) + a + b + c == Saved(t) + (DisksBytes(front) + a + b + c);
    }
  }

  lemma {:induction false} LoggedDisksSplit(t: Log, ds: seq<DiskInfo>, i: nat)
    requires i <= |ds|
    ensures LoggedDisks(t, ds) == LoggedDisks(LoggedDisks(t, ds[..i]), ds[i..])
  {
    if i == |ds| {
      assert ds[..i] == ds;
    } else {
      var front := ds[..|ds| - 1];
      LoggedDisksSplit(t, front, i);
      assert front[..i] == ds[..i] && front[i..] == ds[i..][..|ds| - i - 1];
    }
  }

  lemma DiskInfoFramed(x: DiskInfo, z: DiskInfo, t: Log, u: Log)
    ensures Framed(x.Logged(t), t, z.Logged(u), u, x == z)
  {
    hide KindsOf;
  }

  method SerializeDiskInfo(ar: Archive, x: DiskInfo) returns (r: DiskInfo)
    requires ar.Valid()
    modifies ar
    ensures ar.Valid() && ar.trace == r.Logged(old(ar.trace))
    ensures ar.saving ==> r == x
    ensures ar.saving ==>
              ar.output == old(ar.output) + Encode(Str(x.name)) + Encode(Word(x.availableBytes)) +
              Encode(Word(x.totalBytes))
    ensures forall saved: DiskInfo, suffix: ByteArray
              {:trigger ar.Finds(saved.Logged(old(ar.trace)), suffix)} ::
              ar.Finds(saved.Logged(old(ar.trace)), suffix) ==>
                r == saved && ar.Found(saved.Logged(old(ar.trace)), suffix)
  {
    hide Encode;
    var name := ar.TransferText(x.name);
    var availableBytes := ar.TransferWord(x.availableBytes);
    var totalBytes := ar.TransferWord(x.totalBytes);
    r := DiskInfo(name, availableBytes, totalBytes);
    ar.HasReadAny();
  }

  // After some elements have been loaded from an input that holds a saved vector, they are the first of its
  // elements, and the bytes of the others come next.
  lemma ElementsRead(ar: Archive, t: Log, r: seq<DiskInfo>, saved: seq<DiskInfo>, suffix: ByteArray)
    requires ar.Valid() && ar.trace == LoggedDisks(t, r) && |r| <= |saved|
    requires ar.Finds(LoggedDisks(t, saved), suffix)
    ensures r == saved[..|r|] && ar.Found(LoggedDisks(t, r), DisksBytes(saved[|r|..]) + suffix)
  {
    hide KindsOf, EncodeAll, DecodeAll;
    var head, tail := saved[..|r|], saved[|r|..];
    LoggedDisksSplit(t, saved, |r|);
    DisksAppend(LoggedDisks(t, head), tail);
    Associative(Saved(LoggedDisks(t, head)), DisksBytes(tail), suffix);
    LoggedDisksKinds(t, r, head);
    ar.HasRead(LoggedDisks(t, head), DisksBytes(tail) + suffix);
    LoggedDisksInjective(t, r, head);
  }

  lemma AllElementsRead(ar: Archive, t: Log, r: seq<DiskInfo>, saved: seq<DiskInfo>, suffix: ByteArray)
    requires ar.Valid() && ar.trace == LoggedDisks(t, r) && |r| <= |saved| && (ar.ok ==> |r| == |saved|)
    requires ar.Finds(LoggedDisks(t, saved), suffix)
    ensures r == saved && ar.Found(LoggedDisks(t, saved), suffix)
  {
    hide KindsOf, EncodeAll, DecodeAll, Saved;
    ElementsRead(ar, t, r, saved, suffix);
    NoDisks();
    assert saved[..|saved|] == saved && saved[|saved|..] == [];
    assert [] + suffix == suffix;
  }

  // The elements of the vector, once its length is known. A loading vector is filled one element at a time until
  // the length is reached or a read throws.
  method SerializeElements(ar: Archive, count: Word64, x: Disks) returns (r: Disks)
    requires ar.Valid()
    requires ar.saving ==> count == |x|
    modifies ar
    ensures ar.Valid() && |r| <= count && (ar.ok ==> |r| == count)
    ensures ar.trace == LoggedDisks(old(ar.trace), r)
    ensures ar.saving ==> r == x && ar.output == old(ar.output) + DisksBytes(x)
    ensures forall saved: Disks, suffix: ByteArray {:trigger ar.Finds(LoggedDisks(old(ar.trace), saved), suffix)} ::
              ar.Finds(LoggedDisks(old(ar.trace), saved), suffix) && |saved| == count ==>
                r == saved && ar.Found(LoggedDisks(old(ar.trace), saved), suffix)
  {
    hide KindsOf, EncodeAll, DecodeAll, Saved, Archive.Finds, Archive.Found;
    ghost var t := ar.trace;
    r := [];
    while |r| < count && ar.ok
      invariant ar.Valid() && |r| <= count
      invariant ar.trace == LoggedDisks(t, r)
      invariant ar.saving ==> ar.ok && r == x[..|r|]
    {
      var disk := SerializeDiskInfo(ar, if ar.saving then x[|r|] else DiskInfo([], 0, 0));
      var longer := r + [disk];
      assert longer[..|r|] == r;
      r := longer;
    }
    DisksAppend(t, r);
    forall saved: Disks, suffix: ByteArray | ar.Finds(LoggedDisks(t, saved), suffix) && |saved| == count
      ensures r == saved && ar.Found(LoggedDisks(t, saved), suffix)
    {
      AllElementsRead(ar, t, r, saved, suffix);
    }
  }

  lemma NoDisks()
    ensures DisksBytes([]) == []
  {
  }

  // What comes before the elements has been read.
  lemma HeadRead(ar: Archive, t: Log, saved: NodeInformationResponse, suffix: ByteArray)
    requires ar.Valid() && ar.Finds(saved.Logged(t), suffix)
    requires ar.trace.kinds == saved.LoggedHead(t).kinds
    ensures ar.trace == saved.LoggedHead(t)
  {
    hide EncodeAll, DecodeAll, KindsOf;
    var head := saved.LoggedHead(t);
    DisksAppend(head, saved.disksLoad);
    Associative(Saved(head), DisksBytes(saved.disksLoad), suffix);
    ar.HasRead(head, DisksBytes(saved.disksLoad) + suffix);
  }

  method SerializeNodeInformation(ar: Archive, x: NodeInformationResponse) returns (r: NodeInformationResponse)
    requires ar.Valid()
    modifies ar
    ensures ar.Valid()
    ensures ar.ok ==> ar.trace == r.Logged(old(ar.trace))
    ensures ar.saving ==> r == x
    ensures ar.saving ==>
              ar.output == old(ar.output) + Encode(Word(x.cpuLoad)) + Encode(Word(x.gpuLoad)) +
              Encode(Word(x.ramLoad)) + Encode(Word(x.swapLoad)) + Encode(Word(x.uptime)) +
              Encode(Int(x.processCount)) + Encode(Word(x.ramBytes)) + Encode(Word(x.swapBytes)) +
              Encode(Int(x.openedFiles)) + Encode(Int(x.socketCount)) + Encode(Word(|x.disksLoad|)) +
              DisksBytes(x.disksLoad)
    ensures forall saved: NodeInformationResponse, suffix: ByteArray
              {:trigger ar.Finds(saved.Logged(old(ar.trace)), suffix)} ::
              ar.Finds(saved.Logged(old(ar.trace)), suffix) ==>
                r == saved && ar.Found(saved.Logged(old(ar.trace)), suffix)
  {
    hide Encode, KindsOf, EncodeAll, DecodeAll, Saved, Archive.Finds, Archive.Found;
    ghost var t := ar.trace;
    var cpuLoad := ar.TransferWord(x.cpuLoad);
    var gpuLoad := ar.TransferWord(x.gpuLoad);
    var ramLoad := ar.TransferWord(x.ramLoad);
    var swapLoad := ar.TransferWord(x.swapLoad);
    var uptime := ar.TransferWord(x.uptime);
    var processCount := ar.TransferInt(x.processCount);
    var ramBytes := ar.TransferWord(x.ramBytes);
    var swapBytes := ar.TransferWord(x.swapBytes);
    var openedFiles := ar.TransferInt(x.openedFiles);
    var socketCount := ar.TransferInt(x.socketCount);
    var count := ar.TransferWord(|x.disksLoad|);
    ghost var head := ar.trace;
    forall saved: NodeInformationResponse, suffix: ByteArray | ar.Finds(saved.Logged(t), suffix)
      ensures saved.LoggedHead(t) == head && count == |saved.disksLoad|
    {
      HeadRead(ar, t, saved, suffix);
    }
    var disksLoad := SerializeElements(ar, count, x.disksLoad);
    r := NodeInformationResponse(cpuLoad, gpuLoad, ramLoad, swapLoad, uptime, processCount, ramBytes, swapBytes,
      openedFiles, socketCount, disksLoad);
  }

  // A node report survives the trip with all of its disks, however many there are.
  method SaveThenLoadNodeInformation(x: NodeInformationResponse, y: NodeInformationResponse, suffix: ByteArray)
    returns (r: NodeInformationResponse, rest: ByteArray)
    ensures r == x && rest == suffix
  {
    var out := new Archive.Output();
    var saved := SerializeNodeInformation(out, x);
    var inp := new Archive.Input(out.output + suffix);
    assert inp.Finds(x.Logged(START), suffix);
    r := SerializeNodeInformation(inp, y);
    rest := inp.Remaining();
  }

  // Reports of different lengths cannot be confused either: the number of disks is part of the prefix.
  lemma NodeInformationPrefixFree(
      x: NodeInformationResponse, y: NodeInformationResponse, s: ByteArray, t: ByteArray)
    requires Saved(x.Logged(START)) + s == Saved(y.Logged(START)) + t
    ensures x == y && s == t
  {
    var hx, hy := x.LoggedHead(START), y.LoggedHead(START);
    var dx, dy := DisksBytes(x.disksLoad), DisksBytes(y.disksLoad);
    DisksAppend(hx, x.disksLoad);
    DisksAppend(hy, y.disksLoad);
    Associative(Saved(hx), dx, s);
    Associative(Saved(hy), dy, t);
    PrefixFree(hx, hy, dx + s, dy + t);
    LoggedDisksKinds(START, x.disksLoad, y.disksLoad);
    PrefixFree(LoggedDisks(START, x.disksLoad), LoggedDisks(START, y.disksLoad), s, t);
    LoggedDisksInjective(START, x.disksLoad, y.disksLoad);
  }
}
