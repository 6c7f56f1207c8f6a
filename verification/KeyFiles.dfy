/** The key generator's two ways of writing key pairs to files. */
module KeyFiles {
  import opened Bytes
  import opened Decimal
  import opened Paths

  datatype KeyPair = KeyPair(privateKey: ByteArray, publicKey: ByteArray)

  // How a run ends: without an exception, or by one of these.
  datatype Outcome = Written | PrivateExists | PublicExists | FolderFails

  type Files = map<Path, ByteArray>

  // What the file system lets the run do: the paths an output stream can open, the folders it can create or finds.
  datatype Rights = Rights(opens: Path -> bool, creates: string -> bool)

  // A std::ofstream. One that did not open throws nothing and ignores what is written to it.
  datatype OutFile = OutFile(path: Path, isOpen: bool, position: nat)

  class FileSystem {
    const rights: Rights
    var files: Files

    // The empty path names no file and cannot be opened.
    predicate Valid()
      reads this
    {
      !rights.opens("") && "" !in files
    }

    predicate Exists(path: Path)
      reads this
    {
      path in files
    }

    method CreateDirectories(folder: string) returns (created: bool)
      ensures created == rights.creates(folder)
    {
      created := rights.creates(folder);
    }

    // std::ofstream file(path)
    method Open(path: Path) returns (file: OutFile)
      requires Valid()
      modifies this
      ensures Valid() && file == OutFile(path, rights.opens(path), 0)
      ensures files == if file.isOpen then old(files)[path := []] else old(files)
    {
      file := OutFile(path, rights.opens(path), 0);
      if file.isOpen {
        files := files[path := []];
      }
    }

    // file.write, or operator<<
    method Write(file: OutFile, bytes: ByteArray) returns (next: OutFile)
      requires file.isOpen ==> file.path in files && file.position <= |files[file.path]|
      modifies this
      ensures next == file.(position := file.position + |bytes|)
      ensures files == if file.isOpen
                       then old(files)[file.path := Patch(old(files)[file.path], file.position, bytes)]
                       else old(files)
    {
      if file.isOpen {
        files := files[file.path := Patch(files[file.path], file.position, bytes)];
      }
      next := file.(position := file.position + |bytes|);
    }
  }

  function Patch(content: ByteArray, position: nat, bytes: ByteArray): ByteArray
    requires position <= |content|
  {
    var end := position + |bytes|;
    content[..position] + bytes + (if end < |content| then content[end..] else [])
  }

  // -------------------------------------------------------------------------------------------- separate files

  // Pair number i, counted from 0, goes to the files numbered i + 1.
  function PrivatePath(folder: string, i: nat): Path
    requires i < INT_MAX
  {
    Join(folder, PrivateName(i + 1))
  }

  function PublicPath(folder: string, i: nat): Path
    requires i < INT_MAX
  {
    Join(folder, PublicName(i + 1))
  }

  // A target of pair i exists and must not be overwritten.
  ghost predicate Blocked(before: Files, f: string, g: string, force: bool, i: nat)
    requires i < INT_MAX
  {
    !force && (PrivatePath(f, i) in before || PublicPath(g, i) in before)
  }

  // Where the run stops: the first pair that is blocked, the first pair at all if a folder cannot be created, or the
  // number of pairs.
  ghost predicate StopsAt(rights: Rights, before: Files, f: string, g: string, force: bool, n: nat, k: nat)
    requires n <= INT_MAX
  {
    && k <= n
    && (forall i :: 0 <= i < k ==> !Blocked(before, f, g, force, i))
    && (0 < k ==> rights.creates(f) && rights.creates(g))
    && (k < n ==> Blocked(before, f, g, force, k) || !rights.creates(f) || !rights.creates(g))
  }

  // The files after the first k pairs have been written: targets that open hold their keys, all else is as before.
  ghost predicate Holds(rights: Rights, before: Files, after: Files, f: string, g: string, pairs: seq<KeyPair>, k: nat)
    requires k <= |pairs| <= INT_MAX
  {
    HoldsPairs(rights, before, after, f, g, pairs, k) && KeepsRest(before, after, f, g, k)
  }

  ghost predicate HoldsPairs(
      rights: Rights, before: Files, after: Files, f: string, g: string, pairs: seq<KeyPair>, k: nat)
    requires k <= |pairs| <= INT_MAX
  {
    forall i :: 0 <= i < k ==>
      && Reaches(rights, before, after, PrivatePath(f, i), pairs[i].privateKey)
      && Reaches(rights, before, after, PublicPath(g, i), pairs[i].publicKey)
  }

  // What a stream leaves at its path.
  predicate Reaches(rights: Rights, before: Files, after: Files, p: Path, content: ByteArray) {
    if rights.opens(p) then HoldsFile(after, p, content) else SameFile(before, after, p)
  }

  predicate HoldsFile(files: Files, p: Path, content: ByteArray) {
    p in files && files[p] == content
  }

  ghost predicate KeepsRest(before: Files, after: Files, f: string, g: string, k: nat)
    requires k <= INT_MAX
  {
    forall p :: NoTarget(f, g, k, p) ==> SameFile(before, after, p)
  }

  predicate SameFile(before: Files, after: Files, p: Path) {
    (p in after <==> p in before) && (p in before ==> after[p] == before[p])
  }

  // The path is not among the targets of the first k pairs.
  ghost predicate NoTarget(f: string, g: string, k: nat, p: Path)
    requires k <= INT_MAX
  {
    forall i :: 0 <= i < k ==> p != PrivatePath(f, i) && p != PublicPath(g, i)
  }

  method WritePair(fs: FileSystem, privatePath: Path, publicPath: Path, pair: KeyPair)
    requires fs.Valid() && privatePath != publicPath
    modifies fs
    ensures fs.Valid()
    ensures Reaches(fs.rights, old(fs.files), fs.files, privatePath, pair.privateKey)
    ensures Reaches(fs.rights, old(fs.files), fs.files, publicPath, pair.publicKey)
    ensures forall p :: p != privatePath && p != publicPath ==> SameFile(old(fs.files), fs.files, p)
  {
    hide Patch;
    PatchEmpty(pair.privateKey);
    PatchEmpty(pair.publicKey);
    var privateFile := fs.Open(privatePath);
    var publicFile := fs.Open(publicPath);
    privateFile := fs.Write(privateFile, pair.privateKey);
    publicFile := fs.Write(publicFile, pair.publicKey);
  }

  lemma PatchEmpty(bytes: ByteArray)
    ensures Patch([], 0, bytes) == bytes
  {
  }

  // The int counter of the loop does not overflow for as many pairs as it can count.
  method WriteSeparateKeys(fs: FileSystem, privateFolder: string, publicFolder: string, force: bool,
                           pairs: seq<KeyPair>)
    returns (outcome: Outcome, ghost k: nat)
    requires fs.Valid() && |pairs| <= INT_MAX
    modifies fs
    ensures fs.Valid() && StopsAt(fs.rights, old(fs.files), privateFolder, publicFolder, force, |pairs|, k)
    ensures Holds(fs.rights, old(fs.files), fs.files, privateFolder, publicFolder, pairs, k)
    ensures outcome == if k == |pairs| then Written
                       else if !Blocked(old(fs.files), privateFolder, publicFolder, force, k) then FolderFails
                       else if PrivatePath(privateFolder, k) in old(fs.files) then PrivateExists
                       else PublicExists
  {
    hide PrivatePath, PublicPath, Reaches, KeepsRest;
    ghost var before := fs.files;
    var i := 0;
    k := 0;
    NoPairsYet(fs.rights, before, privateFolder, publicFolder, pairs);
    while i < |pairs|
      invariant fs.Valid() && 0 <= i <= |pairs| && k == i
      invariant forall j :: 0 <= j < i ==> !Blocked(before, privateFolder, publicFolder, force, j)
      invariant 0 < i ==> fs.rights.creates(privateFolder) && fs.rights.creates(publicFolder)
      invariant Holds(fs.rights, before, fs.files, privateFolder, publicFolder, pairs, i)
    {
      var pair := pairs[i];
      i := i + 1;
      var privatePath := Join(privateFolder, PrivateName(i));
      var publicPath := Join(publicFolder, PublicName(i));
      PathsOf(privateFolder, publicFolder, k);
      NextTargets(fs.rights, before, fs.files, privateFolder, publicFolder, pairs, k);
      if !force {
        if fs.Exists(privatePath) {
          return PrivateExists, k;
        }
        if fs.Exists(publicPath) {
          return PublicExists, k;
        }
      }
      var created := fs.CreateDirectories(privateFolder);
      if !created {
        return FolderFails, k;
      }
      created := fs.CreateDirectories(publicFolder);
      if !created {
        return FolderFails, k;
      }
      ghost var sofar := fs.files;
      WritePair(fs, privatePath, publicPath, pair);
      OneMorePair(fs.rights, before, sofar, fs.files, privateFolder, publicFolder, pairs, k);
      k := i;
    }
    outcome := Written;
  }

  lemma NoPairsYet(rights: Rights, before: Files, f: string, g: string, pairs: seq<KeyPair>)
    requires |pairs| <= INT_MAX
    ensures Holds(rights, before, before, f, g, pairs, 0)
  {
  }

  lemma PathsOf(f: string, g: string, k: nat)
    requires k < INT_MAX
    ensures Join(f, PrivateName(k + 1)) == PrivatePath(f, k) && Join(g, PublicName(k + 1)) == PublicPath(g, k)
  {
  }

  // The targets of pair k are none of the targets of the pairs before it, and differ from each other.
  lemma TargetsAreNew(f: string, g: string, k: nat)
    requires k < INT_MAX
    ensures PrivatePath(f, k) != PublicPath(g, k)
    ensures forall i :: 0 <= i < k ==>
              && PrivatePath(f, k) != PrivatePath(f, i) && PrivatePath(f, k) != PublicPath(g, i)
              && PublicPath(g, k) != PrivatePath(f, i) && PublicPath(g, k) != PublicPath(g, i)
  {
    PathsDiffer(f, g, k + 1, k + 1);
    forall i | 0 <= i < k
      ensures PrivatePath(f, k) != PrivatePath(f, i) && PrivatePath(f, k) != PublicPath(g, i)
      ensures PublicPath(g, k) != PrivatePath(f, i) && PublicPath(g, k) != PublicPath(g, i)
    {
      PathsDiffer(f, g, k + 1, i + 1);
      PathsDiffer(f, g, i + 1, k + 1);
    }
  }

  // What stands at the targets of pair k has not changed since the run began.
  lemma NextTargets(
      rights: Rights, before: Files, sofar: Files, f: string, g: string, pairs: seq<KeyPair>, k: nat)
    requires k < |pairs| <= INT_MAX && Holds(rights, before, sofar, f, g, pairs, k)
    ensures PrivatePath(f, k) != PublicPath(g, k)
    ensures SameFile(before, sofar, PrivatePath(f, k)) && SameFile(before, sofar, PublicPath(g, k))
  {
    hide PrivatePath, PublicPath;
    TargetsAreNew(f, g, k);
    assert NoTarget(f, g, k, PrivatePath(f, k)) && NoTarget(f, g, k, PublicPath(g, k));
  }

  lemma OneMorePair(
      rights: Rights, before: Files, sofar: Files, after: Files, f: string, g: string, pairs: seq<KeyPair>, k: nat)
    requires k < |pairs| <= INT_MAX && Holds(rights, before, sofar, f, g, pairs, k)
    requires Reaches(rights, sofar, after, PrivatePath(f, k), pairs[k].privateKey)
    requires Reaches(rights, sofar, after, PublicPath(g, k), pairs[k].publicKey)
    requires forall p :: p != PrivatePath(f, k) && p != PublicPath(g, k) ==> SameFile(sofar, after, p)
    ensures Holds(rights, before, after, f, g, pairs, k + 1)
  {
    hide PrivatePath, PublicPath;
    TargetsAreNew(f, g, k);
    NextTargets(rights, before, sofar, f, g, pairs, k);
    forall p | NoTarget(f, g, k + 1, p)
      ensures SameFile(before, after, p)
    {
      assert NoTarget(f, g, k, p) && p != PrivatePath(f, k) && p != PublicPath(g, k);
      assert SameFile(before, sofar, p) && SameFile(sofar, after, p);
    }
    forall i | 0 <= i < k + 1
      ensures Reaches(rights, before, after, PrivatePath(f, i), pairs[i].privateKey)
      ensures Reaches(rights, before, after, PublicPath(g, i), pairs[i].publicKey)
    {
      if i < k {
        assert SameFile(sofar, after, PrivatePath(f, i)) && SameFile(sofar, after, PublicPath(g, i));
      }
    }
  }

  // The files that a run writes, as their paths are spelled: in the folder that was given, numbered from 1.
  lemma TargetsPrinted(f: string, g: string, i: nat)
    requires i < INT_MAX
    ensures PrivatePath(f, i) == Join(f, "private" + Digits(i + 1) + ".pem")
    ensures PublicPath(g, i) == Join(g, "public" + Digits(i + 1) + ".pem")
    ensures f <= PrivatePath(f, i) && g <= PublicPath(g, i)
    ensures f != "" && f[|f| - 1] != '/' ==> PrivatePath(f, i) == f + "/" + ("private" + Digits(i + 1) + ".pem")
    ensures g != "" && g[|g| - 1] != '/' ==> PublicPath(g, i) == g + "/" + ("public" + Digits(i + 1) + ".pem")
  {
    NamesPrinted(i + 1);
    JoinInFolder(f, PrivateName(i + 1));
    JoinInFolder(g, PublicName(i + 1));
  }

  // Each key is in the file of its kind, its folder and its number, if that file could be opened; if not, what was
  // there still is.
  lemma KeysInTheirFiles(
      rights: Rights, before: Files, after: Files, f: string, g: string, pairs: seq<KeyPair>, k: nat, i: nat)
    requires i < k <= |pairs| <= INT_MAX && Holds(rights, before, after, f, g, pairs, k)
    ensures var p := Join(f, "private" + Digits(i + 1) + ".pem");
            if rights.opens(p) then p in after && after[p] == pairs[i].privateKey
            else (p in after <==> p in before) && (p in before ==> after[p] == before[p])
    ensures var q := Join(g, "public" + Digits(i + 1) + ".pem");
            if rights.opens(q) then q in after && after[q] == pairs[i].publicKey
            else (q in after <==> q in before) && (q in before ==> after[q] == before[q])
  {
    hide PrivatePath, PublicPath;
    TargetsPrinted(f, g, i);
    assert Reaches(rights, before, after, PrivatePath(f, i), pairs[i].privateKey);
    assert Reaches(rights, before, after, PublicPath(g, i), pairs[i].publicKey);
  }

  // A file that a run has changed is a numbered one in one of the two folders.
  lemma OnlyNumberedFilesChange(
      rights: Rights, before: Files, after: Files, f: string, g: string, pairs: seq<KeyPair>, k: nat, p: Path)
    returns (i: nat)
    requires k <= |pairs| <= INT_MAX && Holds(rights, before, after, f, g, pairs, k)
    requires !((p in after <==> p in before) && (p in before ==> after[p] == before[p]))
    ensures i < k && (f <= p || g <= p)
    ensures p == Join(f, "private" + Digits(i + 1) + ".pem") || p == Join(g, "public" + Digits(i + 1) + ".pem")
  {
    hide PrivatePath, PublicPath;
    assert !NoTarget(f, g, k, p);
    i :| 0 <= i < k && (p == PrivatePath(f, i) || p == PublicPath(g, i));
    TargetsPrinted(f, g, i);
  }

  // Without force no file that was there before is changed, however the run ends.
  lemma NothingIsDestroyed(
      rights: Rights, before: Files, after: Files, f: string, g: string, pairs: seq<KeyPair>, k: nat)
    requires |pairs| <= INT_MAX && StopsAt(rights, before, f, g, false, |pairs|, k)
    requires Holds(rights, before, after, f, g, pairs, k)
    ensures forall p :: p in before ==> p in after && after[p] == before[p]
  {
    hide PrivatePath, PublicPath;
    forall p | p in before
      ensures p in after && after[p] == before[p]
    {
      forall i | 0 <= i < k
        ensures p != PrivatePath(f, i) && p != PublicPath(g, i)
      {
        assert !Blocked(before, f, g, false, i);
      }
      assert NoTarget(f, g, k, p) && SameFile(before, after, p);
    }
  }

  // The run goes through all pairs exactly when its folders can be created and, without force, no target existed
  // before it; where it stops and what it leaves behind are determined by what it found.
  lemma OutcomeIsDetermined(
      rights: Rights, before: Files, a: Files, b: Files, f: string, g: string, force: bool, pairs: seq<KeyPair>,
      k: nat, l: nat)
    requires |pairs| <= INT_MAX
    requires StopsAt(rights, before, f, g, force, |pairs|, k) && Holds(rights, before, a, f, g, pairs, k)
    requires StopsAt(rights, before, f, g, force, |pairs|, l) && Holds(rights, before, b, f, g, pairs, l)
    ensures k == l && a == b
    ensures k == |pairs| <==>
            && (pairs == [] || (rights.creates(f) && rights.creates(g)))
            && (force || forall i :: 0 <= i < |pairs| ==> PrivatePath(f, i) !in before && PublicPath(g, i) !in before)
  {
    hide PrivatePath, PublicPath;
    if k == |pairs| {
      forall i | 0 <= i < |pairs| && !force
        ensures PrivatePath(f, i) !in before && PublicPath(g, i) !in before
      {
        assert !Blocked(before, f, g, force, i);
      }
    }
    forall p: Path
      ensures p in a <==> p in b
      ensures p in a && p in b ==> a[p] == b[p]
    {
      if NoTarget(f, g, k, p) {
        assert SameFile(before, a, p) && SameFile(before, b, p);
      }
    }
  }

  // The stream opens, or there is nothing left for it to do.
  predicate CanHold(rights: Rights, before: Files, p: Path, content: ByteArray) {
    rights.opens(p) || HoldsFile(before, p, content)
  }

  // A run that goes through leaves every key in its file exactly when every target can be opened or held its key
  // already: the code does not look at its streams.
  lemma KeysInPlace(rights: Rights, before: Files, after: Files, f: string, g: string, pairs: seq<KeyPair>)
    requires |pairs| <= INT_MAX && Holds(rights, before, after, f, g, pairs, |pairs|)
    ensures (forall i :: 0 <= i < |pairs| ==>
               && HoldsFile(after, PrivatePath(f, i), pairs[i].privateKey)
               && HoldsFile(after, PublicPath(g, i), pairs[i].publicKey))
       <==> (forall i :: 0 <= i < |pairs| ==>
               && CanHold(rights, before, PrivatePath(f, i), pairs[i].privateKey)
               && CanHold(rights, before, PublicPath(g, i), pairs[i].publicKey))
  {
    hide PrivatePath, PublicPath;
    forall i | 0 <= i < |pairs|
      ensures HoldsFile(after, PrivatePath(f, i), pairs[i].privateKey)
         <==> CanHold(rights, before, PrivatePath(f, i), pairs[i].privateKey)
      ensures HoldsFile(after, PublicPath(g, i), pairs[i].publicKey)
         <==> CanHold(rights, before, PublicPath(g, i), pairs[i].publicKey)
    {
      assert Reaches(rights, before, after, PrivatePath(f, i), pairs[i].privateKey);
      assert Reaches(rights, before, after, PublicPath(g, i), pairs[i].publicKey);
    }
  }

  // ---------------------------------------------------------------------------------------------- merged files

  // The keys one after the other, a newline behind each.
  function Merged(keys: seq<ByteArray>): ByteArray {
    if keys == [] then [] else Merged(keys[..|keys| - 1]) + keys[|keys| - 1] + [10]
  }

  function PrivateKeys(pairs: seq<KeyPair>): seq<ByteArray> {
    seq(|pairs|, i requires 0 <= i < |pairs| => pairs[i].privateKey)
  }

  function PublicKeys(pairs: seq<KeyPair>): seq<ByteArray> {
    seq(|pairs|, i requires 0 <= i < |pairs| => pairs[i].publicKey)
  }

  // Pair after pair, each key with a newline behind it, the private ones in one text and the public ones in another.
  lemma MergedInOrder(pairs: seq<KeyPair>, pair: KeyPair)
    ensures Merged(PrivateKeys([])) == [] && Merged(PublicKeys([])) == []
    ensures Merged(PrivateKeys(pairs + [pair])) == Merged(PrivateKeys(pairs)) + pair.privateKey + [10]
    ensures Merged(PublicKeys(pairs + [pair])) == Merged(PublicKeys(pairs)) + pair.publicKey + [10]
  {
    assert PrivateKeys(pairs + [pair]) == PrivateKeys(pairs) + [pair.privateKey];
    assert PublicKeys(pairs + [pair]) == PublicKeys(pairs) + [pair.publicKey];
    MergedOneMore(PrivateKeys(pairs), pair.privateKey);
    MergedOneMore(PublicKeys(pairs), pair.publicKey);
  }

  lemma MergedOneMore(keys: seq<ByteArray>, key: ByteArray)
    ensures Merged(keys + [key]) == Merged(keys) + key + [10]
  {
    assert (keys + [key])[..|keys + [key]| - 1] == keys;
  }

  lemma {:induction false} MergedPrefix(keys: seq<ByteArray>, i: nat)
    requires i <= |keys|
    ensures Merged(keys[..i]) <= Merged(keys)
  {
    if i == |keys| {
      assert keys[..i] == keys;
    } else {
      var front := keys[..|keys| - 1];
      MergedPrefix(front, i);
      assert front[..i] == keys[..i];
    }
  }

  // What one stream has written by pair i, and how it goes on.
  lemma MergedNext(keys: seq<ByteArray>, i: nat)
    requires i < |keys|
    ensures Merged(keys[..i + 1]) == Merged(keys[..i]) + keys[i] + [10]
    ensures Merged(keys[..i]) + keys[i] + [10] <= Merged(keys)
  {
    assert keys[..i + 1][..i] == keys[..i];
    MergedPrefix(keys, i + 1);
  }

  // What a run that does not throw leaves behind, for the texts a and b: nothing happens at other paths or at one
  // that does not open; a shared path that opens exists afterwards.
  ghost predicate MergedWritten(
      rights: Rights, before: Files, after: Files, p: Path, q: Path, a: ByteArray, b: ByteArray)
  {
    && (forall r :: (r != p && r != q) || !rights.opens(r) ==> SameFile(before, after, r))
    && (rights.opens(p) ==> p in after) && (rights.opens(q) ==> q in after)
    && (p != q || a == b ==> Reaches(rights, before, after, p, a) && Reaches(rights, before, after, q, b))
  }

  // Both files come out right exactly when both streams open and the paths differ or the texts do not.
  lemma MergedRight(rights: Rights, before: Files, after: Files, p: Path, q: Path, a: ByteArray, b: ByteArray)
    requires MergedWritten(rights, before, after, p, q, a, b)
    ensures HoldsFile(after, p, a) && HoldsFile(after, q, b) <==>
            CanHold(rights, before, p, a) && CanHold(rights, before, q, b) && (p != q || a == b)
    ensures rights.opens(p) && (p != q || a == b) ==> p in after && after[p] == a
    ensures rights.opens(q) && (p != q || a == b) ==> q in after && after[q] == b
    ensures forall r :: (r != p && r != q) || !rights.opens(r) ==>
              (r in after <==> r in before) && (r in before ==> after[r] == before[r])
  {
    forall r | (r != p && r != q) || !rights.opens(r)
      ensures (r in after <==> r in before) && (r in before ==> after[r] == before[r])
    {
      assert SameFile(before, after, r);
    }
    assert !rights.opens(p) ==> SameFile(before, after, p);
    assert !rights.opens(q) ==> SameFile(before, after, q);
  }

  // With both options left at their default, the empty path, the run succeeds and no key is written anywhere.
  lemma NoPathNoFile(rights: Rights, before: Files, after: Files, a: ByteArray, b: ByteArray)
    requires !rights.opens("") && MergedWritten(rights, before, after, "", "", a, b)
    ensures after == before
  {
    assert forall r :: SameFile(before, after, r);
    assert forall r :: r in after ==> SameFile(before, after, r);
    assert forall r :: r in before ==> SameFile(before, after, r);
  }

  // With the public option alone, the run succeeds and the private keys are lost.
  lemma PublicPathOnly(rights: Rights, before: Files, after: Files, a: ByteArray, b: ByteArray)
    requires !rights.opens("") && "" !in before && rights.opens("public.pem")
    requires MergedWritten(rights, before, after, "", "public.pem", a, b)
    ensures "" !in after && after == before["public.pem" := b]
  {
    assert Reaches(rights, before, after, "public.pem", b);
    assert forall r :: r in after && r != "public.pem" ==> SameFile(before, after, r);
    assert forall r :: r in before && r != "public.pem" ==> SameFile(before, after, r);
  }

  // One path for both options: a single pair of different keys does not come out right.
  lemma OnePathTwice(rights: Rights, before: Files, after: Files, p: Path)
    requires rights.opens(p)
    requires var pairs := [KeyPair([1], [2])];
             MergedWritten(rights, before, after, p, p, Merged(PrivateKeys(pairs)), Merged(PublicKeys(pairs)))
    ensures var pairs := [KeyPair([1], [2])];
            p in after && (after[p] == Merged(PrivateKeys(pairs)) ==> after[p] != Merged(PublicKeys(pairs)))
  {
    var pairs := [KeyPair([1], [2])];
    assert PrivateKeys(pairs) == [[1]] && PublicKeys(pairs) == [[2]];
    assert Merged([]) == [];
    assert [[1]][..0] == [] && [[2]][..0] == [];
    assert Merged([[1]]) == [1, 10] && Merged([[2]]) == [2, 10];
  }

  // Two streams write to two files, or, when the paths are the same, over each other. An existing target stops the
  // run before anything is written.
  method WriteMergedKeys(fs: FileSystem, privatePath: Path, publicPath: Path, force: bool, pairs: seq<KeyPair>)
    returns (outcome: Outcome)
    requires fs.Valid()
    modifies fs
    ensures outcome == if !force && privatePath in old(fs.files) then PrivateExists
                       else if !force && publicPath in old(fs.files) then PublicExists
                       else Written
    ensures !outcome.Written? ==> fs.files == old(fs.files)
    ensures outcome.Written? ==>
              var a, b := Merged(PrivateKeys(pairs)), Merged(PublicKeys(pairs));
              && MergedWritten(fs.rights, old(fs.files), fs.files, privatePath, publicPath, a, b)
              && (HoldsFile(fs.files, privatePath, a) && HoldsFile(fs.files, publicPath, b) <==>
                    && CanHold(fs.rights, old(fs.files), privatePath, a)
                    && CanHold(fs.rights, old(fs.files), publicPath, b)
                    && (privatePath != publicPath || a == b))
              && (privatePath == "" || publicPath == "" ==>
                    !(HoldsFile(fs.files, privatePath, a) && HoldsFile(fs.files, publicPath, b)))
  {
    hide Merged, PrivateKeys, PublicKeys, Patch;
    if !force {
      if fs.Exists(privatePath) {
        return PrivateExists;
      }
      if fs.Exists(publicPath) {
        return PublicExists;
      }
    }
    var privateFile := fs.Open(privatePath);
    var publicFile := fs.Open(publicPath);
    WriteAllPairs(fs, privateFile, publicFile, pairs);
    outcome := Written;
    ghost var a, b := Merged(PrivateKeys(pairs)), Merged(PublicKeys(pairs));
    MergedRight(fs.rights, old(fs.files), fs.files, privatePath, publicPath, a, b);
  }

  // The content of the one file both streams write to, while the two texts they write are the same.
  ghost predicate Shared(files: Files, path: Path, text: ByteArray, position1: nat, position2: nat) {
    && path in files && |files[path]| == Max(position1, position2)
    && files[path] <= text
  }

  function Max(x: nat, y: nat): nat { if x < y then y else x }

  // The files while the streams s and u have written up to their positions in the texts a and b.
  ghost predicate Streams(files: Files, s: OutFile, u: OutFile, a: ByteArray, b: ByteArray) {
    && s.position <= |a| && u.position <= |b|
    && (s.isOpen ==> s.path in files) && (u.isOpen ==> u.path in files)
    && (s.path == u.path ==> s.isOpen == u.isOpen)
    && (s.path != u.path && s.isOpen ==> files[s.path] == a[..s.position])
    && (s.path != u.path && u.isOpen ==> files[u.path] == b[..u.position])
    && (s.path == u.path && s.isOpen ==> s.position <= |files[s.path]| && u.position <= |files[s.path]|)
    && (s.path == u.path && s.isOpen && a == b ==> Shared(files, s.path, a, s.position, u.position))
  }

  // No files but those the two streams have opened have changed, and none has come or gone.
  ghost predicate OnlyThese(before: Files, after: Files, s: OutFile, u: OutFile) {
    && after.Keys == before.Keys
    && forall r :: r in before && !(s.isOpen && r == s.path) && !(u.isOpen && r == u.path) ==> after[r] == before[r]
  }

  method WriteAllPairs(fs: FileSystem, privateFile: OutFile, publicFile: OutFile, pairs: seq<KeyPair>)
    requires privateFile.position == 0 && privateFile.isOpen ==> HoldsFile(fs.files, privateFile.path, [])
    requires privateFile.position == publicFile.position == 0
    requires publicFile.isOpen ==> HoldsFile(fs.files, publicFile.path, [])
    requires privateFile.path == publicFile.path ==> privateFile.isOpen == publicFile.isOpen
    modifies fs
    ensures OnlyThese(old(fs.files), fs.files, privateFile, publicFile)
    ensures var a, b := Merged(PrivateKeys(pairs)), Merged(PublicKeys(pairs));
            privateFile.path != publicFile.path || a == b ==>
              && (privateFile.isOpen ==> HoldsFile(fs.files, privateFile.path, a))
              && (publicFile.isOpen ==> HoldsFile(fs.files, publicFile.path, b))
  {
    ghost var keys1, keys2 := PrivateKeys(pairs), PublicKeys(pairs);
    ghost var a, b := Merged(keys1), Merged(keys2);
    var s, u := privateFile, publicFile;
    for n := 0 to |pairs|
      invariant s == privateFile.(position := s.position) && u == publicFile.(position := u.position)
      invariant OnlyThese(old(fs.files), fs.files, s, u)
      invariant Streams(fs.files, s, u, a, b)
      invariant a[..s.position] == Merged(keys1[..n]) && b[..u.position] == Merged(keys2[..n])
    {
      MergedNext(keys1, n);
      MergedNext(keys2, n);
      s, u := WriteNextPair(fs, s, u, a, b, pairs[n]);
    }
    assert keys1[..|pairs|] == keys1 && keys2[..|pairs|] == keys2;
    assert a[..s.position] == a && b[..u.position] == b;
  }

  // One round of the loop: both keys, then both newlines.
  method WriteNextPair(fs: FileSystem, s: OutFile, u: OutFile, ghost a: ByteArray, ghost b: ByteArray, pair: KeyPair)
    returns (s': OutFile, u': OutFile)
    requires Streams(fs.files, s, u, a, b) && s.position <= |a| && u.position <= |b|
    requires a[..s.position] + pair.privateKey + [10] <= a && b[..u.position] + pair.publicKey + [10] <= b
    modifies fs
    ensures s' == s.(position := s'.position) && u' == u.(position := u'.position)
    ensures Streams(fs.files, s', u', a, b) && s'.position <= |a| && u'.position <= |b|
    ensures a[..s'.position] == a[..s.position] + pair.privateKey + [10]
    ensures b[..u'.position] == b[..u.position] + pair.publicKey + [10]
    ensures OnlyThese(old(fs.files), fs.files, s, u)
  {
    hide Streams;
    s' := WriteFirst(fs, s, u, a, b, pair.privateKey);
    u' := WriteSecond(fs, s', u, a, b, pair.publicKey);
    s' := WriteFirst(fs, s', u', a, b, [10]);
    u' := WriteSecond(fs, s', u', a, b, [10]);
  }

  // The private stream writes the next piece of its text.
  method WriteFirst(fs: FileSystem, s: OutFile, u: OutFile, ghost a: ByteArray, ghost b: ByteArray, piece: ByteArray)
    returns (next: OutFile)
    requires Streams(fs.files, s, u, a, b) && s.position <= |a| && a[..s.position] + piece <= a
    modifies fs
    ensures next == s.(position := s.position + |piece|) && next.position <= |a|
    ensures Streams(fs.files, next, u, a, b) && a[..next.position] == a[..s.position] + piece
    ensures OnlyThese(old(fs.files), fs.files, s, u)
  {
    if s.isOpen {
      PatchExtends(fs.files[s.path], s.position, piece, a);
    }
    next := fs.Write(s, piece);
  }

  method WriteSecond(fs: FileSystem, s: OutFile, u: OutFile, ghost a: ByteArray, ghost b: ByteArray, piece: ByteArray)
    returns (next: OutFile)
    requires Streams(fs.files, s, u, a, b) && u.position <= |b| && b[..u.position] + piece <= b
    modifies fs
    ensures next == u.(position := u.position + |piece|) && next.position <= |b|
    ensures Streams(fs.files, s, next, a, b) && b[..next.position] == b[..u.position] + piece
    ensures OnlyThese(old(fs.files), fs.files, s, u)
  {
    if u.isOpen {
      PatchExtends(fs.files[u.path], u.position, piece, b);
    }
    next := fs.Write(u, piece);
  }

  // Writing the next piece of a text over a part of that text, or at its end, leaves a part of the text.
  lemma PatchExtends(content: ByteArray, i: nat, piece: ByteArray, text: ByteArray)
    requires i <= |content| && i <= |text| && text[..i] + piece <= text
    ensures |Patch(content, i, piece)| == Max(|content|, i + |piece|)
    ensures content <= text ==> Patch(content, i, piece) <= text
    ensures content == text[..i] ==> Patch(content, i, piece) == text[..i + |piece|]
  {
    var patched := Patch(content, i, piece);
    if content <= text {
      forall k | 0 <= k < |patched|
        ensures k < |text| && patched[k] == text[k]
      {
        if i <= k < i + |piece| {
          assert text[k] == (text[..i] + piece)[k];
        }
      }
    }
  }
}
