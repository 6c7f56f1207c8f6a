/** Paths of key files: a folder joined with a file name that is numbered by the loop counter. */
module Paths {
  import opened Bytes
  import opened Decimal

  type Path = string

  // std::filesystem::path's operator/ for a relative name.
  function Join(folder: string, name: string): Path {
    if folder == "" || folder[|folder| - 1] == '/' then folder + name else folder + "/" + name
  }

  // The folder comes first, then a separator unless it brings its own, then the name.
  lemma JoinInFolder(folder: string, name: string)
    ensures folder <= Join(folder, name) && name == Join(folder, name)[|Join(folder, name)| - |name|..]
    ensures folder == "" || folder[|folder| - 1] == '/' ==> Join(folder, name) == folder + name
    ensures folder != "" && folder[|folder| - 1] != '/' ==> Join(folder, name) == folder + "/" + name
  {
  }

  function PrivateName(i: Int32): string {
    "private" + ToString(i) + ".pem"
  }

  function PublicName(i: Int32): string {
    "public" + ToString(i) + ".pem"
  }

  ghost predicate NoSeparator(name: string) {
    forall i :: 0 <= i < |name| ==> name[i] != '/'
  }

  // What stands behind the last separator.
  function FileName(p: Path): string {
    if p == "" || p[|p| - 1] == '/' then "" else FileName(p[..|p| - 1]) + [p[|p| - 1]]
  }

  lemma {:induction false} FileNameOfSuffix(prefix: string, name: string)
    requires NoSeparator(name) && (prefix == "" || prefix[|prefix| - 1] == '/')
    ensures FileName(prefix + name) == name
  {
    if name == "" {
      assert prefix + name == prefix;
    } else {
      var front := name[..|name| - 1];
      FileNameOfSuffix(prefix, front);
      assert (prefix + name)[..|prefix + name| - 1] == prefix + front;
      assert name == front + [name[|name| - 1]];
    }
  }

  lemma FileNameOfJoin(folder: string, name: string)
    requires NoSeparator(name)
    ensures FileName(Join(folder, name)) == name
  {
    if folder == "" || folder[|folder| - 1] == '/' {
      FileNameOfSuffix(folder, name);
    } else {
      FileNameOfSuffix(folder + "/", name);
    }
  }

  // Folders and names can be told from the path they make.
  lemma JoinInjective(f: string, a: string, g: string, b: string)
    requires f != "" && f[|f| - 1] != '/' && g != "" && g[|g| - 1] != '/'
    requires NoSeparator(a) && NoSeparator(b) && Join(f, a) == Join(g, b)
    ensures f == g && a == b
  {
    FileNameOfJoin(f, a);
    FileNameOfJoin(g, b);
    var path := Join(f, a);
    assert path[..|f|] == f && path[..|g|] == g;
  }

  // The names of the files, as they are printed.
  lemma NamesPrinted(i: Int32)
    requires i >= 0
    ensures PrivateName(i) == "private" + Digits(i) + ".pem" && PublicName(i) == "public" + Digits(i) + ".pem"
    ensures PrivateName(1) == "private1.pem" && PublicName(1) == "public1.pem"
  {
    DigitsPrinted(1);
  }

  lemma NamesHaveNoSeparator(i: Int32)
    requires i >= 0
    ensures NoSeparator(PrivateName(i)) && NoSeparator(PublicName(i))
  {
    DigitsSpell(i);
  }

  lemma NumberedNames(i: Int32, j: Int32)
    requires i >= 0 && j >= 0
    ensures PrivateName(i) != PublicName(j)
    ensures PrivateName(i) == PrivateName(j) ==> i == j
    ensures PublicName(i) == PublicName(j) ==> i == j
  {
    assert PrivateName(i)[1] == 'r' && PublicName(j)[1] == 'u';
    var di, dj := ToString(i), ToString(j);
    if PrivateName(i) == PrivateName(j) {
      assert PrivateName(i)[7..|PrivateName(i)| - 4] == di && PrivateName(j)[7..|PrivateName(j)| - 4] == dj;
      DigitsInjective(i, j);
    }
    if PublicName(i) == PublicName(j) {
      assert PublicName(i)[6..|PublicName(i)| - 4] == di && PublicName(j)[6..|PublicName(j)| - 4] == dj;
      DigitsInjective(i, j);
    }
  }

  // No two key files of a run share a path, whether or not the two folders do.
  lemma PathsDiffer(f: string, g: string, i: Int32, j: Int32)
    requires i >= 0 && j >= 0
    ensures Join(f, PrivateName(i)) != Join(g, PublicName(j))
    ensures Join(f, PrivateName(i)) == Join(f, PrivateName(j)) ==> i == j
    ensures Join(g, PublicName(i)) == Join(g, PublicName(j)) ==> i == j
  {
    NamesHaveNoSeparator(i);
    NamesHaveNoSeparator(j);
    NumberedNames(i, j);
    FileNameOfJoin(f, PrivateName(i));
    FileNameOfJoin(f, PrivateName(j));
    FileNameOfJoin(g, PublicName(i));
    FileNameOfJoin(g, PublicName(j));
  }
}
