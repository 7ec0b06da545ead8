/** A file of a collaborative room as the server and the client store it:
    `{ name, content, language }`, kept in an object keyed by file name. */
module Files {
  import opened Dict

  datatype SourceFile = SourceFile(name: string, content: string, language: string)

  /** The `files` object of a room: file name to file, in key order. */
  type FileMap = Dict<SourceFile>

  /** The text of each file named in `ks`, in that order, made by
      `section(name, content)`: the shape of every bundler's
      `Object.entries(files).forEach(... push(section))`. */
  function Sections(files: FileMap, ks: seq<string>, section: (string, string) -> string): (ss: seq<string>)
    requires forall k :: k in ks ==> k in files.vals
    ensures |ss| == |ks|
  {
    if |ks| == 0 then []
    else Sections(files, ks[..|ks| - 1], section) + [section(ks[|ks| - 1], files.vals[ks[|ks| - 1]].content)]
  }

  /** The `i`-th section is the section of the `i`-th named file. */
  lemma {:induction false} SectionsAt(files: FileMap, ks: seq<string>, section: (string, string) -> string)
    requires forall k :: k in ks ==> k in files.vals
    ensures forall i :: 0 <= i < |ks| ==>
      Sections(files, ks, section)[i] == section(ks[i], files.vals[ks[i]].content)
  {
    if |ks| > 0 {
      SectionsAt(files, ks[..|ks| - 1], section);
    }
  }

  /** Pushing the section of one more file. */
  lemma SectionsPush(files: FileMap, ks: seq<string>, k: string, section: (string, string) -> string)
    requires forall k' :: k' in ks ==> k' in files.vals
    requires k in files.vals
    ensures Sections(files, ks + [k], section) == Sections(files, ks, section) + [section(k, files.vals[k].content)]
  {
    assert (ks + [k])[..|ks|] == ks;
  }

  /** One turn of a `forEach` over the keys: the first `i + 1` keys give
      the sections of the first `i` and the section of the `i`-th. */
  lemma SectionsStep(files: FileMap, i: nat, section: (string, string) -> string)
    requires files.Valid() && i < |files.keys|
    ensures forall k :: k in files.keys[..i + 1] ==> k in files.vals
    ensures Sections(files, files.keys[..i + 1], section) ==
      Sections(files, files.keys[..i], section) + [section(files.keys[i], files.vals[files.keys[i]].content)]
  {
    assert files.keys[..i + 1][..i] == files.keys[..i];
  }

  /** The sections of two lists of names, one after the other. */
  lemma {:induction false} SectionsAppend(files: FileMap, a: seq<string>, b: seq<string>, section: (string, string) -> string)
    requires forall k :: k in a + b ==> k in files.vals
    ensures Sections(files, a + b, section) == Sections(files, a, section) + Sections(files, b, section)
    decreases |b|
  {
    if |b| == 0 {
      assert a + b == a;
    } else {
      var b' := b[..|b| - 1];
      assert (a + b)[..|a + b| - 1] == a + b';
      SectionsAppend(files, a, b', section);
    }
  }

  /** Two ways of making sections that agree on the named files give the
      same sections. */
  lemma {:induction false} SectionsAgree(files: FileMap, ks: seq<string>, f: (string, string) -> string, g: (string, string) -> string)
    requires forall k :: k in ks ==> k in files.vals && f(k, files.vals[k].content) == g(k, files.vals[k].content)
    ensures Sections(files, ks, f) == Sections(files, ks, g)
  {
    if |ks| > 0 {
      SectionsAgree(files, ks[..|ks| - 1], f, g);
    }
  }
}
