/**
  The store locator: where the record of a tracked file lives. The digest
  (SHA-256 printed as lower-case hex in the program) is a parameter: nothing
  here depends on which function it is.
*/
module Locator {

  /** The fixed root `<home>/.cit/files` (created on demand; creation is not modelled). */
  function CitDir(home: string): (dir: string)
    ensures |dir| == |home| + 11
    ensures dir[..|home|] == home
    ensures dir[|home|..] == "/.cit/files"
  {
    home + "/.cit/files"
  }

  /** The record location: `<home>/.cit/files/<digest of canonical path>.cit`. */
  function RecordPath(home: string, path: string, digest: string -> string): (loc: string)
    ensures |loc| == |CitDir(home)| + 1 + |digest(path)| + 4
    ensures loc[..|CitDir(home)| + 1] == CitDir(home) + "/"
    ensures loc[|loc| - 4..] == ".cit"
  {
    CitDir(home) + "/" + digest(path) + ".cit"
  }

  /**
    The digest of a version name, used as the version's hash. It is the same
    digest, in the same form, that names a record file.
  */
  function GenerateHash(name: string, digest: string -> string): (h: string)
    ensures forall home :: RecordPath(home, name, digest) == CitDir(home) + "/" + h + ".cit"
  {
    digest(name)
  }

  /** Two tracked paths share a record location exactly when their digests agree. */
  lemma {:induction false} RecordPathDeterminedByDigest(home: string, p: string, q: string, digest: string -> string)
    ensures RecordPath(home, p, digest) == RecordPath(home, q, digest) <==> digest(p) == digest(q)
  {
    var dir := CitDir(home) + "/";
    var a, b := RecordPath(home, p, digest), RecordPath(home, q, digest);
    assert a == dir + digest(p) + ".cit";
    assert b == dir + digest(q) + ".cit";
    if a == b {
      assert |digest(p)| == |digest(q)|;
      assert a[|dir|..|a| - 4] == digest(p);
      assert b[|dir|..|b| - 4] == digest(q);
    }
  }

  /** The record of every path sits directly in the root directory, named after the digest. */
  lemma RecordPathRecoversDigest(home: string, path: string, digest: string -> string)
    ensures var loc := RecordPath(home, path, digest);
      loc[|CitDir(home)| + 1..|loc| - 4] == digest(path)
  {
  }
}
