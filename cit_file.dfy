/**
  The `CitFile` handle as the program has it: an object whose fields the
  commands update in place, working on the files of a `DiskFiles` object.
  Each method is proved to have exactly the outcome the function of the same
  name in module Store gives, so every property proved there holds of it.
*/
module CitFiles {
  import opened Wrappers
  import S = Store
  import Locator

  /** The two files a handle touches, and the writes made to them so far. */
  class DiskFiles {
    var recordFile: S.RecordFile
    var workingFile: string
    var writes: seq<S.Write>

    constructor (recordFile: S.RecordFile, workingFile: string)
      ensures this.recordFile == recordFile && this.workingFile == workingFile && writes == []
    {
      this.recordFile := recordFile;
      this.workingFile := workingFile;
      writes := [];
    }

    ghost function Value(): S.Disk
      reads this
    {
      S.Disk(recordFile, workingFile, writes)
    }
  }

  class CitFile {
    const filepath: string
    const citFilePath: string
    const digest: string -> string
    const disk: DiskFiles
    var notInitialized: bool
    var content: Option<S.Record>

    /** The handle and its disk as a value of module Store. */
    ghost function Snapshot(): S.State
      reads this, disk
    {
      S.State(notInitialized, content, disk.Value())
    }

    ghost predicate Valid()
      reads this, disk
    {
      S.Coherent(Snapshot())
    }

    /** `CitFile::new`: locate the record, load it, and note whether loading failed. */
    constructor (disk: DiskFiles, filepath: string, home: string, digest: string -> string)
      ensures this.disk == disk && this.filepath == filepath && this.digest == digest
      ensures citFilePath == Locator.RecordPath(home, filepath, digest)
      ensures Snapshot() == S.Open(disk.Value())
      ensures Valid()
    {
      this.filepath := filepath;
      this.digest := digest;
      this.disk := disk;
      citFilePath := Locator.RecordPath(home, filepath, digest);
      notInitialized := false;
      content := None;
      new;
      match disk.recordFile
      case Stored(r) => content := Some(r);
      case _ => notInitialized := true;
    }

    /** `save_cit_file`. */
    method SaveCitFile()
      modifies disk
      ensures Snapshot() == S.Save(old(Snapshot()))
    {
      if content.Some? {
        disk.recordFile := S.Stored(content.value);
        disk.writes := disk.writes + [S.SaveRecord(content.value)];
      }
    }

    method Init() returns (status: S.Status)
      requires Valid()
      modifies this, disk
      ensures Valid()
      ensures S.Outcome(Snapshot(), status) == S.Init(old(Snapshot()), digest)
    {
      if disk.recordFile != S.Absent {
        return S.AlreadyInitialized;
      }
      content := Some(S.Record(0, None, map[]));
      SaveCitFile();
      notInitialized := false;
      status := AddVersion(S.BASELINE);
    }

    method AddVersion(name: string) returns (status: S.Status)
      requires Valid()
      modifies this, disk
      ensures Valid()
      ensures S.Outcome(Snapshot(), status) == S.AddVersion(old(Snapshot()), digest, name)
    {
      if notInitialized {
        return S.NotInitialized;
      }
      var text := disk.workingFile;
      if content.Some? {
        var r := content.value;
        var versions := r.versions[name := S.Version(Locator.GenerateHash(name, digest), text)];
        content := Some(S.Record(r.numVersions + 1, Some(name), versions));
        SaveCitFile();
        status := S.Ok;
      } else {
        status := S.Unchanged;
      }
    }

    method Commit() returns (status: S.Status)
      requires Valid()
      modifies this, disk
      ensures Valid()
      ensures S.Outcome(Snapshot(), status) == S.Commit(old(Snapshot()))
    {
      if notInitialized {
        return S.NotInitialized;
      }
      status := S.Unchanged;
      if content.Some? && content.value.currentVersion.Some? {
        var r := content.value;
        var cur := r.currentVersion.value;
        var text := disk.workingFile;
        if cur in r.versions {
          content := Some(r.(versions := r.versions[cur := r.versions[cur].(content := text)]));
          SaveCitFile();
          status := S.Ok;
        }
      }
    }

    /** `switch`; `answer` is the user's reply, already trimmed, read only when `prompt` holds. */
    method Switch(name: string, prompt: bool, answer: string) returns (status: S.Status)
      requires Valid()
      modifies this, disk
      ensures Valid()
      ensures S.Outcome(Snapshot(), status) == S.Switch(old(Snapshot()), name, prompt, answer)
    {
      if notInitialized {
        return S.NotInitialized;
      }
      if content.None? {
        return S.Unchanged;
      }
      if name !in content.value.versions {
        return S.VersionNotFound;
      }
      var text := content.value.versions[name].content;
      if prompt && answer == "n" {
        return S.Declined;
      }
      content := Some(content.value.(currentVersion := Some(name)));
      SaveCitFile();
      disk.workingFile := text;
      disk.writes := disk.writes + [S.WriteWorkingFile(text)];
      status := S.Ok;
    }

    method Remove(name: string) returns (status: S.Status)
      requires Valid()
      modifies this, disk
      ensures Valid()
      ensures S.Outcome(Snapshot(), status) == S.Remove(old(Snapshot()), name)
    {
      if notInitialized {
        return S.NotInitialized;
      }
      if name == S.BASELINE {
        return S.BaselineProtected;
      }
      if content.None? {
        return S.Panicked;
      }
      if name !in content.value.versions {
        return S.VersionNotFound;
      }
      if content.value.currentVersion.None? {
        return S.Panicked;
      }
      if content.value.currentVersion.value == name {
        return S.CurrentProtected;
      }
      var r := content.value;
      if r.numVersions == 0 {
        return S.Panicked;
      }
      content := Some(S.Record(r.numVersions - 1, r.currentVersion, r.versions - {name}));
      SaveCitFile();
      status := S.Ok;
    }

    /**
      `list_versions`: the count, then one line per version in some order,
      the current one marked.
    */
    method ListVersions() returns (status: S.Status, total: nat, lines: seq<S.Line>)
      ensures notInitialized ==> status == S.NotInitialized && lines == []
      ensures !notInitialized && content.None? ==> status == S.Unchanged && lines == []
      ensures !notInitialized && content.Some? ==>
        && status == S.Ok
        && total == content.value.numVersions
        && S.IsListing(content.value, lines)
        && |lines| == |content.value.versions|
    {
      total, lines := 0, [];
      if notInitialized {
        return S.NotInitialized, total, lines;
      }
      if content.None? {
        return S.Unchanged, total, lines;
      }
      var r := content.value;
      total := r.numVersions;
      var pending := r.versions.Keys;
      while pending != {}
        invariant S.PartialListing(r, lines, pending)
        decreases pending
      {
        var name :| name in pending;
        S.ListingStep(r, lines, pending, name);
        lines := lines + [S.LineOf(r, name)];
        pending := pending - {name};
      }
      S.ListingDone(r, lines);
      status := S.Ok;
    }
  }
}
