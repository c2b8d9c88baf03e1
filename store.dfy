/**
  The snapshot store of one tracked file, as values: the record kept on disk,
  the state of a `CitFile` handle together with the two files it touches, and
  one function per operation giving the outcome of a call. The class in
  cit_file.dfy runs the same operations in place and is proved to agree with
  these functions.
*/
module Store {
  import opened Wrappers
  import Locator

  /** One snapshot: the digest of its name and the tracked file's text. */
  datatype Version = Version(hash: string, content: string)

  /** The persisted record (`CitFileContent`). */
  datatype Record = Record(numVersions: nat, currentVersion: Option<string>, versions: map<string, Version>)

  /** The record file on disk: missing, present but not a record, or holding a record. */
  datatype RecordFile = Absent | Unparseable | Stored(record: Record)

  /** A write to disk, in the order the program issues them. */
  datatype Write = SaveRecord(record: Record) | WriteWorkingFile(text: string)

  /** The files one handle touches: its record file, the tracked file, and the writes so far. */
  datatype Disk = Disk(recordFile: RecordFile, workingFile: string, writes: seq<Write>)

  /** A handle (`not_initialized`, `content`) together with the disk it works on. */
  datatype State = State(notInitialized: bool, content: Option<Record>, disk: Disk)

  /** What a call reports. `Panicked` stands for an `unwrap` on `None` or a count below zero: the process stops. */
  datatype Status =
    | Ok
    | NotInitialized
    | AlreadyInitialized
    | VersionNotFound
    | BaselineProtected
    | CurrentProtected
    | Declined
    | Unchanged
    | Panicked

  datatype Outcome = Outcome(state: State, status: Status)

  /** One line of `list_versions`: a name, its hash, and the `<==` marker. */
  datatype Line = Line(name: string, hash: string, isCurrent: bool)

  const BASELINE := "baseline"

  /** `load_cit_file`: succeeds exactly when the file exists and parses. */
  function Load(f: RecordFile): (r: Option<Record>)
    ensures r.Some? <==> f.Stored?
    ensures r.Some? ==> f == Stored(r.value)
  {
    if f.Stored? then Some(f.record) else None
  }

  /** `CitFile::new`: the handle right after loading, uninitialized when loading failed. */
  function Open(d: Disk): (s: State)
    ensures s.disk == d
    ensures Coherent(s)
    ensures s.notInitialized <==> !d.recordFile.Stored?
  {
    State(Load(d.recordFile).None?, Load(d.recordFile), d)
  }

  /** `save_cit_file`: writes the in-memory record, if there is one. */
  function Save(s: State): (t: State)
    ensures t.notInitialized == s.notInitialized && t.content == s.content
    ensures t.disk.workingFile == s.disk.workingFile
    ensures s.content.None? ==> t == s
    ensures s.content.Some? ==> Load(t.disk.recordFile) == s.content
    ensures s.content.Some? ==> t.disk.writes == s.disk.writes + [SaveRecord(s.content.value)]
  {
    match s.content
    case None => s
    case Some(r) => s.(disk := s.disk.(recordFile := Stored(r), writes := s.disk.writes + [SaveRecord(r)]))
  }

  /** The handle agrees with its record file: loading again would give the same handle. */
  ghost predicate Coherent(s: State)
  {
    s.content == Load(s.disk.recordFile) && s.notInitialized == s.content.None?
  }

  /** What every record written by this program satisfies. */
  ghost predicate RecordInv(r: Record)
  {
    && BASELINE in r.versions
    && r.currentVersion.Some?
    && r.currentVersion.value in r.versions
    && r.numVersions >= |r.versions|
  }

  ghost predicate Inv(s: State)
  {
    Coherent(s) && (s.content.Some? ==> RecordInv(s.content.value))
  }

  /** The tracked file holds the current version's text. */
  ghost predicate InSync(s: State)
  {
    && s.content.Some?
    && s.content.value.currentVersion.Some?
    && s.content.value.currentVersion.value in s.content.value.versions
    && s.disk.workingFile == s.content.value.versions[s.content.value.currentVersion.value].content
  }

  /** `init`: refuses when the record file exists; otherwise saves an empty record and adds "baseline". */
  function Init(s: State, digest: string -> string): (o: Outcome)
    ensures Coherent(s) ==> Coherent(o.state)
  {
    if s.disk.recordFile != Absent then Outcome(s, AlreadyInitialized)
    else
      var created := Save(s.(content := Some(Record(0, None, map[]))));
      AddVersion(created.(notInitialized := false), digest, BASELINE)
  }

  /** `add_version`: stores the tracked file's text under `name` and makes it current. */
  function AddVersion(s: State, digest: string -> string, name: string): (o: Outcome)
    ensures Coherent(s) ==> Coherent(o.state)
  {
    if s.notInitialized then Outcome(s, NotInitialized)
    else match s.content
      case None => Outcome(s, Unchanged)
      case Some(r) =>
        var v := Version(Locator.GenerateHash(name, digest), s.disk.workingFile);
        var r' := Record(r.numVersions + 1, Some(name), r.versions[name := v]);
        Outcome(Save(s.(content := Some(r'))), Ok)
  }

  /** `commit`: replaces the current version's text with the tracked file's text. */
  function Commit(s: State): (o: Outcome)
    ensures Coherent(s) ==> Coherent(o.state)
  {
    if s.notInitialized then Outcome(s, NotInitialized)
    else if s.content.None? || s.content.value.currentVersion.None? then Outcome(s, Unchanged)
    else
      var r := s.content.value;
      var cur := r.currentVersion.value;
      if cur !in r.versions then Outcome(s, Unchanged)
      else
        var r' := r.(versions := r.versions[cur := r.versions[cur].(content := s.disk.workingFile)]);
        Outcome(Save(s.(content := Some(r'))), Ok)
  }

  /**
    `switch`: makes `name` current, saves, then writes its text to the tracked
    file. With `prompt`, `answer` is the user's reply with surrounding
    whitespace removed; "n" declines.
  */
  function Switch(s: State, name: string, prompt: bool, answer: string): (o: Outcome)
    ensures Coherent(s) ==> Coherent(o.state)
  {
    if s.notInitialized then Outcome(s, NotInitialized)
    else if s.content.None? then Outcome(s, Unchanged)
    else if name !in s.content.value.versions then Outcome(s, VersionNotFound)
    else if prompt && answer == "n" then Outcome(s, Declined)
    else
      var r := s.content.value;
      var text := r.versions[name].content;
      var saved := Save(s.(content := Some(r.(currentVersion := Some(name)))));
      Outcome(saved.(disk := saved.disk.(workingFile := text, writes := saved.disk.writes + [WriteWorkingFile(text)])), Ok)
  }

  /**
    `remove`: refuses the baseline, a missing name and the current version, in
    that order; otherwise deletes the entry, decrements the count and saves.
  */
  function Remove(s: State, name: string): (o: Outcome)
    ensures Coherent(s) ==> Coherent(o.state)
  {
    if s.notInitialized then Outcome(s, NotInitialized)
    else if name == BASELINE then Outcome(s, BaselineProtected)
    else if s.content.None? then Outcome(s, Panicked)
    else
      var r := s.content.value;
      if name !in r.versions then Outcome(s, VersionNotFound)
      else if r.currentVersion.None? then Outcome(s, Panicked)
      else if r.currentVersion.value == name then Outcome(s, CurrentProtected)
      else if r.numVersions == 0 then Outcome(s, Panicked)
      else
        var r' := Record(r.numVersions - 1, r.currentVersion, r.versions - {name});
        Outcome(Save(s.(content := Some(r'))), Ok)
  }

  /** The line `list_versions` prints for `name`. */
  function LineOf(r: Record, name: string): Line
    requires name in r.versions
  {
    Line(name, r.versions[name].hash, Some(name) == r.currentVersion)
  }

  function Names(lines: seq<Line>): set<string>
  {
    set i | 0 <= i < |lines| :: lines[i].name
  }

  lemma NamesSnoc(lines: seq<Line>, l: Line)
    ensures Names(lines + [l]) == Names(lines) + {l.name}
  {
    var ext := lines + [l];
    forall x | x in Names(lines) ensures x in Names(ext) {
      var i :| 0 <= i < |lines| && lines[i].name == x;
      assert ext[i].name == x;
    }
    assert ext[|lines|].name == l.name;
  }

  /** `lines` lists every version of `r` once, in some order. */
  ghost predicate IsListing(r: Record, lines: seq<Line>)
  {
    && Names(lines) == r.versions.Keys
    && (forall i :: 0 <= i < |lines| ==> lines[i].name in r.versions && lines[i] == LineOf(r, lines[i].name))
    && (forall i, j :: 0 <= i < j < |lines| ==> lines[i].name != lines[j].name)
  }

  /** `lines` lists every version of `r` not in `pending`, once each. */
  ghost predicate PartialListing(r: Record, lines: seq<Line>, pending: set<string>)
  {
    && pending <= r.versions.Keys
    && Names(lines) !! pending
    && Names(lines) + pending == r.versions.Keys
    && (forall i :: 0 <= i < |lines| ==> lines[i].name in r.versions && lines[i] == LineOf(r, lines[i].name))
    && (forall i, j :: 0 <= i < j < |lines| ==> lines[i].name != lines[j].name)
  }

  /** Listing one more pending version keeps the listing partial and correct. */
  lemma ListingStep(r: Record, lines: seq<Line>, pending: set<string>, name: string)
    requires PartialListing(r, lines, pending) && name in pending
    ensures PartialListing(r, lines + [LineOf(r, name)], pending - {name})
  {
    assert forall i :: 0 <= i < |lines| ==> lines[i].name in Names(lines);
    NamesSnoc(lines, LineOf(r, name));
  }

  /** Once nothing is pending, the lines are a listing with one line per version. */
  lemma ListingDone(r: Record, lines: seq<Line>)
    requires PartialListing(r, lines, {})
    ensures IsListing(r, lines) && |lines| == |r.versions|
  {
    ListingLength(r, lines);
  }

  // ----- Listing facts -----

  /** A listing has exactly one line per version. */
  lemma {:induction false} ListingLength(r: Record, lines: seq<Line>)
    requires IsListing(r, lines)
    ensures |lines| == |r.versions|
  {
    DistinctNamesCard(lines);
    assert r.versions.Keys == Names(lines);
  }

  lemma {:induction false} DistinctNamesCard(lines: seq<Line>)
    requires forall i, j :: 0 <= i < j < |lines| ==> lines[i].name != lines[j].name
    ensures |Names(lines)| == |lines|
  {
    if lines != [] {
      var front := lines[..|lines| - 1];
      var last := lines[|lines| - 1];
      DistinctNamesCard(front);
      assert Names(lines) == Names(front) + {last.name} by {
        forall x | x in Names(lines) ensures x in Names(front) + {last.name} {
          var i :| 0 <= i < |lines| && lines[i].name == x;
          if i < |lines| - 1 {
            assert front[i].name == x;
          }
        }
        forall x | x in Names(front) + {last.name} ensures x in Names(lines) {
          if x != last.name {
            var i :| 0 <= i < |front| && front[i].name == x;
            assert lines[i].name == x;
          }
        }
      }
      assert last.name !in Names(front) by {
        forall i | 0 <= i < |front| ensures front[i].name != last.name {
          assert lines[i].name != lines[|lines| - 1].name;
        }
      }
    }
  }
}
