/**
  What the store's operations promise: their exact effects, the invariant
  every record written by the program keeps, and what follows from it over
  any sequence of commands.
*/
module StoreProperties {
  import opened Wrappers
  import opened Store

  // ----- Loading and saving -----

  /** Reloading a saved record gives back the record that was saved. */
  lemma LoadAfterSave(s: State)
    requires s.content.Some?
    ensures Load(Save(s).disk.recordFile) == s.content
    ensures Save(s).disk.writes == s.disk.writes + [SaveRecord(s.content.value)]
    ensures Save(s).disk.workingFile == s.disk.workingFile
  {
  }

  /** A coherent handle is what a fresh run would load from its disk. */
  lemma ReopenCoherent(s: State)
    requires Coherent(s)
    ensures Open(s.disk) == s
  {
  }

  // ----- init -----

  /** With a record file already present, `init` changes nothing at all. */
  lemma InitExisting(s: State, digest: string -> string)
    requires s.disk.recordFile != Absent
    ensures Init(s, digest) == Outcome(s, AlreadyInitialized)
  {
  }

  /** `init` on a missing record creates "baseline" from the tracked file and saves twice. */
  lemma InitFresh(s: State, digest: string -> string)
    requires s.disk.recordFile == Absent
    ensures var o := Init(s, digest);
      var r := Record(1, Some(BASELINE), map[BASELINE := Version(digest(BASELINE), s.disk.workingFile)]);
      && o.status == Ok
      && o.state == State(false, Some(r), Disk(Stored(r), s.disk.workingFile,
                                               s.disk.writes + [SaveRecord(Record(0, None, map[])), SaveRecord(r)]))
  {
  }

  /** Running `init` twice is running it once. */
  lemma InitIdempotent(s: State, digest: string -> string)
    ensures Init(Init(s, digest).state, digest).state == Init(s, digest).state
  {
  }

  /**
    A record file that exists but does not parse leaves the handle
    uninitialized for good: `init` sees the file, every other command sees
    the flag.
  */
  lemma UnparseableRecordIsStuck(s: State, digest: string -> string, name: string, prompt: bool, answer: string)
    requires Coherent(s) && s.disk.recordFile == Unparseable
    ensures s.notInitialized
    ensures Init(s, digest) == Outcome(s, AlreadyInitialized)
    ensures AddVersion(s, digest, name) == Outcome(s, NotInitialized)
    ensures Commit(s) == Outcome(s, NotInitialized)
    ensures Switch(s, name, prompt, answer) == Outcome(s, NotInitialized)
    ensures Remove(s, name) == Outcome(s, NotInitialized)
  {
  }

  // ----- Everything but init refuses an uninitialized handle -----

  lemma UninitializedIsNoOp(s: State, digest: string -> string, name: string, prompt: bool, answer: string)
    requires s.notInitialized
    ensures AddVersion(s, digest, name) == Outcome(s, NotInitialized)
    ensures Commit(s) == Outcome(s, NotInitialized)
    ensures Switch(s, name, prompt, answer) == Outcome(s, NotInitialized)
    ensures Remove(s, name) == Outcome(s, NotInitialized)
  {
  }

  // ----- add_version -----

  /**
    `add_version` sets the entry for `name` from the tracked file, makes it
    current, adds one to the count even when `name` was already there, keeps
    every other entry, and saves.
  */
  lemma AddVersionEffect(s: State, digest: string -> string, name: string)
    requires Coherent(s) && !s.notInitialized
    ensures var o := AddVersion(s, digest, name);
      var r, r' := s.content.value, o.state.content.value;
      && o.status == Ok
      && r'.versions.Keys == r.versions.Keys + {name}
      && r'.versions[name] == Version(digest(name), s.disk.workingFile)
      && (forall k :: k in r.versions && k != name ==> r'.versions[k] == r.versions[k])
      && r'.currentVersion == Some(name)
      && r'.numVersions == r.numVersions + 1
      && !o.state.notInitialized
      && o.state.disk == Disk(Stored(r'), s.disk.workingFile, s.disk.writes + [SaveRecord(r')])
  {
  }

  /** A version's hash depends on its name only, never on the text it stores. */
  lemma HashIgnoresContent(s: State, t: State, digest: string -> string, name: string)
    requires Coherent(s) && !s.notInitialized && Coherent(t) && !t.notInitialized
    ensures AddVersion(s, digest, name).state.content.value.versions[name].hash
         == AddVersion(t, digest, name).state.content.value.versions[name].hash
  {
  }

  // ----- commit -----

  /** `commit` replaces only the current version's text, and needs a current version that exists. */
  lemma CommitEffect(s: State)
    requires Coherent(s) && !s.notInitialized
    ensures var o := Commit(s);
      var r := s.content.value;
      if r.currentVersion.None? || r.currentVersion.value !in r.versions then
        o == Outcome(s, Unchanged)
      else
        var cur := r.currentVersion.value;
        var r' := o.state.content.value;
        && o.status == Ok
        && r'.versions.Keys == r.versions.Keys
        && r'.versions[cur] == Version(r.versions[cur].hash, s.disk.workingFile)
        && (forall k :: k in r.versions && k != cur ==> r'.versions[k] == r.versions[k])
        && r'.currentVersion == r.currentVersion
        && r'.numVersions == r.numVersions
        && !o.state.notInitialized
        && o.state.disk == Disk(Stored(r'), s.disk.workingFile, s.disk.writes + [SaveRecord(r')])
  {
  }

  /** Committing an unedited tracked file leaves the record as it was. */
  lemma CommitInSyncKeepsRecord(s: State)
    requires Coherent(s) && InSync(s)
    ensures Commit(s).status == Ok
    ensures Commit(s).state.content == s.content
  {
    var r := s.content.value;
    var cur := r.currentVersion.value;
    assert r.versions[cur := r.versions[cur].(content := s.disk.workingFile)] == r.versions;
  }

  // ----- switch -----

  /**
    `switch` refuses a missing name and a declined prompt without change; on
    success it makes `name` current, keeps the versions and the count, saves
    the record and only then writes the version's text to the tracked file.
  */
  lemma SwitchEffect(s: State, name: string, prompt: bool, answer: string)
    requires Coherent(s) && !s.notInitialized
    ensures var o := Switch(s, name, prompt, answer);
      var r := s.content.value;
      if name !in r.versions then o == Outcome(s, VersionNotFound)
      else if prompt && answer == "n" then o == Outcome(s, Declined)
      else
        var r' := Record(r.numVersions, Some(name), r.versions);
        && o.status == Ok
        && o.state.content == Some(r')
        && !o.state.notInitialized
        && o.state.disk == Disk(Stored(r'), r.versions[name].content,
                                s.disk.writes + [SaveRecord(r'), WriteWorkingFile(r.versions[name].content)])
  {
  }

  /** Switching away and back restores the tracked file, when nothing was edited in between. */
  lemma SwitchBackRestoresFile(s: State, name: string)
    requires Inv(s) && InSync(s) && !s.notInitialized && name in s.content.value.versions
    ensures var cur := s.content.value.currentVersion.value;
      var back := Switch(Switch(s, name, false, "").state, cur, false, "").state;
      back.content == s.content && back.disk.workingFile == s.disk.workingFile
  {
  }

  // ----- remove -----

  /**
    `remove` refuses, in this order, the baseline, a name that is not a
    version, and the current version; otherwise it deletes exactly that entry,
    takes one off the count and saves. A handle whose record keeps the
    invariant never reaches a panic.
  */
  lemma RemoveEffect(s: State, name: string)
    requires Inv(s) && !s.notInitialized
    ensures var o := Remove(s, name);
      var r := s.content.value;
      if name == BASELINE then o == Outcome(s, BaselineProtected)
      else if name !in r.versions then o == Outcome(s, VersionNotFound)
      else if r.currentVersion == Some(name) then o == Outcome(s, CurrentProtected)
      else
        var r' := Record(r.numVersions - 1, r.currentVersion, r.versions - {name});
        && o.status == Ok
        && o.state.content == Some(r')
        && !o.state.notInitialized
        && o.state.disk == Disk(Stored(r'), s.disk.workingFile, s.disk.writes + [SaveRecord(r')])
  {
  }

  /** The baseline can never be removed. */
  lemma BaselineNeverRemoved(s: State)
    ensures Remove(s, BASELINE).state == s
  {
  }

  // ----- The invariant, one operation at a time -----

  lemma InitKeepsInv(s: State, digest: string -> string)
    requires Inv(s)
    ensures Inv(Init(s, digest).state) && Init(s, digest).status != Panicked
  {
  }

  lemma AddVersionKeepsInv(s: State, digest: string -> string, name: string)
    requires Inv(s)
    ensures Inv(AddVersion(s, digest, name).state) && AddVersion(s, digest, name).status != Panicked
  {
  }

  lemma CommitKeepsInv(s: State)
    requires Inv(s)
    ensures Inv(Commit(s).state) && Commit(s).status != Panicked
  {
  }

  lemma SwitchKeepsInv(s: State, name: string, prompt: bool, answer: string)
    requires Inv(s)
    ensures Inv(Switch(s, name, prompt, answer).state) && Switch(s, name, prompt, answer).status != Panicked
  {
  }

  /** Under the invariant the count is at least the number of entries, so the decrement never goes below zero. */
  lemma RemoveKeepsInv(s: State, name: string)
    requires Inv(s)
    ensures Inv(Remove(s, name).state) && Remove(s, name).status != Panicked
  {
  }

  /** After a successful init, add, commit or switch the tracked file holds the current version's text. */
  lemma SuccessLeavesInSync(s: State, digest: string -> string, name: string, prompt: bool, answer: string)
    requires Inv(s)
    ensures Init(s, digest).status == Ok ==> InSync(Init(s, digest).state)
    ensures AddVersion(s, digest, name).status == Ok ==> InSync(AddVersion(s, digest, name).state)
    ensures Commit(s).status == Ok ==> InSync(Commit(s).state)
    ensures Switch(s, name, prompt, answer).status == Ok ==> InSync(Switch(s, name, prompt, answer).state)
  {
  }

  // ----- Sequences of commands -----

  /** One command of the tool, or the user editing the tracked file between commands. */
  datatype Command =
    | InitCmd
    | AddCmd(name: string)
    | CommitCmd
    | SwitchCmd(name: string, prompt: bool, answer: string)
    | RemoveCmd(name: string)
    | Edit(text: string)

  function Step(s: State, digest: string -> string, c: Command): Outcome
  {
    match c
    case InitCmd => Init(s, digest)
    case AddCmd(n) => AddVersion(s, digest, n)
    case CommitCmd => Commit(s)
    case SwitchCmd(n, p, a) => Switch(s, n, p, a)
    case RemoveCmd(n) => Remove(s, n)
    case Edit(t) => Outcome(s.(disk := s.disk.(workingFile := t)), Ok)
  }

  /** The state after the commands, with the status each one reported. */
  function Run(s: State, digest: string -> string, cs: seq<Command>): (State, seq<Status>)
    decreases |cs|
  {
    if cs == [] then (s, [])
    else
      var o := Step(s, digest, cs[0]);
      var rest := Run(o.state, digest, cs[1..]);
      (rest.0, [o.status] + rest.1)
  }

  /** Running two command sequences one after the other is running their concatenation. */
  lemma {:induction false} RunAppend(s: State, digest: string -> string, cs: seq<Command>, ds: seq<Command>)
    ensures var first := Run(s, digest, cs);
      var second := Run(first.0, digest, ds);
      && Run(s, digest, cs + ds).0 == second.0
      && Run(s, digest, cs + ds).1 == first.1 + second.1
    decreases |cs|
  {
    if cs == [] {
      assert cs + ds == ds;
      assert [] + Run(s, digest, ds).1 == Run(s, digest, ds).1;
    } else {
      assert (cs + ds)[0] == cs[0];
      assert (cs + ds)[1..] == cs[1..] + ds;
      var o := Step(s, digest, cs[0]);
      RunAppend(o.state, digest, cs[1..], ds);
      var first := Run(o.state, digest, cs[1..]);
      var second := Run(first.0, digest, ds);
      assert [o.status] + (first.1 + second.1) == ([o.status] + first.1) + second.1;
    }
  }

  lemma StepKeepsInv(s: State, digest: string -> string, c: Command)
    requires Inv(s)
    ensures Inv(Step(s, digest, c).state) && Step(s, digest, c).status != Panicked
  {
  }

  /** Every command sequence keeps the invariant and never panics. */
  lemma {:induction false} RunKeepsInv(s: State, digest: string -> string, cs: seq<Command>)
    requires Inv(s)
    ensures Inv(Run(s, digest, cs).0)
    ensures Panicked !in Run(s, digest, cs).1
    decreases |cs|
  {
    if cs != [] {
      StepKeepsInv(s, digest, cs[0]);
      RunKeepsInv(Step(s, digest, cs[0]).state, digest, cs[1..]);
    }
  }

  /**
    Starting from a tracked file with no record, no sequence of commands
    panics, and whenever the record exists it holds "baseline", a current
    version that is one of its keys, and a count no smaller than its size.
  */
  lemma FreshFileNeverPanics(working: string, digest: string -> string, cs: seq<Command>)
    ensures var r := Run(Open(Disk(Absent, working, [])), digest, cs);
      && Panicked !in r.1
      && (r.0.content.Some? ==> RecordInv(r.0.content.value))
      && r.0.content == Load(r.0.disk.recordFile)
  {
    RunKeepsInv(Open(Disk(Absent, working, [])), digest, cs);
  }

  // ----- The count -----

  /** Adding a name twice counts it twice: the count can exceed the number of versions. */
  lemma ReAddOvercounts(working: string, digest: string -> string)
    ensures var s := Init(Open(Disk(Absent, working, [])), digest).state;
      var r := AddVersion(s, digest, BASELINE).state.content.value;
      r.numVersions == 2 && |r.versions| == 1
  {
  }

  // ----- Worked examples -----

  /** Init on "hello", edit to "world", add "v2": two versions, "v2" current. */
  lemma AddSecondVersion(digest: string -> string)
    ensures var r := Run(Open(Disk(Absent, "hello", [])), digest, [InitCmd, Edit("world"), AddCmd("v2")]);
      && r.1 == [Ok, Ok, Ok]
      && r.0.content.value.versions.Keys == {BASELINE, "v2"}
      && r.0.content.value.versions[BASELINE].content == "hello"
      && r.0.content.value.versions["v2"].content == "world"
      && r.0.content.value.currentVersion == Some("v2")
  {
  }

  /** From there: removing the current "v2" is refused; after switching to "baseline" it succeeds. */
  lemma SwitchThenRemove(digest: string -> string)
    ensures var s := Run(Open(Disk(Absent, "hello", [])), digest, [InitCmd, Edit("world"), AddCmd("v2")]).0;
      var refused := Remove(s, "v2");
      var switched := Switch(s, BASELINE, false, "");
      var removed := Remove(switched.state, "v2");
      && refused == Outcome(s, CurrentProtected)
      && switched.status == Ok
      && switched.state.disk.workingFile == "hello"
      && switched.state.content.value.currentVersion == Some(BASELINE)
      && removed.status == Ok
      && removed.state.content.value.numVersions == s.content.value.numVersions - 1
      && "v2" !in removed.state.content.value.versions
  {
  }
}
