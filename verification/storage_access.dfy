/** `StorageAccess`: one account's files on the `mydrive` Azure file share, kept as two
    directories, the account directory and its `backup` subdirectory. */
module StorageAccess {
  import opened Wrappers
  import opened Strings
  import opened NameSets
  import Json = NameSetJson

  /** The file in the account directory that persists the set of backed-up names. */
  const BackupDrop: string := "backup.drop"

  /** Names with this suffix are swept into the backup directory by `ListFiles`. */
  const FileSuffix: string := ".file"

  /** A file on the share: text that `Save` wrote (UTF-8, deflated), or bytes uploaded by
      other code, which do not inflate to text. */
  datatype Blob = Deflated(text: string) | Raw

  /** The exceptions the share's operations raise to their callers. */
  datatype StorageError =
    | BackupDropMalformed   // `backup.drop` holds text that is not a JSON name set
    | RenameSourceMissing   // the file to rename does not exist
    | RenameTargetExists    // a plain rename does not replace an existing file

  /** What reading `name` from a directory gives: its text when the file exists and
      inflates, null otherwise. */
  function Read(dir: map<string, Blob>, name: string): Option<string>
  {
    if name in dir && dir[name].Deflated? then Some(dir[name].text) else None
  }

  /** The names of a directory that `ListFiles` sweeps into the backup directory. */
  function SweptNames(dir: map<string, Blob>): set<string>
  {
    set n | n in dir && EndsWith(n, FileSuffix)
  }

  /** The names of a listing that `ListFiles` sweeps, in listing order. */
  function Swept(names: seq<string>): (r: seq<string>)
    ensures Elems(r) == set n | n in names && EndsWith(n, FileSuffix)
    ensures Distinct(names) ==> Distinct(r)
    ensures forall i :: 0 <= i < |r| ==> EndsWith(r[i], FileSuffix)
    decreases |names|
  {
    if names == [] then []
    else
      var init, last := names[..|names| - 1], names[|names| - 1];
      assert names == init + [last];
      assert Distinct(names) ==> Distinct(init) && last !in init by {
        if Distinct(names) {
          assert forall i :: 0 <= i < |init| ==> init[i] == names[i];
        }
      }
      var rest, tail := Swept(init), if EndsWith(last, FileSuffix) then [last] else [];
      assert Elems(rest + tail) == Elems(rest) + Elems(tail);
      assert Distinct(names) ==> Distinct(rest + tail) by {
        if Distinct(names) {
          assert last !in Elems(rest);
          forall i, j | 0 <= i < j < |rest + tail| ensures (rest + tail)[i] != (rest + tail)[j] {
            if j >= |rest| {
              assert (rest + tail)[j] == last && (rest + tail)[i] == rest[i] && rest[i] in Elems(rest);
            }
          }
        }
      }
      rest + tail
  }

  lemma SweptSnoc(names: seq<string>, x: string)
    ensures Swept(names + [x]) == Swept(names) + if EndsWith(x, FileSuffix) then [x] else []
  {
    assert (names + [x])[..|names|] == names;
  }

  lemma BackupDropIsNotSwept()
    ensures !EndsWith(BackupDrop, FileSuffix)
  {
    assert BackupDrop[|BackupDrop| - 1] == 'p' && FileSuffix[|FileSuffix| - 1] == 'e';
  }

  /** The share as one account sees it. */
  class Share {
    /** the account directory, `mydrive/<authId>` */
    var dir: map<string, Blob>
    /** its subdirectory `backup` */
    var backupDir: map<string, Blob>

    constructor (dir: map<string, Blob>, backupDir: map<string, Blob>)
      ensures this.dir == dir && this.backupDir == backupDir
    {
      this.dir := dir;
      this.backupDir := backupDir;
    }

    /** `Delete`: removes the file if it exists; deleting a missing file does nothing. */
    method Delete(name: string)
      modifies this
      ensures dir == old(dir) - {name} && backupDir == old(backupDir)
      ensures name !in old(dir) ==> dir == old(dir)
    {
      dir := dir - {name};
    }

    /** `Save`: deletes the file, then writes the value unless it is null. */
    method Save(name: string, value: Option<string>)
      modifies this
      ensures Read(dir, name) == value
      ensures value.None? ==> name !in dir
      ensures dir == if value.None? then old(dir) - {name} else old(dir)[name := Deflated(value.value)]
      ensures backupDir == old(backupDir)
    {
      Delete(name);
      if value.None? {
        return;
      }
      dir := dir[name := Deflated(value.value)];
    }

    /** `ReadFile`: the file's text, or null when it is missing or does not inflate; it
        never throws. */
    method ReadFile(name: string) returns (r: Option<string>)
      ensures name in dir && dir[name].Deflated? ==> r == Some(dir[name].text)
      ensures name !in dir || dir[name].Raw? ==> r == None
    {
      if name in dir && dir[name].Deflated? {
        r := Some(dir[name].text);
      } else {
        r := None;
      }
    }

    /** `MoveToBackup`: moves an existing file into the backup directory, replacing a file
        of the same name there; a missing file is left alone. */
    method MoveToBackup(name: string)
      modifies this
      ensures name !in old(dir) ==> dir == old(dir) && backupDir == old(backupDir)
      ensures name in old(dir) ==>
        dir == old(dir) - {name} && backupDir == old(backupDir)[name := old(dir)[name]]
    {
      if name in dir {
        backupDir := backupDir[name := dir[name]];
        dir := dir - {name};
      }
    }

    /** `Rename`: renames a file within the account directory; the share refuses a missing
        source and an existing target. */
    method Rename(from: string, to: string) returns (error: Option<StorageError>)
      modifies this
      ensures from !in old(dir) ==> error == Some(RenameSourceMissing)
      ensures from in old(dir) && to in old(dir) ==> error == Some(RenameTargetExists)
      ensures error.Some? ==> dir == old(dir) && backupDir == old(backupDir)
      ensures error.None? ==>
        from in old(dir) && to !in old(dir) &&
        dir == (old(dir) - {from})[to := old(dir)[from]] && backupDir == old(backupDir)
    {
      if from !in dir {
        return Some(RenameSourceMissing);
      }
      if to in dir {
        return Some(RenameTargetExists);
      }
      dir := (dir - {from})[to := dir[from]];
      error := None;
    }

    /** Lines 74-86 of `ListFiles`: the backed-up name set that `backup.drop` holds. When
        the file is missing, unreadable or holds `null`, the set is rebuilt from the backup
        directory's listing and `backup.drop` is rewritten with the serialised text it held
        (`null` when it held none); when it holds anything else that is not a name set,
        deserialising throws. */
    method LoadBackupSet() returns (r: Result<seq<string>, StorageError>)
      modifies this
      ensures var stored := Read(old(dir), BackupDrop);
        r.Err? <==> stored.Some? && Json.Decode(stored.value).Malformed?
      ensures r.Err? ==> r.error == BackupDropMalformed && dir == old(dir)
      ensures var stored := Read(old(dir), BackupDrop);
        r.Ok? && stored.Some? && Json.Decode(stored.value).NameSet? ==>
          r.value == Json.Decode(stored.value).names && dir == old(dir)
      ensures var stored := Read(old(dir), BackupDrop);
        r.Ok? && (stored.None? || Json.Decode(stored.value).NullLiteral?) ==>
          Elems(r.value) == old(backupDir).Keys &&
          dir == old(dir)[BackupDrop := Deflated(Json.EncodeString(stored))]
      ensures r.Ok? ==> Distinct(r.value) && BackupDrop in dir
      ensures backupDir == old(backupDir)
    {
      var str := ReadFile(BackupDrop);
      var decoded := if str.None? then Json.NullLiteral else Json.Decode(str.value);
      if decoded.Malformed? {
        return Err(BackupDropMalformed);
      }
      if decoded.NameSet? {
        return Ok(decoded.names);
      }
      var backupFolderFiles := EnumerateDirectory(backupDir.Keys);
      var list: seq<string> := [];
      for k := 0 to |backupFolderFiles|
        invariant list == AddAll([], backupFolderFiles[..k])
      {
        assert backupFolderFiles[..k + 1][..k] == backupFolderFiles[..k];
        list := Add(list, backupFolderFiles[k]);
      }
      assert backupFolderFiles[..|backupFolderFiles|] == backupFolderFiles;
      Save(BackupDrop, Some(Json.EncodeString(str)));
      r := Ok(list);
    }

    /** Lines 101-104 of `ListFiles`: moves each named file into the backup directory. */
    method MoveAllToBackup(names: seq<string>)
      requires Distinct(names) && Elems(names) <= dir.Keys
      modifies this
      ensures dir == old(dir) - Elems(names)
      ensures backupDir.Keys == old(backupDir).Keys + Elems(names)
      ensures forall n :: n in backupDir ==>
        backupDir[n] == if n in Elems(names) then old(dir)[n] else old(backupDir)[n]
    {
      for i := 0 to |names|
        invariant dir == old(dir) - Elems(names[..i])
        invariant backupDir.Keys == old(backupDir).Keys + Elems(names[..i])
        invariant forall n :: n in backupDir ==>
          backupDir[n] == if n in Elems(names[..i]) then old(dir)[n] else old(backupDir)[n]
      {
        assert Elems(names[..i + 1]) == Elems(names[..i]) + {names[i]} by {
          assert names[..i + 1] == names[..i] + [names[i]];
        }
        assert names[i] !in Elems(names[..i]);
        MoveToBackup(names[i]);
      }
      assert names[..|names|] == names;
    }

    /** `ListFiles`: loads the backed-up name set, lists the account directory, adds every
        `*.file` name to the set, persists the set in `backup.drop` and moves those files
        into the backup directory. The answer is the prior set followed by the listing;
        `prior` and `listed` name the two orders, which the share chooses. */
    method ListFiles() returns (r: Result<seq<string>, StorageError>, ghost prior: seq<string>, ghost listed: seq<string>)
      modifies this
      ensures var stored := Read(old(dir), BackupDrop);
        r.Err? <==> stored.Some? && Json.Decode(stored.value).Malformed?
      ensures r.Err? ==> r.error == BackupDropMalformed && dir == old(dir) && backupDir == old(backupDir)
      ensures var stored := Read(old(dir), BackupDrop);
        stored.Some? && Json.Decode(stored.value).NameSet? ==> prior == Json.Decode(stored.value).names
      ensures var stored := Read(old(dir), BackupDrop);
        r.Ok? && (stored.None? || Json.Decode(stored.value).NullLiteral?) ==>
          Distinct(prior) && Elems(prior) == old(backupDir).Keys
      ensures r.Ok? ==> r.value == prior + listed
      ensures r.Ok? ==> Distinct(listed) && Elems(listed) == old(dir).Keys + {BackupDrop}
      ensures r.Ok? ==>
        dir == (old(dir) - SweptNames(old(dir)))[BackupDrop := Deflated(Json.Encode(AddAll(prior, Swept(listed))))]
      ensures r.Ok? ==> backupDir.Keys == old(backupDir).Keys + SweptNames(old(dir))
      ensures r.Ok? ==> forall n :: n in backupDir ==>
        backupDir[n] == if n in SweptNames(old(dir)) then old(dir)[n] else old(backupDir)[n]
      ensures r.Ok? ==> Distinct(AddAll(prior, Swept(listed)))
      ensures r.Ok? ==> forall n :: n in dir ==> !EndsWith(n, FileSuffix)
    {
      var loaded := LoadBackupSet();
      if loaded.Err? {
        r, prior, listed := Err(loaded.error), [], [];
        return;
      }
      var backupSet := loaded.value;
      prior := backupSet;
      ghost var dirL := dir;
      assert dirL.Keys == old(dir).Keys + {BackupDrop};
      var files := EnumerateDirectory(dir.Keys);
      listed := files;
      var ans, toBackup, backup := Sweep(backupSet, files);
      Save(BackupDrop, Some(Json.Encode(backup)));
      SweptListing(files, old(dir));
      ghost var dir1 := dir;
      BackupDropIsNotSwept();
      MoveAllToBackup(toBackup);
      FinalDirectories(old(dir), dirL, dir1, Json.Encode(backup), SweptNames(old(dir)));
      r := Ok(ans);
    }
  }

  /** Lines 89-99 of `ListFiles`: the answer lists the prior set, then the listing; the
      `*.file` names of the listing are collected in order and added to the set. */
  method Sweep(prior: seq<string>, files: seq<string>) returns (ans: seq<string>, toBackup: seq<string>, backup: seq<string>)
    ensures ans == prior + files
    ensures toBackup == Swept(files)
    ensures backup == AddAll(prior, toBackup)
  {
    ans, toBackup, backup := prior, [], prior;
    for k := 0 to |files|
      invariant ans == prior + files[..k]
      invariant toBackup == Swept(files[..k])
      invariant backup == AddAll(prior, toBackup)
    {
      assert files[..k + 1] == files[..k] + [files[k]];
      SweptSnoc(files[..k], files[k]);
      ans := ans + [files[k]];
      if EndsWith(files[k], FileSuffix) {
        AddAllSnoc(prior, toBackup, files[k]);
        toBackup := toBackup + [files[k]];
        backup := Add(backup, files[k]);
      }
    }
    assert files[..|files|] == files;
  }

  /** The `*.file` names of a listing of the directory with `backup.drop` added are the
      directory's `*.file` names. */
  lemma SweptListing(files: seq<string>, dir0: map<string, Blob>)
    requires Elems(files) == dir0.Keys + {BackupDrop}
    ensures Elems(Swept(files)) == SweptNames(dir0)
  {
    BackupDropIsNotSwept();
    forall n | n in files && EndsWith(n, FileSuffix) ensures n in SweptNames(dir0) {
      assert n in Elems(files);
    }
  }

  /** How the account directory's three states in `ListFiles` compose: before, after loading
      the name set (which may rewrite `backup.drop` only) and after persisting it. */
  lemma FinalDirectories(dir0: map<string, Blob>, dirL: map<string, Blob>, dir1: map<string, Blob>, text: string, swept: set<string>)
    requires swept == SweptNames(dir0) && BackupDrop !in swept
    requires dirL.Keys == dir0.Keys + {BackupDrop}
    requires forall n :: n in dir0 && n != BackupDrop ==> dirL[n] == dir0[n]
    requires dir1 == dirL[BackupDrop := Deflated(text)]
    ensures dir1 - swept == (dir0 - swept)[BackupDrop := Deflated(text)]
    ensures forall n :: n in swept ==> n in dir1 && dir1[n] == dir0[n]
    ensures forall n :: n in dir1 - swept ==> !EndsWith(n, FileSuffix)
  {
    BackupDropIsNotSwept();
  }

  /** The names that listing a directory yields (`GetFilesAndDirectoriesAsync`): each name
      once, in an order the share chooses. */
  method EnumerateDirectory(keys: set<string>) returns (names: seq<string>)
    ensures Distinct(names) && Elems(names) == keys
  {
    names := [];
    var pending := keys;
    while pending != {}
      invariant Distinct(names) && Elems(names) !! pending
      invariant Elems(names) + pending == keys
      decreases pending
    {
      var name :| name in pending;
      names := names + [name];
      pending := pending - {name};
    }
  }
}
