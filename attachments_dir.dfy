/** The attachments-directory check that both Connection and the Imap service
    run before building a Mailbox (the two classes hold identical copies). */
module AttachmentsDir {
  import opened Results
  import opened Filesystem

  /** PHP's `!$path` for a string: the empty string and "0" are falsy. */
  predicate Falsy(path: string)
  {
    path == "" || path == "0"
  }

  /** The check's decision tree over a filesystem: the entries it leaves,
      or the exception it throws (the entries are then untouched). */
  function Checked(entries: map<string, Entry>, refused: set<string>, directoryPath: Option<string>,
                   createIfNotExists: bool, directoryPermissions: int): (r: Result<map<string, Entry>>)
    // a failure is one of the three directory exceptions, about the checked path
    ensures r.Err? ==> r.error.IsDirectoryError() && directoryPath == Some(r.error.path)
    // nothing that existed changes; at most the checked path is added, as a directory
    ensures r.Ok? ==> forall q :: q in entries ==> q in r.value && r.value[q] == entries[q]
    ensures r.Ok? ==> forall q :: q in r.value && q !in entries ==> directoryPath == Some(q) && r.value[q].Dir?
    // a falsy or missing path leaves everything as it is
    ensures directoryPath.None? || Falsy(directoryPath.value) ==> r == Ok(entries)
  {
    if directoryPath.None? || Falsy(directoryPath.value) then Ok(entries)
    else
      var path := directoryPath.value;
      if path in entries then
        match entries[path]
        case File => Err(NotADirectory(path))
        case Dir(_, readable, writable) =>
          if !readable || !writable then Err(NotAccessible(path)) else Ok(entries)
      else if createIfNotExists then
        if path in refused then Err(CannotCreate(path))
        else Ok(entries[path := NewDir(PermissionMode(directoryPermissions))])
      else Ok(entries)
  }

  /** The outcome of the check on a path that is given and not falsy, case by
      case, each in both directions. */
  lemma {:induction false} CheckedOutcomes(entries: map<string, Entry>, refused: set<string>, path: string,
                                           createIfNotExists: bool, directoryPermissions: int)
    requires !Falsy(path)
    ensures var r := Checked(entries, refused, Some(path), createIfNotExists, directoryPermissions);
      && (r == Err(NotADirectory(path)) <==> path in entries && entries[path].File?)
      && (r == Err(NotAccessible(path)) <==>
            path in entries && entries[path].Dir? && !(entries[path].readable && entries[path].writable))
      && (r == Err(CannotCreate(path)) <==> path !in entries && createIfNotExists && path in refused)
      && (r.Ok? && r.value != entries <==> path !in entries && createIfNotExists && path !in refused)
      && (r == Ok(entries) <==> (path in entries && entries[path].Dir? && entries[path].readable && entries[path].writable)
                                || (path !in entries && !createIfNotExists))
  {
    var r := Checked(entries, refused, Some(path), createIfNotExists, directoryPermissions);
    if path !in entries && createIfNotExists && path !in refused {
      assert path in r.value && path !in entries;
    }
  }

  /** A path that is a plain file fails the check whatever the create flag. */
  lemma PlainFileAlwaysFails(entries: map<string, Entry>, refused: set<string>, path: string,
                             createIfNotExists: bool, directoryPermissions: int)
    requires !Falsy(path) && path in entries && entries[path] == File
    ensures Checked(entries, refused, Some(path), createIfNotExists, directoryPermissions) == Err(NotADirectory(path))
  {
  }

  /** A created directory carries the configured permissions read as octal. */
  lemma CreatedWithDecodedMode(entries: map<string, Entry>, refused: set<string>, path: string,
                               directoryPermissions: int)
    requires !Falsy(path) && path !in entries && path !in refused
    ensures var r := Checked(entries, refused, Some(path), true, directoryPermissions);
      r.Ok? && path in r.value && r.value[path].Dir? && r.value[path].mode == PermissionMode(directoryPermissions)
  {
  }

  /** Running the check again on what a successful check left behind changes
      nothing and succeeds, provided the decoded mode lets the owner read and
      write; otherwise a directory it has just created fails the second run. */
  lemma {:induction false} CheckedTwice(entries: map<string, Entry>, refused: set<string>, directoryPath: Option<string>,
                                        createIfNotExists: bool, directoryPermissions: int)
    requires Checked(entries, refused, directoryPath, createIfNotExists, directoryPermissions).Ok?
    ensures var once := Checked(entries, refused, directoryPath, createIfNotExists, directoryPermissions).value;
      var mode := PermissionMode(directoryPermissions);
      && (OwnerCanRead(mode) && OwnerCanWrite(mode) ==>
            Checked(once, refused, directoryPath, createIfNotExists, directoryPermissions) == Ok(once))
      && (once != entries && !(OwnerCanRead(mode) && OwnerCanWrite(mode)) ==>
            Checked(once, refused, directoryPath, createIfNotExists, directoryPermissions) == Err(NotAccessible(directoryPath.value)))
  {
    var once := Checked(entries, refused, directoryPath, createIfNotExists, directoryPermissions).value;
    if once != entries {
      var path := directoryPath.value;
      assert path !in entries && once == entries[path := NewDir(PermissionMode(directoryPermissions))];
    }
  }

  /** The default permissions, 770, give a directory the check accepts. */
  lemma DefaultPermissionsUsable()
    ensures OwnerCanRead(PermissionMode(770)) && OwnerCanWrite(PermissionMode(770))
  {
    PermissionExamples();
  }

  /** `checkAttachmentsDir($directoryPath, $createIfNotExists, $directoryPermissions)`.
      Around mkdir the umask is set to 0 and then restored, so the directory
      gets exactly the decoded mode and the process umask is unchanged. */
  method CheckAttachmentsDir(fs: FileSystem, directoryPath: Option<string>, createIfNotExists: bool,
                             directoryPermissions: int) returns (r: Outcome)
    modifies fs
    ensures var c := Checked(old(fs.entries), fs.refused, directoryPath, createIfNotExists, directoryPermissions);
      && (c.Ok? ==> r == Pass && fs.entries == c.value)
      && (c.Err? ==> r == Fail(c.error) && fs.entries == old(fs.entries))
    ensures fs.umask == old(fs.umask)
  {
    if directoryPath.None? || Falsy(directoryPath.value) {
      return Pass;
    }
    var path := directoryPath.value;
    if fs.FileExists(path) {
      if !fs.IsDir(path) {
        return Fail(NotADirectory(path));
      }
      if !fs.IsReadable(path) || !fs.IsWritable(path) {
        return Fail(NotAccessible(path));
      }
    } else if createIfNotExists {
      var umask := fs.Umask(0);
      MaskedByZero(PermissionMode(directoryPermissions));
      var created := fs.Mkdir(path, PermissionMode(directoryPermissions));
      var _ := fs.Umask(umask);
      if !created {
        return Fail(CannotCreate(path));
      }
    }
    return Pass;
  }

  /** What building a Mailbox does, in both classes: the directory check,
      then the constructor, which throws when the library rejects the
      arguments (`rejection` is its message then). A directory the check
      created stays created when the constructor throws. */
  function Building(entries: map<string, Entry>, refused: set<string>, directoryPath: Option<string>,
                    createIfNotExists: bool, directoryPermissions: int, rejection: Option<string>)
    : (r: (Outcome, map<string, Entry>))
    ensures r.0.Fail? ==> r.0.error.IsBuildError()
    ensures forall q :: q in entries ==> q in r.1 && r.1[q] == entries[q]
  {
    match Checked(entries, refused, directoryPath, createIfNotExists, directoryPermissions)
    case Err(e) => (Fail(e), entries)
    case Ok(after) =>
      if rejection.Some? then (Fail(InvalidMailbox(rejection.value)), after) else (Pass, after)
  }
}
