/** One named mailbox configuration (`Connection`): its parameters, the
    Mailbox it builds once and caches, and its connection tests. */
module Connections {
  import opened Results
  import opened Filesystem
  import opened AttachmentsDir
  import opened PhpImap

  /** `testConnection`'s answer once the Mailbox exists: true iff a stream
      was opened; a ConnectionException is rethrown or turned into false
      depending on `throwExceptions`. */
  function StreamVerdict(outcome: StreamOutcome, throwExceptions: bool): (r: Result<bool>)
    ensures r == Ok(true) <==> outcome.Opened?
    ensures r.Err? <==> throwExceptions && outcome.Refused?
    ensures r.Err? ==> r.error == ConnectionFailed(outcome.lastError)
  {
    match outcome
    case Opened => Ok(true)
    case NoStream => Ok(false)
    case Refused(lastError) => if throwExceptions then Err(ConnectionFailed(lastError)) else Ok(false)
  }

  /** `tryTestConnection`'s answer once the Mailbox exists: every
      ConnectionException propagates; a null stream is not an error. It
      throws exactly when `testConnection(true)` would, with the same error. */
  function StrictVerdict(outcome: StreamOutcome): (r: Outcome)
    ensures r.Fail? <==> StreamVerdict(outcome, true).Err?
    ensures r.Fail? ==> r.error == StreamVerdict(outcome, true).error
    ensures r.Pass? <==> !outcome.Refused?
  {
    match outcome
    case Refused(lastError) => Fail(ConnectionFailed(lastError))
    case _ => Pass
  }

  class Connection {
    const name: string
    const imapPath: string
    const username: string
    const password: string
    const serverEncoding: string
    const attachmentsDir: Option<string>
    const createAttachmentsDirIfNotExists: bool
    const createdAttachmentsDirPermissions: int
    const enabled: bool
    /** The Mailbox built by the first successful `getMailbox`, or null. */
    var mailbox: Mailbox?

    /** The getters `getName()` ... `isEnabled()` are these constant fields. */
    constructor(name: string, imapPath: string, username: string, password: string,
                serverEncoding: string := "UTF-8", attachmentsDir: Option<string> := None,
                createAttachmentsDirIfNotExists: bool := true, createdAttachmentsDirPermissions: int := 770,
                enabled: bool := true)
      ensures this.name == name && this.imapPath == imapPath
      ensures this.username == username && this.password == password
      ensures this.serverEncoding == serverEncoding && this.attachmentsDir == attachmentsDir
      ensures this.createAttachmentsDirIfNotExists == createAttachmentsDirIfNotExists
      ensures this.createdAttachmentsDirPermissions == createdAttachmentsDirPermissions
      ensures this.enabled == enabled
      ensures mailbox == null
    {
      this.name := name;
      this.imapPath := imapPath;
      this.username := username;
      this.password := password;
      this.serverEncoding := serverEncoding;
      this.attachmentsDir := attachmentsDir;
      this.createAttachmentsDirIfNotExists := createAttachmentsDirIfNotExists;
      this.createdAttachmentsDirPermissions := createdAttachmentsDirPermissions;
      this.enabled := enabled;
      mailbox := null;
    }

    /** `new Connection($name, $imapPath, $username, $password)`: the
        optional parameters take their defaults. */
    static method WithDefaults(name: string, imapPath: string, username: string, password: string)
      returns (c: Connection)
      ensures fresh(c) && c.mailbox == null
      ensures c.name == name && c.imapPath == imapPath && c.username == username && c.password == password
      ensures c.serverEncoding == "UTF-8" && c.attachmentsDir == None
      ensures c.createAttachmentsDirIfNotExists && c.createdAttachmentsDirPermissions == 770 && c.enabled
    {
      c := new Connection(name, imapPath, username, password);
    }

    /** The arguments its Mailbox is built from. */
    function Args(): MailboxArgs
    {
      MailboxArgs(imapPath, username, password, attachmentsDir, serverEncoding)
    }

    /** `m` was built from this connection's parameters. */
    predicate Builds(m: Mailbox)
    {
      m.Args() == Args()
    }

    /** What building its Mailbox does to the filesystem, and whether it
        throws: the directory check, then the constructor. */
    function Build(entries: map<string, Entry>, refused: set<string>, env: Environment)
      : (Outcome, map<string, Entry>)
    {
      Building(entries, refused, attachmentsDir, createAttachmentsDirIfNotExists,
               createdAttachmentsDirPermissions, env.rejects(Args()))
    }

    /** Neither the cached Mailbox nor the filesystem changed. */
    twostate predicate Untouched(fs: FileSystem)
      reads this, fs
    {
      mailbox == old(mailbox) && fs.entries == old(fs.entries) && fs.umask == old(fs.umask)
    }

    /** What one `getMailbox()` does to the state: a cached Mailbox is kept
        and nothing else happens; otherwise the Mailbox is built, and either
        that throws and nothing is cached, or a fresh Mailbox built from this
        connection's parameters is cached. The umask is left as it was. */
    twostate predicate Materialised(fs: FileSystem, env: Environment)
      reads this, fs
    {
      && fs.umask == old(fs.umask)
      && (old(mailbox) != null ==> mailbox == old(mailbox) && fs.entries == old(fs.entries))
      && (old(mailbox) == null ==>
            var b := Build(old(fs.entries), fs.refused, env);
            && fs.entries == b.1
            && (b.0.Fail? ==> mailbox == null)
            && (b.0.Pass? ==> mailbox != null && fresh(mailbox) && Builds(mailbox)))
    }

    /** `getMailbox()`: builds the Mailbox at most once and returns the
        cached one from then on. */
    method GetMailbox(fs: FileSystem, env: Environment) returns (r: Result<Mailbox>)
      modifies this, fs
      ensures Materialised(fs, env)
      ensures r.Ok? <==> mailbox != null
      ensures r.Ok? ==> r.value == mailbox
      ensures r.Err? ==> old(mailbox) == null && Build(old(fs.entries), fs.refused, env).0 == Fail(r.error)
    {
      if mailbox == null {
        if attachmentsDir.Some? {
          var checked := CheckAttachmentsDir(fs, attachmentsDir, createAttachmentsDirIfNotExists,
                                             createdAttachmentsDirPermissions);
          if checked.Fail? {
            return Err(checked.error);
          }
        }
        var built := NewMailbox(env, Args());
        if built.Err? {
          return built;
        }
        mailbox := built.value;
      }
      return Ok(mailbox);
    }

    /** `testConnection($throwExceptions = false)`. A disabled connection
        answers false and touches nothing. Otherwise the Mailbox is
        materialised; an exception from building it propagates whatever the
        flag, and then the stream outcome decides. */
    method TestConnection(fs: FileSystem, env: Environment, throwExceptions: bool := false) returns (r: Result<bool>)
      modifies this, fs
      ensures !enabled ==> r == Ok(false) && Untouched(fs)
      ensures enabled ==> Materialised(fs, env)
      ensures enabled && mailbox != null ==> r == StreamVerdict(env.stream(Args()), throwExceptions)
      ensures enabled && mailbox == null ==> r.Err? && Build(old(fs.entries), fs.refused, env).0 == Fail(r.error)
    {
      if !enabled {
        return Ok(false);
      }
      var m := GetMailbox(fs, env);
      if m.Err? {
        return Err(m.error);
      }
      r := StreamVerdict(env.stream(Args()), throwExceptions);
    }

    /** `tryTestConnection()`. A disabled connection throws 'Mailbox is not
        enabled' and touches nothing. Otherwise the Mailbox is materialised
        and every exception propagates. */
    method TryTestConnection(fs: FileSystem, env: Environment) returns (r: Outcome)
      modifies this, fs
      ensures !enabled ==> r == Fail(NotEnabled) && Untouched(fs)
      ensures enabled ==> Materialised(fs, env)
      ensures enabled && mailbox != null ==> r == StrictVerdict(env.stream(Args()))
      ensures enabled && mailbox == null ==> r.Fail? && Build(old(fs.entries), fs.refused, env).0 == Fail(r.error)
    {
      if !enabled {
        return Fail(NotEnabled);
      }
      var m := GetMailbox(fs, env);
      if m.Err? {
        return Fail(m.error);
      }
      r := StrictVerdict(env.stream(Args()));
    }
  }
}
