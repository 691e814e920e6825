/** The older registry service (`Imap`): a configuration of named
    connections and a cache of Mailbox instances in `$instances`. */
module ImapService {
  import opened Results
  import opened Filesystem
  import opened AttachmentsDir
  import opened PhpImap
  import opened PhpArray
  import Connections

  /** One entry of the configured connections, as the service reads it. */
  datatype ConnectionOptions = ConnectionOptions(
    mailbox: string,
    username: string,
    password: string,
    attachmentsDir: Option<string>,
    createAttachmentsDirIfNotExists: bool,
    createdAttachmentsDirPermissions: int,
    serverEncoding: string)

  /** A key of `$instances`: a connection name, as `get` stores it, or a
      list position, as `getAll` stores it. */
  datatype Key = Name(name: string) | Position(index: nat)

  /** The arguments of the Mailbox built for the options `o`. */
  function ArgsOf(o: ConnectionOptions): MailboxArgs
  {
    MailboxArgs(o.mailbox, o.username, o.password, o.attachmentsDir, o.serverEncoding)
  }

  /** `m` was built from the options `o`. */
  predicate Builds(o: ConnectionOptions, m: Mailbox)
  {
    m.Args() == ArgsOf(o)
  }

  /** What building the Mailbox of `o` does: the directory check when
      `attachments_dir` is set, then the constructor. */
  function OptionsBuild(entries: map<string, Entry>, refused: set<string>, o: ConnectionOptions, env: Environment)
    : (Outcome, map<string, Entry>)
  {
    Building(entries, refused, o.attachmentsDir, o.createAttachmentsDirIfNotExists,
             o.createdAttachmentsDirPermissions, env.rejects(ArgsOf(o)))
  }

  /** The iterations of `getMailboxes` over `options` in order: the first
      exception ends the run, and the directories created before it stay
      created. */
  function BuildAll(entries: map<string, Entry>, refused: set<string>, options: seq<ConnectionOptions>,
                    env: Environment): (r: (Outcome, map<string, Entry>))
    ensures r.0.Fail? ==> r.0.error.IsBuildError()
    ensures forall q :: q in entries ==> q in r.1 && r.1[q] == entries[q]
  {
    if options == [] then (Pass, entries)
    else
      var before := BuildAll(entries, refused, options[..|options| - 1], env);
      if before.0.Fail? then before
      else OptionsBuild(before.1, refused, options[|options| - 1], env)
  }

  /** One more iteration after a passing prefix. */
  lemma BuildAllStep(entries: map<string, Entry>, refused: set<string>, options: seq<ConnectionOptions>,
                     env: Environment, i: nat)
    requires i < |options|
    requires BuildAll(entries, refused, options[..i], env).0.Pass?
    ensures BuildAll(entries, refused, options[..i + 1], env)
         == OptionsBuild(BuildAll(entries, refused, options[..i], env).1, refused, options[i], env)
  {
    assert options[..i + 1][..i] == options[..i];
  }

  /** Once a prefix of the iterations has thrown, the later ones never run. */
  lemma {:induction false} BuildAllStopsAtFailure(entries: map<string, Entry>, refused: set<string>,
                                                  options: seq<ConnectionOptions>, env: Environment, k: nat)
    requires k <= |options|
    requires BuildAll(entries, refused, options[..k], env).0.Fail?
    ensures BuildAll(entries, refused, options, env) == BuildAll(entries, refused, options[..k], env)
  {
    if k < |options| {
      var init := options[..|options| - 1];
      assert init[..k] == options[..k];
      BuildAllStopsAtFailure(entries, refused, init, env, k);
    } else {
      assert options[..k] == options;
    }
  }

  /** The run passes only if each iteration passes on what the previous
      ones left. */
  lemma {:induction false} BuildAllPassesOnlyIfEachPasses(entries: map<string, Entry>, refused: set<string>,
                                                          options: seq<ConnectionOptions>, env: Environment, k: nat)
    requires k < |options|
    requires BuildAll(entries, refused, options, env).0.Pass?
    ensures BuildAll(entries, refused, options[..k], env).0.Pass?
    ensures OptionsBuild(BuildAll(entries, refused, options[..k], env).1, refused, options[k], env).0.Pass?
  {
    var init := options[..|options| - 1];
    if k < |options| - 1 {
      assert init[..k] == options[..k] && init[k] == options[k];
      BuildAllPassesOnlyIfEachPasses(entries, refused, init, env, k);
    } else {
      assert options[..k] == init;
    }
  }

  /** The list that `getAll` stores in `$instances`: keyed by position. */
  function Positions(mailboxes: seq<Mailbox>): (m: map<Key, Mailbox>)
    ensures forall k :: k in m ==> k.Position? && k.index < |mailboxes|
    ensures forall i :: 0 <= i < |mailboxes| ==> Position(i) in m && m[Position(i)] == mailboxes[i]
  {
    map i | 0 <= i < |mailboxes| :: Position(i) := mailboxes[i]
  }

  /** The shared body of `getMailbox` and of one `getMailboxes` iteration:
      the directory check when `attachments_dir` is set, then a new Mailbox. */
  method BuildMailbox(config: ConnectionOptions, fs: FileSystem, env: Environment) returns (r: Result<Mailbox>)
    modifies fs
    ensures fs.umask == old(fs.umask)
    ensures var b := OptionsBuild(old(fs.entries), fs.refused, config, env);
      && fs.entries == b.1
      && (b.0.Fail? ==> r == Err(b.0.error))
      && (b.0.Pass? ==> r.Ok? && fresh(r.value) && Builds(config, r.value))
  {
    if config.attachmentsDir.Some? {
      var checked := CheckAttachmentsDir(fs, config.attachmentsDir, config.createAttachmentsDirIfNotExists,
                                         config.createdAttachmentsDirPermissions);
      if checked.Fail? {
        return Err(checked.error);
      }
    }
    r := NewMailbox(env, ArgsOf(config));
  }

  /** One iteration of `getMailboxes`, once the iterations before it have
      run without an exception. */
  method NextMailbox(config: seq<ConnectionOptions>, i: nat, fs: FileSystem, env: Environment,
                     ghost entries: map<string, Entry>) returns (r: Result<Mailbox>)
    requires i < |config|
    requires BuildAll(entries, fs.refused, config[..i], env) == (Pass, fs.entries)
    modifies fs
    ensures fs.umask == old(fs.umask)
    ensures r.Ok? ==>
      && BuildAll(entries, fs.refused, config[..i + 1], env) == (Pass, fs.entries)
      && fresh(r.value) && Builds(config[i], r.value)
    ensures r.Err? ==> BuildAll(entries, fs.refused, config, env) == (Fail(r.error), fs.entries)
  {
    BuildAllStep(entries, fs.refused, config, env, i);
    r := BuildMailbox(config[i], fs, env);
    if r.Err? {
      BuildAllStopsAtFailure(entries, fs.refused, config, env, i + 1);
    }
  }

  /** The loop of `getMailboxes` over the configured options, in order. */
  method BuildEach(config: seq<ConnectionOptions>, fs: FileSystem, env: Environment)
    returns (r: Result<seq<Mailbox>>)
    modifies fs
    ensures fs.umask == old(fs.umask)
    ensures BuildAll(old(fs.entries), fs.refused, config, env) == (if r.Ok? then Pass else Fail(r.error), fs.entries)
    ensures r.Ok? ==>
      && |r.value| == |config|
      && forall i :: 0 <= i < |config| ==> fresh(r.value[i]) && Builds(config[i], r.value[i])
  {
    var mailboxes: seq<Mailbox> := [];
    var i := 0;
    while i < |config|
      invariant 0 <= i <= |config|
      invariant BuildAll(old(fs.entries), fs.refused, config[..i], env) == (Pass, fs.entries)
      invariant fs.umask == old(fs.umask)
      invariant |mailboxes| == i
      invariant forall j :: 0 <= j < i ==> fresh(mailboxes[j]) && Builds(config[j], mailboxes[j])
    {
      var m := NextMailbox(config, i, fs, env, old(fs.entries));
      if m.Err? {
        return Err(m.error);
      }
      mailboxes := mailboxes + [m.value];
      i := i + 1;
    }
    assert config[..i] == config;
    return Ok(mailboxes);
  }

  class Imap {
    /** The configured connections, in configuration order. */
    const connections: OrderedMap<ConnectionOptions>
    var instances: map<Key, Mailbox>

    ghost predicate Valid()
    {
      connections.Valid()
    }

    constructor(connections: OrderedMap<ConnectionOptions>)
      requires connections.Valid()
      ensures Valid()
      ensures this.connections == connections && instances == map[]
    {
      this.connections := connections;
      instances := map[];
    }

    /** What one `getMailbox($name)` does: an unknown name throws and
        nothing changes; otherwise the Mailbox is built, and either that
        throws, or a fresh Mailbox built from the options is the result. */
    twostate predicate Built(name: string, fs: FileSystem, env: Environment, new r: Result<Mailbox>)
      reads fs
    {
      && fs.umask == old(fs.umask)
      && (name !in connections.values ==> r == Err(NotConfigured(name)) && fs.entries == old(fs.entries))
      && (name in connections.values ==>
            var b := OptionsBuild(old(fs.entries), fs.refused, connections.values[name], env);
            && fs.entries == b.1
            && (b.0.Fail? ==> r == Err(b.0.error))
            && (b.0.Pass? ==> r.Ok? && fresh(r.value) && Builds(connections.values[name], r.value)))
    }

    /** `getMailbox($name)`: always a new Mailbox; the cache is not touched. */
    method GetMailbox(name: string, fs: FileSystem, env: Environment) returns (r: Result<Mailbox>)
      modifies fs
      ensures Built(name, fs, env, r)
    {
      if name !in connections.values {
        return Err(NotConfigured(name));
      }
      r := BuildMailbox(connections.values[name], fs, env);
    }

    /** `get($name, $flush = false)`: without flush a cached entry is
        returned as it is; otherwise a new Mailbox replaces the entry of
        `$name` only. When building throws, the cache is left as it was. */
    method Get(name: string, fs: FileSystem, env: Environment, flush: bool := false) returns (r: Result<Mailbox>)
      modifies this, fs
      ensures !flush && Name(name) in old(instances) ==>
        && r == Ok(old(instances)[Name(name)]) && instances == old(instances)
        && fs.entries == old(fs.entries) && fs.umask == old(fs.umask)
      ensures flush || Name(name) !in old(instances) ==>
        && Built(name, fs, env, r)
        && (r.Ok? ==> instances == old(instances)[Name(name) := r.value])
        && (r.Err? ==> instances == old(instances))
    {
      if flush || Name(name) !in instances {
        var m := GetMailbox(name, fs, env);
        if m.Err? {
          return m;
        }
        instances := instances[Name(name) := m.value];
      }
      return Ok(instances[Name(name)]);
    }

    /** What one `getMailboxes()` does: the iterations run in configuration
        order; if one throws, that is the result, otherwise one fresh Mailbox
        per configured connection, in order. */
    twostate predicate AllBuilt(fs: FileSystem, env: Environment, new r: Result<seq<Mailbox>>)
      requires Valid()
      reads fs
    {
      && fs.umask == old(fs.umask)
      && BuildAll(old(fs.entries), fs.refused, connections.Items(), env)
         == (if r.Ok? then Pass else Fail(r.error), fs.entries)
      && (r.Ok? ==>
            && |r.value| == connections.Count()
            && forall i :: 0 <= i < |r.value| ==> fresh(r.value[i]) && Builds(connections.Items()[i], r.value[i]))
    }

    /** `getMailboxes()`. The `isset($this->connections)` guard never fires:
        the typed property is always set by the constructor. */
    method GetMailboxes(fs: FileSystem, env: Environment) returns (r: Result<seq<Mailbox>>)
      requires Valid()
      modifies fs
      ensures AllBuilt(fs, env, r)
    {
      r := BuildEach(connections.Items(), fs, env);
    }

    /** `getAll()`: the whole cache is replaced by the new list, keyed by
        position; when building throws, the cache is unchanged. */
    method GetAll(fs: FileSystem, env: Environment) returns (r: Result<seq<Mailbox>>)
      requires Valid()
      modifies this, fs
      ensures AllBuilt(fs, env, r)
      ensures r.Ok? ==> instances == Positions(r.value)
      ensures r.Err? ==> instances == old(instances)
    {
      r := GetMailboxes(fs, env);
      if r.Ok? {
        instances := Positions(r.value);
      }
    }

    /** `testConnection($name, $throwExceptions = false)`: a new Mailbox
        every time, no enabled check, and the cache is neither read nor
        written. An unknown name or an exception from building propagates
        whatever the flag. */
    method TestConnection(name: string, fs: FileSystem, env: Environment, throwExceptions: bool := false)
      returns (r: Result<bool>)
      modifies fs
      ensures fs.umask == old(fs.umask)
      ensures name !in connections.values ==> r == Err(NotConfigured(name)) && fs.entries == old(fs.entries)
      ensures name in connections.values ==>
        var o := connections.values[name];
        var b := OptionsBuild(old(fs.entries), fs.refused, o, env);
        && fs.entries == b.1
        && (b.0.Fail? ==> r == Err(b.0.error))
        && (b.0.Pass? ==> r == Connections.StreamVerdict(env.stream(ArgsOf(o)), throwExceptions))
    {
      var m := GetMailbox(name, fs, env);
      if m.Err? {
        return Err(m.error);
      }
      r := Connections.StreamVerdict(env.stream(m.value.Args()), throwExceptions);
    }
  }
}
