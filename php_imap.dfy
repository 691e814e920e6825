/** The part of the php-imap library the bundle touches: the Mailbox client,
    its constructor's validation and the outcome of opening its IMAP stream.
    The library itself is not part of this model; a Mailbox only records
    what it was built from. */
module PhpImap {
  import opened Results

  /** The arguments of `new Mailbox($imapPath, $login, $password,
      $attachmentsDir, $serverEncoding)`. They name one account on one
      server. */
  datatype MailboxArgs = MailboxArgs(
    imapPath: string,
    login: string,
    password: string,
    attachmentsDir: Option<string>,
    serverEncoding: string)

  /** What `getImapStream(true)` does when called: returns a stream, returns
      null, or throws a ConnectionException carrying the last IMAP error. */
  datatype StreamOutcome = Opened | NoStream | Refused(lastError: string)

  /** How the library and the servers behind it answer during one run, per
      set of Mailbox arguments: whether the constructor rejects them with an
      InvalidParameterException (and its message), and what opening the
      stream of a Mailbox built from them does. Two accounts on the same
      server differ in their login, so they may get different answers. */
  datatype Environment = Environment(
    rejects: MailboxArgs -> Option<string>,
    stream: MailboxArgs -> StreamOutcome)

  class Mailbox {
    const imapPath: string
    const login: string
    const password: string
    const attachmentsDir: Option<string>
    const serverEncoding: string

    constructor(imapPath: string, login: string, password: string, attachmentsDir: Option<string>,
                serverEncoding: string)
      ensures this.imapPath == imapPath && this.login == login && this.password == password
      ensures this.attachmentsDir == attachmentsDir && this.serverEncoding == serverEncoding
    {
      this.imapPath := imapPath;
      this.login := login;
      this.password := password;
      this.attachmentsDir := attachmentsDir;
      this.serverEncoding := serverEncoding;
    }

    /** The arguments this Mailbox was built from. */
    function Args(): MailboxArgs
    {
      MailboxArgs(imapPath, login, password, attachmentsDir, serverEncoding)
    }
  }

  /** `new Mailbox(...)`: throws the library's InvalidParameterException when
      it rejects the arguments, otherwise a fresh Mailbox holding them. */
  method NewMailbox(env: Environment, args: MailboxArgs) returns (r: Result<Mailbox>)
    ensures r.Err? <==> env.rejects(args).Some?
    ensures r.Err? ==> r.error == InvalidMailbox(env.rejects(args).value)
    ensures r.Ok? ==> fresh(r.value) && r.value.Args() == args
  {
    var rejection := env.rejects(args);
    if rejection.Some? {
      return Err(InvalidMailbox(rejection.value));
    }
    var m := new Mailbox(args.imapPath, args.login, args.password, args.attachmentsDir, args.serverEncoding);
    return Ok(m);
  }
}
