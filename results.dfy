/** Errors raised by the bundle and the wrappers that carry them.
    Each PHP exception the core can throw is one constructor of Error;
    an operation that may throw returns a Result or an Outcome. */
module Results {

  /** The exceptions of the core. */
  datatype Error =
    /** RuntimeException: 'File "%s" exists but it is not a directory'. */
    | NotADirectory(path: string)
    /** RuntimeException: 'Directory "%s" does not have enough access permissions'. */
    | NotAccessible(path: string)
    /** RuntimeException: 'Cannot create the attachments directory "%s"'. */
    | CannotCreate(path: string)
    /** RuntimeException: 'Imap connection %s is not configured.' */
    | NotConfigured(name: string)
    /** ErrorException: 'Mailbox is not enabled'. */
    | NotEnabled
    /** php-imap ConnectionException; lastError is what getErrors('last') gives. */
    | ConnectionFailed(lastError: string)
    /** php-imap InvalidParameterException thrown by `new Mailbox(...)`. */
    | InvalidMailbox(message: string)
  {
    /** The directory checks' exceptions (all three are RuntimeException). */
    predicate IsDirectoryError() {
      NotADirectory? || NotAccessible? || CannotCreate?
    }

    /** The exceptions building a Mailbox can throw: the directory check's or
        the constructor's. */
    predicate IsBuildError() {
      IsDirectoryError() || InvalidMailbox?
    }
  }

  datatype Option<+T> = None | Some(value: T)

  /** A value, or the exception that was thrown instead. */
  datatype Result<+T> = Ok(value: T) | Err(error: Error)

  /** The outcome of a void operation: it returned, or it threw. */
  datatype Outcome = Pass | Fail(error: Error)
}
