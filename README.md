# imap-bundle connection lifecycle, modelled in Dafny

This project models the core of the Symfony IMAP bundle `secit-pl/imap-bundle`. The core is three classes:

- **`Connection`**: one named mailbox configuration. It holds the configured parameters with their defaults. It builds its php-imap `Mailbox` client on first use and caches it in a nullable field. Before it builds the client, it checks the attachments directory: the path must be an accessible directory, or it is created with the configured permissions. Its two connection tests are gated by the `enabled` flag. They differ in how they treat a `ConnectionException`.
- **`Imap`**: the older registry service. It holds a map from connection name to options and a cache of `Mailbox` instances in `$instances`. `get` returns the cached entry or rebuilds it, and `getAll` replaces the whole cache. `testConnection` always builds a fresh client.
- **`ValidateConnectionsCommand`**: the `secit:imap:validate-connections` console command. It files the registered connections by name. It filters them by the requested names, all or nothing. It tests each selected connection in order, so one failure does not stop the others. A sticky `$failed` flag decides the exit code.

Outside state is modelled abstractly:
- **Filesystem.** A `FileSystem` object holds a map from path to `File` or `Dir(mode, readable, writable)` and a umask. A constant set of paths says where `mkdir` fails.
- **The php-imap library.** An `Environment` value says, for each set of Mailbox arguments (path, login, password, attachments directory, encoding), whether `new Mailbox(...)` rejects them with an `InvalidParameterException` and what `getImapStream(true)` does: return a stream, return `null`, or throw a `ConnectionException` that carries the last IMAP error. Within one run, the library answers the same arguments the same way.
- **Exceptions.** Each exception becomes a constructor of `Results.Error`. An operation that may throw returns a `Result` or an `Outcome`.

Modules: `Results`, `PhpArray` (PHP's ordered array), `Filesystem` (the PHP built-ins), `AttachmentsDir` (the directory check, which `Connection` and `Imap` each carry as an identical copy), `PhpImap` (the `Mailbox` client), `Connections`, `ImapService` and `ValidateCommand`.

## Model

| member | source | states |
|---|---|---|
| `PhpArray.OrderedMap.Put` | Command/ValidateConnectionsCommand.php:38 | `$a[$k] = $v` appends a new key at the end. An existing key keeps its position and only its entry changes. Every other entry is unchanged and the keys stay distinct. |
| `PhpArray.OrderedMap.Items` | Service/Imap.php:127 | `foreach` visits one entry per key, in key order. |
| `PhpArray.PutAllKeys` | Command/ValidateConnectionsCommand.php:37-39 | After a run of assignments into an empty array, each assigned key is listed once, in order of first assignment. |
| `PhpArray.PutAllLastWins` | Command/ValidateConnectionsCommand.php:37-39 | After a run of assignments, a key holds the value of its last assignment. |
| `PhpArray.PutAllDomain` | Command/ValidateConnectionsCommand.php:59-61 | After a run of assignments, a key is present iff some assignment wrote it. |
| `Filesystem.OctDecOfDecOct` | Connection/Connection.php:153 | Writing any mode as decimal digits (0770 as 770) and decoding it with `octdec(''.$perm)` gives the mode back. The written form uses octal digits only. |
| `Filesystem.DecOctOfOctDec` | Connection/Connection.php:153 | On an int whose decimal digits are all octal digits, the decoding loses nothing: writing the decoded mode back out gives the same int. |
| `Filesystem.PermissionExamples` | Connection/Connection.php:133 | The permissions are given in decimal form: 770 becomes 0770, 775 becomes 0775, and 370 becomes 0370, not 370 rewritten in base 8. The sign of a negative int is skipped, as octdec skips it. |
| `Filesystem.MaskedByZero` | Connection/Connection.php:152-153 | With the umask set to 0, `mkdir` clears no bit of the requested mode. |
| `Filesystem.FileSystem.Umask` | Connection/Connection.php:152-154 | `umask($m)` installs `$m`, returns the previous umask and changes no entry. |
| `Filesystem.FileSystem.Mkdir` | Connection/Connection.php:153 | `mkdir` succeeds iff the path does not exist and the system allows it. On success, only that path gains a directory whose mode is the requested mode with the umask's bits cleared. |
| `AttachmentsDir.Checked` | Connection/Connection.php:137-160 | The directory check as a decision tree. A missing or falsy path ("" or "0") changes nothing. A failure is one of the three directory exceptions and names the path. A success never alters an existing entry and at most adds the checked path as a directory. |
| `AttachmentsDir.CheckedOutcomes` | Connection/Connection.php:143-159 | For a non-falsy path, each outcome holds exactly when its condition does, in both directions. A plain file gives "not a directory". A directory without read and write access gives "not enough access permissions". A missing path with create on, where mkdir fails, gives "cannot create". A missing path with create on, where mkdir succeeds, gives a new directory. An accessible directory, or a missing path with create off, gives success with nothing changed. |
| `AttachmentsDir.PlainFileAlwaysFails` | Connection/Connection.php:143-146 | An existing plain file fails with "not a directory", whatever the create flag. |
| `AttachmentsDir.CreatedWithDecodedMode` | Connection/Connection.php:151-158 | A missing path with create on, where mkdir succeeds, becomes a directory whose mode is the decoded permissions. |
| `AttachmentsDir.CheckedTwice` | Connection/Connection.php:143-159 | For a process that is not root and has no ACLs, so that access to the directory it created follows the owner bits: a second check after a successful one changes nothing and succeeds when the decoded mode lets the owner read and write. If the first check created the directory without those bits, the second check fails with "not enough access permissions". |
| `AttachmentsDir.DefaultPermissionsUsable` | Connection/Connection.php:21 | The default permissions, 770, set the owner read and write bits, so the directory they create is one a later check accepts (for a process that is not root and has no ACLs). |
| `AttachmentsDir.CheckAttachmentsDir` | Connection/Connection.php:137-160 | `checkAttachmentsDir` leaves the filesystem as `Checked` says, or throws its exception with the filesystem unchanged. Because it sets the umask to 0 and restores it, the process umask is unchanged and the new directory gets exactly the decoded mode. `Service/Imap.php:154-177` is the same code. |
| `PhpImap.Mailbox.constructor` | Connection/Connection.php:85-91 | A Mailbox records the path, login, password, attachments directory and encoding it was built from. |
| `PhpImap.NewMailbox` | Connection/Connection.php:85-91 | `new Mailbox(...)` throws iff the library rejects the arguments, and then carries the library's message. Otherwise it yields a fresh Mailbox holding exactly those arguments. |
| `Connections.StreamVerdict` | Connection/Connection.php:103-118 | Once the Mailbox exists, `testConnection` returns true iff a stream was opened. A `ConnectionException` is rethrown, carrying its last error, iff the flag is set; otherwise the answer is false. |
| `Connections.StrictVerdict` | Connection/Connection.php:127 | `tryTestConnection` throws exactly when `testConnection(true)` would, with the same exception. A null stream is not an error. |
| `Connections.Connection.constructor` | Connection/Connection.php:12-23 | Each getter returns its constructor argument. The defaults are encoding "UTF-8", no attachments directory, create-if-missing true, permissions 770 and enabled true. The cache starts empty. |
| `Connections.Connection.WithDefaults` | Connection/Connection.php:18-22 | A connection built from the four required arguments has exactly the default values above. |
| `Connections.Connection.GetMailbox` | Connection/Connection.php:74-95 | A cached Mailbox is returned unchanged and nothing else happens. Otherwise the directory check runs only when a directory is configured, and then the Mailbox constructor. If either throws, its exception propagates and the cache stays null. If both pass, a fresh Mailbox built from the connection's parameters is cached and returned. The umask is unchanged. |
| `Connections.Connection.TestConnection` | Connection/Connection.php:97-119 | The flag defaults to false. A disabled connection answers false for either flag and touches neither the cache nor the filesystem. An enabled one materialises as `GetMailbox` does. A directory or constructor exception propagates whatever the flag. Otherwise the answer is `StreamVerdict` of what the library does for this connection's own arguments. |
| `Connections.Connection.TryTestConnection` | Connection/Connection.php:121-128 | A disabled connection throws "Mailbox is not enabled" and touches nothing. An enabled one materialises, then every exception propagates: a build exception as `GetMailbox` gives it, otherwise `StrictVerdict`. |
| `ImapService.BuildAll` | Service/Imap.php:127-143 | The iterations of `getMailboxes` (directory check, then constructor) run in configuration order. A failure is a directory or constructor exception, and no existing entry is ever altered. |
| `ImapService.BuildAllStopsAtFailure` | Service/Imap.php:127-143 | Once an iteration has thrown, no later one runs, and directories created before the failure stay created. |
| `ImapService.BuildAllPassesOnlyIfEachPasses` | Service/Imap.php:127-143 | The run passes only if each iteration passes on the state the earlier ones left. |
| `ImapService.Positions` | Service/Imap.php:56 | The cache that `getAll` stores is keyed by list position, 0 to n-1, and holds no name key. |
| `ImapService.BuildMailbox` | Service/Imap.php:93-107 | The check runs when `attachments_dir` is set, with the same decision tree and octal decoding as `Connection`; then the constructor runs. A directory exception leaves the filesystem unchanged; a constructor exception keeps a directory the check created. Otherwise the result is a fresh Mailbox built from the options. The umask is unchanged. |
| `ImapService.NextMailbox` | Service/Imap.php:127-143 | After iterations that all passed, one more iteration either extends the passing run with a fresh Mailbox built from the next options, or throws, and then its exception is the outcome of the whole run. |
| `ImapService.Imap.constructor` | Service/Imap.php:25-27 | Holds the configuration; the cache starts empty. |
| `ImapService.Imap.GetMailbox` | Service/Imap.php:85-108 | An unconfigured name throws "Imap connection %s is not configured." and changes nothing. Otherwise the result is always a new Mailbox, or the directory exception, or the constructor's exception. The cache is never touched. |
| `ImapService.Imap.Get` | Service/Imap.php:36-43 | The flush flag defaults to false. Without flush, a cached entry is returned as it is and nothing changes. With flush, or on a miss, the entry for that name alone is replaced by a new Mailbox. If building throws, the cache is left as it was. |
| `ImapService.BuildEach` | Service/Imap.php:127-144 | The loop of `getMailboxes`: throws iff `BuildAll` over the options fails, with that exception, and the filesystem ends as `BuildAll` leaves it. Otherwise one fresh Mailbox per option, in order, each built from its option. The umask is unchanged. |
| `ImapService.Imap.GetMailboxes` | Service/Imap.php:118-145 | Throws iff `BuildAll` over the configuration fails, with that exception, and the filesystem ends as `BuildAll` leaves it. Otherwise it returns one fresh Mailbox per configured connection, in configuration order, with length `count(connections)`. The umask is unchanged. |
| `ImapService.Imap.GetAll` | Service/Imap.php:54-58 | The whole cache becomes the new list, keyed by position. When a check throws, the previous cache is left untouched. |
| `ImapService.Imap.TestConnection` | Service/Imap.php:67-78 | The flag defaults to false. Always builds a new Mailbox and does no enabled check. The cache is neither read nor written. An unknown name, a directory exception or a constructor exception propagates whatever the flag. Otherwise the answer is `StreamVerdict` of what the library does for those options' arguments. |
| `ValidateCommand.RegistryProperties` | Command/ValidateConnectionsCommand.php:37-39 | The name map lists each registered name once, in order of first registration. Each connection is filed under its own name, and a later connection with the same name replaces an earlier one. |
| `ValidateCommand.RegistryKeyedByName` | Command/ValidateConnectionsCommand.php:38 | Every entry of the name map is the connection whose name is its key. |
| `ValidateCommand.Select` | Command/ValidateConnectionsCommand.php:58-70 | With no requested names, the selection is the whole registry in registration order. With requested names, nothing is selected iff some requested name is unknown. |
| `ValidateCommand.SelectExactlyRequested` | Command/ValidateConnectionsCommand.php:58-67 | A successful non-empty request selects exactly the requested names, in request order with repeats collapsed, each with its registered connection. |
| `ValidateCommand.ResultText` | Command/ValidateConnectionsCommand.php:103-107 | The result cell reads "SUCCESS" for a success and "FAILED: " followed by the last IMAP error for a failure. |
| `ValidateCommand.RowVerdict` | Command/ValidateConnectionsCommand.php:100-108 | A completed row fails iff the connection is enabled and `testConnection(true)` throws a `ConnectionException` for that connection's own Mailbox arguments (path, login, password, attachments directory and server encoding). The row then carries that exception's last error. A disabled connection and a null stream are reported as success. |
| `ValidateCommand.FailedAfterIff` | Command/ValidateConnectionsCommand.php:104-105 | `$failed` ends up set iff it was already set or some row failed. It is only ever set, never reset. |
| `ValidateCommand.ClearAfterRows` | Command/ValidateConnectionsCommand.php:75-79 | `$failed` is still clear after a table iff it was clear before and every row succeeded. |
| `ValidateCommand.MaterialiseAllKeeps` | Command/ValidateConnectionsCommand.php:87-89 | About `MaterialiseAll`, the filesystem effect of the rows in order: a connection that already holds its Mailbox builds nothing, every other one builds it (enabled or not), and the first exception ends the run. Such an exception is a directory or constructor exception, and no entry that existed before the run is ever altered. |
| `ValidateCommand.MaterialiseAllStopsAtFailure` | Command/ValidateConnectionsCommand.php:87-89 | Once a row has thrown, no later row runs. |
| `ValidateCommand.MaterialiseAllIgnoresStreams` | Command/ValidateConnectionsCommand.php:100-108 | Failure isolation: whether the rows run to the end, and what they do to the filesystem, do not depend on what the servers answer. A `ConnectionException` from one connection never stops the others. |
| `ValidateCommand.MaterialiseAllPasses` | Command/ValidateConnectionsCommand.php:87-89 | When every connection already holds its Mailbox, or has no attachments directory and arguments the library accepts, all rows are built and the filesystem is unchanged. This includes the empty list. |
| `ValidateCommand.ValidateConnectionsCommand.KeyByName` | Command/ValidateConnectionsCommand.php:37-39 | The constructor's loop builds exactly the name map above. |
| `ValidateCommand.ValidateConnectionsCommand.constructor` | Command/ValidateConnectionsCommand.php:31-40 | The command starts with that name map and `$failed` false. |
| `ValidateCommand.ValidateConnectionsCommand.SelectConnections` | Command/ValidateConnectionsCommand.php:55-70 | The filter loop computes exactly `Select`. It stops at the first unknown name. |
| `ValidateCommand.ValidateConnectionsCommand.GetRow` | Command/ValidateConnectionsCommand.php:98-116 | A row holds the name, the `RowVerdict` result, the cached Mailbox and the username, never the password. A `ConnectionException` sets `$failed`; any other exception propagates. The row's second `getMailbox()` means that the connection, even a disabled one, ends up materialised as `GetMailbox` describes. |
| `ValidateCommand.ValidateConnectionsCommand.NextRow` | Command/ValidateConnectionsCommand.php:87-89 | After rows that all passed, one more row either extends the table with the row of the next connection, with `$failed` updated by its result, or throws. What it does to the filesystem, and whether it throws, is that connection's step of `MaterialiseAll`. A connection that held a Mailbox keeps it; one that held none now holds a fresh Mailbox built from its own arguments. No other connection's Mailbox changes. |
| `ValidateCommand.ValidateConnectionsCommand.DumpToScreen` | Command/ValidateConnectionsCommand.php:82-92 | Throws iff `MaterialiseAll` over the connections fails, with that exception, and the filesystem ends as `MaterialiseAll` leaves it; the umask is unchanged. Otherwise it produces one row per connection, in order, whatever earlier rows gave, and `$failed` is updated by the results. Each connection that held a Mailbox at the start still holds that one, and each that held none now holds a fresh Mailbox built from its own arguments (`KeptOrBuilt`). |
| `ValidateCommand.ValidateConnectionsCommand.Report` | Command/ValidateConnectionsCommand.php:71-79 | The part of `execute` after the filter. It aborts iff `MaterialiseAll` over the selection fails, with the filesystem as `MaterialiseAll` leaves it. Otherwise every selected connection gets a row labelled with its name, in selection order, the printed total is the size of the selection, and the exit code is SUCCESS iff `$failed` was clear before and no row failed. Each selected connection keeps the Mailbox it held or holds a fresh one built from its own arguments. Only selected connections may change. |
| `ValidateCommand.ValidateConnectionsCommand.Execute` | Command/ValidateConnectionsCommand.php:49-80 | An unknown requested name gives FAILURE before any connection is tested, and changes neither `$failed`, the connections nor the filesystem. Otherwise the run is `Report` of the selection: it aborts iff `MaterialiseAll` over the selection fails, and then leaves the filesystem as `MaterialiseAll` says; else every selected connection gets a row, in selection order, the printed total is the size of the selection, and the exit code is SUCCESS iff `$failed` was clear before and no row failed. Each selected connection keeps the Mailbox it held or holds a fresh one built from its own arguments. The run may change only the selected connections (`Touched`); the others keep their Mailbox whatever happens. The umask is always unchanged. |

## Left out

- The php-imap library is not part of this model. Whether its `Mailbox` constructor rejects a set of arguments, and what `getImapStream(true)` does for them, are given by an `Environment` parameter instead of being computed; the answer for given arguments is fixed for the run.
- The `extension_loaded('imap')` check in the `Connection` constructor (Connection/Connection.php:24-26) depends on the PHP runtime.
- `trigger_deprecation` (Connection/Connection.php:107-112) only logs.
- Console I/O is not modelled: `configure`, the table rendering, and the text of `writeln`. The model keeps the rows, the printed total and the exit code.
- DependencyInjection/Configuration.php and DependencyInjection/ImapExtension.php only wire the container and are not part of this model. ImapExtension.php:34 and :41 read `imap_path` and `enabled` keys that the configuration tree does not define; the tree defines `mailbox` at Configuration.php:36.
- Connection/ConnectionInterface.php holds only signatures; `Connections.Connection` covers it. The getters are the class's constant fields.
- Filesystem semantics are abstract. Missing parent directories that a recursive `mkdir` would create are not recorded. Access to existing directories is given, not computed from modes, owners or ACLs. Races between `file_exists` and `mkdir` are not modelled.
- Filesystem.NewDir: a directory that the process creates is readable and writable iff the owner read and write bits of its mode are set. This holds for a process that is not root and where no ACL applies; root, or an inherited default ACL, can read and write it regardless. `AttachmentsDir.CheckedTwice` and `AttachmentsDir.DefaultPermissionsUsable` rest on this assumption.
- PHP turns numeric-string array keys into int keys. A connection named like "1" could therefore share a cache slot with position 1 after `getAll`; the model keeps names and positions apart.
- The `isset($this->connections)` guard in `getMailboxes` (Service/Imap.php:120-122) can never fire, because the typed property is always set by the constructor. It is not modelled.
- ValidateCommand.ValidateConnectionsCommand.Execute: for an aborted run, does not state which selected connections hold a Mailbox afterwards or what `$failed` is; unselected connections are still unchanged. The table is never rendered and no exit code is returned in that case.
- The exit status that Symfony's console application gives an uncaught exception is outside the command.

## Notes

Behaviours of the code that are easy to misread:
- The batch check calls `testConnection(true)` and catches `ConnectionException`; it does not call `testConnection(false)`.
- A missing directory with create-if-missing off is accepted silently. It is not an error.
- A failed `mkdir` always throws, including when the directory appeared in the meantime.
- The row's third cell is the connection's `Mailbox`, from a second `getMailbox()` call. Because of that call, a disabled connection is materialised by the command, and its directory check can abort the whole run.
- `$failed` is never reset. A second `execute` on the same command object reports FAILURE if an earlier run failed.
