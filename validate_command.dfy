/** The `secit:imap:validate-connections` console command: tests the
    selected connections one by one and reports a row per connection and an
    exit code. */
module ValidateCommand {
  import opened Results
  import opened Filesystem
  import opened PhpImap
  import opened PhpArray
  import opened Connections

  /** `Command::SUCCESS` and `Command::FAILURE`. */
  const SUCCESS: int := 0
  const FAILURE: int := 1

  /** The assignments `$this->connections[$connection->getName()] = $connection`. */
  function NamePairs(registered: seq<Connection>): (r: seq<(string, Connection)>)
    ensures |r| == |registered|
    ensures forall i :: 0 <= i < |r| ==> r[i] == (registered[i].name, registered[i])
  {
    seq(|registered|, i requires 0 <= i < |registered| => (registered[i].name, registered[i]))
  }

  /** The constructor's name map. */
  function Registry(registered: seq<Connection>): (r: OrderedMap<Connection>)
    ensures r.Valid()
  {
    PutAll(Empty(), NamePairs(registered))
  }

  /** Every connection is filed under its own name. */
  predicate KeyedByName(m: OrderedMap<Connection>)
  {
    forall k :: k in m.values ==> m.values[k].name == k
  }

  /** The name map lists each registered name once, in the order of first
      registration; each connection is filed under its own name, and of two
      connections with the same name the later one wins. */
  lemma {:induction false} RegistryProperties(registered: seq<Connection>, i: nat)
    requires i < |registered|
    requires forall j :: i < j < |registered| ==> registered[j].name != registered[i].name
    ensures Registry(registered).keys == Dedup(Firsts(NamePairs(registered)))
    ensures KeyedByName(Registry(registered))
    ensures registered[i].name in Registry(registered).values
    ensures Registry(registered).values[registered[i].name] == registered[i]
  {
    var pairs := NamePairs(registered);
    PutAllKeys(pairs);
    PutAllLastWins(pairs, i);
    RegistryKeyedByName(registered);
  }

  lemma {:induction false} RegistryKeyedByName(registered: seq<Connection>)
    ensures KeyedByName(Registry(registered))
  {
    var pairs := NamePairs(registered);
    forall k | k in Registry(registered).values
      ensures Registry(registered).values[k].name == k
    {
      PutAllValueFromSomePair(pairs, k);
    }
  }

  /** The requested names paired with their registered connections. */
  function RequestedPairs(registry: OrderedMap<Connection>, requested: seq<string>): (r: seq<(string, Connection)>)
    requires forall k :: k in requested ==> k in registry.values
    ensures |r| == |requested|
    ensures forall i :: 0 <= i < |r| ==> r[i] == (requested[i], registry.values[requested[i]])
  {
    seq(|requested|, i requires 0 <= i < |requested| => (requested[i], registry.values[requested[i]]))
  }

  /** Extending a request by one registered name adds one assignment. */
  lemma RequestedPairsStep(registry: OrderedMap<Connection>, requested: seq<string>, i: nat)
    requires registry.Valid()
    requires i < |requested|
    requires forall j :: 0 <= j <= i ==> requested[j] in registry.values
    ensures PutAll(Empty(), RequestedPairs(registry, requested[..i + 1]))
         == PutAll(Empty(), RequestedPairs(registry, requested[..i])).Put(requested[i], registry.values[requested[i]])
  {
    var longer := RequestedPairs(registry, requested[..i + 1]);
    assert |longer| == i + 1 && longer[..i] == RequestedPairs(registry, requested[..i]);
    assert longer[i] == (requested[i], registry.values[requested[i]]);
  }

  /** The connections `execute` tests: all of them when no name is given;
      otherwise the requested ones, or nothing at all when one is unknown. */
  function Select(registry: OrderedMap<Connection>, requested: seq<string>): (r: Option<OrderedMap<Connection>>)
    requires registry.Valid()
    ensures requested == [] ==> r == Some(registry)
    ensures r.None? <==> exists k :: k in requested && k !in registry.values
    ensures r.Some? ==> r.value.Valid()
  {
    if requested == [] then Some(registry)
    else if forall k :: k in requested ==> k in registry.values then
      Some(PutAll(Empty(), RequestedPairs(registry, requested)))
    else None
  }

  /** A non-empty request selects exactly the requested names, in request
      order with repeats collapsed, each with its registered connection. */
  lemma {:induction false} SelectExactlyRequested(registry: OrderedMap<Connection>, requested: seq<string>)
    requires registry.Valid()
    requires requested != [] && Select(registry, requested).Some?
    ensures var s := Select(registry, requested).value;
      && s.keys == Dedup(requested)
      && (forall k :: k in s.values <==> k in requested)
      && (forall k :: k in s.values ==> s.values[k] == registry.values[k])
  {
    var pairs := RequestedPairs(registry, requested);
    var s := Select(registry, requested).value;
    assert Firsts(pairs) == requested;
    PutAllKeys(pairs);
    forall k ensures k in s.values <==> k in requested {
      PutAllDomain(pairs, k);
    }
    forall k | k in s.values ensures s.values[k] == registry.values[k] {
      PutAllValueFromSomePair(pairs, k);
    }
  }

  /** Selecting keeps every connection under its own name. */
  lemma SelectKeyedByName(registry: OrderedMap<Connection>, requested: seq<string>)
    requires registry.Valid() && KeyedByName(registry)
    requires Select(registry, requested).Some?
    ensures KeyedByName(Select(registry, requested).value)
  {
    if requested != [] {
      SelectExactlyRequested(registry, requested);
    }
  }

  /** The selected connections, in selection order, are distinct registered
      connections, each filed under its own name. */
  lemma SelectedItems(registry: OrderedMap<Connection>, requested: seq<string>)
    requires registry.Valid() && KeyedByName(registry)
    requires Select(registry, requested).Some?
    ensures var selected := Select(registry, requested).value;
      var items := selected.Items();
      && (forall i :: 0 <= i < |items| ==> items[i].name == selected.keys[i] && items[i] in registry.values.Values)
      && (forall j, k :: 0 <= j < k < |items| ==> items[j] != items[k])
  {
    var selected := Select(registry, requested).value;
    var items := selected.Items();
    if requested != [] {
      SelectExactlyRequested(registry, requested);
    }
    SelectKeyedByName(registry, requested);
    forall j, k | 0 <= j < k < |items| ensures items[j] != items[k] {
      assert items[j].name == selected.keys[j] && items[k].name == selected.keys[k];
    }
  }

  /** The result cell of a row. */
  datatype RowResult = Succeeded | Failed(lastError: string)

  /** One table row: Connection, Connect Result, Mailbox, Username. The
      password is never part of it. */
  datatype Row = Row(connection: string, result: RowResult, mailbox: Mailbox, username: string)

  /** The text of the result cell. The table itself is console output and
      is not modelled, so this function only renders a cell: the rows keep
      the `RowResult` it is rendered from. */
  function ResultText(r: RowResult): (t: string)
    ensures r.Succeeded? <==> t == "SUCCESS"
    ensures r.Failed? ==> |t| >= 8 && t[..8] == "FAILED: " && t[8..] == r.lastError
  {
    match r
    case Succeeded => "SUCCESS"
    case Failed(lastError) => "FAILED: " + lastError
  }

  /** The result of a row whose test completed: it failed exactly when
      `testConnection(true)` threw a ConnectionException. A disabled
      connection and a null stream both count as success, since the boolean
      answer is ignored. */
  function RowVerdict(c: Connection, env: Environment): (r: RowResult)
    ensures r.Failed? <==> c.enabled && StreamVerdict(env.stream(c.Args()), true).Err?
    ensures r.Failed? ==> StreamVerdict(env.stream(c.Args()), true) == Err(ConnectionFailed(r.lastError))
    ensures !c.enabled ==> r == Succeeded
  {
    var outcome := env.stream(c.Args());
    if c.enabled && outcome.Refused? then Failed(outcome.lastError) else Succeeded
  }

  /** The `$failed` flag after a sequence of rows, starting from `before`:
      only ever set, never reset. */
  function FailedAfter(before: bool, results: seq<RowResult>): bool
  {
    if results == [] then before
    else FailedAfter(before, results[..|results| - 1]) || results[|results| - 1].Failed?
  }

  /** The flag ends up set iff it was set before or some row failed. */
  lemma {:induction false} FailedAfterIff(before: bool, results: seq<RowResult>)
    ensures FailedAfter(before, results) <==> before || exists i :: 0 <= i < |results| && results[i].Failed?
  {
    if results != [] {
      var init := results[..|results| - 1];
      FailedAfterIff(before, init);
      if exists i :: 0 <= i < |init| && init[i].Failed? {
        var i :| 0 <= i < |init| && init[i].Failed?;
        assert results[i].Failed?;
      }
    }
  }

  /** The results column of a table. */
  function ResultColumn(rows: seq<Row>): (r: seq<RowResult>)
    ensures |r| == |rows| && forall i :: 0 <= i < |rows| ==> r[i] == rows[i].result
  {
    seq(|rows|, i requires 0 <= i < |rows| => rows[i].result)
  }

  /** The flag stays clear after a table iff it was clear and every row
      succeeded. */
  lemma ClearAfterRows(before: bool, rows: seq<Row>)
    ensures !FailedAfter(before, ResultColumn(rows)) <==>
      !before && forall i :: 0 <= i < |rows| ==> rows[i].result.Succeeded?
  {
    FailedAfterIff(before, ResultColumn(rows));
  }

  /** The Mailbox each connection holds, or null. */
  function Held(items: seq<Connection>): (r: seq<Mailbox?>)
    reads items
    ensures |r| == |items|
    ensures forall i :: 0 <= i < |items| ==> r[i] == items[i].mailbox
  {
    if items == [] then [] else Held(items[..|items| - 1]) + [items[|items| - 1].mailbox]
  }

  /** `rows` is the table for `items`: row i names items[i], shows its
      `RowVerdict`, its held Mailbox and its username. */
  ghost predicate Reported(items: seq<Connection>, rows: seq<Row>, env: Environment)
    reads items
  {
    && |rows| == |items|
    && forall j :: 0 <= j < |items| ==>
         && items[j].mailbox != null
         && rows[j] == Row(items[j].name, RowVerdict(items[j], env), items[j].mailbox, items[j].username)
  }

  /** Each row of a table is labelled with the name of its connection. */
  lemma ReportedNames(items: seq<Connection>, rows: seq<Row>, env: Environment, names: seq<string>)
    requires Reported(items, rows, env)
    requires |names| == |items| && forall i :: 0 <= i < |items| ==> items[i].name == names[i]
    ensures forall i :: 0 <= i < |rows| ==> rows[i].connection == names[i]
  {
  }

  /** The first i rows of the table for `items`, where `held` is what each
      connection held before the table was begun: row j names items[j],
      shows its `RowVerdict` and its username, and shows the Mailbox it
      held or, if it held none, one built from its own arguments. */
  ghost predicate RowsSoFar(items: seq<Connection>, i: nat, rows: seq<Row>, held: seq<Mailbox?>, env: Environment)
  {
    && |rows| == i <= |items| == |held|
    && forall j :: 0 <= j < i ==>
         && rows[j] == Row(items[j].name, RowVerdict(items[j], env), rows[j].mailbox, items[j].username)
         && if held[j] != null then rows[j].mailbox == held[j] else items[j].Builds(rows[j].mailbox)
  }

  /** After i rows, the first i connections hold the Mailbox their row
      shows and the others still hold what they held. */
  ghost predicate HoldingSoFar(items: seq<Connection>, i: nat, rows: seq<Row>, held: seq<Mailbox?>)
    reads items
  {
    && |rows| == i <= |items| == |held|
    && (forall j :: 0 <= j < i ==> items[j].mailbox == rows[j].mailbox)
    && (forall j :: i <= j < |items| ==> items[j].mailbox == held[j])
  }

  /** What the rows of `dumpToScreen` do to the filesystem and whether one of
      them throws, for `items` in order, where `held[i]` is the Mailbox
      items[i] already held, or null: a connection holding one builds nothing,
      the others build theirs (whether enabled or not), and the first
      exception ends the run. The servers' answers play no part. */
  function MaterialiseAll(entries: map<string, Entry>, refused: set<string>, items: seq<Connection>,
                          held: seq<Mailbox?>, env: Environment): (Outcome, map<string, Entry>)
    requires |held| == |items|
  {
    if items == [] then (Pass, entries)
    else
      var n := |items| - 1;
      var before := MaterialiseAll(entries, refused, items[..n], held[..n], env);
      if before.0.Fail? || held[n] != null then before
      else items[n].Build(before.1, refused, env)
  }

  /** A run that throws throws a directory or constructor exception, and
      no run alters an entry that existed before it. */
  lemma {:induction false} MaterialiseAllKeeps(entries: map<string, Entry>, refused: set<string>,
                                               items: seq<Connection>, held: seq<Mailbox?>, env: Environment)
    requires |held| == |items|
    ensures var r := MaterialiseAll(entries, refused, items, held, env);
      && (r.0.Fail? ==> r.0.error.IsBuildError())
      && forall q :: q in entries ==> q in r.1 && r.1[q] == entries[q]
  {
    if items != [] {
      var n := |items| - 1;
      MaterialiseAllKeeps(entries, refused, items[..n], held[..n], env);
    }
  }

  /** One more row after a passing prefix that left `mid`: the row's
      outcome `out` extends the prefix and, if it throws, ends the run. */
  lemma MaterialiseAllNext(entries: map<string, Entry>, refused: set<string>, items: seq<Connection>,
                           held: seq<Mailbox?>, env: Environment, i: nat,
                           mid: map<string, Entry>, out: (Outcome, map<string, Entry>))
    requires |held| == |items| && i < |items|
    requires MaterialiseAll(entries, refused, items[..i], held[..i], env) == (Pass, mid)
    requires (if held[i] != null then (Pass, mid) else items[i].Build(mid, refused, env)) == out
    ensures MaterialiseAll(entries, refused, items[..i + 1], held[..i + 1], env) == out
    ensures out.0.Fail? ==> MaterialiseAll(entries, refused, items, held, env) == out
  {
    assert items[..i + 1][..i] == items[..i];
    assert held[..i + 1][..i] == held[..i];
    if out.0.Fail? {
      MaterialiseAllStopsAtFailure(entries, refused, items, held, env, i + 1);
    }
  }

  /** Once a row has thrown, the later rows never run. */
  lemma {:induction false} MaterialiseAllStopsAtFailure(entries: map<string, Entry>, refused: set<string>,
                                                        items: seq<Connection>, held: seq<Mailbox?>,
                                                        env: Environment, k: nat)
    requires |held| == |items| && k <= |items|
    requires MaterialiseAll(entries, refused, items[..k], held[..k], env).0.Fail?
    ensures MaterialiseAll(entries, refused, items, held, env)
         == MaterialiseAll(entries, refused, items[..k], held[..k], env)
  {
    var n := |items|;
    if k < n {
      var init, initHeld := items[..n - 1], held[..n - 1];
      assert init[..k] == items[..k] && initHeld[..k] == held[..k];
      MaterialiseAllStopsAtFailure(entries, refused, init, initHeld, env, k);
      var before := MaterialiseAll(entries, refused, init, initHeld, env);
      assert before.0.Fail?;
      assert MaterialiseAll(entries, refused, items, held, env) == before;
    } else {
      assert items[..k] == items && held[..k] == held;
    }
  }

  /** Whether the rows run to the end never depends on what the servers
      answer: a ConnectionException of one connection cannot stop the
      others. Only the directory checks and the Mailbox constructor can. */
  lemma {:induction false} MaterialiseAllIgnoresStreams(entries: map<string, Entry>, refused: set<string>,
                                                        items: seq<Connection>, held: seq<Mailbox?>,
                                                        env: Environment, other: Environment)
    requires |held| == |items|
    requires forall a :: env.rejects(a) == other.rejects(a)
    ensures MaterialiseAll(entries, refused, items, held, env)
         == MaterialiseAll(entries, refused, items, held, other)
  {
    if items != [] {
      var n := |items| - 1;
      MaterialiseAllIgnoresStreams(entries, refused, items[..n], held[..n], env, other);
      assert env.rejects(items[n].Args()) == other.rejects(items[n].Args());
    }
  }

  /** Connections that are held, or have no attachments directory and
      arguments the library accepts, all get their row and leave the
      filesystem as it was. */
  lemma {:induction false} MaterialiseAllPasses(entries: map<string, Entry>, refused: set<string>,
                                                items: seq<Connection>, held: seq<Mailbox?>, env: Environment)
    requires |held| == |items|
    requires forall i :: 0 <= i < |items| ==>
      held[i] != null || (items[i].attachmentsDir.None? && env.rejects(items[i].Args()).None?)
    ensures MaterialiseAll(entries, refused, items, held, env) == (Pass, entries)
  {
    if items != [] {
      var n := |items| - 1;
      MaterialiseAllPasses(entries, refused, items[..n], held[..n], env);
    }
  }

  /** Each connection kept the Mailbox it held, and one that held none now
      holds a fresh Mailbox built from its own arguments: `getMailbox`
      builds a connection's client at most once. */
  twostate predicate KeptOrBuilt(items: seq<Connection>)
    reads items
  {
    forall i :: 0 <= i < |items| ==>
      if old(items[i].mailbox) != null then items[i].mailbox == old(items[i].mailbox)
      else items[i].mailbox != null && fresh(items[i].mailbox) && items[i].Builds(items[i].mailbox)
  }

  /** The connections a run of `execute` with `requested` may touch: the
      selected ones, or none when a name is unknown. */
  function Touched(registry: OrderedMap<Connection>, requested: seq<string>): set<Connection>
    requires registry.Valid()
  {
    match Select(registry, requested)
    case None => {}
    case Some(selected) => set c | c in selected.Items()
  }

  /** What `execute` ends with. */
  datatype Execution =
    /** A requested name is not registered: 'One or more connections given
        are not available', nothing tested, no table. */
    | Unavailable
    /** An exception other than ConnectionException escaped a row. */
    | Aborted(error: Error)
    /** The table was rendered with `rows`, 'Total connections: total' was
        printed, and `code` was returned. */
    | Completed(rows: seq<Row>, total: nat, code: int)
  {
    /** The exit code of a run that returned. */
    function ExitCode(): int
      requires !Aborted?
    {
      if Unavailable? then FAILURE else code
    }
  }

  class ValidateConnectionsCommand {
    var failed: bool
    var connections: OrderedMap<Connection>

    ghost predicate Valid()
      reads this
    {
      connections.Valid() && KeyedByName(connections)
    }

    /** The constructor's loop: files every connection under its name; a
        later connection with the same name replaces an earlier one. */
    static method KeyByName(registered: seq<Connection>) returns (named: OrderedMap<Connection>)
      ensures named == Registry(registered)
      ensures named.Valid() && KeyedByName(named)
    {
      named := Empty();
      var i := 0;
      while i < |registered|
        invariant 0 <= i <= |registered|
        invariant named == PutAll(Empty(), NamePairs(registered[..i]))
      {
        assert NamePairs(registered[..i + 1])[..i] == NamePairs(registered[..i]);
        named := named.Put(registered[i].name, registered[i]);
        i := i + 1;
      }
      assert registered[..i] == registered;
      RegistryKeyedByName(registered);
    }

    constructor(registered: seq<Connection>)
      ensures Valid()
      ensures connections == Registry(registered) && !failed
    {
      var named := KeyByName(registered);
      connections := named;
      failed := false;
    }

    /** The filter at the start of `execute`: when names are given, each must
        be registered, else nothing is selected. */
    method SelectConnections(allowedConnections: seq<string>) returns (r: Option<OrderedMap<Connection>>)
      requires Valid()
      ensures r == Select(connections, allowedConnections)
    {
      if allowedConnections == [] {
        return Some(connections);
      }
      var selected := Empty();
      var i := 0;
      while i < |allowedConnections|
        invariant 0 <= i <= |allowedConnections|
        invariant forall j :: 0 <= j < i ==> allowedConnections[j] in connections.values
        invariant selected == PutAll(Empty(), RequestedPairs(connections, allowedConnections[..i]))
      {
        var connection := allowedConnections[i];
        if connection in connections.values {
          RequestedPairsStep(connections, allowedConnections, i);
          selected := selected.Put(connection, connections.values[connection]);
        } else {
          return None;
        }
        i := i + 1;
      }
      assert allowedConnections[..i] == allowedConnections;
      return Some(selected);
    }

    /** `getRow($connection)`: tests the connection with exceptions on; a
        ConnectionException becomes a FAILED row and sets `$failed`; any
        other exception propagates. The row's Mailbox cell calls
        `getMailbox()` again, which builds the Mailbox of a disabled
        connection too. */
    method GetRow(c: Connection, fs: FileSystem, env: Environment) returns (r: Result<Row>)
      modifies this, c, fs
      ensures c.Materialised(fs, env)
      ensures connections == old(connections)
      ensures r.Ok? <==> c.mailbox != null
      ensures r.Ok? ==> r.value == Row(c.name, RowVerdict(c, env), c.mailbox, c.username)
      ensures r.Err? ==> old(c.mailbox) == null && c.Build(old(fs.entries), fs.refused, env).0 == Fail(r.error)
      ensures failed == (old(failed) || (r.Ok? && r.value.result.Failed?))
    {
      var tested := c.TestConnection(fs, env, true);
      var result: RowResult;
      if tested.Err? {
        if tested.error.ConnectionFailed? {
          failed := true;
          result := Failed(tested.error.lastError);
        } else {
          return Err(tested.error);
        }
      } else {
        result := Succeeded;
      }
      var m := c.GetMailbox(fs, env);
      if m.Err? {
        return Err(m.error);
      }
      return Ok(Row(c.name, result, m.value, c.username));
    }

    /** One pass of the loop in `dumpToScreen`: the row of items[i], once
        the rows before it have run without an exception. */
    method NextRow(items: seq<Connection>, i: nat, rows: seq<Row>, fs: FileSystem, env: Environment,
                   ghost held: seq<Mailbox?>, ghost failedBefore: bool)
      returns (r: Result<Row>)
      requires i < |items| == |held|
      requires forall j :: 0 <= j < |items| && j != i ==> items[j] != items[i]
      requires RowsSoFar(items, i, rows, held, env) && HoldingSoFar(items, i, rows, held)
      requires failed == FailedAfter(failedBefore, ResultColumn(rows))
      modifies this, items[i], fs
      ensures connections == old(connections) && fs.umask == old(fs.umask)
      ensures (if held[i] != null then (Pass, old(fs.entries)) else items[i].Build(old(fs.entries), fs.refused, env))
           == (if r.Ok? then Pass else Fail(r.error), fs.entries)
      ensures r.Ok? ==> RowsSoFar(items, i + 1, rows + [r.value], held, env)
      ensures r.Ok? ==> HoldingSoFar(items, i + 1, rows + [r.value], held)
      ensures r.Ok? ==> failed == FailedAfter(failedBefore, ResultColumn(rows + [r.value]))
      ensures r.Ok? && held[i] == null ==> fresh(items[i].mailbox)
    {
      r := GetRow(items[i], fs, env);
      assert forall j :: 0 <= j < |items| && j != i ==> items[j].mailbox == old(items[j].mailbox);
      if r.Ok? {
        assert ResultColumn(rows + [r.value])[..i] == ResultColumn(rows);
      }
    }

    /** The loop of `dumpToScreen`, with `held` the Mailboxes the
        connections hold when it starts. */
    method DumpRows(items: seq<Connection>, fs: FileSystem, env: Environment, ghost held: seq<Mailbox?>)
      returns (r: Result<seq<Row>>)
      requires forall j, k :: 0 <= j < k < |items| ==> items[j] != items[k]
      requires HoldingSoFar(items, 0, [], held)
      modifies this, fs, items
      ensures connections == old(connections) && fs.umask == old(fs.umask)
      ensures MaterialiseAll(old(fs.entries), fs.refused, items, held, env)
           == (if r.Ok? then Pass else Fail(r.error), fs.entries)
      ensures r.Ok? ==> RowsSoFar(items, |items|, r.value, held, env) && HoldingSoFar(items, |items|, r.value, held)
      ensures r.Ok? ==> failed == FailedAfter(old(failed), ResultColumn(r.value))
      ensures r.Ok? ==> forall j :: 0 <= j < |items| && held[j] == null ==> fresh(items[j].mailbox)
    {
      var rows: seq<Row> := [];
      var i := 0;
      while i < |items|
        invariant 0 <= i <= |items|
        invariant connections == old(connections)
        invariant MaterialiseAll(old(fs.entries), fs.refused, items[..i], held[..i], env) == (Pass, fs.entries)
        invariant fs.umask == old(fs.umask)
        invariant RowsSoFar(items, i, rows, held, env) && HoldingSoFar(items, i, rows, held)
        invariant failed == FailedAfter(old(failed), ResultColumn(rows))
        invariant forall j :: 0 <= j < i && held[j] == null ==> fresh(items[j].mailbox)
      {
        ghost var mid := fs.entries;
        var row := NextRow(items, i, rows, fs, env, held, old(failed));
        MaterialiseAllNext(old(fs.entries), fs.refused, items, held, env, i, mid,
                           (if row.Ok? then Pass else Fail(row.error), fs.entries));
        if row.Err? {
          return Err(row.error);
        }
        rows := rows + [row.value];
        i := i + 1;
      }
      assert items[..i] == items && held[..i] == held;
      return Ok(rows);
    }

    /** `dumpToScreen($connections)`: one row per connection, in order,
        whatever earlier rows gave; only an exception other than
        ConnectionException stops it, exactly when `MaterialiseAll` fails. */
    method DumpToScreen(items: seq<Connection>, fs: FileSystem, env: Environment)
      returns (r: Result<seq<Row>>)
      requires forall j, k :: 0 <= j < k < |items| ==> items[j] != items[k]
      modifies this, fs, items
      ensures connections == old(connections)
      ensures MaterialiseAll(old(fs.entries), fs.refused, items, old(Held(items)), env)
           == (if r.Ok? then Pass else Fail(r.error), fs.entries)
      ensures fs.umask == old(fs.umask)
      ensures r.Ok? ==> Reported(items, r.value, env) && failed == FailedAfter(old(failed), ResultColumn(r.value))
      ensures r.Ok? ==> KeptOrBuilt(items)
    {
      ghost var held := Held(items);
      r := DumpRows(items, fs, env, held);
      assert forall j :: 0 <= j < |items| ==> held[j] == old(items[j].mailbox);
    }

    /** The part of `execute()` after the filter: renders a row per
        selected connection, prints the total and returns FAILURE iff
        `$failed` is set at the end. */
    method Report(selected: OrderedMap<Connection>, fs: FileSystem, env: Environment) returns (e: Execution)
      requires selected.Valid()
      requires forall i :: 0 <= i < |selected.Items()| ==> selected.Items()[i].name == selected.keys[i]
      requires forall j, k :: 0 <= j < k < |selected.Items()| ==> selected.Items()[j] != selected.Items()[k]
      modifies this, fs, set c | c in selected.Items()
      ensures connections == old(connections)
      ensures !e.Unavailable?
      ensures MaterialiseAll(old(fs.entries), fs.refused, selected.Items(), old(Held(selected.Items())), env)
           == (if e.Aborted? then Fail(e.error) else Pass, fs.entries)
      ensures fs.umask == old(fs.umask)
      ensures e.Completed? ==>
        && e.total == selected.Count() == |e.rows|
        && (forall i :: 0 <= i < |e.rows| ==> e.rows[i].connection == selected.keys[i])
        && Reported(selected.Items(), e.rows, env)
        && KeptOrBuilt(selected.Items())
        && failed == FailedAfter(old(failed), ResultColumn(e.rows))
        && e.ExitCode() == (if failed then FAILURE else SUCCESS)
        && (e.ExitCode() == SUCCESS <==> !old(failed) && forall i :: 0 <= i < |e.rows| ==> e.rows[i].result.Succeeded?)
    {
      var rows := DumpToScreen(selected.Items(), fs, env);
      if rows.Err? {
        return Aborted(rows.error);
      }
      ClearAfterRows(old(failed), rows.value);
      ReportedNames(selected.Items(), rows.value, env, selected.keys);
      return Completed(rows.value, selected.Count(), if failed then FAILURE else SUCCESS);
    }

    /** `execute()` with the requested names: selects, then reports. An
        unknown name ends the run before anything is tested. */
    method Execute(allowedConnections: seq<string>, fs: FileSystem, env: Environment)
      returns (e: Execution)
      requires Valid()
      modifies this, fs, Touched(connections, allowedConnections)
      ensures connections == old(connections)
      ensures fs.umask == old(fs.umask)
      ensures Select(connections, allowedConnections).None? ==>
        && e == Unavailable && e.ExitCode() == FAILURE && failed == old(failed)
        && fs.entries == old(fs.entries) && unchanged(connections.values.Values)
      ensures Select(connections, allowedConnections).Some? ==>
        var selected := Select(connections, allowedConnections).value;
        && !e.Unavailable?
        && MaterialiseAll(old(fs.entries), fs.refused, selected.Items(), old(Held(selected.Items())), env)
           == (if e.Aborted? then Fail(e.error) else Pass, fs.entries)
      ensures e.Completed? ==>
        var selected := Select(connections, allowedConnections).value;
        && e.total == selected.Count() == |e.rows|
        && (forall i :: 0 <= i < |e.rows| ==> e.rows[i].connection == selected.keys[i])
        && Reported(selected.Items(), e.rows, env)
        && KeptOrBuilt(selected.Items())
        && failed == FailedAfter(old(failed), ResultColumn(e.rows))
        && e.ExitCode() == (if failed then FAILURE else SUCCESS)
        && (e.ExitCode() == SUCCESS <==> !old(failed) && forall i :: 0 <= i < |e.rows| ==> e.rows[i].result.Succeeded?)
    {
      var selection := SelectConnections(allowedConnections);
      if selection.None? {
        return Unavailable;
      }
      SelectedItems(connections, allowedConnections);
      e := Report(selection.value, fs, env);
    }
  }
}
