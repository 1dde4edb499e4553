/** The service's connection to the server: registration, credentials and their recovery. */
module ServerConnection {
  import opened Wrappers
  import opened MachineService

  /** What the credential file holds. */
  datatype Stored = Stored(id: Option<string>, key: string)

  /** The client's fields and its credential file; the empty string stands for `null` as well. */
  datatype Client = Client(machineId: string, apiKey: string, connected: bool, store: Option<Stored>)

  /** How the registration request fares on the network. */
  datatype Net = Unreachable | ReplyLost | Answered

  /** What the environment contributes to one step: to a registration, and to the connect after it. */
  datatype Env = Env(
    net: Net, freshKey: string, saveOk: bool, deleteOk: bool, machineName: string,
    socketUp: bool, now: int, ipAddress: string)

  function Lower(c: char): char {
    if 'A' <= c <= 'Z' then c - 'A' + 'a' else c
  }

  /** `string.Equals(…, OrdinalIgnoreCase)` on ASCII. */
  predicate EqualsIgnoreCase(a: string, b: string) {
    |a| == |b| && forall i :: 0 <= i < |a| ==> Lower(a[i]) == Lower(b[i])
  }

  const UPPER := "ABCDEFGHIJKLMNOPQRSTUVWXYZ"
  const LOWER := "abcdefghijklmnopqrstuvwxyz"

  /** The same character, or the two cases of one letter. */
  ghost predicate SameLetter(x: char, y: char) {
    x == y || exists k :: AreCases(k, x, y) || AreCases(k, y, x)
  }

  predicate AreCases(k: int, upper: char, lower: char) {
    0 <= k < 26 && UPPER[k] == upper && LOWER[k] == lower
  }

  lemma {:induction false} Alphabet(k: nat)
    requires k < 26
    ensures UPPER[k] as int == 65 + k && LOWER[k] as int == 97 + k
  {
  }

  lemma {:induction false} CasesAreEqual(k: int, upper: char, lower: char)
    requires AreCases(k, upper, lower)
    ensures Lower(upper) == lower && Lower(lower) == lower
  {
    Alphabet(k);
  }

  lemma {:induction false} EqualAreCases(upper: char, lower: char)
    requires 'A' <= upper <= 'Z' && Lower(upper) == lower
    ensures AreCases(upper as int - 65, upper, lower)
  {
    Alphabet(upper as int - 65);
  }

  lemma {:induction false} LowerMeans(x: char, y: char)
    ensures Lower(x) == Lower(y) <==> SameLetter(x, y)
  {
    if Lower(x) == Lower(y) && x != y {
      if 'A' <= x <= 'Z' {
        EqualAreCases(x, y);
      } else {
        EqualAreCases(y, x);
      }
    }
    if k :| AreCases(k, x, y) || AreCases(k, y, x) {
      if AreCases(k, x, y) {
        CasesAreEqual(k, x, y);
      } else {
        CasesAreEqual(k, y, x);
      }
    }
  }

  /** Ignoring case is comparing letter by letter. */
  lemma {:induction false} IgnoresCaseOnly(a: string, b: string)
    ensures EqualsIgnoreCase(a, b) <==> |a| == |b| && forall i :: 0 <= i < |a| ==> SameLetter(a[i], b[i])
  {
    if |a| == |b| {
      forall i | 0 <= i < |a| ensures Lower(a[i]) == Lower(b[i]) <==> SameLetter(a[i], b[i]) {
        LowerMeans(a[i], b[i]);
      }
    }
  }

  /** The one kind of canonical id the client does not take over. */
  predicate DifferOnlyInCase(a: string, b: string) {
    a != b && EqualsIgnoreCase(a, b)
  }

  /** `RegisterMachineAsync`: the table, the client and whether it came back without an exception. */
  function Register(c: Client, table: seq<Machine>, env: Env): (seq<Machine>, Client, bool) {
    if env.net == Unreachable then (table, c, false)
    else
      var (after, result) := Registered(table, c.machineId, env.machineName, Some(env.machineName), env.freshKey);
      if env.net == ReplyLost || result.Err? then (after, c, false)
      else
        var r := result.value;
        var id := if r.machineId != "" && !EqualsIgnoreCase(r.machineId, c.machineId) then r.machineId else c.machineId;
        var c' := c.(apiKey := r.apiKey, machineId := id);
        if r.apiKey == "" || id == "" then (after, c', true)
        else if env.saveOk then (after, c'.(store := Some(Stored(Some(id), r.apiKey))), true)
        else (after, c', false)
  }

  /** `ConnectAsync` and the server's reply. */
  function Connect(c: Client, table: seq<Machine>): Client {
    if Welcomes(Answer(table, c.machineId, c.apiKey)) then c.(connected := true) else c
  }

  /** `InitializeAsync` of a new process; `generated` is the hardware id. */
  function Initialize(store: Option<Stored>, table: seq<Machine>, env: Env, generated: string): (seq<Machine>, Client) {
    if store.Some? && store.value.key != "" then
      var id := if store.value.id.Some? then store.value.id.value else generated;
      (table, Connect(Client(id, store.value.key, false, store), table))
    else
      var (after, c, ok) := Register(Client(generated, "", false, store), table, env);
      (after, if ok then Connect(c, after) else c)
  }

  /** `HandleCredentialFailureAsync`. */
  function Recover(c: Client, table: seq<Machine>, env: Env): (seq<Machine>, Client) {
    if !env.deleteOk then (table, c)
    else
      var (after, c', ok) := Register(c.(store := None, apiKey := ""), table, env);
      (after, if ok && c'.apiKey != "" then Connect(c', after) else c')
  }

  /** The end of `EnsureConnectedAsync`: a socket that is up but not authenticated repeats the
      handshake, and one that is down connects. */
  function Reconnect(c: Client, table: seq<Machine>, env: Env): Client {
    if env.socketUp && (c.connected || c.apiKey == "") then c else Connect(c, table)
  }

  /** `EnsureConnectedAsync`. */
  function Ensure(c: Client, table: seq<Machine>, env: Env, generated: string): (seq<Machine>, Client) {
    if c.apiKey != "" then (table, Reconnect(c, table, env))
    else
      var c1 := if c.machineId == "" then c.(machineId := generated) else c;
      var (after, c', ok) := Register(c1, table, env);
      (after, if ok then Reconnect(c', after, env) else c')
  }

  class Connection {
    const server: Server
    var machineId: string
    var apiKey: string
    var isConnected: bool
    var store: Option<Stored>

    function State(): Client
      reads this
    {
      Client(machineId, apiKey, isConnected, store)
    }

    constructor (server: Server, store: Option<Stored>)
      ensures State() == Client("", "", false, store) && this.server == server
    {
      this.server := server;
      machineId, apiKey, isConnected := "", "", false;
      this.store := store;
    }

    method RegisterMachine(env: Env) returns (ok: bool)
      modifies this, server
      ensures (server.machines, State(), ok) == Register(old(State()), old(server.machines), env)
    {
      if env.net == Unreachable {
        return false;
      }
      var result := server.Register(machineId, env.machineName, Some(env.machineName), env.freshKey);
      if env.net == ReplyLost || result.Err? {
        return false;
      }
      apiKey := result.value.apiKey;
      if result.value.machineId != "" && !EqualsIgnoreCase(result.value.machineId, machineId) {
        machineId := result.value.machineId;
      }
      if apiKey != "" && machineId != "" {
        if !env.saveOk {
          return false;
        }
        store := Some(Stored(Some(machineId), apiKey));
      }
      return true;
    }

    method ConnectSocket(env: Env)
      modifies this, server`events, server`presence
      ensures State() == Connect(old(State()), server.machines)
    {
      var reply := server.Connect(machineId, apiKey, env.now, env.ipAddress);
      if Welcomes(reply) {
        isConnected := true;
      }
    }

    method InitializeConnection(env: Env, generated: string)
      requires State() == Client("", "", false, store)
      modifies this, server
      ensures (server.machines, State()) == Initialize(old(store), old(server.machines), env, generated)
    {
      if store.Some? && store.value.key != "" {
        apiKey := store.value.key;
        machineId := if store.value.id.Some? then store.value.id.value else generated;
      } else {
        machineId := generated;
      }
      if apiKey == "" {
        var ok := RegisterMachine(env);
        if !ok {
          return;
        }
      }
      ConnectSocket(env);
    }

    method HandleCredentialFailure(env: Env)
      modifies this, server
      ensures (server.machines, State()) == Recover(old(State()), old(server.machines), env)
    {
      if !env.deleteOk {
        return;
      }
      store := None;
      apiKey := "";
      var ok := RegisterMachine(env);
      if ok && apiKey != "" {
        ConnectSocket(env);
      }
    }

    method EnsureConnected(env: Env, generated: string)
      modifies this, server
      ensures (server.machines, State()) == Ensure(old(State()), old(server.machines), env, generated)
      ensures old(apiKey) != "" && env.socketUp && old(isConnected) ==> server.events == old(server.events)
    {
      if apiKey == "" {
        if machineId == "" {
          machineId := generated;
        }
        var ok := RegisterMachine(env);
        if !ok {
          return;
        }
      }
      if env.socketUp {
        if !isConnected && apiKey != "" {
          ConnectSocket(env);
        }
        return;
      }
      ConnectSocket(env);
    }
  }

  // ---- The protocol -------------------------------------------------------------------------

  datatype System = System(table: seq<Machine>, client: Client)

  /** Steps of this client, of its process, of other machines and of the server's operators. */
  datatype Event =
    | Start(env: Env, generated: string)
    | CredentialFailure(env: Env)
    | Watchdog(env: Env, generated: string)
    | Dropped
    | OtherRegisters(id: string, name: string, key: string)
    | Adopt(id: string, displayName: Option<string>)
    | Archive(id: string)
    | Unarchive(id: string)
    | Rename(id: string, name: string, hostname: string)

  function Step(s: System, e: Event): System {
    match e
    case Start(env, generated) =>
      var (t, c) := Initialize(s.client.store, s.table, env, generated); System(t, c)
    case CredentialFailure(env) =>
      var (t, c) := Recover(s.client, s.table, env); System(t, c)
    case Watchdog(env, generated) =>
      var (t, c) := Ensure(s.client, s.table, env, generated); System(t, c)
    case Dropped => s.(client := s.client.(connected := false))
    case OtherRegisters(id, name, key) => s.(table := Registered(s.table, id, name, None, key).0)
    case Adopt(id, displayName) => s.(table := Adopted(s.table, id, displayName).0)
    case Archive(id) => s.(table := ArchivedIn(s.table, id).0)
    case Unarchive(id) => s.(table := UnarchivedIn(s.table, id).0)
    case Rename(id, name, hostname) => s.(table := UpdatedIn(s.table, id, name, hostname).0)
  }

  /** The server knows exactly this pair. */
  ghost predicate Accepted(table: seq<Machine>, id: string, key: string) {
    id != "" && key != "" && HasRow(table, id, key)
  }

  /** Whatever credentials the client holds or has stored, the server accepts. */
  ghost predicate Good(s: System) {
    && Valid(s.table)
    && (s.client.apiKey != "" ==> Accepted(s.table, s.client.machineId, s.client.apiKey))
    && (s.client.store.Some? && s.client.store.value.key != "" ==>
          && s.client.store.value.id.Some?
          && Accepted(s.table, s.client.store.value.id.value, s.client.store.value.key))
  }

  /** All ids in play come from a set in which no two differ only in case. */
  ghost predicate CaseDistinct(ids: set<string>) {
    forall a, b :: a in ids && b in ids ==> !DifferOnlyInCase(a, b)
  }

  ghost predicate Within(s: System, ids: set<string>) {
    (forall i :: 0 <= i < |s.table| ==> s.table[i].id in ids) && s.client.machineId in ids
    && (s.client.store.Some? && s.client.store.value.id.Some? ==> s.client.store.value.id.value in ids)
  }

  ghost predicate Fair(e: Event, ids: set<string>) {
    match e
    case Start(env, generated) => env.freshKey != "" && generated in ids
    case CredentialFailure(env) => env.freshKey != ""
    case Watchdog(env, generated) => env.freshKey != "" && generated in ids
    case OtherRegisters(id, _, key) => key != "" && id in ids
    case _ => true
  }

  /** After a registration that was answered, the server accepts what the client now holds exactly
      when the canonical id does not differ from the client's only in case. */
  lemma {:induction false} RegisteredIsAccepted(c: Client, table: seq<Machine>, env: Env)
    requires Valid(table) && env.freshKey != "" && env.net == Answered
    requires Registered(table, c.machineId, env.machineName, Some(env.machineName), env.freshKey).1.Ok?
    ensures var r := Registered(table, c.machineId, env.machineName, Some(env.machineName), env.freshKey).1.value;
      var (after, c', ok) := Register(c, table, env);
      && c'.apiKey == r.apiKey != ""
      && (Accepted(after, c'.machineId, c'.apiKey) <==> !DifferOnlyInCase(r.machineId, c.machineId))
      && (ok ==> c'.store == Some(Stored(Some(c'.machineId), c'.apiKey)))
  {
    RegisterKeeps(table, c.machineId, env.machineName, Some(env.machineName), env.freshKey);
    var (after, result) := Registered(table, c.machineId, env.machineName, Some(env.machineName), env.freshKey);
    var r := result.value;
    if DifferOnlyInCase(r.machineId, c.machineId) {
      // The row was found by name, so no row has the client's own spelling of the id.
      assert FindById(table, c.machineId).None? && after == table;
    } else {
      assert r.machineId != c.machineId ==> !EqualsIgnoreCase(r.machineId, c.machineId);
    }
  }

  lemma {:induction false} AcceptedLater(before: seq<Machine>, after: seq<Machine>, id: string, key: string)
    requires KeepsCredentials(before, after) && Accepted(before, id, key)
    ensures Accepted(after, id, key)
  {
    var i :| 0 <= i < |before| && before[i].id == id && before[i].apiKey == key;
    assert after[i].id == id && after[i].apiKey == key;
  }

  /** A registered machine keeps ids in the known set. */
  lemma {:induction false} RegisteredWithin(
    table: seq<Machine>, id: string, name: string, hostname: Option<string>, key: string, ids: set<string>)
    requires (forall i :: 0 <= i < |table| ==> table[i].id in ids) && id in ids
    ensures var (after, r) := Registered(table, id, name, hostname, key);
      && (forall i :: 0 <= i < |after| ==> after[i].id in ids)
      && (r.Ok? ==> r.value.machineId in ids)
  {
  }

  /** A registration attempt, however it fares, leaves a client that had no key in a good state. */
  lemma {:induction false} RegisterIsGood(c: Client, table: seq<Machine>, env: Env, ids: set<string>)
    requires Good(System(table, c)) && Within(System(table, c), ids) && CaseDistinct(ids)
    requires c.apiKey == "" && env.freshKey != ""
    ensures var (after, c', ok) := Register(c, table, env);
      && Good(System(after, c')) && Within(System(after, c'), ids) && KeepsCredentials(table, after)
      && (ok ==> c'.apiKey != "")
  {
    RegisterKeeps(table, c.machineId, env.machineName, Some(env.machineName), env.freshKey);
    RegisteredWithin(table, c.machineId, env.machineName, Some(env.machineName), env.freshKey, ids);
    var (after, result) := Registered(table, c.machineId, env.machineName, Some(env.machineName), env.freshKey);
    if c.store.Some? && c.store.value.key != "" {
      AcceptedLater(table, after, c.store.value.id.value, c.store.value.key);
    }
    if env.net == Answered && result.Ok? {
      RegisteredIsAccepted(c, table, env);
    }
  }

  lemma {:induction false} ConnectIsGood(c: Client, table: seq<Machine>, ids: set<string>)
    requires Good(System(table, c)) && Within(System(table, c), ids)
    ensures Good(System(table, Connect(c, table))) && Within(System(table, Connect(c, table)), ids)
    ensures c.apiKey != "" ==> Connect(c, table).connected
  {
  }

  lemma {:induction false} TableStepIsGood(s: System, after: seq<Machine>, ids: set<string>)
    requires Good(s) && Within(s, ids) && Valid(after) && KeepsCredentials(s.table, after)
    requires forall i :: 0 <= i < |after| ==> after[i].id in ids
    ensures Good(s.(table := after)) && Within(s.(table := after), ids)
  {
    var c := s.client;
    if c.apiKey != "" {
      AcceptedLater(s.table, after, c.machineId, c.apiKey);
    }
    if c.store.Some? && c.store.value.key != "" {
      AcceptedLater(s.table, after, c.store.value.id.value, c.store.value.key);
    }
  }

  lemma {:induction false} ServerStepIsGood(s: System, e: Event, ids: set<string>)
    requires Good(s) && Within(s, ids) && Fair(e, ids)
    requires e.OtherRegisters? || e.Adopt? || e.Archive? || e.Unarchive? || e.Rename?
    ensures Good(Step(s, e)) && Within(Step(s, e), ids)
  {
    match e
    case OtherRegisters(id, name, key) =>
      RegisterKeeps(s.table, id, name, None, key);
      RegisteredWithin(s.table, id, name, None, key, ids);
      TableStepIsGood(s, Step(s, e).table, ids);
    case Adopt(id, displayName) =>
      StatusChangesKeepKeys(s.table, id, displayName, "", "");
      TableStepIsGood(s, Step(s, e).table, ids);
    case Rename(id, name, hostname) =>
      StatusChangesKeepKeys(s.table, id, None, name, hostname);
      TableStepIsGood(s, Step(s, e).table, ids);
    case Archive(id) =>
      StatusChangesKeepKeys(s.table, id, None, "", "");
      TableStepIsGood(s, Step(s, e).table, ids);
    case Unarchive(id) =>
      StatusChangesKeepKeys(s.table, id, None, "", "");
      TableStepIsGood(s, Step(s, e).table, ids);
  }

  /** Good states stay good, step by step. */
  lemma {:induction false} StepIsGood(s: System, e: Event, ids: set<string>)
    requires Good(s) && Within(s, ids) && CaseDistinct(ids) && Fair(e, ids)
    ensures Good(Step(s, e)) && Within(Step(s, e), ids)
  {
    match e
    case Start(env, generated) =>
      if s.client.store.Some? && s.client.store.value.key != "" {
        var stored := s.client.store.value;
        ConnectIsGood(Client(stored.id.value, stored.key, false, s.client.store), s.table, ids);
      } else {
        var c := Client(generated, "", false, s.client.store);
        RegisterIsGood(c, s.table, env, ids);
        ConnectIsGood(Register(c, s.table, env).1, Register(c, s.table, env).0, ids);
      }
    case CredentialFailure(env) =>
      var c := s.client.(store := None, apiKey := "");
      RegisterIsGood(c, s.table, env, ids);
      ConnectIsGood(Register(c, s.table, env).1, Register(c, s.table, env).0, ids);
    case Watchdog(env, generated) =>
      if s.client.apiKey != "" {
        ConnectIsGood(s.client, s.table, ids);
      } else {
        var c := if s.client.machineId == "" then s.client.(machineId := generated) else s.client;
        RegisterIsGood(c, s.table, env, ids);
        ConnectIsGood(Register(c, s.table, env).1, Register(c, s.table, env).0, ids);
      }
    case Dropped =>
    case _ => ServerStepIsGood(s, e, ids);
  }

  function Run(s: System, events: seq<Event>): System
    decreases |events|
  {
    if |events| == 0 then s else Run(Step(s, events[0]), events[1..])
  }

  /** In every later state the client's credentials, held or stored, are a server record. */
  lemma {:induction false} RunIsGood(s: System, events: seq<Event>, ids: set<string>)
    requires Good(s) && Within(s, ids) && CaseDistinct(ids)
    requires forall i :: 0 <= i < |events| ==> Fair(events[i], ids)
    ensures Good(Run(s, events)) && Within(Run(s, events), ids)
    decreases |events|
  {
    if |events| > 0 {
      StepIsGood(s, events[0], ids);
      RunIsGood(Step(s, events[0]), events[1..], ids);
    }
  }

  /** So the next `machine:connect` succeeds, after any run. */
  lemma {:induction false} NextConnectSucceeds(s: System, events: seq<Event>, ids: set<string>)
    requires Good(s) && Within(s, ids) && CaseDistinct(ids)
    requires forall i :: 0 <= i < |events| ==> Fair(events[i], ids)
    requires Run(s, events).client.apiKey != ""
    ensures var last := Run(s, events); Welcomes(Answer(last.table, last.client.machineId, last.client.apiKey))
  {
    RunIsGood(s, events, ids);
    var last := Run(s, events);
    WelcomeIffRow(last.table, last.client.machineId, last.client.apiKey);
  }

  /** The server knows this machine, by its name only, under another spelling of the client's id. */
  ghost predicate CaseClash(table: seq<Machine>, id: string, name: string) {
    && FindById(table, id).None?
    && FindByName(table, name).Some?
    && DifferOnlyInCase(table[FindByName(table, name).value].id, id)
  }

  lemma {:induction false} ClashIffCanonicalDiffers(
    table: seq<Machine>, id: string, name: string, hostname: Option<string>, key: string)
    requires Registered(table, id, name, hostname, key).1.Ok?
    ensures var canonical := Registered(table, id, name, hostname, key).1.value.machineId;
      DifferOnlyInCase(canonical, id) <==> CaseClash(table, id, name)
  {
  }

  /** However a recovery fares on the network, it leaves no credentials the server does not accept,
      unless it was answered with another spelling of the client's id. */
  lemma {:induction false} RecoveryIsGoodIffNoClash(s: System, env: Env)
    requires Valid(s.table) && env.deleteOk && env.freshKey != ""
    ensures var (id, name) := (s.client.machineId, env.machineName);
      var result := Registered(s.table, id, name, Some(name), env.freshKey).1;
      Good(Step(s, CredentialFailure(env)))
      <==> !(env.net == Answered && result.Ok? && CaseClash(s.table, id, name))
  {
    var c := s.client.(store := None, apiKey := "");
    RegisterKeeps(s.table, c.machineId, env.machineName, Some(env.machineName), env.freshKey);
    var (after, result) := Registered(s.table, c.machineId, env.machineName, Some(env.machineName), env.freshKey);
    if env.net == Answered && result.Ok? {
      ClashIffCanonicalDiffers(s.table, c.machineId, env.machineName, Some(env.machineName), env.freshKey);
      RegisteredIsAccepted(c, s.table, env);
    }
  }

  /** From any state, however stale its credentials, one recovery that can delete and save the file
      and reaches the server leaves the client connected with stored, accepted credentials, exactly
      when the server does not know it under another spelling of its id. */
  lemma {:induction false} OneRecoverySuffices(s: System, env: Env)
    requires Valid(s.table) && s.client.machineId != "" && env.machineName != ""
    requires env.net == Answered && env.saveOk && env.deleteOk && env.freshKey != "" && !KeyInUse(s.table, env.freshKey)
    ensures var s' := Step(s, CredentialFailure(env));
      (&& Good(s') && s'.client.connected && s'.client.apiKey != ""
       && s'.client.store == Some(Stored(Some(s'.client.machineId), s'.client.apiKey)))
      <==> !CaseClash(s.table, s.client.machineId, env.machineName)
  {
    var c := s.client.(store := None, apiKey := "");
    RecoveryIsGoodIffNoClash(s, env);
    RegisterKeeps(s.table, c.machineId, env.machineName, Some(env.machineName), env.freshKey);
    ClashIffCanonicalDiffers(s.table, c.machineId, env.machineName, Some(env.machineName), env.freshKey);
    RegisteredIsAccepted(c, s.table, env);
    var (after, c', ok) := Register(c, s.table, env);
    assert Accepted(after, c'.machineId, c'.apiKey) ==> Connect(c', after).connected;
  }

  // ---- Ids that differ only in case ---------------------------------------------------------

  /** The client goes by one spelling of its id, the server by another. */
  ghost predicate Stuck(s: System, id: string, name: string) {
    && CaseClash(s.table, id, name)
    && s.client.machineId == id && !s.client.connected
    && (s.client.store.Some? && s.client.store.value.id.Some? ==> s.client.store.value.id.value == id)
  }

  /** Anything may happen but a rename of a row, another machine registering under the client's own
      spelling, and a change of the client's computer name or hardware id. */
  ghost predicate LeavesClash(e: Event, id: string, name: string) {
    match e
    case Start(env, generated) => env.machineName == name && generated == id
    case CredentialFailure(env) => env.machineName == name
    case Watchdog(env, _) => env.machineName == name
    case OtherRegisters(other, _, _) => other != id
    case Rename(_, _, _) => false
    case _ => true
  }

  /** The rows stay in place, and new ones have other ids. */
  lemma {:induction false} ClashStays(table: seq<Machine>, after: seq<Machine>, id: string, name: string)
    requires CaseClash(table, id, name) && |table| <= |after|
    requires forall i :: 0 <= i < |table| ==> after[i].id == table[i].id && after[i].name == table[i].name
    requires forall i :: |table| <= i < |after| ==> after[i].id != id
    ensures CaseClash(after, id, name)
  {
    var i, j := FindByName(table, name).value, FindByName(after, name);
    assert after[i].name == name;
    if j.value < i {
      FindByNameIsFirst(table, name, j.value);
    } else if i < j.value {
      FindByNameIsFirst(after, name, i);
    }
  }

  lemma {:induction false} NothingAccepted(table: seq<Machine>, id: string, name: string)
    requires CaseClash(table, id, name)
    ensures forall key :: !Accepted(table, id, key)
  {
  }

  /** A registration is answered with the other spelling, which the client does not take over. */
  lemma {:induction false} RegisterStaysStuck(c: Client, table: seq<Machine>, env: Env, id: string, name: string)
    requires CaseClash(table, id, name) && env.machineName == name
    requires c.machineId == id && !c.connected
    requires c.store.Some? && c.store.value.id.Some? ==> c.store.value.id.value == id
    ensures var (after, c', ok) := Register(c, table, env);
      after == table && Stuck(System(table, c'), id, name)
  {
  }

  lemma {:induction false} ConnectStaysStuck(c: Client, table: seq<Machine>, id: string, name: string)
    requires Stuck(System(table, c), id, name)
    ensures Connect(c, table) == c
  {
    NothingAccepted(table, id, name);
    WelcomeIffRow(table, id, c.apiKey);
  }

  lemma {:induction false} ClientStepStaysStuck(s: System, e: Event, id: string, name: string)
    requires Stuck(s, id, name) && LeavesClash(e, id, name)
    requires e.Start? || e.CredentialFailure? || e.Watchdog?
    ensures Stuck(Step(s, e), id, name)
  {
    match e
    case Start(env, generated) =>
      if s.client.store.Some? && s.client.store.value.key != "" {
        ConnectStaysStuck(Client(id, s.client.store.value.key, false, s.client.store), s.table, id, name);
      } else {
        var c := Client(id, "", false, s.client.store);
        RegisterStaysStuck(c, s.table, env, id, name);
        ConnectStaysStuck(Register(c, s.table, env).1, s.table, id, name);
      }
    case CredentialFailure(env) =>
      var c := s.client.(store := None, apiKey := "");
      RegisterStaysStuck(c, s.table, env, id, name);
      ConnectStaysStuck(Register(c, s.table, env).1, s.table, id, name);
    case Watchdog(env, generated) =>
      ConnectStaysStuck(s.client, s.table, id, name);
      RegisterStaysStuck(s.client, s.table, env, id, name);
      ConnectStaysStuck(Register(s.client, s.table, env).1, s.table, id, name);
  }

  lemma {:induction false} StepStaysStuck(s: System, e: Event, id: string, name: string)
    requires Stuck(s, id, name) && LeavesClash(e, id, name)
    ensures Stuck(Step(s, e), id, name)
  {
    if e.Start? || e.CredentialFailure? || e.Watchdog? {
      ClientStepStaysStuck(s, e, id, name);
    } else {
      ClashStays(s.table, Step(s, e).table, id, name);
    }
  }

  /** Ids that differ only in case defeat recovery for good: over every run of the client, of other
      machines and of the operators that leaves the spellings alone, the client never connects, and the
      server accepts no key under the id the client goes by. */
  lemma {:induction false} ClashNeverRecovers(s: System, events: seq<Event>, id: string, name: string)
    requires Stuck(s, id, name)
    requires forall i :: 0 <= i < |events| ==> LeavesClash(events[i], id, name)
    ensures Stuck(Run(s, events), id, name)
    ensures forall key :: !Accepted(Run(s, events).table, id, key)
    decreases |events|
  {
    NothingAccepted(s.table, id, name);
    if |events| > 0 {
      StepStaysStuck(s, events[0], id, name);
      ClashNeverRecovers(Step(s, events[0]), events[1..], id, name);
    }
  }

  /** For instance, a client "a" that the server knows as "A": one recovery brings the key of "A", and
      every further one ends the same way. */
  lemma {:induction false} CaseClashNeverRecovers(env: Env)
    requires env.net == Answered && env.saveOk && env.deleteOk && env.machineName == "pc"
    ensures var table := [Machine("A", "pc", None, None, "k", Active)];
      var s' := Step(System(table, Client("a", "old", false, None)), CredentialFailure(env));
      && s' == System(table, Client("a", "k", false, Some(Stored(Some("a"), "k"))))
      && Answer(table, "a", "k") == InvalidCredentials
      && Step(s', CredentialFailure(env)) == s'
  {
    var table := [Machine("A", "pc", None, None, "k", Active)];
    assert table[1..] == [];
    assert FindById(table, "a") == None && FindByName(table, "pc") == Some(0);
    assert EqualsIgnoreCase("A", "a");
    assert !HasRow(table, "a", "k");
  }

  // ---- What each step does to the connection ------------------------------------------------

  /** A registration attempt, by how it fares: without an answer the client stays as it is; an error
      answer changes nothing at all; and an answer with credentials is taken over, except for another
      spelling of the client's own id, and stored if the file can be written. */
  lemma {:induction false} RegisterOutcome(c: Client, table: seq<Machine>, env: Env)
    ensures var (after, c', ok) := Register(c, table, env);
      var (registered, r) := Registered(table, c.machineId, env.machineName, Some(env.machineName), env.freshKey);
      && after == (if env.net == Unreachable then table else registered)
      && c'.connected == c.connected
      && (env.net != Answered || r.Err? ==> c' == c && !ok)
      && (env.net == Answered && r.Ok? ==>
            && c'.apiKey == r.value.apiKey
            && c'.machineId
               == (if r.value.machineId == "" || DifferOnlyInCase(r.value.machineId, c.machineId) then c.machineId
                   else r.value.machineId)
            && var complete := c'.apiKey != "" && c'.machineId != "";
               && (ok <==> env.saveOk || !complete)
               && c'.store == if env.saveOk && complete then Some(Stored(Some(c'.machineId), c'.apiKey)) else c.store)
  {
    var r := Registered(table, c.machineId, env.machineName, Some(env.machineName), env.freshKey).1;
    if r.Ok? && r.value.machineId == c.machineId {
      assert EqualsIgnoreCase(r.value.machineId, c.machineId);
    }
  }

  lemma {:induction false} ConnectsIffAccepted(c: Client, table: seq<Machine>)
    ensures Connect(c, table) == c.(connected := c.connected || Accepted(table, c.machineId, c.apiKey))
  {
    WelcomeIffRow(table, c.machineId, c.apiKey);
  }

  /** A registration that can succeed: the request is answered, the file can be written, and the client
      has an id, a name and a fresh key to offer. */
  ghost predicate CanRegister(table: seq<Machine>, id: string, env: Env) {
    && env.net == Answered && env.saveOk && id != "" && env.machineName != ""
    && env.freshKey != "" && !KeyInUse(table, env.freshKey)
  }

  /** Registering and then connecting succeeds exactly when there is no case clash. */
  lemma {:induction false} RegisterThenConnect(c: Client, table: seq<Machine>, env: Env)
    requires Valid(table) && !c.connected && CanRegister(table, c.machineId, env)
    ensures var (after, c', ok) := Register(c, table, env);
      ok && c'.apiKey != "" && (Connect(c', after).connected <==> !CaseClash(table, c.machineId, env.machineName))
  {
    var (after, c', ok) := Register(c, table, env);
    RegisterOutcome(c, table, env);
    RegisterKeeps(table, c.machineId, env.machineName, Some(env.machineName), env.freshKey);
    RegisterAddsPending(table, c.machineId, env.machineName, Some(env.machineName), env.freshKey);
    RegisteredIsAccepted(c, table, env);
    ClashIffCanonicalDiffers(table, c.machineId, env.machineName, Some(env.machineName), env.freshKey);
    ConnectsIffAccepted(c', after);
  }

  /** A watchdog pass with a key: afterwards the client is connected exactly if it was or if the server
      accepts its credentials, whether the socket is up or down; nothing else changes. */
  lemma {:induction false} WatchdogWithKey(s: System, env: Env, generated: string)
    requires s.client.apiKey != ""
    ensures Step(s, Watchdog(env, generated)) == s.(client := s.client.(connected :=
      s.client.connected || Accepted(s.table, s.client.machineId, s.client.apiKey)))
  {
    ConnectsIffAccepted(s.client, s.table);
  }

  /** A watchdog pass without a key registers first: if that can succeed the client ends connected
      exactly when there is no case clash, and if it does not come back well it is not connected. */
  lemma {:induction false} WatchdogWithoutKey(s: System, env: Env, generated: string)
    requires Valid(s.table) && s.client.apiKey == "" && !s.client.connected && env.freshKey != ""
    ensures var id := if s.client.machineId == "" then generated else s.client.machineId;
      var connected := Step(s, Watchdog(env, generated)).client.connected;
      && (CanRegister(s.table, id, env) ==> (connected <==> !CaseClash(s.table, id, env.machineName)))
      && (env.net != Answered || !env.saveOk ==> !connected)
  {
    RegisterKeeps(s.table, if s.client.machineId == "" then generated else s.client.machineId,
                  env.machineName, Some(env.machineName), env.freshKey);
    var c := if s.client.machineId == "" then s.client.(machineId := generated) else s.client;
    RegisterOutcome(c, s.table, env);
    if CanRegister(s.table, c.machineId, env) {
      RegisterThenConnect(c, s.table, env);
    }
  }

  /** A start from stored credentials connects exactly when the server accepts them. */
  lemma {:induction false} StartFromStore(s: System, env: Env, generated: string)
    requires s.client.store.Some? && s.client.store.value.key != ""
    ensures var stored := s.client.store.value;
      var id := if stored.id.Some? then stored.id.value else generated;
      Step(s, Start(env, generated))
      == System(s.table, Client(id, stored.key, Accepted(s.table, id, stored.key), s.client.store))
  {
    var stored := s.client.store.value;
    var id := if stored.id.Some? then stored.id.value else generated;
    ConnectsIffAccepted(Client(id, stored.key, false, s.client.store), s.table);
  }

  /** A first start registers: if that can succeed the client ends connected exactly when there is no
      case clash, and if it does not come back well it is not connected. */
  lemma {:induction false} FirstStart(s: System, env: Env, generated: string)
    requires Valid(s.table) && env.freshKey != ""
    requires s.client.store.Some? ==> s.client.store.value.key == ""
    ensures var connected := Step(s, Start(env, generated)).client.connected;
      && (CanRegister(s.table, generated, env) ==> (connected <==> !CaseClash(s.table, generated, env.machineName)))
      && (env.net != Answered || !env.saveOk ==> !connected)
  {
    var c := Client(generated, "", false, s.client.store);
    RegisterKeeps(s.table, generated, env.machineName, Some(env.machineName), env.freshKey);
    RegisterOutcome(c, s.table, env);
    if CanRegister(s.table, generated, env) {
      RegisterThenConnect(c, s.table, env);
    }
  }

  /** A recovery that cannot delete the file gives up before it changes anything; any other forgets the
      old credentials, held and stored, and comes back with new ones or with none. */
  lemma {:induction false} RecoveryForgets(s: System, env: Env)
    requires Valid(s.table) && env.freshKey != ""
    ensures var c' := Step(s, CredentialFailure(env)).client;
      && (!env.deleteOk ==> Step(s, CredentialFailure(env)) == s)
      && (env.deleteOk && env.net != Answered ==> c'.apiKey == "" && c'.store == None)
      && (env.deleteOk && c'.store.Some? ==> c'.store == Some(Stored(Some(c'.machineId), c'.apiKey)))
      && (env.net != Answered || !env.saveOk ==> c'.connected == s.client.connected)
  {
    RegisterKeeps(s.table, s.client.machineId, env.machineName, Some(env.machineName), env.freshKey);
    RegisterOutcome(s.client.(store := None, apiKey := ""), s.table, env);
  }

  // ---- Who is active ------------------------------------------------------------------------

  predicate Activates(e: Event, id: string) {
    (e.Adopt? && e.id == id) || (e.Unarchive? && e.id == id)
  }

  /** The table after a step of the client is the one before, or the one after its registration. */
  lemma {:induction false} ClientStepActivatesNone(s: System, e: Event, id: string)
    requires e.Start? || e.CredentialFailure? || e.Watchdog?
    requires StatusOf(Step(s, e).table, id) == Some(Active)
    ensures StatusOf(s.table, id) == Some(Active)
  {
    var own :=
      if e.Start? then e.generated
      else if e.Watchdog? && s.client.machineId == "" then e.generated
      else s.client.machineId;
    if Step(s, e).table != s.table {
      RegisterActivatesNone(s.table, own, e.env.machineName, Some(e.env.machineName), e.env.freshKey, id);
    }
  }

  lemma {:induction false} StepActivates(s: System, e: Event, id: string)
    requires StatusOf(Step(s, e).table, id) == Some(Active)
    ensures StatusOf(s.table, id) == Some(Active) || Activates(e, id)
  {
    var after := Step(s, e).table;
    match e
    case OtherRegisters(other, name, key) =>
      RegisterActivatesNone(s.table, other, name, None, key, id);
    case Adopt(other, displayName) =>
      StatusChangesOneRow(s.table, other, displayName);
      if other != id { ChangeActivatesOne(s.table, after, other, false, id); }
    case Archive(other) =>
      StatusChangesOneRow(s.table, other, None);
      ArchivedIsNotActive(s.table, id);
      if other != id { ChangeActivatesOne(s.table, after, other, false, id); }
    case Unarchive(other) =>
      StatusChangesOneRow(s.table, other, None);
      if other != id { ChangeActivatesOne(s.table, after, other, false, id); }
    case Rename(other, name, hostname) =>
      RenameChangesOneRow(s.table, other, name, hostname);
      ChangeActivatesOne(s.table, after, other, true, id);
    case Dropped =>
    case _ => ClientStepActivatesNone(s, e, id);
  }

  lemma {:induction false} ArchivedIsNotActive(table: seq<Machine>, id: string)
    ensures StatusOf(ArchivedIn(table, id).0, id) != Some(Active)
  {
    var found := FindById(table, id);
    if found.Some? {
      FindSameIds(table, ArchivedIn(table, id).0, id);
    }
  }

  /** Over every run, a machine becomes active only by being adopted or unarchived: no registration, and
      nothing else the machines do, activates it. */
  lemma {:induction false} ActiveOnlyByOperators(s: System, events: seq<Event>, id: string)
    requires StatusOf(Run(s, events).table, id) == Some(Active) && StatusOf(s.table, id) != Some(Active)
    ensures exists i :: 0 <= i < |events| && Activates(events[i], id)
    decreases |events|
  {
    if |events| > 0 {
      var s', rest := Step(s, events[0]), events[1..];
      if StatusOf(s'.table, id) == Some(Active) {
        StepActivates(s, events[0], id);
      } else {
        ActiveOnlyByOperators(s', rest, id);
        var i :| 0 <= i < |rest| && Activates(rest[i], id);
        assert Activates(events[i + 1], id);
      }
    }
  }
}
