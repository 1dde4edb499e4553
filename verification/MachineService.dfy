/** The server's machine table: registration, adoption, archiving, and the credential check. */
module MachineService {
  import opened Wrappers
  import opened Adoption

  datatype Status = Pending | Active | Archived

  datatype Machine = Machine(
    id: string, name: string, displayName: Option<string>, hostname: Option<string>, apiKey: string, status: Status)

  datatype ServiceError = MissingFields | NotFound | AlreadyAdopted | AlreadyArchived | NotArchived | KeyTaken

  datatype Registration = Registration(isNew: bool, machineId: string, apiKey: string)

  /** The row with this primary key. */
  function FindById(table: seq<Machine>, id: string): (r: Option<nat>)
    ensures r.Some? ==> r.value < |table| && table[r.value].id == id
    ensures r.None? ==> forall i :: 0 <= i < |table| ==> table[i].id != id
  {
    if |table| == 0 then None
    else if table[0].id == id then Some(0)
    else match FindById(table[1..], id) case None => None case Some(i) => Some(i + 1)
  }

  /** The first row with this name, in table order. */
  function FindByName(table: seq<Machine>, name: string): (r: Option<nat>)
    ensures r.Some? ==> r.value < |table| && table[r.value].name == name
    ensures r.None? ==> forall i :: 0 <= i < |table| ==> table[i].name != name
  {
    if |table| == 0 then None
    else if table[0].name == name then Some(0)
    else match FindByName(table[1..], name) case None => None case Some(i) => Some(i + 1)
  }

  predicate KeyInUse(table: seq<Machine>, key: string) {
    exists i :: 0 <= i < |table| && table[i].apiKey == key
  }

  /** The registration route and `register`; `freshKey` is what the random generator delivers. */
  function Registered(table: seq<Machine>, id: string, name: string, hostname: Option<string>, freshKey: string)
    : (seq<Machine>, Result<Registration, ServiceError>)
  {
    if id == "" || name == "" then (table, Err(MissingFields))
    else
      match FindById(table, id)
      case Some(i) => (table, Ok(Registration(false, table[i].id, table[i].apiKey)))
      case None =>
        match FindByName(table, name)
        case Some(i) => (table, Ok(Registration(false, table[i].id, table[i].apiKey)))
        case None =>
          if KeyInUse(table, freshKey) then (table, Err(KeyTaken))
          else
            (table + [Machine(id, name, None, NullIfEmpty(hostname), freshKey, Pending)],
             Ok(Registration(true, id, freshKey)))
  }

  function Adopted(
    table: seq<Machine>, id: string, displayName: Option<string>): (seq<Machine>, Result<(), ServiceError>) {
    match FindById(table, id)
    case None => (table, Err(NotFound))
    case Some(i) =>
      if table[i].status == Active then (table, Err(AlreadyAdopted))
      else (table[i := table[i].(status := Active, displayName := displayName)], Ok(()))
  }

  function ArchivedIn(table: seq<Machine>, id: string): (seq<Machine>, Result<(), ServiceError>) {
    match FindById(table, id)
    case None => (table, Err(NotFound))
    case Some(i) =>
      if table[i].status == Archived then (table, Err(AlreadyArchived))
      else (table[i := table[i].(status := Archived)], Ok(()))
  }

  function UnarchivedIn(table: seq<Machine>, id: string): (seq<Machine>, Result<(), ServiceError>) {
    match FindById(table, id)
    case None => (table, Err(NotFound))
    case Some(i) =>
      if table[i].status != Archived then (table, Err(NotArchived))
      else (table[i := table[i].(status := Active)], Ok(()))
  }

  function UpdatedIn(
    table: seq<Machine>, id: string, name: string, hostname: string): (seq<Machine>, Result<(), ServiceError>) {
    match FindById(table, id)
    case None => (table, Err(NotFound))
    case Some(i) =>
      var renamed := if name != "" then table[i].(name := name) else table[i];
      (table[i := if hostname != "" then renamed.(hostname := Some(hostname)) else renamed], Ok(()))
  }

  /** The answers of `machine:connect`. */
  datatype Reply = Connected | ConnectedArchived | MissingCredentials | InvalidCredentials

  ghost predicate HasRow(table: seq<Machine>, id: string, key: string) {
    exists i :: 0 <= i < |table| && table[i].id == id && table[i].apiKey == key
  }

  function FindByCredentials(table: seq<Machine>, id: string, key: string): (r: Option<nat>)
    ensures r.Some? ==> r.value < |table| && table[r.value].id == id && table[r.value].apiKey == key
    ensures r.Some? <==> HasRow(table, id, key)
  {
    if |table| == 0 then None
    else
      assert table == [table[0]] + table[1..];
      if table[0].id == id && table[0].apiKey == key then Some(0)
      else match FindByCredentials(table[1..], id, key) case None => None case Some(i) => Some(i + 1)
  }

  function Answer(table: seq<Machine>, id: string, key: string): Reply {
    if id == "" || key == "" then MissingCredentials
    else
      match FindByCredentials(table, id, key)
      case None => InvalidCredentials
      case Some(i) => if table[i].status == Archived then ConnectedArchived else Connected
  }

  predicate Welcomes(r: Reply) {
    r == Connected || r == ConnectedArchived
  }

  /** The columns of a machine's row that a connection updates. */
  datatype Presence = Presence(lastSeen: int, ipAddress: string)

  class Server {
    var machines: seq<Machine>
    var events: seq<(string, string)>
    var presence: map<string, Presence>
    var settings: map<string, MachineSettings>

    constructor ()
      ensures machines == [] && events == [] && presence == map[] && settings == map[]
    {
      machines, events, presence, settings := [], [], map[], map[];
    }

    method Register(id: string, name: string, hostname: Option<string>, freshKey: string)
      returns (r: Result<Registration, ServiceError>)
      modifies this`machines
      ensures (machines, r) == Registered(old(machines), id, name, hostname, freshKey)
    {
      if id == "" || name == "" {
        return Err(MissingFields);
      }
      var existingById := FindById(machines, id);
      if existingById.Some? {
        var row := machines[existingById.value];
        return Ok(Registration(false, row.id, row.apiKey));
      }
      var existingByName := FindByName(machines, name);
      if existingByName.Some? {
        var row := machines[existingByName.value];
        return Ok(Registration(false, row.id, row.apiKey));
      }
      if KeyInUse(machines, freshKey) {
        return Err(KeyTaken);
      }
      machines := machines + [Machine(id, name, None, NullIfEmpty(hostname), freshKey, Pending)];
      return Ok(Registration(true, id, freshKey));
    }

    method Adopt(id: string, o: AdoptOptions) returns (r: Result<(), ServiceError>)
      modifies this`machines, this`settings
      ensures (machines, r) == Adopted(old(machines), id, NullIfEmpty(o.displayName))
      ensures settings == if r.Ok? then old(settings)[id := InitialSettings(o)] else old(settings)
    {
      var found := FindById(machines, id);
      if found.None? {
        return Err(NotFound);
      }
      if machines[found.value].status == Active {
        return Err(AlreadyAdopted);
      }
      var displayName := NullIfEmpty(o.displayName);
      machines := machines[found.value := machines[found.value].(status := Active, displayName := displayName)];
      settings := settings[id := InitialSettings(o)];
      return Ok(());
    }

    method Archive(id: string) returns (r: Result<(), ServiceError>)
      modifies this`machines, this`events
      ensures (machines, r) == ArchivedIn(old(machines), id)
      ensures events == if r.Ok? then old(events) + [(id, "Archived")] else old(events)
    {
      var found := FindById(machines, id);
      if found.None? {
        return Err(NotFound);
      }
      if machines[found.value].status == Archived {
        return Err(AlreadyArchived);
      }
      machines := machines[found.value := machines[found.value].(status := Archived)];
      events := events + [(id, "Archived")];
      return Ok(());
    }

    method Unarchive(id: string) returns (r: Result<(), ServiceError>)
      modifies this`machines, this`events
      ensures (machines, r) == UnarchivedIn(old(machines), id)
      ensures events == if r.Ok? then old(events) + [(id, "Unarchived")] else old(events)
    {
      var found := FindById(machines, id);
      if found.None? {
        return Err(NotFound);
      }
      if machines[found.value].status != Archived {
        return Err(NotArchived);
      }
      machines := machines[found.value := machines[found.value].(status := Active)];
      events := events + [(id, "Unarchived")];
      return Ok(());
    }

    method Connect(id: string, key: string, now: int, ipAddress: string) returns (r: Reply)
      modifies this`events, this`presence
      ensures r == Answer(machines, id, key)
      ensures events == if Welcomes(r) then old(events) + [(id, "Connected")] else old(events)
      ensures presence == if Welcomes(r) then old(presence)[id := Presence(now, ipAddress)] else old(presence)
    {
      if id == "" || key == "" {
        return MissingCredentials;
      }
      var machine := FindByCredentials(machines, id, key);
      if machine.None? {
        return InvalidCredentials;
      }
      presence := presence[id := Presence(now, ipAddress)];
      events := events + [(id, "Connected")];
      return if machines[machine.value].status == Archived then ConnectedArchived else Connected;
    }
  }

  // ---- What the table keeps -----------------------------------------------------------------

  /** Ids and keys are unique, and neither is ever empty. */
  ghost predicate Valid(table: seq<Machine>) {
    && (forall i, j :: 0 <= i < j < |table| ==> table[i].id != table[j].id && table[i].apiKey != table[j].apiKey)
    && (forall i :: 0 <= i < |table| ==> table[i].id != "" && table[i].apiKey != "")
  }

  /** Every later table holds the credentials of every earlier one, in the same places. */
  ghost predicate KeepsCredentials(before: seq<Machine>, after: seq<Machine>) {
    && |before| <= |after|
    && forall i :: 0 <= i < |before| ==> after[i].id == before[i].id && after[i].apiKey == before[i].apiKey
  }

  lemma {:induction false} RegisterKeeps(
    table: seq<Machine>, id: string, name: string, hostname: Option<string>, freshKey: string)
    requires Valid(table) && freshKey != ""
    ensures var (after, r) := Registered(table, id, name, hostname, freshKey);
      && Valid(after) && KeepsCredentials(table, after)
      && (r.Ok? ==> r.value.machineId != "" && r.value.apiKey != "" && HasRow(after, r.value.machineId, r.value.apiKey))
  {
    var (after, r) := Registered(table, id, name, hostname, freshKey);
    if r.Ok? {
      if r.value.isNew {
        assert after[|table|].id == id && after[|table|].apiKey == freshKey;
      } else {
        var i := if FindById(table, id).Some? then FindById(table, id).value else FindByName(table, name).value;
        assert table[i].id == r.value.machineId && table[i].apiKey == r.value.apiKey;
      }
    }
  }

  lemma {:induction false} FindByNameIsFirst(table: seq<Machine>, name: string, j: nat)
    requires FindByName(table, name).Some? && j < FindByName(table, name).value
    ensures table[j].name != name
  {
    if j > 0 {
      FindByNameIsFirst(table[1..], name, j - 1);
    }
  }

  /** Row `i` is the caller's by id, or else the first one by name, when no row has the id. */
  ghost predicate IsCallersRow(table: seq<Machine>, after: seq<Machine>, i: int, id: string, name: string) {
    && 0 <= i < |after|
    && (after[i].id != id ==>
          && (forall j :: 0 <= j < |table| ==> table[j].id != id)
          && after[i].name == name
          && forall j :: 0 <= j < i ==> after[j].name != name)
  }

  /** Whose credentials registration returns: those of the row with the caller's id; without one,
      of the first row with the caller's name; without that either, of a new row. */
  lemma {:induction false} RegisterChooses(
    table: seq<Machine>, id: string, name: string, hostname: Option<string>, freshKey: string)
    requires Registered(table, id, name, hostname, freshKey).1.Ok?
    ensures var (after, r) := Registered(table, id, name, hostname, freshKey);
      exists i :: IsCallersRow(table, after, i, id, name)
        && after[i].id == r.value.machineId && after[i].apiKey == r.value.apiKey && (r.value.isNew <==> i == |table|)
  {
    var (after, r) := Registered(table, id, name, hostname, freshKey);
    var byId, byName := FindById(table, id), FindByName(table, name);
    if byId.Some? {
      assert IsCallersRow(table, after, byId.value, id, name);
    } else if byName.Some? {
      forall j | 0 <= j < byName.value ensures after[j].name != name {
        FindByNameIsFirst(table, name, j);
      }
      assert IsCallersRow(table, after, byName.value, id, name);
    } else {
      assert IsCallersRow(table, after, |table|, id, name);
    }
  }

  /** The credential check lets in exactly the holders of a row's id and key. */
  lemma {:induction false} WelcomeIffRow(table: seq<Machine>, id: string, key: string)
    ensures Welcomes(Answer(table, id, key)) <==> id != "" && key != "" && HasRow(table, id, key)
    ensures Valid(table) && Answer(table, id, key) == ConnectedArchived ==> StatusOf(table, id) == Some(Archived)
  {
    if Welcomes(Answer(table, id, key)) {
      var i, j := FindByCredentials(table, id, key).value, FindById(table, id);
      assert j.Some? && table[j.value].id == table[i].id;
    }
  }

  /** Asking again returns the same credentials and changes nothing, whatever key is drawn. */
  lemma {:induction false} RegisterIdempotent(
    table: seq<Machine>, id: string, name: string, hostname: Option<string>, key1: string, key2: string)
    ensures var (after, r) := Registered(table, id, name, hostname, key1);
      r.Ok? ==>
        var (again, r') := Registered(after, id, name, hostname, key2);
        again == after && r'.Ok? && r'.value.machineId == r.value.machineId && r'.value.apiKey == r.value.apiKey
  {
    var (after, r) := Registered(table, id, name, hostname, key1);
    if r.Ok? && r.value.isNew {
      var i := FindById(after, id);
      assert after[|table|].id == id;
      assert i == Some(|table|);
    }
  }

  ghost predicate SameCredentials(before: seq<Machine>, after: seq<Machine>) {
    Valid(after) && |after| == |before| && KeepsCredentials(before, after)
  }

  lemma {:induction false} RowChange(table: seq<Machine>, i: nat, row: Machine)
    requires Valid(table) && i < |table| && row.id == table[i].id && row.apiKey == table[i].apiKey
    ensures SameCredentials(table, table[i := row])
  {
  }

  /** Adopting, archiving, unarchiving and renaming never change an id or a key. */
  lemma {:induction false} StatusChangesKeepKeys(
    table: seq<Machine>, id: string, displayName: Option<string>, name: string, hostname: string)
    requires Valid(table)
    ensures SameCredentials(table, Adopted(table, id, displayName).0)
    ensures SameCredentials(table, ArchivedIn(table, id).0)
    ensures SameCredentials(table, UnarchivedIn(table, id).0)
    ensures SameCredentials(table, UpdatedIn(table, id, name, hostname).0)
  {
    match FindById(table, id)
    case None =>
    case Some(i) =>
      RowChange(table, i, table[i].(status := Active, displayName := displayName));
      RowChange(table, i, table[i].(status := Archived));
      RowChange(table, i, table[i].(status := Active));
      var updated := UpdatedIn(table, id, name, hostname).0;
      RowChange(table, i, updated[i]);
      assert updated == table[i := updated[i]];
  }

  /** Archiving and unarchiving a machine that was active restores its row. */
  lemma {:induction false} ArchiveRoundTrip(table: seq<Machine>, id: string)
    requires Valid(table) && ArchivedIn(table, id).1.Ok?
    ensures var back := UnarchivedIn(ArchivedIn(table, id).0, id);
      back.1.Ok? && (back.0 == table <==> table[FindById(table, id).value].status == Active)
  {
    var i := FindById(table, id).value;
    var archived := ArchivedIn(table, id).0;
    var j := FindById(archived, id);
    assert archived[i].id == id;
    assert j == Some(i);
    var back := UnarchivedIn(archived, id).0;
    if table[i].status == Active {
      assert back == table;
    } else {
      assert back[i].status != table[i].status;
    }
  }

  function StatusOf(table: seq<Machine>, id: string): Option<Status> {
    match FindById(table, id) case None => None case Some(i) => Some(table[i].status)
  }

  lemma {:induction false} StatusAfterChange(table: seq<Machine>, i: nat, row: Machine, other: string)
    requires Valid(table) && i < |table| && row.id == table[i].id
    ensures StatusOf(table[i := row], other) == if other == row.id then Some(row.status) else StatusOf(table, other)
  {
    var changed := table[i := row];
    var j, k := FindById(table, other), FindById(changed, other);
    assert changed[i].id == row.id;
    assert forall m :: 0 <= m < |table| ==> changed[m].id == table[m].id;
    if j.Some? {
      assert changed[j.value].id == other;
    }
    if k.Some? {
      assert table[k.value].id == other;
    }
  }

  /** The life of a machine: adoption admits exactly the machines that are not active, archiving the
      ones not archived, unarchiving the archived ones; each success sets its status and touches no
      other machine. */
  lemma {:induction false} Lifecycle(table: seq<Machine>, id: string, displayName: Option<string>, other: string)
    requires Valid(table)
    ensures var (after, r) := Adopted(table, id, displayName);
      && (r.Ok? <==> StatusOf(table, id).Some? && StatusOf(table, id) != Some(Active))
      && StatusOf(after, other) == if r.Ok? && other == id then Some(Active) else StatusOf(table, other)
    ensures var (after, r) := ArchivedIn(table, id);
      && (r.Ok? <==> StatusOf(table, id).Some? && StatusOf(table, id) != Some(Archived))
      && StatusOf(after, other) == if r.Ok? && other == id then Some(Archived) else StatusOf(table, other)
    ensures var (after, r) := UnarchivedIn(table, id);
      && (r.Ok? <==> StatusOf(table, id) == Some(Archived))
      && StatusOf(after, other) == if r.Ok? && other == id then Some(Active) else StatusOf(table, other)
  {
    match FindById(table, id)
    case None =>
    case Some(i) =>
      StatusAfterChange(table, i, table[i].(status := Active, displayName := displayName), other);
      StatusAfterChange(table, i, table[i].(status := Archived), other);
      StatusAfterChange(table, i, table[i].(status := Active), other);
  }

  // ---- The rows themselves ------------------------------------------------------------------

  /** What a registration leaves behind: a new machine gets one row at the end, pending, under the
      caller's id, names and the fresh key; any other answer leaves the table alone. */
  lemma {:induction false} RegisterAddsPending(
    table: seq<Machine>, id: string, name: string, hostname: Option<string>, freshKey: string)
    ensures var (after, r) := Registered(table, id, name, hostname, freshKey);
      && (r.Ok? && r.value.isNew ==>
            && |after| == |table| + 1 && after[..|table|] == table
            && var row := after[|table|];
               && row.id == id && row.name == name && row.apiKey == freshKey && row.status == Pending
               && row.displayName == None && row.hostname == (if hostname == Some("") then None else hostname))
      && (r.Err? || !r.value.isNew ==> after == table)
    ensures var r := Registered(table, id, name, hostname, freshKey).1;
      && (r.Ok? && r.value.isNew <==>
            && id != "" && name != "" && !KeyInUse(table, freshKey)
            && forall i :: 0 <= i < |table| ==> table[i].id != id && table[i].name != name)
      && (r == Err(MissingFields) <==> id == "" || name == "")
      && (r.Err? ==> r.error == MissingFields || r.error == KeyTaken)
  {
    var byId, byName := FindById(table, id), FindByName(table, name);
    if byId.Some? {
      assert table[byId.value].id == id;
    }
    if byName.Some? {
      assert table[byName.value].name == name;
    }
  }

  /** At most the row of that id changes, and in that row at most these columns. */
  ghost predicate ChangesOnly(before: seq<Machine>, after: seq<Machine>, id: string, names: bool) {
    && |after| == |before|
    && forall i :: 0 <= i < |before| && after[i] != before[i] ==>
         && before[i].id == id == after[i].id && after[i].apiKey == before[i].apiKey
         && (!names ==> after[i].name == before[i].name && after[i].hostname == before[i].hostname)
         && (names ==> after[i].status == before[i].status && after[i].displayName == before[i].displayName)
  }

  ghost predicate HasRowWith(table: seq<Machine>, id: string, displayName: Option<string>, status: Status) {
    exists i :: 0 <= i < |table|
      && table[i].id == id && table[i].displayName == displayName && table[i].status == status
  }

  function DisplayNameOf(table: seq<Machine>, id: string): Option<string> {
    match FindById(table, id) case None => None case Some(i) => table[i].displayName
  }

  /** Operators' changes touch one row: adopting sets its status and display name, archiving and
      unarchiving its status only. */
  lemma {:induction false} StatusChangesOneRow(table: seq<Machine>, id: string, displayName: Option<string>)
    ensures var (after, r) := Adopted(table, id, displayName);
      ChangesOnly(table, after, id, false) && (r.Ok? ==> HasRowWith(after, id, displayName, Active))
    ensures var (after, r) := ArchivedIn(table, id);
      ChangesOnly(table, after, id, false) && (r.Ok? ==> HasRowWith(after, id, DisplayNameOf(table, id), Archived))
    ensures var (after, r) := UnarchivedIn(table, id);
      ChangesOnly(table, after, id, false) && (r.Ok? ==> HasRowWith(after, id, DisplayNameOf(table, id), Active))
  {
    var found := FindById(table, id);
    if found.Some? {
      var i := found.value;
      StatusRow(table, i, table[i].(status := Active, displayName := displayName));
      StatusRow(table, i, table[i].(status := Archived));
      StatusRow(table, i, table[i].(status := Active));
    }
  }

  lemma {:induction false} StatusRow(table: seq<Machine>, i: nat, row: Machine)
    requires i < |table| && row == table[i].(status := row.status, displayName := row.displayName)
    ensures ChangesOnly(table, table[i := row], table[i].id, false)
    ensures HasRowWith(table[i := row], table[i].id, row.displayName, row.status)
  {
    assert table[i := row][i] == row;
  }

  /** The row goes by the names that were given, and keeps those that were not. */
  ghost predicate Renamed(before: seq<Machine>, after: seq<Machine>, i: int, name: string, hostname: string)
    requires |after| == |before|
  {
    && 0 <= i < |before|
    && after[i].name == (if name == "" then before[i].name else name)
    && after[i].hostname == (if hostname == "" then before[i].hostname else Some(hostname))
  }

  /** Renaming sets the names that are given. */
  lemma {:induction false} RenameChangesOneRow(table: seq<Machine>, id: string, name: string, hostname: string)
    ensures var (after, r) := UpdatedIn(table, id, name, hostname);
      && ChangesOnly(table, after, id, true)
      && (r.Ok? <==> FindById(table, id).Some?)
      && (r.Ok? ==> Renamed(table, after, FindById(table, id).value, name, hostname))
  {
  }

  /** Each answer of the credential check, in terms of the table. */
  lemma {:induction false} AnswerMeans(table: seq<Machine>, id: string, key: string)
    requires Valid(table)
    ensures Answer(table, id, key) == MissingCredentials <==> id == "" || key == ""
    ensures Answer(table, id, key) == InvalidCredentials <==> id != "" && key != "" && !HasRow(table, id, key)
    ensures Answer(table, id, key) == ConnectedArchived <==>
      id != "" && key != "" && HasRow(table, id, key) && StatusOf(table, id) == Some(Archived)
  {
    var found, j := FindByCredentials(table, id, key), FindById(table, id);
    if found.Some? {
      assert j.Some? && table[j.value].id == table[found.value].id;
      assert j.value == found.value;
    }
  }

  // ---- Who is active ------------------------------------------------------------------------

  lemma {:induction false} FindSameIds(a: seq<Machine>, b: seq<Machine>, id: string)
    requires |a| <= |b| && forall i :: 0 <= i < |a| ==> a[i].id == b[i].id
    requires FindById(a, id).Some? || |a| == |b|
    ensures FindById(b, id) == FindById(a, id)
  {
    if |a| > 0 && a[0].id != id {
      forall i | 0 <= i < |a[1..]| ensures a[1..][i].id == b[1..][i].id {
        assert a[i + 1].id == b[i + 1].id;
      }
      FindSameIds(a[1..], b[1..], id);
    }
  }

  /** A registration activates no machine. */
  lemma {:induction false} RegisterActivatesNone(
    table: seq<Machine>, id: string, name: string, hostname: Option<string>, freshKey: string, other: string)
    requires StatusOf(Registered(table, id, name, hostname, freshKey).0, other) == Some(Active)
    ensures StatusOf(table, other) == Some(Active)
  {
    var after := Registered(table, id, name, hostname, freshKey).0;
    if FindById(table, other).Some? {
      FindSameIds(table, after, other);
    }
  }

  /** An operator's change activates at most the machine it is about. */
  lemma {:induction false} ChangeActivatesOne(
    before: seq<Machine>, after: seq<Machine>, id: string, names: bool, other: string)
    requires ChangesOnly(before, after, id, names) && (names || other != id)
    requires StatusOf(after, other) == Some(Active)
    ensures StatusOf(before, other) == Some(Active)
  {
    FindSameIds(before, after, other);
  }
}
