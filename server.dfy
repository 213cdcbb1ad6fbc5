/** The ingestion server (server/main.py): the required-key check of its configuration
    and the `/receive_device_info` handler, which validates a submission, gates it on
    the server's own device row, inserts the agent if it is new, and dedup-inserts the
    five fact groups and the software inventory.

    The handler is specified by the pure function `Handle`, which gives the response
    and the new contents of every table; `ReceiveDeviceInfo` performs the same work
    step by step against a `Database` and is proved to agree with it. */
module Server {
  import opened Json
  import opened Store

  /** The keys `load_config` demands of config.json, in the order it checks them. */
  const ConfigKeys: seq<string> :=
    ["server_host", "server_port", "db_host", "db_port", "db_user", "db_password", "db_name"]

  /** The fields the handler demands of a submission, in the order it checks them. */
  const RequiredFields: seq<string> :=
    ["system_info", "memory_info", "cpu_info", "disk_info", "os_info",
     "installed_software", "uptime", "boot_time"]

  /** The longest name or version the handler stores (`[:45]`). */
  const MaxLength: nat := 45

  // ---------------------------------------------------------------------------
  // Checking required keys
  // ---------------------------------------------------------------------------

  /** Outcome of testing `key in j` for each key of a list, in order. */
  datatype KeyCheck = AllPresent | Absent(key: string) | Raised(fault: Fault)

  /** Position `i` holds the first key of `keys` that `j` does not contain. */
  predicate FirstAbsentAt(j: Json, keys: seq<string>, i: int) {
    0 <= i < |keys| && Contains(j, keys[i]) == Ok(false) &&
    forall m :: 0 <= m < i ==> Contains(j, keys[m]) == Ok(true)
  }

  /** The check both `load_config` and the handler run: the first key, in list order,
      that `j` lacks; or the exception `in` raises on a value that is no container. */
  function FirstAbsent(j: Json, keys: seq<string>): (r: KeyCheck)
    ensures r == AllPresent <==> forall i :: 0 <= i < |keys| ==> Contains(j, keys[i]) == Ok(true)
    ensures r.Absent? ==> exists i :: FirstAbsentAt(j, keys, i) && r.key == keys[i]
    ensures forall i :: FirstAbsentAt(j, keys, i) ==> r == Absent(keys[i])
    ensures r.Raised? <==> keys != [] && Contains(j, keys[0]).Err?
    ensures r.Raised? ==> r.fault == TypeError
  {
    if keys == [] then AllPresent
    else match Contains(j, keys[0])
      case Err(f) => Raised(f)
      case Ok(present) =>
        if !present then Absent(keys[0])
        else
          var rest := FirstAbsent(j, keys[1..]);
          assert forall i :: 0 < i < |keys| ==> keys[i] == keys[1..][i - 1];
          assert forall i :: 0 < i < |keys| && FirstAbsentAt(j, keys, i) ==> FirstAbsentAt(j, keys[1..], i - 1);
          assert rest.Absent? ==>
            exists i :: FirstAbsentAt(j, keys[1..], i) && rest.key == keys[1..][i] && FirstAbsentAt(j, keys, i + 1);
          rest
  }

  /** The loop `for key in keys: if key not in j: ...` that stops at the first absent key. */
  method CheckKeys(j: Json, keys: seq<string>) returns (r: KeyCheck)
    ensures r == FirstAbsent(j, keys)
  {
    for i := 0 to |keys|
      invariant FirstAbsent(j, keys) == FirstAbsent(j, keys[i..])
    {
      assert keys[i..][0] == keys[i] && keys[i..][1..] == keys[i + 1..];
      var present := Contains(j, keys[i]);
      if present.Err? {
        return Raised(present.fault);
      }
      if !present.value {
        return Absent(keys[i]);
      }
    }
    return AllPresent;
  }

  /** `load_config` once config.json is parsed: the configuration unchanged when every
      required key is present, else the KeyError for the first missing one. */
  method LoadConfig(config: Json) returns (r: Result<Json>)
    ensures r.Ok? <==> forall i :: 0 <= i < |ConfigKeys| ==> Contains(config, ConfigKeys[i]) == Ok(true)
    ensures r.Ok? ==> r.value == config
    ensures forall i :: FirstAbsentAt(config, ConfigKeys, i) ==> r == Err(KeyError(Key(ConfigKeys[i])))
    ensures r == Err(TypeError) <==> config.JNull? || config.JBool? || config.JNum?
  {
    var check := CheckKeys(config, ConfigKeys);
    match check {
      case AllPresent => return Ok(config);
      case Absent(k) => return Err(KeyError(Key(k)));
      case Raised(f) => return Err(f);
    }
  }

  // ---------------------------------------------------------------------------
  // The handler, as a function of the tables
  // ---------------------------------------------------------------------------

  /** What the handler answers. `NoResponse` is the fall-through when the server's device
      is unknown (the function then returns nothing); `ServerError` is an exception that
      escapes the handler. */
  datatype Response =
    | Success
    | BadRequest(missing: Option<string>)
    | NoResponse
    | ServerError(fault: Fault)

  /** The tables after a request, and the response. */
  datatype Outcome = Outcome(tables: Tables, response: Response)

  /** The result of one stage of the handler: the tables after it, and the exception
      that stopped it, if any. */
  datatype Step = Step(tables: Tables, fault: Option<Fault>)

  /** A `devices` row carries the server's own MAC address. */
  predicate DeviceKnown(devices: seq<Device>, mac: string) {
    exists d :: d in devices && d.macAddress == JStr(mac)
  }

  /** The field of the submission that holds group `g`. */
  function BodyKey(g: Group): string {
    match g
    case System => "system_info"
    case Memory => "memory_info"
    case Cpu => "cpu_info"
    case Disk => "disk_info"
    case Os => "os_info"
  }

  /** The columns of group `g`, in the order the handler reads them from the submission. */
  function Columns(g: Group): seq<string> {
    match g
    case System => ["system", "node_name", "release", "version", "machine", "processor"]
    case Memory => ["total_memory", "available_memory", "used_memory", "memory_percent"]
    case Cpu => ["cpu_percent"]
    case Disk => ["total_disk", "used_disk", "free_disk", "disk_percent"]
    case Os => ["os_name", "os_version", "os_release"]
  }

  /** `obj[c]` for every column `c`, in order; the first lookup that raises stops it. */
  function Lookup(obj: Json, cols: seq<string>): (r: Result<seq<Json>>)
    ensures r.Ok? ==> |r.value| == |cols|
    ensures r.Ok? ==> forall i :: 0 <= i < |cols| ==> Get(obj, Key(cols[i])) == Ok(r.value[i])
    ensures r.Err? ==>
      exists i :: (0 <= i < |cols| && Get(obj, Key(cols[i])) == Err(r.fault) &&
                   forall m :: 0 <= m < i ==> Get(obj, Key(cols[m])).Ok?)
  {
    if cols == [] then Ok([])
    else match Get(obj, Key(cols[0]))
      case Err(f) => Err(f)
      case Ok(v) =>
        match Lookup(obj, cols[1..])
        case Err(f) =>
          assert exists i :: (0 <= i < |cols| - 1 && Get(obj, Key(cols[1..][i])) == Err(f) &&
                              forall m :: 0 <= m < i ==> Get(obj, Key(cols[1..][m])).Ok?);
          Err(f)
        case Ok(vs) => Ok([v] + vs)
  }

  /** The values of group `g` in a submission, as the handler binds them into its queries. */
  function FactValues(body: Json, g: Group): Result<seq<Json>> {
    match Get(body, Key(BodyKey(g)))
    case Err(f) => Err(f)
    case Ok(obj) => Lookup(obj, Columns(g))
  }

  /** SELECT for an identical row, INSERT only if there is none. */
  function DedupInsert<T(==)>(rows: seq<T>, row: T): (r: seq<T>)
    ensures row in r && rows <= r
    ensures r == rows <==> row in rows
    ensures r != rows ==> r == rows + [row]
  {
    if row in rows then rows else rows + [row]
  }

  /** The agent insert: a new `agent` row only when none carries `id`. */
  function AgentStep(t: Tables, id: Json): Tables {
    t.(agents := DedupInsert(t.agents, Agent(id)))
  }

  /** One fact group: read its columns from the submission, then dedup-insert the row
      `(agent_id, values...)` into the group's table. */
  function FactStep(t: Tables, body: Json, id: Json, g: Group): (s: Step)
    ensures t.GrowsInto(s.tables)
    ensures s.tables.devices == t.devices && s.tables.agents == t.agents
  {
    match FactValues(body, g)
    case Err(f) => Step(t, Some(f))
    case Ok(vals) => Step(t.WithFacts(g, DedupInsert(t.Facts(g), Fact(id, vals))), None)
  }

  // ---------------------------------------------------------------------------
  // Software inventory
  // ---------------------------------------------------------------------------

  /** `s.replace(" ", "")` */
  function RemoveSpaces(s: string): (r: string)
    ensures ' ' !in r && |r| <= |s|
    ensures ' ' !in s ==> r == s
  {
    if s == [] then []
    else (if s[0] == ' ' then [] else [s[0]]) + RemoveSpaces(s[1..])
  }

  /** Every character other than a space is kept as often as it occurs. */
  lemma {:induction false} RemoveSpacesKeeps(s: string)
    ensures forall c :: c != ' ' ==> multiset(RemoveSpaces(s))[c] == multiset(s)[c]
    decreases |s|
  {
    if s != [] {
      assert s == [s[0]] + s[1..];
      RemoveSpacesKeeps(s[1..]);
    }
  }

  /** Removing spaces works piece by piece, so the characters kept stay in their order. */
  lemma {:induction false} RemoveSpacesAppend(a: string, b: string)
    ensures RemoveSpaces(a + b) == RemoveSpaces(a) + RemoveSpaces(b)
    decreases |a|
  {
    if a != [] {
      assert (a + b)[0] == a[0] && (a + b)[1..] == a[1..] + b;
      RemoveSpacesAppend(a[1..], b);
    } else {
      assert a + b == b;
    }
  }

  /** `entry[k]` as a string, or the exception reading or slicing it raises. */
  function Column(entry: Json, k: int): Result<string> {
    match Get(entry, Index(k))
    case Err(f) => Err(f)
    case Ok(v) => Text(v)
  }

  /** Entry `i` of the submitted inventory, normalised as the handler stores it: the name
      cut to 45 characters, the version cut to 45 characters with every space removed. */
  function SoftwareEntry(sw: Json, i: int): (r: Result<(string, string)>)
    ensures r.Ok? ==> |r.value.0| <= MaxLength && |r.value.1| <= MaxLength && ' ' !in r.value.1
  {
    match Get(sw, Index(i))
    case Err(f) => Err(f)
    case Ok(entry) =>
      match Column(entry, 0)
      case Err(f) => Err(f)
      case Ok(name) =>
        match Column(entry, 1)
        case Err(f) => Err(f)
        case Ok(version) => Ok((Take(name, MaxLength), RemoveSpaces(Take(version, MaxLength))))
  }

  /** The entries `range(1, n)` normalised in order, up to the first that raises. */
  datatype Scan = Scan(entries: seq<Software>, fault: Option<Fault>)

  /** The normalised entries `range(1, n)` of the submitted inventory, in loop order: the
      item at position `k` is entry `k + 1`. */
  function Entries(sw: Json, n: int): seq<Result<(string, string)>> {
    seq(if n <= 1 then 0 else n - 1, k => SoftwareEntry(sw, k + 1))
  }

  /** Walks normalised entries in order, numbering the one at position `k` as id `k + 1`,
      up to the first that raised. */
  function ScanFrom(rs: seq<Result<(string, string)>>): Scan
    decreases |rs|
  {
    if rs == [] then Scan([], None)
    else
      var before := ScanFrom(rs[..|rs| - 1]);
      if before.fault.Some? then before
      else match rs[|rs| - 1]
        case Err(f) => Scan(before.entries, Some(f))
        case Ok(p) => Scan(before.entries + [Software(|rs|, p.0, p.1)], None)
  }

  /** The normalised rows the loop `for i in range(1, n)` would try to store, in order,
      and the exception that ends it early, if any. Entry 0 is never read. */
  function Candidates(sw: Json, n: int): Scan {
    ScanFrom(Entries(sw, n))
  }

  /** Row `k` of a scan is position `k`, so ids run 1, 2, ... without gaps; the scan stops
      only at an exception, right after the last row, and reports that entry's exception; names and versions are within 45 characters and versions hold
      no space when the entries are normalised ones. */
  lemma {:induction false} ScanShape(rs: seq<Result<(string, string)>>)
    ensures |ScanFrom(rs).entries| <= |rs|
    ensures var r := ScanFrom(rs);
      forall k :: 0 <= k < |r.entries| ==> r.entries[k].id == k + 1
    ensures var r := ScanFrom(rs);
      forall k :: 0 <= k < |r.entries| ==> rs[k] == Ok((r.entries[k].name, r.entries[k].version))
    ensures ScanFrom(rs).fault.None? <==> forall k :: 0 <= k < |rs| ==> rs[k].Ok?
    ensures ScanFrom(rs).fault.None? ==> |ScanFrom(rs).entries| == |rs|
    ensures ScanFrom(rs).fault.Some? ==>
      |ScanFrom(rs).entries| < |rs| && rs[|ScanFrom(rs).entries|] == Err(ScanFrom(rs).fault.value)
    decreases |rs|
  {
    if rs != [] {
      var init := rs[..|rs| - 1];
      ScanShape(init);
      assert forall k :: 0 <= k < |init| ==> rs[k] == init[k];
    }
  }

  /** Candidate `k` is entry `k + 1`: ids run 1, 2, ... without gaps and entry 0 is never a
      candidate; names and versions are within 45 characters and versions hold no space;
      the scan covers all of `range(1, n)` unless an entry raised. */
  lemma CandidatesShape(sw: Json, n: int)
    ensures var r := Candidates(sw, n);
      forall c :: c in r.entries ==>
        1 <= c.id < n && |c.name| <= MaxLength && |c.version| <= MaxLength && ' ' !in c.version
    ensures var r := Candidates(sw, n);
      forall k :: 0 <= k < |r.entries| ==> r.entries[k].id == k + 1
    ensures Candidates(sw, n).fault.None? ==> |Candidates(sw, n).entries| == if n <= 1 then 0 else n - 1
  {
    var rs := Entries(sw, n);
    ScanShape(rs);
    var r := ScanFrom(rs);
    forall c | c in r.entries
      ensures 1 <= c.id < n && |c.name| <= MaxLength && |c.version| <= MaxLength && ' ' !in c.version
    {
      var k :| 0 <= k < |r.entries| && r.entries[k] == c;
      EntryNormalised(sw, n, k);
    }
  }

  lemma EntryNormalised(sw: Json, n: int, k: int)
    requires 0 <= k < |Entries(sw, n)| && Entries(sw, n)[k].Ok?
    ensures 1 <= k + 1 < n
    ensures var p := Entries(sw, n)[k].value;
      |p.0| <= MaxLength && |p.1| <= MaxLength && ' ' !in p.1
  {
    assert Entries(sw, n)[k] == SoftwareEntry(sw, k + 1);
  }

  /** Some stored row has this name and version, whatever its id. */
  predicate Listed(rows: seq<Software>, name: string, version: string) {
    exists row :: row in rows && row.name == name && row.version == version
  }

  /** `SELECT COUNT(*) FROM software_info WHERE name = %s AND version = %s` */
  function CountListed(rows: seq<Software>, name: string, version: string): nat {
    if rows == [] then 0
    else (if rows[0].name == name && rows[0].version == version then 1 else 0) + CountListed(rows[1..], name, version)
  }

  /** The count is zero exactly when no stored row has that name and version, and it never
      exceeds the number of rows. */
  lemma {:induction false} CountListedZero(rows: seq<Software>, name: string, version: string)
    ensures CountListed(rows, name, version) <= |rows|
    ensures CountListed(rows, name, version) == 0 <==> !Listed(rows, name, version)
  {
    if rows != [] {
      CountListedZero(rows[1..], name, version);
      assert forall row :: row in rows <==> row == rows[0] || row in rows[1..];
    }
  }

  /** One software row stored unless a row with its name and version is already there. */
  function DedupSoftware(rows: seq<Software>, row: Software): seq<Software> {
    if Listed(rows, row.name, row.version) then rows else rows + [row]
  }

  /** Dedup-store each candidate in turn. */
  function InsertAll(rows: seq<Software>, cands: seq<Software>): seq<Software>
    decreases |cands|
  {
    if cands == [] then rows
    else DedupSoftware(InsertAll(rows, cands[..|cands| - 1]), cands[|cands| - 1])
  }

  /** Storing candidates only ever appends: earlier rows stay where they are. */
  lemma {:induction false} InsertAllGrows(rows: seq<Software>, cands: seq<Software>)
    ensures rows <= InsertAll(rows, cands)
    decreases |cands|
  {
    if cands != [] {
      InsertAllGrows(rows, cands[..|cands| - 1]);
    }
  }

  /** The stored rows and the exception, if any, after the loop has visited the normalised
      entries `rs` in order, normalising and dedup-storing each before it moves on. */
  datatype Stored = Stored(rows: seq<Software>, fault: Option<Fault>)

  function StoreFrom(rows: seq<Software>, rs: seq<Result<(string, string)>>): Stored
    decreases |rs|
  {
    if rs == [] then Stored(rows, None)
    else
      var before := StoreFrom(rows, rs[..|rs| - 1]);
      if before.fault.Some? then before
      else match rs[|rs| - 1]
        case Err(f) => Stored(before.rows, Some(f))
        case Ok(p) => Stored(DedupSoftware(before.rows, Software(|rs|, p.0, p.1)), None)
  }

  /** Storing each entry as soon as it is normalised ends where first scanning the
      entries up to the first exception and then storing the scanned rows ends. */
  lemma {:induction false} StoreFromScan(rows: seq<Software>, rs: seq<Result<(string, string)>>)
    ensures StoreFrom(rows, rs) == Stored(InsertAll(rows, ScanFrom(rs).entries), ScanFrom(rs).fault)
    decreases |rs|
  {
    if rs != [] {
      var init := rs[..|rs| - 1];
      StoreFromScan(rows, init);
      var before := ScanFrom(init);
      if before.fault.None? && rs[|rs| - 1].Ok? {
        var p := rs[|rs| - 1].value;
        InsertAllNext(rows, before.entries, Software(|rs|, p.0, p.1));
      }
    }
  }

  /** The software stage: `len(data['installed_software'])`, then the loop over entries
      1 .. len-1. Inserts made before an entry raises stay stored. */
  function SoftwareStep(t: Tables, body: Json): (s: Step)
    ensures t.GrowsInto(s.tables)
    ensures s.tables == t.(software := s.tables.software)
  {
    match Get(body, Key("installed_software"))
    case Err(f) => Step(t, Some(f))
    case Ok(sw) =>
      match Len(sw)
      case Err(f) => Step(t, Some(f))
      case Ok(n) =>
        var scan := Candidates(sw, n);
        InsertAllGrows(t.software, scan.entries);
        Step(t.(software := InsertAll(t.software, scan.entries)), scan.fault)
  }

  // ---------------------------------------------------------------------------
  // The whole request
  // ---------------------------------------------------------------------------

  /** The stages after the agent insert, in the order the handler runs them. */
  datatype Stage = FactStage(group: Group) | SoftwareStage

  /** The last two fact groups the handler reconciles. */
  const LastStages: seq<Stage> := [FactStage(Disk), FactStage(Os)]

  /** The four fact groups the handler reconciles after the software inventory. */
  const LateStages: seq<Stage> := [FactStage(Memory), FactStage(Cpu)] + LastStages

  const Stages: seq<Stage> := [FactStage(System), SoftwareStage] + LateStages

  function RunStage(t: Tables, body: Json, id: Json, s: Stage): (r: Step)
    ensures t.GrowsInto(r.tables)
    ensures r.tables.devices == t.devices && r.tables.agents == t.agents
  {
    match s
    case FactStage(g) => FactStep(t, body, id, g)
    case SoftwareStage => SoftwareStep(t, body)
  }

  /** Runs `stages` in order; an exception ends the request with the writes made so far
      committed (every insert is committed on its own). */
  function RunStages(t: Tables, body: Json, id: Json, stages: seq<Stage>): (o: Outcome)
    ensures t.GrowsInto(o.tables)
    ensures o.tables.devices == t.devices && o.tables.agents == t.agents
    ensures o.response.Success? || o.response.ServerError?
    decreases |stages|
  {
    if stages == [] then Outcome(t, Success)
    else
      var s := RunStage(t, body, id, stages[0]);
      match s.fault
      case Some(f) => Outcome(s.tables, ServerError(f))
      case None => RunStages(s.tables, body, id, stages[1..])
  }

  /** `receive_device_info` against tables `t`, on a server whose own MAC is `mac`. */
  function Handle(t: Tables, mac: string, body: Json): (o: Outcome)
    ensures o.response == BadRequest(None) <==> !Truthy(body)
    ensures o.response.BadRequest? && o.response.missing.Some? <==>
      Truthy(body) && FirstAbsent(body, RequiredFields).Absent?
    ensures o.response.BadRequest? && o.response.missing.Some? ==>
      FirstAbsent(body, RequiredFields) == Absent(o.response.missing.value)
    ensures o.response == NoResponse <==>
      Truthy(body) && FirstAbsent(body, RequiredFields) == AllPresent && !DeviceKnown(t.devices, mac)
    ensures o.response.BadRequest? || o.response.NoResponse? ==> o.tables == t
    ensures Truthy(body) && FirstAbsent(body, RequiredFields).Raised? ==>
      o == Outcome(t, ServerError(FirstAbsent(body, RequiredFields).fault))
    ensures o.tables != t ==> DeviceKnown(t.devices, mac)
    ensures t.GrowsInto(o.tables) && o.tables.devices == t.devices
  {
    if !Truthy(body) then Outcome(t, BadRequest(None))
    else match FirstAbsent(body, RequiredFields)
      case Raised(f) => Outcome(t, ServerError(f))
      case Absent(k) => Outcome(t, BadRequest(Some(k)))
      case AllPresent =>
        if !DeviceKnown(t.devices, mac) then Outcome(t, NoResponse)
        else match Get(body, Key("agent_id"))
          case Err(f) => Outcome(t, ServerError(f))
          case Ok(id) => RunStages(AgentStep(t, id), body, id, Stages)
  }

  // ---------------------------------------------------------------------------
  // The handler, step by step against the database
  // ---------------------------------------------------------------------------

  /** One fact group's SELECT and conditional INSERT. */
  method ReconcileGroup(db: Database, body: Json, id: Json, g: Group) returns (fault: Option<Fault>)
    modifies db
    ensures Step(db.Contents(), fault) == FactStep(old(db.Contents()), body, id, g)
  {
    var values := FactValues(body, g);
    if values.Err? {
      return Some(values.fault);
    }
    var row := Fact(id, values.value);
    if row !in db.Contents().Facts(g) {
      db.InsertFact(g, row);
    }
    return None;
  }

  /** The software stage against the database. */
  method ReconcileSoftware(db: Database, body: Json) returns (fault: Option<Fault>)
    modifies db
    ensures Step(db.Contents(), fault) == SoftwareStep(old(db.Contents()), body)
  {
    var sw := Get(body, Key("installed_software"));
    if sw.Err? {
      return Some(sw.fault);
    }
    var n := Len(sw.value);
    if n.Err? {
      return Some(n.fault);
    }
    fault := StoreInventory(db, sw.value, n.value);
    StoreFromScan(old(db.software), Entries(sw.value, n.value));
  }

  /** The loop `for i in range(1, n)`: normalise entry i, count the stored rows with its
      name and version, and insert it with id i when there are none. An entry that raises
      ends the loop with the earlier inserts committed. */
  method StoreInventory(db: Database, sw: Json, n: nat) returns (fault: Option<Fault>)
    modifies db
    ensures var s := StoreFrom(old(db.software), Entries(sw, n));
      db.Contents() == old(db.Contents()).(software := s.rows) && fault == s.fault
  {
    ghost var t0 := db.Contents();
    ghost var rs := Entries(sw, n);
    if n <= 1 {
      assert rs == [];
      return None;
    }
    var i := 1;
    assert rs[..0] == [];
    while i < n
      invariant 1 <= i <= n
      invariant StoreFrom(t0.software, rs[..i - 1]) == Stored(db.software, None)
      invariant db.Contents() == t0.(software := db.software)
    {
      var entry := SoftwareEntry(sw, i);
      assert entry == rs[i - 1];
      StoreNext(t0.software, rs, i, db.software);
      if entry.Err? {
        StoreStop(t0.software, rs, i);
        return Some(entry.fault);
      }
      var row := Software(i, entry.value.0, entry.value.1);
      ghost var before := db.software;
      StoreSoftware(db, row);
      assert db.software == DedupSoftware(before, row) && db.Contents() == t0.(software := db.software);
      assert StoreFrom(t0.software, rs[..i]) == Stored(db.software, None);
      i := i + 1;
    }
    assert rs[..i - 1] == rs;
    return None;
  }

  /** One more turn of the loop, as the stored rows see it. */
  lemma StoreNext(rows: seq<Software>, rs: seq<Result<(string, string)>>, i: int, cur: seq<Software>)
    requires 1 <= i <= |rs| && StoreFrom(rows, rs[..i - 1]) == Stored(cur, None)
    ensures rs[i - 1].Err? ==> StoreFrom(rows, rs[..i]) == Stored(cur, Some(rs[i - 1].fault))
    ensures rs[i - 1].Ok? ==>
      StoreFrom(rows, rs[..i]) == Stored(DedupSoftware(cur, Software(i, rs[i - 1].value.0, rs[i - 1].value.1)), None)
  {
    assert rs[..i][..i - 1] == rs[..i - 1];
  }

  /** Once an entry has raised, the entries after it change nothing. */
  lemma {:induction false} StoreStop(rows: seq<Software>, rs: seq<Result<(string, string)>>, m: int)
    requires 0 <= m <= |rs| && StoreFrom(rows, rs[..m]).fault.Some?
    ensures StoreFrom(rows, rs) == StoreFrom(rows, rs[..m])
    decreases |rs|
  {
    if m < |rs| {
      var init := rs[..|rs| - 1];
      assert init[..m] == rs[..m];
      StoreStop(rows, init, m);
    } else {
      assert rs[..m] == rs;
    }
  }

  /** The loop body's SELECT COUNT(*) and conditional INSERT for one normalised row. */
  method StoreSoftware(db: Database, row: Software)
    modifies db
    ensures db.Contents() == old(db.Contents()).(software := DedupSoftware(old(db.software), row))
  {
    var count := CountListed(db.software, row.name, row.version);
    CountListedZero(db.software, row.name, row.version);
    if count == 0 {
      db.InsertSoftware(row);
    }
  }

  /** One more candidate, as the stored rows see it. */
  lemma InsertAllNext(rows: seq<Software>, done: seq<Software>, row: Software)
    ensures InsertAll(rows, done + [row]) == DedupSoftware(InsertAll(rows, done), row)
  {
    assert (done + [row])[..|done|] == done;
  }

  /** One stage against the database. */
  method ReconcileStage(db: Database, body: Json, id: Json, s: Stage) returns (fault: Option<Fault>)
    modifies db
    ensures Step(db.Contents(), fault) == RunStage(old(db.Contents()), body, id, s)
  {
    match s
    case FactStage(g) => fault := ReconcileGroup(db, body, id, g);
    case SoftwareStage => fault := ReconcileSoftware(db, body);
  }

  /** Running `[first] + rest` is running `first`, then, unless that raised, `rest`. */
  lemma StageThen(t: Tables, body: Json, id: Json, first: Stage, rest: seq<Stage>, s: Step)
    requires s == RunStage(t, body, id, first)
    ensures s.fault.Some? ==> RunStages(t, body, id, [first] + rest) == Outcome(s.tables, ServerError(s.fault.value))
    ensures s.fault.None? ==> RunStages(t, body, id, [first] + rest) == RunStages(s.tables, body, id, rest)
  {
    assert ([first] + rest)[0] == first && ([first] + rest)[1..] == rest;
  }

  /** The stages after the agent insert, in source order, each committed as it goes; the
      first exception ends the request. */
  method Reconcile(db: Database, body: Json, id: Json) returns (r: Response)
    modifies db
    ensures Outcome(db.Contents(), r) == RunStages(old(db.Contents()), body, id, Stages)
  {
    ghost var rest := [SoftwareStage] + LateStages;
    assert Stages == [FactStage(System)] + rest;
    ghost var now := db.Contents();
    var fault := ReconcileStage(db, body, id, FactStage(System));
    StageThen(now, body, id, FactStage(System), rest, Step(db.Contents(), fault));
    if fault.Some? {
      return ServerError(fault.value);
    }
    now := db.Contents();
    fault := ReconcileStage(db, body, id, SoftwareStage);
    StageThen(now, body, id, SoftwareStage, LateStages, Step(db.Contents(), fault));
    if fault.Some? {
      return ServerError(fault.value);
    }
    r := ReconcileLate(db, body, id);
  }

  /** The memory, cpu, disk and os blocks, in that order. */
  method ReconcileLate(db: Database, body: Json, id: Json) returns (r: Response)
    modifies db
    ensures Outcome(db.Contents(), r) == RunStages(old(db.Contents()), body, id, LateStages)
  {
    ghost var rest := [FactStage(Cpu)] + LastStages;
    assert LateStages == [FactStage(Memory)] + rest;
    ghost var now := db.Contents();
    var fault := ReconcileStage(db, body, id, FactStage(Memory));
    StageThen(now, body, id, FactStage(Memory), rest, Step(db.Contents(), fault));
    if fault.Some? {
      return ServerError(fault.value);
    }
    now := db.Contents();
    fault := ReconcileStage(db, body, id, FactStage(Cpu));
    StageThen(now, body, id, FactStage(Cpu), LastStages, Step(db.Contents(), fault));
    if fault.Some? {
      return ServerError(fault.value);
    }
    r := ReconcileLast(db, body, id);
  }

  /** The disk and os blocks, in that order. */
  method ReconcileLast(db: Database, body: Json, id: Json) returns (r: Response)
    modifies db
    ensures Outcome(db.Contents(), r) == RunStages(old(db.Contents()), body, id, LastStages)
  {
    ghost var now := db.Contents();
    var fault := ReconcileStage(db, body, id, FactStage(Disk));
    StageThen(now, body, id, FactStage(Disk), [FactStage(Os)], Step(db.Contents(), fault));
    if fault.Some? {
      return ServerError(fault.value);
    }
    now := db.Contents();
    fault := ReconcileStage(db, body, id, FactStage(Os));
    StageThen(now, body, id, FactStage(Os), [], Step(db.Contents(), fault));
    if fault.Some? {
      return ServerError(fault.value);
    }
    return Success;
  }

  /** `receive_device_info`. The MySQL connection is the `db` object; the server's MAC
      address, computed once at start-up, is `mac`. */
  method ReceiveDeviceInfo(db: Database, mac: string, body: Json) returns (r: Response)
    modifies db
    ensures Outcome(db.Contents(), r) == Handle(old(db.Contents()), mac, body)
  {
    if !Truthy(body) {
      return BadRequest(None);
    }
    var check := CheckKeys(body, RequiredFields);
    match check {
      case Raised(f) => return ServerError(f);
      case Absent(k) => return BadRequest(Some(k));
      case AllPresent =>
    }
    var deviceExists := DeviceKnown(db.devices, mac);
    if !deviceExists {
      return NoResponse;
    }
    var agentId := Get(body, Key("agent_id"));
    if agentId.Err? {
      return ServerError(agentId.fault);
    }
    var id := agentId.value;
    if Agent(id) !in db.agents {
      db.InsertAgent(Agent(id));
    }
    assert db.Contents() == AgentStep(old(db.Contents()), id);
    r := Reconcile(db, body, id);
  }
}
