# Network inventory: ingestion server, agent and provisioning tool

This project models the three programs of a small network-inventory system and proves
properties about them.

- **Ingestion server** (`server/main.py`). It checks its configuration for the required
  keys. Its `/receive_device_info` handler validates a submission and gates on a
  `devices` row carrying the server's own MAC address. It inserts the agent if it is
  new. It then runs six stages in this order: system, software, memory, cpu, disk, os.
  Each fact stage dedup-inserts one row for its group. The software stage dedup-inserts
  the normalised software inventory by (name, version).
- **Agent** (`agent/main.py`). It parses the installed-software listing line by line.
  It overwrites `agent_id` in its configuration with `host-login`. It builds the payload
  the server receives.
- **Provisioning tool** (`addUser/main.py`). It strips byte-order marks from the exported
  interface lists. It keeps the Ethernet and Wi-Fi entries and joins IP entries with MAC
  entries of the same interface. It appends one `devices` row per record, with no
  deduplication. It also defines `get_last_agent_id`, a query for the greatest stored
  `agent_id` that its script never calls; the model covers the query.

The modules are:

- `Json` (json.dfy): JSON values as the Python code holds them. It defines the Python
  operations applied to them: truth test, `in`, subscript, `len` and slicing. An
  operation Python would refuse yields an exception (`KeyError`, `IndexError` or
  `TypeError`). For a column that is not a string, the label can differ from the one
  Python raises (see "Left out").
- `Store` (store.dfy): the rows of each table, the `Tables` value holding them all, and
  the class `Database`, whose methods append rows in place.
- `Server` (server.dfy): the handler as a pure function `Handle` from tables and
  submission to new tables and response. `ReceiveDeviceInfo` performs the same work
  stage by stage against a `Database`, with the software loop as a `while` loop. It is
  proved to agree with `Handle`.
- `ServerProperties` (server_properties.dfy): what the handler guarantees. This covers
  insert-iff-absent, idempotence on a repeated snapshot, a snapshot differing only in
  its cpu value, no duplicate rows, and when a request succeeds.
- `AgentClient` (agent.dfy): `splitlines` and `split(None, 1)`, the listing loop, the
  configuration, and the payload. It ends with a proof that the server accepts and
  stores what the agent sends.
- `Provisioning` (provisioning.dfy): BOM removal, the filters, the nested join loop, the
  insert loop and the greatest-id query.

On these points the code behaves as follows:

- The agent sends its payload once. A failed POST is only reported; there is no retry or
  backoff.
- The handler's second validation of the same body (server/main.py:144-154) cannot fail,
  so the model leaves it out.
- When the server's own device is unknown, the handler returns nothing: `NoResponse`.
- A missing `agent_id` is an uncaught `KeyError`: `ServerError(KeyError(Key("agent_id")))`.
- An exception part-way through the stages leaves the rows already committed in place.
  Every insert is committed on its own.

## Model

| member | source | states |
|---|---|---|
| Server.FirstAbsent | server/main.py:91-95 | All fields present exactly when every `in` test is true. Otherwise the first absent field in list order is reported. A non-container body raises TypeError on the first test. |
| Server.CheckKeys | server/main.py:25-28 | The loop over the keys returns exactly `FirstAbsent`. |
| Server.LoadConfig | server/main.py:24-30 | The config is returned unchanged exactly when all seven keys are present. Otherwise KeyError names the first missing key in list order. TypeError is raised when the config is not a container. |
| Server.Lookup | server/main.py:127-128 | The group's columns are read in order, one value per column. The first missing column raises its KeyError. |
| Server.DedupInsert | server/main.py:109-120 | The row is present afterwards and the old rows are a prefix. The table is unchanged exactly when the row was already there; otherwise the row is appended. |
| Server.RemoveSpaces | server/main.py:166 | No space remains and the text does not grow. Text without spaces is unchanged. |
| Server.RemoveSpacesKeeps | server/main.py:166 | Every character other than a space is kept as often as it occurs. |
| Server.RemoveSpacesAppend | server/main.py:166 | Removing spaces works piece by piece, so the kept characters stay in their order. |
| Server.SoftwareEntry | server/main.py:165-166 | A normalised name and version are at most 45 characters, and the version holds no space. |
| Server.ScanShape | server/main.py:164-174 | Row `k` of the scan has id `k + 1` and holds position `k`'s name and version. The scan (`ScanFrom`) stops only at an entry that raised, and it covers every entry when none raised. When it stops, it stops right after its last row and reports that entry's exception. |
| Server.CandidatesShape | server/main.py:164-166 | About `Candidates`, the rows the loop tries to store. Every candidate has id in `1 .. len-1`, name and version within 45 characters, and no space in the version. Ids run 1, 2, ... without gaps. All `len - 1` entries are scanned unless one raised. |
| Server.CountListedZero | server/main.py:169-172 | The `COUNT(*)` is zero exactly when no stored row has that name and version. |
| Server.InsertAllGrows | server/main.py:160-175 | The software loop only appends. `InsertAll` dedup-stores each candidate in turn with `DedupSoftware`. |
| Server.StoreFromScan | server/main.py:164-175 | Checking and storing entry by entry (`StoreFrom`) equals scanning first and then dedup-inserting the candidates. |
| Server.FactStep | server/main.py:123-140 | A fact stage reads its group with `FactValues` and dedup-inserts one row. It only appends, and it leaves devices and agents unchanged. |
| Server.SoftwareStep | server/main.py:160-175 | The software stage only appends, and it changes no table but the software table. |
| Server.RunStages | server/main.py:123-256 | The stages only append. They never touch devices or agents, and they end in success or an uncaught exception. |
| Server.Handle | server/main.py:84-262 | A falsy body gives 400 without a field. A missing field gives 400 naming the first one. A body that cannot be searched for the fields raises that exception as a 500. An unknown device gives no response. None of these writes anything, and the device table is never written. |
| Server.ReconcileGroup | server/main.py:124-140 | The dedup-insert of one fact group against the database matches `FactStep`. |
| Server.ReconcileSoftware | server/main.py:160-175 | The software stage against the database matches `SoftwareStep`. |
| Server.StoreInventory | server/main.py:164-175 | The `for i in range(1, n)` loop leaves the software table as the entry-by-entry fold leaves it, and returns its exception. |
| Server.StoreSoftware | server/main.py:169-175 | One entry is inserted exactly when no row has its name and version. |
| Server.Reconcile | server/main.py:123-256 | System, software, memory, cpu, disk and os in that order match `RunStages`. |
| Server.ReconcileLate | server/main.py:178-256 | Memory, cpu, disk and os in order match `RunStages`. |
| Server.ReconcileLast | server/main.py:218-256 | Disk, then os, match `RunStages`. |
| Server.ReceiveDeviceInfo | server/main.py:84-262 | The handler against the database gives the response and the new tables that `Handle` gives. |
| Store.Database.InsertDevice | addUser/main.py:73 | Appends one device row and changes nothing else. |
| Store.Database.InsertAgent | server/main.py:114 | Appends one agent row and changes nothing else. |
| Store.Database.InsertFact | server/main.py:133-138 | Appends one row to the group's table and changes nothing else. |
| Store.Database.InsertSoftware | server/main.py:174 | Appends one software row and changes nothing else. |
| ServerProperties.DedupInsertCount | server/main.py:131-140 | After a group's dedup-insert the row occurs exactly once if it was absent, and other rows' counts are unchanged. |
| ServerProperties.InsertAllListed | server/main.py:160-175 | After the loop every candidate's (name, version) is stored, whatever its agent. |
| ServerProperties.InsertAllNoop | server/main.py:169-172 | When every candidate's pair is stored already, nothing is inserted. |
| ServerProperties.InsertAllIdempotent | server/main.py:160-175 | Storing the same candidates twice is storing them once. |
| ServerProperties.InsertAllSound | server/main.py:173-174 | Only candidates are appended. |
| ServerProperties.InsertAllUnique | server/main.py:160-175 | A pair repeated within one submission is stored once: no two rows share a (name, version). |
| ServerProperties.EntryZeroIgnored | server/main.py:164 | Entry 0 is never examined: inventories differing only there give the same candidates. |
| ServerProperties.HandleSuccess | server/main.py:84-120 | Success implies the body passed validation, the device is known, `agent_id` is present, and the six stages ran after the agent insert. |
| ServerProperties.AgentInsertedIfAbsent | server/main.py:105-120 | Without `agent_id` the request raises KeyError before any write. Otherwise the agent row is appended exactly when absent (`AgentStep`). |
| ServerProperties.StagesSuccess | server/main.py:123-256 | When all stages succeed, each fact table received its row by dedup-insert and the software table the candidates. |
| ServerProperties.SuccessTables | server/main.py:84-262 | A successful request leaves every table as the dedup-insert of its row(s) into the old table, and devices unchanged. |
| ServerProperties.StageAbsorbs | server/main.py:129-131 | A stage whose rows are present leaves the tables unchanged and raises as it did before. |
| ServerProperties.RunStagesIdempotent | server/main.py:123-256 | Running the stages again on the tables they left changes nothing and answers the same. |
| ServerProperties.HandleIdempotent | server/main.py:84-262 | The same snapshot submitted twice: the second call changes no table and gives the same response. |
| ServerProperties.OnlyCpuRowAdded | server/main.py:199-216 | After a success, a snapshot differing only in its cpu values, with that cpu row not yet stored, adds exactly that cpu row and nothing else. |
| ServerProperties.CpuPercentOnly | server/main.py:200-203 | Changing `cpu_percent` gives a submission that differs only in its cpu values. |
| ServerProperties.HandleKeepsNoDuplicates | server/main.py:109-256 | Without duplicate agents, fact rows or software pairs before a request, there are none after it. |
| ServerProperties.CleanStagesSucceed | server/main.py:123-256 | Stages that cannot raise run to success. |
| ServerProperties.HandleSucceedsIff | server/main.py:84-262 | Success holds exactly when all of these hold: the body passes validation, the device is known, `agent_id` is present, every group can be read, and the inventory reads without an exception. |
| AgentClient.SplitLinesContent | agent/main.py:92 | About `SplitLines`, the model of `splitlines`. No line holds a line boundary. The lines joined give the text without its boundaries. There are no more lines than characters. |
| AgentClient.SplitLinesRoundTrip | agent/main.py:92 | The cuts fall exactly at the line boundaries, `\r\n` counts as one boundary, and empty lines between two boundaries are kept. Writing the lines back out, each followed by `\n`, gives the text with every boundary written as `\n`, plus a final `\n` when the text did not end with a boundary. For text whose only boundaries are `\n`, that is the text itself. |
| AgentClient.ParseLineIff | agent/main.py:93-96 | About `ParseLine` and `SplitOnce`, the model of `split(None, 1)`. A line gives (name, version) exactly when it is leading whitespace, a non-empty word, a whitespace run and a version starting with a non-space. Trailing whitespace stays in the version. |
| AgentClient.BlankSplitsEmpty | agent/main.py:93-95 | A whitespace-only line splits into nothing. |
| AgentClient.ListInstalledSoftware | agent/main.py:92-97 | The loop returns the parsed lines of the output in order. |
| AgentClient.ParsedAppend | agent/main.py:92-97 | Entries keep the order of their lines. |
| AgentClient.ParsedEntries | agent/main.py:92-97 | There are no more entries than lines. An entry is exactly what some line parses to. |
| AgentClient.ListedEntryShape | agent/main.py:92-97 | Every listed name is a non-empty word. Every version is non-empty, starts with a non-space and holds no line boundary. |
| AgentClient.LoadAgentConfig | agent/main.py:19-28 | Succeeds exactly for an object config. `agent_id` becomes `host-login`. Every other key is kept. |
| AgentClient.StoredAgentIdIgnored | agent/main.py:27-28 | Whatever `agent_id` config.json held, the loaded configuration is the same. |
| AgentClient.DefaultConfigServer | agent/main.py:13-25 | Without config.json the configuration holds the default server URL and the agent id only. |
| AgentClient.SoftwareJson | agent/main.py:146 | The listing becomes a list of [name, version] pairs of the same length. |
| AgentClient.Submission | agent/main.py:139-152 | The payload is sent exactly when the config has `agent_id` and `server_url`. |
| AgentClient.PayloadComplete | agent/main.py:139-149 | About `Payload`. The payload is truthy, holds every field the server requires, and carries the config's `agent_id`. |
| AgentClient.PayloadFacts | agent/main.py:139-145 | The server reads back exactly the collected values of each group. |
| AgentClient.PayloadInventory | agent/main.py:146 | The server's inventory scan of the payload raises nothing and yields the normalised entries 1 .. n-1. |
| AgentClient.AgentRunStored | agent/main.py:127-152 | For a registered device, one agent run is accepted. The agent `host-login`, each group's values and the listed programs after the first are each stored once. |
| Provisioning.CleanJsonData | addUser/main.py:18 | No byte-order mark remains and the text does not grow. |
| Provisioning.CleanAppend | addUser/main.py:18 | Cleaning works piecewise, so every mark is removed wherever it stands. |
| Provisioning.CleanKeepsOthers | addUser/main.py:18 | Every other character is kept as often as it occurs. |
| Provisioning.CleanIdempotent | addUser/main.py:18 | Cleaning twice is cleaning once. |
| Provisioning.Items | addUser/main.py:91-92 | Only a list can be filtered; anything else raises TypeError. |
| Provisioning.SelectSpec | addUser/main.py:91-92 | About `Select`. The filter succeeds exactly when every item can be subscripted. It then keeps exactly `Interfaces`: each Ethernet or Wi-Fi item once, in input order. Otherwise the first failing item's exception is raised. |
| Provisioning.SelectAppend | addUser/main.py:91-92 | Filtering a run of items after another keeps the first run's items, then the second's. |
| Provisioning.SelectIsInterfaces | addUser/main.py:91-92 | When every item can be subscripted, the filter returns `Interfaces`, a front-to-back reference filter. |
| Provisioning.Merge | addUser/main.py:95-103 | The nested loops return the join, or the exception of the first failing subscript. |
| Provisioning.JoinAppend | addUser/main.py:96-97 | Records are IP-major: the records of earlier IP entries come first. |
| Provisioning.JoinRowAppend | addUser/main.py:97-103 | Within one IP entry, the records follow MAC order: the inner loop over two runs of MAC entries gives the first run's records, then the second's. |
| Provisioning.JoinRowIsMatches | addUser/main.py:97-103 | For usable entries the inner loop (`JoinRow`) returns `Matches`: one record per MAC entry whose name equals the interface alias, once each, in MAC order. |
| Provisioning.JoinIsMatches | addUser/main.py:95-103 | For usable entries the join (`Join`) returns `AllMatches`: IP-major, each IP entry's records in MAC order. |
| Provisioning.MatchesMembers | addUser/main.py:97-103 | A record is owed to one IP entry exactly when some MAC entry's name equals the interface alias and the record is that pair's. |
| Provisioning.AllMatchesMembers | addUser/main.py:95-103 | A record is owed to a list of IP entries exactly when it is the record of some (IP, MAC) pair whose alias and name agree. |
| Provisioning.JoinRowMembers | addUser/main.py:97-103 | For usable entries, the inner loop cannot raise and returns `Matches`: one record per matching MAC entry, in MAC order. A record is in it exactly when some MAC entry's name equals the interface alias. |
| Provisioning.JoinMembers | addUser/main.py:95-103 | For usable entries the join cannot raise and returns `AllMatches`: one record per matching (IP, MAC) pair, IP-major, then MAC order. A record is in it exactly when it is a matching pair's record. |
| Provisioning.MatchingPair | addUser/main.py:98-103 | One usable IP entry against one usable MAC entry gives their record (`Record`) when the names agree, and nothing otherwise. The record takes name and MAC address from the MAC entry and the address from the IP entry. |
| Provisioning.TwoAddressesTwoRecords | addUser/main.py:96-103 | Two addresses on one interface give two records, in IP order. |
| Provisioning.ReadAndMergeData | addUser/main.py:80-105 | The tool's steps return what `ReadAndMerge` gives. |
| Provisioning.MergedIsJoin | addUser/main.py:80-105 | When `ReadAndMerge` yields records, both files held lists, both filters succeeded, and the records are the join of the filtered IP entries with the filtered MAC entries. |
| Provisioning.ReadAndMergeNone | addUser/main.py:84-88 | There is no result exactly when a list failed to load or is empty. |
| Provisioning.MergedFromInterfaces | addUser/main.py:91-103 | Every record names Ethernet or Wi-Fi and comes from a loaded IP entry and MAC entry whose names agree. |
| Provisioning.InsertDataIntoDb | addUser/main.py:72-75 | One `devices` row is appended per record, in order, with no deduplication. Nothing else changes. Each record's count of stored rows grows by its count in the input, so a rerun stores every record again. |
| Provisioning.ProvisionedDeviceKnown | addUser/main.py:72-75 | Afterwards the server's device gate passes for a MAC exactly when it passed before or a new record carries it. |
| Provisioning.LastAgentIdSpec | addUser/main.py:54-62 | About `LastAgentId`. The result is None exactly when no agent has a non-NULL id. Otherwise it is a stored id that no other stored id exceeds. |

## Left out

- HTTP, Flask, CORS and `jsonify`: responses are the `Response` datatype.
- MySQL connections, cursors and commits. Each insert is committed at once (the handler
  commits after every insert; the provisioning tool commits once at the end, which is not
  observable in this model). The reconnection at server/main.py:156 is left out. The
  second validation at server/main.py:144-154 is left out because it cannot fail on the
  same body.
- Database semantics beyond exact equality: collation, case and trailing-space
  comparison, and primary-key collisions on the explicit software id.
- Concurrency: one request at a time against the store.
- Floats: percentages are exact rationals, which the handler only compares for equality.
- The host collectors (`get_system_info`, `get_memory_info`, `get_cpu_info`,
  `get_disk_info`, `get_os_info`) become a `HostFacts` input. `get_uptime` and
  `get_boot_time` become strings. The wmic call becomes its output text.
- `get_mac_address` on the server becomes the `mac` parameter of the handler.
- `send_data_to_server`: a single POST whose errors are only printed.
- File and JSON I/O: `load_config_data`, `load_json_data`, the file reads in
  `clean_json_data`, writing the default config.json, and JSON parsing. In the
  provisioning tool, a file that could not be read or parsed is `None`. The agent's
  config.json is different: when it exists but does not parse, `json.load` raises
  (agent/main.py:20-21), and the model leaves that failure out. The order of keys within a JSON object is not modelled.
- Exception labels for non-string software columns: the model stops at the first column
  that is not a string with `TypeError`. Python raises something else for some of these
  entries. For `[["a"]]`, slicing the list succeeds and `entry[1]` raises `IndexError`.
  A list-valued version makes `.replace` raise `AttributeError`. The response is a 500
  and the tables are the same either way; only the exception inside `ServerError` differs.
- The top-level script of the provisioning tool (addUser/main.py:107-120) and
  `connect_to_db`.
- SQL `NULL` comparison and non-scalar bind values. The model compares stored rows with
  plain equality. In MySQL, `col = NULL` is never true, and binding a list or dictionary
  value makes the connector raise.
- ServerProperties.HandleIdempotent: holds for the database only when the submission has
  no `null` value. A stored row with a `NULL` column never matches its own resubmission,
  so the real server inserts it again.
- ServerProperties.HandleKeepsNoDuplicates: holds for the database only when the
  submissions have no `null` value, for the same reason.
- Provisioning.InsertDataIntoDb: the tool commits once after the loop
  (addUser/main.py:75). A failing insert loses every row of the run; the model has no
  failing insert.
- Provisioning.LastAgentId: the query's column ordering is a parameter `le` (a total
  preorder). The database may return any of several tied greatest ids; the model picks
  the latest stored.
