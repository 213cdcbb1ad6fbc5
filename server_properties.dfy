/** Properties of the ingestion handler that relate several calls or quantify over all
    inputs: what a dedup-insert leaves in a table, what the software stage stores, what a
    successful request leaves behind, that replaying a submission changes nothing, and that
    the tables never acquire duplicate rows. */
module ServerProperties {
  import opened Json
  import opened Store
  import opened Server

  // ---------------------------------------------------------------------------
  // Dedup-insert of a whole row (agents, fact groups)
  // ---------------------------------------------------------------------------

  /** After a dedup-insert the row occurs exactly once if it was absent, as often as
      before if it was present, and every other row occurs as often as before. */
  lemma DedupInsertCount<T>(rows: seq<T>, row: T)
    ensures multiset(DedupInsert(rows, row))[row] == if row in rows then multiset(rows)[row] else 1
    ensures forall x :: x != row ==> multiset(DedupInsert(rows, row))[x] == multiset(rows)[x]
  {
    if row !in rows {
      assert multiset(rows)[row] == 0;
      assert multiset(rows + [row]) == multiset(rows) + multiset{row};
    }
  }

  /** No row occurs twice. */
  predicate Distinct<T(==)>(rows: seq<T>) {
    forall i, j :: 0 <= i < j < |rows| ==> rows[i] != rows[j]
  }

  /** A dedup-insert keeps a table free of duplicates. */
  lemma DedupInsertDistinct<T>(rows: seq<T>, row: T)
    requires Distinct(rows)
    ensures Distinct(DedupInsert(rows, row))
  {
  }

  // ---------------------------------------------------------------------------
  // The software stage's stores
  // ---------------------------------------------------------------------------

  /** Every candidate's name and version is listed in `rows`. */
  predicate AllListed(rows: seq<Software>, cands: seq<Software>) {
    forall c :: c in cands ==> Listed(rows, c.name, c.version)
  }

  /** A listed pair stays listed when rows are appended. */
  lemma ListedGrows(rows: seq<Software>, more: seq<Software>, name: string, version: string)
    requires rows <= more && Listed(rows, name, version)
    ensures Listed(more, name, version)
  {
    var row :| row in rows && row.name == name && row.version == version;
    var k :| 0 <= k < |rows| && rows[k] == row;
    assert more[k] == row;
  }

  /** Completeness: after storing the candidates, each candidate's name and version is
      listed, whether it was inserted now or found already stored. */
  lemma {:induction false} InsertAllListed(rows: seq<Software>, cands: seq<Software>)
    ensures AllListed(InsertAll(rows, cands), cands)
    decreases |cands|
  {
    if cands != [] {
      var init := cands[..|cands| - 1];
      var last := cands[|cands| - 1];
      InsertAllListed(rows, init);
      var before := InsertAll(rows, init);
      var after := InsertAll(rows, cands);
      assert after == DedupSoftware(before, last);
      assert before <= after;
      if !Listed(before, last.name, last.version) {
        assert after[|before|] == last;
      }
      forall c | c in cands
        ensures Listed(after, c.name, c.version)
      {
        if c != last {
          var k :| 0 <= k < |cands| && cands[k] == c;
          assert c == init[k];
          ListedGrows(before, after, c.name, c.version);
        }
      }
    }
  }

  /** Storing candidates that are all listed already changes nothing. */
  lemma {:induction false} InsertAllNoop(rows: seq<Software>, cands: seq<Software>)
    requires AllListed(rows, cands)
    ensures InsertAll(rows, cands) == rows
    decreases |cands|
  {
    if cands != [] {
      var init := cands[..|cands| - 1];
      assert forall c :: c in init ==> c in cands;
      InsertAllNoop(rows, init);
    }
  }

  /** Storing the same candidates a second time changes nothing. */
  lemma InsertAllIdempotent(rows: seq<Software>, cands: seq<Software>)
    ensures InsertAll(InsertAll(rows, cands), cands) == InsertAll(rows, cands)
  {
    InsertAllListed(rows, cands);
    InsertAllNoop(InsertAll(rows, cands), cands);
  }

  /** Soundness: every row after the stored prefix is one of the candidates. */
  lemma {:induction false} InsertAllSound(rows: seq<Software>, cands: seq<Software>)
    ensures rows <= InsertAll(rows, cands)
    ensures forall row :: row in InsertAll(rows, cands)[|rows|..] ==> row in cands
    decreases |cands|
  {
    InsertAllGrows(rows, cands);
    if cands != [] {
      var init := cands[..|cands| - 1];
      InsertAllSound(rows, init);
      InsertAllGrows(rows, init);
      var before := InsertAll(rows, init);
      var after := InsertAll(rows, cands);
      forall row | row in after[|rows|..]
        ensures row in cands
      {
        var k :| 0 <= k < |after[|rows|..]| && after[|rows|..][k] == row;
        if |rows| + k < |before| {
          assert before[|rows|..][k] == row;
          assert row in init;
          var m :| 0 <= m < |init| && init[m] == row;
          assert cands[m] == row;
        } else {
          assert row == cands[|cands| - 1];
        }
      }
    }
  }

  /** No two rows share a name and version. */
  predicate PairsUnique(rows: seq<Software>) {
    forall i, j :: 0 <= i < j < |rows| ==> rows[i].name != rows[j].name || rows[i].version != rows[j].version
  }

  /** Dedup on (name, version) keeps pairs unique: a pair repeated within one submission,
      or already stored by any agent, is stored only once. */
  lemma {:induction false} InsertAllUnique(rows: seq<Software>, cands: seq<Software>)
    requires PairsUnique(rows)
    ensures PairsUnique(InsertAll(rows, cands))
    decreases |cands|
  {
    if cands != [] {
      var init := cands[..|cands| - 1];
      var last := cands[|cands| - 1];
      InsertAllUnique(rows, init);
      var before := InsertAll(rows, init);
      if !Listed(before, last.name, last.version) {
        var after := before + [last];
        forall i, j | 0 <= i < j < |after|
          ensures after[i].name != after[j].name || after[i].version != after[j].version
        {
          if j == |before| {
            assert after[i] in before;
          }
        }
      }
    }
  }

  // ---------------------------------------------------------------------------
  // Entry 0 and the normalised rows
  // ---------------------------------------------------------------------------

  /** Entry 0 of the inventory list is never examined: two lists that differ only there
      yield the same candidates. */
  lemma EntryZeroIgnored(a: seq<Json>, b: seq<Json>, n: int)
    requires |a| == |b| && forall k :: 1 <= k < |a| ==> a[k] == b[k]
    ensures Candidates(JArr(a), n) == Candidates(JArr(b), n)
  {
    assert forall i :: 1 <= i ==> Get(JArr(a), Index(i)) == Get(JArr(b), Index(i));
    assert Entries(JArr(a), n) == Entries(JArr(b), n);
  }

  // ---------------------------------------------------------------------------
  // A successful request
  // ---------------------------------------------------------------------------

  /** The submission's inventory scan: `data['installed_software']`, its length, and the
      candidates of entries 1 .. len-1; `None` when the lookup or `len` raises. */
  function Inventory(body: Json): Option<Scan> {
    match Get(body, Key("installed_software"))
    case Err(_) => None
    case Ok(sw) =>
      match Len(sw)
      case Err(_) => None
      case Ok(n) => Some(Candidates(sw, n))
  }

  /** The row group `g` of a submission contributes, when its values can be read. */
  function FactRow(body: Json, id: Json, g: Group): Fact
    requires FactValues(body, g).Ok?
  {
    Fact(id, FactValues(body, g).value)
  }

  /** Running `[first] + rest` to success means `first` did not raise and `rest` then
      succeeded on the tables it left. */
  lemma Through(t: Tables, body: Json, id: Json, first: Stage, rest: seq<Stage>)
    requires RunStages(t, body, id, [first] + rest).response == Success
    ensures RunStage(t, body, id, first).fault.None?
    ensures RunStages(t, body, id, [first] + rest) == RunStages(RunStage(t, body, id, first).tables, body, id, rest)
  {
    StageThen(t, body, id, first, rest, RunStage(t, body, id, first));
  }

  /** Group `g`'s stage, run to success before `rest`: the values could be read and the
      row was dedup-inserted into the group's table. */
  lemma FactThrough(t: Tables, body: Json, id: Json, g: Group, rest: seq<Stage>)
    requires RunStages(t, body, id, [FactStage(g)] + rest).response == Success
    ensures FactValues(body, g).Ok?
    ensures RunStages(t, body, id, [FactStage(g)] + rest) ==
      RunStages(t.WithFacts(g, DedupInsert(t.Facts(g), FactRow(body, id, g))), body, id, rest)
  {
    Through(t, body, id, FactStage(g), rest);
  }

  /** The disk and os stages to success. */
  lemma LastSuccess(t: Tables, body: Json, id: Json)
    requires RunStages(t, body, id, LastStages).response == Success
    ensures FactValues(body, Disk).Ok? && FactValues(body, Os).Ok?
    ensures RunStages(t, body, id, LastStages).tables ==
      t.(disk := DedupInsert(t.disk, FactRow(body, id, Disk)),
         os := DedupInsert(t.os, FactRow(body, id, Os)))
  {
    assert LastStages == [FactStage(Disk)] + [FactStage(Os)];
    FactThrough(t, body, id, Disk, [FactStage(Os)]);
    var t1 := t.(disk := DedupInsert(t.disk, FactRow(body, id, Disk)));
    assert t.WithFacts(Disk, DedupInsert(t.disk, FactRow(body, id, Disk))) == t1;
    assert [FactStage(Os)] == [FactStage(Os)] + [];
    FactThrough(t1, body, id, Os, []);
    assert t1.WithFacts(Os, DedupInsert(t1.os, FactRow(body, id, Os))) == t1.(os := DedupInsert(t1.os, FactRow(body, id, Os)));
  }

  /** The memory, cpu, disk and os stages to success. */
  lemma LateSuccess(t: Tables, body: Json, id: Json)
    requires RunStages(t, body, id, LateStages).response == Success
    ensures FactValues(body, Memory).Ok? && FactValues(body, Cpu).Ok?
    ensures FactValues(body, Disk).Ok? && FactValues(body, Os).Ok?
    ensures RunStages(t, body, id, LateStages).tables ==
      t.(memory := DedupInsert(t.memory, FactRow(body, id, Memory)),
         cpu := DedupInsert(t.cpu, FactRow(body, id, Cpu)),
         disk := DedupInsert(t.disk, FactRow(body, id, Disk)),
         os := DedupInsert(t.os, FactRow(body, id, Os)))
  {
    assert LateStages == [FactStage(Memory)] + ([FactStage(Cpu)] + LastStages);
    FactThrough(t, body, id, Memory, [FactStage(Cpu)] + LastStages);
    var t1 := t.(memory := DedupInsert(t.memory, FactRow(body, id, Memory)));
    assert t.WithFacts(Memory, DedupInsert(t.memory, FactRow(body, id, Memory))) == t1;
    FactThrough(t1, body, id, Cpu, LastStages);
    var t2 := t1.(cpu := DedupInsert(t1.cpu, FactRow(body, id, Cpu)));
    assert t1.WithFacts(Cpu, DedupInsert(t1.cpu, FactRow(body, id, Cpu))) == t2;
    LastSuccess(t2, body, id);
  }

  /** When all six stages succeed, every group's values and the inventory could be read,
      each fact table received its row by dedup-insert and the software table the
      candidates by (name, version) dedup; devices and agents are untouched. */
  lemma StagesSuccess(t: Tables, body: Json, id: Json)
    requires RunStages(t, body, id, Stages).response == Success
    ensures forall g :: FactValues(body, g).Ok?
    ensures Inventory(body).Some? && Inventory(body).value.fault.None?
    ensures RunStages(t, body, id, Stages).tables ==
      t.(system := DedupInsert(t.system, FactRow(body, id, System)),
         memory := DedupInsert(t.memory, FactRow(body, id, Memory)),
         cpu := DedupInsert(t.cpu, FactRow(body, id, Cpu)),
         disk := DedupInsert(t.disk, FactRow(body, id, Disk)),
         os := DedupInsert(t.os, FactRow(body, id, Os)),
         software := InsertAll(t.software, Inventory(body).value.entries))
  {
    assert Stages == [FactStage(System)] + ([SoftwareStage] + LateStages);
    FactThrough(t, body, id, System, [SoftwareStage] + LateStages);
    var t1 := t.(system := DedupInsert(t.system, FactRow(body, id, System)));
    Through(t1, body, id, SoftwareStage, LateStages);
    var t2 := t1.(software := InsertAll(t1.software, Inventory(body).value.entries));
    LateSuccess(t2, body, id);
    EveryGroupRead(body);
  }

  lemma EveryGroupRead(body: Json)
    requires FactValues(body, System).Ok? && FactValues(body, Memory).Ok? && FactValues(body, Cpu).Ok?
    requires FactValues(body, Disk).Ok? && FactValues(body, Os).Ok?
    ensures forall g :: FactValues(body, g).Ok?
  {
    forall g ensures FactValues(body, g).Ok? {
      match g
      case System =>
      case Memory =>
      case Cpu =>
      case Disk =>
      case Os =>
    }
  }

  /** A request answered with success passed validation and the device gate, carried an
      `agent_id`, and then ran all six stages to success on the tables with the agent
      dedup-inserted. */
  lemma HandleSuccess(t: Tables, mac: string, body: Json)
    requires Handle(t, mac, body).response == Success
    ensures Truthy(body) && FirstAbsent(body, RequiredFields) == AllPresent
    ensures DeviceKnown(t.devices, mac) && Get(body, Key("agent_id")).Ok?
    ensures var id := Get(body, Key("agent_id")).value;
      Handle(t, mac, body) == RunStages(AgentStep(t, id), body, id, Stages)
  {
  }

  /** Past validation and the device gate, a submission without `agent_id` raises
      KeyError before any write; otherwise the agent table gains that id exactly when it
      had no such row, and no later stage touches it. */
  lemma AgentInsertedIfAbsent(t: Tables, mac: string, body: Json)
    requires Truthy(body) && FirstAbsent(body, RequiredFields) == AllPresent && DeviceKnown(t.devices, mac)
    ensures body.JObj? && "agent_id" !in body.fields ==>
      Handle(t, mac, body) == Outcome(t, ServerError(KeyError(Key("agent_id"))))
    ensures Get(body, Key("agent_id")).Ok? ==>
      var id := Get(body, Key("agent_id")).value;
      var agents := Handle(t, mac, body).tables.agents;
      (Agent(id) in t.agents ==> agents == t.agents) &&
      (Agent(id) !in t.agents ==> agents == t.agents + [Agent(id)])
  {
  }

  /** What a successful request leaves behind: the agent, each group's row and every
      normalised inventory entry present, by dedup-insert, and no device written. */
  lemma SuccessTables(t: Tables, mac: string, body: Json)
    requires Handle(t, mac, body).response == Success
    ensures Get(body, Key("agent_id")).Ok? && (forall g :: FactValues(body, g).Ok?)
    ensures Inventory(body).Some? && Inventory(body).value.fault.None?
    ensures var id := Get(body, Key("agent_id")).value;
      Handle(t, mac, body).tables ==
        Tables(t.devices, DedupInsert(t.agents, Agent(id)),
               DedupInsert(t.system, FactRow(body, id, System)),
               DedupInsert(t.memory, FactRow(body, id, Memory)),
               DedupInsert(t.cpu, FactRow(body, id, Cpu)),
               DedupInsert(t.disk, FactRow(body, id, Disk)),
               DedupInsert(t.os, FactRow(body, id, Os)),
               InsertAll(t.software, Inventory(body).value.entries))
  {
    HandleSuccess(t, mac, body);
    var id := Get(body, Key("agent_id")).value;
    StagesSuccess(AgentStep(t, id), body, id);
  }

  // ---------------------------------------------------------------------------
  // Replaying a submission
  // ---------------------------------------------------------------------------

  /** What stage `s` stores for this submission is already in `t`: the group's row, or
      the name and version of every inventory candidate. */
  predicate StageDone(t: Tables, body: Json, id: Json, s: Stage) {
    match s
    case FactStage(g) => FactValues(body, g).Ok? ==> FactRow(body, id, g) in t.Facts(g)
    case SoftwareStage => Inventory(body).Some? ==> AllListed(t.software, Inventory(body).value.entries)
  }

  /** Stage `s` cannot raise on this submission. */
  predicate StageClean(body: Json, s: Stage) {
    match s
    case FactStage(g) => FactValues(body, g).Ok?
    case SoftwareStage => Inventory(body).Some? && Inventory(body).value.fault.None?
  }

  /** After a stage has run, what it stores is present, even when it raised part-way. */
  lemma StageRecords(t: Tables, body: Json, id: Json, s: Stage)
    ensures StageDone(RunStage(t, body, id, s).tables, body, id, s)
  {
    match s
    case FactStage(g) =>
    case SoftwareStage =>
      if Inventory(body).Some? {
        InsertAllListed(t.software, Inventory(body).value.entries);
      }
  }

  /** A stage whose rows are present already leaves the tables as they are, and raises
      exactly when it raised the first time: its exceptions depend on the submission only. */
  lemma StageAbsorbs(t: Tables, u: Tables, body: Json, id: Json, s: Stage)
    requires StageDone(u, body, id, s)
    ensures RunStage(u, body, id, s).tables == u
    ensures RunStage(u, body, id, s).fault == RunStage(t, body, id, s).fault
    ensures StageClean(body, s) ==> RunStage(u, body, id, s).fault.None?
  {
    match s
    case FactStage(g) => FactAbsorbs(t, u, body, id, g);
    case SoftwareStage => SoftwareAbsorbs(t, u, body);
  }

  lemma FactAbsorbs(t: Tables, u: Tables, body: Json, id: Json, g: Group)
    requires FactValues(body, g).Ok? ==> FactRow(body, id, g) in u.Facts(g)
    ensures FactStep(u, body, id, g).tables == u
    ensures FactStep(u, body, id, g).fault == FactStep(t, body, id, g).fault
  {
    if FactValues(body, g).Ok? {
      assert u.WithFacts(g, u.Facts(g)) == u by {
        match g
        case System =>
        case Memory =>
        case Cpu =>
        case Disk =>
        case Os =>
      }
    }
  }

  lemma SoftwareAbsorbs(t: Tables, u: Tables, body: Json)
    requires Inventory(body).Some? ==> AllListed(u.software, Inventory(body).value.entries)
    ensures SoftwareStep(u, body).tables == u
    ensures SoftwareStep(u, body).fault == SoftwareStep(t, body).fault
  {
    if Inventory(body).Some? {
      InsertAllNoop(u.software, Inventory(body).value.entries);
    }
  }

  /** Rows that are present stay present as the tables grow. */
  lemma DoneGrows(t: Tables, u: Tables, body: Json, id: Json, s: Stage)
    requires t.GrowsInto(u) && StageDone(t, body, id, s)
    ensures StageDone(u, body, id, s)
  {
    match s
    case FactStage(g) =>
      if FactValues(body, g).Ok? {
        var row := FactRow(body, id, g);
        var k :| 0 <= k < |t.Facts(g)| && t.Facts(g)[k] == row;
        assert u.Facts(g)[k] == row by {
          match g
          case System =>
          case Memory =>
          case Cpu =>
          case Disk =>
          case Os =>
        }
      }
    case SoftwareStage =>
      if Inventory(body).Some? {
        forall c | c in Inventory(body).value.entries
          ensures Listed(u.software, c.name, c.version)
        {
          ListedGrows(t.software, u.software, c.name, c.version);
        }
      }
  }

  /** Running the same stages again on the tables they left changes nothing and gives the
      same response. */
  lemma {:induction false} RunStagesIdempotent(t: Tables, body: Json, id: Json, stages: seq<Stage>)
    ensures var o := RunStages(t, body, id, stages);
      RunStages(o.tables, body, id, stages) == o
    decreases |stages|
  {
    if stages != [] {
      var o := RunStages(t, body, id, stages);
      var first := RunStage(t, body, id, stages[0]);
      StageRecords(t, body, id, stages[0]);
      DoneGrows(first.tables, o.tables, body, id, stages[0]);
      StageAbsorbs(t, o.tables, body, id, stages[0]);
      if first.fault.None? {
        RunStagesIdempotent(first.tables, body, id, stages[1..]);
      }
    }
  }

  /** Submitting the same snapshot twice: the second call leaves every table as the first
      left it and answers the same. */
  lemma HandleIdempotent(t: Tables, mac: string, body: Json)
    ensures var o := Handle(t, mac, body);
      Handle(o.tables, mac, body) == o
  {
    var o := Handle(t, mac, body);
    if Truthy(body) && FirstAbsent(body, RequiredFields) == AllPresent && DeviceKnown(t.devices, mac)
      && Get(body, Key("agent_id")).Ok?
    {
      var id := Get(body, Key("agent_id")).value;
      var t0 := AgentStep(t, id);
      assert o == RunStages(t0, body, id, Stages);
      assert Agent(id) in o.tables.agents;
      assert AgentStep(o.tables, id) == o.tables;
      RunStagesIdempotent(t0, body, id, Stages);
    }
  }

  // ---------------------------------------------------------------------------
  // A snapshot that differs in one value
  // ---------------------------------------------------------------------------

  /** Stages that cannot raise and whose rows are all present already pass through
      without touching the tables. */
  lemma {:induction false} AbsorbPrefix(u: Tables, body: Json, id: Json, pre: seq<Stage>, rest: seq<Stage>)
    requires forall s :: s in pre ==> StageClean(body, s) && StageDone(u, body, id, s)
    ensures RunStages(u, body, id, pre + rest) == RunStages(u, body, id, rest)
    decreases |pre|
  {
    if pre != [] {
      assert (pre + rest)[0] == pre[0] && (pre + rest)[1..] == pre[1..] + rest;
      StageAbsorbs(u, u, body, id, pre[0]);
      assert pre[0] in pre;
      assert forall s :: s in pre[1..] ==> s in pre;
      AbsorbPrefix(u, body, id, pre[1..], rest);
    } else {
      assert pre + rest == rest;
    }
  }

  /** Two submissions that agree on everything the handler reads except the cpu group. */
  predicate SameButCpu(body: Json, other: Json) {
    Truthy(other) && FirstAbsent(other, RequiredFields) == AllPresent &&
    Get(other, Key("agent_id")) == Get(body, Key("agent_id")) &&
    Inventory(other) == Inventory(body) &&
    FactValues(other, System) == FactValues(body, System) &&
    FactValues(other, Memory) == FactValues(body, Memory) &&
    FactValues(other, Disk) == FactValues(body, Disk) &&
    FactValues(other, Os) == FactValues(body, Os) &&
    FactValues(other, Cpu).Ok?
  }

  /** After a successful request, the rows of every stage but cpu are present for a
      submission that differs only in its cpu values. */
  lemma DoneAfterSuccess(t: Tables, mac: string, body: Json, other: Json)
    requires Handle(t, mac, body).response == Success
    requires SameButCpu(body, other)
    ensures var o := Handle(t, mac, body).tables;
      var id := Get(body, Key("agent_id")).value;
      forall s :: s in Stages && s != FactStage(Cpu) ==> StageClean(other, s) && StageDone(o, other, id, s)
  {
    var o := Handle(t, mac, body).tables;
    var id := Get(body, Key("agent_id")).value;
    forall s | s in Stages && s != FactStage(Cpu)
      ensures StageClean(other, s) && StageDone(o, other, id, s)
    {
      match s
      case FactStage(g) => FactDoneAfterSuccess(t, mac, body, other, g);
      case SoftwareStage => SoftwareDoneAfterSuccess(t, mac, body, other);
    }
  }

  lemma FactDoneAfterSuccess(t: Tables, mac: string, body: Json, other: Json, g: Group)
    requires Handle(t, mac, body).response == Success
    requires SameButCpu(body, other) && g != Cpu
    ensures StageClean(other, FactStage(g))
    ensures StageDone(Handle(t, mac, body).tables, other, Get(body, Key("agent_id")).value, FactStage(g))
  {
    SuccessTables(t, mac, body);
    var id := Get(body, Key("agent_id")).value;
    var o := Handle(t, mac, body).tables;
    assert FactValues(other, g) == FactValues(body, g) by {
      match g
      case System =>
      case Memory =>
      case Disk =>
      case Os =>
    }
    assert FactRow(other, id, g) == FactRow(body, id, g);
    assert o.Facts(g) == DedupInsert(t.Facts(g), FactRow(body, id, g)) by {
      match g
      case System =>
      case Memory =>
      case Disk =>
      case Os =>
    }
  }

  lemma SoftwareDoneAfterSuccess(t: Tables, mac: string, body: Json, other: Json)
    requires Handle(t, mac, body).response == Success
    requires SameButCpu(body, other)
    ensures StageClean(other, SoftwareStage)
    ensures StageDone(Handle(t, mac, body).tables, other, Get(body, Key("agent_id")).value, SoftwareStage)
  {
    SuccessTables(t, mac, body);
    InsertAllListed(t.software, Inventory(body).value.entries);
  }

  /** The stages on tables holding every row but the cpu one: only the cpu row is added. */
  lemma CpuStageOnly(o: Tables, other: Json, id: Json)
    requires forall s :: s in Stages && s != FactStage(Cpu) ==> StageClean(other, s) && StageDone(o, other, id, s)
    requires FactValues(other, Cpu).Ok? && FactRow(other, id, Cpu) !in o.cpu
    ensures RunStages(o, other, id, Stages) == Outcome(o.(cpu := o.cpu + [FactRow(other, id, Cpu)]), Success)
  {
    var pre := [FactStage(System), SoftwareStage, FactStage(Memory)];
    assert forall s :: s in pre ==> s in Stages && s != FactStage(Cpu);
    assert forall s :: s in LastStages ==> s in Stages && s != FactStage(Cpu);
    assert Stages == pre + ([FactStage(Cpu)] + LastStages);
    AbsorbPrefix(o, other, id, pre, [FactStage(Cpu)] + LastStages);
    var u := o.(cpu := o.cpu + [FactRow(other, id, Cpu)]);
    CpuRowAdded(o, other, id);
    StageThen(o, other, id, FactStage(Cpu), LastStages, Step(u, None));
    LastStagesAbsorb(o, other, id);
  }

  /** The disk and os rows already present, also once the cpu row is added, the last two
      stages pass through. */
  lemma LastStagesAbsorb(o: Tables, other: Json, id: Json)
    requires forall s :: s in LastStages ==> StageClean(other, s) && StageDone(o, other, id, s)
    requires FactValues(other, Cpu).Ok?
    ensures var u := o.(cpu := o.cpu + [FactRow(other, id, Cpu)]);
      RunStages(u, other, id, LastStages) == Outcome(u, Success)
  {
    var u := o.(cpu := o.cpu + [FactRow(other, id, Cpu)]);
    forall s | s in LastStages
      ensures StageClean(other, s) && StageDone(u, other, id, s)
    {
      CpuRowKeepsDone(o, other, id, s);
    }
    assert LastStages == LastStages + [];
    AbsorbPrefix(u, other, id, LastStages, []);
  }

  /** The cpu stage, its row not yet stored, appends that row and raises nothing. */
  lemma CpuRowAdded(o: Tables, other: Json, id: Json)
    requires FactValues(other, Cpu).Ok? && FactRow(other, id, Cpu) !in o.cpu
    ensures RunStage(o, other, id, FactStage(Cpu)) == Step(o.(cpu := o.cpu + [FactRow(other, id, Cpu)]), None)
  {
    DedupInsertCount(o.cpu, FactRow(other, id, Cpu));
  }

  /** Adding a cpu row leaves every other stage's rows where they were. */
  lemma CpuRowKeepsDone(o: Tables, other: Json, id: Json, s: Stage)
    requires s != FactStage(Cpu) && StageDone(o, other, id, s) && FactValues(other, Cpu).Ok?
    ensures StageDone(o.(cpu := o.cpu + [FactRow(other, id, Cpu)]), other, id, s)
  {
  }

  /** After a successful request, a submission that differs only in its cpu values, with a
      cpu row not yet stored for the agent, adds exactly that one cpu row and nothing to
      any other table. */
  lemma OnlyCpuRowAdded(t: Tables, mac: string, body: Json, other: Json)
    requires Handle(t, mac, body).response == Success
    requires SameButCpu(body, other)
    requires FactRow(other, Get(body, Key("agent_id")).value, Cpu) !in Handle(t, mac, body).tables.cpu
    ensures var o := Handle(t, mac, body).tables;
      var row := FactRow(other, Get(body, Key("agent_id")).value, Cpu);
      Handle(o, mac, other) == Outcome(o.(cpu := o.cpu + [row]), Success)
  {
    SuccessTables(t, mac, body);
    var id := Get(body, Key("agent_id")).value;
    var o := Handle(t, mac, body).tables;
    assert AgentStep(o, id) == o;
    assert Handle(o, mac, other) == RunStages(o, other, id, Stages);
    DoneAfterSuccess(t, mac, body, other);
    CpuStageOnly(o, other, id);
  }

  /** The submission with `cpu_info["cpu_percent"]` set to `v`. */
  function WithCpuPercent(body: Json, v: Json): Json
    requires body.JObj? && "cpu_info" in body.fields && body.fields["cpu_info"].JObj?
  {
    var cpu := body.fields["cpu_info"].fields;
    JObj(body.fields["cpu_info" := JObj(cpu["cpu_percent" := v])])
  }

  /** Changing `cpu_percent` keeps the submission's keys, and so its required-key check. */
  lemma CpuPercentKeys(body: Json, v: Json)
    requires body.JObj? && "cpu_info" in body.fields && body.fields["cpu_info"].JObj?
    ensures Truthy(WithCpuPercent(body, v))
    ensures FirstAbsent(WithCpuPercent(body, v), RequiredFields) == FirstAbsent(body, RequiredFields)
  {
    var other := WithCpuPercent(body, v);
    assert "cpu_info" in other.fields;
    assert other.fields.Keys == body.fields.Keys;
    assert forall k :: Contains(other, k) == Contains(body, k);
    SameContainsSameCheck(body, other, RequiredFields);
  }

  /** Two values that answer `in` alike pass the key check alike. */
  lemma {:induction false} SameContainsSameCheck(a: Json, b: Json, keys: seq<string>)
    requires forall k :: Contains(a, k) == Contains(b, k)
    ensures FirstAbsent(a, keys) == FirstAbsent(b, keys)
    decreases |keys|
  {
    if keys != [] {
      SameContainsSameCheck(a, b, keys[1..]);
    }
  }

  /** Changing `cpu_percent` in a submission whose cpu values can be read changes nothing
      else the handler reads. */
  lemma CpuPercentOnly(body: Json, v: Json)
    requires FirstAbsent(body, RequiredFields) == AllPresent && FactValues(body, Cpu).Ok?
    ensures body.JObj? && "cpu_info" in body.fields && body.fields["cpu_info"].JObj?
    ensures var other := WithCpuPercent(body, v);
      FactValues(other, Cpu) == Ok([v]) && SameButCpu(body, other)
  {
    assert Get(body.fields["cpu_info"], Key("cpu_percent")).Ok?;
    CpuPercentKeys(body, v);
    CpuPercentReads(body, v);
  }

  /** The lookups the handler makes in the rewritten submission. */
  lemma CpuPercentReads(body: Json, v: Json)
    requires body.JObj? && "cpu_info" in body.fields && body.fields["cpu_info"].JObj?
    ensures var other := WithCpuPercent(body, v);
      FactValues(other, Cpu) == Ok([v]) &&
      Get(other, Key("agent_id")) == Get(body, Key("agent_id")) &&
      Inventory(other) == Inventory(body) &&
      forall g :: g != Cpu ==> FactValues(other, g) == FactValues(body, g)
  {
    var other := WithCpuPercent(body, v);
    forall g | g != Cpu
      ensures FactValues(other, g) == FactValues(body, g)
    {
      assert BodyKey(g) != "cpu_info";
      assert Get(other, Key(BodyKey(g))) == Get(body, Key(BodyKey(g)));
    }
    assert Get(other, Key("installed_software")) == Get(body, Key("installed_software"));
    var cpu := JObj(body.fields["cpu_info"].fields["cpu_percent" := v]);
    assert Get(other, Key("cpu_info")) == Ok(cpu);
    LookupOne(cpu, "cpu_percent");
  }

  /** Reading a single column. */
  lemma LookupOne(obj: Json, k: string)
    requires Get(obj, Key(k)).Ok?
    ensures Lookup(obj, [k]) == Ok([Get(obj, Key(k)).value])
  {
    var x := Get(obj, Key(k)).value;
    assert [k][0] == k && [k][1..] == [];
    assert Lookup(obj, []) == Ok([]);
    assert [x] + [] == [x];
  }

  // ---------------------------------------------------------------------------
  // No duplicate rows
  // ---------------------------------------------------------------------------

  /** No agent row or fact row occurs twice, and no two software rows share a name and
      version. */
  predicate NoDuplicates(t: Tables) {
    Distinct(t.agents) && (forall g :: Distinct(t.Facts(g))) && PairsUnique(t.software)
  }

  /** Each stage keeps the tables free of duplicates, whether it completes or raises. */
  lemma StageKeepsNoDuplicates(t: Tables, body: Json, id: Json, s: Stage)
    requires NoDuplicates(t)
    ensures NoDuplicates(RunStage(t, body, id, s).tables)
  {
    match s
    case FactStage(g) =>
      if FactValues(body, g).Ok? {
        DedupInsertDistinct(t.Facts(g), FactRow(body, id, g));
        var u := t.WithFacts(g, DedupInsert(t.Facts(g), FactRow(body, id, g)));
        assert RunStage(t, body, id, s).tables == u;
        assert forall h :: u.Facts(h) == if h == g then DedupInsert(t.Facts(g), FactRow(body, id, g)) else t.Facts(h);
      }
    case SoftwareStage =>
      var sw := Get(body, Key("installed_software"));
      if sw.Ok? && Len(sw.value).Ok? {
        InsertAllUnique(t.software, Candidates(sw.value, Len(sw.value).value).entries);
      }
      var u := RunStage(t, body, id, s).tables;
      assert u == t.(software := u.software);
      assert forall h :: u.Facts(h) == t.Facts(h);
  }

  /** Running any list of stages keeps the tables free of duplicates. */
  lemma {:induction false} StagesKeepNoDuplicates(t: Tables, body: Json, id: Json, stages: seq<Stage>)
    requires NoDuplicates(t)
    ensures NoDuplicates(RunStages(t, body, id, stages).tables)
    decreases |stages|
  {
    if stages != [] {
      StageKeepsNoDuplicates(t, body, id, stages[0]);
      var s := RunStage(t, body, id, stages[0]);
      if s.fault.None? {
        StagesKeepNoDuplicates(s.tables, body, id, stages[1..]);
      }
    }
  }

  /** However requests interleave with the tables, the handler never stores a duplicate
      agent, a duplicate fact row or a second software row with the same name and version. */
  lemma HandleKeepsNoDuplicates(t: Tables, mac: string, body: Json)
    requires NoDuplicates(t)
    ensures NoDuplicates(Handle(t, mac, body).tables)
  {
    if Truthy(body) && FirstAbsent(body, RequiredFields) == AllPresent && DeviceKnown(t.devices, mac)
      && Get(body, Key("agent_id")).Ok?
    {
      var id := Get(body, Key("agent_id")).value;
      DedupInsertDistinct(t.agents, Agent(id));
      var t0 := AgentStep(t, id);
      assert forall g :: t0.Facts(g) == t.Facts(g);
      StagesKeepNoDuplicates(t0, body, id, Stages);
    }
  }

  // ---------------------------------------------------------------------------
  // When a request succeeds
  // ---------------------------------------------------------------------------

  /** Stages none of which can raise on the submission run to success. */
  lemma {:induction false} CleanStagesSucceed(t: Tables, body: Json, id: Json, stages: seq<Stage>)
    requires forall s :: s in stages ==> StageClean(body, s)
    ensures RunStages(t, body, id, stages).response == Success
    decreases |stages|
  {
    if stages != [] {
      assert stages[0] in stages;
      assert RunStage(t, body, id, stages[0]).fault.None? by {
        match stages[0]
        case FactStage(g) =>
        case SoftwareStage =>
      }
      assert forall s :: s in stages[1..] ==> s in stages;
      CleanStagesSucceed(RunStage(t, body, id, stages[0]).tables, body, id, stages[1..]);
    }
  }

  /** A request succeeds exactly when the submission is valid, the server's device is
      known, the submission carries an `agent_id`, every group's columns can be read and
      every inventory entry from 1 on is a pair of strings. */
  lemma HandleSucceedsIff(t: Tables, mac: string, body: Json)
    ensures Handle(t, mac, body).response == Success <==>
      Truthy(body) && FirstAbsent(body, RequiredFields) == AllPresent &&
      DeviceKnown(t.devices, mac) && Get(body, Key("agent_id")).Ok? &&
      (forall g :: FactValues(body, g).Ok?) &&
      Inventory(body).Some? && Inventory(body).value.fault.None?
  {
    if Handle(t, mac, body).response == Success {
      HandleSuccess(t, mac, body);
      SuccessTables(t, mac, body);
    } else if Truthy(body) && FirstAbsent(body, RequiredFields) == AllPresent &&
      DeviceKnown(t.devices, mac) && Get(body, Key("agent_id")).Ok? &&
      (forall g :: FactValues(body, g).Ok?) &&
      Inventory(body).Some? && Inventory(body).value.fault.None?
    {
      var id := Get(body, Key("agent_id")).value;
      forall s | s in Stages
        ensures StageClean(body, s)
      {
        match s
        case FactStage(g) =>
        case SoftwareStage =>
      }
      CleanStagesSucceed(AgentStep(t, id), body, id, Stages);
      assert false;
    }
  }
}
