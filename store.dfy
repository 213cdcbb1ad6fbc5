/** The relational store shared by the server and the provisioning tool: one table per
    entity, each a sequence of rows in insertion order. Auto-increment `id` columns are
    not modelled; the explicit `id` of a software row is. Values bound into a query are
    compared by exact equality. */
module Store {
  import opened Json

  /** A `devices` row: the provisioning tool writes it, the server only reads it. */
  datatype Device = Device(name: Json, macAddress: Json, ipAddress: Json)

  /** An `agent` row. */
  datatype Agent = Agent(agentId: Json)

  /** The five fact tables. */
  datatype Group = System | Memory | Cpu | Disk | Os

  /** A row of a fact table: the owning agent and the group's columns, in column order. */
  datatype Fact = Fact(agentId: Json, values: seq<Json>)

  /** A `software_info` row. */
  datatype Software = Software(id: int, name: string, version: string)

  /** The contents of every table at one moment. */
  datatype Tables = Tables(
    devices: seq<Device>,
    agents: seq<Agent>,
    system: seq<Fact>,
    memory: seq<Fact>,
    cpu: seq<Fact>,
    disk: seq<Fact>,
    os: seq<Fact>,
    software: seq<Software>)
  {
    /** The fact table of group `g`. */
    function Facts(g: Group): seq<Fact> {
      match g
      case System => system
      case Memory => memory
      case Cpu => cpu
      case Disk => disk
      case Os => os
    }

    /** These tables with the fact table of `g` replaced by `rows`. */
    function WithFacts(g: Group, rows: seq<Fact>): (t: Tables)
      ensures t.Facts(g) == rows
      ensures forall h :: h != g ==> t.Facts(h) == Facts(h)
      ensures t.devices == devices && t.agents == agents && t.software == software
    {
      match g
      case System => this.(system := rows)
      case Memory => this.(memory := rows)
      case Cpu => this.(cpu := rows)
      case Disk => this.(disk := rows)
      case Os => this.(os := rows)
    }

    /** Every table of `this` is a prefix of the same table in `later`: the tables
        only ever grow at the end. */
    predicate GrowsInto(later: Tables) {
      devices <= later.devices && agents <= later.agents &&
      system <= later.system && memory <= later.memory && cpu <= later.cpu &&
      disk <= later.disk && os <= later.os && software <= later.software
    }
  }

  const Empty := Tables([], [], [], [], [], [], [], [])

  /** The database, updated in place by INSERT statements. */
  class Database {
    var devices: seq<Device>
    var agents: seq<Agent>
    var system: seq<Fact>
    var memory: seq<Fact>
    var cpu: seq<Fact>
    var disk: seq<Fact>
    var os: seq<Fact>
    var software: seq<Software>

    /** The current contents of every table. */
    function Contents(): Tables
      reads this
    {
      Tables(devices, agents, system, memory, cpu, disk, os, software)
    }

    constructor ()
      ensures Contents() == Empty
    {
      devices, agents, software := [], [], [];
      system, memory, cpu, disk, os := [], [], [], [], [];
    }

    /** `INSERT INTO devices (name, mac_address, ip_address) VALUES (...)` */
    method InsertDevice(d: Device)
      modifies this
      ensures Contents() == old(Contents()).(devices := old(devices) + [d])
    {
      devices := devices + [d];
    }

    /** `INSERT INTO agent (agent_id) VALUES (...)` */
    method InsertAgent(a: Agent)
      modifies this
      ensures Contents() == old(Contents()).(agents := old(agents) + [a])
    {
      agents := agents + [a];
    }

    /** `INSERT INTO <g's table> (agent_id, <g's columns>) VALUES (...)` */
    method InsertFact(g: Group, row: Fact)
      modifies this
      ensures Contents() == old(Contents()).WithFacts(g, old(Contents()).Facts(g) + [row])
    {
      match g
      case System => system := system + [row];
      case Memory => memory := memory + [row];
      case Cpu => cpu := cpu + [row];
      case Disk => disk := disk + [row];
      case Os => os := os + [row];
    }

    /** `INSERT INTO software_info (id, name, version) VALUES (...)` */
    method InsertSoftware(row: Software)
      modifies this
      ensures Contents() == old(Contents()).(software := old(software) + [row])
    {
      software := software + [row];
    }
  }
}
