/** The provisioning tool (addUser/main.py): it strips byte-order marks from the exported
    interface lists, keeps the Ethernet and Wi-Fi entries of each, joins IP entries with
    MAC entries of the same interface into device records and appends one `devices` row per
    record. It also defines a query for the greatest stored `agent_id`, which its script
    never calls; the query is modelled as `LastAgentId`. Reading and parsing the files and
    connecting to MySQL are inputs: a file that could not be read or parsed is `None`. */
module Provisioning {
  import opened Json
  import opened Store
  import Server

  // ---------------------------------------------------------------------------
  // Byte-order marks
  // ---------------------------------------------------------------------------

  const Bom: char := '\U{FEFF}'

  /** The text with every U+FEFF character removed, wherever it stands. */
  function CleanJsonData(content: string): (r: string)
    ensures Bom !in r && |r| <= |content|
  {
    if content == [] then []
    else (if content[0] == Bom then [] else [content[0]]) + CleanJsonData(content[1..])
  }

  /** Cleaning works piece by piece: every mark is removed wherever it stands, not only a
      leading one, and the other characters keep their order. */
  lemma {:induction false} CleanAppend(a: string, b: string)
    ensures CleanJsonData(a + b) == CleanJsonData(a) + CleanJsonData(b)
    decreases |a|
  {
    if a == [] {
      assert a + b == b;
    } else {
      assert (a + b)[0] == a[0] && (a + b)[1..] == a[1..] + b;
      CleanAppend(a[1..], b);
    }
  }

  /** Every character other than the mark is kept, as often as it occurs. */
  lemma {:induction false} CleanKeepsOthers(content: string, c: char)
    requires c != Bom
    ensures multiset(CleanJsonData(content))[c] == multiset(content)[c]
    decreases |content|
  {
    if content != [] {
      CleanKeepsOthers(content[1..], c);
      assert content == [content[0]] + content[1..];
    }
  }

  /** Text without a mark is left as it is; so cleaning twice is cleaning once. */
  lemma {:induction false} CleanUnmarked(content: string)
    requires Bom !in content
    ensures CleanJsonData(content) == content
    decreases |content|
  {
    if content != [] {
      assert content[0] != Bom;
      assert Bom !in content[1..];
      CleanUnmarked(content[1..]);
    }
  }

  lemma CleanIdempotent(content: string)
    ensures CleanJsonData(CleanJsonData(content)) == CleanJsonData(content)
  {
    CleanUnmarked(CleanJsonData(content));
  }

  // ---------------------------------------------------------------------------
  // Keeping the Ethernet and Wi-Fi entries
  // ---------------------------------------------------------------------------

  /** `v in ['Ethernet', 'Wi-Fi']` */
  predicate IsInterface(v: Json) {
    v == JStr("Ethernet") || v == JStr("Wi-Fi")
  }

  /** The items `for item in data` visits, for data that passed the truth test. A list
      yields its elements. Anything else either cannot be iterated (a number, `true`) or
      yields strings (a dictionary's keys, a string's characters), and subscripting a
      string with a key raises TypeError: so both end in TypeError. */
  function Items(data: Json): (r: Result<seq<Json>>)
    ensures r.Ok? <==> data.JArr?
    ensures r.Err? ==> r.fault == TypeError
  {
    match data
    case JArr(items) => Ok(items)
    case _ => Err(TypeError)
  }

  /** `[item for item in items if item[key] in ['Ethernet', 'Wi-Fi']]`: the first item
      whose subscript raises ends it. */
  function Select(items: seq<Json>, key: string): Result<seq<Json>>
    decreases |items|
  {
    if items == [] then Ok([])
    else
      match Select(items[..|items| - 1], key)
      case Err(f) => Err(f)
      case Ok(kept) =>
        var item := items[|items| - 1];
        match Get(item, Key(key))
        case Err(f) => Err(f)
        case Ok(v) => Ok(if IsInterface(v) then kept + [item] else kept)
  }

  /** The filter succeeds exactly when every item can be subscripted; it then keeps, in
      order, exactly the items whose value is Ethernet or Wi-Fi; otherwise it raises what
      the first failing item raises. */
  lemma {:induction false} SelectSpec(items: seq<Json>, key: string)
    ensures Select(items, key).Ok? <==> forall i :: 0 <= i < |items| ==> Get(items[i], Key(key)).Ok?
    ensures Select(items, key).Ok? ==>
      forall x :: x in Select(items, key).value <==>
        x in items && IsInterface(Get(x, Key(key)).value)
    ensures Select(items, key).Ok? ==> |Select(items, key).value| <= |items|
    ensures Select(items, key).Ok? ==> Select(items, key).value == Interfaces(items, key)
    ensures Select(items, key).Err? ==>
      exists i :: 0 <= i < |items| && Get(items[i], Key(key)) == Err(Select(items, key).fault) &&
        forall m :: 0 <= m < i ==> Get(items[m], Key(key)).Ok?
    decreases |items|
  {
    if items != [] {
      var init := items[..|items| - 1];
      SelectSpec(init, key);
      assert forall i :: 0 <= i < |init| ==> items[i] == init[i];
      assert forall x :: x in items <==> x in init || x == items[|items| - 1];
    }
    if Select(items, key).Ok? {
      SelectIsInterfaces(items, key);
    }
  }

  /** The items the filter keeps, read from the front: every item whose value is Ethernet
      or Wi-Fi, in order, once each. */
  function Interfaces(items: seq<Json>, key: string): seq<Json>
    requires forall i :: 0 <= i < |items| ==> Get(items[i], Key(key)).Ok?
  {
    if items == [] then []
    else
      (if IsInterface(Get(items[0], Key(key)).value) then [items[0]] else [])
        + Interfaces(items[1..], key)
  }

  /** Filtering a run of items after another keeps what the first run keeps, then what
      the second keeps. */
  lemma {:induction false} SelectAppend(a: seq<Json>, b: seq<Json>, key: string)
    requires Select(a, key).Ok? && Select(b, key).Ok?
    ensures Select(a + b, key) == Ok(Select(a, key).value + Select(b, key).value)
    decreases |b|
  {
    if b == [] {
      assert a + b == a;
      assert Select(a, key).value + [] == Select(a, key).value;
    } else {
      var init := b[..|b| - 1];
      assert Select(init, key).Ok?;
      SelectAppend(a, init, key);
      assert (a + b)[..|a + b| - 1] == a + init;
      assert (a + b)[|a + b| - 1] == b[|b| - 1];
      var item := b[|b| - 1];
      var tail := if IsInterface(Get(item, Key(key)).value) then [item] else [];
      assert Select(b, key).value == Select(init, key).value + tail;
      assert Select(a + b, key).value == Select(a + init, key).value + tail;
      assert Select(a, key).value + Select(init, key).value + tail ==
             Select(a, key).value + (Select(init, key).value + tail);
    }
  }

  /** When every item can be subscripted, the filter keeps exactly `Interfaces`: each
      Ethernet or Wi-Fi item once, in the order of the input. */
  lemma {:induction false} SelectIsInterfaces(items: seq<Json>, key: string)
    requires forall i :: 0 <= i < |items| ==> Get(items[i], Key(key)).Ok?
    ensures Select(items, key) == Ok(Interfaces(items, key))
    decreases |items|
  {
    if items != [] {
      var head, rest := [items[0]], items[1..];
      assert forall i :: 0 <= i < |rest| ==> rest[i] == items[i + 1];
      SelectIsInterfaces(rest, key);
      assert head[..|head| - 1] == [] && head[|head| - 1] == items[0];
      assert Select(head[..|head| - 1], key) == Ok([]);
      assert Get(items[0], Key(key)).Ok?;
      var kept := if IsInterface(Get(items[0], Key(key)).value) then [items[0]] else [];
      assert Select(head, key) == Ok(if IsInterface(Get(head[0], Key(key)).value) then [] + [head[0]] else []);
      assert [] + [head[0]] == [items[0]];
      assert Select(head, key) == Ok(kept);
      SelectAppend(head, rest, key);
      assert head + rest == items;
    }
  }

  // ---------------------------------------------------------------------------
  // Joining IP entries with MAC entries
  // ---------------------------------------------------------------------------

  /** The dictionary appended for a matching pair, its values read in the order the
      literal lists them: the MAC entry's `Name` and `MacAddress`, the IP entry's
      `IPAddress`. */
  function Record(ip: Json, mac: Json): Result<Device> {
    match Get(mac, Key("Name"))
    case Err(f) => Err(f)
    case Ok(name) =>
      match Get(mac, Key("MacAddress"))
      case Err(f) => Err(f)
      case Ok(macAddress) =>
        match Get(ip, Key("IPAddress"))
        case Err(f) => Err(f)
        case Ok(ipAddress) => Ok(Device(name, macAddress, ipAddress))
  }

  /** The inner loop for one IP entry: a record for every MAC entry, in order, whose
      `Name` equals the IP entry's `InterfaceAlias`. */
  function JoinRow(ip: Json, macs: seq<Json>): Result<seq<Device>>
    decreases |macs|
  {
    if macs == [] then Ok([])
    else
      match JoinRow(ip, macs[..|macs| - 1])
      case Err(f) => Err(f)
      case Ok(done) =>
        var mac := macs[|macs| - 1];
        match Get(ip, Key("InterfaceAlias"))
        case Err(f) => Err(f)
        case Ok(alias) =>
          match Get(mac, Key("Name"))
          case Err(f) => Err(f)
          case Ok(name) =>
            if alias != name then Ok(done)
            else
              match Record(ip, mac)
              case Err(f) => Err(f)
              case Ok(d) => Ok(done + [d])
  }

  /** The nested loops: IP-major, each IP entry's records in MAC order. */
  function Join(ips: seq<Json>, macs: seq<Json>): Result<seq<Device>>
    decreases |ips|
  {
    if ips == [] then Ok([])
    else
      match Join(ips[..|ips| - 1], macs)
      case Err(f) => Err(f)
      case Ok(done) =>
        match JoinRow(ips[|ips| - 1], macs)
        case Err(f) => Err(f)
        case Ok(row) => Ok(done + row)
  }

  /** The join loop of `read_and_merge_data`, appending to `merged_data` as it goes. */
  method Merge(ips: seq<Json>, macs: seq<Json>) returns (r: Result<seq<Device>>)
    ensures r == Join(ips, macs)
  {
    var merged: seq<Device> := [];
    for i := 0 to |ips|
      invariant Join(ips[..i], macs) == Ok(merged)
    {
      assert ips[..i + 1][..i] == ips[..i];
      var ip := ips[i];
      ghost var before := merged;
      for j := 0 to |macs|
        invariant exists row :: JoinRow(ip, macs[..j]) == Ok(row) && merged == before + row
      {
        assert macs[..j + 1][..j] == macs[..j];
        var mac := macs[j];
        var alias := Get(ip, Key("InterfaceAlias"));
        if alias.Err? {
          JoinStops(ips, macs, i, j, JoinRow(ip, macs[..j + 1]).fault);
          return Err(alias.fault);
        }
        var name := Get(mac, Key("Name"));
        if name.Err? {
          JoinStops(ips, macs, i, j, JoinRow(ip, macs[..j + 1]).fault);
          return Err(name.fault);
        }
        if alias.value == name.value {
          var d := Record(ip, mac);
          if d.Err? {
            JoinStops(ips, macs, i, j, JoinRow(ip, macs[..j + 1]).fault);
            return Err(d.fault);
          }
          merged := merged + [d.value];
        }
      }
      assert macs[..|macs|] == macs;
    }
    assert ips[..|ips|] == ips;
    return Ok(merged);
  }

  /** An inner loop that raises ends the whole join with its exception. */
  lemma {:induction false} JoinStops(ips: seq<Json>, macs: seq<Json>, i: int, j: int, f: Fault)
    requires 0 <= i < |ips| && Join(ips[..i], macs).Ok?
    requires 0 <= j < |macs| && JoinRow(ips[i], macs[..j + 1]) == Err(f)
    ensures Join(ips, macs) == Err(f)
  {
    RowStops(ips[i], macs, j + 1, f);
    assert ips[..i + 1][..i] == ips[..i];
    JoinPrefixStops(ips, macs, i + 1, f);
  }

  lemma {:induction false} RowStops(ip: Json, macs: seq<Json>, n: int, f: Fault)
    requires 0 <= n <= |macs| && JoinRow(ip, macs[..n]) == Err(f)
    ensures JoinRow(ip, macs) == Err(f)
    decreases |macs| - n
  {
    if n < |macs| {
      assert macs[..n + 1][..n] == macs[..n];
      RowStops(ip, macs, n + 1, f);
    } else {
      assert macs[..n] == macs;
    }
  }

  lemma {:induction false} JoinPrefixStops(ips: seq<Json>, macs: seq<Json>, n: int, f: Fault)
    requires 0 <= n <= |ips| && Join(ips[..n], macs) == Err(f)
    ensures Join(ips, macs) == Err(f)
    decreases |ips| - n
  {
    if n < |ips| {
      assert ips[..n + 1][..n] == ips[..n];
      JoinPrefixStops(ips, macs, n + 1, f);
    } else {
      assert ips[..n] == ips;
    }
  }

  /** An entry usable by the join: a dictionary holding the keys it reads. */
  predicate IpEntry(ip: Json) {
    ip.JObj? && "InterfaceAlias" in ip.fields && "IPAddress" in ip.fields
  }

  predicate MacEntry(mac: Json) {
    mac.JObj? && "Name" in mac.fields && "MacAddress" in mac.fields
  }

  /** The record of a matching pair of usable entries. */
  function Paired(ip: Json, mac: Json): Device
    requires IpEntry(ip) && MacEntry(mac)
  {
    Device(mac.fields["Name"], mac.fields["MacAddress"], ip.fields["IPAddress"])
  }

  /** The records one IP entry is owed, read off the MAC list from the front: one per MAC
      entry whose name is the IP entry's interface alias, in MAC order. */
  function Matches(ip: Json, macs: seq<Json>): seq<Device>
    requires IpEntry(ip) && forall j :: 0 <= j < |macs| ==> MacEntry(macs[j])
  {
    if macs == [] then []
    else
      assert MacEntry(macs[0]);
      (if macs[0].fields["Name"] == ip.fields["InterfaceAlias"] then [Paired(ip, macs[0])] else [])
        + Matches(ip, macs[1..])
  }

  /** The records a list of IP entries is owed: each entry's `Matches`, IP-major. */
  function AllMatches(ips: seq<Json>, macs: seq<Json>): seq<Device>
    requires forall i :: 0 <= i < |ips| ==> IpEntry(ips[i])
    requires forall j :: 0 <= j < |macs| ==> MacEntry(macs[j])
  {
    if ips == [] then [] else Matches(ips[0], macs) + AllMatches(ips[1..], macs)
  }

  /** Running the inner loop over a run of MAC entries after another gives the records of
      the first run, then those of the second: within one IP entry the records follow MAC
      order. */
  lemma {:induction false} JoinRowAppend(ip: Json, m1: seq<Json>, m2: seq<Json>)
    requires JoinRow(ip, m1).Ok? && JoinRow(ip, m2).Ok?
    ensures JoinRow(ip, m1 + m2) == Ok(JoinRow(ip, m1).value + JoinRow(ip, m2).value)
    decreases |m2|
  {
    if m2 == [] {
      assert m1 + m2 == m1;
      assert JoinRow(ip, m1).value + [] == JoinRow(ip, m1).value;
    } else {
      var init := m2[..|m2| - 1];
      assert JoinRow(ip, init).Ok?;
      JoinRowAppend(ip, m1, init);
      assert (m1 + m2)[..|m1 + m2| - 1] == m1 + init;
      assert (m1 + m2)[|m1 + m2| - 1] == m2[|m2| - 1];
      var done, mac := JoinRow(ip, init).value, m2[|m2| - 1];
      var tail :=
        if Get(ip, Key("InterfaceAlias")).value == Get(mac, Key("Name")).value
        then [Record(ip, mac).value] else [];
      assert JoinRow(ip, m2).value == done + tail;
      assert JoinRow(ip, m1 + m2).value == JoinRow(ip, m1 + init).value + tail;
      assert JoinRow(ip, m1).value + done + tail == JoinRow(ip, m1).value + (done + tail);
    }
  }

  /** Joining a run of IP entries after another gives the records of the first run, then
      those of the second: the records are IP-major. */
  lemma {:induction false} JoinAppend(a: seq<Json>, b: seq<Json>, macs: seq<Json>)
    requires Join(a, macs).Ok? && Join(b, macs).Ok?
    ensures Join(a + b, macs) == Ok(Join(a, macs).value + Join(b, macs).value)
    decreases |b|
  {
    if b == [] {
      assert a + b == a;
      assert Join(a, macs).value + [] == Join(a, macs).value;
    } else {
      var init := b[..|b| - 1];
      assert Join(init, macs).Ok?;
      JoinAppend(a, init, macs);
      assert (a + b)[..|a + b| - 1] == a + init;
      assert (a + b)[|a + b| - 1] == b[|b| - 1];
      var row := JoinRow(b[|b| - 1], macs).value;
      assert Join(b, macs).value == Join(init, macs).value + row;
      assert Join(a + b, macs).value == Join(a + init, macs).value + row;
      assert Join(a, macs).value + Join(init, macs).value + row ==
             Join(a, macs).value + (Join(init, macs).value + row);
    }
  }

  /** A record is owed to an IP entry exactly when some MAC entry's name is the IP entry's
      interface alias and the record is that pair's. */
  lemma {:induction false} MatchesMembers(ip: Json, macs: seq<Json>, d: Device)
    requires IpEntry(ip) && forall j :: 0 <= j < |macs| ==> MacEntry(macs[j])
    ensures d in Matches(ip, macs) <==>
      exists j :: 0 <= j < |macs| && MacEntry(macs[j]) &&
        macs[j].fields["Name"] == ip.fields["InterfaceAlias"] && d == Paired(ip, macs[j])
    decreases |macs|
  {
    if macs != [] {
      var rest := macs[1..];
      assert forall j :: 0 <= j < |rest| ==> rest[j] == macs[j + 1];
      MatchesMembers(ip, rest, d);
      if d in Matches(ip, rest) {
        var j :| 0 <= j < |rest| && MacEntry(rest[j]) &&
          rest[j].fields["Name"] == ip.fields["InterfaceAlias"] && d == Paired(ip, rest[j]);
        assert macs[j + 1] == rest[j];
      }
      if exists j :: 0 <= j < |macs| && MacEntry(macs[j]) &&
          macs[j].fields["Name"] == ip.fields["InterfaceAlias"] && d == Paired(ip, macs[j]) {
        var j :| 0 <= j < |macs| && MacEntry(macs[j]) &&
          macs[j].fields["Name"] == ip.fields["InterfaceAlias"] && d == Paired(ip, macs[j]);
        if j > 0 {
          assert rest[j - 1] == macs[j];
        }
      }
    }
  }

  /** A record is owed to a list of IP entries exactly when it is the record of some
      (IP, MAC) pair whose interface alias and name agree. */
  lemma {:induction false} AllMatchesMembers(ips: seq<Json>, macs: seq<Json>, d: Device)
    requires forall i :: 0 <= i < |ips| ==> IpEntry(ips[i])
    requires forall j :: 0 <= j < |macs| ==> MacEntry(macs[j])
    ensures d in AllMatches(ips, macs) <==>
      exists i, j :: 0 <= i < |ips| && 0 <= j < |macs| && IpEntry(ips[i]) && MacEntry(macs[j]) &&
        macs[j].fields["Name"] == ips[i].fields["InterfaceAlias"] && d == Paired(ips[i], macs[j])
    decreases |ips|
  {
    if ips != [] {
      var rest := ips[1..];
      assert forall i :: 0 <= i < |rest| ==> rest[i] == ips[i + 1];
      AllMatchesMembers(rest, macs, d);
      MatchesMembers(ips[0], macs, d);
      if d in AllMatches(rest, macs) {
        var i, j :| 0 <= i < |rest| && 0 <= j < |macs| && IpEntry(rest[i]) && MacEntry(macs[j]) &&
          macs[j].fields["Name"] == rest[i].fields["InterfaceAlias"] && d == Paired(rest[i], macs[j]);
        assert ips[i + 1] == rest[i];
      }
      if d in Matches(ips[0], macs) {
        var j :| 0 <= j < |macs| && MacEntry(macs[j]) &&
          macs[j].fields["Name"] == ips[0].fields["InterfaceAlias"] && d == Paired(ips[0], macs[j]);
        assert IpEntry(ips[0]);
      }
      if exists i, j :: 0 <= i < |ips| && 0 <= j < |macs| && IpEntry(ips[i]) && MacEntry(macs[j]) &&
          macs[j].fields["Name"] == ips[i].fields["InterfaceAlias"] && d == Paired(ips[i], macs[j]) {
        var i, j :| 0 <= i < |ips| && 0 <= j < |macs| && IpEntry(ips[i]) && MacEntry(macs[j]) &&
          macs[j].fields["Name"] == ips[i].fields["InterfaceAlias"] && d == Paired(ips[i], macs[j]);
        if i > 0 {
          assert rest[i - 1] == ips[i];
        }
      }
    }
  }

  /** For usable entries the inner loop cannot raise, and it yields one record per MAC
      entry whose name is the IP entry's interface alias. */
  lemma JoinRowMembers(ip: Json, macs: seq<Json>)
    requires IpEntry(ip) && forall j :: 0 <= j < |macs| ==> MacEntry(macs[j])
    ensures JoinRow(ip, macs) == Ok(Matches(ip, macs))
    ensures forall d :: d in JoinRow(ip, macs).value <==>
      exists j :: 0 <= j < |macs| && MacEntry(macs[j]) &&
        macs[j].fields["Name"] == ip.fields["InterfaceAlias"] && d == Paired(ip, macs[j])
  {
    JoinRowIsMatches(ip, macs);
    forall d {
      MatchesMembers(ip, macs, d);
    }
  }

  /** For usable entries the join cannot raise, and it holds exactly the records of the
      pairs whose interface alias and name agree. */
  lemma JoinMembers(ips: seq<Json>, macs: seq<Json>)
    requires forall i :: 0 <= i < |ips| ==> IpEntry(ips[i])
    requires forall j :: 0 <= j < |macs| ==> MacEntry(macs[j])
    ensures Join(ips, macs) == Ok(AllMatches(ips, macs))
    ensures forall d :: d in Join(ips, macs).value <==>
      exists i, j :: 0 <= i < |ips| && 0 <= j < |macs| && IpEntry(ips[i]) && MacEntry(macs[j]) &&
        macs[j].fields["Name"] == ips[i].fields["InterfaceAlias"] && d == Paired(ips[i], macs[j])
  {
    JoinIsMatches(ips, macs);
    forall d {
      AllMatchesMembers(ips, macs, d);
    }
  }

  /** One IP entry against one usable MAC entry gives their record when the MAC entry's
      name is the entry's interface alias, and nothing otherwise. */
  lemma MatchingPair(ip: Json, mac: Json)
    requires IpEntry(ip) && MacEntry(mac)
    ensures JoinRow(ip, [mac]) ==
      Ok(if ip.fields["InterfaceAlias"] == mac.fields["Name"] then [Paired(ip, mac)] else [])
  {
    var macs := [mac];
    assert macs[..|macs| - 1] == [];
    assert JoinRow(ip, macs[..|macs| - 1]) == Ok([]);
    assert Get(ip, Key("InterfaceAlias")) == Ok(ip.fields["InterfaceAlias"]);
    assert Get(mac, Key("Name")) == Ok(mac.fields["Name"]);
    assert Record(ip, mac) == Ok(Paired(ip, mac));
    assert [] + [Paired(ip, mac)] == [Paired(ip, mac)];
  }

  /** For usable entries the inner loop yields exactly `Matches`: one record per MAC
      entry of the IP entry's interface, once each, in MAC order. */
  lemma {:induction false} JoinRowIsMatches(ip: Json, macs: seq<Json>)
    requires IpEntry(ip) && forall j :: 0 <= j < |macs| ==> MacEntry(macs[j])
    ensures JoinRow(ip, macs) == Ok(Matches(ip, macs))
    decreases |macs|
  {
    if macs != [] {
      var rest := macs[1..];
      assert forall j :: 0 <= j < |rest| ==> rest[j] == macs[j + 1];
      JoinRowIsMatches(ip, rest);
      MatchingPair(ip, macs[0]);
      JoinRowAppend(ip, [macs[0]], rest);
      assert [macs[0]] + rest == macs;
    }
  }

  /** For usable entries the join yields exactly `AllMatches`: IP-major, and for each IP
      entry its records in MAC order. */
  lemma {:induction false} JoinIsMatches(ips: seq<Json>, macs: seq<Json>)
    requires forall i :: 0 <= i < |ips| ==> IpEntry(ips[i])
    requires forall j :: 0 <= j < |macs| ==> MacEntry(macs[j])
    ensures Join(ips, macs) == Ok(AllMatches(ips, macs))
    decreases |ips|
  {
    if ips != [] {
      var head, rest := [ips[0]], ips[1..];
      assert forall i :: 0 <= i < |rest| ==> rest[i] == ips[i + 1];
      JoinIsMatches(rest, macs);
      JoinRowIsMatches(ips[0], macs);
      assert head[..|head| - 1] == [] && head[|head| - 1] == ips[0];
      assert Join(head[..|head| - 1], macs) == Ok([]);
      assert Join(head, macs) == Ok([] + Matches(ips[0], macs));
      assert [] + Matches(ips[0], macs) == Matches(ips[0], macs);
      JoinAppend(head, rest, macs);
      assert head + rest == ips;
    }
  }

  /** Two addresses on one interface give two records for that interface's MAC entry,
      in IP order. */
  lemma TwoAddressesTwoRecords(ip1: Json, ip2: Json, mac: Json)
    requires IpEntry(ip1) && IpEntry(ip2) && MacEntry(mac)
    requires ip1.fields["InterfaceAlias"] == mac.fields["Name"] == ip2.fields["InterfaceAlias"]
    ensures Join([ip1, ip2], [mac]) == Ok([Paired(ip1, mac), Paired(ip2, mac)])
  {
    MatchingPair(ip1, mac);
    MatchingPair(ip2, mac);
    assert [ip1, ip2][..1] == [ip1];
    assert [ip1][..0] == [];
    var one := [ip1];
    assert one[..|one| - 1] == [] && one[|one| - 1] == ip1;
    assert Join(one, [mac]) == Ok([] + [Paired(ip1, mac)]);
    var two := [ip1, ip2];
    assert two[..|two| - 1] == one && two[|two| - 1] == ip2;
    assert [Paired(ip1, mac)] + [Paired(ip2, mac)] == [Paired(ip1, mac), Paired(ip2, mac)];
  }

  // ---------------------------------------------------------------------------
  // read_and_merge_data
  // ---------------------------------------------------------------------------

  /** Both lists loaded and non-empty (`if ip_data and mac_data`). */
  predicate Loaded(ipData: Option<Json>, macData: Option<Json>) {
    ipData.Some? && Truthy(ipData.value) && macData.Some? && Truthy(macData.value)
  }

  /** `read_and_merge_data` on the parsed contents of ip.json and mac.json: `None` when
      either could not be loaded or is empty; otherwise the records of the Ethernet and
      Wi-Fi entries joined on interface name, or the exception that escapes. */
  function ReadAndMerge(ipData: Option<Json>, macData: Option<Json>): Result<Option<seq<Device>>> {
    if !Loaded(ipData, macData) then Ok(None)
    else
      match Items(ipData.value)
      case Err(f) => Err(f)
      case Ok(ipItems) =>
        match Select(ipItems, "InterfaceAlias")
        case Err(f) => Err(f)
        case Ok(ips) =>
          match Items(macData.value)
          case Err(f) => Err(f)
          case Ok(macItems) =>
            match Select(macItems, "Name")
            case Err(f) => Err(f)
            case Ok(macs) =>
              match Join(ips, macs)
              case Err(f) => Err(f)
              case Ok(merged) => Ok(Some(merged))
  }

  /** `read_and_merge_data`, the filters as comprehensions and the join as loops. */
  method ReadAndMergeData(ipData: Option<Json>, macData: Option<Json>) returns (r: Result<Option<seq<Device>>>)
    ensures r == ReadAndMerge(ipData, macData)
  {
    if !Loaded(ipData, macData) {
      return Ok(None);
    }
    var ipItems := Items(ipData.value);
    if ipItems.Err? {
      return Err(ipItems.fault);
    }
    var ips := Select(ipItems.value, "InterfaceAlias");
    if ips.Err? {
      return Err(ips.fault);
    }
    var macItems := Items(macData.value);
    if macItems.Err? {
      return Err(macItems.fault);
    }
    var macs := Select(macItems.value, "Name");
    if macs.Err? {
      return Err(macs.fault);
    }
    var merged := Merge(ips.value, macs.value);
    if merged.Err? {
      return Err(merged.fault);
    }
    return Ok(Some(merged.value));
  }

  /** The tool gives up without records exactly when a list is missing or empty. */
  lemma ReadAndMergeNone(ipData: Option<Json>, macData: Option<Json>)
    ensures ReadAndMerge(ipData, macData) == Ok(None) <==> !Loaded(ipData, macData)
  {
  }

  /** Only Ethernet and Wi-Fi entries take part: every record names one of the two
      interfaces, and comes from an IP entry and a MAC entry of the loaded lists whose
      interface names agree. */
  lemma MergedFromInterfaces(ipData: Option<Json>, macData: Option<Json>, d: Device)
    requires ReadAndMerge(ipData, macData).Ok? && ReadAndMerge(ipData, macData).value.Some?
    requires d in ReadAndMerge(ipData, macData).value.value
    ensures IsInterface(d.name)
    ensures exists ip, mac :: (ip in ipData.value.items && mac in macData.value.items &&
      IpEntry(ip) && MacEntry(mac) && mac.fields["Name"] == ip.fields["InterfaceAlias"] && d == Paired(ip, mac))
  {
    MergedIsJoin(ipData, macData);
    var ipItems, macItems := ipData.value.items, macData.value.items;
    var ips, macs := Select(ipItems, "InterfaceAlias").value, Select(macItems, "Name").value;
    JoinFrom(ips, macs, d);
    SelectSpec(ipItems, "InterfaceAlias");
    SelectSpec(macItems, "Name");
    var i, j :| 0 <= i < |ips| && 0 <= j < |macs| && IpEntry(ips[i]) && MacEntry(macs[j]) &&
      macs[j].fields["Name"] == ips[i].fields["InterfaceAlias"] && d == Paired(ips[i], macs[j]);
    assert ips[i] in ips && macs[j] in macs;
    assert IsInterface(Get(macs[j], Key("Name")).value);
  }

  /** A successful run read two lists, filtered both and joined the survivors. */
  lemma MergedIsJoin(ipData: Option<Json>, macData: Option<Json>)
    requires ReadAndMerge(ipData, macData).Ok? && ReadAndMerge(ipData, macData).value.Some?
    ensures ipData.Some? && ipData.value.JArr? && macData.Some? && macData.value.JArr?
    ensures Select(ipData.value.items, "InterfaceAlias").Ok? && Select(macData.value.items, "Name").Ok?
    ensures Join(Select(ipData.value.items, "InterfaceAlias").value, Select(macData.value.items, "Name").value)
      == Ok(ReadAndMerge(ipData, macData).value.value)
  {
  }

  /** A record of the join comes from a matching pair of entries. */
  lemma {:induction false} JoinFrom(ips: seq<Json>, macs: seq<Json>, d: Device)
    requires Join(ips, macs).Ok? && d in Join(ips, macs).value
    ensures exists i, j :: (0 <= i < |ips| && 0 <= j < |macs| && IpEntry(ips[i]) && MacEntry(macs[j]) &&
      macs[j].fields["Name"] == ips[i].fields["InterfaceAlias"] && d == Paired(ips[i], macs[j]))
    decreases |ips|
  {
    var init, last := ips[..|ips| - 1], ips[|ips| - 1];
    if d in Join(init, macs).value {
      JoinFrom(init, macs, d);
      var i, j :| 0 <= i < |init| && 0 <= j < |macs| && IpEntry(init[i]) && MacEntry(macs[j]) &&
        macs[j].fields["Name"] == init[i].fields["InterfaceAlias"] && d == Paired(init[i], macs[j]);
      assert ips[i] == init[i];
    } else {
      RowFrom(last, macs, d);
    }
  }

  lemma {:induction false} RowFrom(ip: Json, macs: seq<Json>, d: Device)
    requires JoinRow(ip, macs).Ok? && d in JoinRow(ip, macs).value
    ensures exists j :: (0 <= j < |macs| && IpEntry(ip) && MacEntry(macs[j]) &&
      macs[j].fields["Name"] == ip.fields["InterfaceAlias"] && d == Paired(ip, macs[j]))
    decreases |macs|
  {
    var init := macs[..|macs| - 1];
    if d in JoinRow(ip, init).value {
      RowFrom(ip, init, d);
      var j :| 0 <= j < |init| && IpEntry(ip) && MacEntry(init[j]) &&
        init[j].fields["Name"] == ip.fields["InterfaceAlias"] && d == Paired(ip, init[j]);
      assert macs[j] == init[j];
    } else {
      assert Record(ip, macs[|macs| - 1]) == Ok(d);
    }
  }

  // ---------------------------------------------------------------------------
  // insert_data_into_db
  // ---------------------------------------------------------------------------

  /** One `devices` row per merged record, in order, whether or not an identical row is
      already stored: unlike the server, the tool does not deduplicate, so every record
      is stored once more on each run. */
  method InsertDataIntoDb(db: Database, merged: seq<Device>)
    modifies db
    ensures db.Contents() == old(db.Contents()).(devices := old(db.devices) + merged)
    ensures forall d :: multiset(db.devices)[d] == multiset(old(db.devices))[d] + multiset(merged)[d]
  {
    for i := 0 to |merged|
      invariant db.Contents() == old(db.Contents()).(devices := old(db.devices) + merged[..i])
    {
      assert merged[..i + 1] == merged[..i] + [merged[i]];
      db.InsertDevice(merged[i]);
    }
    assert merged[..|merged|] == merged;
  }

  /** After provisioning, the server's device gate passes for a MAC address exactly when
      it passed before or one of the new records carries that address. */
  lemma ProvisionedDeviceKnown(devices: seq<Device>, merged: seq<Device>, mac: string)
    ensures Server.DeviceKnown(devices + merged, mac) <==>
      Server.DeviceKnown(devices, mac) || exists d :: d in merged && d.macAddress == JStr(mac)
  {
    if Server.DeviceKnown(devices + merged, mac) {
      var d :| d in devices + merged && d.macAddress == JStr(mac);
      assert d in devices || d in merged;
    }
    if Server.DeviceKnown(devices, mac) {
      var d :| d in devices && d.macAddress == JStr(mac);
      assert d in devices + merged;
    }
    if exists d :: d in merged && d.macAddress == JStr(mac) {
      var d :| d in merged && d.macAddress == JStr(mac);
      assert d in devices + merged;
    }
  }

  // ---------------------------------------------------------------------------
  // get_last_agent_id
  // ---------------------------------------------------------------------------

  /** `le` orders values as the `agent_id` column's collation does: totally, ties
      allowed. */
  ghost predicate TotalPreorder(le: (Json, Json) -> bool) {
    (forall a, b :: le(a, b) || le(b, a)) &&
    (forall a, b, c :: le(a, b) && le(b, c) ==> le(a, c))
  }

  /** `SELECT agent_id FROM agent ORDER BY agent_id DESC LIMIT 1`, then `result[0]` if a
      row came back. NULL sorts below every value, and a NULL id comes back as Python's
      `None` just like an empty table. Which of several tied greatest ids comes back is
      up to the database; this picks the latest stored. */
  function LastAgentId(agents: seq<Agent>, le: (Json, Json) -> bool): (r: Option<Json>)
    decreases |agents|
  {
    if agents == [] then None
    else
      var best := LastAgentId(agents[..|agents| - 1], le);
      var id := agents[|agents| - 1].agentId;
      if id == JNull then best
      else if best.None? || le(best.value, id) then Some(id)
      else best
  }

  /** The result is `None` exactly when no agent has a non-NULL id; otherwise it is a
      stored id that no other stored id exceeds. */
  lemma {:induction false} LastAgentIdSpec(agents: seq<Agent>, le: (Json, Json) -> bool)
    requires TotalPreorder(le)
    ensures LastAgentId(agents, le).None? <==> forall a :: a in agents ==> a.agentId == JNull
    ensures LastAgentId(agents, le).Some? ==>
      var top := LastAgentId(agents, le).value;
      top != JNull && Agent(top) in agents &&
      forall a :: a in agents && a.agentId != JNull ==> le(a.agentId, top)
    decreases |agents|
  {
    if agents != [] {
      var init := agents[..|agents| - 1];
      LastAgentIdSpec(init, le);
      assert forall a :: a in agents <==> a in init || a == agents[|agents| - 1];
      var best := LastAgentId(init, le);
      var id := agents[|agents| - 1].agentId;
      if id != JNull && best.Some? && !le(best.value, id) {
        assert le(id, best.value);
      }
    }
  }
}
