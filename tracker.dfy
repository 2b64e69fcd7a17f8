/**
 * One run of the skin tracker's task (rust/ddtracker/src/main.rs). From the master
 * server list it writes one row per server host, with the protocols that host was
 * listed under, and it tracks every client's skin by (name, region): an unseen client
 * gets a row whose history holds its current skin; a client whose skin changed gets
 * the new skin appended to its history, which keeps the last ten entries. The whole
 * run is one database transaction: a malformed address aborts it and nothing is
 * written.
 */
module Tracker {
  import opened Common

  /** A JSON value, as far as the task handles one (numbers are whole). */
  datatype Json = Null | Bool(b: bool) | Num(n: int) | Text(s: string) | List(items: seq<Json>) | Object(fields: map<string, Json>)

  /** The skin stored for a client: "n", "b" and "f" from "name", "color_body" and "color_feet". */
  function SkinOf(skinInfo: map<string, Json>): (skin: map<string, Json>)
    ensures skin.Keys <= {"n", "b", "f"}
    ensures "n" in skin <==> "name" in skinInfo
    ensures "b" in skin <==> "color_body" in skinInfo
    ensures "f" in skin <==> "color_feet" in skinInfo
    ensures "n" in skin ==> skin["n"] == skinInfo["name"]
    ensures "b" in skin ==> skin["b"] == skinInfo["color_body"]
    ensures "f" in skin ==> skin["f"] == skinInfo["color_feet"]
  {
    var withName := if "name" in skinInfo then map["n" := skinInfo["name"]] else map[];
    var withBody := if "color_body" in skinInfo then withName["b" := skinInfo["color_body"]] else withName;
    if "color_feet" in skinInfo then withBody["f" := skinInfo["color_feet"]] else withBody
  }

  /** Two skin records with the same source fields project to the same stored skin. */
  lemma SkinOfIgnoresOtherFields(a: map<string, Json>, b: map<string, Json>)
    requires forall k :: k in {"name", "color_body", "color_feet"} ==> (k in a <==> k in b) && (k in a ==> a[k] == b[k])
    ensures SkinOf(a) == SkinOf(b)
  {
    var sa, sb := SkinOf(a), SkinOf(b);
    assert sa.Keys == sb.Keys;
    assert forall k :: k in sa ==> sa[k] == sb[k];
  }

  /** `{"t": now, "s": skin}`: when a skin was first seen, in minutes. */
  datatype HistoryEntry = HistoryEntry(t: int, s: Json)

  const HISTORY_LIMIT: nat := 10

  /** A client row: its id, current skin and skin history. */
  datatype Client = Client(id: string, skin: Json, history: seq<HistoryEntry>)

  /** The history after `push(e)` and dropping all but the last ten entries. */
  function Trimmed(history: seq<HistoryEntry>, e: HistoryEntry): seq<HistoryEntry> {
    var full := history + [e];
    if |full| > HISTORY_LIMIT then full[|full| - HISTORY_LIMIT..] else full
  }

  /** The trimmed history is the newest entries, at most ten, ending with `e`. */
  lemma TrimmedShape(history: seq<HistoryEntry>, e: HistoryEntry)
    ensures var r := Trimmed(history, e);
      && IsSuffix(r, history + [e])
      && |r| == (if |history| + 1 < HISTORY_LIMIT then |history| + 1 else HISTORY_LIMIT)
      && r[|r| - 1] == e
  {
    var full := history + [e];
    var r := Trimmed(history, e);
    if |full| > HISTORY_LIMIT {
      assert r == full[|full| - HISTORY_LIMIT..];
    } else {
      assert r == full && full[|full| - |r|..] == full;
    }
    assert r[|r| - 1] == full[|full| - 1] == e;
  }

  /** The history update: `history.push(e)`, then `drain` of all but the last ten. */
  method AppendHistory(history: seq<HistoryEntry>, e: HistoryEntry) returns (r: seq<HistoryEntry>)
    ensures r == Trimmed(history, e)
  {
    r := history + [e];
    if |r| > HISTORY_LIMIT {
      r := r[|r| - HISTORY_LIMIT..];
    }
  }

  /** What observing `skin` writes for a client row, if anything (`None`: no write). */
  function Observe(row: Option<Client>, id: string, skin: Json, now: int): (r: Option<Client>)
    ensures row.None? ==> r == Some(Client(id, skin, [HistoryEntry(now, skin)]))
    ensures row.Some? ==> (r.None? <==> row.value.skin == skin)
    ensures r.Some? ==> r.value.skin == skin
    ensures row.Some? && r.Some? ==>
      r.value == Client(row.value.id, skin, Trimmed(row.value.history, HistoryEntry(now, skin)))
  {
    if row.None? then Some(Client(id, skin, [HistoryEntry(now, skin)]))
    else if row.value.skin == skin then None
    else Some(Client(row.value.id, skin, Trimmed(row.value.history, HistoryEntry(now, skin))))
  }

  /** Entries in time order, none after `now`. */
  predicate TimeOrdered(history: seq<HistoryEntry>, now: int) {
    && (forall i, j :: 0 <= i < j < |history| ==> history[i].t <= history[j].t)
    && (forall i :: 0 <= i < |history| ==> history[i].t <= now)
  }

  /** A well-kept row: 1 to 10 entries, in time order, none after `now`, the last one current. */
  predicate ClientOk(c: Client, now: int) {
    && 1 <= |c.history| <= HISTORY_LIMIT
    && c.history[|c.history| - 1].s == c.skin
    && TimeOrdered(c.history, now)
  }

  /** An entry made at `now` extends a history ordered up to an earlier time. */
  lemma PushOrdered(history: seq<HistoryEntry>, e: HistoryEntry, before: int)
    requires TimeOrdered(history, before) && before <= e.t
    ensures TimeOrdered(history + [e], e.t)
  {
  }

  /** The newest entries of an ordered history are ordered. */
  lemma SuffixOrdered(history: seq<HistoryEntry>, k: nat, now: int)
    requires TimeOrdered(history, now) && k <= |history|
    ensures TimeOrdered(history[k..], now)
  {
    var r := history[k..];
    forall i, j | 0 <= i < j < |r| ensures r[i].t <= r[j].t {
      assert r[i] == history[k + i] && r[j] == history[k + j];
    }
    forall i | 0 <= i < |r| ensures r[i].t <= now {
      assert r[i] == history[k + i];
    }
  }

  /** The trimmed history of an ordered history, after an entry made no earlier, is ordered. */
  lemma TrimmedOrdered(history: seq<HistoryEntry>, e: HistoryEntry, before: int)
    requires TimeOrdered(history, before) && before <= e.t
    ensures TimeOrdered(Trimmed(history, e), e.t)
  {
    var full := history + [e];
    PushOrdered(history, e, before);
    if |full| > HISTORY_LIMIT {
      SuffixOrdered(full, |full| - HISTORY_LIMIT, e.t);
    }
  }

  /** Observing a skin keeps a well-kept row well kept, as time moves forward. */
  lemma ObserveKeepsRow(row: Option<Client>, id: string, skin: Json, before: int, now: int)
    requires before <= now
    requires row.Some? ==> ClientOk(row.value, before)
    ensures var r := Observe(row, id, skin, now); r.Some? ==> ClientOk(r.value, now)
  {
    var e := HistoryEntry(now, skin);
    if row.None? {
      assert TimeOrdered([e], now);
    } else if row.value.skin != skin {
      var h := row.value.history;
      assert Observe(row, id, skin, now) == Some(Client(row.value.id, skin, Trimmed(h, e)));
      TrimmedShape(h, e);
      TrimmedOrdered(h, e, before);
    }
  }

  type Clients = map<(string, string), Client>

  /** The client table after observing `skin` for `key`. */
  function Record(clients: Clients, key: (string, string), id: string, skin: Json, now: int): Clients {
    var r := Observe(if key in clients then Some(clients[key]) else None, id, skin, now);
    if r.None? then clients else clients[key := r.value]
  }

  /** Seeing the same skin twice in a row writes once. */
  lemma RecordTwice(clients: Clients, key: (string, string), id: string, skin: Json, now: int)
    ensures Record(Record(clients, key, id, skin, now), key, id, skin, now) == Record(clients, key, id, skin, now)
  {
  }

  /** A client of the server list: its name and skin object, when present. */
  datatype ClientEntry = ClientEntry(name: Option<string>, skin: Option<map<string, Json>>)

  /** A fresh row id for a client (a random UUID in the tracker). */
  type Ids = (string, string) -> string

  /** The (name, region) keys of the entries that have a name and a skin. */
  function ObservedKeys(region: string, entries: seq<ClientEntry>): set<(string, string)> {
    if entries == [] then {}
    else
      var e := entries[|entries| - 1];
      ObservedKeys(region, entries[..|entries| - 1]) + (if e.name.Some? && e.skin.Some? then {(e.name.value, region)} else {})
  }

  /** The client table after observing a server's clients in order; entries without a name or skin are skipped. */
  function ObserveAll(clients: Clients, region: string, entries: seq<ClientEntry>, now: int, ids: Ids): Clients {
    if entries == [] then clients
    else
      var prev := ObserveAll(clients, region, entries[..|entries| - 1], now, ids);
      var e := entries[|entries| - 1];
      if e.name.Some? && e.skin.Some? then
        Record(prev, (e.name.value, region), ids(e.name.value, region), Object(SkinOf(e.skin.value)), now)
      else prev
  }

  /** Every observed client has a row afterwards, and no other row changes. */
  lemma {:induction false} ObserveAllKeys(clients: Clients, region: string, entries: seq<ClientEntry>, now: int, ids: Ids)
    ensures ObserveAll(clients, region, entries, now, ids).Keys == clients.Keys + ObservedKeys(region, entries)
    ensures forall key :: key in clients && key !in ObservedKeys(region, entries) ==>
      ObserveAll(clients, region, entries, now, ids)[key] == clients[key]
  {
    if entries != [] {
      ObserveAllKeys(clients, region, entries[..|entries| - 1], now, ids);
    }
  }

  predicate AllOk(clients: Clients, now: int) {
    forall k :: k in clients ==> ClientOk(clients[k], now)
  }

  /** Observing a server's clients keeps every row well kept. */
  lemma {:induction false} ObserveAllKeepsRows(clients: Clients, region: string, entries: seq<ClientEntry>, before: int, now: int, ids: Ids)
    requires before <= now && AllOk(clients, before)
    ensures AllOk(ObserveAll(clients, region, entries, now, ids), now)
  {
    if entries == [] {
      forall k | k in clients ensures ClientOk(clients[k], now) { }
    } else {
      var prev := ObserveAll(clients, region, entries[..|entries| - 1], now, ids);
      ObserveAllKeepsRows(clients, region, entries[..|entries| - 1], before, now, ids);
      var e := entries[|entries| - 1];
      if e.name.Some? && e.skin.Some? {
        var key := (e.name.value, region);
        ObserveKeepsRow(if key in prev then Some(prev[key]) else None, ids(e.name.value, region), Object(SkinOf(e.skin.value)), now, now);
      }
    }
  }

  /** The loop over a server's clients. */
  method ObserveClients(clients: Clients, region: string, entries: seq<ClientEntry>, now: int, ids: Ids) returns (r: Clients)
    ensures r == ObserveAll(clients, region, entries, now, ids)
  {
    r := clients;
    for i := 0 to |entries|
      invariant r == ObserveAll(clients, region, entries[..i], now, ids)
    {
      assert entries[..i + 1][..i] == entries[..i];
      var e := entries[i];
      if e.name.Some? && e.skin.Some? {
        var name := e.name.value;
        var skin := Object(SkinOf(e.skin.value));
        var key := (name, region);
        if key in r {
          var row := r[key];
          if row.skin != skin {
            var history := AppendHistory(row.history, HistoryEntry(now, skin));
            r := r[key := Client(row.id, skin, history)];
          }
        } else {
          r := r[key := Client(ids(name, region), skin, [HistoryEntry(now, skin)])];
        }
      }
    }
    assert entries[..|entries|] == entries;
  }

  /** A listed address: not a string, not a URL, or a URL's scheme and host. */
  datatype Address = NotText | Unparsable | Url(scheme: string, host: Option<string>)

  /** An address that aborts the run: a failed URL parse, or a URL without a host. */
  predicate Aborts(a: Address) {
    a.Unparsable? || (a.Url? && a.host.None?)
  }

  /** The hosts of the URLs, each once, in order of first appearance. */
  function HostOrder(addrs: seq<Address>): seq<string> {
    if addrs == [] then []
    else
      var prev := HostOrder(addrs[..|addrs| - 1]);
      var a := addrs[|addrs| - 1];
      if a.Url? && a.host.Some? && a.host.value !in prev then prev + [a.host.value] else prev
  }

  /** The schemes of the URLs on host `h`, in order. */
  function ProtocolsOf(addrs: seq<Address>, h: string): seq<string> {
    if addrs == [] then []
    else
      var a := addrs[|addrs| - 1];
      ProtocolsOf(addrs[..|addrs| - 1], h) + (if a.Url? && a.host == Some(h) then [a.scheme] else [])
  }

  /** No host is listed twice, and a host is listed exactly when some URL names it. */
  lemma {:induction false} HostOrderListsHosts(addrs: seq<Address>)
    ensures forall i, j :: 0 <= i < j < |HostOrder(addrs)| ==> HostOrder(addrs)[i] != HostOrder(addrs)[j]
    ensures forall h :: h in HostOrder(addrs) <==> ProtocolsOf(addrs, h) != []
  {
    if addrs != [] {
      HostOrderListsHosts(addrs[..|addrs| - 1]);
    }
  }

  /** `hosts` and `protocols` group the first `n` addresses. */
  ghost predicate Grouped(addrs: seq<Address>, n: nat, hosts: seq<string>, protocols: map<string, seq<string>>)
    requires n <= |addrs|
  {
    && hosts == HostOrder(addrs[..n])
    && (forall h :: h in protocols <==> h in hosts)
    && (forall h :: h in protocols ==> protocols[h] == ProtocolsOf(addrs[..n], h))
  }

  /** One more URL: a new host is appended with its scheme, a known host gets the scheme added. */
  lemma GroupStep(addrs: seq<Address>, i: nat, hosts: seq<string>, protocols: map<string, seq<string>>)
    requires i < |addrs| && Grouped(addrs, i, hosts, protocols)
    requires addrs[i].Url? && addrs[i].host.Some?
    ensures var a := addrs[i]; var host := a.host.value;
      if host !in protocols then Grouped(addrs, i + 1, hosts + [host], protocols[host := [a.scheme]])
      else Grouped(addrs, i + 1, hosts, protocols[host := protocols[host] + [a.scheme]])
  {
    var a := addrs[i];
    assert addrs[..i + 1][..i] == addrs[..i];
    forall h
      ensures ProtocolsOf(addrs[..i + 1], h) == ProtocolsOf(addrs[..i], h) + (if a.host == Some(h) then [a.scheme] else [])
    {
    }
    if a.host.value !in protocols {
      HostOrderListsHosts(addrs[..i]);
    }
  }

  /** An address that is not text is skipped. */
  lemma GroupSkip(addrs: seq<Address>, i: nat, hosts: seq<string>, protocols: map<string, seq<string>>)
    requires i < |addrs| && Grouped(addrs, i, hosts, protocols) && addrs[i].NotText?
    ensures Grouped(addrs, i + 1, hosts, protocols)
  {
    assert addrs[..i + 1][..i] == addrs[..i];
    forall h
      ensures ProtocolsOf(addrs[..i + 1], h) == ProtocolsOf(addrs[..i], h)
    {
    }
  }

  /** The grouping of a server's addresses by host, in an insertion-ordered map. */
  method GroupByHost(addrs: seq<Address>) returns (ok: bool, hosts: seq<string>, protocols: map<string, seq<string>>)
    ensures ok <==> forall k :: 0 <= k < |addrs| ==> !Aborts(addrs[k])
    ensures ok ==> hosts == HostOrder(addrs)
    ensures ok ==> forall h :: h in protocols <==> h in hosts
    ensures ok ==> forall h :: h in protocols ==> protocols[h] == ProtocolsOf(addrs, h)
  {
    hosts := [];
    protocols := map[];
    for i := 0 to |addrs|
      invariant forall k :: 0 <= k < i ==> !Aborts(addrs[k])
      invariant Grouped(addrs, i, hosts, protocols)
    {
      var a := addrs[i];
      if a.Unparsable? || (a.Url? && a.host.None?) {
        return false, hosts, protocols;
      }
      if a.Url? {
        var host := a.host.value;
        GroupStep(addrs, i, hosts, protocols);
        if host !in protocols {
          hosts := hosts + [host];
          protocols := protocols[host := [a.scheme]];
        } else {
          protocols := protocols[host := protocols[host] + [a.scheme]];
        }
      } else {
        GroupSkip(addrs, i, hosts, protocols);
      }
    }
    assert addrs[..|addrs|] == addrs;
    ok := true;
  }

  /** A server row: the server's info with its protocols added, and when it was last seen. */
  datatype ServerRow = ServerRow(server: Json, lastSeen: int)

  /** `info` with "protocols" set to the host's schemes. */
  function WithProtocols(info: map<string, Json>, protocols: seq<string>): Json {
    Object(info["protocols" := List(seq(|protocols|, k requires 0 <= k < |protocols| => Text(protocols[k])))])
  }

  /** The server table after writing one row per host, in order. */
  function HostRows(rows: map<string, ServerRow>, info: map<string, Json>, hosts: seq<string>,
                    protocols: map<string, seq<string>>, now: int): map<string, ServerRow>
    requires forall h :: h in hosts ==> h in protocols
  {
    if hosts == [] then rows
    else
      var last := hosts[|hosts| - 1];
      HostRows(rows, info, hosts[..|hosts| - 1], protocols, now)[last := ServerRow(WithProtocols(info, protocols[last]), now)]
  }

  /** Every host gets a row holding the info with its schemes; other rows are kept. */
  lemma {:induction false} HostRowsSpec(rows: map<string, ServerRow>, info: map<string, Json>, hosts: seq<string>,
                                        protocols: map<string, seq<string>>, now: int)
    requires forall h :: h in hosts ==> h in protocols
    ensures HostRows(rows, info, hosts, protocols, now).Keys == rows.Keys + set h | h in hosts
    ensures forall h :: h in hosts ==> HostRows(rows, info, hosts, protocols, now)[h] == ServerRow(WithProtocols(info, protocols[h]), now)
    ensures forall a :: a in rows && a !in hosts ==> HostRows(rows, info, hosts, protocols, now)[a] == rows[a]
  {
    if hosts != [] {
      var init := hosts[..|hosts| - 1];
      HostRowsSpec(rows, info, init, protocols, now);
      assert forall h :: h in hosts <==> h in init || h == hosts[|hosts| - 1];
    }
  }

  /** A server of the list: addresses, info, location (the region) and the info's clients. */
  datatype ServerEntry = ServerEntry(
    addresses: Option<seq<Address>>, info: Option<map<string, Json>>,
    location: Option<string>, clients: Option<seq<ClientEntry>>)

  /** A server the run uses: it has addresses, info and a location. */
  predicate Used(s: ServerEntry) {
    s.addresses.Some? && s.info.Some? && s.location.Some?
  }

  /** A server the run can process: when it is used, none of its addresses aborts. */
  predicate Sound(s: ServerEntry) {
    Used(s) ==> forall a :: a in s.addresses.value ==> !Aborts(a)
  }

  /** The schemes of each host of the addresses, as `GroupByHost` gathers them. */
  function HostProtocols(addrs: seq<Address>): map<string, seq<string>> {
    map h | h in HostOrder(addrs) :: ProtocolsOf(addrs, h)
  }

  /** The hosts of every used server. */
  function HostsOf(servers: seq<ServerEntry>): set<string> {
    if servers == [] then {}
    else
      var s := servers[|servers| - 1];
      HostsOf(servers[..|servers| - 1]) + (if Used(s) then set h | h in HostOrder(s.addresses.value) else {})
  }

  /**
   * The server table after a run over `servers`: every host of a used server has a row,
   * seen at `now`, holding the info of a used server that lists it with that server's
   * schemes for the host; no other row changes.
   */
  function ServersAfter(rows: map<string, ServerRow>, servers: seq<ServerEntry>, now: int): map<string, ServerRow> {
    if servers == [] then rows
    else
      var s := servers[|servers| - 1];
      var prev := ServersAfter(rows, servers[..|servers| - 1], now);
      if Used(s) then
        var addrs := s.addresses.value;
        HostRows(prev, s.info.value, HostOrder(addrs), HostProtocols(addrs), now)
      else prev
  }

  /** After a run every host of a used server has a row, and no other row changes. */
  lemma {:induction false} ServersAfterKeys(rows: map<string, ServerRow>, servers: seq<ServerEntry>, now: int)
    ensures ServersAfter(rows, servers, now).Keys == rows.Keys + HostsOf(servers)
    ensures forall h :: h in rows && h !in HostsOf(servers) ==> ServersAfter(rows, servers, now)[h] == rows[h]
  {
    if servers != [] {
      var s := servers[|servers| - 1];
      ServersAfterKeys(rows, servers[..|servers| - 1], now);
      if Used(s) {
        var addrs := s.addresses.value;
        HostRowsSpec(ServersAfter(rows, servers[..|servers| - 1], now), s.info.value, HostOrder(addrs), HostProtocols(addrs), now);
      }
    }
  }

  /** The row of a host of a used server: seen at `now`, with the info and schemes of a used server listing it. */
  predicate RowFrom(servers: seq<ServerEntry>, h: string, row: ServerRow, now: int) {
    exists s :: s in servers && Used(s) && h in HostOrder(s.addresses.value)
      && row == ServerRow(WithProtocols(s.info.value, ProtocolsOf(s.addresses.value, h)), now)
  }

  /** A row that a shorter list of servers explains, the longer list explains too. */
  lemma RowFromInit(servers: seq<ServerEntry>, h: string, row: ServerRow, now: int)
    requires servers != [] && RowFrom(servers[..|servers| - 1], h, row, now)
    ensures RowFrom(servers, h, row, now)
  {
    var s :| s in servers[..|servers| - 1] && Used(s) && h in HostOrder(s.addresses.value)
      && row == ServerRow(WithProtocols(s.info.value, ProtocolsOf(s.addresses.value, h)), now);
    assert s in servers;
  }

  /** After a run the row of every host of a used server comes from a used server that lists it. */
  lemma {:induction false} ServersAfterRows(rows: map<string, ServerRow>, servers: seq<ServerEntry>, now: int)
    ensures forall h :: h in HostsOf(servers) ==>
      h in ServersAfter(rows, servers, now) && RowFrom(servers, h, ServersAfter(rows, servers, now)[h], now)
  {
    if servers != [] {
      var init := servers[..|servers| - 1];
      var s := servers[|servers| - 1];
      ServersAfterRows(rows, init, now);
      var prev := ServersAfter(rows, init, now);
      var r := ServersAfter(rows, servers, now);
      if Used(s) {
        var addrs := s.addresses.value;
        HostRowsSpec(prev, s.info.value, HostOrder(addrs), HostProtocols(addrs), now);
        forall h | h in HostsOf(servers)
          ensures h in r && RowFrom(servers, h, r[h], now)
        {
          if h in HostOrder(addrs) {
            assert s in servers;
          } else {
            RowFromInit(servers, h, prev[h], now);
          }
        }
      } else {
        forall h | h in HostsOf(servers)
          ensures h in r && RowFrom(servers, h, r[h], now)
        {
          RowFromInit(servers, h, prev[h], now);
        }
      }
    }
  }

  /** The client table after a run over `servers`: each used server's clients observed in order. */
  function ClientsAfter(clients: Clients, servers: seq<ServerEntry>, now: int, ids: Ids): Clients {
    if servers == [] then clients
    else
      var s := servers[|servers| - 1];
      var prev := ClientsAfter(clients, servers[..|servers| - 1], now, ids);
      if Used(s) && s.clients.Some? then ObserveAll(prev, s.location.value, s.clients.value, now, ids) else prev
  }

  /** The (name, region) keys of the clients of every used server. */
  function ClientKeysOf(servers: seq<ServerEntry>): set<(string, string)> {
    if servers == [] then {}
    else
      var s := servers[|servers| - 1];
      ClientKeysOf(servers[..|servers| - 1])
        + (if Used(s) && s.clients.Some? then ObservedKeys(s.location.value, s.clients.value) else {})
  }

  /** After a run every observed client has a row, and no other client row changes. */
  lemma {:induction false} ClientsAfterKeys(clients: Clients, servers: seq<ServerEntry>, now: int, ids: Ids)
    ensures ClientsAfter(clients, servers, now, ids).Keys == clients.Keys + ClientKeysOf(servers)
    ensures forall key :: key in clients && key !in ClientKeysOf(servers) ==> ClientsAfter(clients, servers, now, ids)[key] == clients[key]
  {
    if servers != [] {
      var s := servers[|servers| - 1];
      ClientsAfterKeys(clients, servers[..|servers| - 1], now, ids);
      if Used(s) && s.clients.Some? {
        ObserveAllKeys(ClientsAfter(clients, servers[..|servers| - 1], now, ids), s.location.value, s.clients.value, now, ids);
      }
    }
  }

  /** With the clock not going back, a run keeps every client row well kept. */
  lemma {:induction false} ClientsAfterKeepsRows(clients: Clients, servers: seq<ServerEntry>, before: int, now: int, ids: Ids)
    requires before <= now && AllOk(clients, before)
    ensures AllOk(ClientsAfter(clients, servers, now, ids), now)
  {
    if servers == [] {
      ObserveAllKeepsRows(clients, "", [], before, now, ids);
    } else {
      var s := servers[|servers| - 1];
      ClientsAfterKeepsRows(clients, servers[..|servers| - 1], before, now, ids);
      if Used(s) && s.clients.Some? {
        ObserveAllKeepsRows(ClientsAfter(clients, servers[..|servers| - 1], now, ids), s.location.value, s.clients.value, now, now, ids);
      }
    }
  }

  /** The grouping `GroupByHost` returns on success is `HostProtocols`. */
  lemma GroupedIsHostProtocols(addrs: seq<Address>, hosts: seq<string>, protocols: map<string, seq<string>>)
    requires hosts == HostOrder(addrs)
    requires forall h :: h in protocols <==> h in hosts
    requires forall h :: h in protocols ==> protocols[h] == ProtocolsOf(addrs, h)
    ensures protocols == HostProtocols(addrs)
  {
  }

  /** The loop writing one row per host. */
  method WriteServers(rows: map<string, ServerRow>, info: map<string, Json>, hosts: seq<string>,
                      protocols: map<string, seq<string>>, now: int) returns (r: map<string, ServerRow>)
    requires forall h :: h in hosts ==> h in protocols
    ensures r == HostRows(rows, info, hosts, protocols, now)
  {
    r := rows;
    for i := 0 to |hosts|
      invariant r == HostRows(rows, info, hosts[..i], protocols, now)
    {
      assert hosts[..i + 1][..i] == hosts[..i];
      r := r[hosts[i] := ServerRow(WithProtocols(info, protocols[hosts[i]]), now)];
    }
    assert hosts[..|hosts|] == hosts;
  }

  /** The tracker's database: server rows by host, client rows by (name, region), and the last update. */
  class TrackerDb {
    var servers: map<string, ServerRow>
    var clients: Clients
    var lastUpdate: Option<int>

    constructor ()
      ensures servers == map[] && clients == map[] && lastUpdate == None
    {
      servers := map[];
      clients := map[];
      lastUpdate := None;
    }

    /**
     * `task` on a fetched server list at minute `now`. Without a server list nothing is
     * committed; an address that aborts leaves the database as it was.
     */
    method Task(list: Option<seq<ServerEntry>>, now: int, ids: Ids) returns (committed: bool)
      modifies this
      ensures committed <==> list.Some? && forall s :: s in list.value ==> Sound(s)
      ensures !committed ==> servers == old(servers) && clients == old(clients) && lastUpdate == old(lastUpdate)
      ensures committed ==> && servers == ServersAfter(old(servers), list.value, now)
                            && clients == ClientsAfter(old(clients), list.value, now, ids)
                            && lastUpdate == Some(now)
      ensures forall before :: before <= now && AllOk(old(clients), before) ==> AllOk(clients, now)
    {
      if list.None? {
        return false;
      }
      var sv := servers;
      var cl := clients;
      var entries := list.value;
      for i := 0 to |entries|
        invariant sv == ServersAfter(old(servers), entries[..i], now)
        invariant cl == ClientsAfter(old(clients), entries[..i], now, ids)
        invariant servers == old(servers) && clients == old(clients) && lastUpdate == old(lastUpdate)
        invariant forall s :: s in entries[..i] ==> Sound(s)
      {
        var server := entries[i];
        assert entries[..i + 1][..i] == entries[..i];
        assert entries[..i + 1] == entries[..i] + [server];
        if server.addresses.Some? && server.info.Some? && server.location.Some? {
          var ok, hosts, protocols := GroupByHost(server.addresses.value);
          if !ok {
            assert server in list.value;
            assert !Sound(server) by {
              var k :| 0 <= k < |server.addresses.value| && Aborts(server.addresses.value[k]);
              assert server.addresses.value[k] in server.addresses.value;
            }
            return false;
          }
          GroupedIsHostProtocols(server.addresses.value, hosts, protocols);
          sv := WriteServers(sv, server.info.value, hosts, protocols, now);
          if server.clients.Some? {
            cl := ObserveClients(cl, server.location.value, server.clients.value, now, ids);
          }
        }
      }
      assert entries[..|entries|] == entries;
      servers := sv;
      clients := cl;
      lastUpdate := Some(now);
      committed := true;
      forall before | before <= now && AllOk(old(clients), before)
        ensures AllOk(clients, now)
      {
        ClientsAfterKeepsRows(old(clients), entries, before, now, ids);
      }
    }
  }
}
