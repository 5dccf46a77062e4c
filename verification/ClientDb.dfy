/** The client database: registration, removal, statistics and reloading from disk. */
module ClientDb {
  import opened Wrappers

  const LAST_OCTET: nat := 254

  datatype Stats = Stats(bytesIn: nat, bytesOut: nat, totalConnections: nat)

  /** A registered client; its address is 10.0.0.`octet`. */
  datatype Entry = Entry(id: string, name: string, psk: nat, octet: nat, enabled: bool, stats: Stats)

  datatype File = File(clients: seq<Entry>, nextOctet: nat)

  datatype DbError = AlreadyExists | NoMoreAddresses | NotFound

  const NoStats: Stats := Stats(0, 0, 0)

  // ---- Operations on the data ------------------------------------------------------

  predicate HasName(clients: seq<Entry>, name: string) {
    exists i :: 0 <= i < |clients| && clients[i].name == name
  }

  function Ids(clients: seq<Entry>): set<string> {
    set i | 0 <= i < |clients| :: clients[i].id
  }

  function Add(f: File, name: string, id: string, psk: nat): Result<File, DbError> {
    if HasName(f.clients, name) then Err(AlreadyExists)
    else if f.nextOctet > LAST_OCTET then Err(NoMoreAddresses)
    else Ok(File(f.clients + [Entry(id, name, psk, f.nextOctet, true, NoStats)], f.nextOctet + 1))
  }

  function Retain(clients: seq<Entry>, id: string): seq<Entry> {
    if clients == [] then []
    else
      var rest := Retain(clients[..|clients| - 1], id);
      if clients[|clients| - 1].id != id then rest + [clients[|clients| - 1]] else rest
  }

  function Delete(f: File, id: string): Result<File, DbError> {
    if |Retain(f.clients, id)| == |f.clients| then Err(NotFound) else Ok(f.(clients := Retain(f.clients, id)))
  }

  /** `stats` added to the first client with the id. */
  function Bump(clients: seq<Entry>, id: string, delta: Stats): seq<Entry> {
    if clients == [] then []
    else if clients[0].id == id then [clients[0].(stats := Plus(clients[0].stats, delta))] + clients[1..]
    else [clients[0]] + Bump(clients[1..], id, delta)
  }

  function Plus(a: Stats, b: Stats): Stats {
    Stats(a.bytesIn + b.bytesIn, a.bytesOut + b.bytesOut, a.totalConnections + b.totalConnections)
  }

  /** From `a` to `b` each counter has grown by its part of `delta`. */
  predicate Grew(a: Stats, b: Stats, delta: Stats) {
    && b.bytesIn == a.bytesIn + delta.bytesIn && b.bytesOut == a.bytesOut + delta.bytesOut
    && b.totalConnections == a.totalConnections + delta.totalConnections
  }

  predicate NoLess(a: Stats, b: Stats) {
    a.bytesIn <= b.bytesIn && a.bytesOut <= b.bytesOut && a.totalConnections <= b.totalConnections
  }

  /** The statistics in memory by id; a later entry of the same id wins. */
  function StatsById(clients: seq<Entry>): map<string, Stats> {
    if clients == [] then map[]
    else StatsById(clients[..|clients| - 1])[clients[|clients| - 1].id := clients[|clients| - 1].stats]
  }

  function Keep(e: Entry, saved: map<string, Stats>): Entry {
    if e.id in saved then e.(stats := saved[e.id]) else e
  }

  /** A file with other ids replaces everything but the statistics of ids already known. */
  function Reload(f: File, disk: File): File {
    if Ids(f.clients) == Ids(disk.clients) then f
    else File(seq(|disk.clients|, i requires 0 <= i < |disk.clients| => Keep(disk.clients[i], StatsById(f.clients))),
              disk.nextOctet)
  }

  // ---- What holds of the data ----------------------------------------------------------

  /** Ids, names and addresses are distinct; every address is below the next one; the next one
      fits its byte. */
  ghost predicate WellFormed(f: File) {
    && f.nextOctet <= 255
    && (forall i :: 0 <= i < |f.clients| ==> f.clients[i].octet < f.nextOctet)
    && Distinct(f.clients)
  }

  ghost predicate Distinct(clients: seq<Entry>) {
    forall i, j :: 0 <= i < j < |clients| ==>
      clients[i].id != clients[j].id && clients[i].name != clients[j].name && clients[i].octet != clients[j].octet
  }

  /** An address is only handed out up to 254, and to nobody else. */
  lemma AddKeeps(f: File, name: string, id: string, psk: nat)
    requires WellFormed(f) && id !in Ids(f.clients)
    ensures var r := Add(f, name, id, psk);
            && (r.Err? <==> HasName(f.clients, name) || f.nextOctet == 255)
            && (r.Ok? ==>
                  && WellFormed(r.value) && f.clients < r.value.clients
                  && var e := r.value.clients[|f.clients|];
                     e == Entry(id, name, psk, f.nextOctet, true, Stats(0, 0, 0)) && e.octet <= 254
                     && |r.value.clients| == |f.clients| + 1 && r.value.nextOctet == f.nextOctet + 1
                     && forall i :: 0 <= i < |f.clients| ==> f.clients[i].octet != e.octet)
  {
    forall i | 0 <= i < |f.clients|
      ensures f.clients[i].id != id
    {
      assert f.clients[i].id in Ids(f.clients);
    }
  }

  /** `places` are the positions, in order, of the clients that do not have the id. */
  ghost predicate Others(clients: seq<Entry>, id: string, places: seq<nat>) {
    && (forall k :: 0 <= k < |places| ==> places[k] < |clients| && clients[places[k]].id != id)
    && (forall k, l :: 0 <= k < l < |places| ==> places[k] < places[l])
    && Listed(clients, id, places)
  }

  ghost predicate Listed(clients: seq<Entry>, id: string, places: seq<nat>) {
    forall i :: 0 <= i < |clients| && clients[i].id != id ==> i in places
  }

  ghost predicate Picks(clients: seq<Entry>, places: seq<nat>, kept: seq<Entry>) {
    |kept| == |places| && forall k :: 0 <= k < |places| ==> places[k] < |clients| && kept[k] == clients[places[k]]
  }

  lemma OthersAppend(clients: seq<Entry>, e: Entry, id: string, places: seq<nat>)
    requires Others(clients, id, places)
    ensures Others(clients + [e], id, if e.id != id then places + [|clients|] else places)
  {
    hide Listed;
    ListedAppend(clients, e, id, places);
    var longer := clients + [e];
    assert forall k :: 0 <= k < |places| ==> longer[places[k]] == clients[places[k]];
  }

  lemma ListedAppend(clients: seq<Entry>, e: Entry, id: string, places: seq<nat>)
    requires Listed(clients, id, places)
    ensures Listed(clients + [e], id, if e.id != id then places + [|clients|] else places)
  {
    var longer := clients + [e];
    forall i | 0 <= i < |longer| && longer[i].id != id
      ensures i in if e.id != id then places + [|clients|] else places
    {
      if i < |clients| {
        assert clients[i] == longer[i];
        assert i in places;
      }
    }
  }

  lemma PicksAppend(clients: seq<Entry>, e: Entry, places: seq<nat>, kept: seq<Entry>)
    requires Picks(clients, places, kept)
    ensures Picks(clients + [e], places, kept) && Picks(clients + [e], places + [|clients|], kept + [e])
  {}

  /** What is retained is every client but those with the id, in order. */
  lemma {:induction false} RetainIsSubsequence(clients: seq<Entry>, id: string) returns (places: seq<nat>)
    ensures Others(clients, id, places) && Picks(clients, places, Retain(clients, id))
    decreases |clients|, 1
  {
    if clients == [] {
      places := [];
    } else {
      places := RetainOneMore(clients, id);
    }
  }

  lemma {:induction false} RetainOneMore(clients: seq<Entry>, id: string) returns (places: seq<nat>)
    requires clients != []
    ensures Others(clients, id, places) && Picks(clients, places, Retain(clients, id))
    decreases |clients|, 0
  {
    hide Others, Picks;
    var front, last := clients[..|clients| - 1], clients[|clients| - 1];
    var before := RetainIsSubsequence(front, id);
    OthersAppend(front, last, id, before);
    PicksAppend(front, last, before, Retain(front, id));
    assert clients == front + [last];
    places := if last.id != id then before + [|front|] else before;
  }

  /** Something is removed exactly when the id is there. */
  lemma {:induction false} RetainLength(clients: seq<Entry>, id: string)
    ensures |Retain(clients, id)| <= |clients| && (|Retain(clients, id)| == |clients| <==> id !in Ids(clients))
    decreases |clients|
  {
    if clients != [] {
      var front, last := clients[..|clients| - 1], clients[|clients| - 1];
      RetainLength(front, id);
      IdsOfAppend(front, last);
      assert clients == front + [last];
    }
  }

  lemma IdsOfAppend(clients: seq<Entry>, e: Entry)
    ensures Ids(clients + [e]) == Ids(clients) + {e.id}
  {
    var longer := clients + [e];
    forall id | id in Ids(clients) + {e.id}
      ensures id in Ids(longer)
    {
      if id == e.id {
        assert longer[|clients|].id == id;
      } else {
        var i :| 0 <= i < |clients| && clients[i].id == id;
        assert longer[i].id == id;
      }
    }
  }

  lemma DeleteKeeps(f: File, id: string)
    requires WellFormed(f)
    ensures var r := Delete(f, id);
            && (r.Err? <==> id !in Ids(f.clients))
            && (r.Ok? ==>
                  && WellFormed(r.value) && r.value.nextOctet == f.nextOctet
                  && forall e :: e in r.value.clients <==> e in f.clients && e.id != id)
  {
    RetainLength(f.clients, id);
    var places := RetainIsSubsequence(f.clients, id);
    var kept := Retain(f.clients, id);
    forall e | e in f.clients && e.id != id
      ensures e in kept
    {
      var i :| 0 <= i < |f.clients| && f.clients[i] == e;
      var k :| 0 <= k < |places| && places[k] == i;
      assert kept[k] == e;
    }
  }

  /** Statistics change in one place only and never shrink. */
  lemma {:induction false} BumpOnlyAdds(clients: seq<Entry>, id: string, delta: Stats)
    ensures var b := Bump(clients, id, delta);
            && |b| == |clients|
            && (forall i :: 0 <= i < |b| ==>
                  b[i] == clients[i].(stats := b[i].stats) && NoLess(clients[i].stats, b[i].stats))
            && (forall i :: 0 <= i < |b| && clients[i].id != id ==> b[i] == clients[i])
            && (id in Ids(clients) && Distinct(clients) ==>
                  forall i :: 0 <= i < |b| && clients[i].id == id ==> Grew(clients[i].stats, b[i].stats, delta))
    decreases |clients|
  {
    if clients != [] && clients[0].id != id {
      BumpOnlyAdds(clients[1..], id, delta);
      assert Distinct(clients) ==> Distinct(clients[1..]);
      if id in Ids(clients) {
        var i :| 0 <= i < |clients| && clients[i].id == id;
        assert clients[1..][i - 1].id == id;
      }
    }
  }

  lemma BumpKeeps(f: File, id: string, delta: Stats)
    requires WellFormed(f)
    ensures WellFormed(f.(clients := Bump(f.clients, id, delta)))
  {
    BumpOnlyAdds(f.clients, id, delta);
  }

  lemma {:induction false} StatsByIdSpec(clients: seq<Entry>)
    requires Distinct(clients)
    ensures StatsById(clients).Keys == Ids(clients)
    ensures forall i :: 0 <= i < |clients| ==>
              clients[i].id in StatsById(clients) && StatsById(clients)[clients[i].id] == clients[i].stats
    decreases |clients|
  {
    if clients != [] {
      var front, last := clients[..|clients| - 1], clients[|clients| - 1];
      assert clients == front + [last];
      StatsByIdSpec(front);
      IdsOfAppend(front, last);
    }
  }

  /** A reload of a well-formed file keeps everything distinct, takes over exactly the file's
      clients if any id changed, and keeps the statistics of every surviving client. */
  lemma ReloadKeeps(f: File, disk: File)
    requires WellFormed(f) && WellFormed(disk)
    ensures var r := Reload(f, disk);
            && WellFormed(r) && Ids(r.clients) == Ids(disk.clients)
            && (forall i, j :: 0 <= i < |r.clients| && 0 <= j < |f.clients| && r.clients[i].id == f.clients[j].id ==>
                  r.clients[i].stats == f.clients[j].stats)
            && (Ids(f.clients) == Ids(disk.clients) ==> r == f)
            && (Ids(f.clients) != Ids(disk.clients) ==>
                  && r.nextOctet == disk.nextOctet && |r.clients| == |disk.clients|
                  && forall i :: 0 <= i < |r.clients| ==>
                    && r.clients[i] == disk.clients[i].(stats := r.clients[i].stats)
                    && (disk.clients[i].id !in Ids(f.clients) ==> r.clients[i] == disk.clients[i]))
  {
    StatsByIdSpec(f.clients);
    var r := Reload(f, disk);
    if Ids(f.clients) != Ids(disk.clients) {
      assert forall i :: 0 <= i < |r.clients| ==> r.clients[i] == Keep(disk.clients[i], StatsById(f.clients));
      forall id
        ensures id in Ids(r.clients) <==> id in Ids(disk.clients)
      {
        if id in Ids(disk.clients) {
          var i :| 0 <= i < |disk.clients| && disk.clients[i].id == id;
          assert r.clients[i].id == id;
        }
      }
    } else {
      forall i, j | 0 <= i < |f.clients| && 0 <= j < |f.clients| && f.clients[i].id == f.clients[j].id
        ensures i == j
      {}
    }
  }

  // ---- Every run --------------------------------------------------------------------------

  datatype Event =
    | AddClient(name: string, id: string, psk: nat)
    | RemoveClient(id: string)
    | Handshake(id: string)
    | Traffic(id: string, bytesIn: nat, bytesOut: nat)
    | ReloadFrom(disk: File)

  /** Random ids are new, and a file on disk is well formed. */
  ghost predicate Possible(f: File, e: Event) {
    match e
    case AddClient(_, id, _) => id !in Ids(f.clients)
    case ReloadFrom(disk) => WellFormed(disk)
    case _ => true
  }

  function Step(f: File, e: Event): File {
    match e
    case AddClient(name, id, psk) => (match Add(f, name, id, psk) case Ok(g) => g case Err(_) => f)
    case RemoveClient(id) => (match Delete(f, id) case Ok(g) => g case Err(_) => f)
    case Handshake(id) => f.(clients := Bump(f.clients, id, Stats(0, 0, 1)))
    case Traffic(id, bytesIn, bytesOut) => f.(clients := Bump(f.clients, id, Stats(bytesIn, bytesOut, 0)))
    case ReloadFrom(disk) => Reload(f, disk)
  }

  /** What an event adds to the counters of the client with this id. */
  function Share(e: Event, id: string): Stats {
    match e
    case Handshake(of) => Stats(0, 0, if of == id then 1 else 0)
    case Traffic(of, bytesIn, bytesOut) => if of == id then Stats(bytesIn, bytesOut, 0) else Stats(0, 0, 0)
    case _ => Stats(0, 0, 0)
  }

  /** The counters of a client that is there before and after have grown by what the event gives it. */
  ghost predicate CountersGrow(f: File, g: File, e: Event) {
    forall i, j :: 0 <= i < |f.clients| && 0 <= j < |g.clients| && f.clients[i].id == g.clients[j].id ==>
      Grew(f.clients[i].stats, g.clients[j].stats, Share(e, f.clients[i].id))
  }

  lemma StepKeeps(f: File, e: Event)
    requires WellFormed(f) && Possible(f, e)
    ensures WellFormed(Step(f, e)) && CountersGrow(f, Step(f, e), e)
  {
    match e
    case AddClient(name, id, psk) => AddGrows(f, name, id, psk);
    case RemoveClient(id) => DeleteGrows(f, id);
    case Handshake(id) => BumpGrows(f, e, id, Stats(0, 0, 1));
    case Traffic(id, bytesIn, bytesOut) => BumpGrows(f, e, id, Stats(bytesIn, bytesOut, 0));
    case ReloadFrom(disk) => ReloadKeeps(f, disk);
  }

  lemma SameIdSamePlace(clients: seq<Entry>, i: nat, j: nat)
    requires Distinct(clients) && i < |clients| && j < |clients| && clients[i].id == clients[j].id
    ensures i == j
  {}

  lemma AddGrows(f: File, name: string, id: string, psk: nat)
    requires WellFormed(f) && id !in Ids(f.clients)
    ensures var e := AddClient(name, id, psk); WellFormed(Step(f, e)) && CountersGrow(f, Step(f, e), e)
  {
    AddKeeps(f, name, id, psk);
    var g := Step(f, AddClient(name, id, psk));
    forall i, j | 0 <= i < |f.clients| && 0 <= j < |g.clients| && f.clients[i].id == g.clients[j].id
      ensures Grew(f.clients[i].stats, g.clients[j].stats, Stats(0, 0, 0))
    {
      assert f.clients[i] == g.clients[i];
      SameIdSamePlace(g.clients, i, j);
    }
  }

  lemma DeleteGrows(f: File, id: string)
    requires WellFormed(f)
    ensures var e := RemoveClient(id); WellFormed(Step(f, e)) && CountersGrow(f, Step(f, e), e)
  {
    DeleteKeeps(f, id);
    var g := Step(f, RemoveClient(id));
    forall i, j | 0 <= i < |f.clients| && 0 <= j < |g.clients| && f.clients[i].id == g.clients[j].id
      ensures Grew(f.clients[i].stats, g.clients[j].stats, Stats(0, 0, 0))
    {
      assert g.clients[j] in f.clients;
      var k :| 0 <= k < |f.clients| && f.clients[k] == g.clients[j];
      SameIdSamePlace(f.clients, i, k);
    }
  }

  lemma BumpGrows(f: File, e: Event, id: string, delta: Stats)
    requires WellFormed(f) && forall of :: Share(e, of) == if of == id then delta else Stats(0, 0, 0)
    ensures var g := f.(clients := Bump(f.clients, id, delta)); WellFormed(g) && CountersGrow(f, g, e)
  {
    BumpKeeps(f, id, delta);
    BumpOnlyAdds(f.clients, id, delta);
    var g := f.(clients := Bump(f.clients, id, delta));
    forall i, j | 0 <= i < |f.clients| && 0 <= j < |g.clients| && f.clients[i].id == g.clients[j].id
      ensures Grew(f.clients[i].stats, g.clients[j].stats, Share(e, f.clients[i].id))
    {
      SameIdSamePlace(f.clients, i, j);
      if f.clients[i].id == id {
        assert id in Ids(f.clients);
      }
    }
  }

  ghost predicate IsRun(states: seq<File>, events: seq<Event>) {
    && |states| == |events| + 1 && states[0] == File([], 2)
    && (forall i :: 0 <= i < |events| ==> Possible(states[i], events[i]) && states[i + 1] == Step(states[i], events[i]))
  }

  /** Over every run from an empty database, names and addresses stay distinct, addresses below the
      next octet and that at most 255, and each event adds exactly its own numbers to the counters of
      its own client and to no other's. */
  lemma {:induction false} RunKeeps(states: seq<File>, events: seq<Event>, k: nat)
    requires IsRun(states, events) && k <= |events|
    ensures WellFormed(states[k])
    ensures k > 0 ==> CountersGrow(states[k - 1], states[k], events[k - 1])
    decreases k
  {
    hide Possible, Step, CountersGrow;
    if k > 0 {
      RunKeeps(states, events, k - 1);
      StepKeeps(states[k - 1], events[k - 1]);
    }
  }

  // ---- How many clients fit -------------------------------------------------------------------

  /** The clients added one after the other; the first refusal is the answer. */
  function AddAll(f: File, names: seq<string>, ids: seq<string>, psks: seq<nat>): Result<File, DbError>
    requires |ids| == |psks| == |names|
  {
    if names == [] then Ok(f)
    else
      var n := |names| - 1;
      match AddAll(f, names[..n], ids[..n], psks[..n])
      case Err(e) => Err(e)
      case Ok(g) => Add(g, names[n], ids[n], psks[n])
  }

  predicate AllDiffer(names: seq<string>) {
    forall i, j :: 0 <= i < j < |names| ==> names[i] != names[j]
  }

  /** An empty database takes 253 clients of different names, whatever their ids and keys: the one
      added k-th, from 0, gets 10.0.0.(2 + k), its own key, and zero statistics, and is enabled. */
  lemma {:induction false} Room(names: seq<string>, ids: seq<string>, psks: seq<nat>)
    requires |ids| == |psks| == |names| <= 253 && AllDiffer(names)
    ensures var r := AddAll(File([], 2), names, ids, psks);
            && r.Ok? && r.value.nextOctet == 2 + |names| && |r.value.clients| == |names|
            && forall k :: 0 <= k < |names| ==>
                 r.value.clients[k] == Entry(ids[k], names[k], psks[k], 2 + k, true, Stats(0, 0, 0))
    decreases |names|
  {
    if names != [] {
      var n := |names| - 1;
      Room(names[..n], ids[..n], psks[..n]);
      var g := AddAll(File([], 2), names[..n], ids[..n], psks[..n]).value;
      forall i | 0 <= i < |g.clients|
        ensures g.clients[i].name != names[n]
      {
        assert names[..n][i] == names[i];
      }
    }
  }

  /** The 254th is refused. */
  lemma NoRoomForMore(names: seq<string>, ids: seq<string>, psks: seq<nat>)
    requires |ids| == |psks| == |names| == 254 && AllDiffer(names)
    ensures AddAll(File([], 2), names, ids, psks) == Err(NoMoreAddresses)
  {
    var n := 253;
    Room(names[..n], ids[..n], psks[..n]);
    var g := AddAll(File([], 2), names[..n], ids[..n], psks[..n]).value;
    forall i | 0 <= i < |g.clients|
      ensures g.clients[i].name != names[n]
    {
      assert names[..n][i] == names[i];
    }
  }

  // ---- The database in place ----------------------------------------------------------------

  class ClientDatabase {
    var clients: seq<Entry>
    var nextOctet: nat

    function View(): File
      reads this
    {
      File(clients, nextOctet)
    }

    constructor ()
      ensures View() == File([], 2)
    {
      clients, nextOctet := [], 2;
    }

    method NewClient(name: string, id: string, psk: nat) returns (r: Result<Entry, DbError>)
      modifies this
      ensures match Add(old(View()), name, id, psk)
              case Err(e) => r == Err(e) && View() == old(View())
              case Ok(g) => View() == g && r == Ok(g.clients[|g.clients| - 1])
    {
      for i := 0 to |clients|
        invariant View() == old(View())
        invariant forall j :: 0 <= j < i ==> clients[j].name != name
      {
        if clients[i].name == name {
          return Err(AlreadyExists);
        }
      }
      if nextOctet > LAST_OCTET {
        return Err(NoMoreAddresses);
      }
      var client := Entry(id, name, psk, nextOctet, true, NoStats);
      nextOctet := nextOctet + 1;
      clients := clients + [client];
      return Ok(client);
    }

    method DeleteClient(id: string) returns (r: Result<(), DbError>)
      modifies this
      ensures match Delete(old(View()), id)
              case Err(e) => r == Err(e) && View() == old(View())
              case Ok(g) => r == Ok(()) && View() == g
    {
      var before := |clients|;
      var kept: seq<Entry> := [];
      for i := 0 to |clients|
        invariant View() == old(View()) && kept == Retain(clients[..i], id)
      {
        assert clients[..i + 1][..i] == clients[..i];
        if clients[i].id != id {
          kept := kept + [clients[i]];
        }
      }
      assert clients[..|clients|] == clients;
      if |kept| == before {
        return Err(NotFound);
      }
      clients := kept;
      return Ok(());
    }

    /** `record_handshake` and `record_traffic`: the first client with the id is updated. */
    method Record(id: string, delta: Stats)
      modifies this
      ensures View() == old(View()).(clients := Bump(old(clients), id, delta))
    {
      for i := 0 to |clients|
        invariant View() == old(View())
        invariant Bump(clients, id, delta) == clients[..i] + Bump(clients[i..], id, delta)
      {
        assert clients[i..][0] == clients[i] && clients[i..][1..] == clients[i + 1..];
        assert clients[..i] + [clients[i]] == clients[..i + 1];
        if clients[i].id == id {
          var updated := clients[i].(stats := Plus(clients[i].stats, delta));
          assert clients[..i] + ([updated] + clients[i + 1..]) == clients[i := updated];
          clients := clients[i := updated];
          return;
        }
        assert Bump(clients[i..], id, delta) == [clients[i]] + Bump(clients[i + 1..], id, delta);
      }
      assert clients[|clients|..] == [] && clients[..|clients|] == clients;
    }

    method ReloadFromDisk(disk: File) returns (changed: bool)
      modifies this
      ensures View() == Reload(old(View()), disk)
      ensures changed <==> Ids(old(clients)) != Ids(disk.clients)
    {
      changed := Ids(clients) != Ids(disk.clients);
      if !changed {
        return;
      }
      var saved: map<string, Stats> := map[];
      for i := 0 to |clients|
        invariant View() == old(View()) && saved == StatsById(clients[..i])
      {
        assert clients[..i + 1][..i] == clients[..i];
        saved := saved[clients[i].id := clients[i].stats];
      }
      assert clients[..|clients|] == clients;
      var merged: seq<Entry> := [];
      for i := 0 to |disk.clients|
        invariant |merged| == i && forall j :: 0 <= j < i ==> merged[j] == Keep(disk.clients[j], saved)
      {
        merged := merged + [Keep(disk.clients[i], saved)];
      }
      clients := merged;
      nextOctet := disk.nextOctet;
    }
  }
}
