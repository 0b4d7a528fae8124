/**
 The dispatcher's registry of servers. A server is known by its name and uri; its methods
 run one at a time under the registry's mutex, so each is one step of the sweep protocol.
 */
module Annuary {
  import opened ServerCodec
  import ScriptLexer
  import ScriptRoundTrip

  datatype Key = Key(name: string, uri: string)

  function KeyOf(s: Server): Key {
    Key(s.name, s.uri)
  }

  predicate HasKey(servers: seq<Server>, k: Key) {
    exists i | 0 <= i < |servers| :: KeyOf(servers[i]) == k
  }

  function Entries(servers: seq<Server>, k: Key): nat {
    if servers == [] then 0
    else (if KeyOf(servers[0]) == k then 1 else 0) + Entries(servers[1..], k)
  }

  // ---- What each operation does --------------------------------------------------------

  function Added(servers: seq<Server>, s: Server): seq<Server> {
    if HasKey(servers, KeyOf(s)) then servers else servers + [s]
  }

  function Removed(servers: seq<Server>, k: Key): seq<Server> {
    if servers == [] then []
    else (if KeyOf(servers[0]) == k then [] else [servers[0]]) + Removed(servers[1..], k)
  }

  lemma RemovedStep(kept: seq<Server>, servers: seq<Server>, i: nat, k: Key)
    requires i < |servers|
    ensures kept + Removed(servers[i..], k)
         == (if KeyOf(servers[i]) == k then kept else kept + [servers[i]]) + Removed(servers[i + 1..], k)
  {
    assert servers[i..][1..] == servers[i + 1..];
    var rest := Removed(servers[i + 1..], k);
    assert kept + ([servers[i]] + rest) == kept + [servers[i]] + rest && [] + rest == rest;
  }

  predicate Offers(s: Server, service: string) {
    service == "" || service in s.services
  }

  function Offering(servers: seq<Server>, service: string): seq<Server> {
    if servers == [] then []
    else (if Offers(servers[0], service) then [servers[0]] else []) + Offering(servers[1..], service)
  }

  /** The services of each module, and whether the machine is part of a service's name. */
  type Catalog = map<string, seq<(string, bool)>>

  function ServiceNames(services: seq<(string, bool)>, mid: string): seq<string> {
    if services == [] then []
    else [ServiceName(services[0], mid)] + ServiceNames(services[1..], mid)
  }

  function ServiceName(service: (string, bool), mid: string): string {
    if service.1 then service.0 + "@" + mid else service.0
  }

  lemma NamesStep(names: seq<string>, services: seq<(string, bool)>, mid: string, i: nat)
    requires i < |services|
    ensures names + ServiceNames(services[i..], mid)
         == names + [ServiceName(services[i], mid)] + ServiceNames(services[i + 1..], mid)
  {
    assert services[i..][1..] == services[i + 1..];
  }

  /** Modules that are not in the catalog only route. */
  function ServicesOf(catalog: Catalog, moduleName: string, mid: string): seq<string> {
    if moduleName in catalog then ServiceNames(catalog[moduleName], mid) else ["routage"]
  }

  /** A configuration entry: a uri, then perhaps a machine of its own. */
  function Configured(catalog: Catalog, moduleName: string, mid: string, entry: string): Server {
    var words := ScriptLexer.Tokens(entry);
    var uri := if words == [] then "" else words[0];
    Server(moduleName, uri, ServicesOf(catalog, moduleName, if |words| >= 2 then words[1] else mid))
  }

  function ConfiguredAll(catalog: Catalog, moduleName: string, mid: string, entries: seq<string>): seq<Server> {
    if entries == [] then []
    else [Configured(catalog, moduleName, mid, entries[0])] + ConfiguredAll(catalog, moduleName, mid, entries[1..])
  }

  lemma ConfiguredStep(
      before: seq<Server>, catalog: Catalog, moduleName: string, mid: string, entries: seq<string>, i: nat)
    requires i < |entries|
    ensures before + ConfiguredAll(catalog, moduleName, mid, entries[i..])
         == before + [Configured(catalog, moduleName, mid, entries[i])]
            + ConfiguredAll(catalog, moduleName, mid, entries[i + 1..])
  {
    assert entries[i..][1..] == entries[i + 1..];
  }

  method FillServices(catalog: Catalog, name: string, mid: string) returns (services: seq<string>)
    ensures services == ServicesOf(catalog, name, mid)
  {
    services := [];
    if name !in catalog {
      return ["routage"];
    }
    var table := catalog[name];
    assert table[0..] == table;
    for nb := 0 to |table|
      invariant ServiceNames(table, mid) == services + ServiceNames(table[nb..], mid)
    {
      NamesStep(services, table, mid, nb);
      var tmpserv := table[nb].0;
      if table[nb].1 {
        tmpserv := tmpserv + "@" + mid;
      }
      services := services + [tmpserv];
    }
  }

  class Annuary {
    var servers: seq<Server>

    constructor (initial: seq<Server>)
      ensures servers == initial
    {
      servers := initial;
    }

    method Add(name: string, uri: string, services: seq<string>)
      modifies this
      ensures servers == Added(old(servers), Server(name, uri, services))
    {
      var i := 0;
      while i < |servers| && !(servers[i].name == name && servers[i].uri == uri)
        invariant i <= |servers|
        invariant forall j | 0 <= j < i :: KeyOf(servers[j]) != Key(name, uri)
      {
        i := i + 1;
      }
      if i == |servers| {
        servers := servers + [Server(name, uri, services)];
      }
    }

    method Remove(name: string, uri: string)
      modifies this
      ensures servers == Removed(old(servers), Key(name, uri))
    {
      var kept: seq<Server> := [];
      var i := 0;
      assert servers[0..] == servers && [] + Removed(servers, Key(name, uri)) == Removed(servers, Key(name, uri));
      while i < |servers|
        invariant i <= |servers| && servers == old(servers)
        invariant Removed(servers, Key(name, uri)) == kept + Removed(servers[i..], Key(name, uri))
      {
        RemovedStep(kept, servers, i, Key(name, uri));
        if !(servers[i].name == name && servers[i].uri == uri) {
          kept := kept + [servers[i]];
        }
        i := i + 1;
      }
      servers := kept;
    }

    method Get(service: string) returns (res: seq<Server>)
      ensures res == if service == "" then servers else Offering(servers, service)
    {
      if service == "" {
        return servers;
      }
      res := [];
      var i := 0;
      while i < |servers|
        invariant i <= |servers|
        invariant Offering(servers, service) == res + Offering(servers[i..], service)
      {
        assert servers[i..][1..] == servers[i + 1..];
        if service in servers[i].services {
          res := res + [servers[i]];
        }
        i := i + 1;
      }
    }

    /** The start-up configuration is pushed without looking for an existing entry. */
    method SetInitConfig(catalog: Catalog, moduleName: string, cfgInfo: seq<string>, mid: string)
      modifies this
      ensures servers == old(servers) + ConfiguredAll(catalog, moduleName, mid, cfgInfo)
    {
      ghost var all := servers + ConfiguredAll(catalog, moduleName, mid, cfgInfo);
      assert cfgInfo[0..] == cfgInfo;
      for i := 0 to |cfgInfo|
        invariant servers + ConfiguredAll(catalog, moduleName, mid, cfgInfo[i..]) == all
      {
        ConfiguredStep(servers, catalog, moduleName, mid, cfgInfo, i);
        var words := ScriptLexer.Tokens(cfgInfo[i]);
        var uri, midTmp := "", mid;
        if |words| >= 1 {
          uri := words[0];
        }
        if |words| >= 2 {
          midTmp := words[1];
        }
        var services := FillServices(catalog, moduleName, midTmp);
        servers := servers + [Server(moduleName, uri, services)];
      }
    }

    /** One round of the watch, nobody else touching the registry meanwhile. */
    method Sweep(answers: seq<bool>)
      requires |answers| == |servers|
      modifies this
      ensures servers == Surviving(old(servers), old(servers), answers)
    {
      var list := Get("");
      var iter := 0;
      SurvivingEnds(list, answers);
      while iter < |list|
        invariant iter <= |list|
        invariant servers == SurvivingFirst(list, answers, iter)
      {
        SurvivingPing(list, answers, iter);
        if !answers[iter] {
          Remove(list[iter].name, list[iter].uri);
        }
        assert servers == SurvivingFirst(list, answers, iter + 1);
        iter := iter + 1;
      }
      assert iter == |list|;
    }
  }

  // ---- Which servers a quiet sweep leaves ----------------------------------------------

  predicate Silent(list: seq<Server>, answers: seq<bool>, k: Key)
    requires |answers| == |list|
  {
    exists i | 0 <= i < |list| :: KeyOf(list[i]) == k && !answers[i]
  }

  /** The servers none of whose pings, under their key, went unanswered. */
  function Surviving(servers: seq<Server>, list: seq<Server>, answers: seq<bool>): seq<Server>
    requires |answers| == |list|
  {
    if servers == [] then []
    else
      var first := if Silent(list, answers, KeyOf(servers[0])) then [] else [servers[0]];
      first + Surviving(servers[1..], list, answers)
  }

  lemma {:induction false} SurvivingAll(servers: seq<Server>, list: seq<Server>, answers: seq<bool>)
    requires |answers| == |list|
    ensures Surviving(servers, list[..0], answers[..0]) == servers
  {
    if servers != [] {
      SurvivingAll(servers[1..], list, answers);
    }
  }

  lemma SilentNext(list: seq<Server>, answers: seq<bool>, pinged: Server, answered: bool, k: Key)
    requires |answers| == |list|
    ensures Silent(list + [pinged], answers + [answered], k)
       <==> Silent(list, answers, k) || (!answered && k == KeyOf(pinged))
  {
    var l, a := list + [pinged], answers + [answered];
    if Silent(list, answers, k) {
      var i :| 0 <= i < |list| && KeyOf(list[i]) == k && !answers[i];
      assert KeyOf(l[i]) == k && !a[i];
    }
    assert KeyOf(l[|list|]) == KeyOf(pinged) && a[|list|] == answered;
    if Silent(l, a, k) {
      var i :| 0 <= i < |l| && KeyOf(l[i]) == k && !a[i];
      if i < |list| { assert KeyOf(list[i]) == k && !answers[i]; }
    }
  }

  lemma RemovedCons(s: Server, servers: seq<Server>, k: Key)
    ensures Removed([s] + servers, k) == (if KeyOf(s) == k then [] else [s]) + Removed(servers, k)
  {
    assert ([s] + servers)[1..] == servers;
  }

  lemma {:induction false} SurvivingNext(
      servers: seq<Server>, list: seq<Server>, answers: seq<bool>, pinged: Server, answered: bool)
    requires |answers| == |list|
    ensures Surviving(servers, list + [pinged], answers + [answered])
         == if answered then Surviving(servers, list, answers)
            else Removed(Surviving(servers, list, answers), KeyOf(pinged))
  {
    if servers != [] {
      SurvivingNext(servers[1..], list, answers, pinged, answered);
      SilentNext(list, answers, pinged, answered, KeyOf(servers[0]));
      var rest := Surviving(servers[1..], list, answers);
      RemovedCons(servers[0], rest, KeyOf(pinged));
      assert [] + rest == rest;
    }
  }

  /** The servers left after the first `n` pings of a sweep. */
  function SurvivingFirst(list: seq<Server>, answers: seq<bool>, n: nat): seq<Server>
    requires n <= |list| == |answers|
  {
    Surviving(list, list[..n], answers[..n])
  }

  lemma {:induction false} SurvivingEnds(list: seq<Server>, answers: seq<bool>)
    requires |answers| == |list|
    ensures SurvivingFirst(list, answers, 0) == list
    ensures SurvivingFirst(list, answers, |list|) == Surviving(list, list, answers)
  {
    SurvivingAll(list, list, answers);
    assert list[..|list|] == list && answers[..|list|] == answers;
  }

  lemma SurvivingPing(list: seq<Server>, answers: seq<bool>, i: nat)
    requires i < |list| == |answers|
    ensures var before := SurvivingFirst(list, answers, i);
            SurvivingFirst(list, answers, i + 1) ==
            if answers[i] then before else Removed(before, Key(list[i].name, list[i].uri))
  {
    assert list[..i + 1] == list[..i] + [list[i]] && answers[..i + 1] == answers[..i] + [answers[i]];
    SurvivingNext(list, list[..i], answers[..i], list[i], answers[i]);
  }

  // ---- Laws of the operations ----------------------------------------------------------

  lemma {:induction false} EntriesPositive(servers: seq<Server>, k: Key)
    ensures Entries(servers, k) > 0 <==> HasKey(servers, k)
  {
    if servers != [] {
      EntriesPositive(servers[1..], k);
      if HasKey(servers[1..], k) {
        var i :| 0 <= i < |servers[1..]| && KeyOf(servers[1..][i]) == k;
        assert KeyOf(servers[i + 1]) == k;
      }
      if HasKey(servers, k) && KeyOf(servers[0]) != k {
        var i :| 0 <= i < |servers| && KeyOf(servers[i]) == k;
        assert KeyOf(servers[1..][i - 1]) == k;
      }
    }
  }

  lemma {:induction false} EntriesAppend(servers: seq<Server>, s: Server, k: Key)
    ensures Entries(servers + [s], k) == Entries(servers, k) + if KeyOf(s) == k then 1 else 0
  {
    if servers == [] {
      assert servers + [s] == [s] && [s][1..] == [];
    } else {
      assert (servers + [s])[1..] == servers[1..] + [s];
      EntriesAppend(servers[1..], s, k);
    }
  }

  /** `add` gives a missing key its one entry and changes no other count. */
  lemma AddCounts(servers: seq<Server>, s: Server, k: Key)
    ensures Entries(Added(servers, s), k)
         == if KeyOf(s) == k && Entries(servers, k) == 0 then 1 else Entries(servers, k)
  {
    EntriesPositive(servers, KeyOf(s));
    EntriesAppend(servers, s, k);
  }

  /** `remove` takes out every entry of its key and no other. */
  lemma {:induction false} RemoveCounts(servers: seq<Server>, k: Key, other: Key)
    ensures Entries(Removed(servers, k), other) == if other == k then 0 else Entries(servers, other)
  {
    if servers != [] {
      RemoveCounts(servers[1..], k, other);
      var rest := Removed(servers[1..], k);
      if KeyOf(servers[0]) == k {
        assert Removed(servers, k) == rest;
      } else {
        assert Removed(servers, k)[1..] == rest;
      }
    }
  }

  /** `add` appends the entry as given, behind all others, unless its name and uri are there. */
  lemma AddedIsLast(servers: seq<Server>, name: string, uri: string, services: seq<string>)
    ensures Added(servers, Server(name, uri, services)) ==
            if exists i | 0 <= i < |servers| :: servers[i].name == name && servers[i].uri == uri
            then servers else servers + [Server(name, uri, services)]
  {
    if i :| 0 <= i < |servers| && servers[i].name == name && servers[i].uri == uri {
      assert KeyOf(servers[i]) == Key(name, uri);
    }
  }

  lemma Together(a: seq<Server>, b: seq<Server>, c: seq<Server>)
    ensures a + (b + c) == a + b + c
  {
  }

  /** `remove` keeps the order of the entries it leaves. */
  lemma {:induction false} RemovedInOrder(a: seq<Server>, b: seq<Server>, k: Key)
    ensures Removed(a + b, k) == Removed(a, k) + Removed(b, k)
  {
    if a == [] {
      assert a + b == b;
    } else {
      RemovedInOrder(a[1..], b, k);
      assert a + b == [a[0]] + (a[1..] + b);
      RemovedCons(a[0], a[1..] + b, k);
      RemovedCons(a[0], a[1..], k);
      assert [a[0]] + a[1..] == a;
      Together(if KeyOf(a[0]) == k then [] else [a[0]], Removed(a[1..], k), Removed(b, k));
    }
  }

  lemma RemovedFromOne(s: Server, name: string, uri: string)
    ensures Removed([s], Key(name, uri)) == if s.name == name && s.uri == uri then [] else [s]
  {
    RemovedCons(s, [], Key(name, uri));
    assert [s] + [] == [s];
  }

  lemma {:induction false} OfferingMembers(servers: seq<Server>, service: string, s: Server)
    ensures s in Offering(servers, service) <==> s in servers && Offers(s, service)
  {
    if servers != [] { OfferingMembers(servers[1..], service, s); }
  }

  lemma OfferingCons(s: Server, servers: seq<Server>, service: string)
    ensures Offering([s] + servers, service) == (if Offers(s, service) then [s] else []) + Offering(servers, service)
  {
    assert ([s] + servers)[1..] == servers;
  }

  /** `get` keeps the order of the registry, from which `elect` takes the first. */
  lemma {:induction false} OfferingInOrder(a: seq<Server>, b: seq<Server>, service: string)
    ensures Offering(a + b, service) == Offering(a, service) + Offering(b, service)
  {
    if a == [] {
      assert a + b == b;
    } else {
      OfferingInOrder(a[1..], b, service);
      assert a + b == [a[0]] + (a[1..] + b);
      OfferingCons(a[0], a[1..] + b, service);
      OfferingCons(a[0], a[1..], service);
      assert [a[0]] + a[1..] == a;
      Together(if Offers(a[0], service) then [a[0]] else [], Offering(a[1..], service), Offering(b, service));
    }
  }

  lemma OfferingOfOne(s: Server, service: string)
    ensures Offering([s], service) == if service == "" || service in s.services then [s] else []
  {
    assert [s][1..] == [];
  }

  lemma SurvivingCons(s: Server, servers: seq<Server>, list: seq<Server>, answers: seq<bool>)
    requires |answers| == |list|
    ensures Surviving([s] + servers, list, answers) ==
            (if Silent(list, answers, KeyOf(s)) then [] else [s]) + Surviving(servers, list, answers)
  {
    assert ([s] + servers)[1..] == servers;
  }

  /** A quiet sweep keeps the order of the servers it leaves. */
  lemma {:induction false} SurvivingInOrder(a: seq<Server>, b: seq<Server>, list: seq<Server>, answers: seq<bool>)
    requires |answers| == |list|
    ensures Surviving(a + b, list, answers) == Surviving(a, list, answers) + Surviving(b, list, answers)
  {
    if a == [] {
      assert a + b == b;
    } else {
      SurvivingInOrder(a[1..], b, list, answers);
      assert a + b == [a[0]] + (a[1..] + b);
      SurvivingCons(a[0], a[1..] + b, list, answers);
      SurvivingCons(a[0], a[1..], list, answers);
      assert [a[0]] + a[1..] == a;
      var first := if Silent(list, answers, KeyOf(a[0])) then [] else [a[0]];
      Together(first, Surviving(a[1..], list, answers), Surviving(b, list, answers));
    }
  }

  /** And it leaves a server exactly when no ping to its name and uri stayed unanswered. */
  lemma SurvivesIff(s: Server, list: seq<Server>, answers: seq<bool>)
    requires |answers| == |list|
    ensures Surviving([s], list, answers) ==
            if exists i | 0 <= i < |list| :: list[i].name == s.name && list[i].uri == s.uri && !answers[i]
            then [] else [s]
  {
    assert Silent(list, answers, KeyOf(s)) <==>
           exists i | 0 <= i < |list| :: list[i].name == s.name && list[i].uri == s.uri && !answers[i];
    assert [s] + Surviving([], list, answers) == [s];
  }

  // ---- The start-up configuration ------------------------------------------------------

  lemma {:induction false} NamesOf(services: seq<(string, bool)>, mid: string)
    ensures |ServiceNames(services, mid)| == |services|
    ensures forall i | 0 <= i < |services| ::
              ServiceNames(services, mid)[i] == services[i].0 + if services[i].1 then "@" + mid else ""
  {
    if services != [] {
      NamesOf(services[1..], mid);
      assert services[0].0 + "" == services[0].0;
      assert services[0].0 + "@" + mid == services[0].0 + ("@" + mid);
    }
  }

  /** A module of the catalog offers its services, with the machine where they carry it; any other only routes. */
  lemma ServicesOfModule(services: seq<(string, bool)>, moduleName: string, other: string, mid: string)
    requires other != moduleName
    ensures var catalog := map[moduleName := services];
            && |ServicesOf(catalog, moduleName, mid)| == |services|
            && (forall i | 0 <= i < |services| ::
                  ServicesOf(catalog, moduleName, mid)[i] == services[i].0 + if services[i].1 then "@" + mid else "")
            && ServicesOf(catalog, other, mid) == ["routage"]
  {
    NamesOf(services, mid);
  }

  /** An entry names a uri, and then perhaps a machine that replaces the default one. */
  lemma EntryIsRead(catalog: Catalog, moduleName: string, mid: string, uri: string, own: string, rest: seq<string>)
    requires ScriptLexer.IsToken(uri) && ScriptLexer.IsToken(own) && ScriptLexer.AllTokens(rest)
    ensures Configured(catalog, moduleName, mid, ScriptRoundTrip.Spaced([uri]))
         == Server(moduleName, uri, ServicesOf(catalog, moduleName, mid))
    ensures Configured(catalog, moduleName, mid, ScriptRoundTrip.Spaced([uri, own] + rest))
         == Server(moduleName, uri, ServicesOf(catalog, moduleName, own))
    ensures Configured(catalog, moduleName, mid, "") == Server(moduleName, "", ServicesOf(catalog, moduleName, mid))
  {
    ScriptRoundTrip.SpacedTokens([uri]);
    ScriptRoundTrip.SpacedTokens([uri, own] + rest);
  }

  lemma {:induction false} ConfiguredInOrder(
      catalog: Catalog, moduleName: string, mid: string, entries: seq<string>)
    ensures var all := ConfiguredAll(catalog, moduleName, mid, entries);
            && |all| == |entries|
            && forall i | 0 <= i < |entries| :: all[i] == Configured(catalog, moduleName, mid, entries[i])
  {
    if entries != [] { ConfiguredInOrder(catalog, moduleName, mid, entries[1..]); }
  }
}
