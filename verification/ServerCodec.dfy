/**
 The text form in which the dispatcher sends the list of its servers:
 `name$$$uri$$$service$$$...$$$` for one server, and the servers joined by a longer
 separator that itself starts with dollars, so that the two run into each other.
 */
module ServerCodec {
  import opened Text

  datatype Server = Server(name: string, uri: string, services: seq<string>)

  datatype ReadError = OutOfRange | BeyondEnd

  const FIELD_END := "$$$"
  const SERVER_SEPARATOR := "$$$$####$$$$"

  // ---- One server ----------------------------------------------------------------------

  function EncodeFields(fields: seq<string>): string {
    if fields == [] then "" else fields[0] + FIELD_END + EncodeFields(fields[1..])
  }

  /** `Server::toString`; reading the last service of an empty list is out of range. */
  method ToString(s: Server) returns (r: Result<string, ReadError>)
    ensures r == ToStringSpec(s)
  {
    var res := s.name + FIELD_END + s.uri + FIELD_END;
    if |s.services| == 0 {
      return Error(OutOfRange);
    }
    EncodeThree(s.name, s.uri, s.services);
    ghost var whole := EncodeFields([s.name, s.uri] + s.services);
    var i := 0;
    assert s.services[0..] == s.services;
    while i < |s.services| - 1
      invariant i <= |s.services| - 1
      invariant whole == res + EncodeFields(s.services[i..])
    {
      assert s.services[i..][1..] == s.services[i + 1..];
      res := res + s.services[i] + FIELD_END;
      i := i + 1;
    }
    assert s.services[i..] == [s.services[i]];
    EncodeOne(s.services[i]);
    ghost var before := res;
    res := res + s.services[|s.services| - 1] + FIELD_END;
    assert res == before + (s.services[i] + FIELD_END);
    return Ok(res);
  }

  function ToStringSpec(s: Server): Result<string, ReadError> {
    if s.services == [] then Error(OutOfRange) else Ok(EncodeFields([s.name, s.uri] + s.services))
  }

  lemma EncodeThree(name: string, uri: string, services: seq<string>)
    ensures EncodeFields([name, uri] + services)
         == name + FIELD_END + (uri + FIELD_END + EncodeFields(services))
         == name + FIELD_END + uri + FIELD_END + EncodeFields(services)
  {
    assert ([name, uri] + services)[1..] == [uri] + services;
    assert ([uri] + services)[1..] == services;
  }

  function NonEmpty(fields: seq<string>): (r: seq<string>)
    ensures "" !in r
    ensures "" !in fields ==> r == fields
  {
    if fields == [] then []
    else (if fields[0] == "" then [] else [fields[0]]) + NonEmpty(fields[1..])
  }

  /** `Server::fromString`; with a single field the uri is read beyond the end. */
  function FromString(text: string): Result<Server, ReadError> {
    var fields := Split(text, FIELD_END);
    if |fields| < 2 then Error(BeyondEnd)
    else Ok(Server(fields[0], fields[1], NonEmpty(fields[2..])))
  }

  // ---- The exact condition under which one server survives the trip -------------------

  /** The field ends exactly where the next `$$$` is seen. */
  predicate Clean(field: string) {
    !Contains(field, FIELD_END) && (field == "" || field[|field| - 1] != '$')
  }

  /** Services are clean and non-empty; a last service of one or two dollars also survives. */
  predicate Tidy(services: seq<string>) {
    if services == [] then true
    else if |services| == 1 then services[0] != "" && (Clean(services[0]) || services[0] in ["$", "$$"])
    else services[0] != "" && Clean(services[0]) && Tidy(services[1..])
  }

  lemma FirstFieldEnd(field: string, rest: string)
    ensures var p := Find(field + FIELD_END + rest, FIELD_END, 0);
            0 <= p <= |field| && (p == |field| <==> Clean(field))
  {
    var s := field + FIELD_END + rest;
    assert At(s, FIELD_END, |field|);
    if !Clean(field) {
      var q: nat := if Contains(field, FIELD_END) then Find(field, FIELD_END, 0) else |field| - 1;
      assert s[q..q + 3] == FIELD_END;
      assert At(s, FIELD_END, q);
    } else {
      forall i: nat | i < |field| ensures !At(s, FIELD_END, i) {
        if i + 3 <= |field| {
          assert s[i..i + 3] == field[i..i + 3];
          assert !At(field, FIELD_END, i);
        } else {
          assert s[|field| - 1] == s[i..i + 3][|field| - 1 - i];
        }
      }
      FindIs(s, FIELD_END, 0, |field|);
    }
  }

  /** A clean field is split off whole; an unclean one is cut short. */
  lemma SplitFirst(field: string, rest: string)
    ensures var s := field + FIELD_END + rest;
            var p := Find(s, FIELD_END, 0);
            && 0 <= p <= |field| && (p == |field| <==> Clean(field))
            && Split(s, FIELD_END) == [field[..p]] + Split(s[p + 3..], FIELD_END)
            && (Clean(field) ==> Split(s, FIELD_END) == [field] + Split(rest, FIELD_END))
  {
    var s := field + FIELD_END + rest;
    FirstFieldEnd(field, rest);
    var p := Find(s, FIELD_END, 0);
    assert s[..p] == field[..p];
    if p == |field| {
      assert s[p + 3..] == rest;
      assert field[..p] == field;
    }
  }

  function TotalLength(fields: seq<string>): nat {
    if fields == [] then 0 else |fields[0]| + TotalLength(fields[1..])
  }

  /** Splitting loses nothing but the separators. */
  lemma {:induction false} SplitLength(s: string)
    ensures TotalLength(Split(s, FIELD_END)) + 3 * (|Split(s, FIELD_END)| - 1) == |s|
    decreases |s|
  {
    var p := Find(s, FIELD_END, 0);
    if p == NPOS {
      assert Split(s, FIELD_END) == [s];
    } else {
      SplitLength(s[p + 3..]);
      assert Split(s, FIELD_END)[1..] == Split(s[p + 3..], FIELD_END);
    }
  }

  lemma {:induction false} NonEmptyCounts(fields: seq<string>)
    ensures TotalLength(NonEmpty(fields)) == TotalLength(fields)
    ensures |NonEmpty(fields)| <= |fields|
    ensures |NonEmpty(fields)| == |fields| ==> NonEmpty(fields) == fields
  {
    if fields != [] {
      NonEmptyCounts(fields[1..]);
      var kept := NonEmpty(fields);
      if fields[0] == "" {
        assert kept == NonEmpty(fields[1..]);
      } else {
        assert kept[1..] == NonEmpty(fields[1..]);
      }
    }
  }

  lemma {:induction false} EncodeLength(fields: seq<string>)
    ensures |EncodeFields(fields)| == TotalLength(fields) + 3 * |fields|
  {
    if fields != [] { EncodeLength(fields[1..]); }
  }

  /** A string that its own shift by three repeats, after three dollars, is all dollars. */
  lemma {:induction false} AllDollars(s: string, n: nat, i: nat)
    requires 3 <= n && n + 3 <= |s| && s[..3] == FIELD_END
    requires s[3..n + 3] == s[..n]
    requires i < n + 3
    ensures s[i] == '$'
  {
    if i < 3 {
      assert s[i] == s[..3][i];
    } else {
      AllDollars(s, n, i - 3);
      assert s[3..n + 3][i - 3] == s[..n][i - 3];
    }
  }

  lemma NonEmptyCons(field: string, fields: seq<string>)
    ensures NonEmpty([field] + fields) == (if field == "" then [] else [field]) + NonEmpty(fields)
  {
    assert ([field] + fields)[1..] == fields;
  }

  /** Fields that are as long, separators included, as their non-empty ones have no empty one. */
  lemma {:induction false} NoneEmpty(fields: seq<string>, kept: seq<string>)
    requires NonEmpty(fields) == kept
    requires TotalLength(fields) + 3 * |fields| == TotalLength(kept) + 3 * |kept|
    ensures fields == kept
  {
    NonEmptyCounts(fields);
  }

  lemma EmptyFirst(later: seq<string>)
    ensures NonEmpty([""] + later) == NonEmpty(later)
  {
    NonEmptyCons("", later);
    assert [] + NonEmpty(later) == NonEmpty(later);
  }

  /** A leading separator leaves room for no second empty field. */
  lemma {:induction false} LeadingSeparator(s: string, services: seq<string>)
    requires |s| == TotalLength(services) + 3 * |services|
    requires Find(s, FIELD_END, 0) == 0 && NonEmpty(Split(s, FIELD_END)) == services
    ensures Split(s[3..], FIELD_END) == services
  {
    SplitAtStart(s, FIELD_END);
    EmptyFirst(Split(s[3..], FIELD_END));
    SplitLength(s[3..]);
    NoneEmpty(Split(s[3..], FIELD_END), services);
  }

  lemma StartsWithDollars(service: string)
    requires FIELD_END + service == service + FIELD_END
    ensures forall i | 0 <= i < |service| && i < 3 :: service[i] == '$'
    ensures |service| >= 3 ==> StartsWith(service, FIELD_END)
  {
    var s := FIELD_END + service;
    forall i | 0 <= i < |service| && i < 3 ensures service[i] == '$' {
      assert s[i] == FIELD_END[i] && s[i] == (service + FIELD_END)[i];
    }
    if |service| >= 3 {
      assert service[0..3] == FIELD_END;
    }
  }

  lemma LoneDollars(service: string)
    requires service != "" && !Contains(service, FIELD_END)
    requires FIELD_END + service == service + FIELD_END
    ensures service in ["$", "$$"]
  {
    StartsWithDollars(service);
    assert service == if |service| == 1 then "$" else "$$";
  }

  /** Where a service list starts with a separator, it does not come back, save two. */
  lemma {:induction false} DollarService(services: seq<string>)
    requires services != [] && services[0] != ""
    requires Find(EncodeFields(services), FIELD_END, 0) == 0
    requires NonEmpty(Split(EncodeFields(services), FIELD_END)) == services
    ensures services == ["$"] || services == ["$$"]
  {
    var s := EncodeFields(services);
    EncodeLength(services);
    LeadingSeparator(s, services);
    var rest := s[3..];
    var first := services[0];
    var p := Find(rest, FIELD_END, 0);
    assert s[..3] == s[0..3] == FIELD_END;
    assert s == FIELD_END + rest;
    assert s == first + FIELD_END + EncodeFields(services[1..]);
    if p == NPOS {
      assert services == [rest];
      assert EncodeFields(services[1..]) == "";
      assert s == first + FIELD_END;
      LoneDollars(first);
    } else {
      assert services[0] == rest[..p];
      NotPeriodic(s, first, EncodeFields(services[1..]), p);
    }
  }

  /** A first field repeated right after a leading separator can only be empty. */
  lemma NotPeriodic(s: string, first: string, tail: string, p: nat)
    requires s == first + FIELD_END + tail && |s| >= 3 && s[..3] == FIELD_END
    requires p == |first| && Find(s[3..], FIELD_END, 0) == p && s[3..][..p] == first
    ensures first == ""
  {
    var n := p + 3;
    var rest := s[3..];
    assert rest[..n] == rest[..p] + rest[p..p + 3] == first + FIELD_END;
    assert s[..n] == first + FIELD_END;
    assert s[3..n + 3] == rest[..n];
    forall i: nat | i < n + 3 ensures s[i] == '$' {
      AllDollars(s, n, i);
    }
    assert rest[0..3] == FIELD_END;
    assert At(rest, FIELD_END, 0);
  }

  lemma EncodeOne(field: string)
    ensures EncodeFields([field]) == field + FIELD_END
  {
    assert [field][1..] == [];
    assert field + FIELD_END + "" == field + FIELD_END;
  }

  lemma OddServices(services: seq<string>)
    requires services == ["$"] || services == ["$$"]
    ensures NonEmpty(Split(EncodeFields(services), FIELD_END)) == services
    ensures Find(EncodeFields(services), FIELD_END, 0) == 0
  {
    var s := EncodeFields(services);
    var first := services[0];
    assert services == [first];
    EncodeOne(first);
    assert s[..3] == s[0..3] == FIELD_END && s[3..] == first;
    assert At(s, FIELD_END, 0);
    assert forall i: nat :: !At(first, FIELD_END, i);
    assert Split(first, FIELD_END) == [first];
    NonEmptyCons("", [first]);
  }

  lemma {:induction false} ServicesRoundTrip(services: seq<string>)
    ensures NonEmpty(Split(EncodeFields(services), FIELD_END)) == services <==> Tidy(services)
  {
    if services == [] {
      assert Split("", FIELD_END) == [""];
    } else if services[0] != "" {
      var first, others := services[0], services[1..];
      assert services == [first] + others;
      var s := EncodeFields(services);
      SplitFirst(first, EncodeFields(others));
      var p := Find(s, FIELD_END, 0);
      var later := Split(s[p + 3..], FIELD_END);
      NonEmptyCons(first[..p], later);
      if Clean(first) {
        ServicesRoundTrip(others);
        assert first[..p] == first;
        assert NonEmpty(Split(s, FIELD_END)) == [first] + NonEmpty(Split(EncodeFields(others), FIELD_END));
        assert ([first] + others)[1..] == others;
      } else if p > 0 {
        assert NonEmpty(Split(s, FIELD_END))[0] == first[..p];
        if services == ["$"] || services == ["$$"] { OddServices(services); }
        assert |first[..p]| < |first|;
      } else {
        if NonEmpty(Split(s, FIELD_END)) == services { DollarService(services); }
        if Tidy(services) { OddServices(services); }
      }
    }
  }

  /** One server survives `toString` then `fromString` exactly under this condition. */
  lemma ServerRoundTrip(s: Server)
    ensures (ToStringSpec(s).Ok? && FromString(ToStringSpec(s).value) == Ok(s))
       <==> (s.services != [] && Clean(s.name) && Clean(s.uri) && Tidy(s.services))
  {
    if s.services != [] {
      var tail := EncodeFields(s.services);
      var text := EncodeFields([s.name, s.uri] + s.services);
      EncodeThree(s.name, s.uri, s.services);
      TwoFields(s.name, s.uri, tail);
      ServicesRoundTrip(s.services);
    }
  }

  lemma FirstPiece(field: string, rest: string)
    ensures var fields := Split(field + FIELD_END + rest, FIELD_END);
            && (fields[0] == field <==> Clean(field))
            && (Clean(field) ==> fields == [field] + Split(rest, FIELD_END))
  {
    SplitFirst(field, rest);
    var p := Find(field + FIELD_END + rest, FIELD_END, 0);
    assert p == |field| ==> field[..p] == field;
    assert p < |field| ==> |field[..p]| < |field|;
  }

  lemma TwoPieces(fields: seq<string>, after: seq<string>, rest: seq<string>, name: string, uri: string)
    requires fields != [] && after != []
    requires fields[0] == name <==> Clean(name)
    requires Clean(name) ==> fields == [name] + after
    requires after[0] == uri <==> Clean(uri)
    requires Clean(uri) ==> after == [uri] + rest
    ensures Clean(name) && Clean(uri) ==> fields == [name, uri] + rest
    ensures |fields| >= 2 && fields[0] == name && fields[1] == uri ==> Clean(name) && Clean(uri)
  {
  }

  lemma TwoFields(name: string, uri: string, tail: string)
    ensures var fields := Split(name + FIELD_END + (uri + FIELD_END + tail), FIELD_END);
            && (Clean(name) && Clean(uri) ==> fields == [name, uri] + Split(tail, FIELD_END))
            && (|fields| >= 2 && fields[0] == name && fields[1] == uri ==> Clean(name) && Clean(uri))
  {
    var later := uri + FIELD_END + tail;
    FirstPiece(name, later);
    FirstPiece(uri, tail);
    TwoPieces(Split(name + FIELD_END + later, FIELD_END), Split(later, FIELD_END), Split(tail, FIELD_END), name, uri);
  }

  // ---- The whole list ------------------------------------------------------------------

  /** What `listServer` sends: the text of every server of the snapshot, joined. */
  method ListServer(servers: seq<Server>) returns (r: Result<string, ReadError>)
    ensures r.Ok? <==> forall s | s in servers :: s.services != []
    ensures r.Ok? ==> r.value == Join(Encodings(servers), SERVER_SEPARATOR)
  {
    var texts: seq<string> := [];
    for i := 0 to |servers|
      invariant texts == Encodings(servers[..i])
      invariant forall s | s in servers[..i] :: s.services != []
    {
      var text := ToString(servers[i]);
      if text.Error? {
        assert servers[i] in servers;
        return Error(OutOfRange);
      }
      assert servers[..i + 1] == servers[..i] + [servers[i]];
      texts := texts + [text.value];
    }
    assert servers[..|servers|] == servers;
    return Ok(Join(texts, SERVER_SEPARATOR));
  }

  function Encodings(servers: seq<Server>): seq<string> {
    seq(|servers|, i requires 0 <= i < |servers| =>
      EncodeFields([servers[i].name, servers[i].uri] + servers[i].services))
  }

  /** The client's reading of that message, record by record. */
  method ExtractServersFromMessage(msg: string) returns (r: Result<seq<Server>, ReadError>)
    ensures r == ParseAll(Split(msg, SERVER_SEPARATOR))
  {
    var parts := Split(msg, SERVER_SEPARATOR);
    var res: seq<Server> := [];
    var i := 0;
    assert parts[0..] == parts && forall l: seq<Server> :: [] + l == l;
    while i < |parts|
      invariant i <= |parts|
      invariant ParseAll(parts) == Prepend(res, ParseAll(parts[i..]))
    {
      assert parts[i..][1..] == parts[i + 1..];
      var val := CStr(parts[i]);
      if val != "" {
        var server := FromString(val);
        if !server.Ok? {
          return Error(BeyondEnd);
        }
        PrependTwice(res, [server.value], ParseAll(parts[i + 1..]));
        res := res + [server.value];
      }
      i := i + 1;
    }
    assert parts[i..] == [] && res + [] == res;
    return Ok(res);
  }

  function Prepend(first: seq<Server>, r: Result<seq<Server>, ReadError>): Result<seq<Server>, ReadError> {
    if r.Ok? then Ok(first + r.value) else r
  }

  lemma PrependTwice(a: seq<Server>, b: seq<Server>, r: Result<seq<Server>, ReadError>)
    ensures Prepend(a, Prepend(b, r)) == Prepend(a + b, r)
  {
    if r.Ok? { assert a + (b + r.value) == a + b + r.value; }
  }

  function ParseAll(parts: seq<string>): Result<seq<Server>, ReadError> {
    if parts == [] then Ok([])
    else
      var val := CStr(parts[0]);
      if val == "" then ParseAll(parts[1..])
      else
        match FromString(val)
        case Ok(server) => Prepend([server], ParseAll(parts[1..]))
        case Error(e) => Error(e)
  }

  /** A field that cannot be taken for a separator. */
  predicate IsField(field: string) {
    field != "" && '$' !in field
  }

  predicate AllFields(fields: seq<string>) {
    forall i | 0 <= i < |fields| :: IsField(fields[i])
  }

  predicate Writable(s: Server) {
    IsField(s.name) && IsField(s.uri) && s.services != [] && AllFields(s.services)
  }

  /** No NUL, which would end the text as the client reads it. */
  predicate AllNulFree(fields: seq<string>) {
    fields == [] || ('\0' !in fields[0] && AllNulFree(fields[1..]))
  }

  predicate NulFree(s: Server) {
    AllNulFree([s.name, s.uri] + s.services)
  }

  predicate AllNulFreeServers(servers: seq<Server>) {
    servers == [] || (NulFree(servers[0]) && AllNulFreeServers(servers[1..]))
  }

  ghost predicate NoRunOfFour(text: string) {
    forall i: nat :: !At(text, "$$$$", i)
  }

  lemma FieldsOf(s: Server)
    requires Writable(s)
    ensures AllFields([s.name, s.uri] + s.services)
  {
  }

  /** Between fields the dollars come in threes; the text starts with a field. */
  lemma {:induction false} EncodedShape(fields: seq<string>)
    requires AllFields(fields)
    ensures NoRunOfFour(EncodeFields(fields))
    ensures fields != [] ==> EncodeFields(fields) != "" && EncodeFields(fields)[0] != '$'
  {
    if fields != [] {
      var first, rest := fields[0], EncodeFields(fields[1..]);
      EncodedShape(fields[1..]);
      var s := first + FIELD_END + rest;
      assert rest == "" || rest[0] != '$';
      forall i: nat ensures !At(s, "$$$$", i) {
        if i + 4 <= |s| {
          var four := s[i..i + 4];
          if i < |first| {
            assert four[0] == s[i] == first[i];
          } else if i < |first| + 3 {
            assert four[|first| + 3 - i] == s[|first| + 3] == rest[0];
          } else {
            assert four == rest[i - |first| - 3..i - |first| + 1];
            assert !At(rest, "$$$$", i - |first| - 3);
          }
        }
      }
    }
  }

  lemma {:induction false} EncodedEnd(fields: seq<string>)
    requires fields != []
    ensures |EncodeFields(fields)| >= 3
    ensures EncodeFields(fields)[|EncodeFields(fields)| - 3..] == FIELD_END
  {
    if |fields| == 1 {
      assert fields == [fields[0]];
      EncodeOne(fields[0]);
    } else {
      EncodedEnd(fields[1..]);
      var rest := EncodeFields(fields[1..]);
      assert EncodeFields(fields)[|EncodeFields(fields)| - 3..] == rest[|rest| - 3..];
    }
  }

  /** The long separator is found after the record's own trailing dollars, not inside them. */
  lemma SeparatorFound(record: string, rest: string)
    requires NoRunOfFour(record) && |record| >= 3
    ensures Find(record + SERVER_SEPARATOR + rest, SERVER_SEPARATOR, 0) == |record|
  {
    var s := record + SERVER_SEPARATOR + rest;
    assert At(s, SERVER_SEPARATOR, |record|);
    forall i: nat | i < |record| ensures !At(s, SERVER_SEPARATOR, i) {
      if i + 12 <= |s| {
        var twelve := s[i..i + 12];
        if i + 4 <= |record| {
          assert twelve[..4] == record[i..i + 4];
          assert !At(record, "$$$$", i);
        } else {
          assert twelve[4] == s[i + 4] == SERVER_SEPARATOR[i + 4 - |record|];
        }
      }
    }
    FindIs(s, SERVER_SEPARATOR, 0, |record|);
  }

  lemma LoneRecord(record: string)
    requires NoRunOfFour(record)
    ensures Split(record, SERVER_SEPARATOR) == [record]
  {
    forall i: nat ensures !At(record, SERVER_SEPARATOR, i) {
      if i + 12 <= |record| {
        assert record[i..i + 4] == record[i..i + 12][..4];
        assert !At(record, "$$$$", i);
      }
    }
    FindNone(record, SERVER_SEPARATOR, 0);
  }

  lemma {:induction false} JoinedSplits(records: seq<string>)
    requires records != [] && forall r | r in records :: NoRunOfFour(r) && |r| >= 3
    ensures Split(Join(records, SERVER_SEPARATOR), SERVER_SEPARATOR) == records
  {
    if |records| == 1 {
      LoneRecord(records[0]);
    } else {
      var first, rest := records[0], Join(records[1..], SERVER_SEPARATOR);
      SeparatorFound(first, rest);
      SplitAt(first + SERVER_SEPARATOR + rest, SERVER_SEPARATOR, first, rest);
      JoinedSplits(records[1..]);
    }
  }

  lemma {:induction false} EncodedNulFree(fields: seq<string>)
    requires AllNulFree(fields)
    ensures '\0' !in EncodeFields(fields)
  {
    if fields != [] { EncodedNulFree(fields[1..]); }
  }

  lemma WritableTravels(s: Server)
    requires Writable(s)
    ensures FromString(EncodeFields([s.name, s.uri] + s.services)) == Ok(s)
  {
    forall f | IsField(f) ensures Clean(f) {
      FindInClean(f, FIELD_END);
    }
    CleanServicesAreTidy(s.services);
    ServerRoundTrip(s);
  }

  lemma {:induction false} CleanServicesAreTidy(services: seq<string>)
    requires forall i | 0 <= i < |services| :: services[i] != "" && Clean(services[i])
    ensures Tidy(services)
  {
    if |services| > 1 { CleanServicesAreTidy(services[1..]); }
  }

  lemma {:induction false} RecordsParse(servers: seq<Server>)
    requires (forall s | s in servers :: Writable(s)) && AllNulFreeServers(servers)
    ensures ParseAll(Encodings(servers)) == Ok(servers)
  {
    if servers != [] {
      var s := servers[0];
      var text := EncodeFields([s.name, s.uri] + s.services);
      assert Encodings(servers)[1..] == Encodings(servers[1..]);
      FieldsOf(s);
      EncodedShape([s.name, s.uri] + s.services);
      EncodedNulFree([s.name, s.uri] + s.services);
      assert CStr(text) == text;
      WritableTravels(s);
      RecordsParse(servers[1..]);
      assert [s] + servers[1..] == servers;
    }
  }

  lemma {:induction false} SplitNulFree(s: string)
    requires '\0' !in s
    ensures AllNulFree(Split(s, FIELD_END))
    decreases |s|
  {
    var p := Find(s, FIELD_END, 0);
    if p != NPOS { SplitNulFree(s[p + 3..]); }
  }

  lemma {:induction false} NonEmptyNulFree(fields: seq<string>)
    requires AllNulFree(fields)
    ensures AllNulFree(NonEmpty(fields))
  {
    if fields != [] {
      NonEmptyNulFree(fields[1..]);
      if fields[0] == "" {
        assert NonEmpty(fields) == NonEmpty(fields[1..]);
      } else {
        assert NonEmpty(fields)[1..] == NonEmpty(fields[1..]);
      }
    }
  }

  /** What the client reads never holds a NUL. */
  lemma ReadIsNulFree(val: string)
    requires '\0' !in val && FromString(val).Ok?
    ensures NulFree(FromString(val).value)
  {
    SplitNulFree(val);
    var fields := Split(val, FIELD_END);
    assert fields[1..][1..] == fields[2..];
    NonEmptyNulFree(fields[2..]);
    var kept := NonEmpty(fields[2..]);
    assert ([fields[0], fields[1]] + kept)[1..][1..] == kept;
  }

  lemma {:induction false} ParsedIsNulFree(parts: seq<string>)
    requires ParseAll(parts).Ok?
    ensures AllNulFreeServers(ParseAll(parts).value)
  {
    if parts != [] {
      ParsedIsNulFree(parts[1..]);
      var val := CStr(parts[0]);
      if val != "" {
        ReadIsNulFree(val);
        var first, rest := FromString(val).value, ParseAll(parts[1..]).value;
        assert ([first] + rest)[1..] == rest;
      }
    }
  }

  lemma ListSplits(servers: seq<Server>)
    requires servers != [] && forall s | s in servers :: Writable(s)
    ensures Split(Join(Encodings(servers), SERVER_SEPARATOR), SERVER_SEPARATOR) == Encodings(servers)
  {
    var records := Encodings(servers);
    forall i | 0 <= i < |records| ensures NoRunOfFour(records[i]) && |records[i]| >= 3 {
      var s := servers[i];
      assert s in servers;
      FieldsOf(s);
      EncodedShape([s.name, s.uri] + s.services);
      EncodedEnd([s.name, s.uri] + s.services);
    }
    JoinedSplits(records);
  }

  /**
   The client reads back the dispatcher's list, in order, whatever its servers, as long as
   their fields are not empty and hold no dollar: exactly when they hold no NUL either.
   */
  lemma ServerListRoundTrip(servers: seq<Server>)
    requires forall s | s in servers :: Writable(s)
    ensures ParseAll(Split(Join(Encodings(servers), SERVER_SEPARATOR), SERVER_SEPARATOR)) == Ok(servers)
       <==> AllNulFreeServers(servers)
  {
    var parts := Split(Join(Encodings(servers), SERVER_SEPARATOR), SERVER_SEPARATOR);
    if servers == [] {
      assert parts == Split("", SERVER_SEPARATOR) == [""];
      assert CStr("") == "" && [""][1..] == [];
    } else {
      ListSplits(servers);
      if AllNulFreeServers(servers) {
        RecordsParse(servers);
      } else if ParseAll(parts).Ok? {
        ParsedIsNulFree(parts);
      }
    }
  }

  /** Dollar-free fields are needed: a uri ending in one never comes back. */
  lemma TrailingDollarIsLost(s: Server)
    requires s.uri != "" && s.uri[|s.uri| - 1] == '$' && s.services != []
    ensures FromString(EncodeFields([s.name, s.uri] + s.services)) != Ok(s)
  {
    ServerRoundTrip(s);
  }

  /** An empty record, or one that a NUL begins, is skipped; one of a single field is read beyond its end. */
  lemma OddRecords(field: string, rest: seq<string>)
    ensures ParseAll([""] + rest) == ParseAll(rest) && ParseAll(["\0" + field] + rest) == ParseAll(rest)
    ensures field != "" && '\0' !in field && !Contains(field, "$$$") ==>
            ParseAll([field] + rest) == Error(BeyondEnd)
  {
    assert ([""] + rest)[1..] == rest && (["\0" + field] + rest)[1..] == rest && ([field] + rest)[1..] == rest;
    if field != "" && '\0' !in field && !Contains(field, "$$$") {
      assert CStr(field) == field && Split(field, FIELD_END) == [field];
    }
  }

  /** A record of a name and a uri alone is a server without services. */
  lemma NoServices(name: string, uri: string)
    requires Clean(name) && Clean(uri)
    ensures FromString(name + "$$$" + (uri + "$$$")) == Ok(Server(name, uri, []))
    ensures ToStringSpec(Server(name, uri, [])) == Error(OutOfRange)
  {
    TwoFields(name, uri, "");
    assert uri + FIELD_END + "" == uri + "$$$";
    assert Split("", FIELD_END) == [""];
    assert ([name, uri] + [""])[2..] == [""];
    NonEmptyCons("", []);
    assert [""] + [] == [""];
  }
}
