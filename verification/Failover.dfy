/**
 A client's call of a service: the configured servers are tried in order, then the
 dispatcher. A server that does not offer the service answers with an error the client knows.
 */
module Failover {
  import opened Text

  datatype Profile = Profile(name: string, paramCount: int, params: seq<string>)

  /** What comes of sending a profile: an exception, an error code, or the result profile. */
  datatype Outcome = Raised | Refused(code: int) | Answered(paramCount: int, params: seq<string>)

  /** The answer to the n-th message of a call, sent to this uri with this profile. */
  type Network = (nat, string, Profile) -> Outcome

  /** Reading a result parameter that is not there is undefined. */
  datatype CallResult = Returned(code: int) | Undefined

  datatype Attempt = Attempt(uri: string, sent: Profile)

  const NOT_OFFERED := "Service call failed for the profile"

  predicate Accepted(params: seq<string>) {
    && params != []
    && (params[0] == "success"
        || (params[0] == "error" && |params| >= 2 && !Contains(params[1], NOT_OFFERED)))
  }

  /** The test of the result reads a parameter the profile does not have. */
  predicate TooShort(params: seq<string>) {
    params == [] || (params[0] == "error" && |params| == 1)
  }

  predicate Final(outcome: Outcome) {
    outcome.Answered? && (Accepted(outcome.params) || TooShort(outcome.params))
  }

  /** The results that end a call, and those it goes on after, spelled out. */
  lemma AnswersThatEnd(count: int, rest: seq<string>, head: string, text: string)
    ensures Final(Answered(count, [])) && Final(Answered(count, ["error"]))
    ensures Final(Answered(count, ["success"] + rest))
    ensures Final(Answered(count, ["error", text] + rest)) <==> !Contains(text, "Service call failed for the profile")
    ensures head != "success" && head != "error" ==> !Final(Answered(count, [head] + rest))
    ensures !Final(Raised) && !Final(Refused(count))
  {
    assert (["error", text] + rest)[1] == text && (["success"] + rest)[0] == "success";
    assert |"success"| != |"error"|;
  }

  predicate Succeeds(outcome: Outcome) {
    outcome.Answered? && outcome.params != [] && outcome.params[0] == "success"
  }

  /** The first of the servers from the i-th on whose answer ends the call. */
  function Stop(servers: seq<string>, save: Profile, network: Network, i: nat): (r: nat)
    requires i <= |servers|
    ensures i <= r <= |servers|
    ensures r < |servers| ==> Final(network(r, servers[r], save))
    ensures forall j | i <= j < r :: !Final(network(j, servers[j], save))
    decreases |servers| - i
  {
    if i == |servers| || Final(network(i, servers[i], save)) then i
    else Stop(servers, save, network, i + 1)
  }

  /** No server behind a success is asked, and one before it only if it answers. */
  lemma SuccessEndsTheCall(servers: seq<string>, save: Profile, network: Network, i: nat)
    requires i < |servers| && Succeeds(network(i, servers[i], save))
    ensures Stop(servers, save, network, 0) <= i
    ensures (forall j | 0 <= j < i :: !network(j, servers[j], save).Answered?) ==> Stop(servers, save, network, 0) == i
  {
  }

  function Received(sent: Profile, outcome: Outcome): Profile {
    if outcome.Answered? then sent.(paramCount := outcome.paramCount, params := outcome.params) else sent
  }

  /** The profile handed to the dispatcher: restored only where a dispatcher is configured. */
  function DispatcherProfile(servers: seq<string>, disp: string, save: Profile, network: Network): Profile {
    if disp != "" || servers == [] then save
    else Received(save, network(|servers| - 1, servers[|servers| - 1], save))
  }

  function Attempts(servers: seq<string>, save: Profile, n: nat): seq<Attempt>
    requires n <= |servers|
  {
    seq(n, i requires 0 <= i < n => Attempt(servers[i], save))
  }

  /** What a call returns, the profile it leaves, and the attempts it makes. */
  datatype Call = Call(result: CallResult, profile: Profile, log: seq<Attempt>)

  function CallOf(servers: seq<string>, disp: string, save: Profile, network: Network): Call {
    var stop := Stop(servers, save, network, 0);
    if stop < |servers| then
      var outcome := network(stop, servers[stop], save);
      Call(if Accepted(outcome.params) then Returned(0) else Undefined, Received(save, outcome),
           Attempts(servers, save, stop + 1))
    else
      var last := DispatcherProfile(servers, disp, save, network);
      var outcome := network(|servers|, disp, last);
      Call(Returned(match outcome case Raised => 1 case Refused(code) => code case Answered(_, _) => 0),
           Received(last, outcome), Attempts(servers, save, |servers|) + [Attempt(disp, last)])
  }

  /** A success of the first server is the whole call. */
  lemma FirstSuccessIsTheCall(servers: seq<string>, disp: string, save: Profile, network: Network)
    requires servers != [] && Succeeds(network(0, servers[0], save))
    ensures var first := network(0, servers[0], save);
            CallOf(servers, disp, save, network) ==
            Call(Returned(0), Profile(save.name, first.paramCount, first.params), [Attempt(servers[0], save)])
  {
    SuccessEndsTheCall(servers, save, network, 0);
    assert Attempts(servers, save, 1) == [Attempt(servers[0], save)];
  }

  /** Where no server gives a result, each gets the caller's profile once, and then the dispatcher. */
  lemma SilentServersAreTriedOnce(servers: seq<string>, disp: string, save: Profile, network: Network)
    requires forall i | 0 <= i < |servers| :: !network(i, servers[i], save).Answered?
    ensures var call := CallOf(servers, disp, save, network);
            && |call.log| == |servers| + 1 && call.log[|servers|] == Attempt(disp, save)
            && (forall i | 0 <= i < |servers| :: call.log[i] == Attempt(servers[i], save))
            && call.result == match network(|servers|, disp, save)
                              case Raised => Returned(1)
                              case Refused(code) => Returned(code)
                              case Answered(_, _) => Returned(0)
  {
  }

  class ProfileRef {
    var value: Profile

    constructor (value: Profile)
      ensures this.value == value
    {
      this.value := value;
    }
  }

  /** `known` says that the service belongs to one of the modules. */
  method DietCall(prof: ProfileRef, known: bool, servers: seq<string>, disp: string, network: Network)
    returns (r: CallResult, log: seq<Attempt>)
    modifies prof
    ensures !known || (servers == [] && disp == "") ==>
      r == Returned(1) && log == [] && prof.value == old(prof.value)
    ensures known && (servers != [] || disp != "") ==>
      Call(r, prof.value, log) == CallOf(servers, disp, old(prof.value), network)
    ensures known && servers != [] ==>
      var first := network(0, servers[0], old(prof.value));
      Succeeds(first) ==> r == Returned(0) && |log| == 1 && prof.value.params == first.params
  {
    log := [];
    var save := prof.value;
    if !known || (|servers| == 0 && disp == "") {
      return Returned(1), log;
    }
    if |servers| != 0 && Succeeds(network(0, servers[0], save)) {
      FirstSuccessIsTheCall(servers, disp, save, network);
    }
    var it := 0;
    while it < |servers|
      invariant it <= |servers| && log == Attempts(servers, save, it)
      invariant Stop(servers, save, network, 0) == Stop(servers, save, network, it)
      invariant prof.value == if it == 0 then save else Received(save, network(it - 1, servers[it - 1], save))
    {
      prof.value := save;
      log := log + [Attempt(servers[it], prof.value)];
      var outcome := network(it, servers[it], prof.value);
      if outcome.Answered? {
        prof.value := prof.value.(paramCount := outcome.paramCount, params := outcome.params);
        var ended := TestResult(prof.value.params);
        if ended.Some? {
          return ended.value, log;
        }
      }
      it := it + 1;
    }
    if disp != "" {
      prof.value := save;
    }
    log := log + [Attempt(disp, prof.value)];
    r := CallDispatcher(prof, network(|servers|, disp, prof.value));
  }

  /** The client's test of a result: a success, or an error that is not the one it knows. */
  method TestResult(params: seq<string>) returns (ended: Option<CallResult>)
    ensures Accepted(params) ==> ended == Some(Returned(0))
    ensures TooShort(params) ==> ended == Some(Undefined)
    ensures !Accepted(params) && !TooShort(params) ==> ended == None
  {
    if TooShort(params) {
      return Some(Undefined);
    }
    if params[0] == "success" || (params[0] == "error" && !Contains(params[1], NOT_OFFERED)) {
      return Some(Returned(0));
    }
    ended := None;
  }

  /** Returning what the dispatcher answers; 1 stands from before for an exception. */
  method CallDispatcher(prof: ProfileRef, outcome: Outcome) returns (r: CallResult)
    modifies prof
    ensures r == Returned(match outcome case Raised => 1 case Refused(code) => code case Answered(_, _) => 0)
    ensures prof.value == Received(old(prof.value), outcome)
  {
    prof.value := Received(prof.value, outcome);
    match outcome
    case Raised => return Returned(1);
    case Refused(code) => return Returned(code);
    case Answered(_, _) => return Returned(0);
  }

  /**
   Every attempt carries the caller's profile, except that without a dispatcher the last one,
   to an empty uri, carries a result that the last server gave and the client passed over.
   */
  lemma AttemptsCarryTheProfile(servers: seq<string>, disp: string, save: Profile, network: Network)
    ensures (forall a | a in CallOf(servers, disp, save, network).log :: a.sent == save) <==>
      var n := |servers|;
      Stop(servers, save, network, 0) < n || disp != "" || servers == []
        || Received(save, network(n - 1, servers[n - 1], save)) == save
  {
    var log := CallOf(servers, disp, save, network).log;
    var stop := Stop(servers, save, network, 0);
    if stop == |servers| {
      assert log[|servers|] in log;
      assert log[|servers|].sent == DispatcherProfile(servers, disp, save, network);
    }
  }

  // ---- The server side -----------------------------------------------------------------

  /** A service's callback: a code and the rewritten parameters, or an exception's text. */
  datatype Ran = Code(code: int, params: seq<string>) | Exception(text: string)

  type Callback = Profile -> Ran

  datatype Called = Reply(code: int, profile: Profile) | Threw(text: string)

  const UNKNOWN_SERVICE: int := 1

  /** `SeD::call`: dispatch through the callback map. */
  function SeDCall(callbacks: map<string, Callback>, p: Profile): Called {
    if p.name !in callbacks then Reply(UNKNOWN_SERVICE, p.(paramCount := -1))
    else
      match callbacks[p.name](p)
      case Code(code, params) => Reply(code, p.(paramCount := |params|, params := params))
      case Exception(text) => Threw(text)
  }

  /** A service the server has is run with the profile, and its results are sent back as they are. */
  lemma KnownServiceIsRun(callbacks: map<string, Callback>, p: Profile, header: string, code: int, params: seq<string>)
    requires p.name in callbacks && callbacks[p.name](p) == Code(code, params)
    ensures SeDCall(callbacks, p) == Reply(code, Profile(p.name, |params|, params))
    ensures code == 0 ==> WorkerReply(callbacks, p, header) == params
  {
  }

  /** One that it does not have is answered with 1 and a count of -1. */
  lemma UnknownServiceIsCounted(callbacks: map<string, Callback>, p: Profile)
    requires p.name !in callbacks
    ensures SeDCall(callbacks, p) == Reply(1, Profile(p.name, -1, p.params))
  {
  }

  /** What an exception says of itself, around the text it was given. */
  function What(header: string, text: string): string {
    header + "[" + text + "]"
  }

  /** The parameters the worker sends back; an exception becomes an error result. */
  function WorkerReply(callbacks: map<string, Callback>, p: Profile, header: string): seq<string> {
    match SeDCall(callbacks, p)
    case Threw(text) => ["error", What(header, text)]
    case Reply(code, result) =>
      if code != 0 then ["error", What(header, NOT_OFFERED + (" " + p.name + "\n"))] else result.params
  }

  lemma ContainsMiddle(a: string, pat: string, b: string)
    ensures Contains(a + pat + b, pat)
  {
    assert (a + pat + b)[|a|..|a| + |pat|] == pat;
    assert At(a + pat + b, pat, |a|);
  }

  lemma WhatContains(header: string, pat: string, rest: string)
    ensures Contains(What(header, pat + rest), pat)
  {
    ContainsMiddle(header + "[", pat, rest + "]");
    assert What(header, pat + rest) == (header + "[") + pat + (rest + "]");
  }

  /** An unknown service always reaches the client as the answer it passes over. */
  lemma UnknownServiceIsPassedOver(callbacks: map<string, Callback>, p: Profile, header: string)
    requires p.name !in callbacks
    ensures !Accepted(WorkerReply(callbacks, p, header)) && !TooShort(WorkerReply(callbacks, p, header))
    ensures WorkerReply(callbacks, p, header)
         == ["error", header + ("[Service call failed for the profile " + (p.name + "\n")) + "]"]
  {
    WhatContains(header, NOT_OFFERED, " " + p.name + "\n");
    TextOfUnknown(header, p.name + "\n");
    assert NOT_OFFERED + (" " + (p.name + "\n")) == NOT_OFFERED + (" " + p.name + "\n");
  }

  lemma TextOfUnknown(header: string, rest: string)
    ensures What(header, NOT_OFFERED + (" " + rest)) == header + ("[Service call failed for the profile " + rest) + "]"
  {
    assert "[" + (NOT_OFFERED + (" " + rest)) == "[Service call failed for the profile " + rest;
  }

  /** A configured server: out of reach, or running these callbacks. */
  datatype Server = Unreachable(failure: Outcome) | Running(callbacks: map<string, Callback>, header: string)

  predicate Offers(s: Server, service: string) {
    s.Running? && service in s.callbacks
  }

  /** The network of these servers; the last place stands for the dispatcher. */
  function NetworkOf(hosts: seq<Server>, dispatcher: Outcome): Network {
    (i: nat, uri: string, p: Profile) =>
      if i >= |hosts| then dispatcher
      else
        match hosts[i]
        case Unreachable(failure) => if failure.Answered? then Raised else failure
        case Running(callbacks, header) =>
          var params := WorkerReply(callbacks, p, header);
          Answered(|params|, params)
  }

  /** The first server, in the configured order, that is in reach and offers the service. */
  function FirstOffering(hosts: seq<Server>, service: string): (r: nat)
    ensures r <= |hosts| && (r < |hosts| ==> Offers(hosts[r], service))
    ensures forall i | 0 <= i < r :: !Offers(hosts[i], service)
  {
    if hosts == [] || Offers(hosts[0], service) then 0 else 1 + FirstOffering(hosts[1..], service)
  }

  /** A run whose result, or whose exception, the client does not take for an unknown service. */
  predicate Settles(ran: Ran, header: string) {
    match ran
    case Code(code, params) => code == 0 && (Accepted(params) || TooShort(params))
    case Exception(text) => !Contains(What(header, text), NOT_OFFERED)
  }

  lemma RunningEnds(callbacks: map<string, Callback>, p: Profile, header: string)
    ensures var params := WorkerReply(callbacks, p, header);
            Accepted(params) || TooShort(params) <==> p.name in callbacks && Settles(callbacks[p.name](p), header)
  {
    WhatContains(header, NOT_OFFERED, " " + p.name + "\n");
  }

  lemma OnlyOfferingEnds(hosts: seq<Server>, servers: seq<string>, save: Profile, dispatcher: Outcome, i: nat)
    requires i < |hosts| == |servers|
    ensures Final(NetworkOf(hosts, dispatcher)(i, servers[i], save)) <==>
            Offers(hosts[i], save.name) && Settles(hosts[i].callbacks[save.name](save), hosts[i].header)
  {
    if hosts[i].Running? {
      RunningEnds(hosts[i].callbacks, save, hosts[i].header);
    }
  }

  /**
   The call ends with the first server, in the configured order, that is in reach and offers
   the service, and goes on to the dispatcher if there is none: exactly when that server's run
   settles the call. A callback that fails by its return code does not, nor does an exception
   that quotes the error text, and the servers behind it are tried as well.
   */
  lemma {:induction false} FirstOfferingServerAnswers(
      hosts: seq<Server>, servers: seq<string>, save: Profile, dispatcher: Outcome)
    requires |hosts| == |servers|
    ensures var first := FirstOffering(hosts, save.name);
            first <= Stop(servers, save, NetworkOf(hosts, dispatcher), 0)
    ensures var first := FirstOffering(hosts, save.name);
            Stop(servers, save, NetworkOf(hosts, dispatcher), 0) == first <==>
            (first < |hosts| ==> Settles(hosts[first].callbacks[save.name](save), hosts[first].header))
  {
    var stop := Stop(servers, save, NetworkOf(hosts, dispatcher), 0);
    var first := FirstOffering(hosts, save.name);
    if stop < |hosts| { OnlyOfferingEnds(hosts, servers, save, dispatcher, stop); }
    if first < |hosts| { OnlyOfferingEnds(hosts, servers, save, dispatcher, first); }
  }

  /** Runs that settle a call, and those that do not, spelled out. */
  lemma RunsThatSettle(code: int, params: seq<string>, text: string, header: string)
    ensures Settles(Code(0, ["success"] + params), header)
    ensures Settles(Code(0, ["error", text] + params), header) <==>
            !Contains(text, "Service call failed for the profile")
    ensures Settles(Exception(text), header) <==>
            !Contains(header + "[" + text + "]", "Service call failed for the profile")
    ensures code != 0 ==> !Settles(Code(code, params), header)
  {
    AnswersThatEnd(0, params, "", text);
  }

  /** A run whose result the client accepts. */
  predicate Orderly(ran: Ran) {
    ran.Code? && ran.code == 0 && Accepted(ran.params)
  }

  /**
   Where every callback of the service returns 0 with a success, or with an error of its own,
   the call ends with the first server that offers it, and its result is that server's.
   */
  lemma {:induction false} OrderlyServersAnswer(
      hosts: seq<Server>, servers: seq<string>, save: Profile, dispatcher: Outcome)
    requires |hosts| == |servers|
    requires forall i | 0 <= i < |hosts| ::
      Offers(hosts[i], save.name) ==> Orderly(hosts[i].callbacks[save.name](save))
    ensures var network := NetworkOf(hosts, dispatcher);
            var first := FirstOffering(hosts, save.name);
            && Stop(servers, save, network, 0) == first
            && (first < |hosts| ==>
                 && Accepted(network(first, servers[first], save).params)
                 && hosts[first].callbacks[save.name](save) == Code(0, network(first, servers[first], save).params))
  {
    FirstOfferingServerAnswers(hosts, servers, save, dispatcher);
    var first := FirstOffering(hosts, save.name);
    if first < |hosts| {
      assert Orderly(hosts[first].callbacks[save.name](save));
    }
  }

  /** A server whose callback fails by its return code, and which is passed over for that. */
  lemma ErrorCodeIsPassedOver(
      code: int, params: seq<string>, header: string, uri: string, save: Profile, dispatcher: Outcome)
    requires code != 0
    ensures var hosts := [Running(map[save.name := (p: Profile) => Code(code, params)], header)];
            FirstOffering(hosts, save.name) == 0 && Stop([uri], save, NetworkOf(hosts, dispatcher), 0) == 1
  {
    var hosts := [Running(map[save.name := (p: Profile) => Code(code, params)], header)];
    OnlyOfferingEnds(hosts, [uri], save, dispatcher, 0);
  }
}
