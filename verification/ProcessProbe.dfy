/**
  The interception pipeline: one probed request goes through the hooks of every plugin around
  every matching script, then through the sending-out hooks and listeners, is uploaded to the
  front end, and its answer comes back through the backing-in hooks and listeners.

  Plugins, scripts and the front end are arbitrary total functions: a hook may change what it is
  handed, approve or veto, or raise an exception. A run leaves a trace of every call it made.
 */
module ProcessProbe {
  import opened Wrappers
  import opened Wire
  import opened ProbeRequest

  // ----- the values passed to plugins -----

  /** The request a plugin sees. Its three enumerations are kept as the integers they hold. */
  datatype NetworkRequest = NetworkRequest(
    uuid: Bytes,
    requestType: Int32,
    applicationType: Int32,
    protocol: Int32,
    dstIpAddr: Bytes,
    dstIpPort: Bytes,
    srcIpAddr: Bytes,
    srcIpPort: Bytes,
    isRawText: bool,
    uuidSub: Option<Int32>,
    rawText: Bytes,
    pid: Option<Bytes>,
    processName: Option<Bytes>)

  datatype NetworkResponse = NetworkResponse(
    uuid: Bytes, dstIpAddr: Bytes, dstIpPort: Bytes, responseText: Bytes)

  /** The message a script or the front end answers with. */
  datatype ProbeResponse = ProbeResponse(
    uuid: Bytes, dstIpAddr: Bytes, dstIpPort: Bytes, responseText: Bytes, unknown: seq<Record>)

  predicate KnownRequestType(x: Int32) {
    0 <= x <= 5
  }

  /** Client or server; TCP or UDP. */
  predicate KnownBinary(x: Int32) {
    0 <= x <= 1
  }

  predicate KnownEnums(p: Probe) {
    KnownRequestType(p.requestType) && KnownBinary(p.applicationType) && KnownBinary(p.protocol)
  }

  // ----- translations -----

  /**
    The plugin's view of a message. `blank` is the content of the new object, which has no
    initialisers: an enumeration value outside the switch leaves what was there.
   */
  function ToNetwork(p: Probe, blank: NetworkRequest): NetworkRequest {
    NetworkRequest(
      p.uuid,
      if KnownRequestType(p.requestType) then p.requestType else blank.requestType,
      if KnownBinary(p.applicationType) then p.applicationType else blank.applicationType,
      if KnownBinary(p.protocol) then p.protocol else blank.protocol,
      p.dstIpAddr, p.dstIpPort, p.srcIpAddr, p.srcIpPort, p.isRawText, p.uuidSub, p.rawText,
      p.pid, p.processName)
  }

  /** The message after a plugin's request has been written over it: absent fields clear nothing. */
  function Onto(r: NetworkRequest, p: Probe): Probe {
    Probe(
      r.uuid,
      if KnownRequestType(r.requestType) then r.requestType else p.requestType,
      if KnownBinary(r.applicationType) then r.applicationType else p.applicationType,
      if KnownBinary(r.protocol) then r.protocol else p.protocol,
      r.dstIpAddr, r.dstIpPort, r.srcIpAddr, r.srcIpPort, r.isRawText,
      if r.uuidSub.Some? then r.uuidSub else p.uuidSub,
      r.rawText,
      if r.pid.Some? then r.pid else p.pid,
      if r.processName.Some? then r.processName else p.processName,
      p.unknown)
  }

  method TransNetWorkRequest(networkRequest: NetworkRequest, request: Probe) returns (written: Probe)
    ensures written == Onto(networkRequest, request)
  {
    written := request.(uuid := networkRequest.uuid);
    if KnownRequestType(networkRequest.requestType) {
      written := written.(requestType := networkRequest.requestType);
    }
    if KnownBinary(networkRequest.applicationType) {
      written := written.(applicationType := networkRequest.applicationType);
    }
    if KnownBinary(networkRequest.protocol) {
      written := written.(protocol := networkRequest.protocol);
    }
    written := written.(dstIpAddr := networkRequest.dstIpAddr, dstIpPort := networkRequest.dstIpPort);
    written := written.(srcIpAddr := networkRequest.srcIpAddr, srcIpPort := networkRequest.srcIpPort);
    written := written.(isRawText := networkRequest.isRawText, rawText := networkRequest.rawText);
    if networkRequest.uuidSub.Some? {
      written := written.(uuidSub := networkRequest.uuidSub);
    }
    if networkRequest.pid.Some? {
      written := written.(pid := networkRequest.pid);
    }
    if networkRequest.processName.Some? {
      written := written.(processName := networkRequest.processName);
    }
  }

  function FromAnswer(a: ProbeResponse): NetworkResponse {
    NetworkResponse(a.uuid, a.dstIpAddr, a.dstIpPort, a.responseText)
  }

  /** What is written over the caller's response: the port goes to the address and back. */
  function OntoResponse(n: NetworkResponse, response: ProbeResponse): ProbeResponse {
    response.(uuid := n.uuid, dstIpPort := n.dstIpAddr, dstIpAddr := n.dstIpPort,
              responseText := n.responseText)
  }

  /** What a script's answer changes in the request. */
  function Rewritten(p: Probe, a: ProbeResponse): Probe {
    p.(dstIpAddr := a.dstIpAddr, dstIpPort := a.dstIpPort, rawText := a.responseText)
  }

  // ----- the translations as a pair -----

  /** An enumeration survives when the switch knows it, or nobody writes over an equal one. */
  predicate Survives(known: bool, blankKnown: bool, x: Int32, under: Int32) {
    known || (!blankKnown && under == x)
  }

  /** Nothing absent in `p` is present in `q`. */
  predicate NoLeftOvers(p: Probe, q: Probe) {
    && (p.uuidSub.None? ==> q.uuidSub.None?)
    && (p.pid.None? ==> q.pid.None?)
    && (p.processName.None? ==> q.processName.None?)
  }

  /**
    Translating `p` for the plugins and writing it over `q` gives p (with the unknown fields of
    q) exactly when no optional of q shows through and every enumeration survives.
   */
  lemma RequestRoundTrip(p: Probe, q: Probe, blank: NetworkRequest)
    ensures Onto(ToNetwork(p, blank), q) == p.(unknown := q.unknown) <==>
      && NoLeftOvers(p, q)
      && Survives(KnownRequestType(p.requestType), KnownRequestType(blank.requestType),
                  p.requestType, q.requestType)
      && Survives(KnownBinary(p.applicationType), KnownBinary(blank.applicationType),
                  p.applicationType, q.applicationType)
      && Survives(KnownBinary(p.protocol), KnownBinary(blank.protocol), p.protocol, q.protocol)
  {
    var r := Onto(ToNetwork(p, blank), q);
    var e := p.(unknown := q.unknown);
    assert r == e <==>
      && r.requestType == e.requestType && r.applicationType == e.applicationType
      && r.protocol == e.protocol && r.uuidSub == e.uuidSub && r.pid == e.pid
      && r.processName == e.processName;
  }

  /** An answer nobody changed is handed on as it came exactly when its address equals its port. */
  lemma ResponseIdentity(a: ProbeResponse, response: ProbeResponse)
    ensures OntoResponse(FromAnswer(a), response) == a.(unknown := response.unknown)
            <==> a.dstIpAddr == a.dstIpPort
  {
    var r := OntoResponse(FromAnswer(a), response);
    assert r.dstIpAddr == a.dstIpPort && r.dstIpPort == a.dstIpAddr;
  }

  lemma ResponseIsCrossed()
    ensures exists a, response :: OntoResponse(FromAnswer(a), response) != a.(unknown := response.unknown)
  {
    var a := ProbeResponse([], [49], [50], [], []);
    ResponseIdentity(a, a);
  }

  // ----- the world around a run -----

  datatype Verdict<T> = Answer(approved: bool, value: T) | Throws

  datatype Reply = Replied(answer: ProbeResponse) | NoReply | ReplyThrows

  /** A plugin's hook: it is handed a key (the script's label, or nothing) and a value to change. */
  type Hook<!K, !T> = (K, T) -> Verdict<T>

  /** A plugin's listener: true when it returns, false when it raises an exception. */
  type Listener<!T> = T -> bool

  type RequestHook = Hook<Bytes, NetworkRequest>

  /** One turn of the loop over the matching scripts. Compiling or using a pattern may throw. */
  datatype Script =
    | BadPattern
    | Script(name: Bytes, onUse: seq<RequestHook>, remote: Probe -> Reply, onExit: seq<RequestHook>,
             blankUse: NetworkRequest, blankExit: NetworkRequest)

  datatype World = World(
    scripts: seq<Script>,
    blank: NetworkRequest,
    sendingOut: seq<Hook<(), NetworkRequest>>,
    requestListeners: seq<Listener<NetworkRequest>>,
    upload: Probe -> Reply,
    backingIn: seq<Hook<(), NetworkResponse>>,
    responseListeners: seq<Listener<NetworkResponse>>)

  // ----- traces -----

  datatype Kind = OnUse | OnExit | OnSendingOut | OnBackingIn

  datatype Stage = Scripting | Sending | Uploading | Returning

  datatype Event =
    | Asked(kind: Kind, approved: bool)
    | Consulted(request: Probe)
    | Told
    | Uploaded(request: Probe)
    | Unanswered
    | Wrote(response: ProbeResponse)
    | Raised(stage: Stage)

  type Trace = seq<Event>

  datatype Status = OK | CANCELLED

  datatype Result = Result(status: Status, trace: Trace)

  /** A part of a run: what it did and the value it passes on, None after an exception. */
  datatype Part<T> = Part(trace: Trace, value: Option<T>)

  predicate Refusal(e: Event) {
    e.Asked? && !e.approved
  }

  /** A hook that ran before the upload refused. */
  predicate RequestRefusal(e: Event) {
    Refusal(e) && e.kind != OnBackingIn
  }

  predicate EarlyRaise(e: Event) {
    e.Raised? && (e.stage == Scripting || e.stage == Sending)
  }

  predicate Vetoed(t: Trace) {
    exists e :: e in t && Refusal(e)
  }

  predicate RequestVetoed(t: Trace) {
    exists e :: e in t && RequestRefusal(e)
  }

  predicate Failed(t: Trace) {
    exists e :: e in t && e.Raised?
  }

  predicate FailedEarly(t: Trace) {
    exists e :: e in t && EarlyRaise(e)
  }

  predicate Written(t: Trace) {
    exists e :: e in t && e.Wrote?
  }

  /** What events of one sort carry, in order. */
  function Carried<T>(t: Trace, of: Event -> seq<T>): seq<T> {
    if t == [] then [] else of(t[0]) + Carried(t[1..], of)
  }

  function Sent(e: Event): seq<Probe> {
    if e.Uploaded? then [e.request] else []
  }

  function Shown(e: Event): seq<Probe> {
    if e.Consulted? then [e.request] else []
  }

  /** The requests sent to the front end. */
  function Uploads(t: Trace): seq<Probe> {
    Carried(t, Sent)
  }

  /** The requests the scripts were consulted with. */
  function Consultations(t: Trace): seq<Probe> {
    Carried(t, Shown)
  }

  function Given(e: Event): seq<ProbeResponse> {
    if e.Wrote? then [e.response] else []
  }

  /** The responses written over the caller's. */
  function Writes(t: Trace): seq<ProbeResponse> {
    Carried(t, Given)
  }

  /** How many hooks of one kind were asked. */
  function Count(t: Trace, k: Kind): nat {
    if t == [] then 0
    else (if t[0].Asked? && t[0].kind == k then 1 else 0) + Count(t[1..], k)
  }

  // ----- the parts of a run -----

  /** Every hook in turn, each on what the one before it left, until one raises. */
  function Ask<K, T>(kind: Kind, stage: Stage, hooks: seq<Hook<K, T>>, key: K, x: T): Part<T> {
    if hooks == [] then Part([], Some(x))
    else
      var v := hooks[0](key, x);
      if v.Throws? then Part([Raised(stage)], None)
      else
        var rest := Ask(kind, stage, hooks[1..], key, v.value);
        Part([Asked(kind, v.approved)] + rest.trace, rest.value)
  }

  /** Every listener in turn until one raises. */
  function Tell<T>(stage: Stage, listeners: seq<Listener<T>>, x: T): Trace {
    if listeners == [] then []
    else if !listeners[0](x) then [Raised(stage)]
    else [Told] + Tell(stage, listeners[1..], x)
  }

  /** The hooks around leaving a script. */
  function Leave(s: Script, p: Probe): Part<Probe>
    requires s.Script?
  {
    var asked := Ask(OnExit, Scripting, s.onExit, p.uuid + s.name, ToNetwork(p, s.blankExit));
    Part(asked.trace, if asked.value.None? then None else Some(Onto(asked.value.value, p)))
  }

  /** The call to the script, and what follows when it answers. */
  function Consult(s: Script, p: Probe): Part<Probe>
    requires s.Script?
  {
    var reply := s.remote(p);
    if reply.ReplyThrows? then Part([Consulted(p), Raised(Scripting)], None)
    else if reply.NoReply? then Part([Consulted(p)], Some(p))
    else
      var left := Leave(s, Rewritten(p, reply.answer));
      Part([Consulted(p)] + left.trace, left.value)
  }

  /** One matching script. A veto is only noted: the script is consulted all the same. */
  function OneScript(s: Script, p: Probe): Part<Probe> {
    if s.BadPattern? then Part([Raised(Scripting)], None)
    else
      var asked := Ask(OnUse, Scripting, s.onUse, p.uuid + s.name, ToNetwork(p, s.blankUse));
      if asked.value.None? then Part(asked.trace, None)
      else
        var rest := Consult(s, Onto(asked.value.value, p));
        Part(asked.trace + rest.trace, rest.value)
  }

  function AllScripts(scripts: seq<Script>, p: Probe): Part<Probe> {
    if scripts == [] then Part([], Some(p))
    else
      var one := OneScript(scripts[0], p);
      if one.value.None? then one
      else
        var rest := AllScripts(scripts[1..], one.value.value);
        Part(one.trace + rest.trace, rest.value)
  }

  function After(t: Trace, r: Result): Result {
    Result(r.status, t + r.trace)
  }

  /** The way back: hooks, listeners, and the caller's response. */
  function Return(w: World, a: ProbeResponse, response: ProbeResponse): Result {
    var asked := Ask(OnBackingIn, Returning, w.backingIn, (), FromAnswer(a));
    if asked.value.None? then Result(OK, asked.trace)
    else if Vetoed(asked.trace) then Result(CANCELLED, asked.trace)
    else
      var told := Tell(Returning, w.responseListeners, asked.value.value);
      if Failed(told) then Result(OK, asked.trace + told)
      else Result(OK, asked.trace + told + [Wrote(OntoResponse(asked.value.value, response))])
  }

  /** The upload of a new message and what its answer leads to. */
  function Upload(w: World, r: NetworkRequest, response: ProbeResponse): Result {
    var p := Onto(r, CLEARED);
    var reply := w.upload(p);
    if reply.ReplyThrows? then Result(OK, [Uploaded(p), Raised(Uploading)])
    else if reply.NoReply? then Result(CANCELLED, [Uploaded(p), Unanswered])
    else After([Uploaded(p)], Return(w, reply.answer, response))
  }

  /** The hooks and listeners before the upload. */
  function Send(w: World, p: Probe, response: ProbeResponse): Result {
    var asked := Ask(OnSendingOut, Sending, w.sendingOut, (), ToNetwork(p, w.blank));
    if asked.value.None? then Result(OK, asked.trace)
    else if Vetoed(asked.trace) then Result(CANCELLED, asked.trace)
    else
      var told := Tell(Sending, w.requestListeners, asked.value.value);
      if Failed(told) then Result(OK, asked.trace + told)
      else After(asked.trace + told, Upload(w, asked.value.value, response))
  }

  function Run(w: World, p: Probe, response: ProbeResponse): Result {
    var scripted := AllScripts(w.scripts, p);
    if scripted.value.None? then Result(OK, scripted.trace)
    else if Vetoed(scripted.trace) then Result(CANCELLED, scripted.trace)
    else After(scripted.trace, Send(w, scripted.value.value, response))
  }

  // ----- traces and concatenation -----

  lemma SeqConcat<T>(x: seq<T>, y: seq<T>, z: seq<T>)
    ensures x + (y + z) == (x + y) + z
  {
  }

  lemma {:induction false} CarriedConcat<T>(a: Trace, b: Trace, of: Event -> seq<T>)
    ensures Carried(a + b, of) == Carried(a, of) + Carried(b, of)
  {
    if a == [] {
      assert a + b == b;
    } else {
      assert (a + b)[1..] == a[1..] + b;
      CarriedConcat(a[1..], b, of);
      SeqConcat(of(a[0]), Carried(a[1..], of), Carried(b, of));
    }
  }

  lemma CarriedByOne<T>(e: Event, of: Event -> seq<T>)
    ensures Carried([e], of) == of(e)
  {
    assert [e][1..] == [] && of(e) + [] == of(e);
  }

  lemma UploadsConcat(a: Trace, b: Trace)
    ensures Uploads(a + b) == Uploads(a) + Uploads(b)
  {
    CarriedConcat(a, b, Sent);
  }

  lemma ConsultationsConcat(a: Trace, b: Trace)
    ensures Consultations(a + b) == Consultations(a) + Consultations(b)
  {
    CarriedConcat(a, b, Shown);
  }

  lemma {:induction false} CountConcat(a: Trace, b: Trace, k: Kind)
    ensures Count(a + b, k) == Count(a, k) + Count(b, k)
  {
    if a == [] {
      assert a + b == b;
    } else {
      assert (a + b)[1..] == a[1..] + b;
      CountConcat(a[1..], b, k);
    }
  }

  lemma {:induction false} NothingCarried<T>(t: Trace, of: Event -> seq<T>)
    requires forall e | e in t :: of(e) == []
    ensures Carried(t, of) == []
  {
    if t != [] {
      assert t[0] in t;
      NothingCarried(t[1..], of);
    }
  }

  lemma WritesConcat(a: Trace, b: Trace)
    ensures Writes(a + b) == Writes(a) + Writes(b)
  {
    CarriedConcat(a, b, Given);
  }

  lemma NoUploads(t: Trace)
    requires forall e | e in t :: !e.Uploaded?
    ensures Uploads(t) == []
  {
    NothingCarried(t, Sent);
  }

  lemma NoConsultations(t: Trace)
    requires forall e | e in t :: !e.Consulted?
    ensures Consultations(t) == []
  {
    NothingCarried(t, Shown);
  }

  lemma NoWrites(t: Trace)
    requires forall e | e in t :: !e.Wrote?
    ensures Writes(t) == []
  {
    NothingCarried(t, Given);
  }

  /** Events that only a loop over hooks of this kind, at this stage, can leave. */
  predicate HookEvents(t: Trace, kind: Kind, stage: Stage) {
    forall e | e in t :: (e.Asked? && e.kind == kind) || e == Raised(stage)
  }

  predicate ListenerEvents(t: Trace, stage: Stage) {
    forall e | e in t :: e.Told? || e == Raised(stage)
  }

  /** What one more hook adds. */
  function Next<K, T>(kind: Kind, stage: Stage, r: Part<T>, h: Hook<K, T>, key: K): Part<T> {
    if r.value.None? then r
    else
      var v := h(key, r.value.value);
      if v.Throws? then Part(r.trace + [Raised(stage)], None)
      else Part(r.trace + [Asked(kind, v.approved)], Some(v.value))
  }

  lemma NextBehind<K, T>(kind: Kind, stage: Stage, e: Event, r: Part<T>, h: Hook<K, T>, key: K)
    ensures var n := Next(kind, stage, r, h, key);
            Next(kind, stage, Part([e] + r.trace, r.value), h, key) == Part([e] + n.trace, n.value)
  {
  }

  lemma AskFirst<K, T>(kind: Kind, stage: Stage, h: Hook<K, T>, hooks: seq<Hook<K, T>>, key: K, x: T)
    ensures
      var v := h(key, x);
      Ask(kind, stage, [h] + hooks, key, x) ==
        if v.Throws? then Part([Raised(stage)], None)
        else
          var rest := Ask(kind, stage, hooks, key, v.value);
          Part([Asked(kind, v.approved)] + rest.trace, rest.value)
  {
    assert ([h] + hooks)[1..] == hooks;
  }

  /** A hook works on what all hooks before it left, and only if none of them threw. */
  lemma {:induction false} HookAfterHooks<K, T>(
      kind: Kind, stage: Stage, before: seq<Hook<K, T>>, h: Hook<K, T>, key: K, x: T)
    ensures Ask(kind, stage, before + [h], key, x) == Next(kind, stage, Ask(kind, stage, before, key, x), h, key)
  {
    AskNone(kind, stage, [], key, x);
    if before == [] {
      AskFirst(kind, stage, h, [], key, x);
      assert before + [h] == [h] + [];
    } else {
      var first, rest := before[0], before[1..];
      assert before == [first] + rest && before + [h] == [first] + (rest + [h]);
      AskFirst(kind, stage, first, rest, key, x);
      AskFirst(kind, stage, first, rest + [h], key, x);
      var v := first(key, x);
      if v.Answer? {
        HookAfterHooks(kind, stage, rest, h, key, v.value);
        NextBehind(kind, stage, Asked(kind, v.approved), Ask(kind, stage, rest, key, v.value), h, key);
      }
    }
  }

  /** The loop stops early only for an exception; otherwise every hook was asked. */
  lemma {:induction false} AskLaw<K, T>(kind: Kind, stage: Stage, hooks: seq<Hook<K, T>>, key: K, x: T)
    ensures
      var r := Ask(kind, stage, hooks, key, x);
      && HookEvents(r.trace, kind, stage)
      && (r.value.None? <==> Failed(r.trace))
      && (r.value.Some? ==> Count(r.trace, kind) == |r.trace| == |hooks|)
  {
    if hooks != [] {
      var v := hooks[0](key, x);
      if v.Throws? {
        assert Raised(stage) in [Raised(stage)];
      } else {
        AskLaw(kind, stage, hooks[1..], key, v.value);
        var rest := Ask(kind, stage, hooks[1..], key, v.value).trace;
        var t := [Asked(kind, v.approved)] + rest;
        assert t[1..] == rest;
        assert Failed(rest) ==> Failed(t) by {
          if Failed(rest) {
            var e :| e in rest && e.Raised?;
            assert e in t;
          }
        }
      }
    }
  }

  lemma {:induction false} TellLaw<T>(stage: Stage, listeners: seq<Listener<T>>, x: T)
    ensures ListenerEvents(Tell(stage, listeners, x), stage)
  {
    if listeners != [] && listeners[0](x) {
      TellLaw(stage, listeners[1..], x);
    }
  }

  // ----- the parts -----

  /** Events of the loop over the scripts. */
  predicate ScriptEvents(t: Trace) {
    forall e | e in t ::
      e.Consulted? || e == Raised(Scripting) || (e.Asked? && (e.kind == OnUse || e.kind == OnExit))
  }

  /**
    A script that raised nothing asked every entering hook, was consulted with what they left,
    and, exactly when it answered, asked every leaving hook: whatever the hooks approved.
   */
  lemma OneScriptLaw(s: Script, p: Probe)
    ensures
      var r := OneScript(s, p);
      && ScriptEvents(r.trace)
      && (r.value.None? <==> Failed(r.trace))
      && (r.value.Some? ==>
            && s.Script?
            && |r.trace| > |s.onUse|
            && HookEvents(r.trace[..|s.onUse|], OnUse, Scripting)
            && r.trace[|s.onUse|].Consulted?
            && HookEvents(r.trace[|s.onUse| + 1..], OnExit, Scripting)
            && |r.trace| == |s.onUse| + 1
                 + (if s.remote(r.trace[|s.onUse|].request).Replied? then |s.onExit| else 0))
  {
    if s.BadPattern? {
      assert Raised(Scripting) in [Raised(Scripting)];
    } else {
      AskLaw(OnUse, Scripting, s.onUse, p.uuid + s.name, ToNetwork(p, s.blankUse));
      var asked := Ask(OnUse, Scripting, s.onUse, p.uuid + s.name, ToNetwork(p, s.blankUse));
      if asked.value.Some? {
        var q := Onto(asked.value.value, p);
        ConsultLaw(s, q);
        var rest := Consult(s, q).trace;
        var t := asked.trace + rest;
        assert t[..|s.onUse|] == asked.trace;
        assert t[|s.onUse| + 1..] == rest[1..];
        assert Failed(rest) ==> Failed(t) by {
          if Failed(rest) {
            var e :| e in rest && e.Raised?;
            assert e in t;
          }
        }
      }
    }
  }

  lemma ConsultLaw(s: Script, p: Probe)
    requires s.Script?
    ensures
      var r := Consult(s, p);
      && |r.trace| > 0
      && r.trace[0] == Consulted(p)
      && HookEvents(r.trace[1..], OnExit, Scripting)
      && (r.value.None? <==> Failed(r.trace))
      && (r.value.Some? ==> |r.trace| == 1 + (if s.remote(p).Replied? then |s.onExit| else 0))
  {
    var r := Consult(s, p).trace;
    var reply := s.remote(p);
    if reply.ReplyThrows? {
      assert r[1..] == [Raised(Scripting)];
      assert r[1] in r;
    } else if reply.Replied? {
      var q := Rewritten(p, reply.answer);
      AskLaw(OnExit, Scripting, s.onExit, q.uuid + s.name, ToNetwork(q, s.blankExit));
      var rest := Leave(s, q).trace;
      assert r[1..] == rest;
      assert Failed(rest) ==> Failed(r) by {
        if Failed(rest) {
          var e :| e in rest && e.Raised?;
          assert e in r;
        }
      }
    }
  }

  lemma {:induction false} NotCounted(t: Trace, k: Kind)
    requires forall e | e in t :: !e.Asked? || e.kind != k
    ensures Count(t, k) == 0
  {
    if t != [] {
      assert t[0] in t;
      NotCounted(t[1..], k);
    }
  }

  /** The leaving hooks to ask of a script consulted with q. */
  function ExitsOf(s: Script, q: Probe): nat {
    if s.Script? && s.remote(q).Replied? then |s.onExit| else 0
  }

  lemma ConsultCount(s: Script, p: Probe)
    requires s.Script? && Consult(s, p).value.Some?
    ensures Count(Consult(s, p).trace, OnUse) == 0
    ensures Count(Consult(s, p).trace, OnExit) == ExitsOf(s, p)
    ensures Consultations(Consult(s, p).trace) == [p]
  {
    var reply := s.remote(p);
    ConsultLaw(s, p);
    NotCounted(Consult(s, p).trace, OnUse);
    var rest: Trace := [];
    if reply.Replied? {
      var q := Rewritten(p, reply.answer);
      AskLaw(OnExit, Scripting, s.onExit, q.uuid + s.name, ToNetwork(q, s.blankExit));
      rest := Leave(s, q).trace;
    }
    hide Ask, ToNetwork, Onto;
    assert Consult(s, p).trace == [Consulted(p)] + rest;
    CountConcat([Consulted(p)], rest, OnExit);
    ConsultationsConcat([Consulted(p)], rest);
    NoConsultations(rest);
  }

  lemma OneScriptCount(s: Script, p: Probe) returns (q: Probe)
    requires OneScript(s, p).value.Some?
    ensures s.Script? && Count(OneScript(s, p).trace, OnUse) == |s.onUse|
    ensures Count(OneScript(s, p).trace, OnExit) == ExitsOf(s, q)
    ensures Consultations(OneScript(s, p).trace) == [q]
  {
    hide Ask, ToNetwork, Onto, ExitsOf, Count, Consultations, Consult;
    var asked := Ask(OnUse, Scripting, s.onUse, p.uuid + s.name, ToNetwork(p, s.blankUse));
    AskLaw(OnUse, Scripting, s.onUse, p.uuid + s.name, ToNetwork(p, s.blankUse));
    q := Onto(asked.value.value, p);
    ConsultCount(s, q);
    var rest := Consult(s, q).trace;
    NotCounted(asked.trace, OnExit);
    NoConsultations(asked.trace);
    CountConcat(asked.trace, rest, OnUse);
    CountConcat(asked.trace, rest, OnExit);
    ConsultationsConcat(asked.trace, rest);
  }

  /** The hooks to ask on entering the scripts. */
  function EntryHooks(scripts: seq<Script>): nat {
    if scripts == [] then 0
    else (if scripts[0].Script? then |scripts[0].onUse| else 0) + EntryHooks(scripts[1..])
  }

  /** The hooks to ask on leaving those scripts that answered what they were consulted with. */
  function ExitHooks(scripts: seq<Script>, requests: seq<Probe>): nat {
    if scripts == [] || requests == [] then 0
    else ExitsOf(scripts[0], requests[0]) + ExitHooks(scripts[1..], requests[1..])
  }

  /** Every script was consulted, once, and every hook due on entering and leaving was asked. */
  predicate AllAsked(scripts: seq<Script>, t: Trace) {
    && |Consultations(t)| == |scripts|
    && Count(t, OnUse) == EntryHooks(scripts)
    && Count(t, OnExit) == ExitHooks(scripts, Consultations(t))
  }

  lemma AllAskedStep(s: Script, scripts: seq<Script>, one: Trace, q: Probe, rest: Trace)
    requires s.Script? && Count(one, OnUse) == |s.onUse| && Count(one, OnExit) == ExitsOf(s, q)
    requires Consultations(one) == [q] && AllAsked(scripts, rest)
    ensures AllAsked([s] + scripts, one + rest)
  {
    hide Count, ExitsOf, Consultations;
    CountConcat(one, rest, OnUse);
    CountConcat(one, rest, OnExit);
    ConsultationsConcat(one, rest);
    var requests := [q] + Consultations(rest);
    assert ([s] + scripts)[1..] == scripts && requests[1..] == Consultations(rest);
  }

  /**
    A veto stops no script: without an exception every script is consulted, and every script's
    entering hooks are asked, and the leaving hooks of every script that answered.
   */
  lemma {:induction false} AllScriptsLaw(scripts: seq<Script>, p: Probe)
    ensures
      var r := AllScripts(scripts, p);
      && ScriptEvents(r.trace)
      && (r.value.None? <==> Failed(r.trace))
      && (r.value.Some? ==> AllAsked(scripts, r.trace))
  {
    if scripts == [] {
      assert Consultations([]) == [];
    } else {
      hide OneScript, AllAsked;
      var one := OneScript(scripts[0], p);
      OneScriptLaw(scripts[0], p);
      if one.value.Some? {
        var q := OneScriptCount(scripts[0], p);
        AllScriptsLaw(scripts[1..], one.value.value);
        var rest := AllScripts(scripts[1..], one.value.value);
        if rest.value.Some? {
          AllAskedStep(scripts[0], scripts[1..], one.trace, q, rest.trace);
          assert [scripts[0]] + scripts[1..] == scripts;
        }
        FailedConcat(one.trace, rest.trace);
      }
    }
  }

  lemma FailedConcat(a: Trace, b: Trace)
    ensures Failed(a + b) <==> Failed(a) || Failed(b)
  {
    if Failed(a) {
      var e :| e in a && e.Raised?;
      assert e in a + b;
    }
    if Failed(b) {
      var e :| e in b && e.Raised?;
      assert e in a + b;
    }
  }

  // ----- how runs end -----

  /** CANCELLED is a veto or a missing answer; a written response is none of these and no exception. */
  predicate EndRule(r: Result) {
    && (r.status.CANCELLED? <==> !Failed(r.trace) && (Vetoed(r.trace) || Unanswered in r.trace))
    && (Written(r.trace) <==> !Failed(r.trace) && !Vetoed(r.trace) && Unanswered !in r.trace)
  }

  /** At most one upload, and one exactly when nothing before it refused or failed. */
  predicate UploadRule(r: Result) {
    && |Uploads(r.trace)| <= 1
    && (Uploads(r.trace) != [] <==> !RequestVetoed(r.trace) && !FailedEarly(r.trace))
  }

  /** Nothing in this part of the trace decides how the run ends. */
  predicate Neutral(t: Trace) {
    forall e | e in t :: !Refusal(e) && !e.Raised? && !e.Unanswered? && !e.Wrote?
  }

  lemma AfterNeutral(t: Trace, r: Result)
    requires Neutral(t) && EndRule(r)
    ensures EndRule(After(t, r))
  {
    var u := t + r.trace;
    assert forall e :: e in u <==> e in t || e in r.trace;
    FailedConcat(t, r.trace);
    assert Vetoed(u) <==> Vetoed(r.trace);
    assert Written(u) <==> Written(r.trace);
  }

  lemma AfterUploading(t: Trace, r: Result)
    requires Neutral(t) && UploadRule(r)
    requires forall e | e in t :: !e.Uploaded?
    ensures UploadRule(After(t, r)) && Uploads(t + r.trace) == Uploads(r.trace)
  {
    var u := t + r.trace;
    assert forall e :: e in u <==> e in t || e in r.trace;
    NoUploads(t);
    UploadsConcat(t, r.trace);
    assert RequestVetoed(u) <==> RequestVetoed(r.trace);
    assert FailedEarly(u) <==> FailedEarly(r.trace);
  }

  /** No event of the way back can be one that an upload or its absence explains. */
  predicate BackwardEvents(t: Trace) {
    forall e | e in t :: !e.Uploaded? && !e.Unanswered? && !RequestRefusal(e) && !EarlyRaise(e)
  }

  lemma WritingEnds(t: Trace, response: ProbeResponse)
    requires Neutral(t)
    ensures EndRule(Result(OK, t + [Wrote(response)]))
  {
    var u := t + [Wrote(response)];
    assert u[|t|] == Wrote(response);
    assert forall e :: e in u <==> e in t || e == Wrote(response);
  }

  /** The way back decides the ending alone, and sends nothing. */
  lemma ReturnLaw(w: World, a: ProbeResponse, response: ProbeResponse)
    ensures EndRule(Return(w, a, response)) && BackwardEvents(Return(w, a, response).trace)
  {
    hide Ask, Tell, OntoResponse, FromAnswer;
    var asked := Ask(OnBackingIn, Returning, w.backingIn, (), FromAnswer(a));
    AskLaw(OnBackingIn, Returning, w.backingIn, (), FromAnswer(a));
    if asked.value.Some? && !Vetoed(asked.trace) {
      var told := Tell(Returning, w.responseListeners, asked.value.value);
      TellLaw(Returning, w.responseListeners, asked.value.value);
      FailedConcat(asked.trace, told);
      var t := asked.trace + told;
      assert forall e :: e in t <==> e in asked.trace || e in told;
      if !Failed(told) {
        WritingEnds(t, OntoResponse(asked.value.value, response));
      }
    }
  }

  /** Before the response is written every backing-in hook has been asked. */
  lemma ReturnCount(w: World, a: ProbeResponse, response: ProbeResponse)
    requires Written(Return(w, a, response).trace)
    ensures Count(Return(w, a, response).trace, OnBackingIn) == |w.backingIn|
  {
    hide Ask, Tell, OntoResponse, FromAnswer;
    var asked := Ask(OnBackingIn, Returning, w.backingIn, (), FromAnswer(a));
    AskLaw(OnBackingIn, Returning, w.backingIn, (), FromAnswer(a));
    var told := Tell(Returning, w.responseListeners, asked.value.value);
    TellLaw(Returning, w.responseListeners, asked.value.value);
    var last := Wrote(OntoResponse(asked.value.value, response));
    NotCounted(told + [last], OnBackingIn);
    CountConcat(asked.trace, told + [last], OnBackingIn);
    assert asked.trace + told + [last] == asked.trace + (told + [last]);
  }

  lemma OneUpload(p: Probe, rest: Trace)
    requires forall e | e in rest :: !e.Uploaded?
    ensures Uploads([Uploaded(p)] + rest) == [p]
  {
    assert ([Uploaded(p)] + rest)[1..] == rest;
    NoUploads(rest);
  }

  lemma UploadLaw(w: World, r: NetworkRequest, response: ProbeResponse)
    ensures
      var u := Upload(w, r, response);
      EndRule(u) && UploadRule(u) && Uploads(u.trace) == [Onto(r, CLEARED)]
  {
    hide Onto, Return;
    var p := Onto(r, CLEARED);
    var reply := w.upload(p);
    var u := Upload(w, r, response);
    if reply.Replied? {
      var back := Return(w, reply.answer, response);
      ReturnLaw(w, reply.answer, response);
      AfterNeutral([Uploaded(p)], back);
      OneUpload(p, back.trace);
    } else {
      var e := if reply.NoReply? then Unanswered else Raised(Uploading);
      assert u.trace == [Uploaded(p)] + [e];
      assert e in u.trace;
      OneUpload(p, [e]);
    }
  }

  /** A part that ends the run early, before the upload. */
  lemma StoppedEarly(r: Result)
    requires forall e | e in r.trace :: !e.Uploaded? && !e.Unanswered? && !e.Wrote?
    requires forall e | e in r.trace && Refusal(e) :: RequestRefusal(e)
    requires forall e | e in r.trace && e.Raised? :: EarlyRaise(e)
    requires r.status.OK? <==> Failed(r.trace)
    requires r.status.CANCELLED? ==> Vetoed(r.trace)
    ensures EndRule(r) && UploadRule(r)
  {
    NoUploads(r.trace);
  }

  lemma SendLaw(w: World, p: Probe, response: ProbeResponse)
    ensures EndRule(Send(w, p, response)) && UploadRule(Send(w, p, response))
  {
    hide Ask, Tell, ToNetwork, Upload, EndRule, UploadRule, Uploads;
    var asked := Ask(OnSendingOut, Sending, w.sendingOut, (), ToNetwork(p, w.blank));
    AskLaw(OnSendingOut, Sending, w.sendingOut, (), ToNetwork(p, w.blank));
    if asked.value.None? || Vetoed(asked.trace) {
      StoppedEarly(Send(w, p, response));
    } else {
      var told := Tell(Sending, w.requestListeners, asked.value.value);
      TellLaw(Sending, w.requestListeners, asked.value.value);
      FailedConcat(asked.trace, told);
      var t := asked.trace + told;
      assert forall e :: e in t <==> e in asked.trace || e in told;
      if Failed(told) {
        StoppedEarly(Send(w, p, response));
      } else {
        UploadLaw(w, asked.value.value, response);
        AfterNeutral(t, Upload(w, asked.value.value, response));
        AfterUploading(t, Upload(w, asked.value.value, response));
      }
    }
  }

  /**
    Every run: it is CANCELLED exactly when a hook refused or the front end kept silent, and no
    exception was raised; the response is written exactly when none of the three happened; and
    at most one request is uploaded, exactly when no hook before the upload refused and
    no exception came before it.
   */
  lemma RunLaw(w: World, p: Probe, response: ProbeResponse)
    ensures EndRule(Run(w, p, response)) && UploadRule(Run(w, p, response))
  {
    var scripted := AllScripts(w.scripts, p);
    AllScriptsLaw(w.scripts, p);
    NoUploads(scripted.trace);
    if scripted.value.Some? && !Vetoed(scripted.trace) {
      SendLaw(w, scripted.value.value, response);
      AfterNeutral(scripted.trace, Send(w, scripted.value.value, response));
      AfterUploading(scripted.trace, Send(w, scripted.value.value, response));
    }
  }

  /** A run that ends with OK leaves the response unwritten exactly when an exception was raised. */
  lemma UnwrittenMeansException(w: World, p: Probe, response: ProbeResponse)
    ensures
      var r := Run(w, p, response);
      r.status.OK? ==> (!Written(r.trace) <==> Failed(r.trace))
  {
    RunLaw(w, p, response);
  }

  lemma CountsOfTwo(a: Trace, b: Trace)
    ensures forall k :: Count(a + b, k) == Count(a, k) + Count(b, k)
    ensures Uploads(a + b) == Uploads(a) + Uploads(b)
    ensures Consultations(a + b) == Consultations(a) + Consultations(b)
  {
    forall k {
      CountConcat(a, b, k);
    }
    UploadsConcat(a, b);
    ConsultationsConcat(a, b);
  }

  /** The sending-out hooks and listeners, all asked and told, and nothing else. */
  lemma SendingTrace(w: World, x: NetworkRequest)
    requires Ask(OnSendingOut, Sending, w.sendingOut, (), x).value.Some?
    ensures
      var asked := Ask(OnSendingOut, Sending, w.sendingOut, (), x);
      var t := asked.trace + Tell(Sending, w.requestListeners, asked.value.value);
      && Count(t, OnUse) == Count(t, OnExit) == 0 && Count(t, OnSendingOut) == |w.sendingOut|
      && Consultations(t) == [] && Uploads(t) == []
  {
    hide Ask, Tell, Count, Uploads, Consultations;
    var asked := Ask(OnSendingOut, Sending, w.sendingOut, (), x);
    AskLaw(OnSendingOut, Sending, w.sendingOut, (), x);
    var told := Tell(Sending, w.requestListeners, asked.value.value);
    TellLaw(Sending, w.requestListeners, asked.value.value);
    var t := asked.trace + told;
    NotCounted(t, OnUse);
    NotCounted(t, OnExit);
    NotCounted(told, OnSendingOut);
    CountConcat(asked.trace, told, OnSendingOut);
    NoUploads(t);
    NoConsultations(t);
  }

  lemma ApprovedBeforeSend(w: World, p: Probe, response: ProbeResponse)
      returns (before: Trace, sent: Probe, after: Trace)
    requires Uploads(Send(w, p, response).trace) != []
    ensures Send(w, p, response).trace == before + [Uploaded(sent)] + after
    ensures Neutral(before) && Uploads(before) == [] && Uploads(after) == []
    ensures Count(before, OnUse) == Count(before, OnExit) == 0 && Consultations(before) == []
    ensures Count(before, OnSendingOut) == |w.sendingOut|
  {
    hide Ask, Tell, Upload, Onto, ToNetwork, Count, Uploads, Consultations;
    var x := ToNetwork(p, w.blank);
    var asked := Ask(OnSendingOut, Sending, w.sendingOut, (), x);
    AskLaw(OnSendingOut, Sending, w.sendingOut, (), x);
    NoUploads(asked.trace);
    SendingTrace(w, x);
    var r := asked.value.value;
    TellLaw(Sending, w.requestListeners, r);
    before := asked.trace + Tell(Sending, w.requestListeners, r);
    sent := Onto(r, CLEARED);
    UploadLaw(w, r, response);
    after := UploadFirst(w, r, response);
    AfterTheUpload(sent, after);
    assert before + [Uploaded(sent)] + after == before + Upload(w, r, response).trace;
  }

  lemma UploadFirst(w: World, r: NetworkRequest, response: ProbeResponse) returns (after: Trace)
    ensures Upload(w, r, response).trace == [Uploaded(Onto(r, CLEARED))] + after
  {
    hide Onto, Return;
    after := Upload(w, r, response).trace[1..];
  }

  lemma AfterTheUpload(p: Probe, after: Trace)
    requires Uploads([Uploaded(p)] + after) == [p]
    ensures Uploads(after) == []
  {
    assert ([Uploaded(p)] + after)[1..] == after;
  }

  /**
    Where an upload stands: before it every script was consulted with every entering hook asked,
    and every leaving hook of those that answered, every sending-out hook was asked, and all of
    them approved; after it there is no other upload.
   */
  lemma ApprovedBeforeUpload(w: World, p: Probe, response: ProbeResponse)
      returns (before: Trace, sent: Probe, after: Trace)
    requires Uploads(Run(w, p, response).trace) != []
    ensures Run(w, p, response).trace == before + [Uploaded(sent)] + after
    ensures Neutral(before) && Uploads(before) == [] && Uploads(after) == []
    ensures AllAsked(w.scripts, before)
    ensures Count(before, OnSendingOut) == |w.sendingOut|
  {
    hide AllScripts, Send, Count, Uploads, Consultations, EntryHooks, ExitHooks;
    var scripted := AllScripts(w.scripts, p);
    AllScriptsLaw(w.scripts, p);
    NoUploads(scripted.trace);
    NotCounted(scripted.trace, OnSendingOut);
    var q := scripted.value.value;
    CountsOfTwo(scripted.trace, Send(w, q, response).trace);
    before, sent, after := ApprovedBeforeSend(w, q, response);
    CountsOfTwo(scripted.trace, before);
    assert Consultations(scripted.trace) + [] == Consultations(scripted.trace);
    before := scripted.trace + before;
  }

  // ----- what a written response means -----

  lemma WrittenConcat(a: Trace, b: Trace)
    ensures Written(a + b) <==> Written(a) || Written(b)
  {
    assert forall e :: e in a + b <==> e in a || e in b;
  }

  lemma UploadWritten(w: World, r: NetworkRequest, response: ProbeResponse)
    requires Written(Upload(w, r, response).trace)
    ensures w.upload(Onto(r, CLEARED)).Replied?
    ensures Count(Upload(w, r, response).trace, OnBackingIn) == |w.backingIn|
  {
    hide Onto, Return;
    var p := Onto(r, CLEARED);
    var reply := w.upload(p);
    if reply.Replied? {
      var back := Return(w, reply.answer, response);
      WrittenConcat([Uploaded(p)], back.trace);
      ReturnCount(w, reply.answer, response);
      CountConcat([Uploaded(p)], back.trace, OnBackingIn);
    }
  }

  /** What the front end got, whether it answered, and how many backing-in hooks were asked. */
  predicate Delivered(w: World, t: Trace) {
    && |Uploads(t)| == 1
    && w.upload(Uploads(t)[0]).Replied?
    && Count(t, OnBackingIn) == |w.backingIn|
  }

  lemma DeliveredBehind(w: World, before: Trace, t: Trace)
    requires Delivered(w, t) && Uploads(before) == [] && Count(before, OnBackingIn) == 0
    ensures Delivered(w, before + t)
  {
    CountsOfTwo(before, t);
    assert [] + Uploads(t) == Uploads(t);
  }

  lemma SendWritten(w: World, p: Probe, response: ProbeResponse)
    requires Written(Send(w, p, response).trace)
    ensures Delivered(w, Send(w, p, response).trace)
  {
    hide Ask, Tell, ToNetwork, Upload, Delivered, Uploads, Count;
    var asked := Ask(OnSendingOut, Sending, w.sendingOut, (), ToNetwork(p, w.blank));
    AskLaw(OnSendingOut, Sending, w.sendingOut, (), ToNetwork(p, w.blank));
    var r := asked.value.value;
    var told := Tell(Sending, w.requestListeners, r);
    TellLaw(Sending, w.requestListeners, r);
    var t := asked.trace + told;
    assert forall e :: e in t <==> e in asked.trace || e in told;
    var u := Upload(w, r, response).trace;
    WrittenConcat(t, u);
    UploadIsDelivered(w, r, response);
    NoUploads(t);
    NotCounted(t, OnBackingIn);
    DeliveredBehind(w, t, u);
  }

  lemma UploadIsDelivered(w: World, r: NetworkRequest, response: ProbeResponse)
    requires Written(Upload(w, r, response).trace)
    ensures Delivered(w, Upload(w, r, response).trace)
  {
    hide Upload, Uploads, Count, Onto;
    UploadWritten(w, r, response);
    UploadLaw(w, r, response);
  }

  /**
    A run that writes the response has uploaded one request, the front end has answered it, every
    backing-in hook has been asked, and no hook of any kind has refused.
   */
  lemma WrittenMeansDelivered(w: World, p: Probe, response: ProbeResponse)
    requires Written(Run(w, p, response).trace)
    ensures Delivered(w, Run(w, p, response).trace) && !Vetoed(Run(w, p, response).trace)
  {
    RunLaw(w, p, response);
    hide AllScripts, Send, Delivered, Uploads, Count, AllAsked;
    var scripted := AllScripts(w.scripts, p);
    AllScriptsLaw(w.scripts, p);
    var q := scripted.value.value;
    WrittenConcat(scripted.trace, Send(w, q, response).trace);
    SendWritten(w, q, response);
    NoUploads(scripted.trace);
    NotCounted(scripted.trace, OnBackingIn);
    DeliveredBehind(w, scripted.trace, Send(w, q, response).trace);
  }

  // ----- runs nobody interferes with -----

  /** Hooks that approve and change nothing. */
  ghost predicate Transparent<K(!new), T(!new)>(hooks: seq<Hook<K, T>>) {
    forall i, k, x | 0 <= i < |hooks| :: hooks[i](k, x) == Answer(true, x)
  }

  ghost predicate Quiet<T(!new)>(listeners: seq<Listener<T>>) {
    forall i, x | 0 <= i < |listeners| :: listeners[i](x)
  }

  /** A script whose entering hooks change nothing and that never answers. */
  ghost predicate Silent(s: Script) {
    s.Script? && Transparent(s.onUse) && forall p :: s.remote(p) == NoReply
  }

  lemma {:induction false} AskTransparent<K(!new), T(!new)>(
      kind: Kind, stage: Stage, hooks: seq<Hook<K, T>>, key: K, x: T)
    requires Transparent(hooks)
    ensures Ask(kind, stage, hooks, key, x).value == Some(x)
    ensures Neutral(Ask(kind, stage, hooks, key, x).trace)
  {
    if hooks != [] {
      assert hooks[0](key, x) == Answer(true, x);
      AskTransparent(kind, stage, hooks[1..], key, x);
    }
  }

  lemma {:induction false} TellQuiet<T(!new)>(stage: Stage, listeners: seq<Listener<T>>, x: T)
    requires Quiet(listeners)
    ensures !Failed(Tell(stage, listeners, x))
  {
    if listeners != [] {
      assert listeners[0](x);
      TellQuiet(stage, listeners[1..], x);
    }
  }

  lemma {:induction false} SilentScripts(scripts: seq<Script>, p: Probe)
    requires KnownEnums(p)
    requires forall i | 0 <= i < |scripts| :: Silent(scripts[i])
    ensures AllScripts(scripts, p).value == Some(p) && Neutral(AllScripts(scripts, p).trace)
  {
    if scripts != [] {
      var s := scripts[0];
      AskTransparent(OnUse, Scripting, s.onUse, p.uuid + s.name, ToNetwork(p, s.blankUse));
      RequestRoundTrip(p, p, s.blankUse);
      SilentScripts(scripts[1..], p);
    }
  }

  /**
    A script that answers decides where the request goes and its text, and nothing else: not even
    the uuid, which its answer also carries.
   */
  lemma ScriptRewrites(s: Script, p: Probe, answer: ProbeResponse)
    requires KnownEnums(p) && s.Script? && Transparent(s.onUse) && Transparent(s.onExit)
    requires s.remote(p) == Replied(answer)
    ensures
      var r := OneScript(s, p);
      && r.value.Some?
      && !Vetoed(r.trace)
      && r.value.value.dstIpAddr == answer.dstIpAddr
      && r.value.value.dstIpPort == answer.dstIpPort
      && r.value.value.rawText == answer.responseText
      && r.value.value.(dstIpAddr := p.dstIpAddr, dstIpPort := p.dstIpPort, rawText := p.rawText) == p
  {
    var q := Rewritten(p, answer);
    AskTransparent(OnUse, Scripting, s.onUse, p.uuid + s.name, ToNetwork(p, s.blankUse));
    RequestRoundTrip(p, p, s.blankUse);
    AskTransparent(OnExit, Scripting, s.onExit, q.uuid + s.name, ToNetwork(q, s.blankExit));
    RequestRoundTrip(q, q, s.blankExit);
  }

  /**
    With known enumerations, plugins that change nothing and scripts that stay silent, what the
    front end gets is the probed request without its unknown fields, and what the caller gets is
    the front end's answer with its address and port exchanged.
   */
  lemma PassThrough(w: World, p: Probe, response: ProbeResponse, answer: ProbeResponse)
    requires KnownEnums(p)
    requires forall i | 0 <= i < |w.scripts| :: Silent(w.scripts[i])
    requires Transparent(w.sendingOut) && Quiet(w.requestListeners)
    requires Transparent(w.backingIn) && Quiet(w.responseListeners)
    requires w.upload(p.(unknown := [])) == Replied(answer)
    ensures
      var r := Run(w, p, response);
      && r.status == OK
      && Uploads(r.trace) == [p.(unknown := [])]
      && |r.trace| > 0
      && r.trace[|r.trace| - 1] == Wrote(OntoResponse(FromAnswer(answer), response))
  {
    hide Onto, ToNetwork, OntoResponse, FromAnswer, Uploads;
    SilentScripts(w.scripts, p);
    AskTransparent(OnSendingOut, Sending, w.sendingOut, (), ToNetwork(p, w.blank));
    TellQuiet(Sending, w.requestListeners, ToNetwork(p, w.blank));
    RequestRoundTrip(p, CLEARED, w.blank);
    AskTransparent(OnBackingIn, Returning, w.backingIn, (), FromAnswer(answer));
    TellQuiet(Returning, w.responseListeners, FromAnswer(answer));
    RunLaw(w, p, response);
    TransparentUploads(w, p, response);
  }

  /** What is uploaded is what the hooks before it left, written into a new message. */
  lemma TransparentUploads(w: World, p: Probe, response: ProbeResponse)
    requires AllScripts(w.scripts, p).value == Some(p) && !Vetoed(AllScripts(w.scripts, p).trace)
    requires Transparent(w.sendingOut) && Quiet(w.requestListeners)
    ensures Uploads(Run(w, p, response).trace) == [Onto(ToNetwork(p, w.blank), CLEARED)]
  {
    hide Onto, ToNetwork, Return;
    var scripted := AllScripts(w.scripts, p).trace;
    AllScriptsLaw(w.scripts, p);
    NoUploads(scripted);
    var x := ToNetwork(p, w.blank);
    AskTransparent(OnSendingOut, Sending, w.sendingOut, (), x);
    AskLaw(OnSendingOut, Sending, w.sendingOut, (), x);
    TellQuiet(Sending, w.requestListeners, x);
    TellLaw(Sending, w.requestListeners, x);
    var t := Ask(OnSendingOut, Sending, w.sendingOut, (), x).trace + Tell(Sending, w.requestListeners, x);
    NoUploads(t);
    UploadLaw(w, x, response);
    UploadsConcat(t, Upload(w, x, response).trace);
    UploadsConcat(scripted, Send(w, p, response).trace);
  }

  // ----- the code -----

  lemma AskFrom<K, T>(kind: Kind, stage: Stage, hooks: seq<Hook<K, T>>, i: nat, key: K, x: T)
    requires i < |hooks|
    ensures
      var v := hooks[i](key, x);
      Ask(kind, stage, hooks[i..], key, x) ==
        if v.Throws? then Part([Raised(stage)], None)
        else
          var rest := Ask(kind, stage, hooks[i + 1..], key, v.value);
          Part([Asked(kind, v.approved)] + rest.trace, rest.value)
  {
    assert hooks[i..][1..] == hooks[i + 1..];
  }

  lemma VetoedConcat(a: Trace, b: Trace)
    ensures Vetoed(a + b) <==> Vetoed(a) || Vetoed(b)
  {
    assert forall e :: e in a + b <==> e in a || e in b;
  }

  lemma VetoedOne(k: Kind, approved: bool)
    ensures Vetoed([Asked(k, approved)]) <==> !approved
  {
    assert Asked(k, approved) in [Asked(k, approved)];
  }

  /**
    The loop over all plugins with a hook. The flag is only ever lowered, and it is lowered
    exactly when some hook refused; a refusal does not end the loop.
   */
  method AskAll<K, T>(kind: Kind, stage: Stage, hooks: seq<Hook<K, T>>, key: K, x: T, flag: bool)
      returns (trace: Trace, value: Option<T>, lowered: bool)
    ensures Part(trace, value) == Ask(kind, stage, hooks, key, x)
    ensures lowered == (flag && !Vetoed(trace))
  {
    hide Ask, Vetoed;
    var i, y := 0, x;
    trace, value, lowered := [], Some(x), flag;
    assert !Vetoed([]) by { NothingVetoed(); }
    assert hooks[0..] == hooks;
    while i < |hooks|
      invariant 0 <= i <= |hooks|
      invariant value == Some(y)
      invariant Ask(kind, stage, hooks, key, x).trace == trace + Ask(kind, stage, hooks[i..], key, y).trace
      invariant Ask(kind, stage, hooks, key, x).value == Ask(kind, stage, hooks[i..], key, y).value
      invariant lowered == (flag && !Vetoed(trace))
    {
      AskFrom(kind, stage, hooks, i, key, y);
      var v := hooks[i](key, y);
      if v.Throws? {
        VetoedConcat(trace, [Raised(stage)]);
        RaiseIsNoVeto(stage);
        return trace + [Raised(stage)], None, lowered;
      }
      VetoedConcat(trace, [Asked(kind, v.approved)]);
      VetoedOne(kind, v.approved);
      lowered := lowered && v.approved;
      trace := trace + [Asked(kind, v.approved)];
      y := v.value;
      value := Some(y);
      i := i + 1;
    }
    AskNone(kind, stage, hooks[i..], key, y);
  }

  lemma NothingVetoed()
    ensures !Vetoed([])
  {
  }

  lemma RaiseIsNoVeto(stage: Stage)
    ensures !Vetoed([Raised(stage)])
  {
  }

  lemma AskNone<K, T>(kind: Kind, stage: Stage, hooks: seq<Hook<K, T>>, key: K, x: T)
    requires hooks == []
    ensures Ask(kind, stage, hooks, key, x) == Part([], Some(x))
  {
  }

  lemma TellFrom<T>(stage: Stage, listeners: seq<Listener<T>>, i: nat, x: T)
    requires i < |listeners|
    ensures Tell(stage, listeners[i..], x) ==
      if !listeners[i](x) then [Raised(stage)] else [Told] + Tell(stage, listeners[i + 1..], x)
  {
    assert listeners[i..][1..] == listeners[i + 1..];
  }

  lemma FailedOne(stage: Stage)
    ensures Failed([Raised(stage)]) && !Failed([Told]) && !Failed([])
  {
    assert Raised(stage) in [Raised(stage)];
  }

  lemma TellNone<T>(stage: Stage, listeners: seq<Listener<T>>, x: T)
    requires listeners == []
    ensures Tell(stage, listeners, x) == []
  {
  }

  /** The loop over all plugins with a listener. */
  method TellAll<T>(stage: Stage, listeners: seq<Listener<T>>, x: T) returns (trace: Trace, raised: bool)
    ensures trace == Tell(stage, listeners, x)
    ensures raised == Failed(trace)
  {
    hide Tell, Failed;
    FailedOne(stage);
    trace, raised := [], false;
    var i := 0;
    assert listeners[0..] == listeners;
    while i < |listeners|
      invariant 0 <= i <= |listeners|
      invariant Tell(stage, listeners, x) == trace + Tell(stage, listeners[i..], x)
      invariant !Failed(trace)
    {
      TellFrom(stage, listeners, i, x);
      if !listeners[i](x) {
        FailedConcat(trace, [Raised(stage)]);
        return trace + [Raised(stage)], true;
      }
      FailedConcat(trace, [Told]);
      trace := trace + [Told];
      i := i + 1;
    }
    TellNone(stage, listeners[i..], x);
  }

  /** The turn of the loop for one matching script. */
  method ProcessScript(s: Script, request: Probe, flag: bool)
      returns (trace: Trace, scriptRequest: Option<Probe>, isNormal: bool)
    ensures Part(trace, scriptRequest) == OneScript(s, request)
    ensures isNormal == (flag && !Vetoed(trace))
  {
    hide Ask, Vetoed, Onto, ToNetwork;
    if s.BadPattern? {
      RaiseIsNoVeto(Scripting);
      return [Raised(Scripting)], None, flag;
    }
    var intercept: Option<NetworkRequest>;
    trace, intercept, isNormal :=
      AskAll(OnUse, Scripting, s.onUse, request.uuid + s.name, ToNetwork(request, s.blankUse), flag);
    if intercept.None? {
      return trace, None, isNormal;
    }
    var current := TransNetWorkRequest(intercept.value, request);
    var reply := s.remote(current);
    ConsultedIsNoVeto(current);
    if reply.ReplyThrows? {
      VetoedConcat(trace, [Consulted(current), Raised(Scripting)]);
      return trace + [Consulted(current), Raised(Scripting)], None, isNormal;
    }
    VetoedConcat(trace, [Consulted(current)]);
    trace := trace + [Consulted(current)];
    if reply.NoReply? {
      return trace, Some(current), isNormal;
    }
    current := current.(dstIpAddr := reply.answer.dstIpAddr);
    current := current.(dstIpPort := reply.answer.dstIpPort);
    current := current.(rawText := reply.answer.responseText);
    var left;
    left, intercept, isNormal :=
      AskAll(OnExit, Scripting, s.onExit, current.uuid + s.name, ToNetwork(current, s.blankExit), isNormal);
    VetoedConcat(trace, left);
    trace := trace + left;
    if intercept.None? {
      return trace, None, isNormal;
    }
    current := TransNetWorkRequest(intercept.value, current);
    scriptRequest := Some(current);
  }

  lemma ConsultedIsNoVeto(p: Probe)
    ensures !Vetoed([Consulted(p)]) && !Vetoed([Consulted(p), Raised(Scripting)])
  {
  }

  lemma AllScriptsFrom(scripts: seq<Script>, i: nat, p: Probe)
    requires i < |scripts|
    ensures
      var one := OneScript(scripts[i], p);
      AllScripts(scripts[i..], p) ==
        if one.value.None? then one
        else
          var rest := AllScripts(scripts[i + 1..], one.value.value);
          Part(one.trace + rest.trace, rest.value)
  {
    assert scripts[i..][1..] == scripts[i + 1..];
  }

  /** The loop over the matching scripts. */
  method ProcessMatchScripts(scripts: seq<Script>, request: Probe)
      returns (trace: Trace, scriptRequest: Option<Probe>, isNormal: bool)
    ensures Part(trace, scriptRequest) == AllScripts(scripts, request)
    ensures isNormal == !Vetoed(trace)
  {
    hide OneScript, Vetoed;
    var i, current := 0, request;
    trace, isNormal := [], true;
    NothingVetoed();
    assert scripts[0..] == scripts;
    while i < |scripts|
      invariant 0 <= i <= |scripts|
      invariant AllScripts(scripts, request).trace == trace + AllScripts(scripts[i..], current).trace
      invariant AllScripts(scripts, request).value == AllScripts(scripts[i..], current).value
      invariant isNormal == !Vetoed(trace)
    {
      AllScriptsFrom(scripts, i, current);
      var one;
      one, scriptRequest, isNormal := ProcessScript(scripts[i], current, isNormal);
      VetoedConcat(trace, one);
      trace := trace + one;
      if scriptRequest.None? {
        return;
      }
      current := scriptRequest.value;
      i := i + 1;
    }
    assert scripts[i..] == [];
    scriptRequest := Some(current);
  }

  /** The whole handler. An exception is caught and logged, and the status is then OK. */
  method ProcessProbe(w: World, request: Probe, response: ProbeResponse) returns (r: Result)
    ensures r == Run(w, request, response)
  {
    hide Ask, Tell, AllScripts, Vetoed, Failed, Onto, ToNetwork, OntoResponse;
    var trace, scriptRequest, isNormal := ProcessMatchScripts(w.scripts, request);
    if scriptRequest.None? {
      return Result(OK, trace);
    }
    if !isNormal {
      return Result(CANCELLED, trace);
    }
    var canInto := true;
    var networkRequest: Option<NetworkRequest>;
    var part;
    part, networkRequest, canInto :=
      AskAll(OnSendingOut, Sending, w.sendingOut, (), ToNetwork(scriptRequest.value, w.blank), canInto);
    trace := trace + part;
    if networkRequest.None? {
      return Result(OK, trace);
    }
    if !canInto {
      return Result(CANCELLED, trace);
    }
    var told, raised := TellAll(Sending, w.requestListeners, networkRequest.value);
    var before := trace + told;
    assert before == AllScripts(w.scripts, request).trace + (part + told);
    if raised {
      return Result(OK, before);
    }
    r := UploadAndReturn(w, networkRequest.value, response, canInto);
    assert before + r.trace == AllScripts(w.scripts, request).trace + ((part + told) + r.trace);
    r := Result(r.status, before + r.trace);
  }

  method UploadAndReturn(w: World, networkRequest: NetworkRequest, response: ProbeResponse, flag: bool)
      returns (r: Result)
    requires flag
    ensures r == Upload(w, networkRequest, response)
  {
    hide Ask, Tell, Vetoed, Failed, Onto, OntoResponse, FromAnswer;
    var canInto := flag;
    var netifeProbeRequest := TransNetWorkRequest(networkRequest, CLEARED);
    var reply := w.upload(netifeProbeRequest);
    var sent := [Uploaded(netifeProbeRequest)];
    if reply.ReplyThrows? {
      assert sent + [Raised(Uploading)] == [Uploaded(netifeProbeRequest), Raised(Uploading)];
      return Result(OK, sent + [Raised(Uploading)]);
    }
    if reply.NoReply? {
      assert sent + [Unanswered] == [Uploaded(netifeProbeRequest), Unanswered];
      return Result(CANCELLED, sent + [Unanswered]);
    }
    var part, networkResponse;
    part, networkResponse, canInto :=
      AskAll(OnBackingIn, Returning, w.backingIn, (), FromAnswer(reply.answer), canInto);
    if networkResponse.None? {
      return Result(OK, sent + part);
    }
    if !canInto {
      return Result(CANCELLED, sent + part);
    }
    var told, raised := TellAll(Returning, w.responseListeners, networkResponse.value);
    if raised {
      assert sent + (part + told) == sent + part + told;
      return Result(OK, sent + part + told);
    }
    var written := OntoResponse(networkResponse.value, response);
    assert sent + (part + told + [Wrote(written)]) == sent + part + told + [Wrote(written)];
    return Result(OK, sent + part + told + [Wrote(written)]);
  }
}
