/**
  What a run of the pipeline amounts to, told from the answers of the hooks alone: the value a list
  of hooks leaves, whether one of them refuses, the request each script is consulted with, the
  request that is uploaded and the response that is written. None of these definitions looks at
  the parts of a run or at its trace; the lemmas say that every run comes to them.
 */
module ProbeOutcome {
  import opened Wrappers
  import Wire
  import opened ProbeRequest
  import opened ProcessProbe

  // ----- hooks -----

  /** What a hook makes of the value it is handed. */
  function Change<K, T>(v: Option<T>, h: Hook<K, T>, key: K): Option<T> {
    if v.None? || h(key, v.value).Throws? then None else Some(h(key, v.value).value)
  }

  /** The value x after all these hooks have changed it in turn. */
  function LeftBy<K, T>(hooks: seq<Hook<K, T>>, key: K, x: T): Option<T> {
    if hooks == [] then Some(x)
    else Change(LeftBy(hooks[..|hooks| - 1], key, x), hooks[|hooks| - 1], key)
  }

  /** What the k-th hook says when its turn comes, None if an earlier one threw. */
  function Turn<K, T>(hooks: seq<Hook<K, T>>, k: nat, key: K, x: T): Option<Verdict<T>>
    requires k < |hooks|
  {
    var y := LeftBy(hooks[..k], key, x);
    if y.None? then None else Some(hooks[k](key, y.value))
  }

  predicate RefusesAt<K, T>(hooks: seq<Hook<K, T>>, k: nat, key: K, x: T) {
    && k < |hooks|
    && var v := Turn(hooks, k, key, x);
       v.Some? && v.value.Answer? && !v.value.approved
  }

  predicate Refuses<K, T>(hooks: seq<Hook<K, T>>, key: K, x: T) {
    exists k: nat | k < |hooks| :: RefusesAt(hooks, k, key, x)
  }

  function Said<T>(kind: Kind, stage: Stage, v: Verdict<T>): Event {
    if v.Throws? then Raised(stage) else Asked(kind, v.approved)
  }

  /** The trace of a loop over hooks is what each of them says to what all before it left. */
  predicate Sayings<K, T>(kind: Kind, stage: Stage, hooks: seq<Hook<K, T>>, key: K, x: T, t: Trace) {
    && |t| <= |hooks|
    && forall k: nat | k < |hooks| ::
         && (k < |t| <==> Turn(hooks, k, key, x).Some?)
         && (k < |t| ==> t[k] == Said(kind, stage, Turn(hooks, k, key, x).value))
  }

  lemma TurnBefore<K, T>(hooks: seq<Hook<K, T>>, h: Hook<K, T>, k: nat, key: K, x: T)
    requires k < |hooks|
    ensures Turn(hooks + [h], k, key, x) == Turn(hooks, k, key, x)
  {
    assert (hooks + [h])[..k] == hooks[..k];
  }

  lemma LeftByOneMore<K, T>(hooks: seq<Hook<K, T>>, h: Hook<K, T>, key: K, x: T)
    ensures LeftBy(hooks + [h], key, x) == Change(LeftBy(hooks, key, x), h, key)
  {
    assert (hooks + [h])[..|hooks|] == hooks;
  }

  /** The loop leaves the value that the hooks leave, and in its trace what each of them said. */
  lemma {:induction false} AskSays<K, T>(kind: Kind, stage: Stage, hooks: seq<Hook<K, T>>, key: K, x: T)
    ensures
      var r := Ask(kind, stage, hooks, key, x);
      && r.value == LeftBy(hooks, key, x)
      && Sayings(kind, stage, hooks, key, x, r.trace)
      && (r.value.Some? ==> |r.trace| == |hooks|)
  {
    if hooks != [] {
      var before, h := hooks[..|hooks| - 1], hooks[|hooks| - 1];
      assert hooks == before + [h];
      AskSays(kind, stage, before, key, x);
      HookAfterHooks(kind, stage, before, h, key, x);
      LeftByOneMore(before, h, key, x);
      SayingsOneMore(kind, stage, before, h, key, x);
    }
  }

  lemma SayingsOneMore<K, T>(
      kind: Kind, stage: Stage, before: seq<Hook<K, T>>, h: Hook<K, T>, key: K, x: T)
    requires
      var r := Ask(kind, stage, before, key, x);
      && r.value == LeftBy(before, key, x)
      && Sayings(kind, stage, before, key, x, r.trace)
      && (r.value.Some? ==> |r.trace| == |before|)
    ensures
      var n := Next(kind, stage, Ask(kind, stage, before, key, x), h, key);
      Sayings(kind, stage, before + [h], key, x, n.trace)
  {
    hide Ask, LeftBy;
    var hooks := before + [h];
    forall k: nat | k < |before| {
      TurnBefore(before, h, k, key, x);
    }
    assert hooks[..|before|] == before;
  }

  /** A veto is in the trace exactly when a hook whose turn came refused. */
  lemma VetoedMeansRefused<K, T>(kind: Kind, stage: Stage, hooks: seq<Hook<K, T>>, key: K, x: T)
    ensures Vetoed(Ask(kind, stage, hooks, key, x).trace) <==> Refuses(hooks, key, x)
  {
    AskSays(kind, stage, hooks, key, x);
    hide Ask, Turn;
    var t := Ask(kind, stage, hooks, key, x).trace;
    if Vetoed(t) {
      var e :| e in t && Refusal(e);
      var k: nat :| k < |t| && t[k] == e;
      assert RefusesAt(hooks, k, key, x);
    }
    if Refuses(hooks, key, x) {
      var k: nat :| k < |hooks| && RefusesAt(hooks, k, key, x);
      assert Refusal(t[k]);
    }
  }

  // ----- listeners -----

  /** No listener throws when told x. */
  predicate Heard<T>(listeners: seq<Listener<T>>, x: T) {
    forall k | 0 <= k < |listeners| :: listeners[k](x)
  }

  /** Every listener is told the same value, up to the first that throws. */
  lemma {:induction false} TellSays<T>(stage: Stage, listeners: seq<Listener<T>>, x: T)
    ensures
      var t := Tell(stage, listeners, x);
      && |t| <= |listeners|
      && (forall k | 0 <= k < |t| :: t[k] == if listeners[k](x) then Told else Raised(stage))
      && (forall k | 0 <= k < |t| - 1 :: t[k] == Told)
      && (Failed(t) <==> !Heard(listeners, x))
      && (|t| == |listeners| || Failed(t))
  {
    if listeners != [] {
      if listeners[0](x) {
        TellSays(stage, listeners[1..], x);
        FailedConcat([Told], Tell(stage, listeners[1..], x));
        assert Heard(listeners, x) <==> Heard(listeners[1..], x) by {
          assert forall k | 0 <= k < |listeners| - 1 :: listeners[1..][k] == listeners[k + 1];
          if Heard(listeners[1..], x) {
            assert forall k | 0 < k < |listeners| :: listeners[k] == listeners[1..][k - 1];
          }
        }
      } else {
        FailedOne(stage);
      }
    }
  }

  // ----- scripts -----

  /** A message seen and changed by hooks: translated for them and written back over itself. */
  function Edited(p: Probe, hooks: seq<RequestHook>, key: Wire.Bytes, blank: NetworkRequest): Option<Probe> {
    var left := LeftBy(hooks, key, ToNetwork(p, blank));
    if left.None? then None else Some(Onto(left.value, p))
  }

  /** The request with which a script is consulted that p has reached. */
  function ConsultedWith(s: Script, p: Probe): Option<Probe> {
    if s.BadPattern? then None else Edited(p, s.onUse, p.uuid + s.name, s.blankUse)
  }

  /** The request that a script leaves for the next one. */
  function LeftByScript(s: Script, p: Probe): Option<Probe> {
    var q := ConsultedWith(s, p);
    if q.None? then None
    else
      match s.remote(q.value)
      case ReplyThrows => None
      case NoReply => q
      case Replied(a) =>
        var r := q.value.(dstIpAddr := a.dstIpAddr, dstIpPort := a.dstIpPort, rawText := a.responseText);
        Edited(r, s.onExit, r.uuid + s.name, s.blankExit)
  }

  function LeftByScripts(scripts: seq<Script>, p: Probe): Option<Probe> {
    if scripts == [] then Some(p)
    else
      var q := LeftByScript(scripts[0], p);
      if q.None? then None else LeftByScripts(scripts[1..], q.value)
  }

  /** The request with which the k-th script is consulted, if it is. */
  function Consultation(scripts: seq<Script>, k: nat, p: Probe): Option<Probe>
    requires k < |scripts|
  {
    var q := LeftByScripts(scripts[..k], p);
    if q.None? then None else ConsultedWith(scripts[k], q.value)
  }

  /** One of the hooks around this script refuses. */
  predicate ScriptRefuses(s: Script, p: Probe) {
    && s.Script?
    && (|| Refuses(s.onUse, p.uuid + s.name, ToNetwork(p, s.blankUse))
        || var q := ConsultedWith(s, p);
           && q.Some?
           && s.remote(q.value).Replied?
           && var a := s.remote(q.value).answer;
              var r := q.value.(dstIpAddr := a.dstIpAddr, dstIpPort := a.dstIpPort, rawText := a.responseText);
              Refuses(s.onExit, r.uuid + s.name, ToNetwork(r, s.blankExit)))
  }

  predicate ScriptsRefuse(scripts: seq<Script>, p: Probe) {
    && scripts != []
    && (|| ScriptRefuses(scripts[0], p)
        || var q := LeftByScript(scripts[0], p);
           q.Some? && ScriptsRefuse(scripts[1..], q.value))
  }

  lemma ScriptValue(s: Script, p: Probe)
    ensures OneScript(s, p).value == LeftByScript(s, p)
    ensures Vetoed(OneScript(s, p).trace) <==> ScriptRefuses(s, p)
    ensures Consultations(OneScript(s, p).trace) ==
              if ConsultedWith(s, p).Some? then [ConsultedWith(s, p).value] else []
  {
    hide Ask, LeftBy, Refuses, Onto, ToNetwork, Vetoed, Consultations;
    if s.BadPattern? {
      RaiseIsNoVeto(Scripting);
      NoConsultations([Raised(Scripting)]);
    } else {
      var x := ToNetwork(p, s.blankUse);
      var asked := Ask(OnUse, Scripting, s.onUse, p.uuid + s.name, x);
      AskSays(OnUse, Scripting, s.onUse, p.uuid + s.name, x);
      VetoedMeansRefused(OnUse, Scripting, s.onUse, p.uuid + s.name, x);
      AskLaw(OnUse, Scripting, s.onUse, p.uuid + s.name, x);
      NoConsultations(asked.trace);
      if asked.value.Some? {
        var q := Onto(asked.value.value, p);
        ConsultValue(s, q);
        VetoedConcat(asked.trace, Consult(s, q).trace);
        ConsultationsConcat(asked.trace, Consult(s, q).trace);
      }
    }
  }

  lemma ConsultValue(s: Script, q: Probe)
    requires s.Script?
    ensures
      var c := Consult(s, q);
      match s.remote(q)
      case ReplyThrows => c.value == None && !Vetoed(c.trace)
      case NoReply => c.value == Some(q) && !Vetoed(c.trace)
      case Replied(a) =>
        var r := q.(dstIpAddr := a.dstIpAddr, dstIpPort := a.dstIpPort, rawText := a.responseText);
        && c.value == Edited(r, s.onExit, r.uuid + s.name, s.blankExit)
        && (Vetoed(c.trace) <==> Refuses(s.onExit, r.uuid + s.name, ToNetwork(r, s.blankExit)))
    ensures Consultations(Consult(s, q).trace) == [q]
  {
    hide Ask, LeftBy, Refuses, Onto, ToNetwork, Vetoed, Consultations;
    ConsultedIsNoVeto(q);
    ConsultLaw(s, q);
    var c := Consult(s, q).trace;
    ConsultationsConcat([Consulted(q)], c[1..]);
    NoConsultations(c[1..]);
    OneConsultation(q);
    assert c == [Consulted(q)] + c[1..];
    if s.remote(q).Replied? {
      var r := Rewritten(q, s.remote(q).answer);
      var x := ToNetwork(r, s.blankExit);
      AskSays(OnExit, Scripting, s.onExit, r.uuid + s.name, x);
      VetoedMeansRefused(OnExit, Scripting, s.onExit, r.uuid + s.name, x);
      VetoedConcat([Consulted(q)], Leave(s, r).trace);
    }
  }

  lemma OneConsultation(q: Probe)
    ensures Consultations([Consulted(q)]) == [q]
  {
    CarriedByOne(Consulted(q), Shown);
  }

  /** Every consultation of a run, and none besides. */
  predicate ConsultedAsDue(scripts: seq<Script>, p: Probe, asked: seq<Probe>) {
    && |asked| <= |scripts|
    && forall k: nat | k < |scripts| ::
         && (k < |asked| <==> Consultation(scripts, k, p).Some?)
         && (k < |asked| ==> Some(asked[k]) == Consultation(scripts, k, p))
  }

  /**
    The loop over the scripts leaves what the scripts leave, vetoes when a hook around one of them
    refuses, and consults each script with what its entering hooks left of what the script before
    it had left.
   */
  lemma {:induction false} ScriptsValue(scripts: seq<Script>, p: Probe)
    ensures AllScripts(scripts, p).value == LeftByScripts(scripts, p)
    ensures Vetoed(AllScripts(scripts, p).trace) <==> ScriptsRefuse(scripts, p)
    ensures ConsultedAsDue(scripts, p, Consultations(AllScripts(scripts, p).trace))
  {
    if scripts == [] {
      NothingVetoed();
      assert Consultations([]) == [];
    } else {
      hide OneScript, LeftByScript, ScriptRefuses, ConsultedWith, Vetoed, Consultations, ConsultedAsDue;
      var s, rest := scripts[0], scripts[1..];
      var one := OneScript(s, p);
      ScriptValue(s, p);
      if one.value.Some? {
        var q := one.value.value;
        ScriptsValue(rest, q);
        VetoedConcat(one.trace, AllScripts(rest, q).trace);
        ConsultationsConcat(one.trace, AllScripts(rest, q).trace);
        DueStep(s, rest, p, q, Consultations(AllScripts(rest, q).trace));
        assert [s] + rest == scripts;
      } else {
        DueStop(s, rest, p);
        assert [s] + rest == scripts;
      }
    }
  }

  lemma ConsultationLater(s: Script, rest: seq<Script>, p: Probe, k: nat)
    requires k < |rest|
    ensures Consultation([s] + rest, k + 1, p) ==
              if LeftByScript(s, p).None? then None else Consultation(rest, k, LeftByScript(s, p).value)
  {
    hide LeftByScript, ConsultedWith;
    var scripts := [s] + rest;
    assert scripts[..k + 1] == [s] + rest[..k];
    assert ([s] + rest[..k])[1..] == rest[..k];
  }

  lemma DueStep(s: Script, rest: seq<Script>, p: Probe, q: Probe, asked: seq<Probe>)
    requires LeftByScript(s, p) == Some(q) && ConsultedAsDue(rest, q, asked)
    ensures ConsultedWith(s, p).Some?
    ensures ConsultedAsDue([s] + rest, p, [ConsultedWith(s, p).value] + asked)
  {
    var scripts, all := [s] + rest, [ConsultedWith(s, p).value] + asked;
    hide LeftByScript, ConsultedWith;
    assert scripts[..0] == [];
    forall k: nat | k < |scripts|
      ensures k < |all| <==> Consultation(scripts, k, p).Some?
      ensures k < |all| ==> Some(all[k]) == Consultation(scripts, k, p)
    {
      if k > 0 {
        ConsultationLater(s, rest, p, k - 1);
      }
    }
  }

  lemma DueStop(s: Script, rest: seq<Script>, p: Probe)
    requires LeftByScript(s, p).None?
    ensures ConsultedAsDue([s] + rest, p, if ConsultedWith(s, p).Some? then [ConsultedWith(s, p).value] else [])
  {
    var scripts := [s] + rest;
    hide LeftByScript, ConsultedWith;
    assert scripts[..0] == [];
    forall k: nat | 0 < k < |scripts|
      ensures Consultation(scripts, k, p).None?
    {
      ConsultationLater(s, rest, p, k - 1);
    }
  }

  // ----- what goes out and what comes back -----

  /** Hooks and listeners that let x through: none refuses, none throws. */
  predicate Passes<T>(hooks: seq<Hook<(), T>>, listeners: seq<Listener<T>>, x: T) {
    && LeftBy(hooks, (), x).Some?
    && !Refuses(hooks, (), x)
    && Heard(listeners, LeftBy(hooks, (), x).value)
  }

  /** The request that is sent to the front end, if any. */
  function Outgoing(w: World, p: Probe): Option<Probe> {
    var q := LeftByScripts(w.scripts, p);
    if q.None? || ScriptsRefuse(w.scripts, p) then None
    else
      var x := ToNetwork(q.value, w.blank);
      if !Passes(w.sendingOut, w.requestListeners, x) then None
      else Some(Onto(LeftBy(w.sendingOut, (), x).value, CLEARED))
  }

  /** The response that is written over the caller's, if any. */
  function Incoming(w: World, sent: Probe, response: ProbeResponse): Option<ProbeResponse> {
    var reply := w.upload(sent);
    if !reply.Replied? || !Passes(w.backingIn, w.responseListeners, FromAnswer(reply.answer)) then None
    else Some(OntoResponse(LeftBy(w.backingIn, (), FromAnswer(reply.answer)).value, response))
  }

  /** The zero or one value of an option. */
  function AsSeq<T>(o: Option<T>): (s: seq<T>)
    ensures |s| <= 1
  {
    if o.Some? then [o.value] else []
  }

  lemma ReturnWrites(w: World, a: ProbeResponse, response: ProbeResponse)
    ensures
      Writes(Return(w, a, response).trace) ==
        if Passes(w.backingIn, w.responseListeners, FromAnswer(a))
        then [OntoResponse(LeftBy(w.backingIn, (), FromAnswer(a)).value, response)]
        else []
  {
    hide Ask, Tell, LeftBy, Refuses, Heard, OntoResponse, FromAnswer, Vetoed, Failed, Writes;
    var x := FromAnswer(a);
    var asked := Ask(OnBackingIn, Returning, w.backingIn, (), x);
    AskSays(OnBackingIn, Returning, w.backingIn, (), x);
    AskLaw(OnBackingIn, Returning, w.backingIn, (), x);
    VetoedMeansRefused(OnBackingIn, Returning, w.backingIn, (), x);
    NoWrites(asked.trace);
    if asked.value.Some? && !Vetoed(asked.trace) {
      var told := Tell(Returning, w.responseListeners, asked.value.value);
      TellSays(Returning, w.responseListeners, asked.value.value);
      TellLaw(Returning, w.responseListeners, asked.value.value);
      NoWrites(asked.trace + told);
      if !Failed(told) {
        var written := OntoResponse(asked.value.value, response);
        WritesConcat(asked.trace + told, [Wrote(written)]);
        OneWrite(written);
      }
    }
  }

  lemma OneWrite(response: ProbeResponse)
    ensures Writes([Wrote(response)]) == [response]
  {
    CarriedByOne(Wrote(response), Given);
  }

  lemma UploadWrites(w: World, r: NetworkRequest, response: ProbeResponse)
    ensures Uploads(Upload(w, r, response).trace) == [Onto(r, CLEARED)]
    ensures Writes(Upload(w, r, response).trace) == AsSeq(Incoming(w, Onto(r, CLEARED), response))
  {
    UploadLaw(w, r, response);
    hide Onto, Return, Passes, LeftBy, Writes, OntoResponse, FromAnswer, Uploads;
    var p := Onto(r, CLEARED);
    var reply := w.upload(p);
    if reply.Replied? {
      ReturnWrites(w, reply.answer, response);
      WritesConcat([Uploaded(p)], Return(w, reply.answer, response).trace);
      NoWrites([Uploaded(p)]);
    } else {
      NoWrites(Upload(w, r, response).trace);
    }
  }

  lemma SendWrites(w: World, p: Probe, response: ProbeResponse)
    ensures
      var x := ToNetwork(p, w.blank);
      var t := Send(w, p, response).trace;
      if Passes(w.sendingOut, w.requestListeners, x) then
        var sent := Onto(LeftBy(w.sendingOut, (), x).value, CLEARED);
        Uploads(t) == [sent] && Writes(t) == AsSeq(Incoming(w, sent, response))
      else
        Uploads(t) == [] && Writes(t) == []
  {
    hide Ask, Tell, LeftBy, Refuses, Heard, ToNetwork, Onto, Upload, Incoming, Vetoed, Failed, Writes, Uploads;
    var x := ToNetwork(p, w.blank);
    var asked := Ask(OnSendingOut, Sending, w.sendingOut, (), x);
    AskSays(OnSendingOut, Sending, w.sendingOut, (), x);
    AskLaw(OnSendingOut, Sending, w.sendingOut, (), x);
    VetoedMeansRefused(OnSendingOut, Sending, w.sendingOut, (), x);
    NoWrites(asked.trace);
    NoUploads(asked.trace);
    if asked.value.Some? && !Vetoed(asked.trace) {
      var told := Tell(Sending, w.requestListeners, asked.value.value);
      TellSays(Sending, w.requestListeners, asked.value.value);
      TellLaw(Sending, w.requestListeners, asked.value.value);
      NoWrites(asked.trace + told);
      NoUploads(asked.trace + told);
      if !Failed(told) {
        UploadWrites(w, asked.value.value, response);
        WritesConcat(asked.trace + told, Upload(w, asked.value.value, response).trace);
        UploadsConcat(asked.trace + told, Upload(w, asked.value.value, response).trace);
      }
    }
  }

  /**
    Every run. The scripts are consulted with what their entering hooks left. What is uploaded is
    what the sending-out hooks left of what the scripts left, written into a new message, and it is
    uploaded exactly when nothing before refuses or throws. What is written is what the backing-in
    hooks left of the front end's answer to it.
   */
  lemma RunValues(w: World, p: Probe, response: ProbeResponse)
    ensures
      var t := Run(w, p, response).trace;
      && ConsultedAsDue(w.scripts, p, Consultations(t))
      && Uploads(t) == AsSeq(Outgoing(w, p))
      && Writes(t) ==
           if Outgoing(w, p).Some? then AsSeq(Incoming(w, Outgoing(w, p).value, response)) else []
  {
    hide AllScripts, Send, LeftBy, LeftByScripts, ScriptsRefuse, Passes, ToNetwork, Onto, Incoming;
    hide Vetoed, Writes, Uploads, Consultations, ConsultedAsDue;
    var scripted := AllScripts(w.scripts, p);
    ScriptsValue(w.scripts, p);
    AllScriptsLaw(w.scripts, p);
    NoWrites(scripted.trace);
    NoUploads(scripted.trace);
    if scripted.value.Some? && !Vetoed(scripted.trace) {
      var q := scripted.value.value;
      SendWrites(w, q, response);
      SendConsults(w, q, response);
      var sent := Send(w, q, response).trace;
      WritesConcat(scripted.trace, sent);
      UploadsConcat(scripted.trace, sent);
      ConsultationsConcat(scripted.trace, sent);
      assert Consultations(scripted.trace) + [] == Consultations(scripted.trace);
    }
  }

  lemma SendConsults(w: World, p: Probe, response: ProbeResponse)
    ensures Consultations(Send(w, p, response).trace) == []
  {
    hide Ask, Tell, Onto, ToNetwork, OntoResponse, FromAnswer, Vetoed, Failed, Consultations;
    var x := ToNetwork(p, w.blank);
    AskLaw(OnSendingOut, Sending, w.sendingOut, (), x);
    var asked := Ask(OnSendingOut, Sending, w.sendingOut, (), x);
    if asked.value.Some? {
      var r := asked.value.value;
      TellLaw(Sending, w.requestListeners, r);
      var reply := w.upload(Onto(r, CLEARED));
      if reply.Replied? {
        var y := FromAnswer(reply.answer);
        var back := Ask(OnBackingIn, Returning, w.backingIn, (), y);
        AskLaw(OnBackingIn, Returning, w.backingIn, (), y);
        if back.value.Some? {
          TellLaw(Returning, w.responseListeners, back.value.value);
        }
      }
    }
    NoConsultations(Send(w, p, response).trace);
  }

  /**
    The status: CANCELLED exactly when a hook around the scripts refuses, one on the way out, the
    front end keeps silent, or one on the way back refuses, and nothing throws up to that point.
   */
  lemma RunCancelled(w: World, p: Probe, response: ProbeResponse)
    ensures Run(w, p, response).status.CANCELLED? <==>
      var q := LeftByScripts(w.scripts, p);
      && q.Some?
      && (|| ScriptsRefuse(w.scripts, p)
          || var x := ToNetwork(q.value, w.blank);
             || (LeftBy(w.sendingOut, (), x).Some? && Refuses(w.sendingOut, (), x))
             || (Outgoing(w, p).Some? &&
                 match w.upload(Outgoing(w, p).value)
                 case ReplyThrows => false
                 case NoReply => true
                 case Replied(a) =>
                   LeftBy(w.backingIn, (), FromAnswer(a)).Some? && Refuses(w.backingIn, (), FromAnswer(a))))
  {
    hide AllScripts, Ask, Tell, LeftBy, LeftByScripts, ScriptsRefuse, Refuses, Heard, ToNetwork, Onto;
    hide OntoResponse, FromAnswer, Vetoed, Failed;
    ScriptsValue(w.scripts, p);
    var scripted := AllScripts(w.scripts, p);
    if scripted.value.Some? {
      var x := ToNetwork(scripted.value.value, w.blank);
      AskSays(OnSendingOut, Sending, w.sendingOut, (), x);
      VetoedMeansRefused(OnSendingOut, Sending, w.sendingOut, (), x);
      var asked := Ask(OnSendingOut, Sending, w.sendingOut, (), x);
      if asked.value.Some? {
        var r := asked.value.value;
        TellSays(Sending, w.requestListeners, r);
        var reply := w.upload(Onto(r, CLEARED));
        if reply.Replied? {
          var y := FromAnswer(reply.answer);
          AskSays(OnBackingIn, Returning, w.backingIn, (), y);
          VetoedMeansRefused(OnBackingIn, Returning, w.backingIn, (), y);
        }
      }
    }
  }

  /**
    A hook's change of one field is a change of that field of the message and of no other; only an
    enumeration outside its range and an optional taken away change nothing.
   */
  lemma EditsReachTheMessage(r: NetworkRequest, p: Probe, text: Wire.Bytes, n: Wire.Int32, raw: bool)
    ensures Onto(r.(uuid := text), p) == Onto(r, p).(uuid := text)
    ensures Onto(r.(dstIpAddr := text), p) == Onto(r, p).(dstIpAddr := text)
    ensures Onto(r.(dstIpPort := text), p) == Onto(r, p).(dstIpPort := text)
    ensures Onto(r.(srcIpAddr := text), p) == Onto(r, p).(srcIpAddr := text)
    ensures Onto(r.(srcIpPort := text), p) == Onto(r, p).(srcIpPort := text)
    ensures Onto(r.(rawText := text), p) == Onto(r, p).(rawText := text)
    ensures Onto(r.(isRawText := raw), p) == Onto(r, p).(isRawText := raw)
    ensures Onto(r.(uuidSub := Some(n)), p) == Onto(r, p).(uuidSub := Some(n))
    ensures Onto(r.(pid := Some(text)), p) == Onto(r, p).(pid := Some(text))
    ensures Onto(r.(processName := Some(text)), p) == Onto(r, p).(processName := Some(text))
    ensures 0 <= n <= 5 ==> Onto(r.(requestType := n), p) == Onto(r, p).(requestType := n)
    ensures 0 <= n <= 1 ==> Onto(r.(applicationType := n), p) == Onto(r, p).(applicationType := n)
    ensures 0 <= n <= 1 ==> Onto(r.(protocol := n), p) == Onto(r, p).(protocol := n)
    ensures !(0 <= n <= 5) ==> Onto(r.(requestType := n), p).requestType == p.requestType
    ensures !(0 <= n <= 1) ==> Onto(r.(applicationType := n), p).applicationType == p.applicationType
    ensures !(0 <= n <= 1) ==> Onto(r.(protocol := n), p).protocol == p.protocol
    ensures Onto(r.(uuidSub := None), p).uuidSub == p.uuidSub
    ensures Onto(r.(pid := None), p).pid == p.pid
    ensures Onto(r.(processName := None), p).processName == p.processName
  {
  }

  /** The same of a response, but for the address and the port, each of which becomes the other. */
  lemma EditsReachTheResponse(n: NetworkResponse, response: ProbeResponse, text: Wire.Bytes)
    ensures OntoResponse(n.(uuid := text), response) == OntoResponse(n, response).(uuid := text)
    ensures OntoResponse(n.(responseText := text), response) == OntoResponse(n, response).(responseText := text)
    ensures OntoResponse(n.(dstIpAddr := text), response) == OntoResponse(n, response).(dstIpPort := text)
    ensures OntoResponse(n.(dstIpPort := text), response) == OntoResponse(n, response).(dstIpAddr := text)
    ensures OntoResponse(n, response).unknown == response.unknown
  {
  }
}
