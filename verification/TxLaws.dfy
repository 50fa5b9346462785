/**
 What the arbiter must do, beside what it may: when it accepts, what it answers,
 that it sends, and that the drain hook and its timer run.
 */
module TxLaws {
  import opened CArith
  import opened Tx
  import opened TxRuns

  // ----- what a request leaves alone

  /** A request, at any depth of re-entry, only appends to the log, keeps the channel and accepts no response. */
  ghost predicate Extends(s: State, t: State) {
    s.log <= t.log && t.cid == s.cid && RespIns(t.log) == RespIns(s.log) && FrameIns(t.log) == FrameIns(s.log) &&
    FramesDropped(t.log) == FramesDropped(s.log)
  }

  lemma EventExtends(s: State, t: State, e: Event)
    requires t.log == s.log + [e] && t.cid == s.cid && !e.RespAccepted? && !e.FrameStored? && !e.FrameDropped?
    ensures Extends(s, t)
  {
    assert Before(s.log + [e]) == s.log && Last(s.log + [e]) == e;
  }

  lemma SendExtends(s: State, ok: bool)
    ensures Extends(s, SendOne(s, ok)) && Extends(SendOne(s, ok), DrainCheck(SendOne(s, ok)))
  {
    var t := SendOne(s, ok);
    if ok && s.resps != [] { EventExtends(s, t, RespSent(s.resps[0])); }
    else if ok && s.frames != [] { EventExtends(s, t, FrameSent(s.frames[0])); }
    if DrainCheck(t) != t { EventExtends(t, DrainCheck(t), Drained(t.hook.id)); }
  }

  lemma ExtendsTwice(s: State, t: State, u: State)
    requires Extends(s, t) && Extends(t, u)
    ensures Extends(s, u)
  {
  }

  lemma {:induction false} CallbackExtends(s: State, ok: bool, sync: seq<bool>)
    ensures Extends(s, CanSendNow(s, ok, sync))
    decreases Queued(s), if ok && Queued(s) > 0 then 0 else 2
  {
    var a := s.(pending := false);
    assert Extends(s, a);
    if s.cid != 0 {
      SendExtends(a, ok);
      var u := DrainCheck(SendOne(a, ok));
      RequestExtends(u, sync);
      hide Extends, SendOne, DrainCheck, RequestIfNeeded;
      ExtendsTwice(s, a, SendOne(a, ok));
      ExtendsTwice(s, SendOne(a, ok), u);
      ExtendsTwice(s, u, RequestIfNeeded(u, sync));
    }
  }

  lemma {:induction false} RequestExtends(s: State, sync: seq<bool>)
    ensures Extends(s, RequestIfNeeded(s, sync))
    decreases Queued(s), 1
  {
    if s.cid != 0 && !s.pending && Queued(s) > 0 {
      var p := s.(pending := true);
      assert Extends(s, p);
      if sync != [] && sync[0] {
        CallbackExtends(p, true, sync[1..]);
        ExtendsTwice(s, p, CanSendNow(p, true, sync[1..]));
      }
    }
  }

  // ----- acceptance and result codes

  /**
   A response is accepted after any run exactly when it fits and fewer than three
   are waiting; only then does it join the accepted ones, else nothing changes,
   and the answer says which.
   */
  lemma ResponseAcceptedExactly(ops: seq<Op>, m: Msg, sync: seq<bool>)
    ensures var s := Run(ops);
            var (rc, t) := EnqueueResponse(s, m, sync);
            (rc == Ok <==> |m| <= 64 && |RespQueue(s.log)| < 3) && (rc == E2Big <==> |m| > 64) &&
            (rc == ENoSpc <==> |m| <= 64 && |RespQueue(s.log)| >= 3) &&
            RespIns(t.log) == RespIns(s.log) + (if rc == Ok then [m] else []) && (rc != Ok ==> t == s)
  {
    EveryRunIsLegal(ops);
    var s := Run(ops);
    if |m| <= 64 && |s.resps| != RESPONSE_DEPTH - 1 {
      var a := Emit(s, RespAccepted(m)).(resps := s.resps + [m]);
      InsStep(s.log, RespAccepted(m));
      RequestExtends(a, sync);
    }
    hide RequestIfNeeded, RespQueue, RespIns, Run, Legal, FrameQueue;
  }

  /**
   A frame is refused exactly when it is empty or too long; every other frame is
   stored, and the answer reports a full ring exactly when a frame was dropped for it.
   */
  lemma FrameAnswer(ops: seq<Op>, m: Msg, sync: seq<bool>)
    ensures var s := Run(ops);
            var (rc, t) := EnqueueFrame(s, m, sync);
            (rc == E2Big <==> |m| == 0 || |m| > 1408) && (rc == E2Big ==> t == s) &&
            (rc != E2Big ==> FrameIns(t.log) == FrameIns(s.log) + [m]) &&
            (rc == ENoSpc <==> 0 < |m| <= 1408 && |FrameQueue(s.log)| == 7) &&
            FramesDropped(t.log) == FramesDropped(s.log) + (if rc == ENoSpc then 1 else 0) && (rc == Ok || rc == ENoSpc || rc == E2Big)
  {
    EveryRunIsLegal(ops);
    FrameEffect(Run(ops), m, sync);
    hide RequestIfNeeded, RespQueue, FrameIns, Run, Legal, FrameQueue, FramesDropped, MakeRoom;
  }

  lemma FrameEffect(s: State, m: Msg, sync: seq<bool>)
    requires 0 < |m| <= FRAME_MAX_SIZE ==> |s.frames| <= RING_DEPTH - 1
    ensures var t := EnqueueFrame(s, m, sync).1;
            0 < |m| <= FRAME_MAX_SIZE ==>
              FrameIns(t.log) == FrameIns(s.log) + [m] &&
              FramesDropped(t.log) == FramesDropped(s.log) + if |s.frames| == RING_DEPTH - 1 then 1 else 0
  {
    if 0 < |m| <= FRAME_MAX_SIZE {
      var r := MakeRoom(s);
      var u := Emit(r, FrameStored(m)).(frames := r.frames + [m]);
      hide RequestIfNeeded, FrameIns, FramesDropped;
      if |s.frames| == RING_DEPTH - 1 { StoredStep(s.log, FrameDropped(s.frames[0])); }
      StoredStep(r.log, FrameStored(m));
      RequestExtends(u, sync);
    }
  }

  lemma StoredStep(h: seq<Event>, e: Event)
    ensures FrameIns(h + [e]) == FrameIns(h) + if e.FrameStored? then [e.m] else []
    ensures FramesDropped(h + [e]) == FramesDropped(h) + if e.FrameDropped? then 1 else 0
  {
    assert Before(h + [e]) == h && Last(h + [e]) == e;
  }

  // ----- sending

  /** A callback that can send sends the head of the queues, responses first, before anything else happens. */
  lemma CallbackSendsHead(s: State, sync: seq<bool>)
    requires s.cid != 0 && Queued(s) > 0
    ensures var t := CanSendNow(s, true, sync);
            s.log + [if s.resps != [] then RespSent(s.resps[0]) else FrameSent(s.frames[0])] <= t.log
  {
    var a := s.(pending := false);
    var u := SendOne(a, true);
    SendExtends(a, true);
    RequestExtends(DrainCheck(u), sync);
    hide RespIns, FrameIns, FramesDropped, RequestIfNeeded, DrainCheck;
    assert u.log <= DrainCheck(u).log <= RequestIfNeeded(DrainCheck(u), sync).log;
  }

  ghost predicate AlwaysCallsBack(sync: seq<bool>) {
    forall b :: b in sync ==> b
  }

  /** A stack that calls back at once, often enough, empties both queues within one request. */
  lemma {:induction false} SynchronousStackDrains(s: State, sync: seq<bool>)
    requires s.cid != 0 && !s.pending && AlwaysCallsBack(sync) && |sync| >= Queued(s)
    ensures Queued(RequestIfNeeded(s, sync)) == 0
    decreases Queued(s)
  {
    if Queued(s) > 0 {
      assert sync[0] in sync && forall b :: b in sync[1..] ==> b in sync;
      var a := s.(pending := false);
      SendShrinks(a, true);
      DrainKeeps(SendOne(a, true));
      SynchronousStackDrains(DrainCheck(SendOne(a, true)), sync[1..]);
    }
  }

  /** The channel a run has open: that of the last open or close, or none after a stop. */
  function Channel(ops: seq<Op>): nat {
    if ops == [] then 0
    else
      match ops[|ops| - 1]
      case OpenOrClose(cid, _) => cid
      case Stop => 0
      case _ => Channel(ops[..|ops| - 1])
  }

  lemma {:induction false} ChannelFollows(ops: seq<Op>)
    ensures Run(ops).cid == Channel(ops)
    decreases |ops|
  {
    if ops != [] {
      var s := Run(ops[..|ops| - 1]);
      ChannelFollows(ops[..|ops| - 1]);
      hide RequestIfNeeded, CanSendNow, RespIns, FrameIns, FramesDropped;
      match ops[|ops| - 1]
      case OpenOrClose(cid, sync) => RequestExtends(s.(cid := cid, pending := false), sync);
      case Stop =>
      case Respond(m, sync) => RequestExtends(Emit(s, RespAccepted(m)).(resps := s.resps + [m]), sync);
      case Frame(m, sync) => RequestExtends(Emit(MakeRoom(s), FrameStored(m)).(frames := MakeRoom(s).frames + [m]), sync);
      case CanSend(ok, sync) => CallbackExtends(s, ok, sync);
      case ArmHook(_, _, _) =>
      case ClearHook =>
      case TimerExpires =>
    }
  }

  /** A close or stop discards both queues and withdraws the request. */
  lemma CloseEmpties(s: State, sync: seq<bool>)
    ensures Queued(SetCid(s, 0, sync)) == 0 && !SetCid(s, 0, sync).pending && SetCid(s, 0, sync).hook == s.hook
    ensures Queued(Deinit(s)) == 0 && !Deinit(s).pending && Deinit(s).cid == 0 && Deinit(s).hook == NoHook && !Deinit(s).timer
  {
  }

  // ----- the drain hook

  /** The hook is not left waiting on empty queues. */
  ghost predicate HookServed(s: State) {
    s.hook.Hook? ==> Queued(s) > 0
  }

  /** A callback on an open channel serves the hook: if it leaves the queues empty, the hook has fired. */
  lemma {:induction false} CallbackServesHook(s: State, ok: bool, sync: seq<bool>)
    requires s.cid != 0
    ensures HookServed(CanSendNow(s, ok, sync))
    decreases Queued(s), if ok && Queued(s) > 0 then 0 else 2
  {
    var a := s.(pending := false);
    SendShrinks(a, ok);
    DrainKeeps(SendOne(a, ok));
    RequestKeepsServed(DrainCheck(SendOne(a, ok)), sync);
  }

  lemma {:induction false} RequestKeepsServed(s: State, sync: seq<bool>)
    requires HookServed(s)
    ensures HookServed(RequestIfNeeded(s, sync))
    decreases Queued(s), 1
  {
    if s.cid != 0 && !s.pending && Queued(s) > 0 && sync != [] && sync[0] {
      CallbackServesHook(s.(pending := true), true, sync[1..]);
    }
  }

  /**
   Arming answers exactly: no callback, one already armed, or armed.  An armed
   hook on empty queues has fired at once; otherwise it is registered with its
   timeout, and the timer runs exactly when a timeout was asked for.
   */
  lemma ArmExactly(s: State, hasCb: bool, hasTimeout: bool, timeoutMs: nat)
    requires Consistent(s)
    ensures var (rc, t) := Arm(s, hasCb, hasTimeout, timeoutMs);
            (rc == EInval <==> !hasCb) && (rc == EBusy <==> hasCb && s.hook != NoHook) && (rc == Ok <==> hasCb && s.hook == NoHook) &&
            (rc != Ok ==> t == s) &&
            (rc == Ok ==>
               if Queued(s) == 0 && !s.pending then t.hook == NoHook && !t.timer && t.log == s.log + [Armed(t.arms)] + [Drained(t.arms)]
               else t.hook == Hook(t.arms, hasTimeout) && t.timer == (hasTimeout && timeoutMs > 0) && t.log == s.log + [Armed(t.arms)])
  {
    hide Legal, RespQueue, FrameQueue, Arms, FramesSent, FramesDropped;
  }

  /** The timer's expiry runs the timeout callback of the hook it was armed with, and ends both. */
  lemma TimeoutRuns(s: State)
    requires Consistent(s) && s.timer
    ensures TimerFires(s).log == s.log + [TimedOut(s.arms)] && TimerFires(s).hook == NoHook && !TimerFires(s).timer
    ensures TimerFires(s).resps == s.resps && TimerFires(s).frames == s.frames
  {
    hide Legal, RespQueue, FrameQueue, Arms, FramesSent, FramesDropped;
  }

  /** Clearing leaves no hook and no timer, and touches nothing else. */
  lemma ClearClears(s: State)
    ensures Clear(s).hook == NoHook && !Clear(s).timer && Clear(s).log == s.log + [Cleared]
    ensures Clear(s) == s.(hook := NoHook, timer := false, log := Clear(s).log)
  {
  }
}
