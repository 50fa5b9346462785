/**
 The arbiter over whole runs.  A log is legal when every event in it is allowed
 by the events before it, judged by queues recomputed from the log alone; every
 run of operations produces a legal log and leaves no wake-up behind.
 */
module TxRuns {
  import opened CArith
  import opened Tx

  // ----- what a log says

  function Last(h: seq<Event>): Event
    requires h != []
  {
    h[|h| - 1]
  }

  function Before(h: seq<Event>): seq<Event>
    requires h != []
  {
    h[..|h| - 1]
  }

  function Tail(q: seq<Msg>): seq<Msg> {
    if q == [] then [] else q[1..]
  }

  function RespStep(q: seq<Msg>, e: Event): seq<Msg> {
    match e
    case RespAccepted(m) => q + [m]
    case RespSent(_) => Tail(q)
    case Closed => []
    case _ => q
  }

  /** Responses accepted and neither sent nor discarded. */
  function RespQueue(h: seq<Event>): seq<Msg> {
    if h == [] then [] else RespStep(RespQueue(Before(h)), Last(h))
  }

  function FrameStep(q: seq<Msg>, e: Event): seq<Msg> {
    match e
    case FrameStored(m) => q + [m]
    case FrameSent(_) => Tail(q)
    case FrameDropped(_) => Tail(q)
    case Closed => []
    case _ => q
  }

  /** Frames stored and neither sent, dropped nor discarded. */
  function FrameQueue(h: seq<Event>): seq<Msg> {
    if h == [] then [] else FrameStep(FrameQueue(Before(h)), Last(h))
  }

  function LiveArmStep(id: nat, e: Event): nat {
    match e
    case Armed(id) => id
    case Cleared => 0
    case Drained(_) => 0
    case TimedOut(_) => 0
    case _ => id
  }

  /** The arm whose hook is registered. */
  function LiveArm(h: seq<Event>): nat {
    if h == [] then 0 else LiveArmStep(LiveArm(Before(h)), Last(h))
  }

  function Arms(h: seq<Event>): nat {
    if h == [] then 0 else Arms(Before(h)) + if Last(h).Armed? then 1 else 0
  }

  /** May e happen after h? */
  ghost predicate Allowed(h: seq<Event>, e: Event) {
    match e
    case RespAccepted(m) => |m| <= RESPONSE_MAX_LEN && |RespQueue(h)| < RESPONSE_DEPTH - 1
    case RespSent(m) => RespQueue(h) != [] && m == RespQueue(h)[0]
    case FrameStored(m) => 0 < |m| <= FRAME_MAX_SIZE && |FrameQueue(h)| < RING_DEPTH - 1
    case FrameSent(m) => RespQueue(h) == [] && FrameQueue(h) != [] && m == FrameQueue(h)[0]
    case FrameDropped(m) => |FrameQueue(h)| == RING_DEPTH - 1 && m == FrameQueue(h)[0]
    case Closed => true
    case Armed(id) => LiveArm(h) == 0 && id == Arms(h) + 1
    case Cleared => true
    case Drained(id) => LiveArm(h) == id != 0 && RespQueue(h) == [] && FrameQueue(h) == []
    case TimedOut(id) => LiveArm(h) == id != 0
  }

  ghost predicate Legal(h: seq<Event>) {
    h == [] || (Legal(Before(h)) && Allowed(Before(h), Last(h)))
  }

  // ----- the invariant

  /** The state is what its legal log says, the hook and the timer fit together. */
  ghost predicate Consistent(s: State) {
    Legal(s.log) && s.resps == RespQueue(s.log) && s.frames == FrameQueue(s.log) &&
    |s.resps| < RESPONSE_DEPTH && |s.frames| < RING_DEPTH &&
    s.arms == Arms(s.log) &&
    (s.hook == NoHook <==> LiveArm(s.log) == 0) && (s.hook.Hook? ==> s.hook.id == LiveArm(s.log) == s.arms) &&
    (s.timer ==> s.hook.Hook? && s.hook.hasTimeout) &&
    s.sent == FramesSent(s.log) % UINT32_MOD && s.droppedOldest == FramesDropped(s.log) % UINT32_MOD
  }

  function FramesSent(h: seq<Event>): nat {
    if h == [] then 0 else FramesSent(Before(h)) + if Last(h).FrameSent? then 1 else 0
  }

  function FramesDropped(h: seq<Event>): nat {
    if h == [] then 0 else FramesDropped(Before(h)) + if Last(h).FrameDropped? then 1 else 0
  }

  /** A can-send request is outstanding exactly when the channel is open and something is queued. */
  ghost predicate WokenUp(s: State) {
    s.pending <==> s.cid != 0 && Queued(s) > 0
  }

  /** What one more event does to everything the log determines. */
  lemma EmitStep(h: seq<Event>, e: Event)
    ensures Before(h + [e]) == h && Last(h + [e]) == e
    ensures Legal(h + [e]) <==> Legal(h) && Allowed(h, e)
    ensures RespQueue(h + [e]) == RespStep(RespQueue(h), e)
    ensures FrameQueue(h + [e]) == FrameStep(FrameQueue(h), e)
    ensures LiveArm(h + [e]) == LiveArmStep(LiveArm(h), e)
    ensures Arms(h + [e]) == Arms(h) + if e.Armed? then 1 else 0
    ensures FramesSent(h + [e]) == FramesSent(h) + if e.FrameSent? then 1 else 0
    ensures FramesDropped(h + [e]) == FramesDropped(h) + if e.FrameDropped? then 1 else 0
  {
    assert Before(h + [e]) == h && Last(h + [e]) == e;
    hide Before, Last, Allowed, RespStep, FrameStep, LiveArmStep;
  }

  lemma DrainCheckConsistent(s: State)
    requires Consistent(s)
    ensures Consistent(DrainCheck(s))
    ensures Queued(DrainCheck(s)) == Queued(s)
  {
    hide Legal, RespQueue, FrameQueue, LiveArm, Arms, FramesSent, FramesDropped;
    if s.hook.Hook? { EmitStep(s.log, Drained(s.hook.id)); }
  }

  lemma SendOneConsistent(s: State, ok: bool)
    requires Consistent(s)
    ensures Consistent(SendOne(s, ok))
  {
    hide Legal, RespQueue, FrameQueue, LiveArm, Arms, FramesSent, FramesDropped;
    if s.resps != [] { EmitStep(s.log, RespSent(s.resps[0])); }
    else if s.frames != [] { EmitStep(s.log, FrameSent(s.frames[0])); }
  }

  /** A can-send callback keeps the invariant and never leaves a wake-up behind, however deep it re-enters. */
  lemma {:induction false} CanSendNowConsistent(s: State, ok: bool, sync: seq<bool>)
    requires Consistent(s)
    ensures Consistent(CanSendNow(s, ok, sync)) && WokenUp(CanSendNow(s, ok, sync))
    decreases Queued(s), if ok && Queued(s) > 0 then 0 else 2
  {
    var a := s.(pending := false);
    if s.cid != 0 {
      SendOneConsistent(a, ok);
      DrainCheckConsistent(SendOne(a, ok));
      RequestConsistent(DrainCheck(SendOne(a, ok)), sync);
    }
  }

  /** So does a request, made when nothing is outstanding or rightly so. */
  lemma {:induction false} RequestConsistent(s: State, sync: seq<bool>)
    requires Consistent(s) && (s.pending ==> s.cid != 0 && Queued(s) > 0)
    ensures Consistent(RequestIfNeeded(s, sync)) && WokenUp(RequestIfNeeded(s, sync))
    decreases Queued(s), 1
  {
    if s.cid != 0 && !s.pending && Queued(s) > 0 {
      if sync != [] && sync[0] {
        CanSendNowConsistent(s.(pending := true), true, sync[1..]);
      }
    }
  }

  // ----- runs

  datatype Op =
    | OpenOrClose(cid: nat, sync: seq<bool>)
    | Stop
    | Respond(m: Msg, sync: seq<bool>)
    | Frame(m: Msg, sync: seq<bool>)
    | CanSend(ok: bool, sync: seq<bool>)
    | ArmHook(hasCb: bool, hasTimeout: bool, timeoutMs: nat)
    | ClearHook
    | TimerExpires

  function Apply(s: State, op: Op): State {
    match op
    case OpenOrClose(cid, sync) => SetCid(s, cid, sync)
    case Stop => Deinit(s)
    case Respond(m, sync) => EnqueueResponse(s, m, sync).1
    case Frame(m, sync) => EnqueueFrame(s, m, sync).1
    case CanSend(ok, sync) => CanSendNow(s, ok, sync)
    case ArmHook(hasCb, hasTimeout, timeoutMs) => Arm(s, hasCb, hasTimeout, timeoutMs).1
    case ClearHook => Clear(s)
    case TimerExpires => TimerFires(s)
  }

  function Run(ops: seq<Op>): State {
    if ops == [] then INITIAL else Apply(Run(ops[..|ops| - 1]), ops[|ops| - 1])
  }

  lemma OpConsistent(s: State, op: Op)
    requires Consistent(s) && WokenUp(s)
    ensures Consistent(Apply(s, op)) && WokenUp(Apply(s, op))
  {
    hide Consistent, RequestIfNeeded, CanSendNow;
    match op
    case OpenOrClose(cid, sync) =>
      CidConsistent(s, cid);
      if cid != 0 { RequestConsistent(s.(cid := cid, pending := false), sync); }
    case Stop =>
      CidConsistent(s, 0);
      ClearConsistent(SetCid(s, 0, []));
      assert Deinit(s) == Clear(SetCid(s, 0, []));
    case Respond(m, sync) =>
      if |m| <= RESPONSE_MAX_LEN && |s.resps| != RESPONSE_DEPTH - 1 {
        AcceptConsistent(s, m);
        RequestConsistent(Emit(s, RespAccepted(m)).(resps := s.resps + [m]), sync);
      }
    case Frame(m, sync) =>
      if 0 < |m| <= FRAME_MAX_SIZE {
        StoreConsistent(s, m);
        var r := MakeRoom(s);
        RequestConsistent(Emit(r, FrameStored(m)).(frames := r.frames + [m]), sync);
      }
    case CanSend(ok, sync) => CanSendNowConsistent(s, ok, sync);
    case ArmHook(hasCb, hasTimeout, timeoutMs) =>
      if hasCb && s.hook == NoHook {
        ArmConsistent(s, hasTimeout, timeoutMs);
      }
    case ClearHook => ClearConsistent(s);
    case TimerExpires => TimerConsistent(s);
  }

  lemma CidConsistent(s: State, cid: nat)
    requires Consistent(s)
    ensures Consistent(s.(cid := cid, pending := false))
    ensures Consistent(SetCid(s, 0, []))
  {
    hide Legal, RespQueue, FrameQueue, LiveArm, Arms, FramesSent, FramesDropped;
    EmitStep(s.log, Closed);
  }

  lemma ClearConsistent(s: State)
    requires Consistent(s)
    ensures Consistent(Clear(s))
  {
    hide Legal, RespQueue, FrameQueue, LiveArm, Arms, FramesSent, FramesDropped;
    EmitStep(s.log, Cleared);
  }

  lemma TimerConsistent(s: State)
    requires Consistent(s)
    ensures Consistent(TimerFires(s))
    ensures Queued(TimerFires(s)) == Queued(s) && TimerFires(s).pending == s.pending && TimerFires(s).cid == s.cid
  {
    hide Legal, RespQueue, FrameQueue, LiveArm, Arms, FramesSent, FramesDropped;
    EmitStep(s.log, Cleared);
    if s.hook.Hook? { EmitStep(s.log, TimedOut(s.hook.id)); }
  }

  lemma AcceptConsistent(s: State, m: Msg)
    requires Consistent(s) && |m| <= RESPONSE_MAX_LEN && |s.resps| != RESPONSE_DEPTH - 1
    ensures Consistent(Emit(s, RespAccepted(m)).(resps := s.resps + [m]))
  {
    hide Legal, RespQueue, FrameQueue, LiveArm, Arms, FramesSent, FramesDropped;
    EmitStep(s.log, RespAccepted(m));
  }

  lemma StoreConsistent(s: State, m: Msg)
    requires Consistent(s) && 0 < |m| <= FRAME_MAX_SIZE
    ensures var r := MakeRoom(s);
            Consistent(Emit(r, FrameStored(m)).(frames := r.frames + [m])) && r.pending == s.pending && r.cid == s.cid &&
            r.resps == s.resps
  {
    hide Legal, RespQueue, FrameQueue, LiveArm, Arms, FramesSent, FramesDropped;
    var r := MakeRoom(s);
    if |s.frames| == RING_DEPTH - 1 { EmitStep(s.log, FrameDropped(s.frames[0])); }
    EmitStep(r.log, FrameStored(m));
  }

  lemma ArmConsistent(s: State, hasTimeout: bool, timeoutMs: nat)
    requires Consistent(s) && WokenUp(s) && s.hook == NoHook
    ensures var t := Arm(s, true, hasTimeout, timeoutMs).1; Consistent(t) && WokenUp(t)
  {
    hide Legal, RespQueue, FrameQueue, LiveArm, Arms, FramesSent, FramesDropped;
    var id := s.arms + 1;
    EmitStep(s.log, Armed(id));
    DrainCheckConsistent(Emit(s, Armed(id)).(hook := Hook(id, hasTimeout), arms := id,
                                             timer := s.timer || (timeoutMs > 0 && hasTimeout)));
  }

  /**
   The main result: after every outermost operation of every run, the log is
   legal, the two rings hold exactly the queues the log implies, an armed timer
   has a registered timeout callback, and a can-send request is outstanding if
   and only if the channel is open and something is queued - no wake-up is lost
   and none is left over, even when requests call back synchronously.
   */
  lemma {:induction false} EveryRunIsLegal(ops: seq<Op>)
    ensures Consistent(Run(ops)) && WokenUp(Run(ops))
    decreases |ops|
  {
    if ops != [] {
      EveryRunIsLegal(ops[..|ops| - 1]);
      OpConsistent(Run(ops[..|ops| - 1]), ops[|ops| - 1]);
    }
  }

  // ----- what legality means: queues

  function RespIns(h: seq<Event>): seq<Msg> {
    if h == [] then [] else RespIns(Before(h)) + if Last(h).RespAccepted? then [Last(h).m] else []
  }

  function RespOuts(h: seq<Event>): seq<Msg> {
    if h == [] then []
    else RespOuts(Before(h)) + (match Last(h)
                                case RespSent(m) => [m]
                                case Closed => RespQueue(Before(h))
                                case _ => [])
  }

  function FrameIns(h: seq<Event>): seq<Msg> {
    if h == [] then [] else FrameIns(Before(h)) + if Last(h).FrameStored? then [Last(h).m] else []
  }

  /** Frames that left the ring, in order: sent, dropped, or discarded on close. */
  function FrameOuts(h: seq<Event>): seq<Msg> {
    if h == [] then []
    else FrameOuts(Before(h)) + (match Last(h)
                                 case FrameSent(m) => [m]
                                 case FrameDropped(m) => [m]
                                 case Closed => FrameQueue(Before(h))
                                 case _ => [])
  }

  function FramesDiscarded(h: seq<Event>): nat {
    if h == [] then 0 else FramesDiscarded(Before(h)) + if Last(h).Closed? then |FrameQueue(Before(h))| else 0
  }

  function RespsSent(h: seq<Event>): seq<Msg> {
    if h == [] then [] else RespsSent(Before(h)) + if Last(h).RespSent? then [Last(h).m] else []
  }

  ghost predicate NoClose(h: seq<Event>) {
    forall e :: e in h ==> e != Closed
  }

  /** Appending to a queue, taking its head, and emptying it, next to what has left it. */
  lemma QueueMoves(outs: seq<Msg>, q: seq<Msg>, m: Msg)
    ensures (outs + q) + [m] == outs + (q + [m])
    ensures q != [] && m == q[0] ==> outs + q == (outs + [m]) + Tail(q)
    ensures outs + q == (outs + q) + []
  {
  }

  /** The message an event carries. */
  function Carried(e: Event): Msg {
    match e
    case RespAccepted(m) => m
    case RespSent(m) => m
    case FrameStored(m) => m
    case FrameSent(m) => m
    case FrameDropped(m) => m
    case _ => []
  }

  /** Responses: what went in is what came out followed by what is queued. */
  lemma {:induction false} ResponsesConserved(h: seq<Event>)
    requires Legal(h)
    ensures RespIns(h) == RespOuts(h) + RespQueue(h)
    decreases |h|
  {
    if h != [] {
      ResponsesConserved(Before(h));
      QueueMoves(RespOuts(Before(h)), RespQueue(Before(h)), Carried(Last(h)));
    }
  }

  /**
   Frames: nothing is lost, duplicated or reordered either, and the stored
   frames are accounted for by the counters of sent and dropped frames, the
   frames discarded on close and the frames still queued.
   */
  lemma {:induction false} FramesConserved(h: seq<Event>)
    requires Legal(h)
    ensures FrameIns(h) == FrameOuts(h) + FrameQueue(h)
    ensures |FrameIns(h)| == FramesSent(h) + FramesDropped(h) + FramesDiscarded(h) + |FrameQueue(h)|
    decreases |h|
  {
    if h != [] {
      FramesConserved(Before(h));
      QueueMoves(FrameOuts(Before(h)), FrameQueue(Before(h)), Carried(Last(h)));
    }
  }

  /** What one event does to the responses sent and queued, unless it closes the channel. */
  lemma RespMove(sent: seq<Msg>, q: seq<Msg>, e: Event)
    requires e != Closed && (e.RespSent? ==> q != [] && e.m == q[0])
    ensures (sent + if e.RespSent? then [e.m] else []) + RespStep(q, e)
         == (sent + q) + if e.RespAccepted? then [e.m] else []
  {
    QueueMoves(sent, q, Carried(e));
  }

  /**
   From any point j of a history on, as long as the channel is not closed, what
   was queued then and what is accepted since is sent exactly once and in order,
   or still queued in that order.
   */
  lemma {:induction false} ResponsesSentInOrder(h: seq<Event>, j: nat)
    requires Legal(h) && j <= |h| && NoClose(h[j..])
    ensures RespsSent(h) + RespQueue(h) == RespsSent(h[..j]) + RespQueue(h[..j]) + RespIns(h[j..])
    decreases |h|
  {
    if j == |h| {
      assert h[..j] == h;
      assert RespIns(h[j..]) == [];
    } else {
      var b, e := Before(h), Last(h);
      assert h[j..] == b[j..] + [e];
      assert e in h[j..] && forall x :: x in b[j..] ==> x in h[j..];
      assert b[..j] == h[..j] && h == b + [e];
      SentIsHead(b, e);
      InsStep(b[j..], e);
      EmitStep(b, e);
      SentStep(b, e);
      hide RespsSent, RespQueue, RespIns, Legal, Allowed, RespStep, Before, Last, NoClose;
      ResponsesSentInOrder(b, j);
      RespMove(RespsSent(b), RespQueue(b), e);
      Regroup(RespsSent(b[..j]) + RespQueue(b[..j]), RespIns(b[j..]), if e.RespAccepted? then [e.m] else []);
    }
  }

  lemma Regroup(x: seq<Msg>, y: seq<Msg>, z: seq<Msg>)
    ensures (x + y) + z == x + (y + z)
  {
  }

  lemma InsStep(h: seq<Event>, e: Event)
    ensures RespIns(h + [e]) == RespIns(h) + if e.RespAccepted? then [e.m] else []
  {
    assert Before(h + [e]) == h;
  }

  lemma SentStep(h: seq<Event>, e: Event)
    ensures RespsSent(h + [e]) == RespsSent(h) + if e.RespSent? then [e.m] else []
  {
    assert Before(h + [e]) == h;
  }

  lemma SentIsHead(h: seq<Event>, e: Event)
    requires Allowed(h, e)
    ensures e.RespSent? ==> RespQueue(h) != [] && e.m == RespQueue(h)[0]
  {
  }

  // ----- what legality means: the drain hook

  /** How often a callback of arm id has run. */
  function Fired(h: seq<Event>, id: nat): nat {
    if h == [] then 0
    else Fired(Before(h), id) + if Last(h) == Drained(id) || Last(h) == TimedOut(id) then 1 else 0
  }

  /** For every arm at most one of its two callbacks runs, at most once, and not before the arm. */
  lemma {:induction false} FiresAtMostOnce(h: seq<Event>, id: nat)
    requires Legal(h) && id != 0
    ensures Fired(h, id) <= 1 && LiveArm(h) <= Arms(h)
    ensures LiveArm(h) == id || id > Arms(h) ==> Fired(h, id) == 0
    decreases |h|
  {
    if h != [] {
      FiresAtMostOnce(Before(h), id);
    }
  }

  /** After a clear no callback of an earlier arm ever runs. */
  lemma {:induction false} NeverAfterClear(h: seq<Event>, k: nat, id: nat)
    requires Legal(h) && k < |h| && h[k] == Cleared && 0 < id <= Arms(h[..k])
    ensures Fired(h, id) == Fired(h[..k], id)
    ensures LiveArm(h) != id && id <= Arms(h)
    decreases |h|
  {
    if k == |h| - 1 {
      assert Before(h) == h[..k];
    } else {
      assert Before(h)[..k] == h[..k];
      NeverAfterClear(Before(h), k, id);
    }
  }

  lemma {:induction false} LegalPrefix(h: seq<Event>, k: nat)
    requires Legal(h) && k <= |h|
    ensures Legal(h[..k])
    decreases |h|
  {
    if k == |h| {
      assert h[..k] == h;
    } else {
      assert Before(h)[..k] == h[..k];
      LegalPrefix(Before(h), k);
    }
  }

  /**
   When the drain callback of an arm runs, both queues are empty; if the channel
   was not closed since the arm, every response queued when arming and every one
   accepted since has been sent, in order.
   */
  lemma DrainMeansSent(h: seq<Event>, j: nat, k: nat, id: nat)
    requires Legal(h) && j < k < |h| && h[j] == Armed(id) && h[k] == Drained(id) && NoClose(h[j..k])
    ensures RespQueue(h[..k]) == [] && FrameQueue(h[..k]) == []
    ensures RespsSent(h[..k]) == RespsSent(h[..j]) + RespQueue(h[..j]) + RespIns(h[j..k])
  {
    hide RespQueue, FrameQueue, RespIns, RespsSent, LiveArm, Arms;
    var p := h[..k];
    LegalPrefix(h, k + 1);
    assert h[..k + 1] == p + [h[k]];
    EmitStep(p, h[k]);
    assert p[j..] == h[j..k] && p[..j] == h[..j];
    ResponsesSentInOrder(p, j);
  }
}
