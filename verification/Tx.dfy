/**
 The RFCOMM send arbiter (apps/btsensor/btsensor_tx.c): two modular rings, one
 outstanding can-send request that may call back synchronously, and a
 single-shot drain hook with a timeout.  Every operation is given as a function
 of the abstract state, which carries the log of what happened.
 */
module Tx {
  import opened CArith

  const FRAME_MAX_SIZE: int := 1408
  const RESPONSE_MAX_LEN: int := 64
  const RING_DEPTH: int := 8
  const RESPONSE_DEPTH: int := 4

  type byte = x: int | 0 <= x < 256
  type Msg = seq<byte>

  datatype Rc = Ok | E2Big | ENoSpc | EInval | EBusy

  /** What the outside world can see the arbiter do, oldest first. */
  datatype Event =
    | RespAccepted(m: Msg) | RespSent(m: Msg)
    | FrameStored(m: Msg) | FrameSent(m: Msg) | FrameDropped(m: Msg)
    | Closed
    | Armed(id: nat) | Cleared | Drained(id: nat) | TimedOut(id: nat)

  /** The registered drain hook: which successful arm it stems from and whether it has a timeout callback. */
  datatype Hook = NoHook | Hook(id: nat, hasTimeout: bool)

  datatype State = State(frames: seq<Msg>, resps: seq<Msg>, cid: nat, pending: bool,
                         sent: uint32, droppedOldest: uint32,
                         hook: Hook, timer: bool, arms: nat, log: seq<Event>)

  const INITIAL: State := State([], [], 0, false, 0, 0, NoHook, false, 0, [])

  function Emit(s: State, e: Event): State {
    s.(log := s.log + [e])
  }

  function Queued(s: State): nat {
    |s.resps| + |s.frames|
  }

  // ----- operations

  /** drain_check_and_fire. */
  function DrainCheck(s: State): State {
    if s.hook == NoHook || s.resps != [] || s.frames != [] || s.pending then s
    else Emit(s, Drained(s.hook.id)).(hook := NoHook, timer := false)
  }

  /** The send attempt of btsensor_tx_on_can_send_now; ok is whether rfcomm_send took the payload. */
  function SendOne(s: State, ok: bool): State {
    if !ok then s
    else if s.resps != [] then Emit(s, RespSent(s.resps[0])).(resps := s.resps[1..])
    else if s.frames != [] then
      Emit(s, FrameSent(s.frames[0])).(frames := s.frames[1..], sent := (s.sent + 1) % UINT32_MOD)
    else s
  }

  /**
   btsensor_tx_on_can_send_now.  `sync` lists, for each can-send request made on
   this call stack, whether the stack calls back at once; such a callback's send
   always succeeds.
   */
  function CanSendNow(s: State, ok: bool, sync: seq<bool>): State
    decreases Queued(s), if ok && Queued(s) > 0 then 0 else 2
  {
    var a := s.(pending := false);
    if s.cid == 0 then a else RequestIfNeeded(DrainCheck(SendOne(a, ok)), sync)
  }

  /** request_send_if_needed: the flag goes up before the request, which may re-enter. */
  function RequestIfNeeded(s: State, sync: seq<bool>): State
    decreases Queued(s), 1
  {
    if s.cid == 0 || s.pending || Queued(s) == 0 then s
    else
      var p := s.(pending := true);
      if sync != [] && sync[0] then CanSendNow(p, true, sync[1..]) else p
  }

  function SetCid(s: State, cid: nat, sync: seq<bool>): State {
    var a := s.(cid := cid, pending := false);
    if cid == 0 then Emit(a, Closed).(frames := [], resps := [])
    else RequestIfNeeded(a, sync)
  }

  /** btsensor_tx_deinit. */
  function Deinit(s: State): State {
    Emit(Emit(s, Closed), Cleared).(frames := [], resps := [], cid := 0, pending := false, hook := NoHook, timer := false)
  }

  function EnqueueResponse(s: State, m: Msg, sync: seq<bool>): (Rc, State) {
    if |m| > RESPONSE_MAX_LEN then (E2Big, s)
    else if |s.resps| == RESPONSE_DEPTH - 1 then (ENoSpc, s)
    else (Ok, RequestIfNeeded(Emit(s, RespAccepted(m)).(resps := s.resps + [m]), sync))
  }

  /** Dropping the oldest frame of a full ring. */
  function MakeRoom(s: State): State {
    if |s.frames| == RING_DEPTH - 1 then
      Emit(s, FrameDropped(s.frames[0])).(frames := s.frames[1..], droppedOldest := (s.droppedOldest + 1) % UINT32_MOD)
    else s
  }

  function EnqueueFrame(s: State, m: Msg, sync: seq<bool>): (Rc, State) {
    if |m| == 0 || |m| > FRAME_MAX_SIZE then (E2Big, s)
    else
      var r := MakeRoom(s);
      (if |s.frames| == RING_DEPTH - 1 then ENoSpc else Ok,
       RequestIfNeeded(Emit(r, FrameStored(m)).(frames := r.frames + [m]), sync))
  }

  /** btsensor_tx_arm_post_drain_callback; the callbacks may be null. */
  function Arm(s: State, hasCb: bool, hasTimeout: bool, timeoutMs: nat): (Rc, State) {
    if !hasCb then (EInval, s)
    else if s.hook != NoHook then (EBusy, s)
    else (Ok, DrainCheck(Hooked(s, hasTimeout, timeoutMs > 0 && hasTimeout)))
  }

  /** The callbacks registered and, if asked to, the timer started. */
  function Hooked(s: State, hasTimeout: bool, start: bool): State {
    var id := s.arms + 1;
    Emit(s, Armed(id)).(hook := Hook(id, hasTimeout), arms := id, timer := s.timer || start)
  }

  function Clear(s: State): State {
    Emit(s, Cleared).(hook := NoHook, timer := false)
  }

  /** drain_timer_handler: the run loop fires the timer only while it is armed. */
  function TimerFires(s: State): State {
    if !s.timer then s
    else
      var t := s.(timer := false, hook := NoHook);
      if s.hook.Hook? && s.hook.hasTimeout then Emit(t, TimedOut(s.hook.id)) else Emit(t, Cleared)
  }

  lemma SendShrinks(s: State, ok: bool)
    ensures Queued(SendOne(s, ok)) <= Queued(s)
    ensures ok && Queued(s) > 0 ==> Queued(SendOne(s, ok)) < Queued(s)
  {
  }

  lemma DrainKeeps(s: State)
    ensures Queued(DrainCheck(s)) == Queued(s)
  {
  }

  /**
   The limit of that assumption: a callback whose send fails leaves the queues as
   they are and asks again in the very state it was called in, so a stack that
   calls back at once and keeps failing would recurse without end.
   */
  lemma FailingCallbackRepeats(s: State, sync: seq<bool>)
    requires s.cid != 0 && Queued(s) > 0 && s.pending
    ensures DrainCheck(SendOne(s.(pending := false), false)).(pending := true) == s
    ensures CanSendNow(s, false, sync) == if sync != [] && sync[0] then CanSendNow(s, true, sync[1..]) else s
  {
    var t := DrainCheck(SendOne(s.(pending := false), false));
    assert t == s.(pending := false);
    assert t.(pending := true) == s;
    assert CanSendNow(s, false, sync) == RequestIfNeeded(t, sync);
    hide CanSendNow, DrainCheck, SendOne;
  }

  // ----- the rings

  /** Contents of a modular ring from tail to head. */
  function Live(r: seq<Msg>, tail: nat, head: nat): seq<Msg>
    requires tail < |r| && head < |r|
  {
    if tail <= head then r[tail..head] else r[tail..] + r[..head]
  }

  function Next(i: nat, n: nat): (j: nat)
    requires i < n
    ensures j == (if i + 1 == n then 0 else i + 1)
  {
    (i + 1) % n
  }

  lemma LiveLength(r: seq<Msg>, tail: nat, head: nat)
    requires tail < |r| && head < |r|
    ensures |Live(r, tail, head)| < |r|
    ensures Live(r, tail, head) == [] <==> head == tail
    ensures |Live(r, tail, head)| == |r| - 1 <==> Next(head, |r|) == tail
  {
  }

  lemma LivePush(r: seq<Msg>, tail: nat, head: nat, m: Msg)
    requires tail < |r| && head < |r| && Next(head, |r|) != tail
    ensures Live(r[head := m], tail, Next(head, |r|)) == Live(r, tail, head) + [m]
  {
    var r' := r[head := m];
    assert r'[..head] == r[..head];
    if tail <= head {
      assert r'[tail..head + 1] == r[tail..head] + [m];
      if head + 1 == |r| { assert r'[tail..] + r'[..0] == r'[tail..head + 1]; }
    } else {
      assert r'[tail..] == r[tail..];
      assert r'[..head + 1] == r[..head] + [m];
    }
  }

  lemma LivePop(r: seq<Msg>, tail: nat, head: nat)
    requires tail < |r| && head < |r| && head != tail
    ensures Live(r, tail, head) != [] && r[tail] == Live(r, tail, head)[0]
    ensures Live(r, Next(tail, |r|), head) == Live(r, tail, head)[1..]
  {
    if tail > head && tail + 1 == |r| { assert Live(r, tail, head)[1..] == r[..head]; }
  }

  // ----- the arbiter object

  class Arbiter {
    const ring: array<Msg>
    var head: nat
    var tail: nat
    const respRing: array<Msg>
    var respHead: nat
    var respTail: nat
    var cid: nat
    var pending: bool
    var sent: uint32
    var droppedOldest: uint32
    var hasCb: bool
    var hasTimeout: bool
    var timer: bool
    ghost var arms: nat
    ghost var log: seq<Event>

    predicate Valid()
      reads this
    {
      ring.Length == RING_DEPTH && head < RING_DEPTH && tail < RING_DEPTH &&
      respRing.Length == RESPONSE_DEPTH && respHead < RESPONSE_DEPTH && respTail < RESPONSE_DEPTH &&
      ring != respRing
    }

    ghost function View(): State
      requires Valid()
      reads this, ring, respRing
    {
      State(Live(ring[..], tail, head), Live(respRing[..], respTail, respHead), cid, pending, sent, droppedOldest,
            if hasCb then Hook(arms, hasTimeout) else NoHook, timer, arms, log)
    }

    constructor ()
      ensures Valid() && View() == INITIAL && fresh(ring) && fresh(respRing)
    {
      ring := new Msg[8](_ => []);
      respRing := new Msg[4](_ => []);
      head, tail, respHead, respTail, cid, pending := 0, 0, 0, 0, 0, false;
      sent, droppedOldest, hasCb, hasTimeout, timer := 0, 0, false, false, false;
      arms, log := 0, [];
    }

    method DrainCheckAndFire()
      requires Valid()
      modifies this
      ensures Valid() && View() == DrainCheck(old(View()))
    {
      hide Live;
      LiveLength(ring[..], tail, head);
      LiveLength(respRing[..], respTail, respHead);
      if !hasCb || respHead != respTail || head != tail || pending {
        return;
      }
      hasCb, hasTimeout := false, false;
      if timer {
        timer := false;
      }
      log := log + [Drained(arms)];
    }

    /** One payload, responses first. */
    method Send(ok: bool)
      requires Valid()
      modifies this
      ensures Valid() && View() == SendOne(old(View()), ok)
    {
      hide Live;
      LiveLength(ring[..], tail, head);
      LiveLength(respRing[..], respTail, respHead);
      if respHead != respTail {
        if ok {
          LivePop(respRing[..], respTail, respHead);
          log := log + [RespSent(respRing[respTail])];
          respTail := Next(respTail, RESPONSE_DEPTH);
        }
      } else if head != tail {
        if ok {
          LivePop(ring[..], tail, head);
          log := log + [FrameSent(ring[tail])];
          tail := Next(tail, RING_DEPTH);
          sent := (sent + 1) % UINT32_MOD;
        }
      }
    }

    method OnCanSendNow(ok: bool, sync: seq<bool>)
      requires Valid()
      modifies this
      ensures Valid() && View() == CanSendNow(old(View()), ok, sync)
      decreases Queued(View()), if ok && Queued(View()) > 0 then 0 else 2
    {
      hide Live, SendOne, DrainCheck;
      pending := false;
      assert View() == old(View()).(pending := false);
      if cid == 0 {
        return;
      }
      SendShrinks(View(), ok);
      Send(ok);
      DrainKeeps(View());
      DrainCheckAndFire();
      RequestSendIfNeeded(sync);
    }

    method RequestSendIfNeeded(sync: seq<bool>)
      requires Valid()
      modifies this
      ensures Valid() && View() == RequestIfNeeded(old(View()), sync)
      decreases Queued(View()), 1
    {
      hide Live;
      LiveLength(ring[..], tail, head);
      LiveLength(respRing[..], respTail, respHead);
      if cid == 0 || pending {
        return;
      }
      if head == tail && respHead == respTail {
        return;
      }
      pending := true;
      if sync != [] && sync[0] {
        OnCanSendNow(true, sync[1..]);
      }
    }

    method SetRfcommCid(newCid: nat, sync: seq<bool>)
      requires Valid()
      modifies this
      ensures Valid() && View() == SetCid(old(View()), newCid, sync)
    {
      cid := newCid;
      pending := false;
      if newCid == 0 {
        head := tail;
        respHead := respTail;
        log := log + [Closed];
      } else {
        RequestSendIfNeeded(sync);
      }
    }

    method TearDown()
      requires Valid()
      modifies this
      ensures Valid() && View() == Deinit(old(View()))
    {
      CloseQueues();
      ClearPostDrainCallback();
    }

    method CloseQueues()
      requires Valid()
      modifies this
      ensures Valid() && View() == Emit(old(View()), Closed).(frames := [], resps := [], cid := 0, pending := false)
    {
      hide Live;
      head, tail, respHead, respTail := 0, 0, 0, 0;
      cid, pending := 0, false;
      log := log + [Closed];
      LiveLength(ring[..], tail, head);
      LiveLength(respRing[..], respTail, respHead);
    }

    method TryEnqueueResponse(m: Msg, sync: seq<bool>) returns (rc: Rc)
      requires Valid()
      modifies this, respRing
      ensures Valid() && (rc, View()) == EnqueueResponse(old(View()), m, sync)
    {
      if |m| > RESPONSE_MAX_LEN {
        return E2Big;
      }
      LiveLength(respRing[..], respTail, respHead);
      var next := Next(respHead, RESPONSE_DEPTH);
      if next == respTail {
        return ENoSpc;
      }
      StoreResponse(m);
      RequestSendIfNeeded(sync);
      rc := Ok;
    }

    method StoreResponse(m: Msg)
      requires Valid() && Next(respHead, RESPONSE_DEPTH) != respTail
      modifies this, respRing
      ensures Valid() && View() == Emit(old(View()), RespAccepted(m)).(resps := old(View()).resps + [m])
    {
      LivePush(respRing[..], respTail, respHead, m);
      ghost var r := respRing[..];
      respRing[respHead] := m;
      assert respRing[..] == r[respHead := m];
      respHead := Next(respHead, RESPONSE_DEPTH);
      log := log + [RespAccepted(m)];
    }

    method TryEnqueueFrame(m: Msg, sync: seq<bool>) returns (rc: Rc)
      requires Valid()
      modifies this, ring
      ensures Valid() && (rc, View()) == EnqueueFrame(old(View()), m, sync)
    {
      if |m| == 0 || |m| > FRAME_MAX_SIZE {
        return E2Big;
      }
      LiveLength(ring[..], tail, head);
      rc := Ok;
      var next := Next(head, RING_DEPTH);
      if next == tail {
        DropOldest();
        rc := ENoSpc;
      }
      StoreFrame(m);
      RequestSendIfNeeded(sync);
    }

    method DropOldest()
      requires Valid() && Next(head, RING_DEPTH) == tail
      modifies this
      ensures Valid() && View() == MakeRoom(old(View()))
      ensures head == old(head) && Next(head, RING_DEPTH) != tail
    {
      LiveLength(ring[..], tail, head);
      LivePop(ring[..], tail, head);
      log := log + [FrameDropped(ring[tail])];
      tail := Next(tail, RING_DEPTH);
      droppedOldest := (droppedOldest + 1) % UINT32_MOD;
    }

    method StoreFrame(m: Msg)
      requires Valid() && Next(head, RING_DEPTH) != tail
      modifies this, ring
      ensures Valid() && View() == Emit(old(View()), FrameStored(m)).(frames := old(View()).frames + [m])
    {
      LivePush(ring[..], tail, head, m);
      ghost var r := ring[..];
      ring[head] := m;
      assert ring[..] == r[head := m];
      head := Next(head, RING_DEPTH);
      log := log + [FrameStored(m)];
    }

    method ArmPostDrainCallback(cb: bool, timeoutCb: bool, timeoutMs: nat) returns (rc: Rc)
      requires Valid()
      modifies this
      ensures Valid() && (rc, View()) == Arm(old(View()), cb, timeoutCb, timeoutMs)
    {
      if !cb {
        return EInval;
      }
      if hasCb {
        return EBusy;
      }
      hide Live, DrainCheck, Hooked;
      SetHook(timeoutCb, timeoutMs > 0 && timeoutCb);
      DrainCheckAndFire();
      rc := Ok;
    }

    /** Registers the callbacks and, if asked to, starts the timer. */
    method SetHook(timeoutCb: bool, start: bool)
      requires Valid()
      modifies this
      ensures Valid() && View() == Hooked(old(View()), timeoutCb, start)
    {
      hide Live;
      hasCb, hasTimeout := true, timeoutCb;
      arms := arms + 1;
      log := log + [Armed(arms)];
      if start {
        timer := true;
      }
    }

    method ClearPostDrainCallback()
      requires Valid()
      modifies this
      ensures Valid() && View() == Clear(old(View()))
    {
      if timer {
        timer := false;
      }
      hasCb, hasTimeout := false, false;
      log := log + [Cleared];
    }

    method DrainTimerHandler()
      requires Valid() && timer
      modifies this
      ensures Valid() && View() == TimerFires(old(View()))
    {
      timer := false;
      var fire := hasCb && hasTimeout;
      hasCb, hasTimeout := false, false;
      log := log + [if fire then TimedOut(arms) else Cleared];
    }
  }
}
