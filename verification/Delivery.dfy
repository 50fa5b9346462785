/**
 The emitter and the arbiter together: btsensor_tx_try_enqueue_frame is called
 for every frame of a tick, whatever state the arbiter is in.
 */
module Delivery {
  import opened CArith
  import W = Wire
  import B = Bundle
  import R = BundleRuns
  import opened Tx
  import opened TxRuns

  /** An event that stores no frame leaves the stored frames as they are. */
  lemma EventIns(h: seq<Event>, e: Event)
    ensures FrameIns(h + [e]) == FrameIns(h) + if e.FrameStored? then [e.m] else []
  {
    assert Before(h + [e]) == h && Last(h + [e]) == e;
  }

  lemma SendStoresNothing(s: State, ok: bool)
    ensures FrameIns(DrainCheck(SendOne(s, ok)).log) == FrameIns(s.log)
  {
    hide FrameIns;
    var t := SendOne(s, ok);
    if s.resps != [] { EventIns(s.log, RespSent(s.resps[0])); }
    else if s.frames != [] { EventIns(s.log, FrameSent(s.frames[0])); }
    if t.hook.Hook? { EventIns(t.log, Drained(t.hook.id)); }
  }

  /** Sending, at any depth of re-entry, stores no frame. */
  lemma {:induction false} CanSendStoresNothing(s: State, ok: bool, sync: seq<bool>)
    ensures FrameIns(CanSendNow(s, ok, sync).log) == FrameIns(s.log)
    decreases Queued(s), if ok && Queued(s) > 0 then 0 else 2
  {
    hide FrameIns;
    var a := s.(pending := false);
    if s.cid != 0 {
      SendStoresNothing(a, ok);
      RequestStoresNothing(DrainCheck(SendOne(a, ok)), sync);
    }
  }

  lemma {:induction false} RequestStoresNothing(s: State, sync: seq<bool>)
    ensures FrameIns(RequestIfNeeded(s, sync).log) == FrameIns(s.log)
    decreases Queued(s), 1
  {
    hide FrameIns;
    if s.cid != 0 && !s.pending && Queued(s) > 0 && sync != [] && sync[0] {
      CanSendStoresNothing(s.(pending := true), true, sync[1..]);
    }
  }

  lemma FrameIsStored(s: State, m: Msg, sync: seq<bool>)
    requires 0 < |m| <= FRAME_MAX_SIZE
    ensures FrameIns(EnqueueFrame(s, m, sync).1.log) == FrameIns(s.log) + [m]
  {
    hide FrameIns;
    var r := MakeRoom(s);
    if |s.frames| == RING_DEPTH - 1 { EventIns(s.log, FrameDropped(s.frames[0])); }
    EventIns(r.log, FrameStored(m));
    RequestStoresNothing(Emit(r, FrameStored(m)).(frames := r.frames + [m]), sync);
  }

  /** The calls for the frames of a tick; syncs says which can-send requests call back at once. */
  function Calls(frames: seq<Msg>, syncs: seq<seq<bool>>): (ops: seq<Op>)
    requires |frames| == |syncs|
    ensures |ops| == |frames|
  {
    if frames == [] then []
    else Calls(frames[..|frames| - 1], syncs[..|frames| - 1]) + [Frame(frames[|frames| - 1], syncs[|frames| - 1])]
  }

  lemma {:induction false} FramesStored(ops: seq<Op>, frames: seq<Msg>, syncs: seq<seq<bool>>)
    requires |frames| == |syncs| && forall i :: 0 <= i < |frames| ==> 0 < |frames[i]| <= FRAME_MAX_SIZE
    ensures FrameIns(Run(ops + Calls(frames, syncs)).log) == FrameIns(Run(ops).log) + frames
    decreases |frames|
  {
    hide FrameIns, EnqueueFrame, EnqueueResponse, CanSendNow, Consistent;
    if frames == [] {
      assert ops + [] == ops;
    } else {
      var n := |frames| - 1;
      var before := ops + Calls(frames[..n], syncs[..n]);
      FramesStored(ops, frames[..n], syncs[..n]);
      FrameIsStored(Run(before), frames[n], syncs[n]);
      var all := ops + Calls(frames, syncs);
      assert all == before + [Frame(frames[n], syncs[n])];
      assert all[..|all| - 1] == before;
      assert frames == frames[..n] + [frames[n]];
    }
  }

  /**
   Whatever the arbiter has been through and whatever calls back during the
   tick, it stores every frame the emitter makes of it, in order, and refuses
   none; what it stores leaves the ring in the order it came, or is still there.
   */
  lemma TickReachesTheRing(ops: seq<Op>, s: B.State, parts: seq<B.Slice>, now: uint32, snaps: seq<W.Snapshot>,
                           syncs: seq<seq<bool>>)
    requires |parts| <= |snaps| && |syncs| == |parts|
    ensures var frames := B.FramesFor(s, parts, now, snaps);
            var after := Run(ops + Calls(frames, syncs));
            Consistent(after) && WokenUp(after) &&
            FrameIns(after.log) == FrameIns(Run(ops).log) + frames &&
            FrameOuts(after.log) + after.frames == FrameIns(Run(ops).log) + frames
  {
    var frames := B.FramesFor(s, parts, now, snaps);
    forall i | 0 <= i < |frames| ensures 0 < |frames[i]| <= FRAME_MAX_SIZE {
      R.FrameDecodes(s, parts, now, snaps, i);
    }
    FramesStored(ops, frames, syncs);
    EveryRunIsLegal(ops + Calls(frames, syncs));
    FramesConserved(Run(ops + Calls(frames, syncs)).log);
  }
}
