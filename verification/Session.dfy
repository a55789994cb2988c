/** The session object: the two callbacks and the sending loop. */
module Sessions {
  import opened Words
  import opened Clock
  import opened Media
  import opened Proto
  import opened RingProtocol
  import opened SpscRings
  import opened PlayoutSpec
  import opened PlayoutRuns
  import opened JitterBuffers
  import opened SessionSpec

  const TX_PCM_SAMPLES: nat := 16_384
  const RX_CAPACITY: nat := 64

  class Session {
    const jitter: JitterBuffer
    const txPcm: SpscRing<i16>
    const rx: SpscRing<Datagram>
    const playout: array<i16>
    const fec: bool
    var playoutUsed: nat
    var streamId: u32
    var sequence: u32
    var timestamp: u32
    var talkspurtOpen: bool
    var counts: SendCounts

    ghost predicate Valid()
      reads this, jitter, jitter.queue, jitter.queue.slots, txPcm, rx
    {
      && jitter.Valid() && txPcm.Valid() && rx.Valid()
      && playout.Length == FRAME_SAMPLES && 0 < playoutUsed <= FRAME_SAMPLES && playout != txPcm.slots
    }

    /** Decoded samples the device has not taken yet. */
    ghost function Pending(): seq<i16>
      requires playoutUsed <= playout.Length
      reads this, playout
    { playout[playoutUsed..] }

    ghost function Sending(): Sender
      reads this
    { Sender(streamId, sequence, timestamp, talkspurtOpen, counts) }

    constructor (fec: bool)
      ensures Valid() && Pending() == [] && !talkspurtOpen
      ensures fresh(playout) && fresh(jitter) && fresh(jitter.queue) && fresh(jitter.queue.slots)
      ensures fresh(txPcm) && fresh(txPcm.slots) && fresh(rx) && fresh(rx.slots)
    {
      this.fec := fec;
      jitter := new JitterBuffer();
      txPcm := new SpscRing(TX_PCM_SAMPLES);
      rx := new SpscRing(RX_CAPACITY);
      playout := new i16[FRAME_SAMPLES](_ => 0);
      playoutUsed := FRAME_SAMPLES;
      streamId, sequence, timestamp, talkspurtOpen := 0, 0, 0, false;
      counts := SendCounts(0, 0, 0, 0, 0);
    }

    method OnCapture(pcm: seq<i16>)
      requires Valid()
      modifies txPcm`write, txPcm`overflows, txPcm.slots
      ensures Valid()
      ensures var kept := Min(|pcm|, txPcm.slots.Length - |old(txPcm.Contents())|);
        txPcm.Contents() == old(txPcm.Contents()) + pcm[..kept]
    {
      var accepted := txPcm.PushBulk(pcm);
    }

    /** Everything received so far enters the jitter buffer, in arrival order. */
    method Drain()
      requires Valid()
      modifies rx`read, jitter, jitter.queue, jitter.queue.slots
      ensures Valid() && rx.Contents() == []
      ensures jitter.Model() == RunB(old(jitter.Model()), Pushes(old(rx.Contents())))
    {
      hide PushB, PullB, Capacity, SpscRing.Contents, SpscRing.Valid, Pushes;
      ghost var all, start, n := rx.Contents(), jitter.Model(), 0;
      NothingPushed(start, all);
      var next := rx.Pop();
      while next.Some?
        invariant Valid() && n <= |all|
        invariant next.Some? ==> n < |all| && next.value == all[n] && rx.Contents() == all[n + 1..]
        invariant next.None? ==> n == |all| && rx.Contents() == []
        invariant jitter.Model() == RunB(start, Pushes(all[..n]))
        decreases |all| - n
      {
        var verdict := jitter.Push(next.value.packet, next.value.arrivalUs);
        OneMorePush(start, all, n);
        n := n + 1;
        next := rx.Pop();
      }
      assert all[..n] == all;
    }

    /** Copies `take` staged samples to the device from `written` on. */
    method CopyStaged(pcm: array<i16>, written: nat, take: nat)
      requires playoutUsed + take <= playout.Length && written + take <= pcm.Length && pcm != playout
      modifies pcm
      ensures pcm[..written + take] == old(pcm[..written]) + playout[playoutUsed..playoutUsed + take]
    {
      for i := 0 to take
        invariant pcm[..written + i] == old(pcm[..written]) + playout[playoutUsed..playoutUsed + i]
      {
        pcm[written + i] := playout[playoutUsed + i];
      }
    }

    method Stage(frame: seq<i16>)
      requires |frame| == playout.Length
      modifies playout
      ensures playout[..] == frame
    {
      for i := 0 to |frame|
        invariant playout[..i] == frame[..i]
      {
        playout[i] := frame[i];
      }
    }

    /** One pull into the staging frame. */
    method PullFrame(t: Tick)
      requires Valid() && |t.frame| == FRAME_SAMPLES
      modifies playout, jitter, jitter.queue, jitter.queue.slots
      ensures Valid() && playout[..] == t.frame
      ensures jitter.Model() == StepB(old(jitter.Model()), PullE(FRAME_SAMPLES, t.now, t.codec))
    {
      hide PullB, Capacity;
      var pulled := jitter.Pull(playout.Length, t.now, t.codec);
      Stage(t.frame);
    }

    /** One turn of the callback: a pull if nothing is staged, then as much as both sides allow. */
    method Serve(pcm: array<i16>, written: nat, remaining: nat, ticks: seq<Tick>, pulls: nat) returns (take: nat)
      requires Valid() && pcm != playout && pcm != txPcm.slots && WholeFrames(ticks)
      requires 0 < remaining && written + remaining <= pcm.Length && (Pending() == [] ==> pulls < |ticks|)
      modifies this`playoutUsed, playout, pcm, jitter, jitter.queue, jitter.queue.slots
      ensures Valid()
      ensures take == Min(remaining, if old(Pending()) == [] then FRAME_SAMPLES else |old(Pending())|)
      ensures old(Pending()) == [] ==>
        && pcm[..written + take] + Pending() == old(pcm[..written]) + ticks[pulls].frame
        && |Pending()| == FRAME_SAMPLES - take
        && jitter.Model() == StepB(old(jitter.Model()), PullE(FRAME_SAMPLES, ticks[pulls].now, ticks[pulls].codec))
      ensures old(Pending()) != [] ==>
        && pcm[..written + take] + Pending() == old(pcm[..written] + Pending())
        && |Pending()| == |old(Pending())| - take
        && jitter.Model() == old(jitter.Model())
    {
      hide StepB, Capacity, JitterBuffer.Model, JitterBuffer.Valid, SpscRing.Valid;
      if playoutUsed >= FRAME_SAMPLES {
        PullFrame(ticks[pulls]);
        playoutUsed := 0;
      }
      take := Min(remaining, FRAME_SAMPLES - playoutUsed);
      CopyStaged(pcm, written, take);
      playoutUsed := playoutUsed + take;
    }

    /** The turn kept in the accounts: `staged` and `start` are the callback's own starting point. */
    method Turn(
      pcm: array<i16>, written: nat, remaining: nat, ticks: seq<Tick>, pulls: nat, ghost staged: seq<i16>,
      ghost start: Buffer)
      returns (take: nat, pulled: nat)
      requires Valid() && pcm != playout && pcm != txPcm.slots && WholeFrames(ticks) && Ticking(start)
      requires 0 < remaining && written + remaining <= pcm.Length
      requires pulls + PullsFor(|Pending()|, remaining) <= |ticks|
      requires Accounted(pcm[..written] + Pending(), staged, ticks, pulls)
      requires jitter.Model() == RunB(start, Pulls(ticks[..pulls]))
      modifies this`playoutUsed, playout, pcm, jitter, jitter.queue, jitter.queue.slots
      ensures Valid() && take <= remaining && pulls + pulled <= |ticks|
      ensures pulled + PullsFor(|Pending()|, remaining - take) == old(PullsFor(|Pending()|, remaining))
      ensures Accounted(pcm[..written + take] + Pending(), staged, ticks, pulls + pulled)
      ensures jitter.Model() == RunB(start, Pulls(ticks[..pulls + pulled])) && take > 0
    {
      hide StepB, RunB, Capacity, PullsFor, Flatten, Pulls, Accounted, SpscRing.Valid, WholeFrames;
      hide JitterBuffer.Model, JitterBuffer.Valid;
      ghost var before := pcm[..written];
      PullsStep(|Pending()|, remaining);
      pulled := if playoutUsed >= FRAME_SAMPLES then 1 else 0;
      assert pulled == 1 ==> before + Pending() == before;
      take := Serve(pcm, written, remaining, ticks, pulls);
      if pulled == 1 {
        OneMorePull(start, ticks, pulls);
        AccountForPull(before, staged, ticks, pulls);
      }
    }

    method ServeAll(pcm: array<i16>, ticks: seq<Tick>) returns (pulls: nat)
      requires Valid() && pcm != playout && pcm != txPcm.slots
      requires WholeFrames(ticks) && PullsFor(|Pending()|, pcm.Length) <= |ticks|
      modifies this`playoutUsed, playout, pcm, jitter, jitter.queue, jitter.queue.slots
      ensures Valid() && pulls == PullsFor(|old(Pending())|, pcm.Length) && pulls <= |ticks|
      ensures pcm[..] + Pending() == old(Pending()) + Flatten(ticks[..pulls])
      ensures jitter.Model() == RunB(old(jitter.Model()), Pulls(ticks[..pulls]))
    {
      hide StepB, RunB, Capacity, PullsFor, Flatten, Pulls, Accounted, SpscRing.Valid, WholeFrames;
      ghost var staged, start := Pending(), jitter.Model();
      assert Ticking(start);
      hide JitterBuffer.Model, JitterBuffer.Valid;
      var remaining: nat, written: nat := pcm.Length, 0;
      pulls := 0;
      NoPulls(start, staged, ticks);
      assert pcm[..0] + staged == staged;
      while remaining > 0
        invariant Valid() && written + remaining == pcm.Length
        invariant pulls <= |ticks| && pulls + PullsFor(|Pending()|, remaining) == PullsFor(|staged|, pcm.Length)
        invariant Accounted(pcm[..written] + Pending(), staged, ticks, pulls)
        invariant jitter.Model() == RunB(start, Pulls(ticks[..pulls]))
      {
        var take, pulled := Turn(pcm, written, remaining, ticks, pulls, staged, start);
        pulls := pulls + pulled;
        written := written + take;
        remaining := remaining - take;
      }
      NoPullsOwed(|Pending()|);
      assert pcm[..written] == pcm[..];
      AllAccounted(pcm[..], Pending(), staged, ticks, pulls);
    }

    /** The device's callback. Nothing it is handed is lost, repeated or reordered, whatever its size,
        and exactly as many frames are pulled as are needed, after everything received is in. */
    method OnPlayout(pcm: array<i16>, ticks: seq<Tick>) returns (pulls: nat)
      requires Valid() && pcm != playout && pcm != txPcm.slots
      requires WholeFrames(ticks) && PullsFor(|Pending()|, pcm.Length) <= |ticks|
      modifies this`playoutUsed, playout, pcm, rx`read, jitter, jitter.queue, jitter.queue.slots
      ensures Valid() && rx.Contents() == []
      ensures pulls == PullsFor(|old(Pending())|, pcm.Length) && pulls <= |ticks|
      ensures pcm[..] + Pending() == old(Pending()) + Flatten(ticks[..pulls])
      ensures jitter.Model() == RunB(RunB(old(jitter.Model()), Pushes(old(rx.Contents()))), Pulls(ticks[..pulls]))
    {
      hide RunB, Capacity, PullsFor, Flatten, Pulls, Pushes;
      Drain();
      pulls := ServeAll(pcm, ticks);
    }

    /** Hands one packet to the socket, through the datagram buffer. False when it does not encode. */
    method Hand(h: MediaHeader, encoded: Option<Bytes>, sends: bool, datagram: array<u8>) returns (wire: seq<Bytes>)
      requires FlagsAssigned(h.flags) && datagram.Length == MAX_DATAGRAM
      modifies this`counts, datagram
      ensures wire == if Encodable(encoded) then [MediaBytes(MediaPacket(h, encoded.value))] else []
      ensures Sending() ==
        if Encodable(encoded) then Counted(old(Sending()), MEDIA_HEADER_SIZE + |encoded.value|, sends)
        else Failed(old(Sending()))
    {
      hide MediaBytes;
      wire := [];
      if encoded.None? {
        counts := counts.(encodeFailed := counts.encodeFailed + 1);
        return;
      }
      var length := EncodeMedia(h, encoded.value, datagram);
      if length == 0 {
        counts := counts.(encodeFailed := counts.encodeFailed + 1);
        return;
      }
      wire := [datagram[..length]];
      if sends {
        counts := counts.(sent := counts.sent + 1, bytes := counts.bytes + length);
      } else {
        counts := counts.(sendFailed := counts.sendFailed + 1);
      }
    }

    /** One captured frame. */
    method Transmit(i: FrameInput, datagram: array<u8>) returns (wire: seq<Bytes>)
      requires datagram.Length == MAX_DATAGRAM
      modifies this`streamId, this`sequence, this`timestamp, this`talkspurtOpen, this`counts, datagram
      ensures Sending() == SendFrame(old(Sending()), fec, i).0
      ensures wire == Wire(AsList(SendFrame(old(Sending()), fec, i).1))
    {
      hide MediaBytes, Wrap32;
      var first := false;
      if i.sending && !talkspurtOpen {
        streamId, sequence, timestamp := i.entropy.streamId, i.entropy.sequence, i.entropy.timestamp;
        talkspurtOpen, first := true, true;
        counts := counts.(talkspurts := counts.talkspurts + 1);
      }
      var flags := FecBit(fec);
      if !i.sending {
        if !talkspurtOpen { return []; }
        wire := Hand(MediaHeader(END_FLAG + flags, streamId, sequence, timestamp), i.encoded, i.sends, datagram);
        sequence, timestamp := Wrap32(sequence + 1), Wrap32(timestamp + FRAME_SAMPLES);
        talkspurtOpen := false;
        return;
      }
      if first { flags := flags + START_FLAG; }
      wire := Hand(MediaHeader(flags, streamId, sequence, timestamp), i.encoded, i.sends, datagram);
      if wire == [] { return; }
      sequence, timestamp := Wrap32(sequence + 1), Wrap32(timestamp + FRAME_SAMPLES);
    }

    /** The sending loop: every whole captured frame, in order, and nothing less than a whole frame. A pop
        never comes back short, so the loop always runs until less than a frame is left. */
    method TransmitAvailable(inputs: seq<FrameInput>) returns (wire: seq<Bytes>, frames: seq<seq<i16>>)
      requires Valid() && |txPcm.Contents()| / FRAME_SAMPLES <= |inputs|
      modifies this`streamId, this`sequence, this`timestamp, this`talkspurtOpen, this`counts, txPcm`read
      ensures Valid() && |frames| == |old(txPcm.Contents())| / FRAME_SAMPLES
      ensures |txPcm.Contents()| < FRAME_SAMPLES && Joined(frames) + txPcm.Contents() == old(txPcm.Contents())
      ensures forall k | 0 <= k < |frames| :: |frames[k]| == FRAME_SAMPLES
      ensures Sending() == SendAll(old(Sending()), fec, inputs[..|frames|])
      ensures wire == Wire(Handed(old(Sending()), fec, inputs[..|frames|]))
    {
      hide SendFrame, SendAll, Handed, Joined, Wire, Capacity, JitterBuffer.Valid, SpscRing.Valid, SpscRing.Contents;
      ghost var all, start := txPcm.Contents(), Sending();
      var frame, datagram := new i16[FRAME_SAMPLES](_ => 0), new u8[MAX_DATAGRAM](_ => 0);
      wire, frames := [], [];
      NothingHanded(start, fec, inputs, all);
      while txPcm.Size() >= FRAME_SAMPLES
        invariant Valid() && |frames| + |txPcm.Contents()| / FRAME_SAMPLES == |all| / FRAME_SAMPLES
        invariant Joined(frames) + txPcm.Contents() == all
        invariant forall k | 0 <= k < |frames| :: |frames[k]| == FRAME_SAMPLES
        invariant Sending() == SendAll(start, fec, inputs[..|frames|])
        invariant wire == Wire(Handed(start, fec, inputs[..|frames|]))
        decreases |txPcm.Contents()|
      {
        ghost var before := txPcm.Contents();
        OneFrameFewer(|before|);
        var got := txPcm.PopBulk(frame, FRAME_SAMPLES);
        if got < FRAME_SAMPLES { break; }
        JoinOneMore(frames, frame[..], before, txPcm.Contents());
        OneMoreHanded(start, fec, inputs, |frames|);
        var sent := Transmit(inputs[|frames|], datagram);
        wire, frames := wire + sent, frames + [frame[..]];
      }
    }
  }

  lemma NoPullsOwed(pending: nat)
    ensures PullsFor(pending, 0) == 0
  {}

  /** A turn uses up a pull exactly when nothing is staged. */
  lemma PullsStep(pending: nat, remaining: nat)
    requires pending <= FRAME_SAMPLES && remaining > 0
    ensures var staged := if pending == 0 then FRAME_SAMPLES else pending;
      var take := Min(remaining, staged);
      PullsFor(pending, remaining) == (if pending == 0 then 1 else 0) + PullsFor(staged - take, remaining - take)
  {}

  lemma NothingPushed(b: Buffer, all: seq<Datagram>)
    requires Ticking(b)
    ensures RunB(b, Pushes(all[..0])) == b
  {}

  lemma OneMorePush(b: Buffer, all: seq<Datagram>, n: nat)
    requires n < |all| && Ticking(b)
    ensures RunB(b, Pushes(all[..n + 1])) ==
      PushB(RunB(b, Pushes(all[..n])), all[n].packet, all[n].arrivalUs).0
  {
    hide PushB;
    var events := Pushes(all[..n + 1]);
    assert events[..n] == Pushes(all[..n]) && events[n] == PushE(all[n].packet, all[n].arrivalUs);
  }

  /** What has been delivered and what is staged are what was staged at first and what was pulled. */
  ghost predicate Accounted(held: seq<i16>, staged: seq<i16>, ticks: seq<Tick>, pulls: nat) {
    pulls <= |ticks| && held == staged + Flatten(ticks[..pulls])
  }

  lemma AllAccounted(pcm: seq<i16>, pending: seq<i16>, staged: seq<i16>, ticks: seq<Tick>, pulls: nat)
    requires Accounted(pcm + pending, staged, ticks, pulls)
    ensures pulls <= |ticks| && pcm + pending == staged + Flatten(ticks[..pulls])
  {}

  lemma AccountForPull(held: seq<i16>, staged: seq<i16>, ticks: seq<Tick>, pulls: nat)
    requires Accounted(held, staged, ticks, pulls) && pulls < |ticks|
    ensures Accounted(held + ticks[pulls].frame, staged, ticks, pulls + 1)
  {
    assert ticks[..pulls + 1][..pulls] == ticks[..pulls];
    var before, frame := Flatten(ticks[..pulls]), ticks[pulls].frame;
    assert (staged + before) + frame == staged + (before + frame);
  }

  lemma NoPulls(b: Buffer, staged: seq<i16>, ticks: seq<Tick>)
    requires Ticking(b)
    ensures Accounted(staged, staged, ticks, 0) && RunB(b, Pulls(ticks[..0])) == b
  {
    assert staged + [] == staged;
  }

  lemma OneMorePull(b: Buffer, ticks: seq<Tick>, n: nat)
    requires n < |ticks| && Ticking(b)
    ensures RunB(b, Pulls(ticks[..n + 1])) ==
      StepB(RunB(b, Pulls(ticks[..n])), PullE(FRAME_SAMPLES, ticks[n].now, ticks[n].codec))
  {
    hide StepB;
    var events := Pulls(ticks[..n + 1]);
    assert events[..n] == Pulls(ticks[..n]);
  }

  lemma OneFrameFewer(n: nat)
    requires n >= FRAME_SAMPLES
    ensures (n - FRAME_SAMPLES) / FRAME_SAMPLES == n / FRAME_SAMPLES - 1
  {}

  function Joined(frames: seq<seq<i16>>): seq<i16> {
    if frames == [] then [] else Joined(frames[..|frames| - 1]) + frames[|frames| - 1]
  }

  lemma JoinOneMore(frames: seq<seq<i16>>, frame: seq<i16>, before: seq<i16>, after: seq<i16>)
    requires before == frame + after
    ensures Joined(frames + [frame]) + after == Joined(frames) + before
  {
    assert (frames + [frame])[..|frames|] == frames;
  }

  lemma NothingHanded(s: Sender, fec: bool, inputs: seq<FrameInput>, all: seq<i16>)
    ensures SendAll(s, fec, inputs[..0]) == s && Wire(Handed(s, fec, inputs[..0])) == []
    ensures Joined([]) + all == all
  {}

  lemma OneMoreHanded(s: Sender, fec: bool, inputs: seq<FrameInput>, n: nat)
    requires n < |inputs|
    ensures var t := SendAll(s, fec, inputs[..n]);
      && SendAll(s, fec, inputs[..n + 1]) == SendFrame(t, fec, inputs[n]).0
      && Wire(Handed(s, fec, inputs[..n + 1])) ==
           Wire(Handed(s, fec, inputs[..n])) + Wire(AsList(SendFrame(t, fec, inputs[n]).1))
  {
    hide SendFrame, MediaBytes;
    assert inputs[..n + 1][..n] == inputs[..n];
  }
}
