/** The reorder queue as a finite map from sequence number to frame, plus a cursor.
    Everything the slot array of `ReorderQueue` does is specified here without slots. */
module QueueSpec {
  import opened Words
  import opened Serial
  import opened Media

  /** Both the number of slots and the width of the sequence window ahead of the cursor. */
  const CAPACITY: int := 64

  const MAX_FRAME_PAYLOAD: int := 512

  datatype FrameInfo = FrameInfo(header: MediaHeader, arrival: u64, deadline: u64)

  datatype Frame = Frame(info: FrameInfo, payload: Bytes)

  datatype Insert = Accepted | Duplicate | Late | TooOld | TooFarAhead | Oversized

  datatype Step = Delivered | Gap

  datatype Counters = Counters(
    accepted: nat, duplicates: nat, late: nat, tooOld: nat, tooFarAhead: nat, oversized: nat,
    expired: nat, discarded: nat, delivered: nat, gaps: nat, resyncs: nat)
  {
    /** How many inserts have been answered, over the six verdicts. */
    function Verdicts(): nat { accepted + duplicates + late + tooOld + tooFarAhead + oversized }
  }

  const ZERO := Counters(0, 0, 0, 0, 0, 0, 0, 0, 0, 0, 0)

  datatype Queue = Queue(started: bool, cursor: u32, highest: u32, frames: map<u32, Frame>, n: Counters)

  const EMPTY := Queue(false, 0, 0, map[], ZERO)

  // ---------------------------------------------------------------- operations

  function StartQ(q: Queue, first: u32): Queue {
    if q.started then q else q.(started := true, cursor := first, highest := first)
  }

  function ResyncQ(q: Queue, sequence: u32): Queue {
    Queue(true, sequence, sequence, map[], q.n.(resyncs := q.n.resyncs + 1))
  }

  function InsertQ(q: Queue, frame: Frame, now: u64): (Queue, Insert) {
    var n := q.n;
    if |frame.payload| > MAX_FRAME_PAYLOAD then (q.(n := n.(oversized := n.oversized + 1)), Oversized)
    else
      var sequence := frame.info.header.sequence;
      var s := StartQ(q, sequence);
      var offset := Distance(s.cursor, sequence);
      if offset < 0 then
        if offset > -CAPACITY then (s.(n := n.(late := n.late + 1)), Late)
        else (s.(n := n.(tooOld := n.tooOld + 1)), TooOld)
      else if offset >= CAPACITY then (s.(n := n.(tooFarAhead := n.tooFarAhead + 1)), TooFarAhead)
      else if now > frame.info.deadline then (s.(n := n.(late := n.late + 1)), Late)
      else if sequence in s.frames then (s.(n := n.(duplicates := n.duplicates + 1)), Duplicate)
      else
        var highest := if |s.frames| == 0 || Precedes(s.highest, sequence) then sequence else s.highest;
        (s.(frames := s.frames[sequence := frame], highest := highest, n := n.(accepted := n.accepted + 1)),
         Accepted)
  }

  function PeekQ(q: Queue, sequence: u32): Option<Frame> {
    if sequence in q.frames then Some(q.frames[sequence]) else None
  }

  function AdvanceQ(q: Queue): (Queue, Step) {
    var n := q.n;
    if !q.started then (q.(n := n.(gaps := n.gaps + 1)), Gap)
    else if q.cursor in q.frames then
      (q.(cursor := Wrap32(q.cursor + 1), frames := q.frames - {q.cursor}, n := n.(delivered := n.delivered + 1)),
       Delivered)
    else (q.(cursor := Wrap32(q.cursor + 1), n := n.(gaps := n.gaps + 1)), Gap)
  }

  /** The frames a jump of `offset` positions leaves in the queue. */
  function Beyond(q: Queue, offset: int): map<u32, Frame> {
    map s: u32 | s in q.frames && Distance(q.cursor, s) >= offset :: q.frames[s]
  }

  function SkipToQ(q: Queue, sequence: u32): (Queue, nat) {
    var offset := Distance(q.cursor, sequence);
    if !q.started || offset <= 0 then (q, 0)
    else
      var kept := Beyond(q, offset);
      BeyondIsSmaller(q, offset);
      (q.(cursor := sequence, frames := kept,
          n := q.n.(discarded := q.n.discarded + |q.frames| - |kept|, gaps := q.n.gaps + offset)),
       offset)
  }

  /** The frames whose deadline has not passed at `now`. */
  function Unexpired(q: Queue, now: u64): map<u32, Frame> {
    map s: u32 | s in q.frames && now <= q.frames[s].info.deadline :: q.frames[s]
  }

  function DropExpiredQ(q: Queue, now: u64): (Queue, nat) {
    var kept := Unexpired(q, now);
    UnexpiredIsSmaller(q, now);
    (q.(frames := kept, n := q.n.(expired := q.n.expired + |q.frames| - |kept|)), |q.frames| - |kept|)
  }

  function DepthQ(q: Queue): int {
    if |q.frames| == 0 then 0 else Distance(q.cursor, q.highest) + 1
  }

  lemma SubmapIsSmaller<K, V>(m: map<K, V>, big: map<K, V>)
    requires m.Keys <= big.Keys
    ensures |m| <= |big|
    decreases |m|
  {
    if m.Keys != {} {
      var k :| k in m.Keys;
      assert (m - {k}).Keys == m.Keys - {k} && (big - {k}).Keys == big.Keys - {k};
      SubmapIsSmaller(m - {k}, big - {k});
    }
  }

  lemma BeyondIsSmaller(q: Queue, offset: int)
    ensures |Beyond(q, offset)| <= |q.frames|
  {
    SubmapIsSmaller(Beyond(q, offset), q.frames);
  }

  lemma UnexpiredIsSmaller(q: Queue, now: u64)
    ensures |Unexpired(q, now)| <= |q.frames|
  {
    SubmapIsSmaller(Unexpired(q, now), q.frames);
  }
}
