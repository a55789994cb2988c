/** What the two threads are told, added up over every interleaving: how much each push took and each pop got,
    and which pushes fell short. */
module RingAccounts {
  import opened Words
  import opened RingProtocol

  /** The room a push sees: the capacity less what was published and, as far as this thread knows, not retired. */
  function Room<T>(s: Ring<T>, load: nat): int { |s.slots| - (|s.accepted| - load) }

  /** Items this step undertakes to publish: as many as there is room for. */
  function TakenBy<T>(s: Ring<T>, step: Step<T>): int {
    if step.PBegin? && step.source != [] then Min(|step.source|, Room(s, step.load)) else 0
  }

  /** The step begins a push that cannot take everything. */
  predicate FallsShort<T>(s: Ring<T>, step: Step<T>) {
    step.PBegin? && step.source != [] && |step.source| > Room(s, step.load)
  }

  /** Positions this step undertakes to retire: as many as are asked for and known to be published. */
  function AskedBy<T>(s: Ring<T>, step: Step<T>): int {
    if step.CBegin? then Min(step.count, step.load - |s.consumed|) else 0
  }

  /** A short push still in hand, which is counted when it is published. */
  function InFlight<T>(s: Ring<T>): nat { if s.producer.PCopying? && s.producer.short then 1 else 0 }

  function InHand<T>(s: Ring<T>): nat { if s.consumer.CTaking? then s.consumer.taken else 0 }

  function ShortPushes<T>(s: Ring<T>, steps: seq<Step<T>>): nat
    requires |s.slots| > 0 && IsRun(s, steps)
    decreases |steps|
  {
    if steps == [] then 0
    else (if FallsShort(s, steps[0]) then 1 else 0) + ShortPushes(Next(s, steps[0]), steps[1..])
  }

  function Taken<T>(s: Ring<T>, steps: seq<Step<T>>): int
    requires |s.slots| > 0 && IsRun(s, steps)
    decreases |steps|
  { if steps == [] then 0 else TakenBy(s, steps[0]) + Taken(Next(s, steps[0]), steps[1..]) }

  function Asked<T>(s: Ring<T>, steps: seq<Step<T>>): int
    requires |s.slots| > 0 && IsRun(s, steps)
    decreases |steps|
  { if steps == [] then 0 else AskedBy(s, steps[0]) + Asked(Next(s, steps[0]), steps[1..]) }

  lemma ProducerAccounts<T>(s: Ring<T>, step: Step<T>)
    requires Safe(s) && Enabled(s, step)
    ensures var t := Next(s, step);
      && t.overflows + InFlight(t) == s.overflows + InFlight(s) + (if FallsShort(s, step) then 1 else 0)
      && |Pending(t)| == |Pending(s)| + TakenBy(s, step) && TakenBy(s, step) >= 0
      && (step.PBegin? && step.source != [] ==> Pending(t) == s.accepted + step.source[..TakenBy(s, step)])
  {
    if step.PBegin? { DifferencesAreTrue(s, step.load); }
    hide Capacity, Wrap64, Free, Available, Slot, Retired, Stored;
  }

  lemma ConsumerAccounts<T>(s: Ring<T>, step: Step<T>)
    requires Safe(s) && Enabled(s, step)
    ensures var t := Next(s, step);
      |t.consumed| + InHand(t) == |s.consumed| + InHand(s) + AskedBy(s, step) && AskedBy(s, step) >= 0
  {
    if step.CBegin? { DifferencesAreTrue(s, step.load); }
    hide Capacity, Wrap64, Free, Available, Slot, Stored;
  }

  lemma StepKeepsSafe<T>(s: Ring<T>, step: Step<T>)
    requires Safe(s) && Enabled(s, step)
    ensures Safe(Next(s, step))
  {
    hide Safe, Enabled, Next;
    if step.PBegin? || step.PCopy? || step.PPublish? || step.PSize? { ProducerKeepsSafe(s, step); }
    else { ConsumerKeepsSafe(s, step); }
  }

  /** On every interleaving: what is published or in hand is exactly what the pushes had room for, the overflow count
      is the number of pushes that fell short, once they are done, and what is retired or in hand is exactly
      what the pops asked for and could know of. */
  lemma {:induction false} PushesAndPopsAddUp<T>(s: Ring<T>, steps: seq<Step<T>>)
    requires Safe(s) && IsRun(s, steps)
    ensures var t := Run(s, steps);
      && t.overflows + InFlight(t) == s.overflows + InFlight(s) + ShortPushes(s, steps)
      && |Pending(t)| == |Pending(s)| + Taken(s, steps)
      && |t.consumed| + InHand(t) == |s.consumed| + InHand(s) + Asked(s, steps)
    decreases |steps|
  {
    if steps != [] {
      var next := Next(s, steps[0]);
      StepKeepsSafe(s, steps[0]);
      ProducerAccounts(s, steps[0]);
      ConsumerAccounts(s, steps[0]);
      hide Safe, Enabled, Next, FallsShort, TakenBy, AskedBy, InFlight, InHand, Pending;
      PushesAndPopsAddUp(next, steps[1..]);
    }
  }
}
