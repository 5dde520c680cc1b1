/** The minutes the chat quotes (app/creative/pipeline.py `working_window`), against the queue
    and the gate they are derived from. */
module Quote {
  import opened Numeric
  import opened Gate
  import Queue = VendorQueue

  const VENDOR_CEILING_S := 120
  const COMPOSITING_S := 40

  datatype Settings = Settings(slot: Slot, price: nat, concurrency: int)

  function Lanes(s: Settings): (n: nat)
    ensures n >= 1
  {
    MaxInt(1, s.concurrency)
  }

  /** Seconds: a clean first picture, and the last attempt the budget allows. */
  function WorkingWindow(s: Settings, slides: nat): (nat, nat) {
    var lanes := Lanes(s);
    var waves := (MaxInt(1, slides) + lanes - 1) / lanes;
    (VENDOR_CEILING_S * waves + COMPOSITING_S,
     VENDOR_CEILING_S * PaidAttempts(s.slot.attempts, s.slot.budget, s.price) * waves + COMPOSITING_S)
  }

  /** Neither figure is longer than it says: the fewest waves that seat every slide -- one slide, when
      there is none -- each of one call, or of every call the gate is allowed, and the compositing. */
  lemma WindowInWaves(s: Settings, slides: nat) returns (waves: nat)
    ensures var lanes, seats := MaxInt(1, s.concurrency), MaxInt(1, slides);
            (waves - 1) * lanes < seats <= waves * lanes
    ensures WorkingWindow(s, slides).0 == 120 * waves + 40
    ensures WorkingWindow(s, slides).1 == 120 * waves * PaidAttempts(s.slot.attempts, s.slot.budget, s.price) + 40
  {
    var lanes, seats := MaxInt(1, s.concurrency), MaxInt(1, slides);
    waves := (seats + lanes - 1) / lanes;
    Divided(seats + lanes - 1, lanes);
    OneLess(waves, lanes);
    Reordered(120, PaidAttempts(s.slot.attempts, s.slot.budget, s.price), waves);
  }

  lemma OneLess(waves: int, lanes: int)
    ensures (waves - 1) * lanes == waves * lanes - lanes
  {
  }

  lemma Reordered(a: int, b: int, c: int)
    ensures a * b * c == a * c * b
  {
  }

  /** The queue the slides of a job really share: the register's semaphore and the vendor's ceiling. */
  function JobOf(s: Settings, slides: nat): Queue.Job
    requires slides > 0
  {
    Queue.Job(slides, MaxInt(1, s.concurrency), VENDOR_CEILING_S as real)
  }

  /** The quoted worst case is sound. Let any number of slides share the semaphore, each asking for
      no more vendor calls than its gate really makes, every call at most VENDOR_CEILING_S long: then,
      whatever the interleaving, each slide is last seen waiting for the vendor or calling it inside
      the window less the compositing allowance, plus the time it spent idling between calls -- which
      nothing quotes. Once that time is over no slide waits for a lane or holds one. */
  lemma WindowCoversTheQueue(s: Settings, slides: nat, events: seq<Queue.Event>, i: nat,
                             vendor: Vendor)
    requires slides > 0 && PricedAtLeast(vendor, s.price)
    requires var st := Queue.After(JobOf(s, slides), Queue.Start(JobOf(s, slides)), events);
             i < |st.slides| && Queue.Begun(st, i) <= Calls(Generated(s.slot, vendor, s.price))
    ensures var st := Queue.After(JobOf(s, slides), Queue.Start(JobOf(s, slides)), events);
            var window := (WorkingWindow(s, slides).1 - COMPOSITING_S) as real + st.slides[i].idle;
            Queue.LastSeen(st, i) <= window && (st.now > window ==> !Queue.Outstanding(st, i))
  {
    var k := PaidAttempts(s.slot.attempts, s.slot.budget, s.price);
    GateWithinPaidAttempts(s.slot, vendor, s.price, s.price);
    Queue.QueueBound(JobOf(s, slides), events, i, k);
    WindowIsTurns(s, slides, k);
  }

  /** And so is the quoted best case: a slide whose first picture passes has asked once, and is last
      seen waiting or calling inside the low figure, whatever the other slides go on to do. */
  lemma CleanFirstPictureInTheLowFigure(s: Settings, slides: nat, events: seq<Queue.Event>, i: nat)
    requires slides > 0
    requires var st := Queue.After(JobOf(s, slides), Queue.Start(JobOf(s, slides)), events);
             i < |st.slides| && Queue.Begun(st, i) <= 1
    ensures var st := Queue.After(JobOf(s, slides), Queue.Start(JobOf(s, slides)), events);
            var window := (WorkingWindow(s, slides).0 - COMPOSITING_S) as real + st.slides[i].idle;
            Queue.LastSeen(st, i) <= window && (st.now > window ==> !Queue.Outstanding(st, i))
  {
    Queue.QueueBound(JobOf(s, slides), events, i, 1);
    LowIsATurn(s, slides);
  }

  /** Nor can either be shortened: there are runs in which a slide that never idles is with the vendor
      until the very end of the low figure, on its first call, and of the high one, on the last call
      its gate makes of a vendor whose every picture is refused. */
  lemma WindowIsReached(s: Settings, slides: nat) returns (low: seq<Queue.Event>, high: seq<Queue.Event>, i: nat)
    requires slides > 0
    ensures var st := Queue.After(JobOf(s, slides), Queue.Start(JobOf(s, slides)), low);
            && i < |st.slides| && Queue.Begun(st, i) == 1 && st.slides[i].idle == 0.0
            && Queue.LastSeen(st, i) == (WorkingWindow(s, slides).0 - COMPOSITING_S) as real
    ensures var st := Queue.After(JobOf(s, slides), Queue.Start(JobOf(s, slides)), high);
            && i < |st.slides| && st.slides[i].idle == 0.0
            && Queue.Begun(st, i) == Calls(Generated(s.slot, NeverPasses(s.price), s.price))
            && Queue.LastSeen(st, i) == (WorkingWindow(s, slides).1 - COMPOSITING_S) as real
  {
    var k := PaidAttempts(s.slot.attempts, s.slot.budget, s.price);
    PaidAttemptsExact(s.slot, NeverPasses(s.price), s.price, s.price);
    low, i := Queue.QueueBoundIsReached(JobOf(s, slides), 1);
    high, i := Queue.QueueBoundIsReached(JobOf(s, slides), k);
    LowIsATurn(s, slides);
    WindowIsTurns(s, slides, k);
  }

  lemma LowIsATurn(s: Settings, slides: nat)
    requires slides > 0
    ensures Times(1, VENDOR_CEILING_S as real * ((slides + Lanes(s) - 1) / Lanes(s)) as real)
            == (WorkingWindow(s, slides).0 - COMPOSITING_S) as real
  {
    var turn := VENDOR_CEILING_S as real * ((slides + Lanes(s) - 1) / Lanes(s)) as real;
    assert Times(0, turn) == 0.0 && Times(1, turn) == Times(0, turn) + turn;
  }

  /** The window before the compositing allowance, as k turns of the queue. */
  lemma WindowIsTurns(s: Settings, slides: nat, k: nat)
    requires slides > 0 && k == PaidAttempts(s.slot.attempts, s.slot.budget, s.price)
    ensures Times(k, VENDOR_CEILING_S as real * ((slides + Lanes(s) - 1) / Lanes(s)) as real)
            == (WorkingWindow(s, slides).1 - COMPOSITING_S) as real
  {
    var waves := (slides + Lanes(s) - 1) / Lanes(s);
    TimesIsProduct(k, VENDOR_CEILING_S as real * waves as real);
    AsWhole(VENDOR_CEILING_S, waves, k);
  }

  lemma AsWhole(t: nat, waves: nat, k: nat)
    ensures t as real * waves as real * k as real == (t * k * waves) as real
  {
  }
}
