/** One job's slides sharing the semaphore that bounds how many vendor calls are in flight. */
module VendorQueue {
  import opened Numeric

  // app/creative/pipeline.py `dedupe_register`, the `async with sem` in `_generate_checked`, and the
  // worst case `working_window` quotes. asyncio.Semaphore hands a released lane to the first waiter,
  // so it is a FIFO queue. Slides ask for a lane, hold it for one vendor call, and may idle between
  // calls (inspecting, hashing). Time is real and every interleaving is allowed.

  /** A call holding a lane, and a call waiting for one. */
  datatype Lane = Lane(slide: nat, asked: real, started: real)
  datatype Waiter = Waiter(slide: nat, asked: real)

  /** What a slide has done: calls finished, seconds it chose to spend away from the queue
      between calls, and the moment it last finished one. */
  datatype Slide = Slide(calls: nat, idle: real, freeAt: real)

  /** `running` is in the order the calls were granted. */
  datatype State = State(now: real, running: seq<Lane>, waiting: seq<Waiter>, slides: seq<Slide>)

  datatype Job = Job(slides: nat, lanes: nat, ceiling: real)

  datatype Event = Ask(slide: nat) | Finish(lane: nat) | Tick(seconds: real)

  function Start(job: Job): State {
    State(0.0, [], [], seq(job.slides, _ => Slide(0, 0.0, 0.0)))
  }

  predicate Outstanding(s: State, slide: nat) {
    (exists i :: 0 <= i < |s.running| && s.running[i].slide == slide)
    || (exists i :: 0 <= i < |s.waiting| && s.waiting[i].slide == slide)
  }

  predicate Enabled(job: Job, s: State, e: Event) {
    match e
    case Ask(i) => i < |s.slides| && !Outstanding(s, i)
    case Finish(l) => l < |s.running|
    case Tick(d) =>
      // A vendor call lasts at most `ceiling`, whatever its length inside it.
      d >= 0.0 && forall l :: 0 <= l < |s.running| ==> s.now + d <= s.running[l].started + job.ceiling
  }

  function Next(job: Job, s: State, e: Event): State
    requires Enabled(job, s, e)
  {
    match e
    case Ask(i) =>
      var t := s.(slides := s.slides[i := s.slides[i].(idle := s.slides[i].idle + (s.now - s.slides[i].freeAt))]);
      if |s.running| < job.lanes && s.waiting == []
      then t.(running := s.running + [Lane(i, s.now, s.now)])
      else t.(waiting := s.waiting + [Waiter(i, s.now)])
    case Finish(l) =>
      var call := s.running[l];
      var rest := s.running[..l] + s.running[l + 1..];
      var t := if call.slide < |s.slides|
               then var was := s.slides[call.slide];
                    s.(slides := s.slides[call.slide :=
                         Slide(was.calls + 1, was.idle, s.now)])
               else s;
      if s.waiting == [] then t.(running := rest)
      else t.(running := rest + [Lane(s.waiting[0].slide, s.waiting[0].asked, s.now)],
              waiting := s.waiting[1..])
    case Tick(d) => s.(now := s.now + d)
  }

  ghost function After(job: Job, s: State, events: seq<Event>): State
    decreases |events|
  {
    if events == [] then s
    else After(job, if Enabled(job, s, events[0]) then Next(job, s, events[0]) else s, events[1..])
  }

  // ------------------------------------------------------------------ the bound

  /** How often `slides` calls go round `lanes` lanes. */
  function Waves(slides: nat, lanes: nat): nat
    requires lanes > 0
  {
    if slides == 0 then 0 else if slides <= lanes then 1 else 1 + Waves(slides - lanes, lanes)
  }

  /** The longest one call can take from asking to finishing. */
  function Turn(job: Job): real
    requires job.lanes > 0
  {
    Times(Waves(job.slides, job.lanes), job.ceiling)
  }

  /** The latest moment the waiter at place q can be handed a lane: the lane it will get is
      freed, then used, whole rounds at a time. */
  function WorstStart(job: Job, s: State, q: nat): real
    requires job.lanes > 0 && |s.running| == job.lanes
  {
    if q < job.lanes then s.running[q].started + job.ceiling else WorstStart(job, s, q - job.lanes) + job.ceiling
  }

  ghost predicate Distinct(s: State) {
    && (forall i, j :: 0 <= i < j < |s.running| ==> s.running[i].slide != s.running[j].slide)
    && (forall i, j :: 0 <= i < j < |s.waiting| ==> s.waiting[i].slide != s.waiting[j].slide)
    && (forall i, j :: 0 <= i < |s.running| && 0 <= j < |s.waiting| ==> s.running[i].slide != s.waiting[j].slide)
  }

  ghost predicate Shape(job: Job, s: State) {
    && |s.slides| == job.slides
    && |s.running| <= job.lanes
    && (s.waiting != [] ==> |s.running| == job.lanes)
    && (forall i :: 0 <= i < |s.running| ==> s.running[i].slide < job.slides)
    && (forall i :: 0 <= i < |s.waiting| ==> s.waiting[i].slide < job.slides)
    && Distinct(s)
  }

  ghost predicate Clock(job: Job, s: State) {
    && (forall i :: 0 <= i < |s.running| ==> s.running[i].asked <= s.running[i].started <= s.now)
    && (forall i :: 0 <= i < |s.running| ==> s.now <= s.running[i].started + job.ceiling)
    && (forall i, j :: 0 <= i < j < |s.running| ==> s.running[i].started <= s.running[j].started)
    && (forall i :: 0 <= i < |s.waiting| ==> s.waiting[i].asked <= s.now)
  }

  /** Every call will be, or was, handed its lane a whole call before its turn is over. */
  ghost predicate OnTime(job: Job, s: State)
    requires job.lanes > 0
  {
    && (forall i :: 0 <= i < |s.running| ==> s.running[i].started + job.ceiling <= s.running[i].asked + Turn(job))
    && (|s.running| == job.lanes ==> forall q :: 0 <= q < |s.waiting| ==>
          WorstStart(job, s, q) + job.ceiling <= s.waiting[q].asked + Turn(job))
  }

  /** `at` is no later than the turns the slide has used and the time it idled away. */
  predicate Within(job: Job, slide: Slide, at: real)
    requires job.lanes > 0
  {
    at <= Times(slide.calls, Turn(job)) + slide.idle
  }

  ghost predicate Tally(job: Job, s: State)
    requires job.lanes > 0
  {
    && (forall i :: 0 <= i < |s.slides| && !Outstanding(s, i) ==> Within(job, s.slides[i], s.slides[i].freeAt))
    && (forall i :: 0 <= i < |s.running| && s.running[i].slide < |s.slides| ==>
          Within(job, s.slides[s.running[i].slide], s.running[i].asked))
    && (forall i :: 0 <= i < |s.waiting| && s.waiting[i].slide < |s.slides| ==>
          Within(job, s.slides[s.waiting[i].slide], s.waiting[i].asked))
  }

  ghost predicate Inv(job: Job, s: State) {
    job.lanes > 0 && job.ceiling >= 0.0 && Shape(job, s) && Clock(job, s) && OnTime(job, s) && Tally(job, s)
  }

  // ------------------------------------------------------------------ every step keeps it

  function Upto(n: nat): (r: set<int>)
    ensures |r| == n
    ensures forall k :: k in r <==> 0 <= k < n
  {
    if n == 0 then {} else Upto(n - 1) + {n - 1}
  }

  function Owners(s: State): seq<int> {
    seq(|s.running| + |s.waiting|, i requires 0 <= i < |s.running| + |s.waiting| =>
      if i < |s.running| then s.running[i].slide else s.waiting[i - |s.running|].slide)
  }

  lemma {:induction false} DistinctBelow(xs: seq<int>, bound: set<int>)
    requires forall i, j :: 0 <= i < j < |xs| ==> xs[i] != xs[j]
    requires forall i :: 0 <= i < |xs| ==> xs[i] in bound
    ensures |xs| <= |bound|
  {
    if xs != [] {
      DistinctBelow(xs[1..], bound - {xs[0]});
    }
  }

  /** A slide that asks finds at most every other slide ahead of it. */
  lemma RoomToAsk(job: Job, s: State, i: nat)
    requires Shape(job, s) && i < job.slides && !Outstanding(s, i)
    ensures |s.running| + |s.waiting| + 1 <= job.slides
  {
    var xs := [i] + Owners(s);
    DistinctBelow(xs, Upto(job.slides));
  }

  lemma TimesMonotone(a: nat, b: nat, c: real)
    requires a <= b && c >= 0.0
    ensures 0.0 <= Times(a, c) <= Times(b, c)
  {
  }

  lemma OneTurn(job: Job)
    requires job.lanes > 0 && job.ceiling >= 0.0 && job.slides > 0
    ensures job.ceiling <= Turn(job)
  {
    TimesMonotone(1, Waves(job.slides, job.lanes), job.ceiling);
    assert Times(0, job.ceiling) == 0.0;
  }

  /** A newcomer at place q, with every lane taken and at most the other slides ahead. */
  lemma WavesCover(job: Job, s: State, q: nat, slides: nat)
    requires job.lanes > 0 && job.ceiling >= 0.0 && |s.running| == job.lanes && q + job.lanes + 1 <= slides
    requires forall i :: 0 <= i < |s.running| ==> s.running[i].started <= s.now
    ensures WorstStart(job, s, q) + job.ceiling <= s.now + Times(Waves(slides, job.lanes), job.ceiling)
  {
    if q < job.lanes {
      TimesMonotone(2, Waves(slides, job.lanes), job.ceiling);
      assert Times(2, job.ceiling) == Times(1, job.ceiling) + job.ceiling == Times(0, job.ceiling) + 2.0 * job.ceiling;
    } else {
      WavesCover(job, s, q - job.lanes, slides - job.lanes);
    }
  }

  lemma WorstStartFrame(job: Job, s: State, t: State, q: nat)
    requires job.lanes > 0 && |s.running| == job.lanes && t.running == s.running
    ensures WorstStart(job, t, q) == WorstStart(job, s, q)
  {
  }

  lemma AskOnTime(job: Job, s: State, i: nat)
    requires Inv(job, s) && Enabled(job, s, Ask(i))
    ensures OnTime(job, Next(job, s, Ask(i)))
  {
    var t := Next(job, s, Ask(i));
    RoomToAsk(job, s, i);
    OneTurn(job);
    if |s.running| == job.lanes {
      WavesCover(job, s, |s.waiting|, job.slides);
      forall p | 0 <= p < |t.waiting| ensures WorstStart(job, t, p) == WorstStart(job, s, p) {
        WorstStartFrame(job, s, t, p);
      }
    }
  }

  lemma AskTally(job: Job, s: State, i: nat)
    requires job.lanes > 0 && Shape(job, s) && Tally(job, s) && Enabled(job, s, Ask(i))
    ensures Tally(job, Next(job, s, Ask(i)))
  {
    AskOutstanding(job, s, i);
    assert Within(job, s.slides[i], s.slides[i].freeAt);
  }

  lemma AskShape(job: Job, s: State, i: nat)
    requires job.lanes > 0 && Shape(job, s) && Clock(job, s) && job.ceiling >= 0.0 && Enabled(job, s, Ask(i))
    ensures Shape(job, Next(job, s, Ask(i))) && Clock(job, Next(job, s, Ask(i)))
  {
  }

  lemma AskOutstanding(job: Job, s: State, i: nat)
    requires Enabled(job, s, Ask(i))
    ensures forall k: nat :: k < |s.slides| && !Outstanding(Next(job, s, Ask(i)), k) ==> k != i && !Outstanding(s, k)
  {
    var t := Next(job, s, Ask(i));
    forall k: nat | k == i || Outstanding(s, k) ensures Outstanding(t, k) {
      if exists l :: 0 <= l < |s.running| && s.running[l].slide == k {
        var l :| 0 <= l < |s.running| && s.running[l].slide == k;
        assert t.running[l].slide == k;
      } else if exists l :: 0 <= l < |s.waiting| && s.waiting[l].slide == k {
        var l :| 0 <= l < |s.waiting| && s.waiting[l].slide == k;
        assert t.waiting[l].slide == k;
      } else if |s.running| < job.lanes && s.waiting == [] {
        assert t.running[|s.running|].slide == i;
      } else {
        assert t.waiting[|s.waiting|].slide == i;
      }
    }
  }

  /** When lane l is handed on, no waiter's worst start gets worse. */
  lemma HandOn(job: Job, s: State, t: State, l: nat, q: nat)
    requires job.lanes > 0 && Clock(job, s) && |s.running| == job.lanes && l < job.lanes && q > 0
    requires |t.running| == job.lanes && t.running[job.lanes - 1].started == s.now
    requires forall p :: 0 <= p < job.lanes - 1 ==> t.running[p] == s.running[if p < l then p else p + 1]
    ensures WorstStart(job, t, q - 1) <= WorstStart(job, s, q)
  {
    if q > job.lanes { HandOn(job, s, t, l, q - job.lanes); }
  }

  /** The lanes after a hand-over, one by one. */
  lemma FinishLanes(job: Job, s: State, l: nat)
    requires Enabled(job, s, Finish(l))
    ensures var t := Next(job, s, Finish(l));
            var m := |s.running| - 1;
            && (forall p :: 0 <= p < m ==> t.running[p] == s.running[if p < l then p else p + 1])
            && (s.waiting == [] ==> |t.running| == m && t.waiting == [])
            && (s.waiting != [] ==> |t.running| == m + 1 && t.waiting == s.waiting[1..]
                                    && t.running[m] == Lane(s.waiting[0].slide, s.waiting[0].asked, s.now))
  {
  }

  lemma FinishDistinct(job: Job, s: State, l: nat)
    requires Distinct(s) && Enabled(job, s, Finish(l))
    ensures Distinct(Next(job, s, Finish(l)))
  {
    FinishLanes(job, s, l);
  }

  lemma FinishShape(job: Job, s: State, l: nat)
    requires job.lanes > 0 && Shape(job, s) && Clock(job, s) && job.ceiling >= 0.0 && Enabled(job, s, Finish(l))
    ensures Shape(job, Next(job, s, Finish(l))) && Clock(job, Next(job, s, Finish(l)))
  {
    FinishLanes(job, s, l);
    FinishDistinct(job, s, l);
  }

  /** The first waiter takes over the lane in time. */
  lemma HandedOnTime(job: Job, s: State)
    requires job.lanes > 0 && Shape(job, s) && Clock(job, s) && OnTime(job, s) && s.running != [] && s.waiting != []
    ensures s.now + job.ceiling <= s.waiting[0].asked + Turn(job)
  {
    assert WorstStart(job, s, 0) == s.running[0].started + job.ceiling;
  }

  lemma FinishOnTime(job: Job, s: State, l: nat)
    requires Inv(job, s) && Enabled(job, s, Finish(l))
    ensures OnTime(job, Next(job, s, Finish(l)))
  {
    var t := Next(job, s, Finish(l));
    FinishLanes(job, s, l);
    if s.waiting != [] {
      HandedOnTime(job, s);
      forall p | 0 <= p < |t.waiting| ensures WorstStart(job, t, p) + job.ceiling <= t.waiting[p].asked + Turn(job) {
        HandOn(job, s, t, l, p + 1);
      }
    }
  }

  lemma FinishOutstanding(job: Job, s: State, l: nat, k: nat)
    requires Enabled(job, s, Finish(l)) && s.running[l].slide != k && Outstanding(s, k)
    ensures Outstanding(Next(job, s, Finish(l)), k)
  {
    var t := Next(job, s, Finish(l));
    if exists p :: 0 <= p < |s.running| && s.running[p].slide == k {
      var p :| 0 <= p < |s.running| && s.running[p].slide == k;
      assert t.running[if p < l then p else p - 1].slide == k;
    } else {
      var p :| 0 <= p < |s.waiting| && s.waiting[p].slide == k;
      if p == 0 { assert t.running[|s.running| - 1].slide == k; } else { assert t.waiting[p - 1].slide == k; }
    }
  }

  lemma OneTurnMore(job: Job, before: Slide, after: Slide, asked: real, now: real)
    requires job.lanes > 0 && Within(job, before, asked) && now <= asked + Turn(job)
    requires after.calls == before.calls + 1 && after.idle == before.idle
    ensures Within(job, after, now)
  {
    assert Times(after.calls, Turn(job)) == Times(before.calls, Turn(job)) + Turn(job);
  }

  /** The slide whose call is over has used one turn more. */
  lemma FreedInTime(job: Job, s: State, l: nat)
    requires Inv(job, s) && Enabled(job, s, Finish(l))
    ensures Within(job, Next(job, s, Finish(l)).slides[s.running[l].slide], s.now)
  {
    var i := s.running[l].slide;
    assert s.now <= s.running[l].started + job.ceiling <= s.running[l].asked + Turn(job);
    OneTurnMore(job, s.slides[i], Next(job, s, Finish(l)).slides[i], s.running[l].asked, s.now);
  }

  lemma FinishTally(job: Job, s: State, l: nat)
    requires job.lanes > 0 && Shape(job, s) && Tally(job, s) && Enabled(job, s, Finish(l))
    requires Within(job, Next(job, s, Finish(l)).slides[s.running[l].slide], s.now)
    ensures Tally(job, Next(job, s, Finish(l)))
  {
    var t := Next(job, s, Finish(l));
    var i := s.running[l].slide;
    forall k: nat | k < |t.slides| && !Outstanding(t, k) ensures Within(job, t.slides[k], t.slides[k].freeAt) {
      if k != i && Outstanding(s, k) { FinishOutstanding(job, s, l, k); }
    }
    FinishLanes(job, s, l);
    forall p | 0 <= p < |t.running| ensures Within(job, t.slides[t.running[p].slide], t.running[p].asked) {
      if p < |s.running| - 1 { assert t.running[p] == s.running[if p < l then p else p + 1]; }
    }
  }

  lemma StepKeeps(job: Job, s: State, e: Event)
    requires Inv(job, s) && Enabled(job, s, e)
    ensures Inv(job, Next(job, s, e))
  {
    match e
    case Ask(i) =>
      AskShape(job, s, i);
      AskOnTime(job, s, i);
      AskTally(job, s, i);
    case Finish(l) =>
      FinishShape(job, s, l);
      FinishOnTime(job, s, l);
      FreedInTime(job, s, l);
      FinishTally(job, s, l);
    case Tick(d) =>
      var t := Next(job, s, e);
      forall q | 0 <= q < |t.waiting| && |t.running| == job.lanes
        ensures WorstStart(job, t, q) == WorstStart(job, s, q)
      {
        WorstStartFrame(job, s, t, q);
      }
      forall k | 0 <= k < |t.slides| && !Outstanding(t, k) ensures !Outstanding(s, k) {}
  }

  lemma {:induction false} RunKeeps(job: Job, s: State, events: seq<Event>)
    requires Inv(job, s)
    ensures Inv(job, After(job, s, events))
    decreases |events|
  {
    if events != [] {
      if Enabled(job, s, events[0]) { StepKeeps(job, s, events[0]); }
      RunKeeps(job, if Enabled(job, s, events[0]) then Next(job, s, events[0]) else s, events[1..]);
    }
  }

  /** The waves are the ceiling the source writes as -(-slides // lanes). */
  lemma WavesIsCeiling(slides: nat, lanes: nat)
    requires lanes > 0
    ensures Waves(slides, lanes) == (slides + lanes - 1) / lanes
  {
    if slides == 0 {
      DivUnique(lanes - 1, 0, lanes - 1, lanes);
    } else if slides <= lanes {
      DivUnique(slides + lanes - 1, 1, slides - 1, lanes);
    } else {
      DivPlus(slides - 1, lanes);
    }
  }

  /** T * ceil(n/m), as `working_window` multiplies it. */
  lemma TurnIs(job: Job)
    requires job.lanes > 0
    ensures Turn(job) == job.ceiling * ((job.slides + job.lanes - 1) / job.lanes) as real
  {
    WavesIsCeiling(job.slides, job.lanes);
    TimesIsProduct(Waves(job.slides, job.lanes), job.ceiling);
  }

  /** A waiter is handed its lane now at the earliest. */
  lemma {:induction false} NotBeforeNow(job: Job, s: State, q: nat)
    requires job.lanes > 0 && job.ceiling >= 0.0 && |s.running| == job.lanes && Clock(job, s)
    ensures s.now <= WorstStart(job, s, q)
  {
    if q >= job.lanes { NotBeforeNow(job, s, q - job.lanes); }
  }

  /** The calls a slide has asked for: those finished and the one it waits for or holds a lane with. */
  function Begun(s: State, slide: nat): nat
    requires slide < |s.slides|
  {
    s.slides[slide].calls + if Outstanding(s, slide) then 1 else 0
  }

  /** The last moment a slide was seen with the vendor: this one, while it waits or calls. */
  function LastSeen(s: State, slide: nat): real
    requires slide < |s.slides|
  {
    if Outstanding(s, slide) then s.now else s.slides[slide].freeAt
  }

  /** The call a slide waits for or makes has not outlived its turn. */
  lemma StillInTurn(job: Job, s: State, i: nat)
    requires Inv(job, s) && i < |s.slides| && Outstanding(s, i)
    ensures s.now <= Times(s.slides[i].calls + 1, Turn(job)) + s.slides[i].idle
  {
    if exists p :: 0 <= p < |s.running| && s.running[p].slide == i {
      var p :| 0 <= p < |s.running| && s.running[p].slide == i;
      assert s.now <= s.running[p].asked + Turn(job);
    } else {
      var q :| 0 <= q < |s.waiting| && s.waiting[q].slide == i;
      NotBeforeNow(job, s, q);
      assert s.now <= s.waiting[q].asked + Turn(job);
    }
    assert Times(s.slides[i].calls + 1, Turn(job)) == Times(s.slides[i].calls, Turn(job)) + Turn(job);
  }

  /** In every state of the queue. */
  lemma SeenInTime(job: Job, s: State, i: nat)
    requires Inv(job, s) && i < |s.slides|
    ensures LastSeen(s, i) <= Times(Begun(s, i), Turn(job)) + s.slides[i].idle
  {
    if Outstanding(s, i) {
      StillInTurn(job, s, i);
    } else {
      assert Within(job, s.slides[i], s.slides[i].freeAt);
    }
  }

  lemma SeenInTurns(job: Job, events: seq<Event>, i: nat, k: nat)
    requires job.lanes > 0 && job.ceiling >= 0.0
    requires var s := After(job, Start(job), events);
             i < |s.slides| && Begun(s, i) <= k
    ensures var s := After(job, Start(job), events);
            LastSeen(s, i) <= Times(k, Turn(job)) + s.slides[i].idle
  {
    RunKeeps(job, Start(job), events);
    var s := After(job, Start(job), events);
    SeenInTime(job, s, i);
    TimesMonotone(0, Waves(job.slides, job.lanes), job.ceiling);
    TimesMonotone(Begun(s, i), k, Turn(job));
  }

  /** The worst case of a shared queue. Whatever the lengths of the calls, the order the slides
      ask in and the time they idle, a slide that has asked for at most k calls was last seen with
      the vendor, waiting, calling or done, within T * ceil(n/m) * k seconds beyond its own idling:
      once they are over it neither waits nor calls. */
  lemma QueueBound(job: Job, events: seq<Event>, i: nat, k: nat)
    requires job.lanes > 0 && job.ceiling >= 0.0
    requires var s := After(job, Start(job), events);
             i < |s.slides| && Begun(s, i) <= k
    ensures var s := After(job, Start(job), events);
            var bound := Times(k, job.ceiling * ((job.slides + job.lanes - 1) / job.lanes) as real)
                         + s.slides[i].idle;
            LastSeen(s, i) <= bound && (s.now > bound ==> !Outstanding(s, i))
  {
    SeenInTurns(job, events, i, k);
    TurnIs(job);
  }

  // ------------------------------------------------------------------ and it is reached

  ghost predicate OnceEach(job: Job, order: seq<nat>) {
    && (forall i :: 0 <= i < |order| ==> order[i] < job.slides)
    && forall i, j :: 0 <= i < j < |order| ==> Differ(order, i, j)
  }

  predicate Differ(order: seq<nat>, i: nat, j: nat)
    requires i < |order| && j < |order|
  {
    order[i] != order[j]
  }

  lemma OnceAfter(job: Job, order: seq<nat>)
    requires order != [] && OnceEach(job, order)
    ensures OnceEach(job, order[1..]) && order[0] !in order[1..]
  {
    var rest := order[1..];
    forall j | 0 <= j < |rest| ensures rest[j] != order[0] { assert Differ(order, 0, j + 1); }
    forall i, j | 0 <= i < j < |rest| ensures Differ(rest, i, j) { assert Differ(order, i + 1, j + 1); }
  }

  lemma NotSooner(job: Job, order: seq<nat>, k: nat, place: nat)
    requires OnceEach(job, order) && k <= place < |order|
    ensures order[place] !in order[..k]
  {
    forall i | 0 <= i < k ensures order[..k][i] != order[place] { assert Differ(order, i, place); }
  }

  lemma OnceMore(job: Job, order: seq<nat>, a: nat)
    requires OnceEach(job, order) && a < job.slides && a !in order
    ensures OnceEach(job, order + [a])
  {
    var more := order + [a];
    forall i, j | 0 <= i < j < |more| ensures Differ(more, i, j) {
      if j < |order| { assert Differ(order, i, j); } else { assert more[i] in order; }
    }
  }

  /** The slides of `order` with the vendor: first those calling, on every lane there is a slide for --
      `full` of them for the whole ceiling, the rest from this moment -- and then those waiting. */
  ghost predicate Aligned(job: Job, s: State, order: seq<nat>, full: nat) {
    && OnceEach(job, order) && |s.slides| == job.slides
    && |s.running| == MinInt(job.lanes, |order|) && |s.waiting| == |order| - |s.running| && full <= |s.running|
    && (forall i :: 0 <= i < |s.running| ==>
          s.running[i].slide == order[i] && s.running[i].started == if i < full then s.now - job.ceiling else s.now)
    && (forall i :: 0 <= i < |s.waiting| ==> s.waiting[i].slide == order[|s.running| + i])
  }

  lemma {:induction false} Later(job: Job, s: State, first: seq<Event>, rest: seq<Event>)
    ensures After(job, s, first + rest) == After(job, After(job, s, first), rest)
    decreases |first|
  {
    if first == [] {
      assert first + rest == rest;
    } else {
      assert (first + rest)[1..] == first[1..] + rest;
      Later(job, if Enabled(job, s, first[0]) then Next(job, s, first[0]) else s, first[1..], rest);
    }
  }

  lemma AfterOne(job: Job, s: State, e: Event)
    requires Enabled(job, s, e)
    ensures After(job, s, [e]) == Next(job, s, e)
  {
    assert [e][1..] == [];
  }

  lemma NotOutstanding(job: Job, s: State, order: seq<nat>, full: nat, a: nat)
    requires Aligned(job, s, order, full)
    ensures Outstanding(s, a) <==> a in order
  {
    if a in order {
      var k :| 0 <= k < |order| && order[k] == a;
      if k < |s.running| { assert s.running[k].slide == a; }
      else { assert s.waiting[k - |s.running|].slide == order[|s.running| + (k - |s.running|)]; }
    }
  }

  lemma AskLast(job: Job, s: State, order: seq<nat>, full: nat, a: nat)
    requires Aligned(job, s, order, full) && a < job.slides && a !in order && s.slides[a].freeAt == s.now
    ensures Enabled(job, s, Ask(a))
    ensures var t := Next(job, s, Ask(a));
            Aligned(job, t, order + [a], full) && t.now == s.now && t.slides == s.slides
  {
    NotOutstanding(job, s, order, full, a);
    OnceMore(job, order, a);
    var t := Next(job, s, Ask(a));
    assert t.slides == s.slides;
  }

  /** The first lane handed on, in the fields of the state. */
  lemma FirstHandedOn(job: Job, s: State)
    requires s.running != [] && s.running[0].slide < |s.slides|
    ensures Enabled(job, s, Finish(0))
    ensures var t, i := Next(job, s, Finish(0)), s.running[0].slide;
            && t.now == s.now
            && t.slides == s.slides[i := Slide(s.slides[i].calls + 1, s.slides[i].idle, s.now)]
            && t.running == s.running[1..]
                            + (if s.waiting == [] then [] else [Lane(s.waiting[0].slide, s.waiting[0].asked, s.now)])
            && t.waiting == if s.waiting == [] then [] else s.waiting[1..]
  {
    assert s.running[..0] + s.running[0 + 1..] == s.running[1..];
  }

  lemma FinishFirst(job: Job, s: State, order: seq<nat>, full: nat)
    requires Aligned(job, s, order, full) && full > 0
    ensures Enabled(job, s, Finish(0))
    ensures var t := Next(job, s, Finish(0));
            && Aligned(job, t, order[1..], full - 1) && t.now == s.now
            && t.slides == s.slides[order[0] := Slide(s.slides[order[0]].calls + 1, s.slides[order[0]].idle, s.now)]
  {
    FirstHandedOn(job, s);
    MovedUp(job, s, Next(job, s, Finish(0)), order, full);
  }

  lemma MovedUp(job: Job, s: State, t: State, order: seq<nat>, full: nat)
    requires Aligned(job, s, order, full) && full > 0 && t.now == s.now && |t.slides| == |s.slides|
    requires t.running == s.running[1..]
                          + (if s.waiting == [] then [] else [Lane(s.waiting[0].slide, s.waiting[0].asked, s.now)])
    requires t.waiting == if s.waiting == [] then [] else s.waiting[1..]
    ensures Aligned(job, t, order[1..], full - 1)
  {
    OnceAfter(job, order);
    forall i | 0 <= i < |t.running|
      ensures t.running[i].slide == order[1..][i]
      ensures t.running[i].started == if i < full - 1 then s.now - job.ceiling else s.now
    {
      if i + 1 < |s.running| { assert t.running[i] == s.running[i + 1]; }
    }
    forall i | 0 <= i < |t.waiting| ensures t.waiting[i].slide == order[1..][|t.running| + i] {
      assert t.waiting[i] == s.waiting[i + 1];
    }
  }

  /** A call ends and its slide asks at once for the next: the queue moves up by one. */
  lemma Turnover(job: Job, s: State, order: seq<nat>, full: nat, ours: nat) returns (events: seq<Event>)
    requires Aligned(job, s, order, full) && full > 0 && ours < job.slides && ours != order[0]
    ensures var t := After(job, s, events);
            && Aligned(job, t, order[1..] + [order[0]], full - 1) && t.now == s.now
            && t.slides[ours] == s.slides[ours]
  {
    FinishFirst(job, s, order, full);
    var mid := Next(job, s, Finish(0));
    OnceAfter(job, order);
    AskLast(job, mid, order[1..], full - 1, order[0]);
    AfterOne(job, s, Finish(0));
    AfterOne(job, mid, Ask(order[0]));
    Later(job, s, [Finish(0)], [Ask(order[0])]);
    events := [Finish(0)] + [Ask(order[0])];
  }

  /** The queue with its first k at its foot. */
  function Turned(order: seq<nat>, k: nat): seq<nat>
    requires k <= |order|
  {
    order[k..] + order[..k]
  }

  lemma TurnedOnce(order: seq<nat>, k: nat, ours: nat)
    requires 0 < k <= |order| && ours !in order[..k]
    ensures var next := order[1..] + [order[0]];
            ours != order[0] && ours !in next[..k - 1] && Turned(next, k - 1) == Turned(order, k)
  {
    var next := order[1..] + [order[0]];
    assert order[0] in order[..k] && order[..k] == [order[0]] + next[..k - 1];
    assert next[k - 1..] == order[k..] + [order[0]];
  }

  lemma {:induction false} Turnovers(job: Job, s: State, order: seq<nat>, full: nat, k: nat, ours: nat)
    returns (events: seq<Event>)
    requires Aligned(job, s, order, full) && k <= full && k <= |order| && ours !in order[..k] && ours < job.slides
    ensures var t := After(job, s, events);
            Aligned(job, t, Turned(order, k), full - k) && t.now == s.now && t.slides[ours] == s.slides[ours]
    decreases k
  {
    events := [];
    if k == 0 {
      assert Turned(order, 0) == order;
    } else {
      TurnedOnce(order, k, ours);
      var first := Turnover(job, s, order, full, ours);
      var rest := Turnovers(job, After(job, s, first), order[1..] + [order[0]], full - 1, k - 1, ours);
      Later(job, s, first, rest);
      events := first + rest;
    }
  }

  lemma WholeCall(job: Job, s: State, order: seq<nat>)
    requires Aligned(job, s, order, 0) && job.ceiling >= 0.0
    ensures var t := After(job, s, [Tick(job.ceiling)]);
            Aligned(job, t, order, |s.running|) && t.now == s.now + job.ceiling && t.slides == s.slides
            && |t.running| == |s.running|
  {
    AfterOne(job, s, Tick(job.ceiling));
  }

  /** `ours` is calling, at place r, and has been for the whole ceiling, like every call there is. */
  ghost predicate AtTheEnd(job: Job, s: State, order: seq<nat>, r: nat, ours: nat) {
    Aligned(job, s, order, |s.running|) && r < |s.running| && order[r] == ours && |order| == job.slides
  }

  /** From its place in the queue to the end of its call. */
  lemma {:induction false} Served(job: Job, s: State, order: seq<nat>, place: nat, ours: nat)
    returns (events: seq<Event>, queue: seq<nat>, r: nat)
    requires Aligned(job, s, order, 0) && job.ceiling >= 0.0 && job.lanes > 0 && |order| == job.slides
    requires place < |order| && order[place] == ours
    ensures var t := After(job, s, events);
            && AtTheEnd(job, t, queue, r, ours) && t.slides[ours] == s.slides[ours]
            && t.now == s.now + Times(Waves(place + 1, job.lanes), job.ceiling)
    decreases place
  {
    WholeCall(job, s, order);
    var tick := [Tick(job.ceiling)];
    var t := After(job, s, tick);
    if place < |s.running| {
      assert Times(1, job.ceiling) == Times(0, job.ceiling) + job.ceiling;
      events, queue, r := tick, order, place;
    } else {
      var n := |s.running|;
      NotSooner(job, order, n, place);
      var turn := Turnovers(job, t, order, n, n, ours);
      var next := Turned(order, n);
      assert next[place - n] == ours;
      var rest;
      rest, queue, r := Served(job, After(job, t, turn), next, place - n, ours);
      Later(job, s, tick, turn);
      Later(job, s, tick + turn, rest);
      events := tick + turn + rest;
    }
  }

  /** The calls before it are over, and its own. */
  lemma Freed(job: Job, s: State, order: seq<nat>, r: nat, ours: nat) returns (events: seq<Event>, queue: seq<nat>)
    requires AtTheEnd(job, s, order, r, ours)
    ensures var t := After(job, s, events);
            && Aligned(job, t, queue, |s.running| - r - 1) && |queue| == job.slides - 1 && ours !in queue
            && t.now == s.now
            && t.slides[ours] == Slide(s.slides[ours].calls + 1, s.slides[ours].idle, s.now)
  {
    var p := |s.running|;
    NotSooner(job, order, r, r);
    events := Turnovers(job, s, order, p, r, ours);
    var s1, order1 := After(job, s, events), Turned(order, r);
    assert order1[0] == ours;
    OnceAfter(job, order1);
    FinishFirst(job, s1, order1, p - r);
    AfterOne(job, s1, Finish(0));
    Later(job, s, events, [Finish(0)]);
    events, queue := events + [Finish(0)], order1[1..];
  }

  /** From the end of its call to the foot of the queue, behind every other slide. */
  lemma AskedAgain(job: Job, s: State, order: seq<nat>, r: nat, ours: nat)
    returns (events: seq<Event>, queue: seq<nat>)
    requires AtTheEnd(job, s, order, r, ours)
    ensures var t := After(job, s, events);
            && Aligned(job, t, queue, 0) && |queue| == job.slides && queue[|queue| - 1] == ours && t.now == s.now
            && t.slides[ours] == Slide(s.slides[ours].calls + 1, s.slides[ours].idle, s.now)
  {
    var k := |s.running| - r - 1;
    events, queue := Freed(job, s, order, r, ours);
    var s2 := After(job, s, events);
    var others := Turnovers(job, s2, queue, k, k, ours);
    Later(job, s, events, others);
    var s3 := After(job, s2, others);
    queue := Turned(queue, k);
    AskLast(job, s3, queue, 0, ours);
    AfterOne(job, s3, Ask(ours));
    Later(job, s, events + others, [Ask(ours)]);
    events, queue := events + others + [Ask(ours)], queue + [ours];
  }

  /** All ask at once, in order. */
  lemma {:induction false} AllAsk(job: Job, n: nat) returns (events: seq<Event>, order: seq<nat>)
    requires n <= job.slides
    ensures var t := After(job, Start(job), events);
            && |order| == n && (forall i :: 0 <= i < n ==> order[i] == i)
            && Aligned(job, t, order, 0) && t.now == 0.0 && t.slides == Start(job).slides
    decreases n
  {
    if n == 0 {
      events, order := [], [];
    } else {
      events, order := AllAsk(job, n - 1);
      var s := After(job, Start(job), events);
      AskLast(job, s, order, 0, n - 1);
      AfterOne(job, s, Ask(n - 1));
      Later(job, Start(job), events, [Ask(n - 1)]);
      events, order := events + [Ask(n - 1)], order + [n - 1];
    }
  }

  lemma {:induction false} LastOfK(job: Job, k: nat) returns (events: seq<Event>, order: seq<nat>, r: nat)
    requires job.lanes > 0 && job.slides > 0 && job.ceiling >= 0.0 && k > 0
    ensures var t, ours := After(job, Start(job), events), job.slides - 1;
            && AtTheEnd(job, t, order, r, ours) && t.now == Times(k, Turn(job))
            && t.slides[ours].calls == k - 1 && t.slides[ours].idle == 0.0
    decreases k
  {
    var ours := job.slides - 1;
    var queued;
    if k == 1 {
      events, queued := AllAsk(job, job.slides);
    } else {
      events, order, r := LastOfK(job, k - 1);
      var again;
      again, queued := AskedAgain(job, After(job, Start(job), events), order, r, ours);
      Later(job, Start(job), events, again);
      events := events + again;
    }
    var s := After(job, Start(job), events);
    var call;
    call, order, r := Served(job, s, queued, job.slides - 1, ours);
    Later(job, Start(job), events, call);
    events := events + call;
    assert Times(k, Turn(job)) == Times(k - 1, Turn(job)) + Turn(job);
  }

  /** The bound is exact. For every number of slides, lanes and calls there is a run in which a slide
      that never idles is still with the vendor, on its k-th call, when T * ceil(n/m) * k seconds are
      over: every call takes the whole ceiling, and it always asks behind all the others. */
  lemma QueueBoundIsReached(job: Job, k: nat) returns (events: seq<Event>, i: nat)
    requires job.lanes > 0 && job.slides > 0 && job.ceiling >= 0.0 && k > 0
    ensures i == job.slides - 1
    ensures var s := After(job, Start(job), events);
            && i < |s.slides| && Begun(s, i) == k && s.slides[i].idle == 0.0 && Outstanding(s, i)
            && LastSeen(s, i) == Times(k, job.ceiling * ((job.slides + job.lanes - 1) / job.lanes) as real)
  {
    var order, r;
    events, order, r := LastOfK(job, k);
    i := job.slides - 1;
    var s := After(job, Start(job), events);
    assert s.running[r].slide == i;
    TurnIs(job);
  }
}
