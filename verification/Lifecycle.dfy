/** The life of a paid creative: charge, concurrent slides, refund, crash, reaper. */
module Lifecycle {
  import opened Credits

  // app/creative/pipeline.py `generate`, `_mark_failed`, `_refund`, `reap_stuck_creatives` and
  // `in_flight_gate`. Every `session_scope` is one atomic step; the steps of all jobs, of the reaper
  // and of the clock interleave freely.

  const STUCK_AFTER := 45 * 60  // seconds
  const REAP_LIMIT := 200

  datatype Cause = NoCredits | SlideError | WorkerLost

  datatype Status = Generating | Composing | Ready | Failed(cause: Cause)

  /** What the slide's task has handed its worker so far. */
  datatype Result = Running | Returned | Raised

  datatype Slide = Slide(billed: bool, status: Status, result: Result)

  /** Where the worker stands: slides in progress, marking failures from slide `next` on,
      finished, refused for want of credits, or gone. */
  datatype Phase = Working | Marking(next: nat) | Finished | Refused | Dead

  /** A job's group id is its place in `State.jobs`. */
  datatype Job = Job(account: nat, brand: nat, born: int, slides: seq<Slide>, phase: Phase)

  datatype State = State(now: int, books: Books, jobs: seq<Job>)

  datatype Event =
    | LedgerMoves(op: Op)                                          // sign-ups and top-ups
    | Generate(account: nat, brand: nat, billed: seq<bool>)
    | Recompose(account: nat, brand: nat, slides: nat)
    | SlideReady(job: nat, slide: nat)
    | SlideEnds(job: nat, slide: nat, raised: bool)
    | Gathered(job: nat)
    | MarkNext(job: nat)
    | SettleUp(job: nat)
    | WorkerDies(job: nat)
    | Reap(rows: seq<(nat, nat)>)
    | Tick(seconds: nat)

  predicate InFlight(s: Slide) {
    s.status.Generating? || s.status.Composing?
  }

  predicate Alive(j: Job) {
    j.phase.Working? || j.phase.Marking?
  }

  /** in_flight_creative with `since` set to now - STUCK_AFTER. */
  predicate Busy(s: State, brand: nat) {
    exists j :: 0 <= j < |s.jobs| && s.jobs[j].brand == brand && s.jobs[j].born >= s.now - STUCK_AFTER
                && exists i :: 0 <= i < |s.jobs[j].slides| && InFlight(s.jobs[j].slides[i])
  }

  function Count(slides: seq<Slide>, f: Slide -> bool): nat {
    if slides == [] then 0 else (if f(slides[0]) then 1 else 0) + Count(slides[1..], f)
  }

  predicate Billed(s: Slide) {
    s.billed
  }

  predicate BilledReady(s: Slide) {
    s.billed && s.status.Ready?
  }

  predicate BilledInFlight(s: Slide) {
    s.billed && InFlight(s)
  }

  predicate BilledMarked(s: Slide) {
    s.billed && s.status == Failed(SlideError)
  }

  predicate BilledRaised(s: Slide) {
    s.billed && s.result.Raised?
  }

  /** A row the reaper's query returns. */
  predicate Stuck(s: State, row: (nat, nat)) {
    && row.0 < |s.jobs|
    && row.1 < |s.jobs[row.0].slides|
    && InFlight(s.jobs[row.0].slides[row.1])
    && s.jobs[row.0].born < s.now - STUCK_AFTER
  }

  /** The clock moves only while no living worker is kept waiting past STUCK_AFTER: the reaper's
      threshold is sized beyond the worst legitimate job, and the guarantees rest on that. */
  predicate Punctual(s: State) {
    forall j :: 0 <= j < |s.jobs| && Alive(s.jobs[j]) ==> s.now <= s.jobs[j].born + STUCK_AFTER
  }

  ghost predicate Enabled(s: State, e: Event) {
    match e
    case LedgerMoves(op) => op.Open? || (op.Refund? && op.key.OtherKey?)
    case Generate(_, _, _) => true
    case Recompose(_, _, _) => true
    case SlideReady(j, i) =>
      j < |s.jobs| && s.jobs[j].phase.Working? && i < |s.jobs[j].slides| && s.jobs[j].slides[i].result.Running?
    case SlideEnds(j, i, raised) =>
      && j < |s.jobs| && s.jobs[j].phase.Working? && i < |s.jobs[j].slides| && s.jobs[j].slides[i].result.Running?
      && (!raised ==> s.jobs[j].slides[i].status.Ready?)
    case Gathered(j) =>
      j < |s.jobs| && s.jobs[j].phase.Working?
      && forall i :: 0 <= i < |s.jobs[j].slides| ==> !s.jobs[j].slides[i].result.Running?
    case MarkNext(j) => j < |s.jobs| && s.jobs[j].phase.Marking? && s.jobs[j].phase.next < |s.jobs[j].slides|
    case SettleUp(j) => j < |s.jobs| && s.jobs[j].phase == Marking(|s.jobs[j].slides|)
    case WorkerDies(j) => j < |s.jobs| && Alive(s.jobs[j])
    case Reap(rows) =>
      && (forall k :: 0 <= k < |rows| ==> Stuck(s, rows[k]))
      && (forall k, l :: 0 <= k < l < |rows| ==> rows[k] != rows[l])
      && |rows| <= REAP_LIMIT
      && (|rows| == REAP_LIMIT || forall row: (nat, nat) :: Stuck(s, row) ==> row in rows)
    case Tick(d) => Punctual(s.(now := s.now + d))
  }

  // ------------------------------------------------------------------ the transactions

  function NewJob(s: State, account: nat, brand: nat, billed: seq<bool>, status: Status, phase: Phase): Job {
    Job(account, brand, s.now, seq(|billed|, i requires 0 <= i < |billed| => Slide(billed[i], status, Running)), phase)
  }

  /** The charging transaction. */
  function GenerateTx(s: State, account: nat, brand: nat, billed: seq<bool>): State {
    if Busy(s, brand) then s
    else
      var job := NewJob(s, account, brand, billed, Generating, Working);
      var billable := Count(job.slides, Billed);
      if billable == 0 then s.(jobs := s.jobs + [job])
      else
        var (books, out) := ChargeStep(s.books, account, GenerateCreative, billable, CreativeCharge(|s.jobs|));
        match out
        case Charged(_, _, _) => s.(books := books, jobs := s.jobs + [job])
        case Insufficient(_, _) =>
          s.(jobs := s.jobs + [NewJob(s, account, brand, billed, Failed(NoCredits), Refused)])
        case UnknownPayer => s
  }

  /** _mark_failed, for the next slide that raised. */
  function MarkTx(job: Job): Job
    requires job.phase.Marking? && job.phase.next < |job.slides|
  {
    var k := job.phase.next;
    job.(phase := Marking(k + 1),
         slides := if job.slides[k].result.Raised?
                   then job.slides[k := job.slides[k].(status := Failed(SlideError))]
                   else job.slides)
  }

  function RefundUnits(job: Job): (nat, string) {
    if forall i :: 0 <= i < |job.slides| ==> job.slides[i].result.Raised?
    then (Count(job.slides, Billed), "creative_failed")
    else (Count(job.slides, BilledRaised), "partial_carousel")
  }

  /** _refund. */
  function SettleTx(s: State, j: nat): State
    requires j < |s.jobs|
  {
    var job := s.jobs[j];
    var (units, reason) := RefundUnits(job);
    var books := if units == 0 then s.books
                 else RefundStep(s.books, job.account, CostOf(GenerateCreative) * units, reason,
                                 GroupRefund(j, reason)).0;
    s.(books := books, jobs := s.jobs[j := job.(phase := Finished)])
  }

  /** One row of the reaper's loop. */
  function ReapRow(s: State, row: (nat, nat)): State
    requires row.0 < |s.jobs| && row.1 < |s.jobs[row.0].slides|
  {
    var job := s.jobs[row.0];
    var slide := job.slides[row.1];
    s.(jobs := s.jobs[row.0 := job.(slides := job.slides[row.1 := slide.(status := Failed(WorkerLost))])],
       books := if slide.billed
                then RefundStep(s.books, job.account, CostOf(GenerateCreative), "stuck_creative",
                                StuckRefund(row.0, row.1)).0
                else s.books)
  }

  predicate Rows(s: State, rows: seq<(nat, nat)>) {
    forall k :: 0 <= k < |rows| ==> rows[k].0 < |s.jobs| && rows[k].1 < |s.jobs[rows[k].0].slides|
  }

  function ReapTx(s: State, rows: seq<(nat, nat)>): State
    requires Rows(s, rows)
    decreases |rows|
  {
    if rows == [] then s else ReapTx(ReapRow(s, rows[0]), rows[1..])
  }

  function WithJob(s: State, j: nat, job: Job): State
    requires j < |s.jobs|
  {
    s.(jobs := s.jobs[j := job])
  }

  function WithSlide(s: State, j: nat, i: nat, slide: Slide): State
    requires j < |s.jobs| && i < |s.jobs[j].slides|
  {
    WithJob(s, j, s.jobs[j].(slides := s.jobs[j].slides[i := slide]))
  }

  function Next(s: State, e: Event): State
    requires Enabled(s, e)
  {
    match e
    case LedgerMoves(op) => s.(books := Apply(s.books, op))
    case Generate(account, brand, billed) => GenerateTx(s, account, brand, billed)
    case Recompose(account, brand, n) =>
      s.(jobs := s.jobs + [NewJob(s, account, brand, seq(n, _ => false), Composing, Working)])
    case SlideReady(j, i) => WithSlide(s, j, i, s.jobs[j].slides[i].(status := Ready))
    case SlideEnds(j, i, raised) =>
      WithSlide(s, j, i, s.jobs[j].slides[i].(result := if raised then Raised else Returned))
    case Gathered(j) => WithJob(s, j, s.jobs[j].(phase := Marking(0)))
    case MarkNext(j) => WithJob(s, j, MarkTx(s.jobs[j]))
    case SettleUp(j) => SettleTx(s, j)
    case WorkerDies(j) => WithJob(s, j, s.jobs[j].(phase := Dead))
    case Reap(rows) => ReapTx(s, rows)
    case Tick(d) => s.(now := s.now + d)
  }

  /** The state after a run; an event that cannot happen where it stands is passed over, so
      quantifying over event lists quantifies over all interleavings. */
  ghost function After(s: State, events: seq<Event>): State
    decreases |events|
  {
    if events == [] then s
    else After(if Enabled(s, events[0]) then Next(s, events[0]) else s, events[1..])
  }

  const START := State(0, EMPTY, [])

  // ------------------------------------------------------------------ the money of one job

  function GroupOf(key: Key): int {
    match key
    case CreativeCharge(g) => g
    case GroupRefund(g, _) => g
    case StuckRefund(g, _) => g
    case OtherKey(_) => -1
  }

  /** What the job has cost its owner so far: charge less refunds, read off the ledger. */
  function NetDebit(rows: seq<Row>, job: nat): int {
    if rows == [] then 0
    else NetDebit(rows[..|rows| - 1], job)
         - (if GroupOf(rows[|rows| - 1].key) == job then rows[|rows| - 1].delta else 0)
  }

  /** Credits one slide still holds, before (or after) its worker has settled up. */
  function Share(s: Slide, settled: bool): nat {
    if !s.billed then 0
    else match s.status
      case Failed(cause) => if cause.SlideError? && !settled then 1 else 0
      case _ => 1
  }

  function Due(slides: seq<Slide>, settled: bool): nat {
    if slides == [] then 0 else Share(slides[0], settled) + Due(slides[1..], settled)
  }

  // ------------------------------------------------------------------ the invariant

  predicate SlideOk(s: Slide, i: nat, phase: Phase) {
    match phase
    case Working => !s.status.Failed? && (s.result.Returned? ==> s.status.Ready?)
    case Marking(next) =>
      && !s.result.Running?
      && (if i < next && s.result.Raised? then s.status == Failed(SlideError)
          else !s.status.Failed? && (s.result.Returned? ==> s.status.Ready?))
    case Finished => if s.result.Raised? then s.status == Failed(SlideError) else s.status.Ready?
    case Refused => s.status == Failed(NoCredits)
    case Dead => s.status != Failed(NoCredits)
  }

  ghost predicate JobOk(books: Books, j: nat, job: Job) {
    && (job.phase.Marking? ==> job.phase.next <= |job.slides|)
    && (forall i :: 0 <= i < |job.slides| ==> SlideOk(job.slides[i], i, job.phase))
    && NetDebit(books.rows, j) == Due(job.slides, job.phase.Finished?)
    && (job.phase.Refused? || Count(job.slides, Billed) == 0 || job.account in books.balance)
  }

  predicate KeyOk(key: Key, jobs: seq<Job>) {
    match key
    case CreativeCharge(g) => g < |jobs|
    case GroupRefund(g, _) => g < |jobs| && jobs[g].phase.Finished?
    case StuckRefund(g, i) => g < |jobs| && i < |jobs[g].slides| && jobs[g].slides[i].status == Failed(WorkerLost)
    case OtherKey(_) => true
  }

  ghost predicate Inv(s: State) {
    && Valid(s.books)
    && (forall k :: 0 <= k < |s.books.rows| ==> KeyOk(s.books.rows[k].key, s.jobs))
    && (forall j :: 0 <= j < |s.jobs| ==> JobOk(s.books, j, s.jobs[j]))
    && Punctual(s)
  }

  /** Only the rows of other jobs, or none, were added. */
  lemma NetDebitFrame(rows: seq<Row>, row: Row, j: nat)
    ensures NetDebit(rows + [row], j) == NetDebit(rows, j) - (if GroupOf(row.key) == j then row.delta else 0)
  {
  }

  lemma NoRowsNoDebit(rows: seq<Row>, j: nat)
    requires forall k :: 0 <= k < |rows| ==> GroupOf(rows[k].key) != j
    ensures NetDebit(rows, j) == 0
  {
  }

  lemma {:induction false} DueUpdate(slides: seq<Slide>, i: nat, s: Slide, settled: bool)
    requires i < |slides|
    ensures Due(slides[i := s], settled) == Due(slides, settled) - Share(slides[i], settled) + Share(s, settled)
  {
    if i > 0 {
      assert slides[i := s][1..] == slides[1..][i - 1 := s];
      DueUpdate(slides[1..], i - 1, s, settled);
    } else {
      assert slides[0 := s][1..] == slides[1..];
    }
  }

  lemma {:induction false} CountUpdate(slides: seq<Slide>, i: nat, s: Slide, f: Slide -> bool)
    requires i < |slides| && f(slides[i]) == f(s)
    ensures Count(slides[i := s], f) == Count(slides, f)
  {
    if i > 0 {
      assert slides[i := s][1..] == slides[1..][i - 1 := s];
      CountUpdate(slides[1..], i - 1, s, f);
    } else {
      assert slides[0 := s][1..] == slides[1..];
    }
  }

  /** Books that differ from `b` by at most one new row, about job j. */
  ghost predicate Extends(b: Books, c: Books, j: nat) {
    && Valid(c)
    && b.balance.Keys <= c.balance.Keys
    && (c.rows == b.rows
        || (|c.rows| == |b.rows| + 1 && c.rows[..|b.rows|] == b.rows && GroupOf(c.rows[|b.rows|].key) == j))
  }

  /** The common shape of every step of one job: its own record and at most one ledger row. */
  lemma JobStep(s: State, j: nat, job: Job, books: Books)
    requires Inv(s) && j < |s.jobs|
    requires Extends(s.books, books, j)
    requires JobOk(books, j, job)
    requires job.born == s.jobs[j].born && (Alive(job) ==> Alive(s.jobs[j]))
    requires forall k :: 0 <= k < |books.rows| ==> KeyOk(books.rows[k].key, s.jobs[j := job])
    ensures Inv(s.(books := books, jobs := s.jobs[j := job]))
  {
  }

  // ------------------------------------------------------------------ every step keeps it

  lemma CountSame(slides: seq<Slide>, f: Slide -> bool, g: Slide -> bool)
    requires forall i :: 0 <= i < |slides| ==> f(slides[i]) == g(slides[i])
    ensures Count(slides, f) == Count(slides, g)
  {
  }

  lemma DueOfUnfailed(slides: seq<Slide>)
    requires forall i :: 0 <= i < |slides| ==> !slides[i].status.Failed?
    ensures Due(slides, false) == Count(slides, Billed)
  {
  }

  lemma DueOfRefused(slides: seq<Slide>)
    requires forall i :: 0 <= i < |slides| ==> slides[i].status == Failed(NoCredits)
    ensures Due(slides, false) == 0
  {
  }

  lemma DueSettled(slides: seq<Slide>)
    ensures Due(slides, false) == Due(slides, true) + Count(slides, BilledMarked)
  {
  }

  lemma AppendKeeps(s: State, job: Job, books: Books)
    requires Inv(s)
    requires Extends(s.books, books, |s.jobs|)
    requires JobOk(books, |s.jobs|, job) && job.born == s.now
    requires forall k :: |s.books.rows| <= k < |books.rows| ==> KeyOk(books.rows[k].key, s.jobs + [job])
    ensures Inv(s.(books := books, jobs := s.jobs + [job]))
  {
  }

  lemma KeyFresh(s: State, key: Key)
    requires Inv(s) && !KeyOk(key, s.jobs)
    ensures !HasKey(s.books.rows, key)
  {
  }

  lemma NewJobDebit(s: State)
    requires Inv(s)
    ensures NetDebit(s.books.rows, |s.jobs|) == 0
  {
    forall k | 0 <= k < |s.books.rows| ensures GroupOf(s.books.rows[k].key) != |s.jobs| {
      assert KeyOk(s.books.rows[k].key, s.jobs);
    }
    NoRowsNoDebit(s.books.rows, |s.jobs|);
  }

  /** The charge went through: one row under the new job's key, and the job working. */
  lemma ChargedJobKeeps(s: State, job: Job, billable: nat)
    requires Inv(s) && billable > 0 && job.born == s.now && job.phase.Working?
    requires Due(job.slides, false) == billable && forall i :: 0 <= i < |job.slides| ==>
               SlideOk(job.slides[i], i, job.phase)
    requires !HasKey(s.books.rows, CreativeCharge(|s.jobs|))
    requires ChargeStep(s.books, job.account, GenerateCreative, billable, CreativeCharge(|s.jobs|)).1.Charged?
    ensures Inv(s.(books := ChargeStep(s.books, job.account, GenerateCreative, billable, CreativeCharge(|s.jobs|)).0,
                   jobs := s.jobs + [job]))
  {
    var g := |s.jobs|;
    var books := ChargeStep(s.books, job.account, GenerateCreative, billable, CreativeCharge(g)).0;
    NewJobDebit(s);
    StepKeeps(s.books, Charge(job.account, GenerateCreative, billable, CreativeCharge(g)));
    NetDebitFrame(s.books.rows, books.rows[|s.books.rows|], g);
    AppendKeeps(s, job, books);
  }

  lemma GenerateKeeps(s: State, account: nat, brand: nat, billed: seq<bool>)
    requires Inv(s)
    ensures Inv(GenerateTx(s, account, brand, billed))
  {
    if Busy(s, brand) { return; }
    var g := |s.jobs|;
    var job := NewJob(s, account, brand, billed, Generating, Working);
    var billable := Count(job.slides, Billed);
    NewJobDebit(s);
    DueOfUnfailed(job.slides);
    if billable == 0 {
      AppendKeeps(s, job, s.books);
      return;
    }
    KeyFresh(s, CreativeCharge(g));
    match ChargeStep(s.books, account, GenerateCreative, billable, CreativeCharge(g)).1
    case Charged(_, _, _) => ChargedJobKeeps(s, job, billable);
    case Insufficient(_, _) =>
      var refused := NewJob(s, account, brand, billed, Failed(NoCredits), Refused);
      DueOfRefused(refused.slides);
      AppendKeeps(s, refused, s.books);
    case UnknownPayer =>
  }

  lemma RecomposeKeeps(s: State, account: nat, brand: nat, n: nat)
    requires Inv(s)
    ensures Inv(Next(s, Recompose(account, brand, n)))
  {
    var job := NewJob(s, account, brand, seq(n, _ => false), Composing, Working);
    NewJobDebit(s);
    DueOfUnfailed(job.slides);
    NoneBilled(job.slides);
    AppendKeeps(s, job, s.books);
  }

  /** A living worker's step that moves no money and undoes no reaping. */
  lemma RecordKeeps(s: State, j: nat, job: Job)
    requires Inv(s) && j < |s.jobs| && Alive(s.jobs[j])
    requires job.account == s.jobs[j].account && job.born == s.jobs[j].born && (Alive(job) || job.phase.Dead?)
    requires job.phase.Marking? ==> job.phase.next <= |job.slides|
    requires |job.slides| == |s.jobs[j].slides|
    requires forall i :: 0 <= i < |job.slides| ==> SlideOk(job.slides[i], i, job.phase)
    requires forall i :: 0 <= i < |job.slides| && s.jobs[j].slides[i].status == Failed(WorkerLost) ==>
               job.slides[i].status == Failed(WorkerLost)
    requires Due(job.slides, false) == Due(s.jobs[j].slides, false)
    requires Count(job.slides, Billed) == Count(s.jobs[j].slides, Billed)
    ensures Inv(WithJob(s, j, job))
  {
    assert JobOk(s.books, j, s.jobs[j]);
    forall k | 0 <= k < |s.books.rows| ensures KeyOk(s.books.rows[k].key, s.jobs[j := job]) {
      assert KeyOk(s.books.rows[k].key, s.jobs);
    }
    JobStep(s, j, job, s.books);
  }

  /** One slide's status or result moves on, nothing else. */
  lemma SlideKeeps(s: State, j: nat, i: nat, slide: Slide)
    requires Inv(s) && j < |s.jobs| && i < |s.jobs[j].slides| && s.jobs[j].phase.Working?
    requires slide.billed == s.jobs[j].slides[i].billed && SlideOk(slide, i, Working)
    ensures Inv(WithSlide(s, j, i, slide))
  {
    var was := s.jobs[j];
    assert JobOk(s.books, j, was);
    assert SlideOk(was.slides[i], i, Working);
    DueUpdate(was.slides, i, slide, false);
    CountUpdate(was.slides, i, slide, Billed);
    RecordKeeps(s, j, was.(slides := was.slides[i := slide]));
  }

  /** The worker moves on, its slides as they were. */
  lemma PhaseKeeps(s: State, j: nat, phase: Phase)
    requires Inv(s) && j < |s.jobs| && Alive(s.jobs[j])
    requires phase.Dead? || (phase.Marking? && phase.next <= |s.jobs[j].slides|)
    requires forall i :: 0 <= i < |s.jobs[j].slides| ==> SlideOk(s.jobs[j].slides[i], i, phase)
    ensures Inv(WithJob(s, j, s.jobs[j].(phase := phase)))
  {
    RecordKeeps(s, j, s.jobs[j].(phase := phase));
  }

  lemma GatheredKeeps(s: State, j: nat)
    requires Inv(s) && Enabled(s, Gathered(j))
    ensures Inv(Next(s, Gathered(j)))
  {
    assert JobOk(s.books, j, s.jobs[j]);
    forall i | 0 <= i < |s.jobs[j].slides| ensures SlideOk(s.jobs[j].slides[i], i, Marking(0)) {
      assert SlideOk(s.jobs[j].slides[i], i, Working);
    }
    PhaseKeeps(s, j, Marking(0));
  }

  lemma WorkerDiesKeeps(s: State, j: nat)
    requires Inv(s) && Enabled(s, WorkerDies(j))
    ensures Inv(Next(s, WorkerDies(j)))
  {
    assert JobOk(s.books, j, s.jobs[j]);
    forall i | 0 <= i < |s.jobs[j].slides| ensures SlideOk(s.jobs[j].slides[i], i, Dead) {
      assert SlideOk(s.jobs[j].slides[i], i, s.jobs[j].phase);
    }
    PhaseKeeps(s, j, Dead);
  }

  lemma MarkedSlides(was: Job, i: nat)
    requires was.phase.Marking? && was.phase.next < |was.slides| && i < |was.slides|
    requires SlideOk(was.slides[i], i, was.phase)
    ensures SlideOk(MarkTx(was).slides[i], i, MarkTx(was).phase)
    ensures was.slides[i].status != Failed(WorkerLost)
  {
  }

  lemma MarkNextKeeps(s: State, j: nat)
    requires Inv(s) && Enabled(s, MarkNext(j))
    ensures Inv(Next(s, MarkNext(j)))
  {
    var was, job := s.jobs[j], MarkTx(s.jobs[j]);
    assert JobOk(s.books, j, was);
    forall i | 0 <= i < |was.slides|
      ensures SlideOk(job.slides[i], i, job.phase) && was.slides[i].status != Failed(WorkerLost)
    {
      MarkedSlides(was, i);
    }
    var k := was.phase.next;
    if was.slides[k].result.Raised? {
      DueUpdate(was.slides, k, job.slides[k], false);
      CountUpdate(was.slides, k, job.slides[k], Billed);
    }
    RecordKeeps(s, j, job);
  }

  lemma SlideEventKeeps(s: State, e: Event)
    requires Inv(s) && Enabled(s, e) && (e.SlideReady? || e.SlideEnds?)
    ensures Inv(Next(s, e))
  {
    assert JobOk(s.books, e.job, s.jobs[e.job]);
    var slide := s.jobs[e.job].slides[e.slide];
    assert SlideOk(slide, e.slide, Working);
    match e
    case SlideReady(j, i) => SlideKeeps(s, j, i, slide.(status := Ready));
    case SlideEnds(j, i, raised) => SlideKeeps(s, j, i, slide.(result := if raised then Raised else Returned));
  }

  /** The worker refunds exactly the billed slides it marked failed. */
  lemma RefundUnitsMarked(job: Job)
    requires job.phase == Marking(|job.slides|)
    requires forall i :: 0 <= i < |job.slides| ==> SlideOk(job.slides[i], i, job.phase)
    ensures RefundUnits(job).0 == Count(job.slides, BilledMarked)
  {
    CountSame(job.slides, BilledRaised, BilledMarked);
    if forall i :: 0 <= i < |job.slides| ==> job.slides[i].result.Raised? {
      CountSame(job.slides, Billed, BilledMarked);
    }
  }

  lemma NoneBilled(slides: seq<Slide>)
    ensures Count(slides, Billed) == 0 <==> forall i :: 0 <= i < |slides| ==> !slides[i].billed
    ensures Count(slides, Billed) == 0 ==> Count(slides, BilledMarked) == 0
  {
  }

  /** A refund to job j, written with the change of j's record that earns it. */
  lemma RefundKeeps(s: State, j: nat, job: Job, amount: nat, reason: string, key: Key)
    requires Inv(s) && j < |s.jobs|
    requires GroupOf(key) == j && !HasKey(s.books.rows, key)
    requires job.account == s.jobs[j].account && job.account in s.books.balance
    requires job.born == s.jobs[j].born && (Alive(job) ==> Alive(s.jobs[j]))
    requires job.phase.Marking? ==> job.phase.next <= |job.slides|
    requires forall i :: 0 <= i < |job.slides| ==> SlideOk(job.slides[i], i, job.phase)
    requires Due(job.slides, job.phase.Finished?) == Due(s.jobs[j].slides, s.jobs[j].phase.Finished?) - amount
    requires KeyOk(key, s.jobs[j := job])
    requires forall k :: 0 <= k < |s.books.rows| ==> KeyOk(s.books.rows[k].key, s.jobs[j := job])
    ensures Inv(s.(books := RefundStep(s.books, job.account, amount, reason, key).0, jobs := s.jobs[j := job]))
  {
    assert JobOk(s.books, j, s.jobs[j]);
    var books := RefundStep(s.books, job.account, amount, reason, key).0;
    StepKeeps(s.books, Refund(job.account, amount, reason, key));
    NetDebitFrame(s.books.rows, books.rows[|s.books.rows|], j);
    JobStep(s, j, job, books);
  }

  /** The worker's last record, and what it owes: the share of every slide it marked. */
  lemma SettledRecord(s: State, j: nat)
    requires Inv(s) && Enabled(s, SettleUp(j))
    ensures var was := s.jobs[j];
            var job := was.(phase := Finished);
            && (forall i :: 0 <= i < |job.slides| ==> SlideOk(job.slides[i], i, job.phase))
            && (forall k :: 0 <= k < |s.books.rows| ==> KeyOk(s.books.rows[k].key, s.jobs[j := job]))
            && Due(job.slides, true) == Due(was.slides, false) - RefundUnits(was).0
            && (RefundUnits(was).0 > 0 ==> was.account in s.books.balance)
  {
    var was := s.jobs[j];
    assert JobOk(s.books, j, was);
    RefundUnitsMarked(was);
    DueSettled(was.slides);
    NoneBilled(was.slides);
    forall i | 0 <= i < |was.slides| ensures SlideOk(was.slides[i], i, Finished) {
      assert SlideOk(was.slides[i], i, was.phase);
    }
    forall k | 0 <= k < |s.books.rows| ensures KeyOk(s.books.rows[k].key, s.jobs[j := was.(phase := Finished)]) {
      assert KeyOk(s.books.rows[k].key, s.jobs);
    }
  }

  lemma SettleKeeps(s: State, j: nat)
    requires Inv(s) && Enabled(s, SettleUp(j))
    ensures Inv(SettleTx(s, j))
  {
    SettledRecord(s, j);
    var job := s.jobs[j].(phase := Finished);
    var (units, reason) := RefundUnits(s.jobs[j]);
    if units == 0 {
      assert JobOk(s.books, j, s.jobs[j]);
      JobStep(s, j, job, s.books);
    } else {
      KeyFresh(s, GroupRefund(j, reason));
      RefundKeeps(s, j, job, units, reason, GroupRefund(j, reason));
      assert CostOf(GenerateCreative) * units == units;
    }
  }

  /** A row of a dead worker, still in flight. */
  predicate Orphan(s: State, row: (nat, nat)) {
    && row.0 < |s.jobs| && s.jobs[row.0].phase.Dead?
    && row.1 < |s.jobs[row.0].slides| && InFlight(s.jobs[row.0].slides[row.1])
  }

  /** What the reaper's age test buys: the rows it finds have lost their worker. */
  lemma StuckIsOrphan(s: State, row: (nat, nat))
    requires Inv(s) && Stuck(s, row)
    ensures Orphan(s, row)
  {
  }

  lemma ReapRowKeeps(s: State, row: (nat, nat))
    requires Inv(s) && Orphan(s, row)
    ensures Inv(ReapRow(s, row))
  {
    var (j, i) := row;
    var was := s.jobs[j];
    var job := was.(slides := was.slides[i := was.slides[i].(status := Failed(WorkerLost))]);
    assert JobOk(s.books, j, was);
    DueUpdate(was.slides, i, job.slides[i], false);
    CountUpdate(was.slides, i, job.slides[i], Billed);
    forall l | 0 <= l < |job.slides| ensures SlideOk(job.slides[l], l, job.phase) {
      assert SlideOk(was.slides[l], l, was.phase);
    }
    forall k | 0 <= k < |s.books.rows| ensures KeyOk(s.books.rows[k].key, s.jobs[j := job]) {
      assert KeyOk(s.books.rows[k].key, s.jobs);
    }
    if !was.slides[i].billed {
      JobStep(s, j, job, s.books);
    } else {
      if Count(was.slides, Billed) == 0 { NoneBilled(was.slides); }
      KeyFresh(s, StuckRefund(j, i));
      RefundKeeps(s, j, job, CostOf(GenerateCreative), "stuck_creative", StuckRefund(j, i));
    }
  }

  lemma {:induction false} ReapKeeps(s: State, rows: seq<(nat, nat)>)
    requires Inv(s) && Rows(s, rows)
    requires forall k :: 0 <= k < |rows| ==> Orphan(s, rows[k])
    requires forall k, l :: 0 <= k < l < |rows| ==> rows[k] != rows[l]
    ensures Inv(ReapTx(s, rows))
    decreases |rows|
  {
    if rows != [] {
      ReapRowKeeps(s, rows[0]);
      var t := ReapRow(s, rows[0]);
      forall k | 0 <= k < |rows[1..]| ensures Orphan(t, rows[1..][k]) {
        assert rows[1..][k] == rows[k + 1];
        assert Orphan(s, rows[k + 1]);
      }
      ReapKeeps(t, rows[1..]);
    }
  }

  lemma LedgerKeepsJob(books: Books, op: Op, j: nat, job: Job)
    requires Valid(books) && JobOk(books, j, job) && (op.Open? || (op.Refund? && op.key.OtherKey?))
    ensures JobOk(Apply(books, op), j, job)
  {
    StepKeeps(books, op);
    var after := Apply(books, op);
    if |after.rows| > |books.rows| {
      NetDebitFrame(books.rows, after.rows[|books.rows|], j);
    }
  }

  lemma LedgerKeeps(s: State, op: Op)
    requires Inv(s) && Enabled(s, LedgerMoves(op))
    ensures Inv(Next(s, LedgerMoves(op)))
  {
    StepKeeps(s.books, op);
    var t := Next(s, LedgerMoves(op));
    forall j | 0 <= j < |t.jobs| ensures JobOk(t.books, j, t.jobs[j]) {
      LedgerKeepsJob(s.books, op, j, s.jobs[j]);
    }
  }

  lemma StepKeepsInv(s: State, e: Event)
    requires Inv(s)
    requires Enabled(s, e)
    ensures Inv(Next(s, e))
  {
    match e
    case LedgerMoves(op) => LedgerKeeps(s, op);
    case Generate(account, brand, billed) => GenerateKeeps(s, account, brand, billed);
    case Recompose(account, brand, n) => RecomposeKeeps(s, account, brand, n);
    case SettleUp(j) => SettleKeeps(s, j);
    case Reap(rows) =>
      forall k | 0 <= k < |rows| ensures Orphan(s, rows[k]) { StuckIsOrphan(s, rows[k]); }
      ReapKeeps(s, rows);
    case Tick(_) =>
    case SlideReady(_, _) => SlideEventKeeps(s, e);
    case SlideEnds(_, _, _) => SlideEventKeeps(s, e);
    case Gathered(j) => GatheredKeeps(s, j);
    case MarkNext(j) => MarkNextKeeps(s, j);
    case WorkerDies(j) => WorkerDiesKeeps(s, j);
  }

  lemma {:induction false} RunKeepsInv(s: State, events: seq<Event>)
    requires Inv(s)
    ensures Inv(After(s, events))
    decreases |events|
  {
    if events != [] {
      var t := if Enabled(s, events[0]) then Next(s, events[0]) else s;
      if Enabled(s, events[0]) { StepKeepsInv(s, events[0]); }
      RunKeepsInv(t, events[1..]);
    }
  }

  // ------------------------------------------------------------------ settlement

  lemma DueCounts(slides: seq<Slide>)
    ensures Due(slides, true) == Count(slides, BilledReady) + Count(slides, BilledInFlight)
    ensures Due(slides, true) + Count(slides, BilledMarked) <= Count(slides, Billed)
  {
  }

  /** Credits a crash can strand: slides marked failed by a worker that has not settled up. */
  function Stranded(job: Job): nat {
    if job.phase.Finished? then 0 else Count(job.slides, BilledMarked)
  }

  lemma DebitInv(s: State, j: nat)
    requires Inv(s) && j < |s.jobs|
    ensures var job := s.jobs[j];
            && NetDebit(s.books.rows, j)
               == Count(job.slides, BilledReady) + Count(job.slides, BilledInFlight) + Stranded(job)
            && NetDebit(s.books.rows, j) <= Count(job.slides, Billed)
  {
    assert JobOk(s.books, j, s.jobs[j]);
    DueSettled(s.jobs[j].slides);
    DueCounts(s.jobs[j].slides);
  }

  /** The settlement theorem. In every reachable state, whatever interleaving of slides,
      refunds, crashes and reaping led there, a job's net debit on the ledger is the price of
      its billed slides that are ready or still in flight, plus what a crash between
      `_mark_failed` and `_refund` stranded. So refunds never exceed the charge. */
  lemma Settlement(events: seq<Event>, j: nat)
    requires j < |After(START, events).jobs|
    ensures var s := After(START, events);
            var job := s.jobs[j];
            && NetDebit(s.books.rows, j)
               == Count(job.slides, BilledReady) + Count(job.slides, BilledInFlight) + Stranded(job)
            && 0 <= NetDebit(s.books.rows, j) <= Count(job.slides, Billed)
            && Valid(s.books)
  {
    RunKeepsInv(START, events);
    DebitInv(After(START, events), j);
  }

  lemma {:induction false} NoneInFlight(slides: seq<Slide>)
    requires forall i :: 0 <= i < |slides| ==> !InFlight(slides[i])
    ensures Count(slides, BilledInFlight) == 0
  {
    if slides != [] {
      assert forall i :: 0 <= i < |slides[1..]| ==> slides[1..][i] == slides[i + 1];
      NoneInFlight(slides[1..]);
    }
  }

  predicate Settled(job: Job) {
    !Alive(job) && forall i :: 0 <= i < |job.slides| ==> !InFlight(job.slides[i])
  }

  lemma SettledInv(s: State, j: nat)
    requires Inv(s) && j < |s.jobs| && Settled(s.jobs[j])
    ensures NetDebit(s.books.rows, j) == Count(s.jobs[j].slides, BilledReady) + Stranded(s.jobs[j])
  {
    DebitInv(s, j);
    NoneInFlight(s.jobs[j].slides);
  }

  /** Once nothing of a job is in flight and its worker is gone, the owner has paid for exactly
      the slides that shipped if and only if the worker returned or was lost before it marked a
      billed slide. */
  lemma ExactSettlement(events: seq<Event>, j: nat)
    requires var s := After(START, events); j < |s.jobs| && Settled(s.jobs[j])
    ensures var s := After(START, events);
            var job := s.jobs[j];
            (NetDebit(s.books.rows, j) == CostOf(GenerateCreative) * Count(job.slides, BilledReady))
            <==> (job.phase.Finished? || Count(job.slides, BilledMarked) == 0)
  {
    RunKeepsInv(START, events);
    SettledInv(After(START, events), j);
  }

  /** Nothing but the reaper touches a dead worker's rows. */
  ghost predicate DeadUnmarked(s: State, j: nat) {
    && j < |s.jobs| && s.jobs[j].phase.Dead?
    && forall i :: 0 <= i < |s.jobs[j].slides| ==> s.jobs[j].slides[i].status != Failed(SlideError)
  }

  lemma {:induction false} ReapLeavesDead(s: State, rows: seq<(nat, nat)>, j: nat)
    requires Rows(s, rows) && DeadUnmarked(s, j)
    ensures DeadUnmarked(ReapTx(s, rows), j)
    decreases |rows|
  {
    if rows != [] { ReapLeavesDead(ReapRow(s, rows[0]), rows[1..], j); }
  }

  lemma {:induction false} DeadStaysUnmarked(s: State, events: seq<Event>, j: nat)
    requires DeadUnmarked(s, j)
    ensures DeadUnmarked(After(s, events), j)
    decreases |events|
  {
    if events != [] {
      if Enabled(s, events[0]) {
        if events[0].Reap? { ReapLeavesDead(s, events[0].rows, j); }
        assert DeadUnmarked(Next(s, events[0]), j);
      }
      DeadStaysUnmarked(if Enabled(s, events[0]) then Next(s, events[0]) else s, events[1..], j);
    }
  }

  lemma NoneMarked(slides: seq<Slide>)
    requires forall i :: 0 <= i < |slides| ==> slides[i].status != Failed(SlideError)
    ensures Count(slides, BilledMarked) == 0
  {
  }

  lemma AfterConcat(s: State, first: seq<Event>, rest: seq<Event>)
    ensures After(s, first + rest) == After(After(s, first), rest)
    decreases |first|
  {
    if first == [] {
      assert first + rest == rest;
    } else {
      assert (first + rest)[1..] == first[1..] + rest;
      AfterConcat(if Enabled(s, first[0]) then Next(s, first[0]) else s, first[1..], rest);
    }
  }

  lemma CrashedForGood(before: seq<Event>, j: nat, later: seq<Event>)
    requires var s := After(START, before); j < |s.jobs| && s.jobs[j].phase.Working?
    ensures DeadUnmarked(After(START, before + [WorkerDies(j)] + later), j)
  {
    var s := After(START, before);
    RunKeepsInv(START, before);
    assert JobOk(s.books, j, s.jobs[j]);
    AfterConcat(START, before, [WorkerDies(j)]);
    AfterConcat(START, before + [WorkerDies(j)], later);
    var dead := Next(s, WorkerDies(j));
    assert After(s, [WorkerDies(j)]) == After(dead, []);
    forall i | 0 <= i < |s.jobs[j].slides| ensures s.jobs[j].slides[i].status != Failed(SlideError) {
      assert SlideOk(s.jobs[j].slides[i], i, Working);
    }
    DeadStaysUnmarked(dead, later, j);
  }

  /** A worker killed while slides are being made -- before it has marked anything -- costs
      nothing but the slides that shipped, as soon as the reaper has been over its rows. */
  lemma CrashDuringGeneration(before: seq<Event>, j: nat, later: seq<Event>)
    requires var s := After(START, before); j < |s.jobs| && s.jobs[j].phase.Working?
    requires var t := After(START, before + [WorkerDies(j)] + later); j < |t.jobs| && Settled(t.jobs[j])
    ensures var t := After(START, before + [WorkerDies(j)] + later);
            NetDebit(t.books.rows, j) == CostOf(GenerateCreative) * Count(t.jobs[j].slides, BilledReady)
  {
    CrashedForGood(before, j, later);
    NoneMarked(After(START, before + [WorkerDies(j)] + later).jobs[j].slides);
    ExactSettlement(before + [WorkerDies(j)] + later, j);
  }

  // ------------------------------------------------------------------ the reaper gets there

  ghost function AllStuck(s: State): set<(nat, nat)> {
    set j: nat, i: nat | j < |s.jobs| && i < |s.jobs[j].slides| && Stuck(s, (j, i)) :: (j, i)
  }

  lemma ReapRowUnsticks(s: State, row: (nat, nat), other: (nat, nat))
    requires Stuck(s, row)
    ensures Stuck(ReapRow(s, row), other) <==> Stuck(s, other) && other != row
  {
  }

  lemma {:induction false} ReapUnsticks(s: State, rows: seq<(nat, nat)>, other: (nat, nat))
    requires Rows(s, rows)
    requires forall k :: 0 <= k < |rows| ==> Stuck(s, rows[k])
    requires forall k, l :: 0 <= k < l < |rows| ==> rows[k] != rows[l]
    ensures Stuck(ReapTx(s, rows), other) <==> Stuck(s, other) && other !in rows
    decreases |rows|
  {
    if rows != [] {
      var rest := rows[1..];
      forall k | 0 <= k < |rest| ensures Stuck(ReapRow(s, rows[0]), rest[k]) {
        ReapRowUnsticks(s, rows[0], rest[k]);
      }
      ReapRowUnsticks(s, rows[0], other);
      ReapUnsticks(ReapRow(s, rows[0]), rest, other);
      assert other in rows <==> other == rows[0] || other in rest;
    }
  }

  lemma {:induction false} AsManyAs(rows: seq<(nat, nat)>)
    requires forall k, l :: 0 <= k < l < |rows| ==> rows[k] != rows[l]
    ensures |set row | row in rows| == |rows|
  {
    if rows != [] {
      AsManyAs(rows[1..]);
      assert (set row | row in rows) == (set row | row in rows[1..]) + {rows[0]};
    }
  }

  /** One reaping: the stuck rows are those it did not take. A short one leaves none, a full one
      leaves REAP_LIMIT fewer. */
  lemma ReapingGetsThere(s: State, rows: seq<(nat, nat)>)
    requires Enabled(s, Reap(rows))
    ensures AllStuck(ReapTx(s, rows)) == AllStuck(s) - set row | row in rows
    ensures |AllStuck(ReapTx(s, rows))| == |AllStuck(s)| - |rows|
    ensures |rows| < REAP_LIMIT ==> AllStuck(ReapTx(s, rows)) == {}
  {
    forall other: (nat, nat) ensures Stuck(ReapTx(s, rows), other) <==> Stuck(s, other) && other !in rows {
      ReapUnsticks(s, rows, other);
    }
    AsManyAs(rows);
    assert (set row | row in rows) <= AllStuck(s);
  }

  ghost predicate Reapings(s: State, events: seq<Event>)
    decreases |events|
  {
    events == [] || (events[0].Reap? && Enabled(s, events[0]) && Reapings(Next(s, events[0]), events[1..]))
  }

  /** Some `limit` of the rows, or all there are. */
  lemma {:induction false} TakeSome(rows: set<(nat, nat)>, limit: nat) returns (taken: seq<(nat, nat)>)
    ensures |taken| == if |rows| <= limit then |rows| else limit
    ensures forall k :: 0 <= k < |taken| ==> taken[k] in rows
    ensures forall k, l :: 0 <= k < l < |taken| ==> taken[k] != taken[l]
    ensures |rows| <= limit ==> forall row :: row in rows ==> row in taken
    decreases limit
  {
    taken := [];
    if limit > 0 && exists row :: row in rows {
      var row :| row in rows;
      var rest := TakeSome(rows - {row}, limit - 1);
      taken := [row] + rest;
      forall other | |rows| <= limit && other in rows ensures other in taken {
        if other != row { assert other in rest; }
      }
    }
  }

  /** In every state the reaper can run, as often as it likes. */
  lemma {:induction false} TheReaperCanRun(s: State, times: nat) returns (events: seq<Event>)
    ensures |events| == times && Reapings(s, events)
    decreases times
  {
    events := [];
    if times > 0 {
      var rows := TakeSome(AllStuck(s), REAP_LIMIT);
      forall row: (nat, nat) | Stuck(s, row) ensures row in AllStuck(s) { assert row == (row.0, row.1); }
      assert Enabled(s, Reap(rows));
      var rest := TheReaperCanRun(Next(s, Reap(rows)), times - 1);
      events := [Reap(rows)] + rest;
      assert events[1..] == rest;
    }
  }

  lemma {:induction false} ReapingsGetThere(s: State, events: seq<Event>)
    requires Reapings(s, events)
    ensures |AllStuck(After(s, events))| <= if |AllStuck(s)| < REAP_LIMIT * |events| then 0
                                            else |AllStuck(s)| - REAP_LIMIT * |events|
    decreases |events|
  {
    if events != [] {
      ReapingGetsThere(s, events[0].rows);
      ReapingsGetThere(Next(s, events[0]), events[1..]);
    }
  }

  /** What reaping leaves of a job: its age, its worker, and what has shipped. */
  lemma {:induction false} ReapingsLeave(s: State, events: seq<Event>, j: nat)
    requires Reapings(s, events) && j < |s.jobs|
    ensures var t := After(s, events);
            j < |t.jobs| && t.now == s.now && t.jobs[j].born == s.jobs[j].born && t.jobs[j].phase == s.jobs[j].phase
    decreases |events|
  {
    if events != [] {
      ReapAges(s, events[0].rows);
      ReapKeepsPhase(s, events[0].rows, j);
      ReapingsLeave(Next(s, events[0]), events[1..], j);
    }
  }

  lemma {:induction false} ReapKeepsPhase(s: State, rows: seq<(nat, nat)>, j: nat)
    requires Rows(s, rows) && j < |s.jobs|
    ensures j < |ReapTx(s, rows).jobs| && ReapTx(s, rows).jobs[j].phase == s.jobs[j].phase
            && ReapTx(s, rows).jobs[j].born == s.jobs[j].born
    decreases |rows|
  {
    if rows != [] { ReapKeepsPhase(ReapRow(s, rows[0]), rows[1..], j); }
  }

  /** A job left by its worker is settled once it is older than STUCK_AFTER and the reaper has come
      round often enough for the rows then stuck. */
  lemma ReapedJobsSettle(s: State, events: seq<Event>, j: nat)
    requires Reapings(s, events) && REAP_LIMIT * |events| >= |AllStuck(s)|
    requires j < |s.jobs| && !Alive(s.jobs[j]) && s.jobs[j].born < s.now - STUCK_AFTER
    ensures var t := After(s, events); j < |t.jobs| && Settled(t.jobs[j])
  {
    ReapingsGetThere(s, events);
    ReapingsLeave(s, events, j);
    var t := After(s, events);
    forall i | 0 <= i < |t.jobs[j].slides| ensures !InFlight(t.jobs[j].slides[i]) {
      assert (j, i) !in AllStuck(t);
    }
  }

  /** So a crash while slides are being made is made good: past the threshold, and after as many
      reapings as the stuck rows need, the owner has paid for the slides that shipped and no others. */
  lemma CrashIsMadeGood(before: seq<Event>, j: nat, later: seq<Event>, reapings: seq<Event>)
    requires var s := After(START, before); j < |s.jobs| && s.jobs[j].phase.Working?
    requires var t := After(START, before + [WorkerDies(j)] + later);
             && j < |t.jobs| && t.jobs[j].born < t.now - STUCK_AFTER
             && Reapings(t, reapings) && REAP_LIMIT * |reapings| >= |AllStuck(t)|
    ensures var u := After(START, before + [WorkerDies(j)] + (later + reapings));
            && j < |u.jobs| && Settled(u.jobs[j])
            && NetDebit(u.books.rows, j) == CostOf(GenerateCreative) * Count(u.jobs[j].slides, BilledReady)
  {
    var t := After(START, before + [WorkerDies(j)] + later);
    assert before + [WorkerDies(j)] + later + reapings == before + [WorkerDies(j)] + (later + reapings);
    AfterConcat(START, before + [WorkerDies(j)] + later, reapings);
    CrashedForGood(before, j, later);
    ReapedJobsSettle(t, reapings, j);
    CrashDuringGeneration(before, j, later + reapings);
  }

  lemma AfterCons(s: State, e: Event, rest: seq<Event>)
    requires Enabled(s, e)
    ensures After(s, [e] + rest) == After(Next(s, e), rest)
  {
  }

  /** One owner with three credits, one charged job with one slide. */
  function OneJob(slide: Slide, phase: Phase): State {
    State(0, Books(map[0 := 2], [Row(0, -1, 2, "generate_creative", CreativeCharge(0))]),
          [Job(0, 0, 0, [slide], phase)])
  }

  lemma OneJobCharged()
    ensures var s := Next(START, LedgerMoves(Open(0, 3)));
            Next(s, Generate(0, 0, [true])) == OneJob(Slide(true, Generating, Running), Working)
  {
    var s := Next(START, LedgerMoves(Open(0, 3)));
    var job := NewJob(s, 0, 0, [true], Generating, Working);
    assert job.slides == [Slide(true, Generating, Running)];
    assert Count(job.slides, Billed) == 1;
  }

  lemma OneJobFails(status: Status, result: Result, phase: Phase, e: Event, status': Status, result': Result,
                    phase': Phase)
    requires var s := OneJob(Slide(true, status, result), phase);
             Enabled(s, e) && (e == SlideEnds(0, 0, true) || e == Gathered(0) || e == MarkNext(0) || e == WorkerDies(0))
    requires var s := OneJob(Slide(true, status, result), phase);
             Next(s, e).jobs[0].slides == [Slide(true, status', result')] && Next(s, e).jobs[0].phase == phase'
    ensures Next(OneJob(Slide(true, status, result), phase), e) == OneJob(Slide(true, status', result'), phase')
  {
  }

  lemma OneJobCrashes()
    ensures After(OneJob(Slide(true, Generating, Running), Working),
                  [SlideEnds(0, 0, true)] + ([Gathered(0)] + ([MarkNext(0)] + ([WorkerDies(0)] + []))))
            == OneJob(Slide(true, Failed(SlideError), Raised), Dead)
  {
    var s2 := OneJob(Slide(true, Generating, Running), Working);
    OneJobFails(Generating, Running, Working, SlideEnds(0, 0, true), Generating, Raised, Working);
    AfterCons(s2, SlideEnds(0, 0, true), [Gathered(0)] + ([MarkNext(0)] + ([WorkerDies(0)] + [])));
    var s3 := OneJob(Slide(true, Generating, Raised), Working);
    OneJobFails(Generating, Raised, Working, Gathered(0), Generating, Raised, Marking(0));
    AfterCons(s3, Gathered(0), [MarkNext(0)] + ([WorkerDies(0)] + []));
    var s4 := OneJob(Slide(true, Generating, Raised), Marking(0));
    OneJobFails(Generating, Raised, Marking(0), MarkNext(0), Failed(SlideError), Raised, Marking(1));
    AfterCons(s4, MarkNext(0), [WorkerDies(0)] + []);
    var s5 := OneJob(Slide(true, Failed(SlideError), Raised), Marking(1));
    OneJobFails(Failed(SlideError), Raised, Marking(1), WorkerDies(0), Failed(SlideError), Raised, Dead);
    AfterCons(s5, WorkerDies(0), []);
  }

  /** The window is real: one billed slide fails, its worker marks it and dies before the
      refund. The row is no longer in flight, so no reaper will ever look at it again. */
  lemma CrashBeforeRefundStrands()
    ensures var run := [LedgerMoves(Open(0, 3))] + ([Generate(0, 0, [true])] + ([SlideEnds(0, 0, true)]
                       + ([Gathered(0)] + ([MarkNext(0)] + ([WorkerDies(0)] + [])))));
            var s := After(START, run);
            && |s.jobs| == 1 && Settled(s.jobs[0])
            && Count(s.jobs[0].slides, BilledReady) == 0 && NetDebit(s.books.rows, 0) == 1
  {
    var tail := [SlideEnds(0, 0, true)] + ([Gathered(0)] + ([MarkNext(0)] + ([WorkerDies(0)] + [])));
    var s1 := Next(START, LedgerMoves(Open(0, 3)));
    AfterCons(START, LedgerMoves(Open(0, 3)), [Generate(0, 0, [true])] + tail);
    AfterCons(s1, Generate(0, 0, [true]), tail);
    OneJobCharged();
    OneJobCrashes();
    var rows := OneJob(Slide(true, Failed(SlideError), Raised), Dead).books.rows;
    assert NetDebit(rows[..0], 0) == 0;
  }

  // ------------------------------------------------------------------ one picture at a time

  predicate HasGenerating(job: Job) {
    exists i :: 0 <= i < |job.slides| && job.slides[i].status.Generating?
  }

  /** Two jobs of one brand with `generating` rows were born more than STUCK_AFTER apart. */
  ghost predicate Apart(s: State) {
    && (forall j :: 0 <= j < |s.jobs| ==> s.jobs[j].born <= s.now)
    && forall j, l :: 0 <= j < l < |s.jobs| && s.jobs[j].brand == s.jobs[l].brand
                   && HasGenerating(s.jobs[j]) && HasGenerating(s.jobs[l])
                   ==> s.jobs[j].born + STUCK_AFTER < s.jobs[l].born
  }

  /** Job j of `t` is the job it was in `s`, with no row put back into `generating`. */
  predicate Aged(s: State, t: State, j: nat)
    requires j < |s.jobs| && j < |t.jobs|
  {
    && t.jobs[j].brand == s.jobs[j].brand && t.jobs[j].born == s.jobs[j].born
    && (HasGenerating(t.jobs[j]) ==> HasGenerating(s.jobs[j]))
  }

  lemma ReapRowAges(s: State, row: (nat, nat))
    requires row.0 < |s.jobs| && row.1 < |s.jobs[row.0].slides|
    ensures |ReapRow(s, row).jobs| == |s.jobs|
    ensures forall j :: 0 <= j < |s.jobs| ==> Aged(s, ReapRow(s, row), j)
  {
  }

  lemma {:induction false} ReapAges(s: State, rows: seq<(nat, nat)>)
    requires Rows(s, rows)
    ensures |ReapTx(s, rows).jobs| == |s.jobs| && ReapTx(s, rows).now == s.now
    ensures forall j :: 0 <= j < |s.jobs| ==> Aged(s, ReapTx(s, rows), j)
    decreases |rows|
  {
    if rows != [] {
      ReapRowAges(s, rows[0]);
      var t := ReapRow(s, rows[0]);
      ReapAges(t, rows[1..]);
      forall j | 0 <= j < |s.jobs| ensures Aged(s, ReapTx(s, rows), j) {
        assert Aged(s, t, j) && Aged(t, ReapTx(t, rows[1..]), j);
      }
    }
  }

  lemma WorkerStepAges(s: State, e: Event, j: nat)
    requires Enabled(s, e) && j < |s.jobs|
    requires e.SlideReady? || e.SlideEnds? || e.Gathered? || e.MarkNext? || e.SettleUp? || e.WorkerDies?
    ensures |Next(s, e).jobs| == |s.jobs| && Aged(s, Next(s, e), j)
  {
  }

  lemma AgedKeepsApart(s: State, t: State)
    requires Apart(s) && |t.jobs| == |s.jobs| && s.now <= t.now
    requires forall j :: 0 <= j < |s.jobs| ==> Aged(s, t, j)
    ensures Apart(t)
  {
    forall j | 0 <= j < |t.jobs| ensures t.jobs[j].born <= t.now {
      assert Aged(s, t, j);
    }
    forall j, l | 0 <= j < l < |t.jobs| && t.jobs[j].brand == t.jobs[l].brand
                  && HasGenerating(t.jobs[j]) && HasGenerating(t.jobs[l])
      ensures t.jobs[j].born + STUCK_AFTER < t.jobs[l].born
    {
      assert Aged(s, t, j) && Aged(s, t, l);
    }
  }

  lemma AppendKeepsApart(s: State, job: Job)
    requires Apart(s) && job.born == s.now
    requires Busy(s, job.brand) ==> !HasGenerating(job)
    ensures Apart(s.(jobs := s.jobs + [job]))
  {
  }

  lemma StepKeepsApart(s: State, e: Event)
    requires Enabled(s, e) && Apart(s)
    ensures Apart(Next(s, e))
  {
    match e
    case LedgerMoves(_) =>
    case Tick(_) =>
    case Recompose(account, brand, n) =>
      AppendKeepsApart(s, NewJob(s, account, brand, seq(n, _ => false), Composing, Working));
    case Generate(account, brand, billed) =>
      if Busy(s, brand) { return; }
      AppendKeepsApart(s, NewJob(s, account, brand, billed, Generating, Working));
      AppendKeepsApart(s, NewJob(s, account, brand, billed, Failed(NoCredits), Refused));
    case Reap(rows) =>
      ReapAges(s, rows);
      AgedKeepsApart(s, Next(s, e));
    case _ =>
      forall j | 0 <= j < |s.jobs| ensures |Next(s, e).jobs| == |s.jobs| && Aged(s, Next(s, e), j) {
        WorkerStepAges(s, e, j);
      }
      AgedKeepsApart(s, Next(s, e));
  }

  lemma {:induction false} RunKeepsApart(s: State, events: seq<Event>)
    requires Apart(s)
    ensures Apart(After(s, events))
    decreases |events|
  {
    if events != [] {
      if Enabled(s, events[0]) { StepKeepsApart(s, events[0]); }
      RunKeepsApart(if Enabled(s, events[0]) then Next(s, events[0]) else s, events[1..]);
    }
  }

  lemma {:induction false} CountSnoc(slides: seq<Slide>, f: Slide -> bool)
    requires slides != []
    ensures Count(slides, f) == Count(slides[..|slides| - 1], f) + (if f(slides[|slides| - 1]) then 1 else 0)
  {
    var n := |slides| - 1;
    if n > 0 {
      CountSnoc(slides[1..], f);
      assert slides[1..][..n - 1] == slides[..n][1..];
    }
  }

  /** Counting is counting: `chosen` are the places of the slides `f` holds of. */
  lemma {:induction false} CountIsHowMany(slides: seq<Slide>, f: Slide -> bool, chosen: set<int>)
    requires forall i :: i in chosen <==> 0 <= i < |slides| && f(slides[i])
    ensures Count(slides, f) == |chosen|
  {
    if slides == [] {
      assert forall i :: i !in chosen;
      assert chosen == {};
    } else {
      var n := |slides| - 1;
      CountSnoc(slides, f);
      CountIsHowMany(slides[..n], f, chosen - {n});
      assert chosen == if f(slides[n]) then (chosen - {n}) + {n} else chosen - {n};
    }
  }

  /** What the owner gets for asking, in every state. Nothing happens exactly when a slide of the same
      brand, born no longer than STUCK_AFTER ago, is still being made, or the payer is unknown.
      Otherwise exactly one job joins the others: all its slides generating, one credit taken for each
      billed one, when the balance pays for them -- to the last credit; and all failed, the books
      untouched, when not. (A key already in the books, which no reachable state has, takes nothing.) */
  lemma GenerateExactly(s: State, account: nat, brand: nat, billed: seq<bool>)
    ensures var t, g := GenerateTx(s, account, brand, billed), |s.jobs|;
            var busy := exists j, i :: 0 <= j < g && 0 <= i < |s.jobs[j].slides|
                          && s.jobs[j].brand == brand && s.now - s.jobs[j].born <= STUCK_AFTER
                          && (s.jobs[j].slides[i].status == Generating || s.jobs[j].slides[i].status == Composing);
            var units := |set i | 0 <= i < |billed| && billed[i]|;
            var taken := HasKey(s.books.rows, CreativeCharge(g));
            if busy || (units > 0 && account !in s.books.balance) then t == s
            else
              && t.now == s.now && |t.jobs| == g + 1 && t.jobs[..g] == s.jobs
              && t.jobs[g].account == account && t.jobs[g].brand == brand && t.jobs[g].born == s.now
              && |t.jobs[g].slides| == |billed|
              && (forall i :: 0 <= i < |billed| ==> t.jobs[g].slides[i].billed == billed[i])
              && if units == 0 || taken || s.books.balance[account] >= units then
                   && t.jobs[g].phase == Working
                   && (forall i :: 0 <= i < |billed| ==>
                         t.jobs[g].slides[i].status == Generating && t.jobs[g].slides[i].result == Running)
                   && (if units == 0 || taken then t.books == s.books
                       else Moved(s.books, t.books, account, -units, "generate_creative", CreativeCharge(g)))
                 else
                   && t.jobs[g].phase == Refused && t.books == s.books
                   && forall i :: 0 <= i < |billed| ==> t.jobs[g].slides[i].status == Failed(NoCredits)
  {
    var job := NewJob(s, account, brand, billed, Generating, Working);
    CountIsHowMany(job.slides, Billed, set i | 0 <= i < |billed| && billed[i]);
  }

  /** Setting a picture again is never refused: whatever else is being made, it adds a job of slides
      being composed, for nothing. */
  lemma RecomposeExactly(s: State, account: nat, brand: nat, slides: nat)
    ensures var t, g := Next(s, Recompose(account, brand, slides)), |s.jobs|;
            && t.now == s.now && t.books == s.books && |t.jobs| == g + 1 && t.jobs[..g] == s.jobs
            && t.jobs[g].account == account && t.jobs[g].brand == brand && t.jobs[g].born == s.now
            && t.jobs[g].phase == Working && |t.jobs[g].slides| == slides
            && forall i :: 0 <= i < slides ==> t.jobs[g].slides[i] == Slide(false, Composing, Running)
  {
  }

  function BilledLosses(slides: seq<Slide>): set<int> {
    set i | 0 <= i < |slides| && slides[i].billed && slides[i].result.Raised?
  }

  lemma RefundUnitsExactly(job: Job)
    requires job.phase == Marking(|job.slides|)
    requires forall i :: 0 <= i < |job.slides| ==> SlideOk(job.slides[i], i, job.phase)
    ensures RefundUnits(job) == (|BilledLosses(job.slides)|,
                                 if exists i :: 0 <= i < |job.slides| && job.slides[i].result.Returned?
                                 then "partial_carousel" else "creative_failed")
  {
    RefundUnitsMarked(job);
    CountSame(job.slides, BilledRaised, BilledMarked);
    CountIsHowMany(job.slides, BilledRaised, BilledLosses(job.slides));
    forall i | 0 <= i < |job.slides| ensures job.slides[i].result.Raised? <==> !job.slides[i].result.Returned? {
      assert SlideOk(job.slides[i], i, job.phase);
    }
  }

  /** What the worker hands back when it is done, in every state of a run: a credit for each billed
      slide that raised, in one row that says whether anything was left to ship. */
  lemma SettleExactly(s: State, j: nat)
    requires Inv(s) && Enabled(s, SettleUp(j))
    ensures var t, job := SettleTx(s, j), s.jobs[j];
            var units := |set i | 0 <= i < |job.slides| && job.slides[i].billed && job.slides[i].result.Raised?|;
            var reason := if exists i :: 0 <= i < |job.slides| && job.slides[i].result.Returned? then "partial_carousel"
                          else "creative_failed";
            && t.now == s.now && t.jobs == s.jobs[j := job.(phase := Finished)]
            && if units == 0 then t.books == s.books
               else Moved(s.books, t.books, job.account, units, reason, GroupRefund(j, reason))
  {
    assert JobOk(s.books, j, s.jobs[j]);
    RefundUnitsExactly(s.jobs[j]);
    SettleMoves(s, j);
  }

  lemma SettleMoves(s: State, j: nat)
    requires Inv(s) && Enabled(s, SettleUp(j))
    ensures var t, job := SettleTx(s, j), s.jobs[j];
            var (units, reason) := RefundUnits(job);
            && t.now == s.now && t.jobs == s.jobs[j := job.(phase := Finished)]
            && if units == 0 then t.books == s.books
               else Moved(s.books, t.books, job.account, units, reason, GroupRefund(j, reason))
  {
    var job := s.jobs[j];
    var (units, reason) := RefundUnits(job);
    SettledRecord(s, j);
    if units > 0 {
      KeyFresh(s, GroupRefund(j, reason));
      RefundExactly(s.books, job.account, units, reason, GroupRefund(j, reason));
    }
  }

  // What one reaping does, row by row.

  function RefundsTo(s: State, rows: seq<(nat, nat)>, account: nat): set<(nat, nat)>
    requires Rows(s, rows)
  {
    set row | row in rows && s.jobs[row.0].slides[row.1].billed && s.jobs[row.0].account == account
  }

  lemma ReapRowPays(s: State, row: (nat, nat))
    requires Inv(s) && Orphan(s, row)
    ensures var t, job := ReapRow(s, row), s.jobs[row.0];
            if job.slides[row.1].billed
            then Moved(s.books, t.books, job.account, 1, "stuck_creative", StuckRefund(row.0, row.1))
            else t.books == s.books
  {
    var (j, i) := row;
    assert JobOk(s.books, j, s.jobs[j]);
    if s.jobs[j].slides[i].billed {
      if Count(s.jobs[j].slides, Billed) == 0 { NoneBilled(s.jobs[j].slides); }
      KeyFresh(s, StuckRefund(j, i));
      RefundExactly(s.books, s.jobs[j].account, 1, "stuck_creative", StuckRefund(j, i));
    }
  }

  predicate SameBilling(s: State, t: State, r: (nat, nat)) {
    && r.0 < |s.jobs| && r.1 < |s.jobs[r.0].slides| && r.0 < |t.jobs| && r.1 < |t.jobs[r.0].slides|
    && t.jobs[r.0].slides[r.1].billed == s.jobs[r.0].slides[r.1].billed && t.jobs[r.0].account == s.jobs[r.0].account
  }

  /** `t` is `s` as far as billing goes, for the rows after the first. */
  lemma OneRowFewer(s: State, t: State, rows: seq<(nat, nat)>, account: nat)
    requires rows != [] && Rows(s, rows) && Rows(t, rows[1..]) && rows[0] !in rows[1..]
    requires forall r :: r in rows[1..] ==> SameBilling(s, t, r)
    ensures var row := rows[0];
            |RefundsTo(s, rows, account)|
            == |RefundsTo(t, rows[1..], account)|
               + (if s.jobs[row.0].slides[row.1].billed && s.jobs[row.0].account == account then 1 else 0)
  {
    var row, rest := rows[0], rows[1..];
    var paid := s.jobs[row.0].slides[row.1].billed && s.jobs[row.0].account == account;
    var before, after := RefundsTo(s, rows, account), RefundsTo(t, rest, account);
    forall r: (nat, nat) ensures r in before <==> r in after || (paid && r == row) {
      assert r in rows <==> r == row || r in rest;
    }
    assert before == if paid then after + {row} else after;
  }

  lemma {:induction false} ReapPays(s: State, rows: seq<(nat, nat)>, account: nat)
    requires Inv(s) && Rows(s, rows) && account in s.books.balance
    requires forall k :: 0 <= k < |rows| ==> Orphan(s, rows[k])
    requires forall k, l :: 0 <= k < l < |rows| ==> rows[k] != rows[l]
    ensures var t := ReapTx(s, rows);
            account in t.books.balance
            && t.books.balance[account] == s.books.balance[account] + |RefundsTo(s, rows, account)|
    decreases |rows|
  {
    if rows == [] {
      assert RefundsTo(s, rows, account) == {};
    } else {
      var row, rest, t := rows[0], rows[1..], ReapRow(s, rows[0]);
      ReapRowKeeps(s, row);
      ReapRowPays(s, row);
      forall k | 0 <= k < |rest| ensures Orphan(t, rest[k]) && SameBilling(s, t, rest[k]) {
        assert rest[k] == rows[k + 1];
        ReapRowLeaves(s, row, rest[k]);
      }
      ReapPays(t, rest, account);
      OneRowFewer(s, t, rows, account);
    }
  }

  lemma ReapRowLeaves(s: State, row: (nat, nat), other: (nat, nat))
    requires Orphan(s, row) && Orphan(s, other) && other != row
    ensures Orphan(ReapRow(s, row), other) && SameBilling(s, ReapRow(s, row), other)
  {
  }

  lemma {:induction false} ReapFails(s: State, rows: seq<(nat, nat)>, j: nat, i: nat)
    requires Rows(s, rows) && j < |s.jobs| && i < |s.jobs[j].slides|
    ensures var t := ReapTx(s, rows);
            && t.now == s.now && |t.jobs| == |s.jobs| && |t.jobs[j].slides| == |s.jobs[j].slides|
            && t.jobs[j].(slides := []) == s.jobs[j].(slides := [])
            && t.jobs[j].slides[i] == if (j, i) in rows then s.jobs[j].slides[i].(status := Failed(WorkerLost))
                                      else s.jobs[j].slides[i]
    decreases |rows|
  {
    if rows != [] { ReapFails(ReapRow(s, rows[0]), rows[1..], j, i); }
  }

  /** One reaping, in every state of a run: the slides it takes are failed for want of a worker and
      nothing else about any job changes, and every account gets a credit for each billed slide of its
      own among them. */
  lemma ReapExactly(s: State, rows: seq<(nat, nat)>)
    requires Inv(s) && Enabled(s, Reap(rows))
    ensures var t := Next(s, Reap(rows));
            && t.now == s.now && |t.jobs| == |s.jobs|
            && (forall j :: 0 <= j < |s.jobs| ==> |t.jobs[j].slides| == |s.jobs[j].slides|)
            && (forall j, i :: 0 <= j < |s.jobs| && 0 <= i < |s.jobs[j].slides| ==>
                  && t.jobs[j].(slides := []) == s.jobs[j].(slides := [])
                  && t.jobs[j].slides[i] == if (j, i) in rows then s.jobs[j].slides[i].(status := Failed(WorkerLost))
                                            else s.jobs[j].slides[i])
            && forall a :: a in s.books.balance ==>
                 a in t.books.balance && t.books.balance[a] == s.books.balance[a] + |RefundsTo(s, rows, a)|
  {
    forall k | 0 <= k < |rows| ensures Orphan(s, rows[k]) { StuckIsOrphan(s, rows[k]); }
    ReapAges(s, rows);
    var t := Next(s, Reap(rows));
    forall j | 0 <= j < |s.jobs| ensures |t.jobs[j].slides| == |s.jobs[j].slides| { ReapKeepsLength(s, rows, j); }
    forall j, i | 0 <= j < |s.jobs| && 0 <= i < |s.jobs[j].slides|
      ensures t.jobs[j].(slides := []) == s.jobs[j].(slides := [])
      ensures t.jobs[j].slides[i] == if (j, i) in rows then s.jobs[j].slides[i].(status := Failed(WorkerLost))
                                     else s.jobs[j].slides[i]
    {
      ReapFails(s, rows, j, i);
    }
    forall a | a in s.books.balance
      ensures a in t.books.balance && t.books.balance[a] == s.books.balance[a] + |RefundsTo(s, rows, a)|
    {
      ReapPays(s, rows, a);
    }
  }

  lemma {:induction false} ReapKeepsLength(s: State, rows: seq<(nat, nat)>, j: nat)
    requires Rows(s, rows) && j < |s.jobs|
    ensures |ReapTx(s, rows).jobs| == |s.jobs| && |ReapTx(s, rows).jobs[j].slides| == |s.jobs[j].slides|
    decreases |rows|
  {
    if rows != [] { ReapKeepsLength(ReapRow(s, rows[0]), rows[1..], j); }
  }

  /** One creative at a time: in every run, crashes and reaping included, a brand has at most one
      job no older than STUCK_AFTER that still has a `generating` row. */
  lemma OneYoungJob(events: seq<Event>, j: nat, l: nat)
    requires var s := After(START, events);
             && j < |s.jobs| && l < |s.jobs| && s.jobs[j].brand == s.jobs[l].brand
             && HasGenerating(s.jobs[j]) && HasGenerating(s.jobs[l])
             && s.jobs[j].born >= s.now - STUCK_AFTER && s.jobs[l].born >= s.now - STUCK_AFTER
    ensures j == l
  {
    RunKeepsApart(START, events);
  }

  // ------------------------------------------------------------------ the reaper, in place

  class Database {
    var db: State

    constructor (s: State)
      ensures db == s
    {
      db := s;
    }

    /** The reaper's query: at most REAP_LIMIT stuck rows, each once, and all of them when
        there are fewer. */
    method StuckRows() returns (rows: seq<(nat, nat)>)
      ensures Enabled(db, Reap(rows))
    {
      rows := [];
      for j := 0 to |db.jobs|
        invariant |rows| <= REAP_LIMIT
        invariant forall k :: 0 <= k < |rows| ==> Stuck(db, rows[k]) && rows[k].0 < j
        invariant forall k, l :: 0 <= k < l < |rows| ==> rows[k] != rows[l]
        invariant |rows| == REAP_LIMIT || forall row: (nat, nat) :: Stuck(db, row) && row.0 < j ==> row in rows
      {
        for i := 0 to |db.jobs[j].slides|
          invariant |rows| <= REAP_LIMIT
          invariant forall k :: 0 <= k < |rows| ==>
                      Stuck(db, rows[k]) && (rows[k].0 < j || (rows[k].0 == j && rows[k].1 < i))
          invariant forall k, l :: 0 <= k < l < |rows| ==> rows[k] != rows[l]
          invariant |rows| == REAP_LIMIT || forall row: (nat, nat) ::
            Stuck(db, row) && (row.0 < j || (row.0 == j && row.1 < i)) ==> row in rows
        {
          if |rows| < REAP_LIMIT && Stuck(db, (j, i)) {
            rows := rows + [(j, i)];
          }
        }
      }
    }

    /** reap_stuck_creatives: one transaction over the rows the query found. */
    method ReapStuckCreatives() returns (failed: nat, ghost rows: seq<(nat, nat)>)
      modifies this
      ensures Enabled(old(db), Reap(rows)) && db == Next(old(db), Reap(rows))
      ensures failed == |rows|
    {
      var found := StuckRows();
      rows, failed := found, 0;
      while failed < |found|
        invariant 0 <= failed <= |found|
        invariant Rows(db, found[failed..])
        invariant ReapTx(db, found[failed..]) == ReapTx(old(db), found)
      {
        var (j, i) := found[failed];
        assert found[failed..][0] == found[failed] && found[failed..][1..] == found[failed + 1..];
        var job := db.jobs[j];
        var slide := job.slides[i];
        var books := db.books;
        if slide.billed {
          books := RefundStep(books, job.account, CostOf(GenerateCreative), "stuck_creative", StuckRefund(j, i)).0;
        }
        db := State(db.now, books,
                    db.jobs[j := job.(slides := job.slides[i := slide.(status := Failed(WorkerLost))])]);
        failed := failed + 1;
      }
    }
  }
}
