# Verified model of the creative pipeline

This project models the parts of the creative studio where money, pictures and pixels are at
stake, and proves what the code and its comments promise about them -- or, where a promise is
false, exactly when it holds. `dafny verify dfyconfig.toml` checks the whole of it.

- **Credits and the life of a job** (`Credits`, `Lifecycle`). The ledger is proved true over
  every run of charges, refunds and sign-ups. A state machine interleaves the steps of all jobs
  with crashes, the reaper and the clock; every `session_scope` is one atomic step.
- **Retry loops around the vendor** (`Gate`, `Dedupe`, `FinalCheck`, `VendorQueue`, `Quote`). The
  vendor, the inspector, Chromium and the other slides are adversaries: a function from "how much
  has happened so far" to what they answer next, so a statement for all such functions is a
  statement for all behaviours.
- **Geometry** (`FocusCrop`, `Placement`, `Plates`). Coordinates are reals; Python's `round`
  (half to even) and `int` are written out wherever a coordinate becomes a pixel.
- **Legibility** (`Legibility`, `LegibleFrame`, `PlatedFrame`, `Layouts`, `Ground`). The sRGB curve is any pair
  of strictly increasing maps of [0, 1] that undo each other (WCAG 2.1, "relative luminance" and
  "contrast ratio"; Success Criteria 1.4.3 and 1.4.11 set the two bars).
- **Algorithms** (`EditDistance`, `Dedupe`, `BoxWalk`, `Lineage`): the word-error-rate table, the
  64-bit difference hash, the MP4 box walk (ISO/IEC 14496-12 sections 4.2, 8.2.2 and 8.3.2) and
  the version history of a brief.

`Numeric`, `Geometry` and `Options` hold what several of them share. Loops and in-place updates
of the source are methods and classes, each tied to a specification function; the lemmas are about
those functions.

## Where the code and its comments disagree

The model follows the code. These are results, each proved below.

- A worker that dies between `_mark_failed` and `_refund` strands the failed slides' credits: the
  rows are no longer in flight, so no reaper looks at them again (`ExactSettlement`,
  `CrashBeforeRefundStrands`).
- `paid_attempts`, on which the quoted minutes rest, bounds the gate's calls at any real price of at
  least the list price, and at a lower one exactly when that buys no more calls
  (`QuoteCoversThePriceExactly`). It covers the corrected retry too if and only if there is a cap, a
  list price, and the cap pays for no more pictures than the count (`PromiseCoversTheRetryExactly`).
  `working_window` quotes no time between calls (`WindowCoversTheQueue`); as a bound on the calls
  alone neither of its figures can be shortened (`WindowIsReached`).
- `composite_paid_retries` is said to be held inside the slide's cap. `buy` subtracts what the gate
  spent and nothing else: with free looks, two or more retries keep the cap if and only if it pays
  for fewer than two pictures, or for every attempt of the gate and of every retry
  (`RetriesKeepTheCapExactly`). The one retry keeps the cap and one look if and only if no number of
  calls can leave the gate with money for a picture at the list price and not at the real one, looks
  included (`RetryKeepsTheCapExactly`). At the shipped settings, with OpenAI listed at 288 300
  micro-dollars and looks of the 5 800 that app/config.py estimates, it is broken exactly where a
  picture really costs 296 134 to 305 850 or 447 101 to 611 700 (`DefaultsKeepTheCapExactly`, for
  every price of a look). Every provider but the mock has a list price, so however stale it is, and
  whatever each reply charges, the cap is passed by less than one picture and one look
  (`OverrunIsUnderOnePicture`).
- The forecast meant to keep a duplicate from failing a slide does so while prices do not rise; at a
  constant real price it fails exactly when there is an earlier slide and a second attempt, and the
  cap pays for two pictures at a stale list price and not at the real one
  (`DuplicateAlwaysRerolled`, `DuplicateFailsExactly`, `StalePriceDefeatsTheForecast`). Two twins
  stay on the register when the earlier slide lands later (`LateEarlierSlideKeepsItsTwin`).
- The margin clamps of `_focus_crop` never change its answer (`MarginClampsDoNothing`), and the
  crop can take in one column beyond the picture (`OverhangExactly`, `OverhangHappens`).
- `_free_rect` calls its answer the largest free rectangle. It is whenever one cut suffices, or no
  side passed over is larger than the answer, and exactly when no other choice of sides would have
  ended on a larger one (`OneCutIsLargest`, `FreeBoxIsLargestExactly`). On a lower_third card with a
  narrow headline of three lines a rectangle a fifth larger is passed over (`FreeBoxCanMislead`).
- `_kept_off` says the words never meet the subject, so only the feather can be cut. Words that each
  miss it can have a cluster box that meets it, unless they all stand on one side of it
  (`CoversOnOneSideExactly`): on that same card the product, standing where `place` puts it beside
  the headline, takes the plate from the end of the subhead (`NotchedWordsLoseTheirPlate`).
- An inspector outage inside the final check's purchase does not carry the looks already paid for,
  though the refusal is meant to (`OutageFigureExactly`, `OutageForgetsTheLook`). The text "the
  final check" of a refusal without a reason can never be sent: a refusal always names a fault or
  a reason (`FinalCheckPromises`).

Two more are true of the functions as they stand, and met by no layout that is shipped:

- A group's plate takes its colour from the group's first word, and a short word of the other tone
  is never helped by it (`PlateHelpsExactly`, `MixedGroupIsNotRescued`, `MixedGroupIsRefused`). But a
  block never mixes inks that stand apart (`BlocksAreOneInk`): every layout sets its words in one
  ink, except top_band, whose brand line stands at the foot, more than a block's reach of seven
  hundredths of the width below the band. On the full-bleed layouts the ink chosen for photographs
  can be served over every ground, so a frame is refused over its pill, its mark or a word in a block
  that the product notches, as on the card above, and over nothing else
  (`FullBleedWordsAreRescued`).
- `_make_legible` would report a card under an opaque logo that it never laid, were the pill's ground
  not its own flat colour (`ReportIsTrueExactly`, `CardReportedNotLaid`). The stylesheet always
  gives it one, and then the report is true of every frame (`ReportIsTrue`).

## Model

| member | source | states |
|---|---|---|
| Credits.StepKeeps | app/billing/credits.py:50-134 | every transaction keeps each balance equal to its grant plus the sum of its deltas and not negative, every balance_after a running total, every key unique; it rewrites no row |
| Credits.RunKeeps | app/billing/credits.py:50-134 | the same over any run of transactions, with grants fixed at first contact |
| Credits.LedgerTruth | app/billing/credits.py:1-134 | in every state reached from an empty database a balance is the trial credits plus the sum of the account's rows, and never negative |
| Credits.KeyBlocks | app/billing/credits.py:67-71 | a charge or refund under any key already in the books moves nothing and answers with the recorded figures |
| Credits.ChargeExactly | app/billing/credits.py:23-100 | a charge under a new key: free for copy changes, publishing and the owner's photographs, a credit a unit otherwise; it goes through if and only if it is free or the balance pays for it, to the last credit, and then takes that much from this account alone; short of that nothing moves |
| Credits.RefundExactly | app/billing/credits.py:103-134 | a refund under a new key adds what it says, in one row, unless that would take the balance below nothing |
| Credits.ChargeReplay | app/billing/credits.py:50-100 | after anything else has happened, repeating a charge's key changes neither balance nor ledger, answers deduplicated, and refunding under it moves nothing either |
| Credits.RefundReplay | app/billing/credits.py:103-126 | a refund is paid at most once per key, whatever happens in between |
| Credits.CreditLedger.OpenAccount | app/db/repo.py:24-63 | first contact grants the trial credits on the column with no ledger row; a known account is left alone |
| Credits.CreditLedger.FindRow | app/billing/credits.py:67-69 | finds the row under a key exactly when there is one |
| Credits.CreditLedger.ChargeAccount | app/billing/credits.py:50-100 | the charge, in place, is the specified transaction: free actions, replayed keys and short balances move nothing |
| Credits.CreditLedger.RefundAccount | app/billing/credits.py:103-126 | the refund, in place, is the specified transaction |
| Lifecycle.StepKeepsInv | app/creative/pipeline.py:729-940 | every step of every job, the reaper and the clock keeps: a job's net debit is what its unsettled and shipped billed slides are worth, and every key names what it paid for |
| Lifecycle.RunKeepsInv | app/creative/pipeline.py:729-940 | the invariant over every interleaving |
| Lifecycle.Settlement | app/creative/pipeline.py:729-940 | in every reachable state a job's net debit is its billed slides that are ready or in flight, plus what a crash stranded; refunds never exceed the charge |
| Lifecycle.ExactSettlement | app/creative/pipeline.py:3232-3251 | once settled, the owner has paid exactly for the billed slides that shipped if and only if the worker returned or had marked no billed slide when it died |
| Lifecycle.CrashDuringGeneration | app/creative/pipeline.py:1510-1542 | a worker lost before its post-gather bookkeeping costs nothing but what shipped, once its rows are settled |
| Lifecycle.ReapingGetsThere | app/creative/pipeline.py:1519-1542 | one reaping leaves exactly the stuck rows it did not take: none when it took fewer than 200, 200 fewer when it took as many |
| Lifecycle.CrashIsMadeGood | app/creative/pipeline.py:1503-1542 | so past the threshold, and after as many reapings as the stuck rows need, the job of a worker lost while working is settled and has cost what shipped |
| Lifecycle.TheReaperCanRun | app/creative/pipeline.py:1519-1542 | in every state the reaper can come round as often as that, taking all the stuck rows or 200 of them each time |
| Lifecycle.CrashBeforeRefundStrands | app/creative/pipeline.py:884-900 | a concrete run: marked, then killed before the refund, the credit is gone and nothing is in flight |
| Lifecycle.StuckIsOrphan | app/creative/pipeline.py:1503-1507 | what the reaper's query returns belongs to dead workers only, given that no living worker outlasts the threshold |
| Lifecycle.StepKeepsApart | app/creative/pipeline.py:375-391 | every step keeps a brand's generating jobs more than STUCK_AFTER apart in age |
| Lifecycle.OneYoungJob | app/db/repo.py:335-357 | in every run a brand has at most one job no older than STUCK_AFTER with a generating row |
| Lifecycle.GenerateExactly | app/creative/pipeline.py:729-817 | for every state, payer and brand: nothing happens if and only if a slide of that same brand, born no longer than STUCK_AFTER ago, is generating or composing, or the payer is unknown; otherwise exactly one job is added, its slides generating and one credit taken for each billed one when the balance pays for them, all failed for want of credits and the books untouched when not |
| Lifecycle.SettleExactly | app/creative/pipeline.py:884-925 | in every state of a run a worker that is done hands back one credit for each billed slide that raised, in one row that says whether any slide was left to ship |
| Lifecycle.ReapExactly | app/creative/pipeline.py:1519-1542 | in every state of a run one reaping fails exactly the slides it takes, changes nothing else of any job, and gives every account a credit for each billed slide of its own among them |
| Lifecycle.Database.StuckRows | app/creative/pipeline.py:1519-1527 | the query returns stuck rows only, each once, at most 200, and all of them when there are fewer |
| Lifecycle.Database.ReapStuckCreatives | app/creative/pipeline.py:1510-1542 | the reaper, in place, is the specified transaction over the rows it found |
| VendorQueue.StepKeeps | app/creative/pipeline.py:2120-2138 | one ask, one hand-over of a lane or one tick keeps the FIFO bound on when a call may start |
| VendorQueue.QueueBound | app/creative/pipeline.py:1548-1555 | n slides, m FIFO lanes, calls of at most T seconds: a slide that has asked for at most k calls was last seen waiting, calling or done within T k ceil(n/m) plus its own idle time, whatever the lengths and the order; after that it neither waits nor calls |
| VendorQueue.QueueBoundIsReached | app/creative/pipeline.py:1548-1555 | and no smaller bound would do: for every n, m, T and k there is a run in which a slide that never idles is still with the vendor, on its k-th call, at exactly T k ceil(n/m) |
| Quote.WindowCoversTheQueue | app/creative/pipeline.py:110-126 | whatever the interleaving of gates that really make the calls they make, once the quoted worst case is over, compositing and the slide's idle time apart, no slide waits for the vendor or calls it |
| Quote.WindowIsReached | app/creative/pipeline.py:110-126 | and neither quoted figure can be shortened: there are runs in which a slide that never idles is with the vendor to the very end of the best case, on its first call, and of the worst, on the last call its gate makes when every picture is refused |
| Quote.CleanFirstPictureInTheLowFigure | app/creative/pipeline.py:110-126 | a slide that asks the vendor once is last seen waiting or calling inside the quoted best case, compositing and its idle time apart, whatever the other slides go on to do |
| Quote.WindowInWaves | app/creative/pipeline.py:110-126 | neither figure is longer than it says: the fewest waves that seat every slide, each of one call or of every call the gate is allowed, and the compositing |
| Gate.Register.RegisterOrReroll | app/creative/pipeline.py:2508-2533 | under the lock, a picture within the distance of an earlier slide's is a duplicate and is not recorded, unless forced; any other is recorded |
| Gate.GenerateChecked | app/creative/pipeline.py:2103-2207 | the gate's loop, with its costs, rejections and forecast, is the specified run, and leaves the register as specified |
| Gate.GateExactly | app/creative/pipeline.py:2116-2207 | for every slot and vendor, read off the vendor's answers: a picture is accepted only of the right size, repeating no earlier slide unless it is the last chance, and -- where pictures are inspected -- on a verdict without an objection; the gate ends without an answer exactly where such a picture's inspector gave none; every earlier call was refused for its own picture's fault with a turn and the money for the next, and the gate gives up only with neither; the figure is every picture and every look |
| Gate.RegisterExactly | app/creative/pipeline.py:2148-2151 | however the gate ends, the register holds what the others had put there by the last picture, and that picture's hash unless it is of the wrong size or a repeat |
| Gate.GateWithinPaidAttempts | app/creative/pipeline.py:93-107 | at any real price of at least the one it is worked out from, paid_attempts bounds the gate's calls, whatever list price, inspector, slides and settings do |
| Gate.PaidAttemptsExact | app/creative/pipeline.py:93-107 | and it is exactly that many at the real price when every picture is refused and looks are free (a price of nothing leaves the list price in force) |
| Gate.GateAndRetrySpend | app/creative/pipeline.py:2670-2718 | at a list price no lower than the real one, gate and corrected retry together cost at most the larger of one picture and the cap, plus one look |
| Gate.RetriesKeepTheCapExactly | app/config.py:163-168 | gate and `times` corrected retries stay within the cap, for all vendors at a constant price with free looks, if and only if times is at most 1, the cap pays for fewer than two pictures, or it pays for every attempt of the gate and of every retry |
| Gate.SecondRetryBreaksTheCap | app/creative/pipeline.py:2683-2693 | for every slide and price: where the cap pays for two pictures, the gate's one and two retries of one each come to three |
| Gate.RetryKeepsTheCapExactly | app/creative/pipeline.py:2683-2693 | with a list price that need not be the real one, a constant real price and looks of up to a fee: gate and retry stay within the cap (or one picture) and one look for all vendors if and only if no number of calls within the attempts can leave at least the list price and less than the real one |
| Gate.RetryKeepsTheCapWithFreeLooks | app/creative/pipeline.py:2683-2693 | with free looks: if and only if the cap pays for no picture, or for more than the attempts, or leaves over less than the list price |
| Gate.OverrunIsUnderOnePicture | app/creative/imagegen/providers.py:208-224 | with any provider but the mock, whatever its price setting, however stale its list price and whatever each reply charges: gate and retry pass the cap by less than the dearest picture and the dearest look |
| Gate.DefaultsKeepTheCapExactly | app/config.py:138-144 | at six attempts, 900 000 micro-dollars and OpenAI's list price, for every constant real price and every price of a look: the cap and one look are kept by all vendors if and only if the price is in neither of two bands, given in numbers for the estimated look |
| Gate.CallsFitTheCap | app/creative/pipeline.py:2683-2718 | gate and retry together make at most the larger of the gate's own calls and budget // price |
| Gate.RetryWithinPromise | app/creative/pipeline.py:93-107 | paid_attempts covers the retry too when the cap pays for no more pictures than the count, at any real price of at least the list price |
| Gate.RetryBreaksPromise | app/creative/pipeline.py:93-107 | otherwise -- no cap, no list price, or a cap that pays for more -- the gate and its retry can make exactly one call more |
| Gate.PromiseCoversTheRetryExactly | app/creative/pipeline.py:93-107 | so it covers gate and retry of every vendor if and only if there is a cap, a list price, and the cap pays for no more pictures than the count |
| Gate.QuoteCoversThePriceExactly | app/creative/pipeline.py:93-107 | the calls quoted from the list price cover every vendor of a real price if and only if that price buys no more of them, or is nothing while one picture at the list price exceeds the cap |
| Gate.DuplicateAlwaysRerolled | app/creative/pipeline.py:2118-2122 | while prices never rise above the list price or the one before, a duplicate is never the rejection that exhausts a slide |
| Gate.DuplicateFailsExactly | app/creative/pipeline.py:2116-2138 | at a constant real price some vendor, with only slides numbered from 1 on the register, has a slide fail on a duplicate if and only if there is an earlier slide, a cap, a second attempt, and the cap pays for two pictures at the list price but not at the real one |
| Gate.StalePriceDefeatsTheForecast | app/creative/imagegen/providers.py:208-216 | an instance at the shipped settings: OpenAI listed at 288 300 and really 460 000; with the list price corrected the picture is accepted |
| Gate.TwinsOnTheRegister | app/creative/pipeline.py:2508-2533 | over every order of arrival, two pictures within the distance are both on the register only if the later slide's was forced or the earlier slide's came afterwards |
| Gate.LateEarlierSlideKeepsItsTwin | app/creative/pipeline.py:2526-2532 | the second exception happens |
| Dedupe.DHash | app/creative/dedupe.py:49-61 | the loop computes the hash: 64 comparisons shifted in row by row |
| Dedupe.DistanceCountsCells | app/creative/dedupe.py:49-65 | the distance of two hashes is the number of grid cells at which one picture brightens to the next pixel on the right and the other does not, stated on the pixels |
| Dedupe.DistanceIsMetric | app/creative/dedupe.py:64-65 | zero exactly on equals, symmetric, triangle inequality |
| Dedupe.FirstMatch | app/creative/dedupe.py:80-84 | the inner loop finds a match exactly when some earlier slide is close, and the first one |
| Dedupe.FindDuplicates | app/creative/dedupe.py:68-85 | each offending slide once, in order, against its smallest matching earlier position, and no offender missed |
| Dedupe.LeastDistance | app/creative/dedupe.py:97-104 | the smallest distance over all pairs, and a pair that has it |
| Dedupe.Report | app/creative/dedupe.py:88-106 | every duplicate, in order, and the least distance, which some pair has; duplicates are reported exactly when it is within the threshold |
| FinalCheck.OrderForIsTheOthers | app/creative/compositeqa.py:432-455 | every other layout once, this one never |
| FinalCheck.TheFaultNamesTheCure | app/creative/compositeqa.py:432-455 | covered words lead to the layouts that set none on the picture, a cut subject to those that show all of it, anything else to the other family; each family in the order of its table |
| FinalCheck.LadderGivesTheBest | app/creative/compositeqa.py:477-546 | the free ladder is climbed if and only if the card has a fault or a repair worth it, in the order its own faults and repairs ask for, builds at most the limit, each in a layout of its own, stops at the first clean card that betters it, and gives back the first of the best: clean if any is, and none as clean scores more |
| FinalCheck.LadderMustChange | app/creative/compositeqa.py:477-546 | when it must change it keeps its input only if no layout could take the slide, and otherwise gives back the first of the best it built |
| FinalCheck.RoundExactly | app/creative/pipeline.py:2414-2445 | one picture's turn in terms of Chromium's and the inspector's answers alone: a second ladder is climbed if and only if some objection is neither stray text nor artefacts; on it no layout with words on the picture is tried before every one without, where the words cover the subject or are hard to read, and the other way round where only the subject is cut; its card takes over exactly when it is clean and passes, or less is said of it |
| FinalCheck.Brief.SetTemplate | app/creative/pipeline.py:1644-1659 | afterwards the compositor reads this layout from slide and brief alike; the rest of a carousel is untouched |
| FinalCheck.Bench.Render | app/creative/pipeline.py:2354-2392 | one more rung of the current picture; the slide is left in the layout it was in, whatever happens |
| FinalCheck.Bench.BestFreeVariant | app/creative/compositeqa.py:477-546 | the loop is the specified climb and restores the layout |
| FinalCheck.Bench.Inspected | app/creative/pipeline.py:2394-2409 | one look, on the tally; none when the provider is the mock |
| FinalCheck.Bench.PlayRound | app/creative/pipeline.py:2414-2445 | one picture's ladder, look, steered ladder and second look, as specified, with the spend equal to the log's |
| FinalCheck.Bench.BuyAnother | app/creative/pipeline.py:2467-2486 | the purchase and the recompose in the starting layout, with every way they end |
| FinalCheck.Bench.Turn | app/creative/pipeline.py:2414-2486 | one picture of the check: how it ends, or the next card to judge, in the starting layout |
| FinalCheck.Bench.Check | app/creative/pipeline.py:2271-2505 | the whole check: a delivered slide is left in its card's layout, any other in the one it started in, and the rest of a carousel as it was |
| FinalCheck.EveryRunIsFair | app/creative/pipeline.py:2414-2505 | the budgets, bills and verdicts of every run, from any point of it |
| FinalCheck.FinalCheckPromises | app/creative/pipeline.py:2271-2505 | delivered only without a measured fault, on a passing verdict of that very card where cards are looked at, with its score, on the last picture bought; no good card is refused or bought over, and what a refusal or a purchase names is one card's faults and what was said of that very card; the bill is all looks and purchases; at most 2 limit variants and 2 looks per picture |
| FinalCheck.OutageFigureExactly | app/creative/pipeline.py:2401-2407 | an outage carries the whole bill exactly when it was the final inspector's or nothing had been spent before the purchase |
| FinalCheck.OutageForgetsTheLook | app/creative/pipeline.py:2470-2474 | the exception happens, whatever the look cost and whatever the purchase had spent |
| FocusCrop.MarginClampsDoNothing | app/creative/compose.py:1238-1246 | the two margin clamps never change the centred answer |
| FocusCrop.CropKeepsFocus | app/creative/compose.py:1225-1248 | the real crop stays in the picture and holds the focus to a quarter pixel; rounded, to three quarters of a pixel on the far side |
| FocusCrop.CornerExactly | app/creative/compose.py:1225-1248 | without a subject the crop is inside the picture and centred to a pixel; with one there is no crop if and only if the subject is more than half a pixel longer than it |
| FocusCrop.OverhangExactly | app/creative/compose.py:1225-1248 | the pixels cut stay inside the picture if and only if the crop does not start half-way at the far edge with both ends rounding outward |
| FocusCrop.OverhangHappens | app/creative/compose.py:1370-1389 | a concrete photograph on a story window |
| FocusCrop.QaSeesTheSameCrop | app/creative/compose.py:1419-1455 | picture_fit reports the mode and the crop of every fit_background that does not refuse |
| FocusCrop.FittedExactly | app/creative/compose.py:1419-1455 | a picture is shown whole if and only if it is its window or covering it loses at most a pixel either way, letterboxed if and only if its subject fits no crop, and scaled to cover its window, or to fit it when letterboxed |
| FocusCrop.RefusedExactly | app/creative/compose.py:1336-1376 | when a picture is refused: an owner's photograph exactly when enlarged past the cap, a generated one when enlarged at all or losing more than the tolerance, a kept one when enlarged or losing more than its share |
| FocusCrop.LandsWhereShown | app/creative/compositeqa.py:131-147 | every source pixel lands where the fit puts it: scaled alike both ways, the corner of what is shown on the window's corner, a letterboxed picture in the middle |
| FocusCrop.CutExactly | app/creative/compositeqa.py:131-147 | the share cut off is the area outside the window: none if and only if the subject is wholly inside, all if and only if wholly outside |
| FocusCrop.FocusedCropKeepsTheSubject | app/creative/compositeqa.py:131-147 | a photograph cropped around a subject of any size loses at most three quarters of a pixel of each of its sides: the share cut off is at most 1 - (1 - 0.75/w)(1 - 0.75/h) |
| FocusCrop.FocusedCropIsNeverACut | app/creative/compositeqa.py:131-147 | so a subject of 19 pixels a side or more is never charged with being cut, rounding included |
| FocusCrop.LetterboxCutsNothing | app/creative/compose.py:1440-1449 | a letterboxed subject is not cut at all |
| Placement.Keep | app/creative/pipeline.py:1939-1949 | the keep-outs, in the order of the table |
| Placement.CutAround | app/creative/pipeline.py:1950-1969 | the greedy loop is the specified one |
| Placement.FreeRect | app/creative/pipeline.py:1925-1973 | the rectangle in window pixels, rounded |
| Placement.FreeBoxIsFree | app/creative/pipeline.py:1925-1973 | within one round per keep-out the rectangle is inside the region and, in coordinates, clear of every word and the pill by the margin on every side, and of the mark by the margin and a quarter of its height |
| Placement.KeepOutsExactly | app/creative/pipeline.py:1937-1946 | what is kept out, in coordinates: the grown box of every element on the card, nothing else and nothing larger |
| Placement.CutIsLargest | app/creative/pipeline.py:1962-1968 | nothing inside the rectangle that misses one keep-out is larger than the cut |
| Placement.CutIsFirstOfTheLargest | app/creative/pipeline.py:1962-1968 | the cut keeps the first, of above, below, left and right, that is no smaller than any other |
| Placement.OneCutIsLargest | app/creative/pipeline.py:1928-1931 | for every list of keep-outs: when the first cut leaves nothing hit, nothing free is larger than the answer |
| Placement.FreeBoxIsLargestExactly | app/creative/pipeline.py:1928-1931 | for every measured layout: the answer is the largest free rectangle if and only if no other choice of sides ends on a larger one; it is when one cut suffices or no side passed over is larger; where the sides passed over are free that guard is exact |
| Placement.FreeBoxCanMislead | app/creative/pipeline.py:1928-1931 | a lower_third card at 1080 by 1350 on which a free rectangle a fifth larger was passed over |
| Placement.PlacedSizeFits | app/creative/product.py:393-405 | the placed size fits the zone both ways and is never enlarged past the cap |
| Placement.PlacedAsLargeAsFits | app/creative/product.py:393-405 | and no enlargement within the cap that fits the zone both ways is larger than the one chosen |
| Placement.PlaceStandsWhereAsked | app/creative/product.py:417-442 | the product stands on the floor of its rectangle, its centre within half a pixel of the anchor's point unless the zone's side holds it back |
| Placement.PlaceKeepsItsShape | app/creative/product.py:393-442 | in whole pixels it is the cut-out's shape, as large as both sides of the zone and the cap on enlargement let it be |
| Placement.PlaceInsideExactly | app/creative/product.py:417-442 | the product stands inside its rectangle, margins kept, if and only if the rectangle exceeds two margins both ways |
| Placement.ProductIsClear | app/creative/pipeline.py:1925-1973 | placed on the canvas, in whole pixels, the product is inside window and safe zone, on no word, not on the pill, and a quarter of the mark's height off the mark on every side |
| Plates.Clusters | app/creative/compose.py:1627-1642 | the loop that appends each word to the first group it joins |
| Plates.ClustersPartition | app/creative/compose.py:1627-1642 | every word in exactly one group, each read down the page with every word joined to the block above it |
| Plates.EachJoinsTheFirst | app/creative/compose.py:1627-1642 | down the page, each word joins the first block it is near -- within the gap of some word's foot and between the block's sides -- and starts one if and only if it is near none |
| Plates.ByTopKeepsTies | app/creative/compose.py:1630-1630 | words are taken down the page, those equally high in the order they were measured |
| Plates.UnionExactly | app/creative/compose.py:1617-1624 | the box around a group has every word in it, and a word at each side |
| Plates.KeptOffKeepsItsWords | app/creative/compose.py:1811-1827 | the pulled plate is inside what it was, clear of the product, and covers the words' box if and only if that box missed the product |
| Plates.KeptOffPullsLeast | app/creative/compose.py:1811-1827 | it is pulled on the side that costs least, and only to the product's edge |
| Plates.PlateCoversExactly | app/creative/compose.py:1715-1730 | a group's plate lies under every one of its words if and only if the box around the group is clear of the product |
| Plates.CoversOnOneSideExactly | app/creative/compose.py:1811-1827 | read off the words: it lies under all of them if and only if some one side of the product has them all |
| Plates.NotchedWordsLoseTheirPlate | app/creative/compose.py:1811-1814 | on that lower_third card the product stands where the free rectangle and place put it: it misses both words, meets the box around them, and the pulled plate stops 75 pixels short of the subhead's end |
| Plates.ClustersAreOneInk | app/creative/compose.py:1627-1642 | words of different inks that stand further apart than a block reaches are never in one block |
| Legibility.RatioReaches | app/creative/legibility.py:287-290 | contrast is symmetric, at least 1, and reaches k where one side is k times the other |
| Legibility.ReadsAtLeastExactly | app/creative/legibility.py:287-290 | contrast is k or better if and only if one side, lifted by 0.05, is k times the other |
| Legibility.WorseOfTheEnds | app/creative/legibility.py:360-374 | what is read on a ground reaches k if and only if it does at both ends |
| Legibility.TranslucentReadsNoBetter | app/creative/legibility.py:360-374 | translucent ink is seen, encoded, at its opacity's share of the way from its ground to its colour, and never reads better than the colour would |
| Legibility.PlateReachesTarget | app/creative/legibility.py:377-397 | under the cap, a plate of the strength asked for, laid instead of the one measured under, takes opaque ink to 1.08 times the target at both ends |
| Legibility.RoundedPlateReachesTarget | app/creative/legibility.py:377-397 | rounded to three decimals it still takes it to 1.05 times the target |
| Legibility.PlateIsLeast | app/creative/legibility.py:386-397 | every weaker plate leaves that end reading short of 1.08 times the target |
| Legibility.CappedExactly | app/creative/legibility.py:386-397 | an answer over the cap is the cap; at once if and only if light ink reads no better than the aim on black itself |
| Legibility.PlateAlphaInRange | app/creative/legibility.py:377-397 | the answer is always an opacity up to the cap |
| LegibleFrame.FindShort | app/creative/compose.py:1733-1764 | which elements fall short, whether only the pill does, and whether it is by rounding only |
| LegibleFrame.Strengthen | app/creative/compose.py:1780-1791 | each group's strength becomes the strongest answer its short words need |
| LegibleFrame.MakeLegible | app/creative/compose.py:1714-1808 | the loop is the specified one |
| LegibleFrame.NextRoundRises | app/creative/compose.py:1780-1791 | from round to round no plate weakens, none passes the cap, every short word gets what it asked for and no group more than one of them asked |
| LegibleFrame.LegibleOrRefused | app/creative/compose.py:1714-1808 | at most four measurements; delivered only with every element at its bar within the slack; refused only over one short by more |
| LegibleFrame.EndsExactly | app/creative/compose.py:1731-1808 | from the readings alone: the loop ends at the first measurement with nothing left for a plate to do, or the fourth, and the frame is delivered if and only if every word is then at 4.5:1 and a cut-out mark at 3:1 within the slack |
| LegibleFrame.QaFindsShortExactly | app/creative/compositeqa.py:239-254 | what the final check finds short in any frame, in exact ratios: a word at 4.465 or less, a cut-out mark at 2.965 or less |
| LegibleFrame.MarkIsPlatedExactly | app/creative/compose.py:1753-1796 | a delivered frame carries exactly the plate its mark's readings called for: none without a logo; the edge's card from the second measurement on under an opaque one; under a cut-out one nothing while it reads well, 0.94 of the better tone once it was short once, and all of it once short again |
| LegibleFrame.QaAgrees | app/creative/compositeqa.py:239-254 | whatever the compositor delivers, the final check finds nothing short in its rounded report |
| LegibleFrame.ReportIsTrueExactly | app/creative/compose.py:1775-1806 | of the function alone: the reported plates are the ones the frame was measured under, except exactly when an opaque logo meets a pill alone short within the slack at the first look |
| LegibleFrame.ReportIsTrue | app/creative/legibility.py:407-410 | on every page whose pill has a flat ground of its own, as the stylesheet's always has, whatever is delivered lay on the frame as reported |
| LegibleFrame.CardReportedNotLaid | app/creative/compose.py:1755-1757 | of the function alone: with a pill over a picture the exception happens |
| PlatedFrame.AnswerIsAbsolute | app/creative/legibility.py:377-397 | the strength asked for does not depend on the plate the ground was measured under: it is the bare ground's, or the one there is if stronger |
| PlatedFrame.PlateHelpsExactly | app/creative/compose.py:1718-1731 | with contrast_on's readings and plate_alpha's answers in the loop: a short word that a plate of its own colour could serve is legible at the next measurement if and only if it has the tone of its group's first word |
| PlatedFrame.OneRoundIsEnough | app/creative/compose.py:1780-1791 | over any photograph, words of a one-toned group that can be served are short at no measurement after the first, short before or not |
| PlatedFrame.RefusedOnlyForPillOrMark | app/creative/compose.py:1714-1808 | where every group is such, a refusal is over the pill or the mark alone |
| PlatedFrame.MixedGroupIsNotRescued | app/creative/compose.py:1718-1731 | of the function alone: a word of the other tone that is short at first is short in every round, and the frame runs through all of them |
| PlatedFrame.MixedGroupIsRefused | app/creative/compose.py:1718-1731 | such a page exists: black and white type in one group over mid-grey, refused after the last round |
| PlatedFrame.EveryLayoutHasItsPage | app/creative/compose.py:1731-1750 | for all words, inks, grounds and groups there is a page whose readings and answers are those of the loop's own plates |
| PlatedFrame.LoopLaysThese | app/creative/compose.py:1780-1791 | and the plates that page is measured under are the ones the loop lays |
| Layouts.ServableOverAnything | app/creative/legibility.py:377-397 | light ink can be served over every ground if and only if its limit, encoded, is at least what the strongest plate leaves of white |
| Layouts.InkPhotoIsServable | app/creative/compose.py:518-521 | the ink chosen for photographs always can |
| Layouts.InkPhotoExactly | app/creative/compose.py:518-521 | on photographs the brand's own ink is kept if and only if its luminance is 0.3 or more -- it reads 7:1 on black -- and white is taken otherwise |
| Layouts.BlocksAreOneInk | app/creative/compose.py:1681-1682 | where words of different inks stand apart, the blocks the loop plates are each of one ink |
| Layouts.FullBleedWordsAreRescued | app/creative/compose.py:1714-1808 | on a full-bleed layout, whatever the photograph, the brand's ink, the words and the product among them: after the first round of plates no word is short but in a block with the product on no one side of it, and a refusal is over such a word, the pill or the mark |
| Layouts.FullBleedHasItsPage | app/creative/compose.py:1681-1750 | and every such layout and photograph, product or none, has a page that measures it |
| Layouts.BentIsCurve | app/creative/legibility.py:293-301 | a curve with all that is asked of sRGB's here: two straight pieces |
| Ground.WindowsAreMeans | app/creative/legibility.py:316-332 | every position a window can take on the edge-padded plane has its entry and no other, and the entry of the integral-image sweep is that window's mean |
| Ground.Extremes | app/creative/legibility.py:356-356 | the largest and the smallest of a window's means |
| Ground.Sweep | app/creative/legibility.py:349-357 | the loops end on the largest and smallest mean over all readings of all lines |
| Ground.GroundOf | app/creative/legibility.py:342-357 | ground: the extremes over every cell, strip and column of every line |
| Ground.FeatureIsSeen | app/creative/legibility.py:342-357 | a feature that fills a window, wherever it falls, moves the ground's end to its own luminance |
| Ground.EndsAreReadings | app/creative/legibility.py:342-357 | on real luminances both ends are means of some window, in order, between 0 and 1 |
| Ground.ReadingsAreInAll | app/creative/legibility.py:335-355 | type of any size reads each line in cells of 0.3 em and in strips of 0.15 em along and down the whole of it, none under three pixels |
| Ground.GroundSeesIt | app/creative/legibility.py:335-357 | so a feature of any of those shapes, of any size of type and anywhere in a line, moves the ground's end to its own luminance |
| EditDistance.Wer | scripts/stt_bakeoff.py:83-96 | the table's last cell is the distance, over the reference's length; an empty reference scores 0 |
| EditDistance.DistIsLeastScript | scripts/stt_bakeoff.py:83-96 | the distance is the least number of single-word edits over all scripts: one of that length exists, none is shorter |
| EditDistance.DistIsMetric | scripts/stt_bakeoff.py:83-96 | zero exactly on equals, symmetric, triangle inequality, at most the longer length |
| BoxWalk.TkhdReads | app/creative/reel.py:338-347 | a written track header of either version, wherever its fields end, reads back as its 16.16 size |
| BoxWalk.WalkTrak | app/creative/reel.py:329-348 | the walk through a trak reads the specified boxes, and ends on every byte string |
| BoxWalk.MvhdReads | app/creative/reel.py:316-323 | a written movie header of either version reads back as its duration and timescale |
| BoxWalk.NearestMillisecond | app/creative/reel.py:316-323 | the duration read is within half a millisecond of duration over timescale |
| BoxWalk.WalkMoov | app/creative/reel.py:308-326 | the walk through a moov, likewise |
| BoxWalk.LongReads | app/creative/reel.py:290-294 | a box with a 64-bit size, wherever it stands, reads back as its type and body |
| BoxWalk.EightReads | app/creative/reel.py:286-297 | and so does one with a 32-bit size, or one that runs to the end of the file |
| BoxWalk.Probe | app/creative/reel.py:281-305 | the outer walk, likewise |
| BoxWalk.ProbeReadsBack | app/creative/reel.py:281-348 | any list of well-formed boxes, written in any of the three forms, reads back as its types in order, what its movie boxes say, and its faststart |
| BoxWalk.FaststartMeans | app/creative/reel.py:303-304 | faststart exactly when there is an mdat and some moov before every mdat |
| BoxWalk.EveryFileReadsBack | app/creative/reel.py:281-348 | for every well-formed file: the size is that of the first track header in it with both sides at least one pixel, and none exactly when no header has; the duration that of the last movie header with a timescale, and none exactly when none has one |
| BoxWalk.OneMovieReadsBack | app/creative/reel.py:281-348 | the usual file gives back its movie header's duration and the size of its first sized track header, stated on the headers written |
| Lineage.UpIsAChain | app/db/repo.py:237-252 | on any store, cycles included, the walk is parent-linked, repeats nothing and stops only at a root, a missing parent or a brief already seen |
| Lineage.OnlySaves | app/db/repo.py:208-234 | a store grown by save_brief alone has every version one above its parent's, with its root |
| Lineage.LineageAgreesWithTheRow | app/db/repo.py:237-260 | there, a lineage is a linked chain of length `version` from `root_brief_id` to the brief, all of one root |
| Lineage.SavingExtends | app/db/repo.py:208-252 | saving extends the parent's lineage by one and disturbs no other |
| Lineage.SavedExactly | app/db/repo.py:208-234 | saving adds one draft, marks its parent superseded and touches no other row |
| Lineage.SupersededExactlyIfRevised | app/db/repo.py:218-219 | where briefs are only saved, a brief is superseded if and only if it is some brief's parent, and a draft otherwise |
| Lineage.BriefTable.SaveBrief | app/db/repo.py:208-234 | the new row, and the parent marked superseded, in place |
| Lineage.BriefTable.Climb | app/db/repo.py:244-250 | the loop from the brief upwards, which ends on every store |
| Lineage.BriefTable.Lineage | app/db/repo.py:237-252 | root first, ending at the brief |
| Lineage.BriefTable.RevisionNo | app/db/repo.py:255-260 | one less than the lineage is long, never below 0 |

## Left out

- Chromium, the DOM measurements, Jinja and Pillow: boxes, planes, sizes and fit results are inputs.
- The vendor, the inspector, R2, the chat and the database engine: replaced by arbitrary outcomes with a cost, or by atomic steps. `FOR UPDATE` is the serialisation of those steps; savepoints and the unique-index race of two first contacts are not modelled.
- Floating point: arithmetic is over reals, with `round` and `int` written out where pixels are made. `OverhangHappens` gives a picture on which the reals and the halves are exact.
- Idempotency keys are values; that two jobs' uuids differ is taken for granted.
- Lifecycle.StuckIsOrphan: rests on the assumption STUCK_AFTER is sized for, that no living worker outlasts it (`Punctual`, a condition on the clock's steps); without it the reaper refunds live jobs.
- Lifecycle.Settlement: `generate` is modelled as the steps of a protocol on values, not as an object's method, because its slides, other jobs and the reaper interleave between them; deliveries, notices and history events are left out.
- Gate.GenerateChecked: prompts, seeds, image sizes and the request the vendor cannot make at all are left out; a size fault is a given of the attempt. The cap is a natural number of micro-dollars.
- Gate.GateAndRetrySpend: an exception from the vendor itself carries no figure, so what was spent before it is not in the result.
- Quote.WindowCoversTheQueue: time a slide spends between calls (inspecting, hashing) is added, not bounded; nothing in the settings bounds it.
- Dedupe.Report: `slides` and `mean_distance` are left out; the 9 by 8 thumbnail is the input.
- FinalCheck.Bench.Check: the card is an identity with its measurements; the object's log of what happened stands for the tracing. The slides other than the one in hand are one list field of the brief, so a slide listed twice is not modelled.
- Placement.ProductIsClear: canvases under 17 pixels wide are excluded, where half a pixel of rounding exceeds the margin; the contact shadow is left out.
- Legibility.PlateReachesTarget: each end of the ground is one grey under the plate, and the ink is fully opaque; the blur at a plate's edge is what the 1.08 is for.
- Layouts.FullBleedWordsAreRescued: asks of the curve that it lift a luminance of 0.022 to 0.12, which sRGB's does with room to spare; of a word its plate does not wholly lie under nothing is said. The foot of top_band and the `solid` grounds of the panels are outside it.
- Legibility.RoundedPlateReachesTarget: asks of the curve that no step be steeper than 2.3, which sRGB's is not.
- LegibleFrame.MakeLegible: the readings and the strengths asked for are adversarial numbers, tied to `contrast_on` and `plate_alpha` in `PlatedFrame` only; which of white and dark separates the mark better is a given of the page; the gradient's boost is left out.
- PlatedFrame.PlateHelpsExactly: ink is opaque and outside the band of luminance from 0.175 to 0.1834 in which it could read on either side of a ground; each ground's two ends are one grey each; words on a panel, which get the measurement slack, are left out.
- Gate.RetriesKeepTheCapExactly: looks are free and every picture costs the list price; what looks and another price add to one retry is in `RetryKeepsTheCapExactly`.
- Ground.WindowsAreMeans: a line's box that falls wholly outside the frame has no pixel and is not modelled.
- EditDistance.Wer: the normalisation and splitting of the texts into words is left out.
- BoxWalk.Probe: durations are in whole milliseconds, the rounding of a real quotient; a truncated header is an error result.
- Scores, the text-over-subject share and the other measurements of `assess`, reference styles, onboarding, copy rules and claims: easy counting, tables or text.
