/** The gate around the vendor: generate, inspect, regenerate until a picture passes or the
    attempts or the budget run out. Money is in micro-dollars. */
module Gate {
  import opened Dedupe
  import opened Numeric
  import opened Options

  // app/creative/pipeline.py `_generate_checked`, `_register_or_reroll`, `paid_attempts` and `buy`.
  // The vendor, the inspector and the other slides are adversaries: a function from the attempt's
  // number to whatever they did.

  // ------------------------------------------------------------------ the duplicate register

  /** Does this picture repeat one an earlier slide has recorded? */
  predicate RepeatsEarlier(hashes: map<int, nat>, position: int, hash: nat) {
    exists p :: p in hashes && p < position && Distance(hash, hashes[p]) <= DUPLICATE_DISTANCE
  }

  /** _register_or_reroll, under the lock: (is it a duplicate, the register afterwards). A
      picture that could not be hashed is nobody's duplicate and is not recorded. */
  function Registered(hashes: map<int, nat>, position: int, hash: Option<nat>, force: bool): (bool, map<int, nat>) {
    match hash
    case None => (false, hashes)
    case Some(h) =>
      if !force && RepeatsEarlier(hashes, position, h) then (true, hashes) else (false, hashes[position := h])
  }

  class Register {
    var hashes: map<int, nat>

    constructor ()
      ensures hashes == map[]
    {
      hashes := map[];
    }

    method RegisterOrReroll(position: int, hash: Option<nat>, force: bool) returns (duplicate: bool)
      modifies this
      ensures (duplicate, hashes) == Registered(old(hashes), position, hash, force)
    {
      if hash.None? {
        return false;
      }
      if !force {
        var rest := hashes.Keys;
        while exists p :: p in rest
          invariant rest <= hashes.Keys
          invariant forall p :: p in hashes && p !in rest && p < position ==>
                      Distance(hash.value, hashes[p]) > DUPLICATE_DISTANCE
          decreases |rest|
        {
          var p :| p in rest;
          if p < position && Distance(hash.value, hashes[p]) <= DUPLICATE_DISTANCE {
            return true;
          }
          rest := rest - {p};
        }
      }
      hashes := hashes[position := hash.value];
      duplicate := false;
    }
  }

  // ------------------------------------------------------------------ one attempt

  /** Why a picture was rejected; the inspector's own reasons travel as codes. */
  datatype Rejection = WrongSize | DuplicateOfEarlierSlide | Objections(codes: seq<nat>)

  datatype Look = Verdict(codes: seq<nat>, cost: nat) | NoAnswer(cost: nat)

  /** One vendor call as it went: the picture's price, whether it is the size asked for, its
      hash, what the other slides had recorded by then, and what the inspector would say. */
  datatype Attempt =
    | Picture(cost: nat, wrongSize: bool, hash: Option<nat>, others: map<int, nat>, look: Look)
    | VendorError

  /** What the vendor, and all that happens around it, answers to call n. */
  type Vendor = nat -> Attempt

  datatype Slot = Slot(attempts: int, budget: nat, inspected: bool, position: int)

  /** What one attempt came to: the rejection (none: accepted), the spend so far, and whether
      the inspector failed to answer. */
  datatype Judged = Judged(rejection: Option<Rejection>, cost: nat, blind: bool)

  /** `VendorDown` is an exception that carries no figure: its `cost` was spent, not recorded. */
  datatype Result =
    | Accepted(cost: nat, rejections: seq<Rejection>)
    | Exhausted(cost: nat, rejections: seq<Rejection>)
    | Blind(cost: nat, rejections: seq<Rejection>)
    | VendorDown(cost: nat, rejections: seq<Rejection>)

  function Attempts(slot: Slot): (n: nat)
    ensures n >= 1
  {
    MaxInt(1, slot.attempts)
  }

  /** The forecast made before call n: is it the last the count or the cap allows? */
  predicate Last(slot: Slot, n: nat, cost: nat, perCall: nat) {
    n == Attempts(slot) || (slot.budget != 0 && cost + 2 * perCall > slot.budget)
  }

  function Judge(slot: Slot, a: Attempt, cost: nat, force: bool): Judged
    requires a.Picture?
  {
    var paid := cost + a.cost;
    if a.wrongSize then Judged(Some(WrongSize), paid, false)
    else if Registered(a.others, slot.position, a.hash, force).0 then Judged(Some(DuplicateOfEarlierSlide), paid, false)
    else if !slot.inspected then Judged(None, paid, false)
    else match a.look
      case Verdict(codes, fee) => Judged(if codes == [] then None else Some(Objections(codes)), paid + fee, false)
      case NoAnswer(fee) => Judged(None, paid + fee, true)
  }

  /** per_call after a call: what it really cost, when the vendor said. */
  function Learned(a: Attempt, perCall: nat): nat
    requires a.Picture?
  {
    if a.cost > 0 then a.cost else perCall
  }

  /** After a rejection: is there no money for another call? */
  predicate CapReached(slot: Slot, cost: nat, perCall: nat) {
    slot.budget != 0 && cost + perCall > slot.budget
  }

  /** The loop of _generate_checked, from call n on. */
  ghost function Run(slot: Slot, vendor: Vendor, n: nat, cost: nat, perCall: nat, rejections: seq<Rejection>): Result
    requires 1 <= n <= Attempts(slot)
    decreases Attempts(slot) - n
  {
    var a := vendor(n);
    if a.VendorError? then VendorDown(cost, rejections)
    else
      var j := Judge(slot, a, cost, Last(slot, n, cost, perCall));
      var per := Learned(a, perCall);
      if j.blind then Blind(j.cost, rejections)
      else if j.rejection.None? then Accepted(j.cost, rejections)
      else if n == Attempts(slot) || CapReached(slot, j.cost, per)
      then Exhausted(j.cost, rejections + [j.rejection.value])
      else Run(slot, vendor, n + 1, j.cost, per, rejections + [j.rejection.value])
  }

  ghost function Generated(slot: Slot, vendor: Vendor, listPrice: nat): Result {
    Run(slot, vendor, 1, 0, listPrice, [])
  }

  /** What the register holds when the loop is left, from call n on. */
  ghost function RegisterAfter(slot: Slot, vendor: Vendor, n: nat, cost: nat, perCall: nat,
                               hashes: map<int, nat>): map<int, nat>
    requires 1 <= n <= Attempts(slot)
    decreases Attempts(slot) - n
  {
    var a := vendor(n);
    if a.VendorError? then hashes
    else
      var force := Last(slot, n, cost, perCall);
      var j := Judge(slot, a, cost, force);
      var now := if a.wrongSize then a.others else Registered(a.others, slot.position, a.hash, force).1;
      if j.blind || j.rejection.None? || n == Attempts(slot) || CapReached(slot, j.cost, Learned(a, perCall)) then now
      else RegisterAfter(slot, vendor, n + 1, j.cost, Learned(a, perCall), now)
  }

  /** Vendor calls made, however it ended. */
  function Calls(r: Result): nat {
    |r.rejections| + (if r.Exhausted? then 0 else 1)
  }

  method GenerateChecked(slot: Slot, vendor: Vendor, listPrice: nat, register: Register) returns (r: Result)
    modifies register
    ensures r == Generated(slot, vendor, listPrice)
    ensures register.hashes == RegisterAfter(slot, vendor, 1, 0, listPrice, old(register.hashes))
  {
    var attempts := MaxInt(1, slot.attempts);
    var cost: nat, perCall: nat, rejections: seq<Rejection> := 0, listPrice, [];
    ghost var whole := Generated(slot, vendor, listPrice);
    ghost var kept := RegisterAfter(slot, vendor, 1, 0, listPrice, register.hashes);
    for attempt := 1 to attempts + 1
      invariant attempt <= attempts ==> whole == Run(slot, vendor, attempt, cost, perCall, rejections)
      invariant attempt <= attempts ==> kept == RegisterAfter(slot, vendor, attempt, cost, perCall, register.hashes)
      invariant attempt == attempts + 1 ==> whole == Exhausted(cost, rejections) && kept == register.hashes
    {
      var last := attempt == attempts || (slot.budget != 0 && cost + 2 * perCall > slot.budget);
      var a := vendor(attempt);
      if a.VendorError? {
        return VendorDown(cost, rejections);
      }
      ghost var j := Judge(slot, a, cost, last);
      // While the call was awaited the other slides recorded what they had.
      register.hashes := a.others;
      cost := cost + a.cost;
      perCall := if a.cost > 0 then a.cost else perCall;
      var rejection := None;
      if a.wrongSize {
        rejection := Some(WrongSize);
      }
      if rejection.None? {
        var duplicate := register.RegisterOrReroll(slot.position, a.hash, last);
        if duplicate {
          rejection := Some(DuplicateOfEarlierSlide);
        }
      }
      if rejection.None? && slot.inspected {
        cost := cost + a.look.cost;
        if a.look.NoAnswer? {
          return Blind(cost, rejections);
        }
        if a.look.codes != [] {
          rejection := Some(Objections(a.look.codes));
        }
      }
      assert j == Judged(rejection, cost, false);
      if rejection.None? {
        return Accepted(cost, rejections);
      }
      rejections := rejections + [rejection.value];
      if slot.budget != 0 && cost + perCall > slot.budget {
        return Exhausted(cost, rejections);
      }
    }
    r := Exhausted(cost, rejections);
  }

  // ------------------------------------------------------------------ what became of each picture

  // Read off the vendor's answers, not off the loop: how things stand before call n, if the gate gets
  // that far, and what is wrong with the picture it brings.

  /** The price of the last call before n that said one; the list price when none did. */
  ghost function PriceBefore(vendor: Vendor, listPrice: nat, n: nat): nat {
    if n <= 1 then listPrice
    else if vendor(n - 1).Picture? && vendor(n - 1).cost > 0 then vendor(n - 1).cost
    else PriceBefore(vendor, listPrice, n - 1)
  }

  /** Every picture before n, and the look at each that came to be looked at. */
  ghost function SpentBefore(slot: Slot, vendor: Vendor, listPrice: nat, n: nat): nat
    decreases n, 0
  {
    if n <= 1 || vendor(n - 1).VendorError? then 0
    else SpentBefore(slot, vendor, listPrice, n - 1) + vendor(n - 1).cost
         + (if LookedAt(slot, vendor, listPrice, n - 1) then vendor(n - 1).look.cost else 0)
  }

  /** No turn after call n, or no money for two pictures before it. */
  ghost predicate LastChance(slot: Slot, vendor: Vendor, listPrice: nat, n: nat)
    decreases n, 1
  {
    n >= slot.attempts || (slot.budget > 0 && SpentBefore(slot, vendor, listPrice, n)
                                              + 2 * PriceBefore(vendor, listPrice, n) > slot.budget)
  }

  /** Not the last chance, and within the distance of what an earlier slide has on the register. */
  ghost predicate Repeats(slot: Slot, vendor: Vendor, listPrice: nat, n: nat)
    requires vendor(n).Picture?
    decreases n, 2
  {
    var a := vendor(n);
    && a.hash.Some? && !LastChance(slot, vendor, listPrice, n)
    && exists p :: p in a.others && p < slot.position && Distance(a.hash.value, a.others[p]) <= DUPLICATE_DISTANCE
  }

  ghost predicate LookedAt(slot: Slot, vendor: Vendor, listPrice: nat, n: nat)
    decreases n, 3
  {
    slot.inspected && vendor(n).Picture? && !vendor(n).wrongSize && !Repeats(slot, vendor, listPrice, n)
  }

  /** The fault is this picture's own: the first of wrong size, a repeat, the inspector's objections. */
  ghost predicate Earned(slot: Slot, vendor: Vendor, listPrice: nat, n: nat, why: Rejection) {
    var a := vendor(n);
    && a.Picture?
    && match why
       case WrongSize => a.wrongSize
       case DuplicateOfEarlierSlide => !a.wrongSize && Repeats(slot, vendor, listPrice, n)
       case Objections(codes) =>
         LookedAt(slot, vendor, listPrice, n) && a.look.Verdict? && a.look.codes == codes && codes != []
  }

  /** A turn and the money for another call after n. */
  ghost predicate MayGoOn(slot: Slot, vendor: Vendor, listPrice: nat, n: nat) {
    && n < slot.attempts
    && (slot.budget == 0
        || SpentBefore(slot, vendor, listPrice, n + 1) + PriceBefore(vendor, listPrice, n + 1) <= slot.budget)
  }

  /** The calls before n were refused, each for its own fault, and each left room for the next. */
  ghost predicate RefusedSoFar(slot: Slot, vendor: Vendor, listPrice: nat, n: nat, rejections: seq<Rejection>) {
    |rejections| == n - 1
    && forall i :: 0 <= i < n - 1 ==>
         Earned(slot, vendor, listPrice, i + 1, rejections[i]) && MayGoOn(slot, vendor, listPrice, i + 1)
  }

  /** How call k can end the gate. */
  ghost predicate EndsRightly(slot: Slot, vendor: Vendor, listPrice: nat, k: nat, r: Result) {
    var a := vendor(k);
    match r
    case VendorDown(cost, rejections) =>
      a.VendorError? && RefusedSoFar(slot, vendor, listPrice, k, rejections)
      && cost == SpentBefore(slot, vendor, listPrice, k)
    case Accepted(cost, rejections) =>
      && a.Picture? && !a.wrongSize && !Repeats(slot, vendor, listPrice, k)
      && (slot.inspected ==> a.look.Verdict? && a.look.codes == [])
      && RefusedSoFar(slot, vendor, listPrice, k, rejections) && cost == SpentBefore(slot, vendor, listPrice, k + 1)
    case Blind(cost, rejections) =>
      && LookedAt(slot, vendor, listPrice, k) && a.look.NoAnswer?
      && RefusedSoFar(slot, vendor, listPrice, k, rejections) && cost == SpentBefore(slot, vendor, listPrice, k + 1)
    case Exhausted(cost, rejections) =>
      && k > 0 && |rejections| == k && Earned(slot, vendor, listPrice, k, rejections[k - 1])
      && RefusedSoFar(slot, vendor, listPrice, k, rejections[..k - 1]) && !MayGoOn(slot, vendor, listPrice, k)
      && cost == SpentBefore(slot, vendor, listPrice, k + 1)
  }

  lemma ForecastAt(slot: Slot, vendor: Vendor, listPrice: nat, n: nat)
    requires 1 <= n <= Attempts(slot)
    ensures Last(slot, n, SpentBefore(slot, vendor, listPrice, n), PriceBefore(vendor, listPrice, n))
            <==> LastChance(slot, vendor, listPrice, n)
  {
  }

  lemma RegisteredAt(slot: Slot, vendor: Vendor, listPrice: nat, n: nat)
    requires 1 <= n <= Attempts(slot) && vendor(n).Picture?
    ensures var a := vendor(n);
            var last := Last(slot, n, SpentBefore(slot, vendor, listPrice, n), PriceBefore(vendor, listPrice, n));
            && (Registered(a.others, slot.position, a.hash, last).0 <==> Repeats(slot, vendor, listPrice, n))
            && (!a.wrongSize ==>
                  Registered(a.others, slot.position, a.hash, last).1 == LeftBy(slot, vendor, listPrice, n))
  {
    ForecastAt(slot, vendor, listPrice, n);
  }

  lemma JudgedAt(slot: Slot, vendor: Vendor, listPrice: nat, n: nat)
    requires 1 <= n <= Attempts(slot) && vendor(n).Picture?
    ensures var spent, per := SpentBefore(slot, vendor, listPrice, n), PriceBefore(vendor, listPrice, n);
            var j := Judge(slot, vendor(n), spent, Last(slot, n, spent, per));
            && j.cost == SpentBefore(slot, vendor, listPrice, n + 1)
            && Learned(vendor(n), per) == PriceBefore(vendor, listPrice, n + 1)
            && (j.blind <==> LookedAt(slot, vendor, listPrice, n) && vendor(n).look.NoAnswer?)
            && (j.rejection.Some? ==> Earned(slot, vendor, listPrice, n, j.rejection.value))
            && (j.rejection.None? ==> !vendor(n).wrongSize && !Repeats(slot, vendor, listPrice, n))
            && (j.rejection.None? && slot.inspected ==> j.blind || vendor(n).look == Verdict([], vendor(n).look.cost))
            && (n == Attempts(slot) || CapReached(slot, j.cost, Learned(vendor(n), per))
                <==> !MayGoOn(slot, vendor, listPrice, n))
  {
    var a := vendor(n);
    RegisteredAt(slot, vendor, listPrice, n);
    assert n + 1 - 1 == n;
    assert SpentBefore(slot, vendor, listPrice, n + 1)
           == SpentBefore(slot, vendor, listPrice, n) + a.cost
              + (if LookedAt(slot, vendor, listPrice, n) then a.look.cost else 0);
  }

  lemma {:induction false} RunEndsRightly(slot: Slot, vendor: Vendor, listPrice: nat, n: nat,
                                          rejections: seq<Rejection>)
    requires 1 <= n <= Attempts(slot) && RefusedSoFar(slot, vendor, listPrice, n, rejections)
    ensures var r := Run(slot, vendor, n, SpentBefore(slot, vendor, listPrice, n), PriceBefore(vendor, listPrice, n),
                         rejections);
            n <= Calls(r) <= Attempts(slot) && EndsRightly(slot, vendor, listPrice, Calls(r), r)
    decreases Attempts(slot) - n
  {
    var a := vendor(n);
    if a.Picture? {
      JudgedAt(slot, vendor, listPrice, n);
      var spent, per := SpentBefore(slot, vendor, listPrice, n), PriceBefore(vendor, listPrice, n);
      var j := Judge(slot, a, spent, Last(slot, n, spent, per));
      if !j.blind && j.rejection.Some? {
        var more := rejections + [j.rejection.value];
        assert more[..n - 1] == rejections && more[n - 1] == j.rejection.value;
        if MayGoOn(slot, vendor, listPrice, n) { RunEndsRightly(slot, vendor, listPrice, n + 1, more); }
      }
    }
  }

  /** What the gate lets through, what it refuses and when it stops, for every slot and vendor. The
      calls before the last were refused, each for its own picture's fault, with a turn and the money
      for the next. The last ends the gate: accepted, its picture is of the right size, repeats no
      earlier slide -- unless it was the last chance -- and, where pictures are inspected, was looked
      at and not objected to; an inspector who gave no answer about such a picture is never taken for
      one; and the gate gives up only on a picture at fault, with no turn or no money left. The
      figure is every picture and every look. */
  lemma GateExactly(slot: Slot, vendor: Vendor, listPrice: nat)
    ensures var r := Generated(slot, vendor, listPrice);
            1 <= Calls(r) <= MaxInt(1, slot.attempts) && EndsRightly(slot, vendor, listPrice, Calls(r), r)
  {
    RunEndsRightly(slot, vendor, listPrice, 1, []);
  }

  /** What call n's picture leaves on the register: what the others had put there, and its own hash
      when it has one, is of the right size and repeats nothing. */
  ghost function LeftBy(slot: Slot, vendor: Vendor, listPrice: nat, n: nat): map<int, nat>
    requires vendor(n).Picture?
  {
    var a := vendor(n);
    if a.wrongSize || a.hash.None? || Repeats(slot, vendor, listPrice, n) then a.others
    else a.others[slot.position := a.hash.value]
  }

  lemma {:induction false} RegisterFrom(slot: Slot, vendor: Vendor, listPrice: nat, n: nat,
                                        rejections: seq<Rejection>, hashes: map<int, nat>)
    requires 1 <= n <= Attempts(slot) && |rejections| == n - 1
    ensures var spent, per := SpentBefore(slot, vendor, listPrice, n), PriceBefore(vendor, listPrice, n);
            var k := Calls(Run(slot, vendor, n, spent, per, rejections));
            var left := RegisterAfter(slot, vendor, n, spent, per, hashes);
            && n <= k && (k > n ==> vendor(k - 1).Picture?)
            && left == if vendor(k).Picture? then LeftBy(slot, vendor, listPrice, k)
                       else if k == n then hashes else LeftBy(slot, vendor, listPrice, k - 1)
    decreases Attempts(slot) - n
  {
    var a := vendor(n);
    if a.Picture? {
      JudgedAt(slot, vendor, listPrice, n);
      var spent, per := SpentBefore(slot, vendor, listPrice, n), PriceBefore(vendor, listPrice, n);
      var j := Judge(slot, a, spent, Last(slot, n, spent, per));
      if !j.blind && j.rejection.Some? && MayGoOn(slot, vendor, listPrice, n) {
        var more := rejections + [j.rejection.value];
        RegisteredAt(slot, vendor, listPrice, n);
        RegisterFrom(slot, vendor, listPrice, n + 1, more, LeftBy(slot, vendor, listPrice, n));
      }
    }
  }

  /** However the gate ends, the register holds what the others had put there by the last picture, and
      that picture's hash if it may stand: a slide that fell on a wrong size or a repeat leaves no
      trace of it, and an accepted one is on the register for the slides after it. */
  lemma RegisterExactly(slot: Slot, vendor: Vendor, listPrice: nat, hashes: map<int, nat>)
    ensures var k := Calls(Generated(slot, vendor, listPrice));
            var left := RegisterAfter(slot, vendor, 1, 0, listPrice, hashes);
            && k >= 1 && (k > 1 ==> vendor(k - 1).Picture?)
            && left == if vendor(k).Picture? then LeftBy(slot, vendor, listPrice, k)
                       else if k == 1 then hashes else LeftBy(slot, vendor, listPrice, k - 1)
  {
    RegisterFrom(slot, vendor, listPrice, 1, [], hashes);
  }

  // ------------------------------------------------------------------ the closed form

  /** paid_attempts: `//` floors, and the price list has no negative price. */
  function PaidAttempts(attempts: int, budget: nat, price: nat): nat {
    var count := MaxInt(1, attempts);
    if budget != 0 && price != 0 then MinInt(count, MaxInt(1, budget / price)) else count
  }

  ghost predicate ConstantPrice(vendor: Vendor, price: nat) {
    forall i: nat :: vendor(i).Picture? ==> vendor(i).cost == price
  }

  ghost predicate PricedAtLeast(vendor: Vendor, price: nat) {
    forall i: nat :: vendor(i).Picture? ==> vendor(i).cost >= price
  }

  ghost predicate LooksCostAtMost(vendor: Vendor, fee: nat) {
    forall i: nat :: vendor(i).Picture? ==> vendor(i).look.cost <= fee
  }

  /** Every picture is refused, and looking at it is free. */
  ghost predicate RefusesAll(slot: Slot, vendor: Vendor) {
    forall i: nat ::
      && vendor(i).Picture?
      && (vendor(i).wrongSize
          || (slot.inspected && vendor(i).look.Verdict? && vendor(i).look.codes != [] && vendor(i).look.cost == 0))
  }

  const FREE_PASS := Verdict([], 0)

  /** A vendor whose picture k is the first of the size asked for, and passes. */
  function PassesAt(k: nat, price: nat): Vendor {
    (i: nat) => Picture(price, i < k, None, map[], FREE_PASS)
  }

  /** One whose pictures never are. */
  function NeverPasses(price: nat): Vendor {
    (i: nat) => Picture(price, true, None, map[], FREE_PASS)
  }

  lemma RoomForAnother(slot: Slot, n: nat, cost: nat, per: nat, price: nat)
    requires n < Attempts(slot) && !CapReached(slot, cost, per) && cost >= n * price && per >= price
    ensures n + 1 <= PaidAttempts(slot.attempts, slot.budget, price)
  {
    if slot.budget != 0 && price != 0 {
      assert (n + 1) * price == n * price + price;
      FitsTimes(n + 1, price, slot.budget);
    }
  }

  lemma {:induction false} RunBound(slot: Slot, vendor: Vendor, n: nat, cost: nat, perCall: nat,
                                    rejections: seq<Rejection>, price: nat)
    requires PricedAtLeast(vendor, price)
    requires 1 <= n <= PaidAttempts(slot.attempts, slot.budget, price) && |rejections| == n - 1
    requires cost >= (n - 1) * price
    ensures var r := Run(slot, vendor, n, cost, perCall, rejections);
            Calls(r) <= PaidAttempts(slot.attempts, slot.budget, price) && r.cost >= (Calls(r) - 1) * price
            && (!r.VendorDown? ==> r.cost >= Calls(r) * price)
    decreases Attempts(slot) - n
  {
    var a := vendor(n);
    if a.Picture? {
      var j, per := Judge(slot, a, cost, Last(slot, n, cost, perCall)), Learned(a, perCall);
      assert n * price == (n - 1) * price + price;
      if !j.blind && j.rejection.Some? && n != Attempts(slot) && !CapReached(slot, j.cost, per) {
        RoomForAnother(slot, n, j.cost, per, price);
        RunBound(slot, vendor, n + 1, j.cost, per, rejections + [j.rejection.value], price);
      }
    }
  }

  /** paid_attempts, worked out from any price, bounds the gate's calls for every vendor none of
      whose pictures costs less -- whatever the list price, the inspector, the other slides and the
      settings do. */
  lemma GateWithinPaidAttempts(slot: Slot, vendor: Vendor, listPrice: nat, price: nat)
    requires PricedAtLeast(vendor, price)
    ensures Calls(Generated(slot, vendor, listPrice)) <= PaidAttempts(slot.attempts, slot.budget, price)
  {
    RunBound(slot, vendor, 1, 0, listPrice, [], price);
  }

  /** After a refusal there is another call exactly while paid_attempts allows one. */
  lemma AnotherCall(slot: Slot, n: nat, per: nat, price: nat)
    requires 1 <= n <= PaidAttempts(slot.attempts, slot.budget, price)
    requires if price > 0 then per == price else slot.budget == 0 || per <= slot.budget
    ensures n != Attempts(slot) && !CapReached(slot, n * price, per)
            <==> n < PaidAttempts(slot.attempts, slot.budget, price)
  {
    if slot.budget != 0 && price != 0 {
      assert (n + 1) * price == n * price + price;
      FitsTimes(n + 1, price, slot.budget);
    }
  }

  lemma RefusedAt(slot: Slot, vendor: Vendor, n: nat, cost: nat, force: bool, price: nat)
    requires ConstantPrice(vendor, price) && RefusesAll(slot, vendor)
    ensures vendor(n).Picture? && vendor(n).cost == price
    ensures var j := Judge(slot, vendor(n), cost, force); j.cost == cost + price && j.rejection.Some? && !j.blind
  {
  }

  lemma {:induction false} RunExact(slot: Slot, vendor: Vendor, n: nat, cost: nat, perCall: nat, price: nat,
                                    rejections: seq<Rejection>)
    requires ConstantPrice(vendor, price) && RefusesAll(slot, vendor)
    requires price > 0 || slot.budget == 0 || perCall <= slot.budget
    requires 1 <= n <= PaidAttempts(slot.attempts, slot.budget, price) && |rejections| == n - 1
             && cost + price == n * price
    ensures var r := Run(slot, vendor, n, cost, perCall, rejections);
            r.Exhausted? && |r.rejections| == PaidAttempts(slot.attempts, slot.budget, price)
    decreases Attempts(slot) - n
  {
    var a := vendor(n);
    RefusedAt(slot, vendor, n, cost, Last(slot, n, cost, perCall), price);
    var j, per := Judge(slot, a, cost, Last(slot, n, cost, perCall)), Learned(a, perCall);
    AnotherCall(slot, n, per, price);
    if n < PaidAttempts(slot.attempts, slot.budget, price) {
      OneMoreOf(n, price);
      RunExact(slot, vendor, n + 1, j.cost, per, price, rejections + [j.rejection.value]);
    }
  }

  lemma OneMoreOf(n: nat, price: nat)
    ensures (n + 1) * price == n * price + price
  {
  }

  /** A price the vendor really charges decides how long the gate goes on: nothing, when the
      replies carry no cost, leaves the list price in force. */
  predicate PriceInForce(slot: Slot, listPrice: nat, price: nat) {
    price > 0 || slot.budget == 0 || listPrice <= slot.budget
  }

  /** And it is exact: when every picture is refused and the looks are free the gate makes
      precisely the calls that paid_attempts works out from the price really charged. */
  lemma PaidAttemptsExact(slot: Slot, vendor: Vendor, listPrice: nat, price: nat)
    requires ConstantPrice(vendor, price) && RefusesAll(slot, vendor) && PriceInForce(slot, listPrice, price)
    ensures var r := Generated(slot, vendor, listPrice);
            r.Exhausted? && Calls(r) == PaidAttempts(slot.attempts, slot.budget, price)
  {
    RunExact(slot, vendor, 1, 0, listPrice, price, []);
  }

  lemma FirstCallReachesTheCap(slot: Slot, vendor: Vendor, listPrice: nat)
    requires ConstantPrice(vendor, 0) && !PriceInForce(slot, listPrice, 0)
    ensures Calls(Generated(slot, vendor, listPrice)) == 1
  {
  }

  /** The calls paid_attempts quotes from the list price cover every vendor that really charges
      `price` exactly when the real price buys no more of them than the list price does, or costs
      nothing while one picture at the list price is already more than the cap. */
  lemma QuoteCoversThePriceExactly(slot: Slot, listPrice: nat, price: nat)
    ensures (forall vendor: Vendor :: ConstantPrice(vendor, price) ==>
               Calls(Generated(slot, vendor, listPrice)) <= PaidAttempts(slot.attempts, slot.budget, listPrice))
            <==> (PaidAttempts(slot.attempts, slot.budget, price) <= PaidAttempts(slot.attempts, slot.budget, listPrice)
                  || !PriceInForce(slot, listPrice, price))
  {
    forall vendor: Vendor | ConstantPrice(vendor, price)
      ensures Calls(Generated(slot, vendor, listPrice)) <= PaidAttempts(slot.attempts, slot.budget, price)
      ensures !PriceInForce(slot, listPrice, price) ==> Calls(Generated(slot, vendor, listPrice)) == 1
    {
      GateWithinPaidAttempts(slot, vendor, listPrice, price);
      if !PriceInForce(slot, listPrice, price) { FirstCallReachesTheCap(slot, vendor, listPrice); }
    }
    if PriceInForce(slot, listPrice, price) {
      var vendor := NeverPasses(price);
      PaidAttemptsExact(slot, vendor, listPrice, price);
      assert ConstantPrice(vendor, price);
    }
  }

  // ------------------------------------------------------------------ money

  /** What one look can add to the tally: nothing where the picture is not looked at, as the
      mock's are not. */
  function LookFee(slot: Slot, fee: nat): nat {
    if slot.inspected then fee else 0
  }

  lemma {:induction false} RunSpend(slot: Slot, vendor: Vendor, n: nat, cost: nat, price: nat,
                                    rejections: seq<Rejection>, fee: nat)
    requires ConstantPrice(vendor, price) && LooksCostAtMost(vendor, fee)
    requires slot.budget > 0 && 1 <= n <= Attempts(slot)
    requires cost + price <= MaxInt(price, slot.budget)
    ensures Run(slot, vendor, n, cost, price, rejections).cost <= MaxInt(price, slot.budget) + LookFee(slot, fee)
    decreases Attempts(slot) - n
  {
    var a := vendor(n);
    if a.Picture? {
      var j := Judge(slot, a, cost, Last(slot, n, cost, price));
      if !j.blind && j.rejection.Some? && n != Attempts(slot) && !CapReached(slot, j.cost, price) {
        RunSpend(slot, vendor, n + 1, j.cost, price, rejections + [j.rejection.value], fee);
      }
    }
  }

  /** The first call is made at the list price, every other at what the first one really cost. */
  lemma SpendAtAnyListPrice(slot: Slot, vendor: Vendor, listPrice: nat, price: nat, fee: nat)
    requires ConstantPrice(vendor, price) && LooksCostAtMost(vendor, fee) && slot.budget > 0 && price > 0
    ensures Generated(slot, vendor, listPrice).cost <= MaxInt(price, slot.budget) + LookFee(slot, fee)
  {
    var a := vendor(1);
    if a.Picture? {
      var j := Judge(slot, a, 0, Last(slot, 1, 0, listPrice));
      if !j.blind && j.rejection.Some? && 1 != Attempts(slot) && !CapReached(slot, j.cost, price) {
        RunSpend(slot, vendor, 2, j.cost, price, [] + [j.rejection.value], fee);
      }
    }
  }

  /** What `buy` may spend: the slide's cap less what the gate spent; None when that does not pay
      for one call at the list price. A cap of 0 is no cap. */
  function LeftToBuy(slot: Slot, gateCost: nat, listPrice: nat): Option<nat> {
    if slot.budget == 0 then Some(0)
    else if slot.budget - gateCost < listPrice then None
    else if slot.budget >= gateCost then Some(slot.budget - gateCost)
    else None
  }

  ghost function Bought(slot: Slot, gateCost: nat, vendor: Vendor, listPrice: nat): Option<Result> {
    match LeftToBuy(slot, gateCost, listPrice)
    case None => None
    case Some(left) => Some(Generated(slot.(budget := left), vendor, listPrice))
  }

  /** One credit in, one cap out: when the list price is at least the real one, the gate and the
      single corrected retry together spend at most the cap -- or one picture, when a picture costs
      more than the cap -- plus one look. RetryKeepsTheCapExactly says when they do at a lower one. */
  lemma GateAndRetrySpend(slot: Slot, vendor: Vendor, again: Vendor, listPrice: nat, price: nat, fee: nat)
    requires slot.budget > 0 && price > 0 && listPrice >= price
    requires ConstantPrice(vendor, price) && LooksCostAtMost(vendor, fee)
    requires ConstantPrice(again, price) && LooksCostAtMost(again, fee)
    ensures var gate := Generated(slot, vendor, listPrice);
            var retry := Bought(slot, gate.cost, again, listPrice);
            gate.cost + (if retry.Some? then retry.value.cost else 0) <= MaxInt(price, slot.budget) + LookFee(slot, fee)
  {
    SpendAtAnyListPrice(slot, vendor, listPrice, price, fee);
    var gate := Generated(slot, vendor, listPrice);
    var left := LeftToBuy(slot, gate.cost, listPrice);
    if left.Some? {
      SpendAtAnyListPrice(slot.(budget := left.value), again, listPrice, price, fee);
    }
  }

  // ------------------------------------------------------------------ more than one retry

  /** The corrected retries of one slide, one after the other: each may spend what the gate left,
      whatever the retries before it spent, and only a picture that passed its own gate and failed
      the final check leads to the next. */
  ghost function RetriesSpend(slot: Slot, gateCost: nat, retries: seq<Vendor>, listPrice: nat): nat {
    if retries == [] then 0
    else
      var r := Bought(slot, gateCost, retries[0], listPrice);
      if r.None? then 0
      else r.value.cost + (if r.value.Accepted? then RetriesSpend(slot, gateCost, retries[1..], listPrice) else 0)
  }

  /** Everything a slide's pictures cost, the gate's and the retries'. */
  ghost function SlideSpend(slot: Slot, vendor: Vendor, retries: seq<Vendor>, price: nat): nat {
    var gate := Generated(slot, vendor, price);
    gate.cost + (if gate.Accepted? then RetriesSpend(slot, gate.cost, retries, price) else 0)
  }

  ghost predicate AllPlain(retries: seq<Vendor>, price: nat) {
    forall k :: 0 <= k < |retries| ==> ConstantPrice(retries[k], price) && LooksCostAtMost(retries[k], 0)
  }

  lemma {:induction false} RunCosts(slot: Slot, vendor: Vendor, n: nat, cost: nat, perCall: nat,
                                    rejections: seq<Rejection>, price: nat, fee: nat, most: nat)
    requires ConstantPrice(vendor, price) && LooksCostAtMost(vendor, fee) && most == price + LookFee(slot, fee)
    requires 1 <= n <= Attempts(slot) && |rejections| == n - 1 && (n - 1) * price <= cost <= (n - 1) * most
    ensures var r := Run(slot, vendor, n, cost, perCall, rejections);
            n <= Calls(r) && r.cost <= Calls(r) * most && (!r.VendorDown? ==> Calls(r) * price <= r.cost)
    decreases Attempts(slot) - n
  {
    var a := vendor(n);
    assert n * price == (n - 1) * price + price && n * most == (n - 1) * most + most;
    if a.Picture? {
      var j, per := Judge(slot, a, cost, Last(slot, n, cost, perCall)), Learned(a, perCall);
      if !j.blind && j.rejection.Some? && n != Attempts(slot) && !CapReached(slot, j.cost, per) {
        RunCosts(slot, vendor, n + 1, j.cost, per, rejections + [j.rejection.value], price, fee, most);
      }
    }
  }

  /** With free looks a run costs its calls. */
  lemma RunCostsItsCalls(slot: Slot, vendor: Vendor, price: nat)
    requires ConstantPrice(vendor, price) && LooksCostAtMost(vendor, 0)
    ensures var r := Generated(slot, vendor, price);
            && r.cost <= Calls(r) * price && (!r.VendorDown? ==> r.cost == Calls(r) * price)
            && 1 <= Calls(r) <= PaidAttempts(slot.attempts, slot.budget, price)
  {
    RunCosts(slot, vendor, 1, 0, price, [], price, 0, price);
    GateWithinPaidAttempts(slot, vendor, price, price);
  }

  /** The pictures a cap of `pays` pictures leaves after `made` of them: one retry's most. */
  function RetryMost(attempts: nat, pays: nat, made: nat): nat
    requires made <= pays
  {
    if attempts <= pays - made then attempts else pays - made
  }

  lemma OneRetryMost(slot: Slot, made: nat, price: nat)
    requires price > 0 && slot.budget > 0
    ensures var pays := slot.budget / price;
            var left := LeftToBuy(slot, made * price, price);
            && (left.Some? <==> made < pays)
            && (left.Some? ==> left.value == slot.budget - made * price > 0
                               && PaidAttempts(slot.attempts, left.value, price)
                                  == RetryMost(Attempts(slot), pays, made))
  {
    var pays := slot.budget / price;
    FitsTimes(made + 1, price, slot.budget);
    assert (made + 1) * price == made * price + price;
    if made < pays {
      var left := slot.budget - made * price;
      assert slot.budget == pays * price + slot.budget % price;
      assert (pays - made) * price == pays * price - made * price;
      DivUnique(left, pays - made, slot.budget % price, price);
    }
  }

  lemma {:induction false} RetriesAtMost(slot: Slot, made: nat, retries: seq<Vendor>, price: nat)
    requires price > 0 && slot.budget > 0 && AllPlain(retries, price) && made < slot.budget / price
    ensures RetriesSpend(slot, made * price, retries, price)
            <= |retries| * (RetryMost(Attempts(slot), slot.budget / price, made) * price)
    decreases |retries|
  {
    if retries != [] {
      OneRetryMost(slot, made, price);
      var most := RetryMost(Attempts(slot), slot.budget / price, made);
      var left := slot.(budget := LeftToBuy(slot, made * price, price).value);
      RunCostsItsCalls(left, retries[0], price);
      var r := Generated(left, retries[0], price);
      MulInOrder(Calls(r), most, price);
      assert AllPlain(retries[1..], price) by {
        forall k | 0 <= k < |retries[1..]|
          ensures ConstantPrice(retries[1..][k], price) && LooksCostAtMost(retries[1..][k], 0)
        {
          assert retries[1..][k] == retries[k + 1];
        }
      }
      RetriesAtMost(slot, made, retries[1..], price);
      Distributes(|retries| - 1, most * price);
    }
  }

  lemma Distributes(n: nat, x: nat)
    ensures (n + 1) * x == n * x + x
  {
  }

  lemma {:induction false} PassesAtCall(slot: Slot, k: nat, n: nat, price: nat, rejections: seq<Rejection>)
    requires price > 0 && 1 <= n <= k <= PaidAttempts(slot.attempts, slot.budget, price) && |rejections| == n - 1
    ensures var r := Run(slot, PassesAt(k, price), n, (n - 1) * price, price, rejections);
            r.Accepted? && r.cost == k * price && Calls(r) == k
    decreases k - n
  {
    assert n * price == (n - 1) * price + price;
    if n < k {
      if slot.budget > 0 {
        assert (n + 1) * price == n * price + price;
        FitsTimes(n + 1, price, slot.budget);
      }
      PassesAtCall(slot, k, n + 1, price, rejections + [WrongSize]);
    }
  }

  function Repeated(again: Vendor, times: nat): seq<Vendor> {
    seq(times, _ => again)
  }

  lemma {:induction false} RetriesReach(slot: Slot, made: nat, times: nat, price: nat)
    requires price > 0 && slot.budget > 0 && made < slot.budget / price
    ensures var most := RetryMost(Attempts(slot), slot.budget / price, made);
            RetriesSpend(slot, made * price, Repeated(PassesAt(most, price), times), price) == times * (most * price)
    decreases times
  {
    if times > 0 {
      OneRetryMost(slot, made, price);
      var most := RetryMost(Attempts(slot), slot.budget / price, made);
      var again := PassesAt(most, price);
      PassesAtCall(slot.(budget := LeftToBuy(slot, made * price, price).value), most, 1, price, []);
      RetriesReach(slot, made, times - 1, price);
      assert Repeated(again, times)[1..] == Repeated(again, times - 1);
      Distributes(times - 1, most * price);
    }
  }

  /** How many retries there are, and how far the cap goes. */
  predicate CapHolds(attempts: nat, pays: nat, times: nat) {
    times <= 1 || pays < 2 || (times + 1) * attempts <= pays
  }

  /** The gate's own calls with which the retries go furthest. */
  function WorstGate(attempts: nat, pays: nat): nat {
    if pays <= attempts + 1 then 1 else if pays < 2 * attempts then pays - attempts else attempts
  }

  lemma CapHoldsForAll(attempts: nat, pays: nat, times: nat, made: nat)
    requires attempts >= 1 && 1 <= made <= attempts && made < pays && CapHolds(attempts, pays, times)
    ensures made + times * RetryMost(attempts, pays, made) <= pays
  {
    var most := RetryMost(attempts, pays, made);
    if times >= 2 {
      Distributes(times, attempts);
      MulInOrder(most, attempts, times);
    }
  }

  lemma CapFailsForOne(attempts: nat, pays: nat, times: nat)
    requires attempts >= 1 && !CapHolds(attempts, pays, times)
    ensures var made := WorstGate(attempts, pays);
            1 <= made <= attempts && made < pays && made + times * RetryMost(attempts, pays, made) > pays
  {
    var made := WorstGate(attempts, pays);
    var most := RetryMost(attempts, pays, made);
    if pays < 2 * attempts || pays <= attempts + 1 {
      MulInOrder(2, times, most);
    } else {
      Distributes(times, attempts);
    }
  }

  lemma {:induction false} SpendWithinTheCap(slot: Slot, vendor: Vendor, retries: seq<Vendor>, price: nat)
    requires price > 0 && slot.budget > 0 && CapHolds(Attempts(slot), slot.budget / price, |retries|)
    requires ConstantPrice(vendor, price) && LooksCostAtMost(vendor, 0) && AllPlain(retries, price)
    ensures SlideSpend(slot, vendor, retries, price) <= MaxInt(price, slot.budget)
  {
    RunSpend(slot, vendor, 1, 0, price, [], 0);
    RunCostsItsCalls(slot, vendor, price);
    var gate, pays := Generated(slot, vendor, price), slot.budget / price;
    var made := Calls(gate);
    if gate.Accepted? {
      OneRetryMost(slot, made, price);
      if made < pays {
        var most := RetryMost(Attempts(slot), pays, made);
        RetriesAtMost(slot, made, retries, price);
        CapHoldsForAll(Attempts(slot), pays, |retries|, made);
        AddUp(made, |retries|, most, price);
        FitsTimes(made + |retries| * most, price, slot.budget);
      }
    }
  }

  lemma AddUp(made: nat, times: nat, most: nat, price: nat)
    ensures made * price + times * (most * price) == (made + times * most) * price
  {
    assert times * (most * price) == (times * most) * price;
  }

  lemma SpendPastTheCap(slot: Slot, times: nat, price: nat)
    requires price > 0 && slot.budget > 0 && !CapHolds(Attempts(slot), slot.budget / price, times)
    ensures var pays := slot.budget / price;
            var made := WorstGate(Attempts(slot), pays);
            && made < pays
            && SlideSpend(slot, PassesAt(made, price),
                          Repeated(PassesAt(RetryMost(Attempts(slot), pays, made), price), times), price)
               > slot.budget
  {
    var pays := slot.budget / price;
    var made := WorstGate(Attempts(slot), pays);
    CapFailsForOne(Attempts(slot), pays, times);
    var most := RetryMost(Attempts(slot), pays, made);
    PassesAtCall(slot, made, 1, price, []);
    RetriesReach(slot, made, times, price);
    PastTheCap(made, times, most, price, slot.budget);
  }

  lemma PastTheCap(made: nat, times: nat, most: nat, price: nat, budget: nat)
    requires price > 0 && made + times * most > budget / price
    ensures made * price + times * (most * price) > budget
  {
    AddUp(made, times, most, price);
    FitsTimes(made + times * most, price, budget);
  }

  /** A slide's cap and the number of corrected retries, exactly. At a constant price and with free
      looks, no gate and no list of `times` retries spends past the cap (or one picture, when that
      costs more) if and only if there is at most one retry, or the cap does not pay for two
      pictures -- then no retry is ever made after the first -- or it pays for every attempt of the
      gate and of every retry. `buy` subtracts what the gate spent and nothing else, so the cap is
      held by `composite_paid_retries` being 1, not by the subtraction. */
  lemma RetriesKeepTheCapExactly(slot: Slot, times: nat, price: nat)
    requires price > 0 && slot.budget > 0
    ensures (forall vendor: Vendor, retries: seq<Vendor> ::
               ConstantPrice(vendor, price) && LooksCostAtMost(vendor, 0) && |retries| == times
               && AllPlain(retries, price) ==>
                 SlideSpend(slot, vendor, retries, price) <= MaxInt(price, slot.budget))
            <==> (times <= 1 || slot.budget / price < 2 || (times + 1) * Attempts(slot) <= slot.budget / price)
  {
    if CapHolds(Attempts(slot), slot.budget / price, times) {
      forall vendor: Vendor, retries: seq<Vendor>
        | ConstantPrice(vendor, price) && LooksCostAtMost(vendor, 0) && |retries| == times && AllPlain(retries, price)
        ensures SlideSpend(slot, vendor, retries, price) <= MaxInt(price, slot.budget)
      {
        SpendWithinTheCap(slot, vendor, retries, price);
      }
    } else {
      SpendPastTheCap(slot, times, price);
      var pays := slot.budget / price;
      var made := WorstGate(Attempts(slot), pays);
      var again := PassesAt(RetryMost(Attempts(slot), pays, made), price);
      FitsTimes(1, price, slot.budget);
      assert AllPlain(Repeated(again, times), price);
      assert ConstantPrice(PassesAt(made, price), price) && LooksCostAtMost(PassesAt(made, price), 0);
    }
  }

  /** A second retry breaks every cap of two pictures: the gate's one picture and two retries of one
      picture each come to three. */
  lemma SecondRetryBreaksTheCap(slot: Slot, price: nat)
    requires price > 0 && 2 * price <= slot.budget < 3 * price
    ensures SlideSpend(slot, PassesAt(1, price), [PassesAt(1, price), PassesAt(1, price)], price)
            == 3 * price > slot.budget
  {
    var again := PassesAt(1, price);
    DivUnique(slot.budget, 2, slot.budget - 2 * price, price);
    PassesAtCall(slot, 1, 1, price, []);
    RetriesReach(slot, 1, 2, price);
    assert Repeated(again, 2) == [again, again];
  }

  // ------------------------------------------------------------------ a list price that is not the price

  /** What the gate and its one corrected retry cost. */
  ghost function CostWithRetry(slot: Slot, vendor: Vendor, again: Vendor, listPrice: nat): nat {
    var gate := Generated(slot, vendor, listPrice);
    var retry := Bought(slot, gate.cost, again, listPrice);
    gate.cost + (if gate.Accepted? && retry.Some? then retry.value.cost else 0)
  }

  /** Every picture costs `price`, and no look more than `fee`. */
  ghost predicate Charges(vendor: Vendor, price: nat, fee: nat) {
    ConstantPrice(vendor, price) && LooksCostAtMost(vendor, fee)
  }

  /** A gate of k calls can leave money for a retry at the list price and not at the real one. */
  predicate LeavesTooLittle(k: nat, budget: nat, listPrice: nat, price: nat, fee: nat) {
    listPrice < price && k * price + listPrice <= budget && k * (price + fee) + price > budget
  }

  lemma RetryFits(slot: Slot, vendor: Vendor, again: Vendor, listPrice: nat, price: nat, fee: nat)
    requires slot.budget > 0 && price > 0 && Charges(vendor, price, fee) && Charges(again, price, fee)
    requires forall k :: 1 <= k <= Attempts(slot) ==>
               !LeavesTooLittle(k, slot.budget, listPrice, price, LookFee(slot, fee))
    ensures CostWithRetry(slot, vendor, again, listPrice) <= MaxInt(price, slot.budget) + LookFee(slot, fee)
  {
    SpendAtAnyListPrice(slot, vendor, listPrice, price, fee);
    GateWithinPaidAttempts(slot, vendor, listPrice, price);
    RunCosts(slot, vendor, 1, 0, listPrice, [], price, fee, price + LookFee(slot, fee));
    var gate := Generated(slot, vendor, listPrice);
    var left := LeftToBuy(slot, gate.cost, listPrice);
    if gate.Accepted? && left.Some? {
      assert !LeavesTooLittle(Calls(gate), slot.budget, listPrice, price, LookFee(slot, fee));
      SpendAtAnyListPrice(slot.(budget := left.value), again, listPrice, price, fee);
    }
  }

  /** The look at picture i, where looks of up to `fee` come to `extra` and the first ones cost most. */
  function LookAt(i: nat, fee: nat, extra: nat): nat {
    MinInt(fee, MaxInt(0, extra - (i - 1) * fee))
  }

  function LooksUpTo(n: nat, fee: nat, extra: nat): int {
    MinInt(n * fee, extra)
  }

  lemma OneMoreLook(n: nat, fee: nat, extra: nat)
    ensures LooksUpTo(n + 1, fee, extra) == LooksUpTo(n, fee, extra) + LookAt(n + 1, fee, extra)
  {
    OneMoreOf(n, fee);
  }

  /** A vendor whose picture k is the first to pass, with such looks. */
  function PassesAfterLooks(slot: Slot, k: nat, price: nat, fee: nat, extra: nat): Vendor {
    (i: nat) =>
      Picture(price, !slot.inspected && i < k, None, map[], Verdict(if i < k then [0] else [], LookAt(i, fee, extra)))
  }

  lemma {:induction false} RunWithLooks(slot: Slot, k: nat, n: nat, cost: nat, perCall: nat,
                                        rejections: seq<Rejection>, price: nat, fee: nat, extra: nat)
    requires price > 0 && slot.budget > 0 && 1 <= n <= k <= Attempts(slot) && (slot.inspected || fee == 0)
    requires cost == (n - 1) * price + LooksUpTo(n - 1, fee, extra)
    requires k * price + LooksUpTo(k, fee, extra) <= slot.budget
    ensures var r := Run(slot, PassesAfterLooks(slot, k, price, fee, extra), n, cost, perCall, rejections);
            r.Accepted? && r.cost == k * price + LooksUpTo(k, fee, extra)
    decreases k - n
  {
    OneMoreOf(n - 1, price);
    OneMoreLook(n - 1, fee, extra);
    if n < k {
      OneMoreOf(n, price);
      MulInOrder(n + 1, k, price);
      MulInOrder(n, k, fee);
      var a := PassesAfterLooks(slot, k, price, fee, extra)(n);
      var j := Judge(slot, a, cost, Last(slot, n, cost, perCall));
      assert j.rejection.Some? && !j.blind && j.cost == n * price + LooksUpTo(n, fee, extra);
      RunWithLooks(slot, k, n + 1, j.cost, price, rejections + [j.rejection.value], price, fee, extra);
    }
  }

  lemma PassesAtOnce(slot: Slot, listPrice: nat, price: nat, fee: nat)
    requires slot.inspected || fee == 0
    ensures Generated(slot, PassesAfterLooks(slot, 1, price, fee, fee), listPrice) == Accepted(price + fee, [])
  {
  }

  /** What the gate's looks have to come to for the retry to overrun. */
  function OverrunLooks(k: nat, budget: nat, price: nat): nat {
    MaxInt(0, budget - price + 1 - k * price)
  }

  lemma OverrunFits(k: nat, budget: nat, listPrice: nat, price: nat, fee: nat)
    requires k >= 1 && price > 0 && LeavesTooLittle(k, budget, listPrice, price, fee)
    ensures var extra := OverrunLooks(k, budget, price);
            && LooksUpTo(k, fee, extra) == extra
            && 0 < k * price + extra <= budget - listPrice && k * price + extra > budget - price
  {
    Splits(k, price, fee);
    MulAtLeast(k, price);
  }

  lemma Splits(k: nat, x: nat, y: nat)
    ensures k * (x + y) == k * x + k * y
  {
  }

  lemma OverrunAddsUp(slot: Slot, vendor: Vendor, again: Vendor, listPrice: nat, spent: nat, more: nat)
    requires Generated(slot, vendor, listPrice).Accepted? && Generated(slot, vendor, listPrice).cost == spent
    requires slot.budget > 0 && spent + listPrice <= slot.budget
    requires Generated(slot.(budget := slot.budget - spent), again, listPrice) == Accepted(more, [])
    ensures CostWithRetry(slot, vendor, again, listPrice) == spent + more
  {
  }

  lemma RetryOverruns(slot: Slot, listPrice: nat, price: nat, fee: nat, k: nat)
    requires slot.budget > 0 && price > 0 && (slot.inspected || fee == 0)
    requires 1 <= k <= Attempts(slot) && LeavesTooLittle(k, slot.budget, listPrice, price, fee)
    ensures var vendor := PassesAfterLooks(slot, k, price, fee, OverrunLooks(k, slot.budget, price));
            CostWithRetry(slot, vendor, PassesAfterLooks(slot, 1, price, fee, fee), listPrice)
            > MaxInt(price, slot.budget) + fee
  {
    var extra := OverrunLooks(k, slot.budget, price);
    OverrunFits(k, slot.budget, listPrice, price, fee);
    RunWithLooks(slot, k, 1, 0, listPrice, [], price, fee, extra);
    var spent: nat := k * price + extra;
    PassesAtOnce(slot.(budget := slot.budget - spent), listPrice, price, fee);
    OverrunAddsUp(slot, PassesAfterLooks(slot, k, price, fee, extra), PassesAfterLooks(slot, 1, price, fee, fee),
                  listPrice, spent, price + fee);
  }

  /** Whatever the vendor's two runs do, gate and retry come to no more than the cap -- or one
      picture, when that costs more -- and one look. */
  ghost predicate KeepsTheCap(slot: Slot, listPrice: nat, price: nat, fee: nat) {
    forall vendor: Vendor, again: Vendor :: Charges(vendor, price, fee) && Charges(again, price, fee) ==>
      CostWithRetry(slot, vendor, again, listPrice) <= MaxInt(price, slot.budget) + LookFee(slot, fee)
  }

  predicate SomeGateLeavesTooLittle(slot: Slot, listPrice: nat, price: nat, fee: nat) {
    exists k :: 1 <= k <= Attempts(slot) && LeavesTooLittle(k, slot.budget, listPrice, price, fee)
  }

  lemma SpreadsItsLooks(slot: Slot, k: nat, price: nat, most: nat, extra: nat, fee: nat)
    requires most <= fee
    ensures Charges(PassesAfterLooks(slot, k, price, most, extra), price, fee)
  {
  }

  lemma BreaksTheCap(slot: Slot, listPrice: nat, price: nat, fee: nat, vendor: Vendor, again: Vendor)
    requires Charges(vendor, price, fee) && Charges(again, price, fee)
    requires CostWithRetry(slot, vendor, again, listPrice) > MaxInt(price, slot.budget) + LookFee(slot, fee)
    ensures !KeepsTheCap(slot, listPrice, price, fee)
  {
  }

  lemma OverrunBreaksTheCap(slot: Slot, listPrice: nat, price: nat, fee: nat, k: nat)
    requires slot.budget > 0 && price > 0 && 1 <= k <= Attempts(slot)
    requires LeavesTooLittle(k, slot.budget, listPrice, price, LookFee(slot, fee))
    ensures !KeepsTheCap(slot, listPrice, price, fee)
  {
    var most, extra := LookFee(slot, fee), OverrunLooks(k, slot.budget, price);
    RetryOverruns(slot, listPrice, price, most, k);
    SpreadsItsLooks(slot, k, price, most, extra, fee);
    SpreadsItsLooks(slot, 1, price, most, most, fee);
    BreaksTheCap(slot, listPrice, price, fee, PassesAfterLooks(slot, k, price, most, extra),
                 PassesAfterLooks(slot, 1, price, most, most));
  }

  /** Gate and retry against a list price that need not be the real one, exactly. `buy` refuses when
      what is left is under the list price, and the first call of a retry is always made: so, at a
      constant real price and with looks of up to `fee`, the cap is kept if and only if no number of
      calls within the attempts can leave too little. At a list price no lower than the real one
      none can. */
  lemma RetryKeepsTheCapExactly(slot: Slot, listPrice: nat, price: nat, fee: nat)
    requires slot.budget > 0 && price > 0
    ensures KeepsTheCap(slot, listPrice, price, fee)
            <==> !SomeGateLeavesTooLittle(slot, listPrice, price, LookFee(slot, fee))
  {
    if SomeGateLeavesTooLittle(slot, listPrice, price, LookFee(slot, fee)) {
      var k :| 1 <= k <= Attempts(slot) && LeavesTooLittle(k, slot.budget, listPrice, price, LookFee(slot, fee));
      OverrunBreaksTheCap(slot, listPrice, price, fee, k);
    } else {
      forall vendor: Vendor, again: Vendor | Charges(vendor, price, fee) && Charges(again, price, fee)
        ensures CostWithRetry(slot, vendor, again, listPrice) <= MaxInt(price, slot.budget) + LookFee(slot, fee)
      {
        RetryFits(slot, vendor, again, listPrice, price, fee);
      }
    }
  }

  lemma UsesTheCapUp(k: nat, budget: nat, listPrice: nat, price: nat, pays: nat, rest: nat)
    requires budget == pays * price + rest && rest < price
    ensures LeavesTooLittle(k, budget, listPrice, price, 0) <==> k == pays && rest >= listPrice
  {
    assert (k + 1) * price == k * price + price && (pays + 1) * price == pays * price + price;
    if k < pays { MulInOrder(k + 1, pays, price); }
    if k > pays { MulInOrder(pays + 1, k, price); }
  }

  lemma OnlyTheLastPicture(slot: Slot, listPrice: nat, price: nat, pays: nat, rest: nat)
    requires slot.budget == pays * price + rest && rest < price
    ensures SomeGateLeavesTooLittle(slot, listPrice, price, 0) <==> 1 <= pays <= Attempts(slot) && rest >= listPrice
  {
    UsesTheCapUp(pays, slot.budget, listPrice, price, pays, rest);
    if SomeGateLeavesTooLittle(slot, listPrice, price, 0) {
      var k :| 1 <= k <= Attempts(slot) && LeavesTooLittle(k, slot.budget, listPrice, price, 0);
      UsesTheCapUp(k, slot.budget, listPrice, price, pays, rest);
    }
  }

  lemma FreeLooks(slot: Slot, listPrice: nat, price: nat, pays: nat, rest: nat)
    requires slot.budget > 0 && slot.budget == pays * price + rest && rest < price
    ensures KeepsTheCap(slot, listPrice, price, 0) <==> pays == 0 || pays > Attempts(slot) || rest < listPrice
  {
    RetryKeepsTheCapExactly(slot, listPrice, price, 0);
    OnlyTheLastPicture(slot, listPrice, price, pays, rest);
  }

  /** With free looks only the gate that uses the cap up can: it is whether the cap pays for no
      picture, or for more than the attempts, or leaves over less than the list price. */
  lemma RetryKeepsTheCapWithFreeLooks(slot: Slot, listPrice: nat, price: nat)
    requires slot.budget > 0 && price > 0
    ensures KeepsTheCap(slot, listPrice, price, 0)
            <==> (slot.budget / price == 0 || slot.budget / price > Attempts(slot) || slot.budget % price < listPrice)
  {
    Divided(slot.budget, price);
    FreeLooks(slot, listPrice, price, slot.budget / price, slot.budget % price);
  }

  // ------------------------------------------------------------------ the price list

  /** The names `imagegen_provider` may take, and what one call to each is listed at: the setting
      where there is one, `DEFAULT_COST_MICROS` where there is none. Only the mock has no price. */
  datatype Provider = Mock | Fal | Replicate | Bfl | OpenAI

  function PriceMicros(provider: Provider, setting: nat): nat {
    if setting != 0 then setting
    else match provider
      case Mock => 0
      case Fal => 50000
      case Replicate => 30000
      case Bfl => 44000
      case OpenAI => 288300
  }

  ghost predicate PricedAtMost(vendor: Vendor, price: nat) {
    forall i: nat :: vendor(i).Picture? ==> vendor(i).cost <= price
  }

  /** Whatever each reply charges, a call starts with something left of the cap. */
  lemma {:induction false} RunWithin(slot: Slot, vendor: Vendor, n: nat, cost: nat, perCall: nat,
                                     rejections: seq<Rejection>, price: nat, fee: nat)
    requires PricedAtMost(vendor, price) && LooksCostAtMost(vendor, fee)
    requires 1 <= n <= Attempts(slot) && cost < slot.budget && perCall > 0
    ensures Run(slot, vendor, n, cost, perCall, rejections).cost < slot.budget + price + LookFee(slot, fee)
    decreases Attempts(slot) - n
  {
    var a := vendor(n);
    if a.Picture? {
      var j, per := Judge(slot, a, cost, Last(slot, n, cost, perCall)), Learned(a, perCall);
      if !j.blind && j.rejection.Some? && n != Attempts(slot) && !CapReached(slot, j.cost, per) {
        RunWithin(slot, vendor, n + 1, j.cost, per, rejections + [j.rejection.value], price, fee);
      }
    }
  }

  /** However stale the price list is, and whatever each picture turns out to cost, a slide with a
      real vendor passes its cap by less than one picture and one look: every one of them has a list
      price, so what is left of a cap is never 0, which would be no cap, and the retry it starts is
      held to it. */
  lemma OverrunIsUnderOnePicture(provider: Provider, setting: nat, slot: Slot, vendor: Vendor, again: Vendor,
                                 price: nat, fee: nat)
    requires provider != Mock && slot.budget > 0
    requires PricedAtMost(vendor, price) && LooksCostAtMost(vendor, fee)
    requires PricedAtMost(again, price) && LooksCostAtMost(again, fee)
    ensures CostWithRetry(slot, vendor, again, PriceMicros(provider, setting))
            < slot.budget + price + LookFee(slot, fee)
  {
    var listPrice := PriceMicros(provider, setting);
    RunWithin(slot, vendor, 1, 0, listPrice, [], price, fee);
    var gate := Generated(slot, vendor, listPrice);
    var left := LeftToBuy(slot, gate.cost, listPrice);
    if gate.Accepted? && left.Some? {
      RunWithin(slot.(budget := left.value), again, 1, 0, listPrice, [], price, fee);
    }
  }

  /** The shipped settings: six attempts, 900 000 micro-dollars, looks of some 5 800 by the
      settings' own estimate. Only OpenAI reports what a picture really cost, so only its price can
      differ from the listed 288 300. */
  const DEFAULT_ATTEMPTS := 6
  const DEFAULT_BUDGET: nat := 900000
  const ESTIMATED_LOOK: nat := 5800

  /** Within them one call can leave too little, or two, and never three. */
  predicate DefaultsFail(price: nat, fee: nat) {
    288300 < price
    && ((price <= 611700 && 2 * price + fee > DEFAULT_BUDGET)
        || (price <= 305850 && 3 * price + 2 * fee > DEFAULT_BUDGET))
  }

  lemma DefaultCalls(k: nat, price: nat, fee: nat)
    requires k >= 1
    ensures LeavesTooLittle(k, DEFAULT_BUDGET, 288300, price, fee) ==> k <= 2 && DefaultsFail(price, fee)
  {
    if k >= 3 { MulInOrder(3, k, price); }
  }

  lemma DefaultCallsHappen(price: nat, fee: nat)
    requires DefaultsFail(price, fee)
    ensures exists k :: 1 <= k <= DEFAULT_ATTEMPTS && LeavesTooLittle(k, DEFAULT_BUDGET, 288300, price, fee)
  {
    if price <= 611700 && 2 * price + fee > DEFAULT_BUDGET {
      assert LeavesTooLittle(1, DEFAULT_BUDGET, 288300, price, fee);
    } else {
      assert LeavesTooLittle(2, DEFAULT_BUDGET, 288300, price, fee);
    }
  }

  /** With them, for every real price and every price of a look: the cap and one look are kept unless
      the real price is in one of two bands, from a little under a third of the cap to a little over
      it, and from a little under a half of it to two thirds. */
  lemma DefaultsKeepTheCapExactly(position: int, price: nat, fee: nat)
    requires price > 0
    ensures KeepsTheCap(Slot(DEFAULT_ATTEMPTS, DEFAULT_BUDGET, true, position), PriceMicros(OpenAI, 0), price, fee)
            <==> !DefaultsFail(price, fee)
    ensures DefaultsFail(price, ESTIMATED_LOOK) <==> 296134 <= price <= 305850 || 447101 <= price <= 611700
  {
    var slot := Slot(DEFAULT_ATTEMPTS, DEFAULT_BUDGET, true, position);
    RetryKeepsTheCapExactly(slot, PriceMicros(OpenAI, 0), price, fee);
    if DefaultsFail(price, fee) {
      DefaultCallsHappen(price, fee);
    } else if SomeGateLeavesTooLittle(slot, 288300, price, fee) {
      var k :| 1 <= k <= Attempts(slot) && LeavesTooLittle(k, slot.budget, 288300, price, fee);
      DefaultCalls(k, price, fee);
    }
  }

  // ------------------------------------------------------------------ the promise and the retry

  ghost function CallsWithRetry(slot: Slot, vendor: Vendor, again: Vendor, price: nat): nat {
    var gate := Generated(slot, vendor, price);
    var retry := Bought(slot, gate.cost, again, price);
    Calls(gate) + (if gate.Accepted? && retry.Some? then Calls(retry.value) else 0)
  }

  lemma SharedCap(c: nat, spent: nat, d: nat, price: nat, budget: nat)
    requires price > 0 && c * price <= spent && spent + price <= budget
    requires d <= MaxInt(1, (budget - spent) / price)
    ensures c + d <= budget / price
  {
    FitsTimes(1, price, budget - spent);
    FitsTimes(d, price, budget - spent);
    assert (c + d) * price == c * price + d * price;
    FitsTimes(c + d, price, budget);
  }

  /** The gate and its retry spend at least a picture a call, and never past the cap. */
  lemma CallsFitTheCap(slot: Slot, vendor: Vendor, again: Vendor, price: nat)
    requires slot.budget > 0 && price > 0
    requires PricedAtLeast(vendor, price) && PricedAtLeast(again, price)
    ensures CallsWithRetry(slot, vendor, again, price)
            <= MaxInt(Calls(Generated(slot, vendor, price)), slot.budget / price)
  {
    RunBound(slot, vendor, 1, 0, price, [], price);
    var gate := Generated(slot, vendor, price);
    var left := LeftToBuy(slot, gate.cost, price);
    if gate.Accepted? && left.Some? {
      var second := slot.(budget := left.value);
      RunBound(second, again, 1, 0, price, [], price);
      SharedCap(Calls(gate), gate.cost, Calls(Generated(second, again, price)), price, slot.budget);
    }
  }

  /** When the cap, not the count, is what stops the gate, the calls quoted by paid_attempts cover
      the corrected retry as well. */
  lemma RetryWithinPromise(slot: Slot, vendor: Vendor, again: Vendor, price: nat)
    requires slot.budget > 0 && price > 0 && slot.budget / price <= Attempts(slot)
    requires PricedAtLeast(vendor, price) && PricedAtLeast(again, price)
    ensures CallsWithRetry(slot, vendor, again, price) <= PaidAttempts(slot.attempts, slot.budget, price)
  {
    GateWithinPaidAttempts(slot, vendor, price, price);
    CallsFitTheCap(slot, vendor, again, price);
  }

  lemma CapLeavesRoom(slot: Slot, price: nat)
    requires slot.budget == 0 || price == 0 || slot.budget / price > Attempts(slot)
    ensures PaidAttempts(slot.attempts, slot.budget, price) == Attempts(slot)
    ensures var left := LeftToBuy(slot, price, price);
            left.Some? && PaidAttempts(slot.attempts, left.value, price) == Attempts(slot)
  {
    if slot.budget > 0 && price > 0 {
      FitsTimes(2, price, slot.budget);
      DivPlus(slot.budget - price, price);
    }
  }

  /** Otherwise -- no cap, no price, or a cap that pays for more pictures than the count allows --
      a slide whose first picture passes the gate and fails the final check can make one call more
      than paid_attempts, the number the quoted minutes are built on, says. */
  lemma RetryBreaksPromise(slot: Slot, price: nat)
    requires slot.budget == 0 || price == 0 || slot.budget / price > Attempts(slot)
    ensures CallsWithRetry(slot, PassesAt(1, price), NeverPasses(price), price)
            == PaidAttempts(slot.attempts, slot.budget, price) + 1
  {
    assert Generated(slot, PassesAt(1, price), price) == Accepted(price, []);
    CapLeavesRoom(slot, price);
    var left := slot.(budget := LeftToBuy(slot, price, price).value);
    PaidAttemptsExact(left, NeverPasses(price), price, price);
  }

  /** So the quoted calls cover the gate and its corrected retry, for every vendor that charges at
      least its list price, if and only if there is a cap, a price, and the cap pays for no more
      pictures than the count. */
  lemma PromiseCoversTheRetryExactly(slot: Slot, price: nat)
    ensures (forall vendor: Vendor, again: Vendor :: PricedAtLeast(vendor, price) && PricedAtLeast(again, price) ==>
               CallsWithRetry(slot, vendor, again, price) <= PaidAttempts(slot.attempts, slot.budget, price))
            <==> slot.budget > 0 && price > 0 && slot.budget / price <= Attempts(slot)
  {
    if slot.budget > 0 && price > 0 && slot.budget / price <= Attempts(slot) {
      forall vendor: Vendor, again: Vendor | PricedAtLeast(vendor, price) && PricedAtLeast(again, price)
        ensures CallsWithRetry(slot, vendor, again, price) <= PaidAttempts(slot.attempts, slot.budget, price)
      {
        RetryWithinPromise(slot, vendor, again, price);
      }
    } else {
      RetryBreaksPromise(slot, price);
      assert PricedAtLeast(PassesAt(1, price), price) && PricedAtLeast(NeverPasses(price), price);
    }
  }

  // ------------------------------------------------------------------ duplicates

  /** From call n on no picture costs more than the one before it; one that costs nothing leaves
      the price as it was. */
  ghost predicate NeverDearer(vendor: Vendor, n: nat, perCall: nat) {
    && (forall i: nat :: n <= i && vendor(i).Picture? ==> vendor(i).cost <= perCall)
    && (forall i: nat, j: nat :: n <= i < j && vendor(i).Picture? && vendor(j).Picture? && vendor(i).cost > 0 ==>
          vendor(j).cost <= vendor(i).cost)
  }

  predicate EndsOnDuplicate(r: Result) {
    r.Exhausted? && r.rejections != [] && r.rejections[|r.rejections| - 1] == DuplicateOfEarlierSlide
  }

  lemma {:induction false} DuplicateNeverLast(slot: Slot, vendor: Vendor, n: nat, cost: nat, perCall: nat,
                                              rejections: seq<Rejection>)
    requires NeverDearer(vendor, n, perCall) && 1 <= n <= Attempts(slot)
    ensures !EndsOnDuplicate(Run(slot, vendor, n, cost, perCall, rejections))
    decreases Attempts(slot) - n
  {
    var a := vendor(n);
    if a.Picture? {
      var j, per := Judge(slot, a, cost, Last(slot, n, cost, perCall)), Learned(a, perCall);
      if !j.blind && j.rejection.Some? && n != Attempts(slot) && !CapReached(slot, j.cost, per) {
        DuplicateNeverLast(slot, vendor, n + 1, j.cost, per, rejections + [j.rejection.value]);
      }
    }
  }

  /** While prices never rise above the list price or the price before, a duplicate is never what
      exhausts a slide: whenever the register asks for another picture, the forecast made before the
      call guarantees there is money and a turn for one. */
  lemma DuplicateAlwaysRerolled(slot: Slot, vendor: Vendor, listPrice: nat)
    requires NeverDearer(vendor, 1, listPrice)
    ensures !EndsOnDuplicate(Generated(slot, vendor, listPrice))
  {
    DuplicateNeverLast(slot, vendor, 1, 0, listPrice, []);
  }

  /** A vendor that always sends the picture the slide before has on the register. */
  function Copies(slot: Slot, price: nat): Vendor {
    (i: nat) => Picture(price, false, Some(0), map[slot.position - 1 := 0], FREE_PASS)
  }

  /** The slides of a job are numbered from 1, and so is what they record. */
  ghost predicate RealPositions(vendor: Vendor) {
    forall i: nat, p: int :: vendor(i).Picture? && p in vendor(i).others ==> p >= 1
  }

  lemma CopyRejected(slot: Slot, price: nat)
    ensures Registered(Copies(slot, price)(1).others, slot.position, Some(0), false).0
  {
    var others := map[slot.position - 1 := 0 as nat];
    assert slot.position - 1 in others && others[slot.position - 1] == 0 && Distance(0, 0) == 0;
    assert RepeatsEarlier(others, slot.position, 0);
  }

  /** The forecast, exactly. A vendor whose every picture costs `price` can have a slide fail on a
      duplicate if and only if there is an earlier slide, a cap and a second attempt, and the cap
      pays for two pictures at the list price but not for two at the real one: the list price is
      stale. */
  lemma DuplicateFailsExactly(slot: Slot, listPrice: nat, price: nat)
    ensures (exists vendor: Vendor :: ConstantPrice(vendor, price) && RealPositions(vendor)
                                      && EndsOnDuplicate(Generated(slot, vendor, listPrice)))
            <==> slot.position > 1 && slot.budget != 0 && Attempts(slot) > 1 && 2 * listPrice <= slot.budget < 2 * price
  {
    if slot.position > 1 && slot.budget != 0 && Attempts(slot) > 1 && 2 * listPrice <= slot.budget < 2 * price {
      var vendor := Copies(slot, price);
      CopyRejected(slot, price);
      assert Generated(slot, vendor, listPrice) == Exhausted(price, [DuplicateOfEarlierSlide]);
      assert ConstantPrice(vendor, price) && RealPositions(vendor);
    } else {
      forall vendor: Vendor | ConstantPrice(vendor, price) && RealPositions(vendor)
        ensures !EndsOnDuplicate(Generated(slot, vendor, listPrice))
      {
        if slot.position > 1 {
          NoDuplicateOutside(slot, vendor, listPrice, price);
        } else {
          FirstSlideRepeatsNone(slot, vendor, 1, 0, listPrice, []);
        }
      }
    }
  }

  /** Nothing on the register is earlier than the first slide, or than a single post. */
  lemma {:induction false} FirstSlideRepeatsNone(slot: Slot, vendor: Vendor, n: nat, cost: nat, perCall: nat,
                                                 rejections: seq<Rejection>)
    requires RealPositions(vendor) && slot.position <= 1 && 1 <= n <= Attempts(slot)
    ensures !EndsOnDuplicate(Run(slot, vendor, n, cost, perCall, rejections))
    decreases Attempts(slot) - n
  {
    var a := vendor(n);
    if a.Picture? {
      var j, per := Judge(slot, a, cost, Last(slot, n, cost, perCall)), Learned(a, perCall);
      if !j.blind && j.rejection.Some? && n != Attempts(slot) && !CapReached(slot, j.cost, per) {
        FirstSlideRepeatsNone(slot, vendor, n + 1, j.cost, per, rejections + [j.rejection.value]);
      }
    }
  }

  lemma NoDuplicateOutside(slot: Slot, vendor: Vendor, listPrice: nat, price: nat)
    requires ConstantPrice(vendor, price)
    requires !(slot.budget != 0 && Attempts(slot) > 1 && 2 * listPrice <= slot.budget < 2 * price)
    ensures !EndsOnDuplicate(Generated(slot, vendor, listPrice))
  {
    var a := vendor(1);
    if a.Picture? {
      var j, per := Judge(slot, a, 0, Last(slot, 1, 0, listPrice)), Learned(a, listPrice);
      if !j.blind && j.rejection.Some? && 1 != Attempts(slot) && !CapReached(slot, j.cost, per) {
        assert NeverDearer(vendor, 2, per);
        DuplicateNeverLast(slot, vendor, 2, j.cost, per, [] + [j.rejection.value]);
      }
    }
  }

  /** An instance at the shipped settings: OpenAI listed at 288 300, and a second slide whose first
      picture really costs 460 000. With the list price brought up to date the forecast lets the same
      picture through. */
  lemma StalePriceDefeatsTheForecast()
    ensures var slot := Slot(DEFAULT_ATTEMPTS, DEFAULT_BUDGET, true, 2);
            && EndsOnDuplicate(Generated(slot, Copies(slot, 460000), PriceMicros(OpenAI, 0)))
            && Generated(slot, Copies(slot, 460000), PriceMicros(OpenAI, 460000)) == Accepted(460000, [])
  {
    CopyRejected(Slot(DEFAULT_ATTEMPTS, DEFAULT_BUDGET, true, 2), 460000);
  }

  // ------------------------------------------------------------------ the order of arrival

  /** One slide's turn at the register, and what the register remembers of it. */
  datatype Turn = Turn(position: int, hash: Option<nat>, force: bool)
  datatype Kept = Kept(hash: nat, forced: bool, at: nat)

  function Hashes(kept: map<int, Kept>): map<int, nat> {
    map p | p in kept :: kept[p].hash
  }

  /** What the register holds after some turns, in whatever order the slides took them. */
  function Recorded(turns: seq<Turn>): map<int, nat> {
    if turns == [] then map[]
    else
      var t := turns[|turns| - 1];
      Registered(Recorded(turns[..|turns| - 1]), t.position, t.hash, t.force).1
  }

  /** The same, with which turn each hash is from and whether it was forced. */
  function AfterTurns(turns: seq<Turn>): map<int, Kept> {
    if turns == [] then map[]
    else
      var n := |turns| - 1;
      var before := AfterTurns(turns[..n]);
      var t := turns[n];
      if t.hash.None? || Registered(Hashes(before), t.position, t.hash, t.force).0 then before
      else before[t.position := Kept(t.hash.value, t.force, n)]
  }

  lemma {:induction false} AfterTurnsIsRecorded(turns: seq<Turn>)
    ensures Hashes(AfterTurns(turns)) == Recorded(turns)
  {
    if turns != [] { AfterTurnsIsRecorded(turns[..|turns| - 1]); }
  }

  lemma {:induction false} KeptEarlier(turns: seq<Turn>)
    ensures forall p :: p in AfterTurns(turns) ==> AfterTurns(turns)[p].at < |turns|
  {
    if turns != [] { KeptEarlier(turns[..|turns| - 1]); }
  }

  lemma {:induction false} TwinsAreForcedOrLate(turns: seq<Turn>, a: int, b: int)
    requires a in AfterTurns(turns) && b in AfterTurns(turns) && a < b
    ensures var kept := AfterTurns(turns);
            Distance(kept[b].hash, kept[a].hash) <= DUPLICATE_DISTANCE ==> kept[b].forced || kept[b].at < kept[a].at
  {
    var n := |turns| - 1;
    var before := AfterTurns(turns[..n]);
    var kept := AfterTurns(turns);
    KeptEarlier(turns[..n]);
    if kept[a].at != n && kept[b].at != n {
      TwinsAreForcedOrLate(turns[..n], a, b);
    } else if kept[b].at == n && a in before {
      assert Hashes(before)[a] == before[a].hash;
    }
  }

  /** Over every order in which the slides of a job use the register: two pictures within the
      duplicate distance are both on it only if the later slide's was kept by force, or the
      earlier slide's arrived afterwards. */
  lemma TwinsOnTheRegister(turns: seq<Turn>, a: int, b: int)
    requires a in Recorded(turns) && b in Recorded(turns) && a < b
    ensures var kept := AfterTurns(turns);
            && a in kept && b in kept && kept[a].hash == Recorded(turns)[a] && kept[b].hash == Recorded(turns)[b]
            && (Distance(Recorded(turns)[b], Recorded(turns)[a]) <= DUPLICATE_DISTANCE ==>
                  kept[b].forced || kept[b].at < kept[a].at)
  {
    AfterTurnsIsRecorded(turns);
    var kept := AfterTurns(turns);
    assert a in Hashes(kept) && b in Hashes(kept);
    TwinsAreForcedOrLate(turns, a, b);
  }

  /** The second exception happens: the register only looks back, so when slide 2 lands first and
      slide 1 then returns the same picture, both keep it. */
  lemma LateEarlierSlideKeepsItsTwin(h: nat)
    ensures Recorded([Turn(2, Some(h), false), Turn(1, Some(h), false)]) == map[2 := h, 1 := h]
  {
    var turns := [Turn(2, Some(h), false), Turn(1, Some(h), false)];
    assert turns[..1] == [turns[0]] && turns[..1][..0] == [];
    assert Recorded(turns[..1]) == map[2 := h];
  }
}
