/**
 The shared cost ledger of `api_cost.py`. Every locked step is atomic, so the work of
 many workers is a sequence of steps; money is exact.
 */
module BudgetLedger {

  datatype Model = Luna | Terra | Sol | Astra | UnknownModel

  datatype Error = UnknownRate | NegativeCount | BudgetExhausted | ReservationMismatch

  datatype Outcome<+T> = Ok(value: T) | Raised(error: Error)

  // Dollars per million input and output tokens.
  function Rates(m: Model): (real, real)
    requires m != UnknownModel
  {
    match m
    case Luna => (0.10, 0.50)
    case Terra => (1.00, 5.00)
    case Sol => (2.00, 10.00)
    case Astra => (10.00, 50.00)
  }

  function CostUsd(m: Model, input: int, output: int): (c: Outcome<real>)
    ensures c.Ok? <==> m != UnknownModel && input >= 0 && output >= 0
    ensures c.Ok? ==> c.value >= 0.0
  {
    if m == UnknownModel then Raised(UnknownRate)
    else if input < 0 || output < 0 then Raised(NegativeCount)
    else Ok((input as real * Rates(m).0 + output as real * Rates(m).1) / 1000000.0)
  }

  lemma CostIsMonotone(m: Model, input: nat, output: nat, input': nat, output': nat)
    requires m != UnknownModel && input <= input' && output <= output'
    ensures CostUsd(m, input, output).value <= CostUsd(m, input', output').value
  {
  }

  // A million tokens of either kind cost their rate, and costs add up.
  lemma CostIsLinear(m: Model, input: nat, output: nat, input': nat, output': nat)
    requires m != UnknownModel
    ensures CostUsd(m, 1000000, 0) == Ok(Rates(m).0) && CostUsd(m, 0, 1000000) == Ok(Rates(m).1)
    ensures CostUsd(m, input + input', output + output').value
            == CostUsd(m, input, output).value + CostUsd(m, input', output').value
  {
    var (a, b) := Rates(m);
    assert (input + input') as real * a == input as real * a + input' as real * a;
    assert (output + output') as real * b == output as real * b + output' as real * b;
  }

  /******* One locked step *******/

  datatype Ledger = Ledger(spent: real, pending: real, reserved: nat, accounted: nat)

  // The `usage` of a response: a record with two counts, either of which may not be an
  // integer, or something else.
  datatype Count = Tokens(n: int) | NotAnInteger
  datatype Usage = Usage(input: Count, output: Count) | NoRecord

  predicate Verifiable(u: Usage) {
    u.Usage? && u.input.Tokens? && u.output.Tokens? && u.input.n >= 0 && u.output.n >= 0
  }

  function Reservation(m: Model, body: nat, limit: int): Outcome<real> {
    CostUsd(m, body + 1024, limit)
  }

  function Reserved(l: Ledger, maximum: real, m: Model, body: nat, limit: int): (Ledger, Outcome<real>) {
    var r := Reservation(m, body, limit);
    if r.Raised? then (l, r)
    else if l.spent + l.pending + r.value > maximum then (l, Raised(BudgetExhausted))
    else (l.(pending := l.pending + r.value, reserved := l.reserved + 1), r)
  }

  function Settled(l: Ledger, m: Model, reservation: real, u: Usage): (Ledger, Outcome<bool>) {
    if !Verifiable(u) then (l, Ok(false))
    else
      var charged := CostUsd(m, u.input.n, u.output.n);
      if charged.Raised? then (l, Raised(charged.error))
      else if l.pending < reservation then (l, Raised(ReservationMismatch))
      else (l.(pending := l.pending - reservation, spent := l.spent + charged.value, accounted := l.accounted + 1),
            Ok(true))
  }

  class Budget {
    const maximum: real
    var spent: real
    var pending: real
    var reserved: nat
    var accounted: nat

    ghost function Contents(): Ledger
      reads this
    {
      Ledger(spent, pending, reserved, accounted)
    }

    constructor (maximum: real)
      ensures this.maximum == maximum && Contents() == Ledger(0.0, 0.0, 0, 0)
    {
      this.maximum := maximum;
      spent, pending, reserved, accounted := 0.0, 0.0, 0, 0;
    }

    method Reserve(m: Model, body: nat, limit: int) returns (r: Outcome<real>)
      modifies this
      ensures (Contents(), r) == Reserved(old(Contents()), maximum, m, body, limit)
    {
      r := Reservation(m, body, limit);
      if r.Ok? {
        if spent + pending + r.value > maximum {
          return Raised(BudgetExhausted);
        }
        pending := pending + r.value;
        reserved := reserved + 1;
      }
    }

    method Settle(m: Model, reservation: real, u: Usage) returns (r: Outcome<bool>)
      modifies this
      ensures (Contents(), r) == Settled(old(Contents()), m, reservation, u)
    {
      if !Verifiable(u) {
        return Ok(false);
      }
      var charged := CostUsd(m, u.input.n, u.output.n);
      if charged.Raised? {
        return Raised(charged.error);
      }
      if pending < reservation {
        return Raised(ReservationMismatch);
      }
      pending := pending - reservation;
      spent := spent + charged.value;
      accounted := accounted + 1;
      return Ok(true);
    }
  }

  /******* Interleavings *******/

  // A granted reservation that has not been settled.
  datatype Ticket = Ticket(model: Model, body: nat, limit: int, amount: real)

  // A step of some worker. A settlement names an open ticket, so none is settled twice.
  datatype Step =
    | Reserve(model: Model, body: nat, limit: int)
    | Settle(ticket: nat, usage: Usage)

  // The ledger, its open tickets, and everything charged so far.
  datatype System = System(ledger: Ledger, open: seq<Ticket>, charged: real)

  function Total(open: seq<Ticket>): real {
    if open == [] then 0.0 else Total(open[..|open| - 1]) + open[|open| - 1].amount
  }

  function Without(open: seq<Ticket>, i: nat): seq<Ticket>
    requires i < |open|
  {
    open[..i] + open[i + 1..]
  }

  function Next(s: System, maximum: real, step: Step): System {
    match step
    case Reserve(m, body, limit) =>
      var (ledger, r) := Reserved(s.ledger, maximum, m, body, limit);
      if r.Ok? then System(ledger, s.open + [Ticket(m, body, limit, r.value)], s.charged) else s
    case Settle(i, usage) =>
      if i >= |s.open| then s
      else
        var t := s.open[i];
        var (ledger, r) := Settled(s.ledger, t.model, t.amount, usage);
        if r == Ok(true) then System(ledger, Without(s.open, i),
                                     s.charged + CostUsd(t.model, usage.input.n, usage.output.n).value)
        else s.(ledger := ledger)
  }

  function After(maximum: real, steps: seq<Step>): System {
    if steps == [] then System(Ledger(0.0, 0.0, 0, 0), [], 0.0)
    else Next(After(maximum, steps[..|steps| - 1]), maximum, steps[|steps| - 1])
  }

  ghost predicate IsPriced(t: Ticket) {
    t.model != UnknownModel && t.limit >= 0 && Reservation(t.model, t.body, t.limit) == Ok(t.amount)
  }

  // Conservation: pending is what the open tickets hold, spent what was charged, and
  // every reservation is either open or accounted for.
  ghost predicate Conserved(s: System) {
    && s.ledger.pending == Total(s.open) && s.ledger.spent == s.charged
    && s.ledger.reserved == s.ledger.accounted + |s.open|
    && forall t :: t in s.open ==> IsPriced(t)
  }

  lemma {:induction false} TotalIsNonNegative(open: seq<Ticket>)
    requires forall t :: t in open ==> t.amount >= 0.0
    ensures Total(open) >= 0.0
    ensures forall t :: t in open ==> t.amount <= Total(open)
  {
    if open != [] {
      var front, last := open[..|open| - 1], open[|open| - 1];
      assert open == front + [last];
      TotalIsNonNegative(front);
    }
  }

  lemma {:induction false} TotalWithout(open: seq<Ticket>, i: nat)
    requires i < |open|
    ensures Total(Without(open, i)) == Total(open) - open[i].amount
  {
    var front, last := open[..|open| - 1], |open| - 1;
    if i == last {
      assert Without(open, i) == front;
    } else {
      TotalWithout(front, i);
      assert Without(open, i)[..last - 1] == Without(front, i);
    }
  }

  lemma ReserveConserves(s: System, maximum: real, m: Model, body: nat, limit: int)
    requires Conserved(s)
    ensures Conserved(Next(s, maximum, Reserve(m, body, limit)))
  {
    var (ledger, r) := Reserved(s.ledger, maximum, m, body, limit);
    if r.Ok? {
      var t := Ticket(m, body, limit, r.value);
      assert (s.open + [t])[..|s.open|] == s.open;
    }
  }

  lemma SettleConserves(s: System, maximum: real, i: nat, usage: Usage)
    requires Conserved(s)
    ensures Conserved(Next(s, maximum, Settle(i, usage)))
  {
    if i < |s.open| {
      TotalWithout(s.open, i);
      assert forall t :: t in Without(s.open, i) ==> t in s.open;
    }
  }

  lemma StepConserves(s: System, maximum: real, step: Step)
    requires Conserved(s)
    ensures Conserved(Next(s, maximum, step))
  {
    match step
    case Reserve(m, body, limit) => ReserveConserves(s, maximum, m, body, limit);
    case Settle(i, usage) => SettleConserves(s, maximum, i, usage);
  }

  // Main result: every interleaving conserves; accounted never exceeds reserved.
  lemma {:induction false} EveryRunConserves(maximum: real, steps: seq<Step>)
    ensures Conserved(After(maximum, steps))
    ensures After(maximum, steps).ledger.accounted <= After(maximum, steps).ledger.reserved
  {
    if steps != [] {
      EveryRunConserves(maximum, steps[..|steps| - 1]);
      StepConserves(After(maximum, steps[..|steps| - 1]), maximum, steps[|steps| - 1]);
    }
  }

  // An open ticket can always be settled with a verifiable usage: the mismatch error
  // needs a settlement no worker of such a run makes.
  lemma OpenTicketsSettle(maximum: real, steps: seq<Step>, i: nat, usage: Usage)
    requires i < |After(maximum, steps).open| && Verifiable(usage)
    ensures var s := After(maximum, steps);
            Settled(s.ledger, s.open[i].model, s.open[i].amount, usage).1 == Ok(true)
  {
    EveryRunConserves(maximum, steps);
    var s := After(maximum, steps);
    assert s.open[i] in s.open;
    TotalIsNonNegative(s.open);
  }

  // In every run a reservation is granted exactly when the model is known, the limit no negative
  // number, and its estimate fits beside what was charged and what the open tickets hold.
  lemma GrantedExactly(maximum: real, steps: seq<Step>, m: Model, body: nat, limit: int)
    ensures var s := After(maximum, steps);
            var after := Next(s, maximum, Reserve(m, body, limit));
            if m != UnknownModel && limit >= 0
               && s.charged + Total(s.open) + CostUsd(m, body + 1024, limit).value <= maximum
            then after.open == s.open + [Ticket(m, body, limit, CostUsd(m, body + 1024, limit).value)]
                 && after.charged == s.charged
            else after == s
  {
    EveryRunConserves(maximum, steps);
  }

  /******* The cap *******/

  ghost predicate WithinCap(s: System, maximum: real) {
    s.ledger.spent + s.ledger.pending <= maximum
  }

  // The usage stays within what its reservation was estimated for.
  predicate WithinEstimate(t: Ticket, u: Usage) {
    Verifiable(u) ==> u.input.n <= t.body + 1024 && u.output.n <= t.limit
  }

  // Every settlement of the run uses no more than estimated.
  ghost predicate Honest(maximum: real, steps: seq<Step>) {
    forall k :: 0 <= k < |steps| && steps[k].Settle? ==>
      var s := After(maximum, steps[..k]);
      steps[k].ticket < |s.open| ==> WithinEstimate(s.open[steps[k].ticket], steps[k].usage)
  }

  // What settling the ticket with the usage charges.
  function Charge(t: Ticket, usage: Usage): real
    requires IsPriced(t) && Verifiable(usage)
  {
    CostUsd(t.model, usage.input.n, usage.output.n).value
  }

  // A settlement keeps the cap exactly when the charge fits into its reservation plus
  // what was still free.
  lemma SettlementKeepsCapExactly(s: System, maximum: real, i: nat, t: Ticket, usage: Usage)
    requires Conserved(s) && i < |s.open| && s.open[i] == t && IsPriced(t) && Verifiable(usage)
    ensures WithinCap(Next(s, maximum, Settle(i, usage)), maximum)
            <==> Charge(t, usage) <= t.amount + (maximum - s.ledger.spent - s.ledger.pending)
  {
    assert t in s.open;
    TotalIsNonNegative(s.open);
  }

  // A state in which the ticket is open and the cap is kept.
  ghost predicate Holds(s: System, maximum: real, i: nat, t: Ticket) {
    Conserved(s) && WithinCap(s, maximum) && i < |s.open| && s.open[i] == t
  }

  // Whatever else is going on, a usage is safe to settle exactly when its charge fits the
  // ticket: only then no state within the cap is taken beyond it.
  lemma FittingChargesAreSafeExactly(t: Ticket, usage: Usage, maximum: real)
    requires IsPriced(t) && Verifiable(usage) && t.amount <= maximum
    ensures (forall s, i: nat :: Holds(s, maximum, i, t) ==> WithinCap(Next(s, maximum, Settle(i, usage)), maximum))
            <==> Charge(t, usage) <= t.amount
  {
    var full := System(Ledger(maximum - t.amount, t.amount, 1, 0), [t], maximum - t.amount);
    assert [t][..0] == [];
    assert Holds(full, maximum, 0, t);
    SettlementKeepsCapExactly(full, maximum, 0, t, usage);
    forall s, i: nat | Holds(s, maximum, i, t)
      ensures WithinCap(Next(s, maximum, Settle(i, usage)), maximum)
              <==> Charge(t, usage) <= t.amount + (maximum - s.ledger.spent - s.ledger.pending)
    {
      SettlementKeepsCapExactly(s, maximum, i, t, usage);
    }
  }

  // Main result: with honest usages no interleaving ever exceeds the maximum.
  lemma {:induction false} HonestRunsStayWithinCap(maximum: real, steps: seq<Step>)
    requires maximum >= 0.0 && Honest(maximum, steps)
    ensures WithinCap(After(maximum, steps), maximum)
  {
    if steps != [] {
      var front, k := steps[..|steps| - 1], |steps| - 1;
      assert Honest(maximum, front) by {
        forall j | 0 <= j < k
          ensures front[..j] == steps[..j] && front[j] == steps[j]
        {
        }
      }
      HonestRunsStayWithinCap(maximum, front);
      EveryRunConserves(maximum, front);
      var s := After(maximum, front);
      if steps[k].Settle? && steps[k].ticket < |s.open| && Verifiable(steps[k].usage) {
        var t, u := s.open[steps[k].ticket], steps[k].usage;
        assert t in s.open;
        CostIsMonotone(t.model, u.input.n, u.output.n, t.body + 1024, t.limit);
        SettlementKeepsCapExactly(s, maximum, steps[k].ticket, t, u);
      }
    }
  }

  // A response that bills more output than its limit breaks the cap.
  lemma OverrunBreaksCap()
    ensures var s := After(0.0006024, [Reserve(Luna, 0, 1000), Settle(0, Usage(Tokens(0), Tokens(2000)))]);
            s.ledger.spent == 0.001 && !WithinCap(s, 0.0006024)
  {
  }

  // Settling one reservation twice is only noticed when nothing else is pending: it
  // can eat the reservation of another worker.
  lemma SecondSettlementGoesUnnoticed(l: Ledger, m: Model, reservation: real, u: Usage)
    requires Verifiable(u) && m != UnknownModel && reservation >= 0.0
    ensures var (once, first) := Settled(l, m, reservation, u);
            first == Ok(true) ==>
              (Settled(once, m, reservation, u).1 == Ok(true) <==> l.pending >= 2.0 * reservation)
  {
  }

  // Such a run: after two equal reservations the first is settled twice, unnoticed, and then it
  // is the second worker's settlement that fails.
  lemma SecondSettlementHitsAnother(maximum: real, m: Model, body: nat, limit: nat, u: Usage)
    requires m != UnknownModel && Verifiable(u)
    requires 2.0 * Reservation(m, body, limit).value <= maximum
    ensures var r := Reservation(m, body, limit).value;
            var (one, first) := Reserved(Ledger(0.0, 0.0, 0, 0), maximum, m, body, limit);
            var (two, second) := Reserved(one, maximum, m, body, limit);
            var (settled, third) := Settled(two, m, r, u);
            var (again, fourth) := Settled(settled, m, r, u);
            && first == second == Ok(r) && third == fourth == Ok(true)
            && again.pending == 0.0 && again.accounted == again.reserved == 2
            && (r > 0.0 && Settled(again, m, r, u).1 == Raised(ReservationMismatch))
  {
    PositiveEstimate(m, body, limit);
  }

  lemma PositiveEstimate(m: Model, body: nat, limit: nat)
    requires m != UnknownModel
    ensures Reservation(m, body, limit).Ok? && Reservation(m, body, limit).value > 0.0
  {
    CostIsMonotone(m, 1024, 0, body + 1024, limit);
  }
}
