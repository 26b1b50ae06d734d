/** The logic of src/payment.service.ts that does not touch the store: the
    payment record and its status, the fee calculator, the status update of
    one id and of a batch, and the selection and settlement of a payout. The
    class in payment_service.dfy runs these against its fields. */
module Ledger {
  import opened Ids
  import opened Results
  import opened Decimal
  import opened Seqs
  import opened PayoutOrder
  import opened MaximizePayout
  import Shops

  /** `PaymentStatus`: new, processed, unlocked, paid_out. */
  datatype PaymentStatus = New | Processed | Unlocked | PaidOut

  /** `Payment`; `amount` and `amountPaidOut` are decimal strings in the
      source, exact decimals here. */
  datatype Payment = Payment(id: string, shopId: string, amount: real, status: PaymentStatus, amountPaidOut: real)

  /** The failures `PaymentError` is thrown for. */
  datatype PaymentError =
    | ShopNotFound(shopId: string)
    | AmountNotPositive
    | PaymentNotFound(paymentId: string)
    | InvalidStatusTransition(paymentId: string)

  /** The system fees `{ fixedA, percentB, percentBlockD }`. */
  datatype Fees = Fees(fixedA: real, percentB: real, percentBlockD: real)

  /** The fees the configuration starts with: all zero. */
  const DefaultFees: Fees := Fees(0.0, 0.0, 0.0)

  /** What `calculatePayment` returns. */
  datatype Entitlement = Entitlement(id: string, toPayOutAmount: real, availablePayOutAmount: real)

  /** Position of a status on the way new, processed, unlocked, paid_out. */
  function Rank(s: PaymentStatus): nat
  {
    match s
    case New => 0
    case Processed => 1
    case Unlocked => 2
    case PaidOut => 3
  }

  type ShopMap = map<string, Shops.Shop>

  /** Every payment belongs to a stored shop. */
  predicate ShopsKnown(ps: seq<Payment>, shops: ShopMap)
  {
    forall k :: 0 <= k < |ps| ==> ps[k].shopId in shops
  }

  /** No two payments share an id. */
  predicate UniqueIds(ps: seq<Payment>)
  {
    forall i, j :: 0 <= i < j < |ps| ==> ps[i].id != ps[j].id
  }

  /** Payment `k` carries the id the counter gave it, `k + 1`. */
  predicate CounterIds(ps: seq<Payment>)
  {
    forall k :: 0 <= k < |ps| ==> ps[k].id == NatToString(k + 1)
  }

  /** Ids issued by the counter never repeat. */
  lemma CounterIdsUnique(ps: seq<Payment>)
    requires CounterIds(ps)
    ensures UniqueIds(ps)
  {
    forall i, j | 0 <= i < j < |ps| ensures ps[i].id != ps[j].id {
      DistinctCountersDistinctIds(i + 1, j + 1);
    }
  }

  /** With counter-issued ids, an id is found exactly when the counter has
      already handed it out. */
  lemma FindIssuedId(ps: seq<Payment>, id: string)
    ensures CounterIds(ps) ==> (FindIndex(ps, id) < |ps| <==> IssuedBefore(id, |ps| + 1))
  {
    if !CounterIds(ps) {
      return;
    }
    var k := FindIndex(ps, id);
    if k < |ps| {
      assert 1 <= k + 1 < |ps| + 1 && id == NatToString(k + 1);
    }
    if IssuedBefore(id, |ps| + 1) {
      var n: nat :| 1 <= n < |ps| + 1 && id == NatToString(n);
      assert ps[n - 1].id == id;
    }
  }

  // ---------------------------------------------------------------------
  // Lookups

  /** `payments.find(p => p.id === id)`: the position of the first payment
      with that id, or `|ps|` when there is none. */
  function FindIndex(ps: seq<Payment>, id: string): (k: nat)
    ensures k <= |ps|
    ensures k < |ps| ==> ps[k].id == id
    ensures forall j :: 0 <= j < k ==> ps[j].id != id
  {
    if ps == [] then 0
    else if ps[0].id == id then 0
    else 1 + FindIndex(ps[1..], id)
  }

  /** With distinct ids, a payment is found at its own position. */
  lemma FindIndexOfMember(ps: seq<Payment>, j: nat)
    requires UniqueIds(ps) && j < |ps|
    ensures FindIndex(ps, ps[j].id) == j
  {
  }

  /** Two lists with the same ids position by position. */
  predicate SameIds(q: seq<Payment>, ps: seq<Payment>)
  {
    |q| == |ps| && forall j :: 0 <= j < |ps| ==> q[j].id == ps[j].id
  }

  /** `payments.filter(p => p.shopId === shopId)`. */
  function PaymentsOfShop(ps: seq<Payment>, shopId: string): (r: seq<Payment>)
    ensures forall p :: p in r <==> p in ps && p.shopId == shopId
    ensures IsSubsequence(r, ps)
    decreases |ps|
  {
    if ps == [] then []
    else
      var rest := PaymentsOfShop(ps[..|ps| - 1], shopId);
      var p := ps[|ps| - 1];
      assert ps == ps[..|ps| - 1] + [p];
      if p.shopId == shopId then
        assert (rest + [p])[..|rest|] == rest;
        rest + [p]
      else rest
  }

  // ---------------------------------------------------------------------
  // Fee calculator

  /** `Big(rate).times(amount).div(100)`: a percentage of an amount. */
  function Percent(rate: real, amount: real): real
  {
    rate * amount / 100.0
  }

  /** The three deductions from the amount, each rounded to cents on its
      own: the fixed fee, the percentage fee and the shop's commission. */
  function Deductions(p: Payment, commissionC: real, fees: Fees): real
  {
    Round2(fees.fixedA) + Round2(Percent(fees.percentB, p.amount)) + Round2(Percent(commissionC, p.amount))
  }

  /** The rounded block percentage withheld until the payment is unlocked. */
  function Holdback(p: Payment, fees: Fees): real
  {
    Round2(Percent(fees.percentBlockD, p.amount))
  }

  /** `calculatePayment`: the full entitlement is the amount less the
      deductions; the part available now also withholds the holdback unless
      the payment is unlocked. */
  function CalculatePayment(p: Payment, commissionC: real, fees: Fees): (r: Entitlement)
    ensures r.id == p.id
  {
    var toPayOutAmount := p.amount - Deductions(p, commissionC, fees);
    Entitlement(p.id, toPayOutAmount,
                if p.status == Unlocked then toPayOutAmount else toPayOutAmount - Holdback(p, fees))
  }

  /** The entitlement of a payment under its own shop's commission. */
  function EntitlementOf(p: Payment, shops: ShopMap, fees: Fees): (r: Entitlement)
    requires p.shopId in shops
    ensures r.id == p.id
  {
    CalculatePayment(p, shops[p.shopId].commissionC, fees)
  }

  /** The entitlement does not depend on the status or on what was paid out. */
  lemma EntitlementIgnoresProgress(p: Payment, commissionC: real, fees: Fees, s: PaymentStatus, paid: real)
    ensures CalculatePayment(p.(status := s, amountPaidOut := paid), commissionC, fees).toPayOutAmount
            == CalculatePayment(p, commissionC, fees).toPayOutAmount
  {
  }

  /** Every deduction is a whole number of cents: rounding happens per fee term. */
  lemma DeductionsAreWholeCents(p: Payment, commissionC: real, fees: Fees)
    ensures IsWholeCents(p.amount - CalculatePayment(p, commissionC, fees).toPayOutAmount)
    ensures IsWholeCents(CalculatePayment(p, commissionC, fees).toPayOutAmount
                         - CalculatePayment(p, commissionC, fees).availablePayOutAmount)
  {
    var e := CalculatePayment(p, commissionC, fees);
    var a := Round2(fees.fixedA);
    var b := Round2(Percent(fees.percentB, p.amount));
    var c := Round2(Percent(commissionC, p.amount));
    var d := Holdback(p, fees);
    Round2IsWholeCents(fees.fixedA);
    Round2IsWholeCents(Percent(fees.percentB, p.amount));
    Round2IsWholeCents(Percent(commissionC, p.amount));
    Round2IsWholeCents(Percent(fees.percentBlockD, p.amount));
    WholeCentsClosed(a, b);
    WholeCentsClosed(a + b, c);
    assert p.amount - e.toPayOutAmount == a + b + c;
    assert IsWholeCents(0.0);
    WholeCentsClosed(d, 0.0);
    assert e.toPayOutAmount - e.availablePayOutAmount == if p.status == Unlocked then 0.0 else d - 0.0;
  }

  /** The entitlement is within one and a half cents of the amount less the
      unrounded fees (half a cent per rounded term). */
  lemma EntitlementRoundingError(p: Payment, commissionC: real, fees: Fees)
    ensures var exact := p.amount - fees.fixedA - Percent(fees.percentB, p.amount)
                         - Percent(commissionC, p.amount);
            -0.015 <= CalculatePayment(p, commissionC, fees).toPayOutAmount - exact <= 0.015
  {
    Round2Error(fees.fixedA);
    Round2Error(Percent(fees.percentB, p.amount));
    Round2Error(Percent(commissionC, p.amount));
  }

  /** With the default all-zero fees and no commission, the whole amount is
      owed and available, whatever the status. */
  lemma DefaultFeesPayInFull(p: Payment)
    ensures CalculatePayment(p, 0.0, DefaultFees).toPayOutAmount == p.amount
    ensures CalculatePayment(p, 0.0, DefaultFees).availablePayOutAmount == p.amount
  {
    assert Percent(0.0, p.amount) == 0.0;
    assert Cents(0.0) == 0;
  }

  /** The holdback is lifted exactly for unlocked payments (a paid-out payment
      is held back like a new or processed one); otherwise the available
      amount is the entitlement less the rounded block percentage. */
  lemma HoldbackLiftedOnlyWhenUnlocked(p: Payment, commissionC: real, fees: Fees)
    ensures var e := CalculatePayment(p, commissionC, fees);
            && (e.availablePayOutAmount == e.toPayOutAmount <==> p.status == Unlocked || Holdback(p, fees) == 0.0)
            && (p.status != Unlocked ==> e.availablePayOutAmount == e.toPayOutAmount - Holdback(p, fees))
  {
  }

  /** With a non-negative block percentage and amount, never more is
      available than is owed. */
  lemma AvailableAtMostEntitlement(p: Payment, commissionC: real, fees: Fees)
    requires fees.percentBlockD >= 0.0 && p.amount >= 0.0
    ensures CalculatePayment(p, commissionC, fees).availablePayOutAmount
            <= CalculatePayment(p, commissionC, fees).toPayOutAmount
  {
    assert Percent(fees.percentBlockD, p.amount) >= 0.0;
    Round2Monotone(0.0, Percent(fees.percentBlockD, p.amount));
    assert Round2(0.0) == 0.0;
  }

  // ---------------------------------------------------------------------
  // Status updates

  /** The only transitions a caller may request: new to processed and
      processed to unlocked. */
  function RequestedTransition(current: PaymentStatus, requested: PaymentStatus): (r: Option<PaymentStatus>)
    ensures r.Some? ==> r.value == requested && requested != current
    ensures r.Some? ==> current == New || current == Processed
    ensures current == New && requested == Processed ==> r.Some?
  {
    if current == New && requested == Processed then Some(Processed)
    else if current == Processed && requested == Unlocked then Some(Unlocked)
    else None
  }

  /** Changing statuses only keeps the ids, the shops and the amounts. */
  lemma StatusChangeKeeps(q: seq<Payment>, ps: seq<Payment>, shops: ShopMap)
    requires |q| == |ps| && forall j :: 0 <= j < |ps| ==> q[j] == ps[j].(status := q[j].status)
    ensures CounterIds(ps) ==> CounterIds(q)
    ensures ShopsKnown(ps, shops) ==> ShopsKnown(q, shops)
    ensures (forall j :: 0 <= j < |ps| ==> ps[j].amount > 0.0) ==> forall j :: 0 <= j < |q| ==> q[j].amount > 0.0
  {
    forall j | 0 <= j < |q| ensures q[j].id == ps[j].id && q[j].shopId == ps[j].shopId && q[j].amount == ps[j].amount {
      assert q[j] == ps[j].(status := q[j].status);
    }
  }

  /** Settling keeps the ids, the shops and the amounts. */
  lemma SettlementKeeps(q: seq<Payment>, ps: seq<Payment>, shops: ShopMap)
    requires SameIds(q, ps)
    requires forall j :: 0 <= j < |ps| ==> q[j].shopId == ps[j].shopId && q[j].amount == ps[j].amount
    ensures CounterIds(ps) ==> CounterIds(q)
    ensures ShopsKnown(ps, shops) ==> ShopsKnown(q, shops)
    ensures (forall j :: 0 <= j < |ps| ==> ps[j].amount > 0.0) ==> forall j :: 0 <= j < |q| ==> q[j].amount > 0.0
  {
  }

  /** The body of the `forEach` in `updatePaymentStatus`, for one id: find the
      payment, check the transition, apply it, and move a just-unlocked
      payment that is fully paid out on to paid_out. */
  function UpdateOne(ps: seq<Payment>, shops: ShopMap, fees: Fees, id: string, newStatus: PaymentStatus)
    : (r: Result<seq<Payment>, PaymentError>)
    requires ShopsKnown(ps, shops)
    ensures r.Ok? ==> |r.value| == |ps|
    ensures r.Ok? ==> forall j :: 0 <= j < |ps| ==> r.value[j] == ps[j].(status := r.value[j].status)
  {
    var k := FindIndex(ps, id);
    if k == |ps| then Err(PaymentNotFound(id))
    else match RequestedTransition(ps[k].status, newStatus)
      case None => Err(InvalidStatusTransition(id))
      case Some(s) =>
        var p := ps[k].(status := s);
        var e := EntitlementOf(p, shops, fees);
        var p' :=
          if p.status == Unlocked
             && e.availablePayOutAmount == p.amountPaidOut
             && e.availablePayOutAmount == e.toPayOutAmount
          then p.(status := PaidOut)
          else p;
        Ok(ps[k := p'])
  }

  /** A single update succeeds exactly when the id is known and the request
      is new to processed or processed to unlocked; otherwise it reports
      which of the two went wrong. */
  lemma UpdateOneOutcome(ps: seq<Payment>, shops: ShopMap, fees: Fees, id: string, newStatus: PaymentStatus)
    requires ShopsKnown(ps, shops)
    ensures var k := FindIndex(ps, id);
            var r := UpdateOne(ps, shops, fees, id, newStatus);
            && (k == |ps| <==> r == Err(PaymentNotFound(id)))
            && (r.Ok? <==> k < |ps| && ((ps[k].status == New && newStatus == Processed)
                                       || (ps[k].status == Processed && newStatus == Unlocked)))
            && (r.Err? && k < |ps| ==> r == Err(InvalidStatusTransition(id)))
  {
  }

  /** A successful update changes the found payment only, and only its
      status: processed when that was asked for; when unlocking, paid_out if
      the amount already paid out equals the entitlement, unlocked otherwise. */
  lemma UpdateOneEffect(ps: seq<Payment>, shops: ShopMap, fees: Fees, id: string, newStatus: PaymentStatus)
    requires ShopsKnown(ps, shops)
    requires UpdateOne(ps, shops, fees, id, newStatus).Ok?
    ensures var k := FindIndex(ps, id);
            var q := UpdateOne(ps, shops, fees, id, newStatus).value;
            && k < |ps|
            && (forall j :: 0 <= j < |ps| && j != k ==> q[j] == ps[j])
            && Rank(q[k].status) > Rank(ps[k].status)
            && (newStatus == Processed ==> q[k].status == Processed)
            && (newStatus == Unlocked ==>
                  q[k].status == (if ps[k].amountPaidOut == EntitlementOf(ps[k], shops, fees).toPayOutAmount
                                  then PaidOut else Unlocked))
  {
    var k := FindIndex(ps, id);
    EntitlementIgnoresProgress(ps[k], shops[ps[k].shopId].commissionC, fees, Unlocked, ps[k].amountPaidOut);
  }

  /** Result of a batch: the payments afterwards, and the error thrown, if any. */
  datatype BatchOutcome = BatchOutcome(payments: seq<Payment>, error: Option<PaymentError>)

  /** `updatePaymentStatus`: the ids in order; the first failure stops the
      batch, and the updates made before it stay. */
  function UpdateBatch(ps: seq<Payment>, shops: ShopMap, fees: Fees, ids: seq<string>, newStatus: PaymentStatus)
    : (r: BatchOutcome)
    requires ShopsKnown(ps, shops)
    ensures |r.payments| == |ps|
    ensures forall j :: 0 <= j < |ps| ==> r.payments[j] == ps[j].(status := r.payments[j].status)
    decreases |ids|
  {
    if ids == [] then BatchOutcome(ps, None)
    else
      var prev := UpdateBatch(ps, shops, fees, ids[..|ids| - 1], newStatus);
      if prev.error.Some? then prev
      else match UpdateOne(prev.payments, shops, fees, ids[|ids| - 1], newStatus)
        case Ok(q) => BatchOutcome(q, None)
        case Err(e) => BatchOutcome(prev.payments, Some(e))
  }

  /** Once an id of the batch fails, the ids after it change nothing: the
      outcome is the state reached just before the failure, with its error. */
  lemma {:induction false} UpdateBatchStopsAtError(ps: seq<Payment>, shops: ShopMap, fees: Fees,
                                                  ids: seq<string>, more: seq<string>, newStatus: PaymentStatus)
    requires ShopsKnown(ps, shops)
    requires UpdateBatch(ps, shops, fees, ids, newStatus).error.Some?
    ensures UpdateBatch(ps, shops, fees, ids + more, newStatus) == UpdateBatch(ps, shops, fees, ids, newStatus)
    decreases |more|
  {
    if more == [] {
      assert ids + more == ids;
    } else {
      var more' := more[..|more| - 1];
      assert (ids + more)[..|ids + more| - 1] == ids + more';
      UpdateBatchStopsAtError(ps, shops, fees, ids, more', newStatus);
    }
  }

  /** A batch whose id at position `i` fails ends as it stood then. */
  lemma UpdateBatchFailsAt(ps: seq<Payment>, shops: ShopMap, fees: Fees,
                           ids: seq<string>, i: nat, newStatus: PaymentStatus)
    requires ShopsKnown(ps, shops) && i < |ids|
    requires UpdateBatch(ps, shops, fees, ids[..i + 1], newStatus).error.Some?
    ensures UpdateBatch(ps, shops, fees, ids, newStatus) == UpdateBatch(ps, shops, fees, ids[..i + 1], newStatus)
  {
    var done, rest := ids[..i + 1], ids[i + 1..];
    SplitAt(ids, i + 1);
    UpdateBatchStopsAtError(ps, shops, fees, done, rest, newStatus);
  }

  /** A payment whose id the batch does not name is left exactly as it was. */
  lemma {:induction false} UpdateBatchFrame(ps: seq<Payment>, shops: ShopMap, fees: Fees,
                                           ids: seq<string>, newStatus: PaymentStatus, j: nat)
    requires ShopsKnown(ps, shops) && j < |ps| && ps[j].id !in ids
    ensures UpdateBatch(ps, shops, fees, ids, newStatus).payments[j] == ps[j]
    decreases |ids|
  {
    if ids != [] {
      var ids' := ids[..|ids| - 1];
      var id := ids[|ids| - 1];
      assert ps[j].id != id && forall x :: x in ids' ==> x in ids;
      UpdateBatchFrame(ps, shops, fees, ids', newStatus, j);
      var prev := UpdateBatch(ps, shops, fees, ids', newStatus);
      if prev.error.None? {
        assert ShopsKnown(prev.payments, shops);
        if UpdateOne(prev.payments, shops, fees, id, newStatus).Ok? {
          UpdateOneEffect(prev.payments, shops, fees, id, newStatus);
          assert FindIndex(prev.payments, id) != j;
        }
      }
    }
  }

  /** `UpdateBatchFrame` for every payment at once. */
  lemma BatchFrame(ps: seq<Payment>, shops: ShopMap, fees: Fees, ids: seq<string>, newStatus: PaymentStatus)
    requires ShopsKnown(ps, shops)
    ensures var q := UpdateBatch(ps, shops, fees, ids, newStatus).payments;
            forall j :: 0 <= j < |ps| && ps[j].id !in ids ==> q[j] == ps[j]
  {
    forall j | 0 <= j < |ps| && ps[j].id !in ids
      ensures UpdateBatch(ps, shops, fees, ids, newStatus).payments[j] == ps[j]
    {
      UpdateBatchFrame(ps, shops, fees, ids, newStatus, j);
    }
  }

  /** A batch never moves a status backwards. */
  lemma {:induction false} UpdateBatchMovesForward(ps: seq<Payment>, shops: ShopMap, fees: Fees,
                                                  ids: seq<string>, newStatus: PaymentStatus)
    requires ShopsKnown(ps, shops)
    ensures var q := UpdateBatch(ps, shops, fees, ids, newStatus).payments;
            forall j :: 0 <= j < |ps| ==> Rank(q[j].status) >= Rank(ps[j].status)
    decreases |ids|
  {
    if ids != [] {
      var prev := UpdateBatch(ps, shops, fees, ids[..|ids| - 1], newStatus);
      UpdateBatchMovesForward(ps, shops, fees, ids[..|ids| - 1], newStatus);
      if prev.error.None? {
        var id := ids[|ids| - 1];
        assert ShopsKnown(prev.payments, shops);
        if UpdateOne(prev.payments, shops, fees, id, newStatus).Ok? {
          UpdateOneEffect(prev.payments, shops, fees, id, newStatus);
        }
      }
    }
  }

  // ---------------------------------------------------------------------
  // Payout selection

  /** `p.status !== new && p.status !== paid_out`. */
  predicate OpenStatus(p: Payment)
  {
    p.status != New && p.status != PaidOut
  }

  /** The status filter of `payoutPayments`. */
  function OpenPayments(ps: seq<Payment>): (r: seq<Payment>)
    ensures forall p :: p in r <==> p in ps && OpenStatus(p)
    ensures IsSubsequence(r, ps)
    decreases |ps|
  {
    if ps == [] then []
    else
      var rest := OpenPayments(ps[..|ps| - 1]);
      var p := ps[|ps| - 1];
      assert ps == ps[..|ps| - 1] + [p];
      if OpenStatus(p) then
        assert (rest + [p])[..|rest|] == rest;
        rest + [p]
      else rest
  }

  /** The `forEach` of `payoutPayments`: the entitlement of every payment that
      has more available than it was paid out, in order. */
  function Candidates(ps: seq<Payment>, shops: ShopMap, fees: Fees): (r: seq<Entitlement>)
    requires ShopsKnown(ps, shops)
    ensures |r| <= |ps|
    decreases |ps|
  {
    if ps == [] then []
    else
      var rest := Candidates(ps[..|ps| - 1], shops, fees);
      var p := ps[|ps| - 1];
      var wrapped := EntitlementOf(p, shops, fees);
      if wrapped.availablePayOutAmount <= p.amountPaidOut then rest else rest + [wrapped]
  }

  /** `sumToPayOutAmount`: the available amounts added up. */
  function SumAvailable(ws: seq<Entitlement>): real
  {
    if ws == [] then 0.0 else SumAvailable(ws[..|ws| - 1]) + ws[|ws| - 1].availablePayOutAmount
  }

  /** The candidate handed to the greedy selector for an entitlement: its
      id and its full entitlement rounded to cents. */
  function ItemOf(w: Entitlement): (r: Item)
    ensures r.id == w.id
    ensures r.amount as real / CentsPerUnit == Round2(w.toPayOutAmount)
  {
    Item(w.id, Cents(w.toPayOutAmount))
  }

  /** `wrapperPayments.map(...)`. */
  function ToItems(ws: seq<Entitlement>): (r: seq<Item>)
    ensures |r| == |ws|
    ensures forall k :: 0 <= k < |ws| ==> r[k] == ItemOf(ws[k])
  {
    if ws == [] then [] else ToItems(ws[..|ws| - 1]) + [ItemOf(ws[|ws| - 1])]
  }

  /** A payment a payout of `shopId` may pay: it belongs to the shop, is
      processed or unlocked, and has more available than it was paid out. */
  predicate Eligible(p: Payment, shops: ShopMap, fees: Fees, shopId: string)
  {
    && p.shopId == shopId
    && OpenStatus(p)
    && p.shopId in shops
    && EntitlementOf(p, shops, fees).availablePayOutAmount > p.amountPaidOut
  }

  /** The entitlements the payout considers, in store order. */
  function PayoutCandidates(ps: seq<Payment>, shops: ShopMap, shopId: string, fees: Fees): seq<Entitlement>
    requires ShopsKnown(ps, shops)
  {
    var open := OpenPayments(PaymentsOfShop(ps, shopId));
    assert ShopsKnown(open, shops) by {
      forall k | 0 <= k < |open| ensures open[k].shopId in shops {
        assert open[k] in open;
      }
    }
    Candidates(open, shops, fees)
  }

  /** The capacity handed to the greedy selector, in cents. */
  function PayoutCapacity(ps: seq<Payment>, shops: ShopMap, shopId: string, fees: Fees): int
    requires ShopsKnown(ps, shops)
  {
    Cents(SumAvailable(PayoutCandidates(ps, shops, shopId, fees)))
  }

  /** The greedy selection `payoutPayments` makes. */
  function PayoutSelection(ps: seq<Payment>, shops: ShopMap, shopId: string, fees: Fees): Selection
    requires ShopsKnown(ps, shops)
  {
    Greedy(PayoutCapacity(ps, shops, shopId, fees), SortItems(ToItems(PayoutCandidates(ps, shops, shopId, fees))))
  }

  lemma {:induction false} CandidatesFromEligible(ps: seq<Payment>, shops: ShopMap, fees: Fees, shopId: string)
    requires ShopsKnown(ps, shops)
    requires forall k :: 0 <= k < |ps| ==> ps[k].shopId == shopId && OpenStatus(ps[k])
    ensures forall w :: w in Candidates(ps, shops, fees) <==>
              exists p :: p in ps && Eligible(p, shops, fees, shopId) && w == EntitlementOf(p, shops, fees)
    decreases |ps|
  {
    if ps != [] {
      var ps' := ps[..|ps| - 1];
      CandidatesFromEligible(ps', shops, fees, shopId);
      assert ps == ps' + [ps[|ps| - 1]];
    }
  }

  /** The payout considers exactly the eligible payments of the shop: each
      candidate item is the rounded entitlement of an eligible payment, and
      every eligible payment gives a candidate. */
  lemma PayoutItemsAreEligible(ps: seq<Payment>, shops: ShopMap, shopId: string, fees: Fees)
    requires ShopsKnown(ps, shops)
    ensures forall it :: it in ToItems(PayoutCandidates(ps, shops, shopId, fees)) ==>
              exists p :: p in ps && Eligible(p, shops, fees, shopId) && it == ItemOf(EntitlementOf(p, shops, fees))
    ensures forall p :: p in ps && Eligible(p, shops, fees, shopId) ==>
              ItemOf(EntitlementOf(p, shops, fees)) in ToItems(PayoutCandidates(ps, shops, shopId, fees))
  {
    var open := OpenPayments(PaymentsOfShop(ps, shopId));
    assert ShopsKnown(open, shops) by {
      forall k | 0 <= k < |open| ensures open[k].shopId in shops {
        assert open[k] in open;
      }
    }
    assert forall k :: 0 <= k < |open| ==> open[k].shopId == shopId && OpenStatus(open[k]) by {
      forall k | 0 <= k < |open| ensures open[k].shopId == shopId && OpenStatus(open[k]) {
        assert open[k] in open;
      }
    }
    CandidatesFromEligible(open, shops, fees, shopId);
    var ws := Candidates(open, shops, fees);
    var items := ToItems(ws);
    forall it | it in items
      ensures exists p :: p in ps && Eligible(p, shops, fees, shopId) && it == ItemOf(EntitlementOf(p, shops, fees))
    {
      var k :| 0 <= k < |items| && items[k] == it;
      assert ws[k] in ws;
      var p :| p in open && Eligible(p, shops, fees, shopId) && ws[k] == EntitlementOf(p, shops, fees);
    }
    forall p | p in ps && Eligible(p, shops, fees, shopId)
      ensures ItemOf(EntitlementOf(p, shops, fees)) in items
    {
      assert p in open;
      var w := EntitlementOf(p, shops, fees);
      assert w in ws;
      var k :| 0 <= k < |ws| && ws[k] == w;
      assert items[k] == ItemOf(w);
    }
  }

  /** The payout's selection takes each candidate at most once, sums to its
      reported total, and fits a non-negative capacity. */
  lemma PayoutSelectionWithinCapacity(ps: seq<Payment>, shops: ShopMap, shopId: string, fees: Fees)
    requires ShopsKnown(ps, shops)
    ensures var sel := PayoutSelection(ps, shops, shopId, fees);
            var items := ToItems(PayoutCandidates(ps, shops, shopId, fees));
            && multiset(sel.selectedPayments) <= multiset(items)
            && sel.totalPayout == Sum(sel.selectedPayments)
            && (PayoutCapacity(ps, shops, shopId, fees) >= 0 ==>
                  Sum(sel.selectedPayments) <= PayoutCapacity(ps, shops, shopId, fees))
  {
    var capacity := PayoutCapacity(ps, shops, shopId, fees);
    var items := ToItems(PayoutCandidates(ps, shops, shopId, fees));
    var sorted := SortItems(items);
    SortItemsCorrect(items);
    GreedySum(capacity, sorted);
    GreedySubsequence(capacity, sorted);
    SubsequenceMultiset(Greedy(capacity, sorted).selectedPayments, sorted);
    if capacity >= 0 {
      GreedyWithinCapacity(capacity, sorted);
    }
  }

  // ---------------------------------------------------------------------
  // Settlement

  /** What the payout does to a selected payment: overwrite the amount paid
      out with the selected (rounded) entitlement, and move an unlocked
      payment on to paid_out. A processed payment stays processed. */
  function Settle(p: Payment, cents: int): (r: Payment)
    ensures r.id == p.id && r.shopId == p.shopId && r.amount == p.amount
    ensures r.amountPaidOut * CentsPerUnit == cents as real
    ensures r.status == PaidOut <==> p.status == Unlocked || p.status == PaidOut
    ensures r.status != PaidOut ==> r.status == p.status
  {
    p.(amountPaidOut := cents as real / CentsPerUnit,
       status := if p.status == Unlocked then PaidOut else p.status)
  }

  /** Settling twice with the same amount is settling once. */
  lemma SettleIdempotent(p: Payment, cents: int)
    ensures Settle(Settle(p, cents), cents) == Settle(p, cents)
  {
  }

  /** The `map` at the end of `payoutPayments`, applied to the store: each
      selected item in order finds its payment by id and settles it. */
  function ApplyPayout(ps: seq<Payment>, sel: seq<Item>): (r: seq<Payment>)
    requires forall m :: 0 <= m < |sel| ==> FindIndex(ps, sel[m].id) < |ps|
    ensures SameIds(r, ps)
    ensures forall j :: 0 <= j < |ps| ==> r[j].shopId == ps[j].shopId && r[j].amount == ps[j].amount
    decreases |sel|
  {
    if sel == [] then ps
    else
      var q := ApplyPayout(ps, sel[..|sel| - 1]);
      var it := sel[|sel| - 1];
      var k := FindIndex(q, it.id);
      assert k == FindIndex(ps, it.id) by { FindIndexSameIds(q, ps, it.id); }
      q[k := Settle(q[k], it.amount)]
  }

  /** Finding by id only looks at the ids. */
  lemma FindIndexSameIds(q: seq<Payment>, ps: seq<Payment>, id: string)
    requires SameIds(q, ps)
    ensures FindIndex(q, id) == FindIndex(ps, id)
  {
  }

  /** Some selected item carries `id`. */
  predicate SelectsId(sel: seq<Item>, id: string)
  {
    exists m :: 0 <= m < |sel| && sel[m].id == id
  }

  /** Each selected item names a payment of `ps` and carries that payment's
      entry of `cents`. */
  predicate ItemsMatch(sel: seq<Item>, ps: seq<Payment>, cents: seq<int>)
    requires |cents| == |ps|
  {
    forall m :: 0 <= m < |sel| ==>
      FindIndex(ps, sel[m].id) < |ps| && sel[m].amount == cents[FindIndex(ps, sel[m].id)]
  }

  /** What position `j` holds once `sel` is settled: settled with its own
      entry of `cents` if some item names it, unchanged otherwise. */
  function SettledAt(ps: seq<Payment>, sel: seq<Item>, cents: seq<int>, j: nat): Payment
    requires |cents| == |ps| && j < |ps|
  {
    if SelectsId(sel, ps[j].id) then Settle(ps[j], cents[j]) else ps[j]
  }

  /** One more selected item settles its own payment and leaves the rest as they were. */
  lemma SettleStep(q: seq<Payment>, ps: seq<Payment>, sel: seq<Item>, it: Item, cents: seq<int>, j: nat)
    requires UniqueIds(ps) && SameIds(q, ps) && |cents| == |ps| && j < |ps|
    requires FindIndex(ps, it.id) < |ps| && it.amount == cents[FindIndex(ps, it.id)]
    requires q[j] == SettledAt(ps, sel, cents, j)
    ensures var k := FindIndex(ps, it.id);
            q[k := Settle(q[k], it.amount)][j] == SettledAt(ps, sel + [it], cents, j)
  {
    var k := FindIndex(ps, it.id);
    var sel2 := sel + [it];
    assert sel2[|sel|] == it;
    if j == k {
      assert SelectsId(sel2, ps[j].id);
      SettleIdempotent(ps[j], cents[j]);
    } else {
      assert ps[j].id != it.id;
      SelectsIdAppend(sel, it, ps[j].id);
    }
  }

  /** An id is selected by `sel + [it]` exactly when `sel` or `it` carries it. */
  lemma SelectsIdAppend(sel: seq<Item>, it: Item, id: string)
    ensures SelectsId(sel + [it], id) <==> SelectsId(sel, id) || it.id == id
  {
    var sel2 := sel + [it];
    assert sel2[|sel|] == it;
    if SelectsId(sel2, id) && it.id != id {
      var m :| 0 <= m < |sel2| && sel2[m].id == id;
      assert sel[m] == sel2[m];
    }
    if SelectsId(sel, id) {
      var m :| 0 <= m < |sel| && sel[m].id == id;
      assert sel2[m] == sel[m];
    }
  }

  /** Settlement position by position: a payment whose id was selected is
      settled with its own amount, whatever the order or repetition of the
      selection; every other payment is unchanged. */
  lemma {:induction false} ApplyPayoutSettles(ps: seq<Payment>, sel: seq<Item>, cents: seq<int>)
    requires UniqueIds(ps) && |cents| == |ps| && ItemsMatch(sel, ps, cents)
    ensures forall j :: 0 <= j < |ps| ==> ApplyPayout(ps, sel)[j] == SettledAt(ps, sel, cents, j)
    decreases |sel|
  {
    if sel != [] {
      var sel' := sel[..|sel| - 1];
      var it := sel[|sel| - 1];
      assert sel == sel' + [it];
      assert ItemsMatch(sel', ps, cents) by {
        forall m | 0 <= m < |sel'| ensures sel'[m] == sel[m] { }
      }
      ApplyPayoutSettles(ps, sel', cents);
      var q := ApplyPayout(ps, sel');
      var k := FindIndex(ps, it.id);
      FindIndexSameIds(q, ps, it.id);
      assert ApplyPayout(ps, sel) == q[k := Settle(q[k], it.amount)];
      forall j | 0 <= j < |ps| ensures ApplyPayout(ps, sel)[j] == SettledAt(ps, sel, cents, j) {
        SettleStep(q, ps, sel', it, cents, j);
      }
    }
  }

  /** The entitlement of each payment, rounded to cents. */
  function EntitledCents(ps: seq<Payment>, shops: ShopMap, fees: Fees): (r: seq<int>)
    requires ShopsKnown(ps, shops)
    ensures |r| == |ps|
  {
    seq(|ps|, j requires 0 <= j < |ps| => Cents(EntitlementOf(ps[j], shops, fees).toPayOutAmount))
  }

  /** A candidate item is the rounded entitlement of an eligible payment of
      the shop, found by its id. */
  lemma CandidateItemMatches(ps: seq<Payment>, shops: ShopMap, shopId: string, fees: Fees, it: Item)
    requires UniqueIds(ps) && ShopsKnown(ps, shops)
    requires it in ToItems(PayoutCandidates(ps, shops, shopId, fees))
    ensures var k := FindIndex(ps, it.id);
            k < |ps| && it.amount == EntitledCents(ps, shops, fees)[k] && Eligible(ps[k], shops, fees, shopId)
  {
    PayoutItemsAreEligible(ps, shops, shopId, fees);
    var p :| p in ps && Eligible(p, shops, fees, shopId) && it == ItemOf(EntitlementOf(p, shops, fees));
    var j :| 0 <= j < |ps| && ps[j] == p;
    FindIndexOfMember(ps, j);
  }

  /** Every item the payout selects is the rounded entitlement of an
      eligible payment of the shop, found by its id. */
  lemma SelectedItemsMatch(ps: seq<Payment>, shops: ShopMap, shopId: string, fees: Fees)
    requires UniqueIds(ps) && ShopsKnown(ps, shops)
    ensures var sel := PayoutSelection(ps, shops, shopId, fees).selectedPayments;
            && ItemsMatch(sel, ps, EntitledCents(ps, shops, fees))
            && forall m :: 0 <= m < |sel| ==> Eligible(ps[FindIndex(ps, sel[m].id)], shops, fees, shopId)
  {
    var sel := PayoutSelection(ps, shops, shopId, fees).selectedPayments;
    var items := ToItems(PayoutCandidates(ps, shops, shopId, fees));
    PayoutSelectionWithinCapacity(ps, shops, shopId, fees);
    forall m | 0 <= m < |sel|
      ensures FindIndex(ps, sel[m].id) < |ps|
      ensures sel[m].amount == EntitledCents(ps, shops, fees)[FindIndex(ps, sel[m].id)]
      ensures Eligible(ps[FindIndex(ps, sel[m].id)], shops, fees, shopId)
    {
      assert sel[m] in multiset(sel);
      assert sel[m] in items;
      CandidateItemMatches(ps, shops, shopId, fees, sel[m]);
    }
  }

  /** The effect of a whole payout on the store: exactly the payments whose
      ids the greedy selector picked are settled, each with its own
      entitlement rounded to cents, and each of them was eligible; all
      others are unchanged. */
  lemma PayoutEffect(ps: seq<Payment>, shops: ShopMap, shopId: string, fees: Fees)
    requires UniqueIds(ps) && ShopsKnown(ps, shops)
    ensures var sel := PayoutSelection(ps, shops, shopId, fees).selectedPayments;
            var cents := EntitledCents(ps, shops, fees);
            && ItemsMatch(sel, ps, cents)
            && (forall j :: 0 <= j < |ps| ==> ApplyPayout(ps, sel)[j] == SettledAt(ps, sel, cents, j))
            && (forall j :: 0 <= j < |ps| && SelectsId(sel, ps[j].id) ==> Eligible(ps[j], shops, fees, shopId))
  {
    var sel := PayoutSelection(ps, shops, shopId, fees).selectedPayments;
    SelectedItemsMatch(ps, shops, shopId, fees);
    ApplyPayoutSettles(ps, sel, EntitledCents(ps, shops, fees));
    forall j | 0 <= j < |ps| && SelectsId(sel, ps[j].id) ensures Eligible(ps[j], shops, fees, shopId) {
      var m :| 0 <= m < |sel| && sel[m].id == ps[j].id;
      FindIndexOfMember(ps, j);
    }
  }

  /** The amount a payout records is the entitlement rounded to cents: within
      half a cent of it, and equal to it when the payment amount has at most
      two fractional digits. */
  lemma SettledAmountMatchesEntitlement(p: Payment, shops: ShopMap, fees: Fees)
    requires p.shopId in shops
    ensures var toPay := EntitlementOf(p, shops, fees).toPayOutAmount;
            var paid := Settle(p, Cents(toPay)).amountPaidOut;
            && -0.005 <= paid - toPay <= 0.005
            && (IsWholeCents(p.amount) ==> paid == toPay)
  {
    var toPay := EntitlementOf(p, shops, fees).toPayOutAmount;
    Round2Error(toPay);
    if IsWholeCents(p.amount) {
      DeductionsAreWholeCents(p, shops[p.shopId].commissionC, fees);
      WholeCentsClosed(p.amount, p.amount - toPay);
      assert p.amount - (p.amount - toPay) == toPay;
      Round2WholeCents(toPay);
    }
  }

  /** A processed payment with a whole-cent amount that a payout has settled
      goes straight to paid_out when it is unlocked. */
  lemma UnlockAfterSettlementPaysOut(ps: seq<Payment>, shops: ShopMap, fees: Fees, k: nat)
    requires ShopsKnown(ps, shops) && UniqueIds(ps) && k < |ps|
    requires ps[k].status == Processed && IsWholeCents(ps[k].amount)
    requires ps[k].amountPaidOut == Round2(EntitlementOf(ps[k], shops, fees).toPayOutAmount)
    ensures UpdateOne(ps, shops, fees, ps[k].id, Unlocked).Ok?
    ensures UpdateOne(ps, shops, fees, ps[k].id, Unlocked).value[k].status == PaidOut
  {
    FindIndexOfMember(ps, k);
    SettledAmountMatchesEntitlement(ps[k], shops, fees);
    UpdateOneEffect(ps, shops, fees, ps[k].id, Unlocked);
  }
}
