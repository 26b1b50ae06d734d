/** The payment store of src/payment.service.ts: the list of payments and the
    counter that issues their ids, updated in place by the service's methods.
    The fee configuration, read from the admin configuration on each call in
    the source, is passed in as a value. */
module Payments {
  import opened Ids
  import opened Results
  import opened Decimal
  import opened Seqs
  import opened PayoutOrder
  import opened MaximizePayout
  import opened Shops
  import opened Ledger

  class PaymentService {
    const shopService: ShopService
    var payments: seq<Payment>
    var idCounter: nat

    /** Payment `k` has id `k + 1`, the counter is one past the last id,
        every payment belongs to a stored shop, and every amount is positive. */
    ghost predicate Valid()
      reads this, shopService
    {
      && shopService.Valid()
      && idCounter == |payments| + 1
      && CounterIds(payments)
      && ShopsKnown(payments, shopService.shops)
      && forall k :: 0 <= k < |payments| ==> payments[k].amount > 0.0
    }

    /** An empty store over the given shop store; the counter starts at 1. */
    constructor (shopService: ShopService)
      requires shopService.Valid()
      ensures Valid()
      ensures this.shopService == shopService && payments == [] && idCounter == 1
    {
      this.shopService := shopService;
      payments := [];
      idCounter := 1;
    }

    /** `createPayment`: an unknown shop is refused first, then a
        non-positive amount; otherwise a new payment with the next id, status
        new and nothing paid out is appended and returned. */
    method CreatePayment(shopId: string, amount: real) returns (r: Result<Payment, PaymentError>)
      requires Valid()
      modifies this
      ensures Valid()
      ensures shopId !in shopService.shops ==> r == Err(ShopNotFound(shopId))
      ensures shopId in shopService.shops && amount <= 0.0 ==> r == Err(AmountNotPositive)
      ensures shopId in shopService.shops && amount > 0.0 ==>
                r == Ok(Payment(NatToString(old(idCounter)), shopId, amount, New, 0.0))
      ensures r.Err? ==> payments == old(payments) && idCounter == old(idCounter)
      ensures r.Ok? ==> payments == old(payments) + [r.value] && idCounter == old(idCounter) + 1
      ensures r.Ok? ==> forall k :: 0 <= k < |old(payments)| ==> old(payments)[k].id != r.value.id
    {
      var shop := shopService.GetShop(shopId);
      if shop.None? {
        return Err(ShopNotFound(shopId));
      }
      if amount <= 0.0 {
        return Err(AmountNotPositive);
      }
      var payment := Payment(NatToString(idCounter), shopId, amount, New, 0.0);
      forall k | 0 <= k < |payments| ensures payments[k].id != payment.id {
        DistinctCountersDistinctIds(k + 1, idCounter);
      }
      payments := payments + [payment];
      idCounter := idCounter + 1;
      r := Ok(payment);
    }

    /** `updatePaymentStatus`: the ids are handled in order; the first
        unknown id or disallowed transition stops the batch with its error,
        and the updates already made stay. */
    method UpdatePaymentStatus(paymentIds: seq<string>, newStatus: PaymentStatus, fees: Fees)
      returns (error: Option<PaymentError>)
      requires Valid()
      modifies this
      ensures Valid()
      ensures BatchOutcome(payments, error)
              == UpdateBatch(old(payments), shopService.shops, fees, paymentIds, newStatus)
      ensures idCounter == old(idCounter)
      ensures forall j :: 0 <= j < |old(payments)| && old(payments)[j].id !in paymentIds
                          ==> payments[j] == old(payments)[j]
    {
      var shops := shopService.shops;
      for i := 0 to |paymentIds|
        invariant Valid() && idCounter == old(idCounter)
        invariant BatchOutcome(payments, None) == UpdateBatch(old(payments), shops, fees, paymentIds[..i], newStatus)
      {
        assert paymentIds[..i + 1][..i] == paymentIds[..i];
        error := UpdateOnePayment(paymentIds[i], newStatus, fees);
        if error.Some? {
          UpdateBatchFailsAt(old(payments), shops, fees, paymentIds, i, newStatus);
          BatchFrame(old(payments), shops, fees, paymentIds, newStatus);
          return;
        }
      }
      assert paymentIds[..|paymentIds|] == paymentIds;
      error := None;
      BatchFrame(old(payments), shops, fees, paymentIds, newStatus);
    }

    /** The body of the `forEach` of `updatePaymentStatus`, for one id: the
        store becomes what `UpdateOne` gives, or stays as it was with the error. */
    method UpdateOnePayment(id: string, newStatus: PaymentStatus, fees: Fees) returns (error: Option<PaymentError>)
      requires Valid()
      modifies this
      ensures Valid() && idCounter == old(idCounter)
      ensures var step := UpdateOne(old(payments), shopService.shops, fees, id, newStatus);
              if step.Ok? then payments == step.value && error == None
              else payments == old(payments) && error == Some(step.error)
    {
      var shops := shopService.shops;
      var k := FindIndex(payments, id);
      if k == |payments| {
        return Some(PaymentNotFound(id));
      }
      var payment := payments[k];
      if payment.status == New && newStatus == Processed {
        payment := payment.(status := newStatus);
      } else if payment.status == Processed && newStatus == Unlocked {
        payment := payment.(status := newStatus);
      } else {
        return Some(InvalidStatusTransition(id));
      }
      if payment.status == Unlocked {
        var wrapped := EntitlementOf(payment, shops, fees);
        if wrapped.availablePayOutAmount == payment.amountPaidOut
           && wrapped.availablePayOutAmount == wrapped.toPayOutAmount
        {
          payment := payment.(status := PaidOut);
        }
      }
      ghost var before := payments;
      payments := payments[k := payment];
      StatusChangeKeeps(payments, before, shops);
      error := None;
    }

    /** `payoutPayments`: the processed and unlocked payments of the shop
        that have more available than they were paid out are offered to the
        greedy selector, each at its full entitlement rounded to cents,
        against the rounded sum of what is available; every selected
        payment is settled, and the settled payments are returned in the
        order of the selection. */
    method PayoutPayments(shopId: string, fees: Fees) returns (result: seq<Payment>)
      requires Valid()
      modifies this
      ensures Valid()
      ensures idCounter == old(idCounter)
      ensures var sel := PayoutSelection(old(payments), shopService.shops, shopId, fees).selectedPayments;
              var cents := EntitledCents(old(payments), shopService.shops, fees);
              && ItemsMatch(sel, old(payments), cents)
              && payments == ApplyPayout(old(payments), sel)
              && (forall j :: 0 <= j < |payments| ==> payments[j] == SettledAt(old(payments), sel, cents, j))
              && |result| == |sel|
              && (forall m :: 0 <= m < |sel| ==> result[m] == payments[FindIndex(old(payments), sel[m].id)])
    {
      var before := payments;
      var sel := SelectForPayout(shopId, fees);
      CounterIdsUnique(before);
      PayoutEffect(before, shopService.shops, shopId, fees);
      SettleSelection(sel);
      SettlementKeeps(payments, before, shopService.shops);
      // The source returns the stored payment objects themselves, so each is
      // read back from the store once the whole selection is settled.
      var store := payments;
      result := seq(|sel|, m requires 0 <= m < |sel| => store[FindIndex(before, sel[m].id)]);
    }

    /** The selection step of `payoutPayments`: the open payments of the
        shop, wrapped and filtered, handed to the greedy selector. */
    method SelectForPayout(shopId: string, fees: Fees) returns (sel: seq<Item>)
      requires Valid()
      ensures sel == PayoutSelection(payments, shopService.shops, shopId, fees).selectedPayments
    {
      var shops := shopService.shops;
      var shopPayments := OpenPayments(GetPayments(shopId));
      assert ShopsKnown(shopPayments, shops) by {
        forall k | 0 <= k < |shopPayments| ensures shopPayments[k].shopId in shops {
          assert shopPayments[k] in shopPayments;
          var j :| 0 <= j < |payments| && payments[j] == shopPayments[k];
        }
      }
      var wrapperPayments, sumToPayOutAmount := WrapPayments(shopPayments, shops, fees);
      assert wrapperPayments == PayoutCandidates(payments, shops, shopId, fees);
      var candidates := new Item[|wrapperPayments|](k requires 0 <= k < |wrapperPayments| => ItemOf(wrapperPayments[k]));
      assert candidates[..] == ToItems(wrapperPayments);
      var subset := MaximizePayout.MaximizePayout(Cents(sumToPayOutAmount), candidates);
      sel := subset.selectedPayments;
    }

    /** The `map` at the end of `payoutPayments`: each selected item in
        order finds the stored payment with its id and settles it. */
    method SettleSelection(sel: seq<Item>)
      requires forall m :: 0 <= m < |sel| ==> FindIndex(payments, sel[m].id) < |payments|
      modifies this
      ensures payments == ApplyPayout(old(payments), sel)
      ensures idCounter == old(idCounter)
    {
      ghost var before := payments;
      for i := 0 to |sel|
        invariant payments == ApplyPayout(before, sel[..i])
        invariant idCounter == old(idCounter)
      {
        var sp := sel[i];
        assert sel[..i + 1][..i] == sel[..i];
        FindIndexSameIds(payments, before, sp.id);
        var k := FindIndex(payments, sp.id);
        var payment := payments[k];
        payment := payment.(amountPaidOut := sp.amount as real / CentsPerUnit);
        if payment.status == Unlocked {
          payment := payment.(status := PaidOut);
        }
        payments := payments[k := payment];
      }
      assert sel[..|sel|] == sel;
    }

    /** `getPayments`: the payments of one shop, in store order. */
    function GetPayments(shopId: string): (r: seq<Payment>)
      reads this
      ensures forall p :: p in r <==> p in payments && p.shopId == shopId
      ensures IsSubsequence(r, payments)
    {
      PaymentsOfShop(payments, shopId)
    }

    /** `getPayment`: the first payment with that id, or none; with
        counter-issued ids, found exactly when the counter has issued the id. */
    function GetPayment(paymentId: string): (r: Option<Payment>)
      reads this
      ensures r.Some? ==> r.value in payments && r.value.id == paymentId
      ensures r.None? ==> forall k :: 0 <= k < |payments| ==> payments[k].id != paymentId
      ensures CounterIds(payments) ==> (r.Some? <==> IssuedBefore(paymentId, |payments| + 1))
    {
      var k := FindIndex(payments, paymentId);
      FindIssuedId(payments, paymentId);
      if k < |payments| then Some(payments[k]) else None
    }
  }

  /** The `forEach` of `payoutPayments`: wraps each payment with its
      entitlement, skips those with no more available than was already paid
      out, and adds up what is available. */
  method WrapPayments(shopPayments: seq<Payment>, shops: ShopMap, fees: Fees)
    returns (wrapperPayments: seq<Entitlement>, sumToPayOutAmount: real)
    requires ShopsKnown(shopPayments, shops)
    ensures wrapperPayments == Candidates(shopPayments, shops, fees)
    ensures sumToPayOutAmount == SumAvailable(wrapperPayments)
  {
    wrapperPayments := [];
    sumToPayOutAmount := 0.0;
    for i := 0 to |shopPayments|
      invariant wrapperPayments == Candidates(shopPayments[..i], shops, fees)
      invariant sumToPayOutAmount == SumAvailable(wrapperPayments)
    {
      var payment := shopPayments[i];
      assert shopPayments[..i + 1][..i] == shopPayments[..i];
      var wrapped := EntitlementOf(payment, shops, fees);
      if wrapped.availablePayOutAmount > payment.amountPaidOut {
        sumToPayOutAmount := sumToPayOutAmount + wrapped.availablePayOutAmount;
        wrapperPayments := wrapperPayments + [wrapped];
      }
    }
    assert shopPayments[..|shopPayments|] == shopPayments;
  }
}
