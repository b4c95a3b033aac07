/** Snapping a position size to the exchange's lot grid, and what a rejection suggests instead. */
module LotSize {
  import opened Numerics

  datatype Spec = Spec(lotStep: real, minQty: real, minNotional: real)

  datatype Reason = InvalidNumber | NoExchangeInfo | BelowMinQty | BelowMinNotional

  datatype Validation = Accepted(size: real) | Rejected(reason: Reason, snapped: Option<real>, suggested: Option<real>)

  /** Decimal's `//`: the whole part of the quotient, towards zero. */
  function WholeQuotient(a: real, b: real): int
    requires b > 0.0
  {
    if a >= 0.0 then (a / b).Floor else -((-a / b).Floor)
  }

  function Lots(n: int, step: real): real { n as real * step }

  function Snap(size: real, step: real): real {
    if step > 0.0 then Lots(WholeQuotient(size, step), step) else size
  }

  function Suggested(spec: Spec, price: real): real {
    if price > 0.0 && spec.lotStep > 0.0
    then Lots(WholeQuotient(spec.minNotional / price, spec.lotStep) + 1, spec.lotStep)
    else spec.minQty
  }

  /** A size or price that is not a number, or a symbol without a specification, is None. */
  function Validate(size: Option<real>, price: Option<real>, spec: Option<Spec>): Validation {
    if size.None? || price.None? then Rejected(InvalidNumber, None, None)
    else if spec.None? then Rejected(NoExchangeInfo, None, None)
    else
      var s, snapped := spec.value, Snap(size.value, spec.value.lotStep);
      if s.minQty > 0.0 && snapped < s.minQty then Rejected(BelowMinQty, Some(snapped), Some(s.minQty))
      else if s.minNotional > 0.0 && snapped * price.value < s.minNotional
      then Rejected(BelowMinNotional, Some(snapped), Some(Suggested(s, price.value)))
      else Accepted(snapped)
  }

  lemma FloorOfWhole(q: real, n: int)
    requires q == n as real
    ensures q.Floor == n
  {
  }

  lemma WholeIs(n: int, step: real)
    requires step > 0.0
    ensures WholeQuotient(Lots(n, step), step) == n
  {
    WholeOf(Lots(n, step), n, step);
  }

  lemma WholeOf(a: real, n: int, step: real)
    requires step > 0.0 && a == n as real * step
    ensures WholeQuotient(a, step) == n
  {
    DivideIs(a, step, n as real);
    FloorOfWhole(a / step, n);
    if n >= 0 {
      ProductNonNegative(n as real, step);
    } else {
      StrictProduct(n as real, 0.0, step);
      assert -a == (-n) as real * step;
      DivideIs(-a, step, (-n) as real);
      FloorOfWhole(-a / step, -n);
    }
  }

  lemma WholeBounds(a: real, step: real)
    requires a >= 0.0 && step > 0.0
    ensures var n := WholeQuotient(a, step); n >= 0 && Lots(n, step) <= a < Lots(n, step) + step
  {
    var q := a / step;
    DivideMonotone(0.0, a, step);
    assert WholeQuotient(a, step) == q.Floor;
    DivideBack(a, step);
    assert q * step == a;
    Between(a, q, step, q.Floor);
  }

  lemma Between(a: real, q: real, step: real, n: int)
    requires step > 0.0 && q * step == a && q >= 0.0 && n == q.Floor
    ensures n >= 0 && Lots(n, step) <= a < Lots(n, step) + step
  {
    ProductMonotone(n as real, q, step);
    StrictProduct(q, (n + 1) as real, step);
    NextLot(n, step);
  }

  lemma NextLot(n: int, step: real)
    ensures Lots(n + 1, step) == Lots(n, step) + step
  {
    assert (n + 1) as real == n as real + 1.0;
  }

  /** Snapping lands on the grid, never adds size, loses less than one step, and is idempotent. */
  lemma SnapDown(size: real, step: real)
    requires size >= 0.0 && step > 0.0
    ensures 0.0 <= Snap(size, step) <= size < Snap(size, step) + step
    ensures Snap(Snap(size, step), step) == Snap(size, step)
  {
    var n := WholeQuotient(size, step);
    WholeBounds(size, step);
    ProductNonNegative(n as real, step);
    WholeIs(n, step);
  }

  /** An accepted size stays acceptable: it is on the grid already. */
  lemma AcceptedIsStable(size: real, price: real, spec: Spec)
    requires Validate(Some(size), Some(price), Some(spec)).Accepted?
    ensures var r := Validate(Some(size), Some(price), Some(spec));
      Validate(Some(r.size), Some(price), Some(spec)) == r
  {
    if spec.lotStep > 0.0 { WholeIs(WholeQuotient(size, spec.lotStep), spec.lotStep); }
  }

  /** Resubmitting the size suggested by a min_notional rejection is always accepted, unchanged. */
  lemma SuggestionAccepted(size: real, price: real, spec: Spec)
    requires size > 0.0 && price > 0.0 && spec.lotStep > 0.0
    requires Validate(Some(size), Some(price), Some(spec)).Rejected?
    requires Validate(Some(size), Some(price), Some(spec)).reason.BelowMinNotional?
    ensures var suggested := Validate(Some(size), Some(price), Some(spec)).suggested;
      suggested.Some? && Validate(suggested, Some(price), Some(spec)) == Accepted(suggested.value)
  {
    var snapped, suggested := Snap(size, spec.lotStep), Suggested(spec, price);
    SuggestionWorth(price, spec);
    if snapped >= suggested {
      ProductMonotone(suggested, snapped, price);
    }
  }

  /** The suggestion is on the grid and worth more than the minimum. */
  lemma SuggestionWorth(price: real, spec: Spec)
    requires price > 0.0 && spec.lotStep > 0.0 && spec.minNotional > 0.0
    ensures Snap(Suggested(spec, price), spec.lotStep) == Suggested(spec, price)
    ensures Suggested(spec, price) * price > spec.minNotional
  {
    var raw, step := spec.minNotional / price, spec.lotStep;
    DivideMonotone(0.0, spec.minNotional, price);
    WholeBounds(raw, step);
    var n := WholeQuotient(raw, step);
    NextLot(n, step);
    WholeIs(n + 1, step);
    WorthMore(spec.minNotional, price, raw, Lots(n + 1, step));
  }

  lemma WorthMore(minimum: real, price: real, raw: real, size: real)
    requires price > 0.0 && raw == minimum / price && size > raw
    ensures size * price > minimum
  {
    DivideBack(minimum, price);
    StrictProduct(raw, size, price);
  }

  /** It is the first size of the grid that is worth more than the minimum: one step less is not. */
  lemma SuggestionIsLeast(price: real, spec: Spec)
    requires price > 0.0 && spec.lotStep > 0.0 && spec.minNotional > 0.0
    ensures (Suggested(spec, price) - spec.lotStep) * price <= spec.minNotional < Suggested(spec, price) * price
  {
    var raw, step := spec.minNotional / price, spec.lotStep;
    SuggestionWorth(price, spec);
    DivideMonotone(0.0, spec.minNotional, price);
    WholeBounds(raw, step);
    NextLot(WholeQuotient(raw, step), step);
    DivideBack(spec.minNotional, price);
    ProductMonotone(Lots(WholeQuotient(raw, step), step), raw, price);
  }

  /** A size is accepted exactly when, snapped, it reaches both minimums that are set, and the snapped size is what
      comes back; a rejection names the first that it misses. */
  lemma AcceptedExactlyWhen(size: real, price: real, spec: Spec)
    ensures var v, snapped := Validate(Some(size), Some(price), Some(spec)), Snap(size, spec.lotStep);
      var few, cheap := 0.0 < spec.minQty && snapped < spec.minQty,
                        0.0 < spec.minNotional && snapped * price < spec.minNotional;
      && (v == Accepted(snapped) <==> !few && !cheap)
      && (few ==> v == Rejected(BelowMinQty, Some(snapped), Some(spec.minQty)))
      && (!few && cheap ==> v.Rejected? && v.reason == BelowMinNotional && v.snapped == Some(snapped))
  {
  }

  /** The size suggested by a min_qty rejection is accepted exactly when it is on the grid and worth enough. */
  lemma MinQtySuggestionAcceptedIff(size: real, price: real, spec: Spec)
    requires Validate(Some(size), Some(price), Some(spec)).Rejected?
    requires Validate(Some(size), Some(price), Some(spec)).reason.BelowMinQty?
    ensures Validate(Some(spec.minQty), Some(price), Some(spec)).Accepted?
       <==> Snap(spec.minQty, spec.lotStep) == spec.minQty
            && (spec.minNotional > 0.0 ==> spec.minQty * price >= spec.minNotional)
  {
    if spec.lotStep > 0.0 { SnapDown(spec.minQty, spec.lotStep); }
  }

  /** A minimum off the grid: with lots of 1 and a minimum of 1.5 the size suggested for a size of 1 is rejected again,
      with the same suggestion. */
  lemma MinQtySuggestionRejected()
    ensures var spec := Some(Spec(1.0, 1.5, 0.0));
      && Validate(Some(1.0), Some(10.0), spec) == Rejected(BelowMinQty, Some(1.0), Some(1.5))
      && Validate(Some(1.5), Some(10.0), spec) == Rejected(BelowMinQty, Some(1.0), Some(1.5))
  {
    WholeIs(1, 1.0);
    assert (1.5 / 1.0).Floor == 1;
  }
}
