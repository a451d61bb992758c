/** The present value of a long-base FX forward, shared by both pricers
    (src/fm_toolkit/fx_forwards.py:94 and src/ing_fm/fx_forwards.py:50). */
module ForwardPayoff {

  /** `notional_base * (fair_fwd - strike) * discount`. */
  function ForwardPv(notional: real, fair: real, strike: real, discount: real): real {
    notional * (fair - strike) * discount
  }

  /** With positive notional and discount factor, the PV is zero exactly at
      the fair strike, positive exactly below it and negative exactly above
      it. */
  lemma PvSign(notional: real, fair: real, strike: real, discount: real)
    requires notional > 0.0 && discount > 0.0
    ensures ForwardPv(notional, fair, strike, discount) == 0.0 <==> strike == fair
    ensures ForwardPv(notional, fair, strike, discount) > 0.0 <==> strike < fair
    ensures ForwardPv(notional, fair, strike, discount) < 0.0 <==> strike > fair
  {
    if strike < fair {
      assert notional * (fair - strike) > 0.0;
    } else if strike > fair {
      assert notional * (strike - fair) > 0.0;
      assert notional * (fair - strike) * discount == -(notional * (strike - fair) * discount);
    }
  }

  /** The PV falls strictly as the strike rises. */
  lemma PvDecreasingInStrike(notional: real, fair: real, k1: real, k2: real, discount: real)
    requires notional > 0.0 && discount > 0.0 && k1 < k2
    ensures ForwardPv(notional, fair, k2, discount) < ForwardPv(notional, fair, k1, discount)
  {
    assert ForwardPv(notional, fair, k1, discount) - ForwardPv(notional, fair, k2, discount)
        == notional * (k2 - k1) * discount;
    assert notional * (k2 - k1) > 0.0;
  }

  /** The PV is affine in the fair forward: moving the forward by `d` moves
      the PV by notional * d * discount, whatever the strike. */
  lemma PvForwardStep(notional: real, fair: real, d: real, strike: real, discount: real)
    ensures ForwardPv(notional, fair + d, strike, discount) - ForwardPv(notional, fair, strike, discount)
      == notional * d * discount
  {
  }
}
