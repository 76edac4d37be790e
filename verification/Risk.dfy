/** The risk gate in front of every intent. */
module Risk {
  import opened Common

  datatype Action = Open | Add | Reverse | Reduce | Close

  datatype TradeIntent = TradeIntent(id: string, side: Side, action: Action,
                                     targetNotional: real, maxOrderNotional: real)

  datatype RiskParams = RiskParams(capXEquity: real, suspensionLossXEquity: real, minMarginFraction: real)

  datatype Account = Account(equity: real, availableMargin: real, unrealizedPnl24h: real, grossNotional: real,
                             marketIsFresh: bool, privateStateIsReady: bool, marginDanger: bool)

  predicate IsOpening(action: Action) {
    action.Open? || action.Add? || action.Reverse?
  }

  /** Only reducing and closing are free of the opening gates. */
  lemma OpensUnlessItReduces(action: Action)
    ensures IsOpening(action) <==> action !in {Reduce, Close}
  {
  }

  function Min(a: real, b: real): real {
    if a < b then a else b
  }

  function CheckIntent(intent: TradeIntent, account: Account, params: RiskParams): Result<real> {
    var isOpen := IsOpening(intent.action);
    if isOpen && !account.privateStateIsReady then Err("private account state is not ready")
    else if isOpen && !account.marketIsFresh then Err("market data is stale")
    else if account.equity <= 0.0 then Err("equity is not positive")
    else if isOpen && account.availableMargin < account.equity * params.minMarginFraction then
      Err("available margin is too low")
    else if isOpen && account.marginDanger then Err("margin danger")
    else if isOpen && account.unrealizedPnl24h <= -account.equity * params.suspensionLossXEquity then
      Err("trading suspended by 24h unrealized loss")
    else
      var wanted := Min(intent.targetNotional, intent.maxOrderNotional);
      var room := account.equity * params.capXEquity - account.grossNotional;
      var approved := if isOpen then Min(wanted, if room > 0.0 then room else 0.0) else wanted;
      if approved <= 0.0 && isOpen then Err("notional cap reached")
      else Ok(if approved > 0.0 then approved else 0.0)
  }

  /**
    An approval never asks for more than the intent does, and an approved open
    fits under the total cap of the account it was judged on. Every opening
    gate that fails refuses.
  */
  lemma ApprovedOpenFitsCap(intent: TradeIntent, account: Account, params: RiskParams)
    requires IsOpening(intent.action) && CheckIntent(intent, account, params).Ok?
    ensures var approved := CheckIntent(intent, account, params).value;
            && 0.0 < approved <= intent.targetNotional && approved <= intent.maxOrderNotional
            && account.grossNotional + approved <= account.equity * params.capXEquity
    ensures account.privateStateIsReady && account.marketIsFresh && !account.marginDanger
    ensures account.availableMargin >= account.equity * params.minMarginFraction
    ensures account.unrealizedPnl24h > -account.equity * params.suspensionLossXEquity
  {
  }

  /** An amount an opening intent may be approved for. */
  predicate Fits(amount: real, intent: TradeIntent, account: Account, params: RiskParams) {
    && amount <= intent.targetNotional && amount <= intent.maxOrderNotional
    && account.grossNotional + amount <= account.equity * params.capXEquity
  }

  /** An opening intent passes exactly when no gate fails and some positive amount fits, and gets the most that fits. */
  lemma OpeningGetsTheMostThatFits(intent: TradeIntent, account: Account, params: RiskParams, amount: real)
    requires IsOpening(intent.action)
    ensures CheckIntent(intent, account, params).Ok? <==>
              && account.privateStateIsReady && account.marketIsFresh && !account.marginDanger
              && account.equity > 0.0
              && account.availableMargin >= account.equity * params.minMarginFraction
              && account.unrealizedPnl24h > -account.equity * params.suspensionLossXEquity
              && exists some :: some > 0.0 && Fits(some, intent, account, params)
    ensures CheckIntent(intent, account, params).Ok? && Fits(amount, intent, account, params) ==>
              amount <= CheckIntent(intent, account, params).value
  {
    var most := Min(Min(intent.targetNotional, intent.maxOrderNotional),
                    account.equity * params.capXEquity - account.grossNotional);
    assert Fits(most, intent, account, params);
    if some :| some > 0.0 && Fits(some, intent, account, params) {
      assert most >= some;
    }
  }

  /** An approval to reduce risk is for all the intent asks, never for less than nothing. */
  lemma DeRiskingGetsWhatItAsks(intent: TradeIntent, account: Account, params: RiskParams)
    requires !IsOpening(intent.action) && CheckIntent(intent, account, params).Ok?
    ensures var approved := CheckIntent(intent, account, params).value;
            && 0.0 <= approved
            && (approved > 0.0 ==> approved <= intent.targetNotional && approved <= intent.maxOrderNotional)
            && (intent.targetNotional <= approved || intent.maxOrderNotional <= approved)
  {
  }

  /** Reducing risk is refused by nothing but a bust account. */
  lemma DeRiskingPassesUnlessBust(intent: TradeIntent, account: Account, params: RiskParams)
    requires !IsOpening(intent.action)
    ensures CheckIntent(intent, account, params).Ok? <==> account.equity > 0.0
  {
  }
}
