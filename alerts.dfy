/** `checkPriceAlerts`: after a new price of one website is committed, each
    active alert of that website is tested once; an alert that fires asks
    for a notice (when notifications are enabled) and is switched off.
    The notice text and its display are left out; the method reports the
    alerts a notice is raised for. */
module Alerts {
  import opened Models
  import opened Arith
  import opened Lists

  /** `below` is `<`, `above` is `>`, `equal` is within a cent. */
  predicate Triggered(condition: Condition, currentPrice: real, targetPrice: real) {
    match condition
    case Below => currentPrice < targetPrice
    case Above => currentPrice > targetPrice
    case Equal => Abs(currentPrice - targetPrice) < 0.01
  }

  /** The alert is one of `activeAlerts` and its condition holds. */
  predicate Fires(alert: PriceAlert, websiteId: string, currentPrice: real) {
    alert.isActive && alert.websiteId == websiteId && Triggered(alert.condition, currentPrice, alert.targetPrice)
  }

  /** The alert after the check: switched off when it fires. */
  function Checked(alert: PriceAlert, websiteId: string, currentPrice: real): PriceAlert {
    if Fires(alert, websiteId, currentPrice) then alert.(isActive := false) else alert
  }

  /** The alert list after the check. */
  function Deactivated(alerts: seq<PriceAlert>, websiteId: string, currentPrice: real): (r: seq<PriceAlert>)
    ensures |r| == |alerts|
    ensures forall i :: 0 <= i < |r| ==> r[i] == Checked(alerts[i], websiteId, currentPrice)
  {
    if alerts == [] then []
    else Deactivated(alerts[..|alerts| - 1], websiteId, currentPrice) + [Checked(alerts[|alerts| - 1], websiteId, currentPrice)]
  }

  /** Exactly the alerts that fire are switched off; every other alert,
      of this website or another, is left exactly as it was. */
  lemma DeactivatedExactly(alerts: seq<PriceAlert>, websiteId: string, currentPrice: real)
    ensures var r := Deactivated(alerts, websiteId, currentPrice);
      forall i :: 0 <= i < |alerts| ==>
        (Fires(alerts[i], websiteId, currentPrice) ==> !r[i].isActive && r[i] == alerts[i].(isActive := false)) &&
        (!Fires(alerts[i], websiteId, currentPrice) ==> r[i] == alerts[i])
  {
  }

  /** An alert fires at most once: checking the same price again switches
      nothing off. */
  lemma CheckIsOneShot(alerts: seq<PriceAlert>, websiteId: string, currentPrice: real)
    ensures var r := Deactivated(alerts, websiteId, currentPrice);
      Deactivated(r, websiteId, currentPrice) == r &&
      forall i :: 0 <= i < |r| ==> !Fires(r[i], websiteId, currentPrice)
  {
    var r := Deactivated(alerts, websiteId, currentPrice);
    assert Deactivated(r, websiteId, currentPrice) == r;
  }

  /** The loop of `checkPriceAlerts`. The source filters the active alerts
      of the website and switches the fired ones off in place; here the
      loop visits every alert with that filter's test and writes the
      switched-off alert back at its position. */
  method CheckPriceAlerts(alerts0: seq<PriceAlert>, websiteId: string, currentPrice: real, enableNotifications: bool)
    returns (alerts: seq<PriceAlert>, notified: seq<PriceAlert>)
    ensures alerts == Deactivated(alerts0, websiteId, currentPrice)
    ensures notified == if enableNotifications then Keep(alerts0, (a: PriceAlert) => Fires(a, websiteId, currentPrice)) else []
  {
    alerts := alerts0;
    notified := [];
    ghost var fires := (a: PriceAlert) => Fires(a, websiteId, currentPrice);
    var k := 0;
    while k < |alerts0|
      invariant 0 <= k <= |alerts0|
      invariant |alerts| == |alerts0|
      invariant forall i :: 0 <= i < k ==> alerts[i] == Checked(alerts0[i], websiteId, currentPrice)
      invariant forall i :: k <= i < |alerts0| ==> alerts[i] == alerts0[i]
      invariant notified == if enableNotifications then Keep(alerts0[..k], fires) else []
    {
      KeepStep(alerts0, fires, k);
      ghost var before := alerts;
      var alert := alerts[k];
      if alert.isActive && alert.websiteId == websiteId {
        var triggered := false;
        match alert.condition {
          case Below => triggered := currentPrice < alert.targetPrice;
          case Above => triggered := currentPrice > alert.targetPrice;
          case Equal => triggered := Abs(currentPrice - alert.targetPrice) < 0.01;
        }
        if triggered {
          if enableNotifications {
            notified := notified + [alert];
          }
          alerts := alerts[k := alert.(isActive := false)];
        }
      }
      assert alerts == before[k := Checked(alerts0[k], websiteId, currentPrice)];
      k := k + 1;
    }
    assert alerts0[..k] == alerts0;
  }
}
