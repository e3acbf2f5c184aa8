/**
 * The message choice of `show_stats` (bot.py:168-192). The metrics come from
 * a stored procedure the bot calls; here they are the rows it returned, each a
 * dictionary of JSON values. `dict.get(key, 0)` supplies 0 for a missing key.
 */
module Stats {

  /** A metric value: a JSON number or JSON null (Python `None`). */
  datatype Value = Null | Num(n: real)

  type Metrics = map<string, Value>

  /** The closing line of the report (bot.py:187-190). */
  datatype Tip = RiskRewardTip | WinRateTip | NoTip

  datatype StatsReply =
    /** bot.py:177. */
    | NoTrades
    /** bot.py:180-192: the five figures shown, each read with default 0, and the tip. */
    | Report(totalTrades: Value, winRate: Value, avgWin: Value, avgLoss: Value,
             riskReward: Value, tip: Tip)
    /** Comparing `None` with a number raises `TypeError`; no reply is sent. */
    | StatsRaised

  /** `metrics.get(key, 0)`. */
  function Get(m: Metrics, key: string): Value {
    if key in m then m[key] else Num(0.0)
  }

  /** `not metrics or metrics.get("total_trades", 0) == 0` (bot.py:176); an empty dict is falsy. */
  predicate NothingLogged(rows: seq<Metrics>) {
    rows == [] || rows[0] == map[] || Get(rows[0], "total_trades") == Num(0.0)
  }

  /** What `show_stats` replies, given the procedure's rows (bot.py:175-192). */
  function ShowStats(rows: seq<Metrics>): (r: StatsReply)
    ensures r == NoTrades <==> NothingLogged(rows)
    ensures r.Report? ==> (
      rows != [] &&
      var m := rows[0];
      r.totalTrades == Get(m, "total_trades") && r.winRate == Get(m, "win_rate") &&
      r.avgWin == Get(m, "avg_win") && r.avgLoss == Get(m, "avg_loss") &&
      r.riskReward == Get(m, "risk_reward_ratio"))
    ensures r.Report? ==> (
      r.riskReward.Num? && (r.tip == RiskRewardTip <==> r.riskReward.n < 1.0))
    ensures r.Report? && r.tip != RiskRewardTip ==> (
      r.winRate.Num? && (r.tip == WinRateTip <==> r.winRate.n < 50.0))
    ensures r == StatsRaised <==> (
      !NothingLogged(rows) &&
      (Get(rows[0], "risk_reward_ratio").Null? ||
       (Get(rows[0], "risk_reward_ratio").n >= 1.0 && Get(rows[0], "win_rate").Null?)))
  {
    if NothingLogged(rows) then NoTrades
    else
      var m := rows[0];
      var report := Report(Get(m, "total_trades"), Get(m, "win_rate"), Get(m, "avg_win"),
                           Get(m, "avg_loss"), Get(m, "risk_reward_ratio"), NoTip);
      match Get(m, "risk_reward_ratio")
      case Null => StatsRaised
      case Num(ratio) =>
        if ratio < 1.0 then report.(tip := RiskRewardTip)
        else
          match Get(m, "win_rate")
          case Null => StatsRaised
          case Num(rate) => if rate < 50.0 then report.(tip := WinRateTip) else report
  }

  /**
   * The no-trades reply: no row, an empty row, or a count of 0. A null count
   * is not 0, so a row like that gets a report (its missing ratio reads as 0).
   */
  lemma NothingLoggedCases(m: Metrics)
    ensures ShowStats([]) == NoTrades && ShowStats([map[]]) == NoTrades
    ensures Get(m, "total_trades") == Num(0.0) ==> ShowStats([m]) == NoTrades
    ensures m == map["total_trades" := Null] ==> ShowStats([m]).Report? && ShowStats([m]).tip == RiskRewardTip
  {
  }

  /** A low risk-reward ratio beats a low win rate: the ratio warning is shown. */
  lemma RatioWarningFirst(m: Metrics)
    requires !NothingLogged([m])
    requires Get(m, "risk_reward_ratio").Num? && Get(m, "risk_reward_ratio").n < 1.0
    ensures ShowStats([m]).Report? && ShowStats([m]).tip == RiskRewardTip
  {
  }

  /** A missing key reads as the number 0: adding it as 0 changes no reply. */
  lemma MissingKeyIsZero(m: Metrics, key: string)
    requires key !in m
    ensures ShowStats([m]) == ShowStats([m[key := Num(0.0)]])
  {
    var m' := m[key := Num(0.0)];
    assert forall k :: Get(m', k) == Get(m, k);
    if m == map[] {
      assert Get(m', "total_trades") == Num(0.0);
    }
  }

  /** Without a risk-reward figure the ratio counts as 0, so the ratio warning is shown. */
  lemma MissingRatioWarns(m: Metrics)
    requires !NothingLogged([m]) && "risk_reward_ratio" !in m
    ensures ShowStats([m]).Report? && ShowStats([m]).tip == RiskRewardTip
  {
  }
}
