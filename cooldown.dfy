/**
 * The refresh cooldown of main.py's `check_update_cooldown`: one global
 * window of 900 seconds measured from the newest `updated_at` of any city.
 */
module Cooldown {
  import opened Wrappers
  import opened Models

  /** 15 minutes, in seconds. */
  const CooldownSeconds: int := 900

  /**
   * The newest timestamp in the table, what `ORDER BY updated_at DESC`
   * yields first (SQLite sorts NULL below every value, so a NULL comes
   * first only when every row is NULL); None when no city has one.
   */
  function LatestUpdate(cs: seq<City>): (r: Option<int>)
    ensures r.None? <==> forall i :: 0 <= i < |cs| ==> cs[i].updatedAt.None?
    ensures r.Some? ==> exists i :: 0 <= i < |cs| && cs[i].updatedAt == r
    ensures r.Some? ==> forall i :: 0 <= i < |cs| && cs[i].updatedAt.Some? ==> cs[i].updatedAt.value <= r.value
  {
    if cs == [] then None
    else
      var rest := LatestUpdate(cs[..|cs| - 1]);
      var last := cs[|cs| - 1].updatedAt;
      assert forall i :: 0 <= i < |cs| - 1 ==> cs[..|cs| - 1][i] == cs[i];
      match rest
      case None => last
      case Some(t) =>
        if last.Some? && last.value > t then last else rest
  }

  /**
   * Whether a refresh is allowed at `now`: exactly when every timestamp in
   * the table is at least 900 seconds old, so an empty table and a table in
   * which no city was ever refreshed both allow it.
   */
  function CanRefresh(cs: seq<City>, now: int): (ok: bool)
    ensures ok <==> forall i :: 0 <= i < |cs| && cs[i].updatedAt.Some? ==> now - cs[i].updatedAt.value >= CooldownSeconds
  {
    match LatestUpdate(cs)
    case None => true
    case Some(last) => now - last >= CooldownSeconds
  }

  /** The boundary is inclusive: 900 seconds after the newest update it opens, one second earlier it does not. */
  lemma CooldownBoundary(cs: seq<City>, last: int)
    requires LatestUpdate(cs) == Some(last)
    ensures CanRefresh(cs, last + CooldownSeconds)
    ensures !CanRefresh(cs, last + CooldownSeconds - 1)
  {
  }

  /** One recently refreshed city closes the window for the whole table. */
  lemma OneRecentUpdateBlocksAll(cs: seq<City>, i: int, now: int)
    requires 0 <= i < |cs| && cs[i].updatedAt.Some?
    requires now - cs[i].updatedAt.value < CooldownSeconds
    ensures !CanRefresh(cs, now)
  {
  }

  /** Adding a city that was never refreshed does not change the decision. */
  lemma NewCityKeepsDecision(cs: seq<City>, c: City, now: int)
    requires c.updatedAt.None?
    ensures CanRefresh(cs + [c], now) == CanRefresh(cs, now)
  {
  }
}
