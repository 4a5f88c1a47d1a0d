/** `stop_all_drivers`: every registered browser driver is asked to quit, in
    the map's insertion order, a failing `quit()` is reported and skipped, and
    the map is cleared at the end. Whether a driver's `quit()` raises is an
    input; the progress messages are not modelled. */
module Drivers {
  import opened Common
  import Dict

  /** The run ids whose `quit()` raises, in map order: the ones reported as
      "Error stopping driver". */
  function Failures<D>(drivers: Dict.Dict<string, D>, quitRaises: D -> bool): seq<string>
    decreases |drivers|
  {
    if |drivers| == 0 then []
    else (if quitRaises(drivers[0].1) then [drivers[0].0] else []) + Failures(drivers[1..], quitRaises)
  }

  /** A run id is reported exactly when one of its entries' `quit()` raises. */
  lemma {:induction false} FailuresIff<D>(drivers: Dict.Dict<string, D>, quitRaises: D -> bool, k: string)
    ensures k in Failures(drivers, quitRaises) <==>
              exists i :: 0 <= i < |drivers| && drivers[i].0 == k && quitRaises(drivers[i].1)
    decreases |drivers|
  {
    if |drivers| > 0 {
      FailuresIff(drivers[1..], quitRaises, k);
      if exists i :: 0 <= i < |drivers| && drivers[i].0 == k && quitRaises(drivers[i].1) {
        var i :| 0 <= i < |drivers| && drivers[i].0 == k && quitRaises(drivers[i].1);
        if i > 0 {
          assert drivers[1..][i - 1] == drivers[i];
        }
      }
      if k in Failures(drivers[1..], quitRaises) {
        var i :| 0 <= i < |drivers[1..]| && drivers[1..][i].0 == k && quitRaises(drivers[1..][i].1);
        assert drivers[i + 1] == drivers[1..][i];
      }
    }
  }

  /** The loop of `stop_all_drivers` over `list(driver.items())` followed by
      `driver.clear()`: `attempted` lists whose `quit()` was called and
      `failed` whose `quit()` raised. */
  method StopAllDrivers<D>(drivers: Dict.Dict<string, D>, quitRaises: D -> bool)
    returns (remaining: Dict.Dict<string, D>, attempted: seq<string>, failed: seq<string>)
    ensures remaining == []
    ensures attempted == Dict.Keys(drivers)
    ensures failed == Failures(drivers, quitRaises)
    ensures forall k :: k in failed <==>
              exists i :: 0 <= i < |drivers| && drivers[i].0 == k && quitRaises(drivers[i].1)
  {
    attempted, failed := [], [];
    for i := 0 to |drivers|
      invariant attempted == Dict.Keys(drivers[..i])
      invariant failed + Failures(drivers[i..], quitRaises) == Failures(drivers, quitRaises)
    {
      var (runId, drv) := drivers[i];
      assert drivers[i..][1..] == drivers[i + 1..];
      attempted := attempted + [runId];
      if quitRaises(drv) {
        failed := failed + [runId];
      }
      assert Dict.Keys(drivers[..i + 1]) == Dict.Keys(drivers[..i]) + [runId];
    }
    assert drivers[..|drivers|] == drivers;
    assert drivers[|drivers|..] == [];
    remaining := [];
    forall k
      ensures k in failed <==>
                exists i :: 0 <= i < |drivers| && drivers[i].0 == k && quitRaises(drivers[i].1)
    {
      FailuresIff(drivers, quitRaises, k);
    }
  }
}
