/**
 * src/node_save/puppeteer_util.js: `waitTillHTMLRendered(page, timeout)`
 * samples the length of the page's HTML once a second until four samples
 * in a row have the same non-zero length, or until the time is up. The
 * page is a parameter: `content(k)` is the HTML the `k`-th sample reads.
 */
module RenderWait {
  import opened Js

  const CheckDurationMs := 1000
  const MinStableSizeIterations := 3
  const DefaultTimeoutMs := 30000

  /** The `timeout = 30000` default, which applies when the argument is `undefined`. */
  function TimeoutOf(arg: Option<int>): int {
    match arg
    case None => DefaultTimeoutMs
    case Some(t) => t
  }

  /**
   * How often `checkCounts++ <= timeout / 1000` holds: `checkCounts` runs
   * 1, 2, ... against the real quotient, so the loop body runs the whole
   * number of seconds in `timeout`, and never for a negative timeout.
   */
  function MaxSamples(timeout: int): (r: nat)
    ensures r * CheckDurationMs <= (if timeout < 0 then 0 else timeout) < (r + 1) * CheckDurationMs
  {
    if timeout <= 0 then 0 else timeout / CheckDurationMs
  }

  /**
   * `countStableSizeIterations` after the `k`-th sample: it grows when the
   * previous length was non-zero and equals this one, and drops to 0
   * otherwise. Before the first sample the previous length is 0.
   */
  function StableCount(content: nat -> string, k: nat): (r: nat)
    ensures r <= k
  {
    if k == 0 then 0
    else if |content(k - 1)| != 0 && |content(k)| == |content(k - 1)| then StableCount(content, k - 1) + 1
    else 0
  }

  /** The `k`-th sample is the fourth in a row with the same non-zero length. */
  predicate SettledAt(content: nat -> string, k: nat) {
    k >= 3 && |content(k)| != 0
    && |content(k - 1)| == |content(k)| && |content(k - 2)| == |content(k)| && |content(k - 3)| == |content(k)|
  }

  /** The counter reaches 3 exactly at a fourth equal non-zero length in a row. */
  lemma {:induction false} StableCountSettles(content: nat -> string, k: nat)
    ensures StableCount(content, k) >= MinStableSizeIterations <==> SettledAt(content, k)
  {
    if StableCount(content, k) >= 3 {
      assert StableCount(content, k - 1) >= 2;
      assert StableCount(content, k - 2) >= 1;
    }
    if SettledAt(content, k) {
      assert StableCount(content, k - 2) >= 1;
      assert StableCount(content, k - 1) >= 2;
    }
  }

  /** A zero length never counts as stable for the sample after it. */
  lemma ZeroLengthResets(content: nat -> string, k: nat)
    requires |content(k)| == 0
    ensures StableCount(content, k + 1) == 0 && !SettledAt(content, k + 1) && !SettledAt(content, k)
  {
  }

  /**
   * The loop of `waitTillHTMLRendered`: how many samples it takes, how long
   * it waits in all, and whether it left early because the length settled.
   */
  method WaitTillHtmlRendered(content: nat -> string, timeout: Option<int>) returns (samples: nat, waitedMs: nat, settled: bool)
    ensures samples <= MaxSamples(TimeoutOf(timeout))
    ensures settled <==> exists k: nat :: k < MaxSamples(TimeoutOf(timeout)) && SettledAt(content, k)
    ensures settled ==> samples >= 1 && SettledAt(content, samples - 1)
    ensures forall k: nat :: k < samples - 1 ==> !SettledAt(content, k)
    ensures !settled ==> samples == MaxSamples(TimeoutOf(timeout))
    ensures waitedMs == CheckDurationMs * (if settled then samples - 1 else samples)
  {
    var maxChecks := MaxSamples(TimeoutOf(timeout));
    var lastHtmlSize := 0;
    var checkCounts := 1;
    var countStableSizeIterations := 0;
    samples, waitedMs, settled := 0, 0, false;
    while checkCounts <= maxChecks
      invariant samples == checkCounts - 1 <= maxChecks
      invariant lastHtmlSize == if samples == 0 then 0 else |content(samples - 1)|
      invariant countStableSizeIterations == if samples == 0 then 0 else StableCount(content, samples - 1)
      invariant forall k: nat :: k < samples ==> !SettledAt(content, k)
      invariant waitedMs == CheckDurationMs * samples
      decreases maxChecks - samples
    {
      checkCounts := checkCounts + 1;
      var currentHtmlSize := |content(samples)|;
      if lastHtmlSize != 0 && currentHtmlSize == lastHtmlSize {
        countStableSizeIterations := countStableSizeIterations + 1;
      } else {
        countStableSizeIterations := 0;
      }
      StableCountSettles(content, samples);
      samples := samples + 1;
      if countStableSizeIterations >= MinStableSizeIterations {
        settled := true;
        break;
      }
      lastHtmlSize := currentHtmlSize;
      waitedMs := waitedMs + CheckDurationMs;
    }
  }
}
