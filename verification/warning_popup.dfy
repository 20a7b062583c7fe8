/** The countdown logic of frontend/src/components/WarningPopup.jsx: how many
    violations remain before the automatic submission, when the popup turns
    critical, and the progress bar that empties while it is shown. */
module WarningPopup {

  /** The default allowance of violations. */
  const DefaultMaxViolations: int := 5
  /** The default time before the popup dismisses itself, in ms. */
  const DefaultDismissMs: int := 5000
  /** The progress bar is updated every 100 ms. */
  const TickMs: int := 100

  /** `maxViolations - violationCount`; it goes negative past the allowance. */
  function Remaining(maxViolations: int, violationCount: int): (r: int)
    ensures r + violationCount == maxViolations
  {
    maxViolations - violationCount
  }

  /** The popup is critical on the last allowed violation and after it. */
  predicate IsCritical(maxViolations: int, violationCount: int) {
    Remaining(maxViolations, violationCount) <= 1
  }

  /** What the counter line says. */
  datatype CounterLine = MoreUntilAutoSubmit(remaining: int) | AutoSubmitEnabled

  function Counter(maxViolations: int, violationCount: int): (c: CounterLine)
    ensures c == AutoSubmitEnabled <==> violationCount >= maxViolations
    ensures c.MoreUntilAutoSubmit? ==> c.remaining > 0 && c.remaining + violationCount == maxViolations
  {
    var r := Remaining(maxViolations, violationCount);
    if r > 0 then MoreUntilAutoSubmit(r) else AutoSubmitEnabled
  }

  /** With the default allowance the popup turns critical at the fourth
      violation and announces the automatic submission from the fifth. */
  lemma DefaultThresholds(violationCount: int)
    ensures IsCritical(DefaultMaxViolations, violationCount) <==> violationCount >= 4
    ensures Counter(DefaultMaxViolations, violationCount) == AutoSubmitEnabled <==> violationCount >= 5
  {
  }

  /** Announcing the automatic submission implies the critical look. */
  lemma AutoSubmitIsCritical(maxViolations: int, violationCount: int)
    requires Counter(maxViolations, violationCount) == AutoSubmitEnabled
    ensures IsCritical(maxViolations, violationCount)
  {
  }

  /** The amount the bar loses per tick: `100 / (autoDismissTime / 100)`. */
  function Step(autoDismissMs: int): (d: real)
    requires autoDismissMs > 0
    ensures d > 0.0
    ensures d * (autoDismissMs as real) == 10000.0
  {
    100.0 / (autoDismissMs as real / 100.0)
  }

  /** One tick of the interval: lose one step, never below zero. */
  function Tick(progress: real, autoDismissMs: int): (p: real)
    requires autoDismissMs > 0
    ensures 0.0 <= p <= if progress > 0.0 then progress else 0.0
    ensures p == 0.0 <==> progress <= Step(autoDismissMs)
    ensures progress > Step(autoDismissMs) ==> p == progress - Step(autoDismissMs)
  {
    var next := progress - Step(autoDismissMs);
    if next > 0.0 then next else 0.0
  }

  /** The bar while the popup shows, `n` ticks after it appeared; hiding
      the popup resets the bar to full. */
  function Progress(show: bool, n: nat, autoDismissMs: int): (p: real)
    requires autoDismissMs > 0
    ensures 0.0 <= p <= 100.0
    ensures !show ==> p == 100.0
    decreases n
  {
    if !show || n == 0 then 100.0 else Tick(Progress(show, n - 1, autoDismissMs), autoDismissMs)
  }

  /** For any dismiss time the bar reads 100 less one step per tick, until
      it is empty and stays empty. */
  lemma {:induction false} ProgressClosedForm(n: nat, autoDismissMs: int)
    requires autoDismissMs > 0
    ensures var full := 100.0 - n as real * Step(autoDismissMs);
      Progress(true, n, autoDismissMs) == if full > 0.0 then full else 0.0
  {
    if n > 0 {
      var d := Step(autoDismissMs);
      ProgressClosedForm(n - 1, autoDismissMs);
      assert n as real * d == (n - 1) as real * d + d;
    }
  }

  /** At the default 5000 ms the bar loses 2 per tick, so it reads
      100 - 2n and is empty after 50 ticks, that is after the dismiss
      time. */
  lemma {:induction false} DefaultProgress(n: nat)
    ensures Step(DefaultDismissMs) == 2.0
    ensures n <= 50 ==> Progress(true, n, DefaultDismissMs) == 100.0 - 2.0 * n as real
    ensures n >= 50 ==> Progress(true, n, DefaultDismissMs) == 0.0
  {
    assert Step(DefaultDismissMs) == 2.0;
    if n > 0 {
      DefaultProgress(n - 1);
    }
  }
}
