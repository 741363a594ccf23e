/** The adaptive dispatch window: bounds over every run, halving on retries, recovery on
    successes, and sampling under load. */
module Window {

  datatype Policy = Static | Adaptive | Pressure

  datatype Sched = Sched(minWindow: nat, maxWindow: nat, baseWindow: nat, currentWindow: nat, inflightLimit: nat,
                         cooldownMs: nat, successes: nat, cooldownUntil: nat, policy: Policy, dynamic: bool)

  // ---- Steps ---------------------------------------------------------------------------------

  function Max(a: nat, b: nat): nat { if a >= b then a else b }

  function Min(a: nat, b: nat): nat { if a <= b then a else b }

  /** kfastblock_scheduler_clamp_window: never 0, and within the bounds when they are in
      order; bounds out of order count as the lower one. */
  function Clamp(window: nat, minWindow: nat, maxWindow: nat): (r: nat)
    ensures r >= 1
    ensures 1 <= minWindow <= maxWindow ==> minWindow <= r <= maxWindow && (minWindow <= window <= maxWindow ==> r == window)
    ensures 1 <= minWindow && maxWindow < minWindow ==> r == minWindow
  {
    var lo := if minWindow == 0 then 1 else minWindow;
    var hi := if maxWindow == 0 then lo else maxWindow;
    var hi := if hi < lo then lo else hi;
    if window < lo then lo else if window > hi then hi else window
  }

  function ClampPolicy(code: nat): Policy {
    match code
    case 0 => Static
    case 1 => Adaptive
    case 2 => Pressure
    case _ => Adaptive
  }

  function Init(base: nat, minWindow: nat, maxWindow: nat): Sched {
    var lo := if minWindow != 0 then minWindow else 1;
    var hi := if maxWindow != 0 then maxWindow else lo;
    var b := Clamp(if base != 0 then base else lo, lo, hi);
    Sched(lo, hi, b, b, Max(b * 2 % 0x1_0000_0000, lo), 250, 0, 0, Adaptive, true)
  }

  datatype Step =
    | SetBase(base: nat)
    | SetPolicy(code: nat)
    | SetInflightLimit(limit: nat)
    | SetCooldown(ms: nat)
    | SetDynamic(enabled: bool)
    | Success
    | Retry(now: nat, jiffies: nat)

  /** Growing and shrinking are switched on. */
  predicate Moving(s: Sched) {
    s.dynamic && s.policy != Static
  }

  function AtBase(s: Sched): Sched {
    s.(currentWindow := s.baseWindow, successes := 0, cooldownUntil := 0)
  }

  /** One more success; enough of them in a row widen the window by one. */
  function Succeeded(s: Sched): Sched {
    if !Moving(s) || s.currentWindow >= s.baseWindow then s.(successes := 0)
    else if s.successes + 1 >= Max(s.currentWindow, 1) then
      s.(currentWindow := Min(s.currentWindow + 1, s.baseWindow), successes := 0)
    else s.(successes := s.successes + 1)
  }

  /** A retry or a failed dispatch halves the window; jiffies is the cooldown in ticks. */
  function Retried(s: Sched, now: nat, jiffies: nat): Sched {
    var until := if s.cooldownMs != 0 && s.policy == Pressure && s.dynamic then now + jiffies else s.cooldownUntil;
    var next := Max(s.currentWindow / 2, s.minWindow);
    s.(successes := 0, cooldownUntil := until,
       currentWindow := if Moving(s) && s.currentWindow > s.minWindow && next < s.currentWindow then next else s.currentWindow)
  }

  function Next(s: Sched, step: Step): Sched {
    match step
    case SetBase(base) =>
      var b := Clamp(if base != 0 then base else s.minWindow, s.minWindow, s.maxWindow);
      s.(baseWindow := b, currentWindow := Clamp(s.currentWindow, s.minWindow, b), successes := 0)
    case SetPolicy(code) =>
      var s := s.(policy := ClampPolicy(code));
      if s.policy == Static then AtBase(s) else s
    case SetInflightLimit(limit) => s.(inflightLimit := limit)
    case SetCooldown(ms) => s.(cooldownMs := ms, cooldownUntil := if ms == 0 then 0 else s.cooldownUntil)
    case SetDynamic(enabled) =>
      var s := s.(dynamic := enabled);
      if !enabled then AtBase(s) else s
    case Success => Succeeded(s)
    case Retry(now, jiffies) => Retried(s, now, jiffies)
  }

  function Run(s: Sched, steps: seq<Step>): Sched {
    if steps == [] then s else Next(Run(s, steps[..|steps| - 1]), steps[|steps| - 1])
  }

  // ---- Bounds --------------------------------------------------------------------------------

  /** What the driver's self check asks of a controller. */
  predicate Bounded(s: Sched) {
    0 < s.minWindow <= s.currentWindow <= s.baseWindow <= s.maxWindow
  }

  lemma StepBounded(s: Sched, step: Step)
    requires Bounded(s)
    ensures Bounded(Next(s, step))
  {
  }

  lemma {:induction false} RunBounded(s: Sched, steps: seq<Step>)
    requires Bounded(s)
    ensures Bounded(Run(s, steps))
  {
    if steps != [] {
      RunBounded(s, steps[..|steps| - 1]);
      StepBounded(Run(s, steps[..|steps| - 1]), steps[|steps| - 1]);
    }
  }

  lemma {:induction false} BoundsFixed(s: Sched, steps: seq<Step>)
    ensures Run(s, steps).minWindow == s.minWindow && Run(s, steps).maxWindow == s.maxWindow
  {
    if steps != [] { BoundsFixed(s, steps[..|steps| - 1]); }
  }

  /** The bounds hold in every state of every run exactly when the upper bound given at the
      start is 0 or not below the lower one, a lower bound of 0 counting as 1. */
  lemma BoundedIff(base: nat, minWindow: nat, maxWindow: nat, steps: seq<Step>)
    ensures Bounded(Run(Init(base, minWindow, maxWindow), steps)) <==> maxWindow == 0 || Max(minWindow, 1) <= maxWindow
  {
    var s := Init(base, minWindow, maxWindow);
    if maxWindow == 0 || Max(minWindow, 1) <= maxWindow {
      RunBounded(s, steps);
    } else {
      BoundsFixed(s, steps);
    }
  }

  // ---- Halving -------------------------------------------------------------------------------

  function Halved(c: nat, k: nat): nat {
    if k == 0 then c else Halved(c, k - 1) / 2
  }

  function Pow2(k: nat): (r: nat)
    ensures r >= 1
  {
    if k == 0 then 1 else 2 * Pow2(k - 1)
  }

  lemma {:induction false} HalveAgain(c: nat, p: nat, q: nat)
    requires p >= 1 && q == c / p
    ensures q / 2 == c / (2 * p)
  {
    var r := c - p * q;
    assert 0 <= r < p;
    var h, b := q / 2, q % 2;
    assert c == p * q + r && q == 2 * h + b;
    assert p * q == 2 * p * h + p * b by { assert p * (2 * h + b) == 2 * p * h + p * b; }
    Quotient(c, 2 * p, h, p * b + r);
  }

  lemma {:induction false} Quotient(c: nat, d: nat, h: nat, r: nat)
    requires d >= 1 && c == d * h + r && r < d
    ensures c / d == h
  {
    var q := c / d;
    assert d * q <= c < d * (q + 1) by { assert c == d * q + c % d; assert d * (q + 1) == d * q + d; }
    assert d * (h + 1) == d * h + d;
    if q < h {
      Times(d, q + 1, h);
      assert false;
    } else if q > h {
      Times(d, h + 1, q);
      assert false;
    }
  }

  lemma Times(d: nat, a: nat, b: nat)
    requires a <= b
    ensures d * a <= d * b
  {
  }

  lemma {:induction false} HalvedIsQuotient(c: nat, k: nat)
    ensures Halved(c, k) == c / Pow2(k)
  {
    if k > 0 {
      HalvedIsQuotient(c, k - 1);
      HalveAgain(c, Pow2(k - 1), Halved(c, k - 1));
    }
  }

  /** k retries in a row, at any times. */
  function Retries(s: Sched, at: seq<(nat, nat)>): Sched {
    if at == [] then s else Retried(Retries(s, at[..|at| - 1]), at[|at| - 1].0, at[|at| - 1].1)
  }

  /** k retries take the window from c to c / 2^k, but not below the minimum, and change no
      bound, policy or switch. */
  lemma {:induction false} RetriesHalve(s: Sched, at: seq<(nat, nat)>)
    requires Bounded(s) && Moving(s)
    ensures Retries(s, at).currentWindow == Max(s.currentWindow / Pow2(|at|), s.minWindow)
    ensures Retries(s, at).minWindow == s.minWindow && Moving(Retries(s, at))
  {
    HalvedIsQuotient(s.currentWindow, |at|);
    RetriesHalved(s, at);
  }

  lemma {:induction false} RetriesHalved(s: Sched, at: seq<(nat, nat)>)
    requires Bounded(s) && Moving(s)
    ensures Retries(s, at).currentWindow == Max(Halved(s.currentWindow, |at|), s.minWindow)
    ensures Retries(s, at).minWindow == s.minWindow && Moving(Retries(s, at))
  {
    if at != [] { RetriesHalved(s, at[..|at| - 1]); }
  }

  // ---- Recovery ------------------------------------------------------------------------------

  /** w + (w + 1) + ... + (b - 1) */
  function SumFrom(w: nat, b: nat): nat
    decreases b
  {
    if b <= w then 0 else SumFrom(w, b - 1) + (b - 1)
  }

  function Successes(s: Sched, n: nat): Sched {
    if n == 0 then s else Succeeded(Successes(s, n - 1))
  }

  /** After n uninterrupted successes the window and the running count say exactly how many
      there were. */
  lemma {:induction false} SuccessCount(s: Sched, n: nat)
    requires Bounded(s) && Moving(s) && s.successes == 0 && n <= SumFrom(s.currentWindow, s.baseWindow)
    ensures var t := Successes(s, n);
            && Moving(t) && t.baseWindow == s.baseWindow && s.currentWindow <= t.currentWindow <= s.baseWindow
            && n == SumFrom(s.currentWindow, t.currentWindow) + t.successes
            && (t.currentWindow < t.baseWindow ==> t.successes < t.currentWindow)
            && (t.currentWindow == t.baseWindow ==> t.successes == 0)
  {
    if n > 0 {
      SuccessCount(s, n - 1);
      var t := Successes(s, n - 1);
      assert t.currentWindow < t.baseWindow;
    }
  }

  lemma {:induction false} SumMonotone(w: nat, a: nat, b: nat)
    requires w <= a <= b
    ensures SumFrom(w, a) <= SumFrom(w, b)
    ensures 1 <= w && a < b ==> SumFrom(w, a) + a <= SumFrom(w, b)
  {
    if a < b { SumMonotone(w, a, b - 1); }
  }

  /** The window is back at its base after exactly w + ... + (base - 1) uninterrupted
      successes, and not before. */
  lemma RecoveryExact(s: Sched, n: nat)
    requires Bounded(s) && Moving(s) && s.successes == 0 && n <= SumFrom(s.currentWindow, s.baseWindow)
    ensures Successes(s, n).currentWindow == s.baseWindow <==> n == SumFrom(s.currentWindow, s.baseWindow)
  {
    SuccessCount(s, n);
    var t := Successes(s, n);
    if t.currentWindow < s.baseWindow {
      SumMonotone(s.currentWindow, t.currentWindow, s.baseWindow);
    }
  }

  // ---- Sampling ------------------------------------------------------------------------------

  function CooldownActive(s: Sched, now: nat): bool {
    s.cooldownMs != 0 && now < s.cooldownUntil
  }

  /** kfastblock_scheduler_limit_for_pressure_locked */
  function PressureLimit(s: Sched, window: nat, inflight: nat, cooling: bool): nat {
    var limited := Clamp(if window != 0 then window else 1, s.minWindow, s.maxWindow);
    Clamp(Cooled(Pressed(limited, s.minWindow, s.inflightLimit, inflight), s.minWindow, cooling), s.minWindow, s.maxWindow)
  }

  /** Every I/O above the limit costs one slot. */
  function Pressed(window: nat, minWindow: nat, limit: nat, inflight: nat): nat {
    if limit != 0 && inflight > limit then
      var over := inflight - limit;
      Min(window, if over >= window then minWindow else Max(window - over, minWindow))
    else window
  }

  function Cooled(window: nat, minWindow: nat, cooling: bool): nat {
    if cooling && window > minWindow then Min(window, Max(window / 2, minWindow)) else window
  }

  /** kfastblock_scheduler_sample_window */
  function Sample(s: Sched, inflight: nat, objects: nat, now: nat): nat {
    var window := if s.dynamic then s.currentWindow else s.baseWindow;
    var pressed := if s.dynamic && s.policy == Pressure then PressureLimit(s, window, inflight, CooldownActive(s, now)) else window;
    Effective(s, pressed, objects)
  }

  /** No wider than the request has objects, and within the bounds. */
  function Effective(s: Sched, pressed: nat, objects: nat): nat {
    var effective := if pressed != 0 then pressed else 1;
    Clamp(if objects != 0 then Min(effective, objects) else effective, s.minWindow, s.maxWindow)
  }

  lemma EffectiveMonotone(s: Sched, x: nat, y: nat, objects: nat)
    requires x <= y
    ensures Effective(s, x, objects) <= Effective(s, y, objects)
  {
  }

  lemma EffectiveBounds(s: Sched, pressed: nat, window: nat, objects: nat)
    requires 0 < s.minWindow <= window <= s.maxWindow && pressed <= window
    ensures s.minWindow <= Effective(s, pressed, objects) <= window
  {
  }

  lemma PressureBelow(s: Sched, window: nat, x: nat, cooling: bool)
    requires 0 < s.minWindow <= window <= s.maxWindow
    ensures PressureLimit(s, window, x, cooling) <= window
  {
  }

  lemma PressureMonotone(s: Sched, window: nat, x: nat, y: nat, cooling: bool)
    requires x <= y
    ensures PressureLimit(s, window, y, cooling) <= PressureLimit(s, window, x, cooling)
  {
  }

  /** More load never widens the sampled window; the sample is not below the minimum and not
      above the window it is taken from. */
  lemma SampleMonotone(s: Sched, x: nat, y: nat, objects: nat, now: nat)
    requires Bounded(s) && x <= y
    ensures Sample(s, y, objects, now) <= Sample(s, x, objects, now)
    ensures s.minWindow <= Sample(s, x, objects, now) <= if s.dynamic then s.currentWindow else s.baseWindow
  {
    var window := if s.dynamic then s.currentWindow else s.baseWindow;
    var cooling := CooldownActive(s, now);
    if s.dynamic && s.policy == Pressure {
      PressureMonotone(s, window, x, y, cooling);
      PressureBelow(s, window, x, cooling);
      EffectiveMonotone(s, PressureLimit(s, window, y, cooling), PressureLimit(s, window, x, cooling), objects);
      EffectiveBounds(s, PressureLimit(s, window, x, cooling), window, objects);
    } else {
      EffectiveBounds(s, window, window, objects);
    }
  }

  /** What the sample is, for a controller within its bounds: the window, less one slot for each
      I/O above the limit and half of the rest during a cooldown, both only under pressure and
      never below the minimum; and no wider than the request, unless that is below the minimum. */
  lemma SampleExact(s: Sched, inflight: nat, objects: nat, now: nat)
    requires Bounded(s)
    ensures var window := if s.dynamic then s.currentWindow else s.baseWindow;
            var pressing := s.dynamic && s.policy == Pressure;
            var over := if pressing && s.inflightLimit != 0 && inflight > s.inflightLimit then inflight - s.inflightLimit else 0;
            var pressed := if window - over >= s.minWindow then window - over else s.minWindow;
            var cooled := if pressing && s.cooldownMs != 0 && now < s.cooldownUntil then Max(pressed / 2, s.minWindow) else pressed;
            Sample(s, inflight, objects, now) ==
            if objects == 0 || objects >= cooled then cooled else Max(objects, s.minWindow)
  {
  }

  /** A retry under pressure starts a cooldown of the given length; otherwise it leaves the old
      one alone. */
  lemma RetryCools(s: Sched, now: nat, jiffies: nat, t: nat)
    ensures CooldownActive(Next(s, Retry(now, jiffies)), t) <==>
            s.cooldownMs != 0 && t < if s.policy == Pressure && s.dynamic then now + jiffies else s.cooldownUntil
  {
  }

  /** A controller starts at its base, within its bounds, with room for twice the base in flight. */
  lemma InitExact(base: nat, minWindow: nat, maxWindow: nat)
    requires 1 <= minWindow <= maxWindow < 0x8000_0000
    ensures var s := Init(base, minWindow, maxWindow);
            && s.minWindow == minWindow && s.maxWindow == maxWindow && s.dynamic && s.policy == Adaptive
            && s.baseWindow == (if base < minWindow then minWindow else if base > maxWindow then maxWindow else base)
            && s.currentWindow == s.baseWindow && s.inflightLimit == 2 * s.baseWindow
            && s.successes == 0 && s.cooldownUntil == 0
  {
  }

  /** A new base is taken within the bounds, 0 standing for the minimum, and narrows the window to
      it; switching off or the static policy takes the window to the base. */
  lemma SettingsExact(s: Sched, base: nat, code: nat)
    requires Bounded(s)
    ensures var t := Next(s, SetBase(base));
            && t.baseWindow == (if base < s.minWindow then s.minWindow else if base > s.maxWindow then s.maxWindow else base)
            && t.currentWindow == Min(s.currentWindow, t.baseWindow)
            && t == s.(baseWindow := t.baseWindow, currentWindow := t.currentWindow, successes := 0)
    ensures var t := Next(s, SetDynamic(false)); !t.dynamic && t.currentWindow == t.baseWindow == s.baseWindow
    ensures Next(s, SetDynamic(true)) == s.(dynamic := true)
    ensures var t := Next(s, SetPolicy(code));
            && t.policy == (if code == 0 then Static else if code == 2 then Pressure else Adaptive)
            && t.currentWindow == if code == 0 then s.baseWindow else s.currentWindow
  {
  }

  // ---- Static mode ---------------------------------------------------------------------------

  /** The self check also expects the current window at its base while the controller is
      switched off. Raising the base breaks that; every other step keeps it. */
  lemma StaticModeIff(s: Sched, step: Step)
    requires Bounded(s) && !s.dynamic && s.currentWindow == s.baseWindow && !Next(s, step).dynamic
    ensures Next(s, step).currentWindow == Next(s, step).baseWindow <==>
            !(step.SetBase? && Clamp(if step.base != 0 then step.base else s.minWindow, s.minWindow, s.maxWindow) > s.baseWindow)
  {
  }

  /** So a controller that was switched off at 4 and then given a base of 8 stays at 4. */
  lemma RaisedWhileOff()
    ensures var s := Run(Init(4, 1, 128), [SetDynamic(false), SetBase(8)]);
      Bounded(s) && !s.dynamic && s.baseWindow == 8 && s.currentWindow == 4
  {
    var s := Init(4, 1, 128);
    var steps := [SetDynamic(false), SetBase(8)];
    assert steps[..1] == [SetDynamic(false)] && steps[..1][..0] == [];
    assert Run(s, steps[..1]) == Next(s, SetDynamic(false));
  }

  // ---- The controller ------------------------------------------------------------------------

  class Controller {
    var minWindow: nat
    var maxWindow: nat
    var baseWindow: nat
    var currentWindow: nat
    var inflightLimit: nat
    var cooldownMs: nat
    var successes: nat
    var cooldownUntil: nat
    var policy: Policy
    var dynamic: bool

    function Value(): Sched
      reads this
    {
      Sched(minWindow, maxWindow, baseWindow, currentWindow, inflightLimit, cooldownMs, successes, cooldownUntil, policy, dynamic)
    }

    constructor (base: nat, lo: nat, hi: nat)
      ensures Value() == Init(base, lo, hi)
    {
      var min := if lo != 0 then lo else 1;
      var max := if hi != 0 then hi else min;
      var b := Clamp(if base != 0 then base else min, min, max);
      minWindow, maxWindow, baseWindow, currentWindow := min, max, b, b;
      inflightLimit := Max(b * 2 % 0x1_0000_0000, min);
      cooldownMs, successes, cooldownUntil, policy, dynamic := 250, 0, 0, Adaptive, true;
    }

    method SetBaseWindow(base: nat)
      modifies this
      ensures Value() == Next(old(Value()), SetBase(base))
    {
      baseWindow := Clamp(if base != 0 then base else minWindow, minWindow, maxWindow);
      currentWindow := Clamp(currentWindow, minWindow, baseWindow);
      successes := 0;
    }

    method SetSchedulerPolicy(code: nat)
      modifies this
      ensures Value() == Next(old(Value()), SetPolicy(code))
    {
      policy := ClampPolicy(code);
      if policy == Static {
        currentWindow, successes, cooldownUntil := baseWindow, 0, 0;
      }
    }

    method SetCooldownMs(ms: nat)
      modifies this
      ensures Value() == Next(old(Value()), SetCooldown(ms))
    {
      cooldownMs := ms;
      if ms == 0 { cooldownUntil := 0; }
    }

    method SetDynamicEnabled(enabled: bool)
      modifies this
      ensures Value() == Next(old(Value()), SetDynamic(enabled))
    {
      dynamic := enabled;
      if !enabled {
        currentWindow, successes, cooldownUntil := baseWindow, 0, 0;
      }
    }

    method NoteSuccess()
      modifies this
      ensures Value() == Next(old(Value()), Success)
    {
      if !dynamic || policy == Static || currentWindow >= baseWindow {
        successes := 0;
        return;
      }
      successes := successes + 1;
      if successes >= Max(currentWindow, 1) {
        currentWindow := Min(currentWindow + 1, baseWindow);
        successes := 0;
      }
    }

    /** kfastblock_scheduler_note_retry and kfastblock_scheduler_note_dispatch_failure */
    method NoteRetry(now: nat, jiffies: nat)
      modifies this
      ensures Value() == Next(old(Value()), Retry(now, jiffies))
    {
      successes := 0;
      if cooldownMs != 0 && policy == Pressure && dynamic { cooldownUntil := now + jiffies; }
      if !dynamic || policy == Static || currentWindow <= minWindow { return; }
      var next := Max(currentWindow / 2, minWindow);
      if next < currentWindow { currentWindow := next; }
    }

    /** kfastblock_scheduler_sample_window */
    method SampleWindow(inflight: nat, objects: nat, now: nat) returns (effective: nat)
      ensures effective == Sample(Value(), inflight, objects, now)
    {
      var window := if dynamic then currentWindow else baseWindow;
      var pressed := window;
      if dynamic && policy == Pressure {
        pressed := LimitForPressure(window, inflight, cooldownMs != 0 && now < cooldownUntil);
      }
      effective := if pressed != 0 then pressed else 1;
      if objects != 0 { effective := Min(effective, objects); }
      effective := Clamp(effective, minWindow, maxWindow);
    }

    method LimitForPressure(window: nat, inflight: nat, cooling: bool) returns (limited: nat)
      ensures limited == PressureLimit(Value(), window, inflight, cooling)
    {
      limited := Clamp(if window != 0 then window else 1, minWindow, maxWindow);
      if inflightLimit != 0 && inflight > inflightLimit {
        var over := inflight - inflightLimit;
        var reduced := if over >= limited then minWindow else Max(limited - over, minWindow);
        if reduced < limited { limited := reduced; }
      }
      assert limited == Pressed(Clamp(if window != 0 then window else 1, minWindow, maxWindow), minWindow, inflightLimit, inflight);
      if cooling && limited > minWindow {
        var cooled := Max(limited / 2, minWindow);
        if cooled < limited { limited := cooled; }
      }
      limited := Clamp(limited, minWindow, maxWindow);
    }
  }
}
