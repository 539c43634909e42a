/** The custom scroll-to-bottom button (src/components/ScrollButton.js; the
    root ScrollButton.js has the same logic): its near-bottom visibility
    rule and the retry counter of its lookup of the page's native button. */
module ScrollButton {
  import opened ChatManager

  /** One reading of the container's scroll metrics. */
  datatype Sample = Sample(scrollTop: real, clientHeight: real, scrollHeight: real)

  /** `injected`: `this.button` is set; `container`: `this.container` is
      set; `hidden`: the button's `style.display` is `none`; `retries`:
      `nativeButtonRetryCount`. */
  datatype Button = Button(injected: bool, container: bool, hidden: bool, retries: nat)

  /** Missed lookups of the native button are reported only this many times. */
  const WarnLimit: nat := 3

  /** The constructor: no button injected, no container, no retries yet. */
  function NewButton(): (r: Button)
    ensures !r.injected && !r.container && r.retries == 0
  {
    Button(false, false, false, 0)
  }

  /** How far the viewport's bottom edge is above the content's bottom. */
  function DistanceToBottom(s: Sample): real
  {
    s.scrollHeight - s.scrollTop - s.clientHeight
  }

  /** The rule of `updateVisibility`, as the source writes it. */
  predicate NearBottom(cfg: Config, s: Sample)
  {
    s.scrollTop + s.clientHeight >= s.scrollHeight - s.clientHeight * cfg.bottomRatio
  }

  /** `updateVisibility()`: without button or container nothing happens;
      otherwise the button is hidden exactly when the remaining distance to
      the bottom is at most `clientHeight * DYNAMIC_BOTTOM_RATIO`. */
  function UpdateVisibility(cfg: Config, b: Button, s: Sample): (r: Button)
    ensures !(b.injected && b.container) ==> r == b
    ensures b.injected && b.container ==>
      r == b.(hidden := DistanceToBottom(s) <= s.clientHeight * cfg.bottomRatio)
  {
    if !b.injected || !b.container then b else b.(hidden := NearBottom(cfg, s))
  }

  /** Scrolling further down in the same viewport never un-hides the button. */
  lemma NearBottomMonotone(cfg: Config, s: Sample, t: Sample)
    requires s.clientHeight == t.clientHeight && s.scrollHeight == t.scrollHeight
    requires s.scrollTop <= t.scrollTop
    ensures NearBottom(cfg, s) ==> NearBottom(cfg, t)
  {
  }

  datatype InitOutcome = NoContainer | NoNativeButton(warned: bool) | Injected

  datatype Inited = Inited(button: Button, mgr: Manager, outcome: InitOutcome)

  /** `init()`: look the container up through the chat manager, then the
      native button; each miss of the native button counts one retry and
      warns only while fewer than three retries were counted before. */
  function Init(b: Button, m: Manager, p: Page, nativePresent: bool): (r: Inited)
    ensures r.button.container <==> m.containerCached || p.containerPresent
    ensures r.mgr.containerCached == r.button.container
    ensures r.outcome.NoNativeButton? <==> r.button.container && !nativePresent
    ensures r.outcome.NoNativeButton? ==>
      r.button.retries == b.retries + 1 && (r.outcome.warned <==> b.retries < WarnLimit)
    ensures !r.outcome.NoNativeButton? ==> r.button.retries == b.retries
    ensures r.outcome.Injected? ==> r.button.injected && !r.button.hidden
    ensures !r.outcome.Injected? ==> r.button.injected == b.injected && r.button.hidden == b.hidden
    ensures r.outcome.Injected? <==> r.button.container && nativePresent
    ensures r.mgr == m.(containerCached := r.button.container)
  {
    var look := GetConversationContainer(m, p);
    var b1 := b.(container := look.found);
    if !look.found then Inited(b1, look.mgr, NoContainer)
    else if !nativePresent then Inited(b1.(retries := b.retries + 1), look.mgr, NoNativeButton(b.retries < WarnLimit))
    else Inited(b1.(injected := true, hidden := false), look.mgr, Injected)
  }

  datatype Run = Run(button: Button, mgr: Manager, warnings: nat)

  /** `n` retries of `init()` while the native button stays missing,
      counting the warnings emitted. */
  function InitMisses(b: Button, m: Manager, p: Page, n: nat): Run
    decreases n
  {
    if n == 0 then Run(b, m, 0)
    else
      var step := Init(b, m, p, false);
      var rest := InitMisses(step.button, step.mgr, p, n - 1);
      var w := if step.outcome.NoNativeButton? && step.outcome.warned then 1 else 0;
      Run(rest.button, rest.mgr, rest.warnings + w)
  }

  /** With the container found, every miss adds one retry and the warnings
      stop once three retries have been counted. */
  lemma {:induction false} InitWarningsCapped(b: Button, m: Manager, p: Page, n: nat)
    requires m.containerCached || p.containerPresent
    ensures InitMisses(b, m, p, n).button.retries == b.retries + n
    ensures InitMisses(b, m, p, n).warnings == Min(WarnLimit, b.retries + n) - Min(WarnLimit, b.retries)
    decreases n
  {
    if n > 0 {
      var step := Init(b, m, p, false);
      InitWarningsCapped(step.button, step.mgr, p, n - 1);
    }
  }

  /** From a fresh button, `n` misses give `min(3, n)` warnings. */
  lemma FreshButtonWarnings(m: Manager, p: Page, n: nat)
    requires m.containerCached || p.containerPresent
    ensures InitMisses(NewButton(), m, p, n).warnings == Min(WarnLimit, n)
  {
    InitWarningsCapped(NewButton(), m, p, n);
  }
}
