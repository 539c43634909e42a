/** Scroll decisions (ScrollManager.js): the up-scroll trigger for backward
    extension, the shared suspend flag, and the bounded forced scroll to
    the bottom. */
module ScrollManager {
  import opened Optional
  import opened Identity
  import opened ChatManager
  import opened ScrollButton

  /** `maxAttempts` of `forceScrollToBottom`. */
  const MaxAttempts: nat := 10

  /** Offsets at most this many pixels count as "at the bottom". */
  const Tolerance: real := 5.0

  /** The `setInterval` job of `forceScrollToBottom`: none, or running
      with its `attempts` counter. */
  datatype Interval = Idle | Running(attempts: nat)

  /** ScrollManager's own fields: whether `this.container` is set, the last
      processed `scrollTop`, and the forced-scroll interval. */
  datatype Scroller = Scroller(container: bool, lastScrollTop: real, interval: Interval)

  /** Everything the scroll handlers touch. `disableAutoScroll` is the
      global `window.disableAutoScroll`; `scrollTop` is the container's
      scroll position as the forced scroll moves it; `pendingFlagResets`
      counts the 1500 ms timeouts scheduled by button clicks. */
  datatype Ui = Ui(
    mgr: Manager,
    dom: Dom,
    scroller: Scroller,
    button: Button,
    disableAutoScroll: bool,
    scrollTop: real,
    pendingFlagResets: nat)

  /** `attach()`: take the chat manager's container; when there is none,
      the listener is not attached (a retry is scheduled). */
  function Attach(ui: Ui, p: Page): (r: Ui)
    ensures r.scroller.container <==> ui.mgr.containerCached || p.containerPresent
    ensures r.mgr.containerCached == r.scroller.container
    ensures r == ui.(mgr := r.mgr, scroller := ui.scroller.(container := r.scroller.container))
    ensures r.mgr == ui.mgr.(containerCached := r.scroller.container)
  {
    var look := GetConversationContainer(ui.mgr, p);
    ui.(mgr := look.mgr, scroller := ui.scroller.(container := look.found))
  }

  /** `onScroll()` for one scroll sample. */
  function OnScroll(cfg: Config, ui: Ui, s: Sample): (r: Ui)
    ensures !ui.scroller.container || ui.disableAutoScroll ==> r == ui
    ensures ui.scroller.container && !ui.disableAutoScroll ==>
      var trigger := s.scrollTop < ui.scroller.lastScrollTop && s.scrollTop < cfg.topThreshold;
      && r.scroller == ui.scroller.(lastScrollTop := s.scrollTop)
      && r.mgr == ui.mgr.(lowestIndex := r.mgr.lowestIndex)
      && (trigger ==> r.mgr.lowestIndex == Max(0, ui.mgr.lowestIndex - cfg.chunkSize))
      && (!trigger ==> r.mgr == ui.mgr)
      && (r.mgr.lowestIndex == ui.mgr.lowestIndex ==> r.dom == ui.dom)
      && (r.mgr.lowestIndex != ui.mgr.lowestIndex ==> Painted(r.mgr, r.dom) && r.dom.testid == ui.dom.testid)
      && (ui.button.injected && ui.button.container ==> r.button.hidden == NearBottom(cfg, s))
      && r.disableAutoScroll == ui.disableAutoScroll && r.scrollTop == ui.scrollTop
      && r.pendingFlagResets == ui.pendingFlagResets
    ensures ui.scroller.container && !ui.disableAutoScroll ==> r.button == UpdateVisibility(cfg, ui.button, s)
  {
    if !ui.scroller.container || ui.disableAutoScroll then ui
    else
      var scrollingUp := s.scrollTop < ui.scroller.lastScrollTop;
      var topTrigger := s.scrollTop < cfg.topThreshold;
      var scroller := ui.scroller.(lastScrollTop := s.scrollTop);
      var moved :=
        if scrollingUp && topTrigger then
          var e := ExtendWindowBackward(ui.mgr, cfg);
          ui.(mgr := e.mgr, dom := if e.changed then ResyncDOM(e.mgr, ui.dom, true) else ui.dom)
        else ui;
      moved.(scroller := scroller, button := UpdateVisibility(cfg, ui.button, s))
  }

  /** `forceScrollToBottom(container)`: without a container nothing
      happens; otherwise suspend scroll handling and replace any running
      interval by a fresh one. */
  function ForceScrollToBottom(ui: Ui, containerPresent: bool): (r: Ui)
    ensures !containerPresent ==> r == ui
    ensures containerPresent ==> r == ui.(disableAutoScroll := true, scroller := ui.scroller.(interval := Running(0)))
  {
    if !containerPresent then ui
    else ui.(disableAutoScroll := true, scroller := ui.scroller.(interval := Running(0)))
  }

  /** The interval has not yet used up its attempts. */
  predicate AttemptsLeft(ui: Ui)
  {
    ui.scroller.interval.Running? ==> ui.scroller.interval.attempts < MaxAttempts
  }

  /** A firing of a running interval that finds the last child more than
      `Tolerance` below the bottom edge, with attempts to spare. */
  predicate Nudges(ui: Ui, lastChild: Option<real>)
  {
    && ui.scroller.interval.Running?
    && lastChild.Some? && lastChild.value > Tolerance
    && ui.scroller.interval.attempts + 1 < MaxAttempts
  }

  /** One firing of the interval. `lastChild` is `None` when the container
      has no last element child, else the offset between that child's
      bottom edge and the container's bottom edge. */
  function Tick(ui: Ui, lastChild: Option<real>): (r: Ui)
    ensures ui.scroller.interval.Idle? ==> r == ui
    ensures AttemptsLeft(ui) ==> AttemptsLeft(r)
    ensures r.scroller.interval.Running? ==>
      && ui.scroller.interval.Running?
      && r.scroller.interval.attempts == ui.scroller.interval.attempts + 1
      && lastChild.Some? && lastChild.value > Tolerance
      && r.scrollTop == ui.scrollTop + lastChild.value
      && r.disableAutoScroll == ui.disableAutoScroll
    ensures ui.scroller.interval.Running? && r.scroller.interval.Idle? ==>
      !r.disableAutoScroll && r.scrollTop == ui.scrollTop
    ensures r == ui.(scroller := r.scroller, disableAutoScroll := r.disableAutoScroll, scrollTop := r.scrollTop)
    ensures r.scroller == ui.scroller.(interval := r.scroller.interval)
    ensures Nudges(ui, lastChild) ==>
      && r.scroller.interval == Running(ui.scroller.interval.attempts + 1)
      && r.scrollTop == ui.scrollTop + lastChild.value
    ensures ui.scroller.interval.Running? && !Nudges(ui, lastChild) ==> r.scroller.interval.Idle?
  {
    match ui.scroller.interval
    case Idle => ui
    case Running(attempts) =>
      var n := attempts + 1;
      var stop := ui.(scroller := ui.scroller.(interval := Idle), disableAutoScroll := false);
      if lastChild.None? || n >= MaxAttempts then stop
      else if lastChild.value > Tolerance then
        ui.(scrollTop := ui.scrollTop + lastChild.value, scroller := ui.scroller.(interval := Running(n)))
      else stop
  }

  datatype Ticked = Ticked(ui: Ui, nudges: nat)

  /** Successive firings of the interval, one per reading of the last
      child; `nudges` counts the firings that moved `scrollTop`. */
  function RunTicks(ui: Ui, lastChildren: seq<Option<real>>): Ticked
    decreases |lastChildren|
  {
    if lastChildren == [] then Ticked(ui, 0)
    else
      var t := Tick(ui, lastChildren[0]);
      var rest := RunTicks(t, lastChildren[1..]);
      Ticked(rest.ui, rest.nudges + (if t.scroller.interval.Running? then 1 else 0))
  }

  /** Firings left before the attempt bound stops the interval. */
  function Budget(ui: Ui): nat
  {
    match ui.scroller.interval
    case Idle => 0
    case Running(a) => if a < MaxAttempts then MaxAttempts - a else 0
  }

  /** The interval always stops within its remaining budget of firings,
      nudging at most once fewer; the suspend flag holds while it runs and
      is cleared when it stops. */
  lemma {:induction false} TicksTerminate(ui: Ui, lastChildren: seq<Option<real>>)
    requires AttemptsLeft(ui)
    ensures var r := RunTicks(ui, lastChildren);
      && (ui.scroller.interval.Running? ==> r.nudges < Budget(ui))
      && (ui.scroller.interval.Idle? ==> r.nudges == 0 && r.ui == ui)
      && (|lastChildren| >= Budget(ui) ==> r.ui.scroller.interval.Idle?)
      && (ui.scroller.interval.Running? && r.ui.scroller.interval.Idle? ==> !r.ui.disableAutoScroll)
      && (r.ui.scroller.interval.Running? ==> r.ui.disableAutoScroll == ui.disableAutoScroll)
    decreases |lastChildren|
  {
    if lastChildren != [] {
      var t := Tick(ui, lastChildren[0]);
      TicksTerminate(t, lastChildren[1..]);
    }
  }

  /** Without a container forcing does nothing. Otherwise whatever interval
      was running is replaced by one with the full budget, which stops
      after at most ten firings, nudges at most nine times, and leaves
      scroll handling re-enabled. */
  lemma ForcedScrollBounded(ui: Ui, lastChildren: seq<Option<real>>)
    ensures ForceScrollToBottom(ui, false) == ui
    ensures Budget(ForceScrollToBottom(ui, true)) == MaxAttempts
    ensures var r := RunTicks(ForceScrollToBottom(ui, true), lastChildren);
      && r.nudges <= MaxAttempts - 1
      && (|lastChildren| >= MaxAttempts ==> r.ui.scroller.interval.Idle? && !r.ui.disableAutoScroll)
  {
    TicksTerminate(ForceScrollToBottom(ui, true), lastChildren);
  }

  /** While a forced scroll runs and only its own firings happen, scroll
      samples change nothing. A button click's 1500 ms flag reset can clear
      the flag earlier (see `ClickHandler.EarlyResetDuringSecondForce`). */
  lemma ScrollSuspendedWhileForcing(cfg: Config, ui: Ui, lastChildren: seq<Option<real>>, s: Sample)
    ensures var r := RunTicks(ForceScrollToBottom(ui, true), lastChildren);
      r.ui.scroller.interval.Running? ==> OnScroll(cfg, r.ui, s) == r.ui
  {
    TicksTerminate(ForceScrollToBottom(ui, true), lastChildren);
  }

  /** Repeated up-scrolls near the top with the window at 0 leave the
      window and the page untouched. */
  lemma UpScrollAtTopIsStable(cfg: Config, ui: Ui, s: Sample)
    requires ui.mgr.lowestIndex == 0
    ensures OnScroll(cfg, ui, s).mgr == ui.mgr && OnScroll(cfg, ui, s).dom == ui.dom
  {
  }
}
