/** `handleClick` of the scroll-to-bottom button (src/components/ScrollButton.js;
    the root ScrollButton.js is the same). It calls into the scroll manager,
    which in turn calls the button's `updateVisibility`, so it sits in a
    module of its own above both. */
module ClickHandler {
  import opened Identity
  import opened ChatManager
  import opened ScrollButton
  import opened ScrollManager

  /** `handleClick(e)`: without a container nothing changes; otherwise set
      the suspend flag, rebuild the cache, reset the window to the tail,
      resync against the button's container, start the forced scroll, and
      schedule the flag's reset. */
  function HandleClick(cfg: Config, ui: Ui, p: Page): (r: Ui)
    ensures !ui.button.container ==> r == ui
    ensures ui.button.container ==>
      && r.disableAutoScroll
      && r.scroller == ui.scroller.(interval := Running(0))
      && r.pendingFlagResets == ui.pendingFlagResets + 1
      && r.button == ui.button && r.scrollTop == ui.scrollTop
      && (r.mgr.containerCached <==> ui.mgr.containerCached || p.containerPresent)
      && r.mgr.allTurns == (if r.mgr.containerCached then p.turns else [])
      && TailWindow(r.mgr, cfg)
      && GetLoadedStats(r.mgr).visible == Min(cfg.keepRecent, |r.mgr.allTurns|)
      && CacheConsistent(r.mgr, r.dom)
      && Stable(ui.dom, r.dom)
      && Painted(r.mgr, r.dom)
  {
    if !ui.button.container then ui
    else
      var flagged := ui.(disableAutoScroll := true);
      var c := Cycle(flagged.mgr, flagged.dom, p, cfg, true);
      var forced := ForceScrollToBottom(flagged.(mgr := c.mgr, dom := c.dom), true);
      forced.(pendingFlagResets := forced.pendingFlagResets + 1)
  }

  /** One of the click's 1500 ms timeouts fires and clears the flag. */
  function FlagResetFires(ui: Ui): (r: Ui)
    ensures ui.pendingFlagResets == 0 ==> r == ui
    ensures ui.pendingFlagResets > 0 ==>
      r == ui.(disableAutoScroll := false, pendingFlagResets := ui.pendingFlagResets - 1)
  {
    if ui.pendingFlagResets == 0 then ui
    else ui.(disableAutoScroll := false, pendingFlagResets := ui.pendingFlagResets - 1)
  }

  /** A click suspends scroll handling until its timeout fires, which
      re-enables it. */
  lemma ClickSuspendsUntilTimeout(cfg: Config, ui: Ui, p: Page, s: Sample)
    requires ui.button.container
    ensures OnScroll(cfg, HandleClick(cfg, ui, p), s) == HandleClick(cfg, ui, p)
    ensures !FlagResetFires(HandleClick(cfg, ui, p)).disableAutoScroll
  {
  }

  /** Two clicks less than 1.5 s apart: the first click's reset fires while
      the second click's forced scroll still runs, so the flag is cleared
      and scroll samples are handled again during that forced scroll. */
  lemma EarlyResetDuringSecondForce(cfg: Config, ui: Ui, p: Page, s: Sample)
    requires ui.button.container && ui.scroller.container
    requires s.scrollTop != ui.scroller.lastScrollTop
    ensures var reset := FlagResetFires(HandleClick(cfg, HandleClick(cfg, ui, p), p));
      && reset.scroller.interval.Running?
      && !reset.disableAutoScroll
      && reset.pendingFlagResets == ui.pendingFlagResets + 1
      && OnScroll(cfg, reset, s) != reset
  {
  }

  /** After a click on a page that lists each element once, each listed
      index is shown exactly when it is among the last `KEEP_RECENT`. */
  lemma ClickShowsExactlyTail(cfg: Config, ui: Ui, p: Page)
    requires forall i, j :: 0 <= i < j < |p.turns| ==> p.turns[i] != p.turns[j]
    ensures var r := HandleClick(cfg, ui, p);
      ui.button.container ==>
        forall i :: 0 <= i < |r.mgr.allTurns| ==>
          r.mgr.allTurns[i] in r.dom.shown && r.dom.shown[r.mgr.allTurns[i]] == (|r.mgr.allTurns| - cfg.keepRecent <= i)
  {
    var r := HandleClick(cfg, ui, p);
    if ui.button.container {
      forall i | 0 <= i < |r.mgr.allTurns|
        ensures r.mgr.allTurns[i] in r.dom.shown && r.dom.shown[r.mgr.allTurns[i]] == InWindow(r.mgr, i)
      {
        assert r.mgr.allTurns[i] !in r.mgr.allTurns[i + 1..];
      }
    }
  }
}
