/** The mutation watcher: feeds newly inserted message elements to the cache
    and, when one was new, runs one rebuild → window reset → resync cycle.
    Both handlers of the repository are modelled: src/content/MutationWatcher.js
    (`Current`) and the older root MutationWatcher.js (`Legacy`). */
module MutationWatcher {
  import opened Optional
  import opened Identity
  import opened ChatManager

  datatype Variant = Current | Legacy

  /** One entry of a record's `addedNodes`: a text or comment node, or an
      element together with whether it matches the message selector and the
      matching elements below it, in document order. */
  datatype AddedNode = NonElement | Element(node: Handle, matches: bool, matchingDescendants: seq<Handle>)

  /** The elements one added node offers to `addNewNode`, in order, before
      the `||=` short-circuit is taken into account. */
  function NodeCandidates(v: Variant, n: AddedNode): (r: seq<Handle>)
    ensures n.NonElement? ==> r == []
    ensures forall h :: h in r ==> n.Element? && ((h == n.node && n.matches) || h in n.matchingDescendants)
    ensures v == Legacy && n.Element? ==> |r| == (if n.matches then 1 else 0) + |n.matchingDescendants|
    ensures v == Current && n.Element? ==> |r| == (if n.matches then 1 else |n.matchingDescendants|)
  {
    match n
    case NonElement => []
    case Element(h, matches, below) =>
      if v == Current then (if matches then [h] else below)
      else (if matches then [h] else []) + below
  }

  function RecordCandidates(v: Variant, nodes: seq<AddedNode>): seq<Handle>
    decreases |nodes|
  {
    if nodes == [] then [] else NodeCandidates(v, nodes[0]) + RecordCandidates(v, nodes[1..])
  }

  /** All candidates of a batch of mutation records, records in order. */
  function BatchCandidates(v: Variant, batch: seq<seq<AddedNode>>): seq<Handle>
    decreases |batch|
  {
    if batch == [] then [] else RecordCandidates(v, batch[0]) + BatchCandidates(v, batch[1..])
  }

  datatype Fed = Fed(mgr: Manager, dom: Dom, found: bool, fed: seq<Handle>)

  /** `found ||= addNewNode(c)` for each candidate `c` in order: once the
      accumulator is true, no further `addNewNode` call is made. `fed`
      lists the elements actually passed to `addNewNode`. */
  function Feed(m: Manager, d: Dom, found: bool, cands: seq<Handle>): (r: Fed)
    ensures found ==> r == Fed(m, d, true, [])
    ensures |r.fed| <= |cands| && r.fed == cands[..|r.fed|]
    ensures !found && !r.found ==> r.mgr == m && r.fed == cands
    ensures !found && r.found ==> |r.fed| > 0
    ensures !found && r.found ==>
      var last := r.fed[|r.fed| - 1];
      HasId(r.dom, last) && r.mgr == m.(allTurns := m.allTurns + [last], nodeCache := m.nodeCache[Id(r.dom, last) := last])
    ensures !found ==> forall k :: 0 <= k < |r.fed| ==>
      HasId(r.dom, r.fed[k]) && (Id(r.dom, r.fed[k]) !in m.nodeCache <==> r.found && k == |r.fed| - 1)
    ensures Stable(d, r.dom) && r.dom.shown == d.shown
    decreases |cands|
  {
    if cands == [] || found then Fed(m, d, found, [])
    else
      var a := AddNewNode(m, d, cands[0]);
      var rest := Feed(a.mgr, a.dom, a.isNew, cands[1..]);
      assert cands[..|rest.fed| + 1] == [cands[0]] + cands[1..][..|rest.fed|];
      assert Id(rest.dom, cands[0]) == Id(a.dom, cands[0]);
      Fed(rest.mgr, rest.dom, rest.found, [cands[0]] + rest.fed)
  }

  /** The stats overlay of the current variant: present or not (`null`),
      visible or hidden, and the stats it last displayed. */
  datatype Overlay = Overlay(visible: bool, stats: Option<Stats>)

  datatype Session = Session(mgr: Manager, dom: Dom, overlay: Option<Overlay>)

  /** `#updateOverlay`: refresh the overlay only when it exists and is visible. */
  function UpdateOverlay(o: Option<Overlay>, s: Stats): (r: Option<Overlay>)
    ensures r.Some? <==> o.Some?
    ensures r.Some? ==> r.value.visible == o.value.visible
    ensures o.Some? && o.value.visible ==> r.value.stats == Some(s)
    ensures o.Some? && !o.value.visible ==> r == o
  {
    if o.Some? && o.value.visible then Some(o.value.(stats := Some(s))) else o
  }

  /** The result of one callback: the new session, the elements fed to
      `addNewNode`, and whether the rebuild cycle ran. */
  datatype Handled = Handled(session: Session, fed: seq<Handle>, rebuilt: bool)

  /** `handleMutations(mutations)`. */
  function HandleMutations(v: Variant, cfg: Config, s: Session, batch: seq<seq<AddedNode>>, p: Page): (r: Handled)
    ensures |r.fed| <= |BatchCandidates(v, batch)| && r.fed == BatchCandidates(v, batch)[..|r.fed|]
    ensures forall k :: 0 <= k < |r.fed| ==> HasId(r.session.dom, r.fed[k])
    ensures r.rebuilt <==> exists k :: 0 <= k < |r.fed| && Id(r.session.dom, r.fed[k]) !in s.mgr.nodeCache
    ensures forall k :: 0 <= k < |r.fed| - 1 ==> Id(r.session.dom, r.fed[k]) in s.mgr.nodeCache
    ensures !r.rebuilt ==> r.fed == BatchCandidates(v, batch)
    ensures !r.rebuilt ==> r.session.mgr == s.mgr && r.session.dom.shown == s.dom.shown && r.session.overlay == s.overlay
    ensures r.rebuilt ==>
      && (r.session.mgr.containerCached <==> s.mgr.containerCached || p.containerPresent)
      && r.session.mgr.allTurns == (if r.session.mgr.containerCached then p.turns else [])
      && TailWindow(r.session.mgr, cfg)
      && CacheConsistent(r.session.mgr, r.session.dom)
      && (r.session.mgr.containerCached ==> Painted(r.session.mgr, r.session.dom))
      && (!r.session.mgr.containerCached ==> r.session.dom.shown == s.dom.shown)
    ensures r.rebuilt && v == Current && s.overlay.Some? && s.overlay.value.visible ==>
      r.session.overlay == Some(s.overlay.value.(stats := Some(GetLoadedStats(r.session.mgr))))
    ensures !(r.rebuilt && v == Current && s.overlay.Some? && s.overlay.value.visible) ==>
      r.session.overlay == s.overlay
    ensures Stable(s.dom, r.session.dom)
  {
    var f := Feed(s.mgr, s.dom, false, BatchCandidates(v, batch));
    if f.found then
      var c := Cycle(f.mgr, f.dom, p, cfg, false);
      StableTransitive(s.dom, f.dom, c.dom);
      assert Id(c.dom, f.fed[|f.fed| - 1]) !in s.mgr.nodeCache;
      var overlay := if v == Current then UpdateOverlay(s.overlay, GetLoadedStats(c.mgr)) else s.overlay;
      Handled(Session(c.mgr, c.dom, overlay), f.fed, true)
    else
      Handled(Session(f.mgr, f.dom, s.overlay), f.fed, false)
  }

  /** The observer a watcher holds: none before `start`, else the latest
      one created, connected or disconnected. */
  datatype Observer = NoObserver | Observer(connected: bool)

  /** `leaked` counts earlier observers a repeated `start` left connected. */
  datatype Watcher = Watcher(hasManager: bool, observer: Observer, leaked: nat)

  datatype Started = Started(watcher: Watcher) | Threw(message: string)

  /** The constructor: the given chat manager, no observer, nothing leaked. */
  function NewWatcher(hasManager: bool): (r: Watcher)
    ensures r.hasManager == hasManager && r.observer.NoObserver? && r.leaked == 0
    ensures LiveObservers(r) == 0
  {
    Watcher(hasManager, NoObserver, 0)
  }

  /** Observers still delivering mutation batches. */
  function LiveObservers(w: Watcher): nat
  {
    w.leaked + (if w.observer == Observer(true) then 1 else 0)
  }

  /** `start()`: throw without a chat manager, else connect a new observer
      (an earlier connected one is not disconnected). */
  function Start(w: Watcher): (r: Started)
    ensures r.Threw? <==> !w.hasManager
    ensures r.Started? ==> r.watcher.observer == Observer(true) && r.watcher.hasManager
    ensures r.Started? ==> LiveObservers(r.watcher) == LiveObservers(w) + 1
  {
    if !w.hasManager then Threw("MutationWatcher: chatManager is required.")
    else
      Started(w.(observer := Observer(true), leaked := w.leaked + (if w.observer == Observer(true) then 1 else 0)))
  }

  /** `stop()`: `this.observer?.disconnect()` — a no-op before any `start`. */
  function Stop(w: Watcher): (r: Watcher)
    ensures w.observer == NoObserver ==> r == w
    ensures r.observer != Observer(true) && r.leaked == w.leaked && r.hasManager == w.hasManager
    ensures LiveObservers(r) == w.leaked
  {
    match w.observer
    case NoObserver => w
    case Observer(_) => w.(observer := Observer(false))
  }

  /** Start then stop leaves nothing observing; stopping again changes
      nothing; starting twice before stopping leaves one observer
      connected. */
  lemma StartStopLifecycle()
    ensures Start(NewWatcher(false)).Threw?
    ensures Stop(NewWatcher(true)) == NewWatcher(true)
    ensures var s := Stop(Start(NewWatcher(true)).watcher);
      LiveObservers(s) == 0 && Stop(s) == s
    ensures var twice := Start(Start(NewWatcher(true)).watcher).watcher;
      LiveObservers(Stop(twice)) == 1
  {
  }

  /** What one added node offers, per variant: nothing for a non-element; a
      matching element alone in the current handler, itself followed by its
      matching descendants in the legacy one; the matching descendants
      otherwise. */
  lemma {:induction false} CandidateShapes(n: AddedNode)
    ensures NodeCandidates(Current, NonElement) == [] && NodeCandidates(Legacy, NonElement) == []
    ensures n.Element? && n.matches ==>
      NodeCandidates(Current, n) == [n.node] && NodeCandidates(Legacy, n) == [n.node] + n.matchingDescendants
    ensures n.Element? && !n.matches ==>
      NodeCandidates(Current, n) == NodeCandidates(Legacy, n) == n.matchingDescendants
    ensures NodeCandidates(Current, n) == NodeCandidates(Legacy, n)[..|NodeCandidates(Current, n)|]
  {
  }

  /** Non-element nodes anywhere in a record contribute nothing. */
  lemma {:induction false} NonElementsIgnored(v: Variant, nodes: seq<AddedNode>, more: seq<AddedNode>)
    ensures RecordCandidates(v, nodes + [NonElement] + more) == RecordCandidates(v, nodes + more)
    decreases |nodes|
  {
    if nodes == [] {
      assert ([] + [NonElement] + more)[1..] == more;
      assert [] + more == more;
    } else {
      assert (nodes + [NonElement] + more)[1..] == nodes[1..] + [NonElement] + more;
      assert (nodes + more)[1..] == nodes[1..] + more;
      NonElementsIgnored(v, nodes[1..], more);
    }
  }

  lemma {:induction false} RecordCurrentWithinLegacy(nodes: seq<AddedNode>)
    ensures forall h :: h in RecordCandidates(Current, nodes) ==> h in RecordCandidates(Legacy, nodes)
    decreases |nodes|
  {
    if nodes != [] {
      RecordCurrentWithinLegacy(nodes[1..]);
      CandidateShapes(nodes[0]);
    }
  }

  /** Every element the current handler can offer, the legacy handler
      offers too. */
  lemma {:induction false} CurrentWithinLegacy(batch: seq<seq<AddedNode>>)
    ensures forall h :: h in BatchCandidates(Current, batch) ==> h in BatchCandidates(Legacy, batch)
    decreases |batch|
  {
    if batch != [] {
      RecordCurrentWithinLegacy(batch[0]);
      CurrentWithinLegacy(batch[1..]);
    }
  }

  /** When every offered element already carries a testid, the legacy
      handler runs the rebuild cycle whenever the current one does: it
      offers a superset of the elements, so it meets an uncached id too. */
  lemma LegacyRebuildsWhenCurrentDoes(cfg: Config, s: Session, batch: seq<seq<AddedNode>>, p: Page)
    requires forall h :: h in BatchCandidates(Legacy, batch) ==> HasId(s.dom, h)
    ensures HandleMutations(Current, cfg, s, batch, p).rebuilt ==> HandleMutations(Legacy, cfg, s, batch, p).rebuilt
  {
    var rc := HandleMutations(Current, cfg, s, batch, p);
    var rl := HandleMutations(Legacy, cfg, s, batch, p);
    if rc.rebuilt && !rl.rebuilt {
      var k :| 0 <= k < |rc.fed| && Id(rc.session.dom, rc.fed[k]) !in s.mgr.nodeCache;
      var h := rc.fed[k];
      assert h in BatchCandidates(Current, batch);
      CurrentWithinLegacy(batch);
      assert false;
    }
  }

  /** Three new elements in one batch: only the first reaches `addNewNode`,
      since the accumulator is already true afterwards. */
  lemma ShortCircuitExample(cfg: Config, s: Session, p: Page)
    requires s.mgr.nodeCache == map[]
    ensures var r := HandleMutations(Current, cfg, s, [[Element(7, true, []), Element(8, true, []), Element(9, true, [])]], p);
      r.fed == [7] && r.rebuilt
  {
    var batch := [[Element(7, true, []), Element(8, true, []), Element(9, true, [])]];
    assert BatchCandidates(Current, batch) == [7, 8, 9] by {
      assert RecordCandidates(Current, batch[0]) == [7, 8, 9] by {
        assert batch[0][1..][1..][1..] == [];
      }
      assert batch[1..] == [];
    }
  }
}
