/** Properties of the windowed visibility cache that relate several
    operations of src/managers/VirtualChatManager.js. */
module CacheProperties {
  import opened Identity
  import opened ChatManager

  /** The constructor's state: nothing cached, window `[0, 0]`, and so a
      reported visible count of 1 with a total of 0 — the window is not yet
      inside the list. */
  lemma FreshManager()
    ensures NewManager().allTurns == [] && NewManager().nodeCache == map[]
    ensures NewManager().lowestIndex == 0 && NewManager().highestIndex == 0
    ensures GetLoadedStats(NewManager()) == Stats(1, 0)
    ensures !WindowInRange(NewManager())
  {
  }

  /** Scanning elements that all carry ids writes nothing to the page. */
  lemma {:induction false} ScanKeepsIds(m: Manager, d: Dom, hs: seq<Handle>)
    requires forall h :: h in hs ==> HasId(d, h)
    ensures Scan(m, d, hs).dom == d
    decreases |hs|
  {
    if hs != [] {
      var res := GetNodeId(d, hs[0]);
      assert res.dom == d;
      var next := m.(nodeCache := m.nodeCache[res.id := hs[0]], allTurns := m.allTurns + [hs[0]]);
      assert Scan(m, d, hs) == Scan(next, d, hs[1..]);
      ScanKeepsIds(next, d, hs[1..]);
    }
  }

  /** A second rebuild over the same page changes nothing: rebuilding is
      idempotent. */
  lemma RebuildIdempotent(m: Manager, d: Dom, p: Page)
    ensures var r1 := RebuildMessageCache(m, d, p);
      RebuildMessageCache(r1.mgr, r1.dom, p) == r1
  {
    var r1 := RebuildMessageCache(m, d, p);
    var look := GetConversationContainer(m, p);
    if look.found {
      var cleared := look.mgr.(allTurns := [], nodeCache := map[]);
      assert r1 == Scan(cleared, d, p.turns);
      assert r1.mgr.(containerCached := true, allTurns := [], nodeCache := map[]) == cleared;
      ScanKeepsIds(cleared, r1.dom, p.turns);
      var r2 := Scan(cleared, r1.dom, p.turns);
      ScanLastWins(cleared, d, p.turns);
      ScanLastWins(cleared, r1.dom, p.turns);
      LastWinsUnique(map[], r1.dom, p.turns, r1.mgr.nodeCache, r2.mgr.nodeCache);
    }
  }

  /** Two scanned elements sharing one id are both listed, but the map keeps
      only the later: list length and map size part ways after a rebuild. */
  lemma RebuildKeepsDuplicateIds()
    ensures var d := Dom(map[1 := "conversation-turn-2", 2 := "conversation-turn-2"], map[], 0);
      var r := RebuildMessageCache(NewManager(), d, Page(true, [1, 2]));
      r.mgr.allTurns == [1, 2] && r.mgr.nodeCache == map["conversation-turn-2" := 2]
      && |r.mgr.nodeCache| == 1
  {
    var d := Dom(map[1 := "conversation-turn-2", 2 := "conversation-turn-2"], map[], 0);
    var id := "conversation-turn-2";
    var cleared := NewManager().(containerCached := true);
    assert RebuildMessageCache(NewManager(), d, Page(true, [1, 2])) == Scan(cleared, d, [1, 2]);
    // Both elements already carry the id, so each step enters it into the
    // map without touching the page; the second entry overwrites the first.
    assert HasId(d, 1) && HasId(d, 2);
    var first := cleared.(nodeCache := map[id := 1], allTurns := [1]);
    assert [1, 2][1..] == [2];
    assert Scan(cleared, d, [1, 2]) == Scan(first, d, [2]);
    var second := first.(nodeCache := map[id := 2], allTurns := [1, 2]);
    assert first.nodeCache[id := 2] == map[id := 2];
    assert Scan(first, d, [2]) == Scan(second, d, []);
  }

  /** With KEEP_RECENT = 50, eighty messages leave the window `[30, 79]`; an
      empty list leaves nothing visible and no index in the window. */
  lemma TailWindowExamples(m: Manager)
    ensures |m.allTurns| == 80 ==>
      var u := UpdateWindowIndices(m, Defaults);
      u.lowestIndex == 30 && u.highestIndex == 79 && GetLoadedStats(u) == Stats(50, 80)
    ensures |m.allTurns| == 0 ==>
      var u := UpdateWindowIndices(m, Defaults);
      u.highestIndex == -1 && GetLoadedStats(u) == Stats(0, 0) && forall i :: !InWindow(u, i)
  {
  }

  /** An empty container: the rebuild–update cycle reports zero visible,
      zero total, and shows no index. */
  lemma EmptyContainer(m: Manager, d: Dom, cfg: Config, explicit: bool)
    ensures var r := Cycle(m, d, Page(true, []), cfg, explicit);
      GetLoadedStats(r.mgr) == Stats(0, 0) && forall i :: !InWindow(r.mgr, i)
  {
  }

  /** Extending keeps the window inside the list, never moves the upper
      bound, and reveals exactly `min(CHUNK_SIZE, lowestIndex)` more
      elements. */
  lemma ExtendKeepsWindowInRange(m: Manager, cfg: Config)
    requires WindowInRange(m)
    ensures var e := ExtendWindowBackward(m, cfg);
      WindowInRange(e.mgr) && e.mgr.highestIndex == m.highestIndex
      && GetLoadedStats(e.mgr).visible == GetLoadedStats(m).visible + Min(cfg.chunkSize, m.lowestIndex)
  {
  }

  /** The worked example: 30 → 10 → 0 (both report a change), then a
      further call reports none. */
  lemma ExtendExample(m: Manager)
    requires m.lowestIndex == 30
    ensures var e1 := ExtendWindowBackward(m, Defaults);
      var e2 := ExtendWindowBackward(e1.mgr, Defaults);
      var e3 := ExtendWindowBackward(e2.mgr, Defaults);
      e1.changed && e1.mgr.lowestIndex == 10 && e2.changed && e2.mgr.lowestIndex == 0
      && !e3.changed && e3.mgr == e2.mgr
  {
  }

  function ExtendTimes(m: Manager, cfg: Config, n: nat): Manager
    decreases n
  {
    if n == 0 then m else ExtendTimes(ExtendWindowBackward(m, cfg).mgr, cfg, n - 1)
  }

  /** `n` extensions lower the window start by `n` chunks, clamped at 0, so
      `ceil(lowestIndex / CHUNK_SIZE)` scroll-ups reveal the whole list. */
  lemma {:induction false} ExtendTimesClamps(m: Manager, cfg: Config, n: nat)
    requires 0 <= m.lowestIndex
    ensures ExtendTimes(m, cfg, n).lowestIndex == Max(0, m.lowestIndex - n * cfg.chunkSize)
    ensures ExtendTimes(m, cfg, n).highestIndex == m.highestIndex
    decreases n
  {
    if n > 0 {
      var m1 := ExtendWindowBackward(m, cfg).mgr;
      ExtendTimesClamps(m1, cfg, n - 1);
      assert n * cfg.chunkSize == cfg.chunkSize + (n - 1) * cfg.chunkSize;
    }
  }

  /** Consistency only depends on identities, which stable page updates keep. */
  lemma ConsistentUnderStable(m: Manager, d: Dom, d': Dom)
    requires CacheConsistent(m, d) && Stable(d, d')
    ensures CacheConsistent(m, d')
  {
  }

  /** `addNewNode` keeps the list and map consistent, keeps listed ids
      distinct, and keeps the window inside the list. */
  lemma AddPreservesInvariants(m: Manager, d: Dom, h: Handle)
    requires CacheConsistent(m, d) && DistinctIds(m, d)
    ensures var a := AddNewNode(m, d, h);
      CacheConsistent(a.mgr, a.dom) && DistinctIds(a.mgr, a.dom)
      && (WindowInRange(m) ==> WindowInRange(a.mgr))
  {
    var a := AddNewNode(m, d, h);
    if a.isNew {
      EnterStepConsistent(m, d, h);
      forall i, j | 0 <= i < j < |a.mgr.allTurns| && HasId(a.dom, a.mgr.allTurns[i]) && HasId(a.dom, a.mgr.allTurns[j])
        ensures Id(a.dom, a.mgr.allTurns[i]) != Id(a.dom, a.mgr.allTurns[j])
      {
        assert a.mgr.allTurns[i] == m.allTurns[i];
        if j < |m.allTurns| {
          assert a.mgr.allTurns[j] == m.allTurns[j];
        } else {
          assert m.allTurns[i] in m.allTurns;
        }
      }
    } else {
      ConsistentUnderStable(m, d, a.dom);
    }
  }

  /** Feeding the same element twice: the second call finds its id cached
      and changes nothing. */
  lemma AddSameNodeTwice(m: Manager, d: Dom, h: Handle)
    ensures var a := AddNewNode(m, d, h);
      AddNewNode(a.mgr, a.dom, h) == Added(a.mgr, a.dom, false)
  {
  }

  lemma {:induction false} DistinctSeqCard<T>(s: seq<T>)
    requires forall i, j :: 0 <= i < j < |s| ==> s[i] != s[j]
    ensures |set x | x in s| == |s|
    decreases |s|
  {
    if s != [] {
      var t := s[..|s| - 1];
      DistinctSeqCard(t);
      assert (set x | x in s) == (set x | x in t) + {s[|s| - 1]};
      assert s[|s| - 1] !in (set x | x in t);
    }
  }

  ghost function IdsOf(d: Dom, hs: seq<Handle>): (ids: seq<string>)
    requires forall h :: h in hs ==> HasId(d, h)
    ensures |ids| == |hs| && forall i :: 0 <= i < |hs| ==> ids[i] == Id(d, hs[i])
  {
    seq(|hs|, i requires 0 <= i < |hs| => Id(d, hs[i]))
  }

  /** For a consistent state whose listed ids are distinct — every state
      built by `addNewNode` from the constructor — the map has exactly one
      entry per listed element. */
  lemma CacheSizeMatchesList(m: Manager, d: Dom)
    requires CacheConsistent(m, d) && DistinctIds(m, d)
    ensures |m.nodeCache| == |m.allTurns|
  {
    var ids := IdsOf(d, m.allTurns);
    assert m.nodeCache.Keys == set x | x in ids by {
      forall x | x in m.nodeCache.Keys ensures x in ids {
        var k :| 0 <= k < |m.allTurns| && m.allTurns[k] == m.nodeCache[x];
        assert ids[k] == x;
      }
      forall x | x in ids ensures x in m.nodeCache.Keys {
        var k :| 0 <= k < |ids| && ids[k] == x;
        assert m.allTurns[k] in m.allTurns;
      }
    }
    DistinctSeqCard(ids);
  }

  /** Distinct ids mean distinct elements. */
  lemma DistinctIdsDistinctHandles(m: Manager, d: Dom)
    requires CacheConsistent(m, d) && DistinctIds(m, d)
    ensures forall i, j :: 0 <= i < j < |m.allTurns| ==> m.allTurns[i] != m.allTurns[j]
  {
    forall i, j | 0 <= i < j < |m.allTurns|
      ensures m.allTurns[i] != m.allTurns[j]
    {
      assert m.allTurns[i] in m.allTurns && m.allTurns[j] in m.allTurns;
    }
  }

  /** Over a list without repeated elements, `resyncDOM` shows index `i`
      exactly when `lowestIndex <= i <= highestIndex`, for every index. */
  lemma ResyncShowsExactlyWindow(m: Manager, d: Dom)
    requires forall i, j :: 0 <= i < j < |m.allTurns| ==> m.allTurns[i] != m.allTurns[j]
    ensures var r := ResyncDOM(m, d, true);
      forall i :: 0 <= i < |m.allTurns| ==>
        m.allTurns[i] in r.shown && r.shown[m.allTurns[i]] == (m.lowestIndex <= i <= m.highestIndex)
  {
    var r := ResyncDOM(m, d, true);
    forall i | 0 <= i < |m.allTurns|
      ensures m.allTurns[i] in r.shown && r.shown[m.allTurns[i]] == InWindow(m, i)
    {
      assert m.allTurns[i] !in m.allTurns[i + 1..];
    }
  }

  /** How many of the first `n` indices the window covers. */
  function ShownCount(m: Manager, n: nat): nat
    decreases n
  {
    if n == 0 then 0 else ShownCount(m, n - 1) + (if InWindow(m, n - 1) then 1 else 0)
  }

  lemma {:induction false} ShownCountPrefix(m: Manager, n: nat)
    requires 0 <= m.lowestIndex
    ensures ShownCount(m, n) == Max(0, Min(n, m.highestIndex + 1) - m.lowestIndex)
    decreases n
  {
    if n > 0 {
      ShownCountPrefix(m, n - 1);
    }
  }

  /** The reported visible count is the number of listed indices the
      window covers, whenever the window lies inside the list. */
  lemma VisibleCountIsShownCount(m: Manager)
    requires WindowInRange(m)
    ensures GetLoadedStats(m).visible == ShownCount(m, |m.allTurns|)
    ensures GetLoadedStats(m).total == |m.allTurns|
  {
    ShownCountPrefix(m, |m.allTurns|);
  }

  /** Direct `addNewNode` calls over a sequence of elements, in order. */
  function AddAll(m: Manager, d: Dom, hs: seq<Handle>): (r: Rebuilt)
    ensures Stable(d, r.dom) && r.dom.shown == d.shown
    ensures forall h :: h in hs ==> HasId(r.dom, h)
    ensures r.mgr == m.(allTurns := r.mgr.allTurns, nodeCache := r.mgr.nodeCache)
    ensures |m.allTurns| <= |r.mgr.allTurns| <= |m.allTurns| + |hs|
    decreases |hs|
  {
    if hs == [] then Rebuilt(m, d)
    else
      var a := AddNewNode(m, d, hs[0]);
      var r := AddAll(a.mgr, a.dom, hs[1..]);
      assert forall h :: h in hs && h != hs[0] ==> h in hs[1..];
      r
  }

  /** The distinct ids of the elements fed, as they end up. */
  ghost function FedIds(d: Dom, hs: seq<Handle>): set<string>
    requires forall h :: h in hs ==> HasId(d, h)
  {
    set h | h in hs :: Id(d, h)
  }

  lemma FedIdsCons(d: Dom, hs: seq<Handle>)
    requires |hs| > 0 && forall h :: h in hs ==> HasId(d, h)
    ensures FedIds(d, hs) == {Id(d, hs[0])} + FedIds(d, hs[1..])
  {
    forall x | x in FedIds(d, hs) ensures x in {Id(d, hs[0])} + FedIds(d, hs[1..]) {
      var h :| h in hs && Id(d, h) == x;
      if h != hs[0] {
        assert h in hs[1..];
      }
    }
    forall x | x in FedIds(d, hs[1..]) ensures x in FedIds(d, hs) {
      var h :| h in hs[1..] && Id(d, h) == x;
      assert h in hs;
    }
  }

  /** De-duplication by id: feeding elements one by one appends exactly one
      element per fed id that was not yet a key of the map. */
  lemma {:induction false} AddAllCountsNewIds(m: Manager, d: Dom, hs: seq<Handle>)
    ensures var r := AddAll(m, d, hs);
      |r.mgr.allTurns| == |m.allTurns| + |FedIds(r.dom, hs) - m.nodeCache.Keys|
    decreases |hs|
  {
    var r := AddAll(m, d, hs);
    if hs == [] {
      assert FedIds(r.dom, hs) == {};
    } else {
      var a := AddNewNode(m, d, hs[0]);
      assert r == AddAll(a.mgr, a.dom, hs[1..]);
      AddAllCountsNewIds(a.mgr, a.dom, hs[1..]);
      var id0 := Id(r.dom, hs[0]);
      assert id0 == Id(a.dom, hs[0]);
      FedIdsCons(r.dom, hs);
      AddNewNodeKeys(m, d, hs[0]);
      NewIdsStep(m.nodeCache.Keys, a.mgr.nodeCache.Keys, id0, FedIds(r.dom, hs[1..]), a.isNew);
    }
  }

  /** One `addNewNode` step seen through the map's keys. */
  lemma AddNewNodeKeys(m: Manager, d: Dom, h: Handle)
    ensures var a := AddNewNode(m, d, h);
      && (a.isNew ==> Id(a.dom, h) !in m.nodeCache.Keys && a.mgr.nodeCache.Keys == m.nodeCache.Keys + {Id(a.dom, h)}
                      && |a.mgr.allTurns| == |m.allTurns| + 1)
      && (!a.isNew ==> Id(a.dom, h) in m.nodeCache.Keys && a.mgr.nodeCache.Keys == m.nodeCache.Keys
                       && |a.mgr.allTurns| == |m.allTurns|)
  {
  }

  /** The set arithmetic of one `addNewNode` step. */
  lemma NewIdsStep(keys: set<string>, keys': set<string>, id0: string, later: set<string>, isNew: bool)
    requires isNew ==> id0 !in keys && keys' == keys + {id0}
    requires !isNew ==> id0 in keys && keys' == keys
    ensures |({id0} + later) - keys| == |later - keys'| + (if isNew then 1 else 0)
  {
    if isNew {
      assert ({id0} + later) - keys == {id0} + (later - keys');
      assert id0 !in later - keys';
    } else {
      assert ({id0} + later) - keys == later - keys';
    }
  }

  /** From the constructor, the total after feeding is the number of
      distinct ids fed. */
  lemma FreshTotalIsDistinctIds(d: Dom, hs: seq<Handle>)
    ensures var r := AddAll(NewManager(), d, hs);
      GetLoadedStats(r.mgr).total == |FedIds(r.dom, hs)|
  {
    AddAllCountsNewIds(NewManager(), d, hs);
    var r := AddAll(NewManager(), d, hs);
    assert FedIds(r.dom, hs) - NewManager().nodeCache.Keys == FedIds(r.dom, hs);
  }

  /** Feeding keeps the list and map consistent and the listed ids distinct,
      so the map has one entry per listed element. */
  lemma {:induction false} AddAllPreservesInvariants(m: Manager, d: Dom, hs: seq<Handle>)
    requires CacheConsistent(m, d) && DistinctIds(m, d)
    ensures var r := AddAll(m, d, hs);
      CacheConsistent(r.mgr, r.dom) && DistinctIds(r.mgr, r.dom) && |r.mgr.nodeCache| == |r.mgr.allTurns|
    decreases |hs|
  {
    var r := AddAll(m, d, hs);
    if hs == [] {
      CacheSizeMatchesList(m, d);
    } else {
      var a := AddNewNode(m, d, hs[0]);
      AddPreservesInvariants(m, d, hs[0]);
      AddAllPreservesInvariants(a.mgr, a.dom, hs[1..]);
    }
  }

  /** In a state built by `addNewNode` calls, a list element never repeats,
      so a resync shows each listed index exactly when it lies in the window. */
  lemma AddedStateShowsExactlyWindow(m: Manager, d: Dom, hs: seq<Handle>)
    requires CacheConsistent(m, d) && DistinctIds(m, d)
    ensures var r := AddAll(m, d, hs);
      var shown := ResyncDOM(r.mgr, r.dom, true).shown;
      forall i :: 0 <= i < |r.mgr.allTurns| ==>
        r.mgr.allTurns[i] in shown && shown[r.mgr.allTurns[i]] == (r.mgr.lowestIndex <= i <= r.mgr.highestIndex)
  {
    var r := AddAll(m, d, hs);
    AddAllPreservesInvariants(m, d, hs);
    DistinctIdsDistinctHandles(r.mgr, r.dom);
    ResyncShowsExactlyWindow(r.mgr, r.dom);
  }

  /** A page never lists one element twice, so after a rebuild cycle the
      display shows each listed index exactly when it is among the last
      `KEEP_RECENT`. */
  lemma CycleShowsExactlyTail(m: Manager, d: Dom, p: Page, cfg: Config, explicitContainer: bool)
    requires forall i, j :: 0 <= i < j < |p.turns| ==> p.turns[i] != p.turns[j]
    ensures var r := Cycle(m, d, p, cfg, explicitContainer);
      explicitContainer || r.mgr.containerCached ==>
        forall i :: 0 <= i < |r.mgr.allTurns| ==>
          r.mgr.allTurns[i] in r.dom.shown && r.dom.shown[r.mgr.allTurns[i]] == (|r.mgr.allTurns| - cfg.keepRecent <= i)
  {
    var r := Cycle(m, d, p, cfg, explicitContainer);
    if explicitContainer || r.mgr.containerCached {
      forall i | 0 <= i < |r.mgr.allTurns|
        ensures r.mgr.allTurns[i] in r.dom.shown && r.dom.shown[r.mgr.allTurns[i]] == InWindow(r.mgr, i)
      {
        assert r.mgr.allTurns[i] !in r.mgr.allTurns[i + 1..];
      }
    }
  }
}
