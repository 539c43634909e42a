/** The windowed visibility cache (src/managers/VirtualChatManager.js):
    the ordered list of known message elements (`allTurns`), the id→element
    map (`nodeCache`), and the integer window `[lowestIndex, highestIndex]`
    of elements shown. */
module ChatManager {
  import opened Identity

  type Pos = n: int | n > 0 witness 1

  /** The numeric knobs of config.js. */
  datatype Config = Config(keepRecent: Pos, chunkSize: Pos, topThreshold: real, bottomRatio: real)

  const Defaults: Config := Config(50, 20, 300.0, 0.05)

  /** What a query of the page yields at one moment: whether a conversation
      container can be found, and the message elements inside it in
      document order. */
  datatype Page = Page(containerPresent: bool, turns: seq<Handle>)

  datatype Manager = Manager(
    allTurns: seq<Handle>,
    nodeCache: map<string, Handle>,
    lowestIndex: int,
    highestIndex: int,
    containerCached: bool)

  datatype Stats = Stats(visible: int, total: nat)

  function Max(a: int, b: int): int { if a < b then b else a }

  function Min(a: int, b: int): int { if a < b then a else b }

  /** The constructor's state. */
  function NewManager(): (r: Manager)
    ensures |r.allTurns| == 0 && |r.nodeCache| == 0 && !r.containerCached
    ensures r.lowestIndex == 0 && r.highestIndex == 0
  {
    Manager([], map[], 0, 0, false)
  }

  /** The visibility rule `resyncDOM` applies to index `i`. */
  predicate InWindow(m: Manager, i: int)
  {
    m.lowestIndex <= i <= m.highestIndex
  }

  /** The window lies inside the list (possibly empty: `lowest == highest + 1`). */
  predicate WindowInRange(m: Manager)
  {
    0 <= m.lowestIndex <= m.highestIndex + 1 <= |m.allTurns|
  }

  /** The "keep the most recent N" tail window. */
  predicate TailWindow(m: Manager, cfg: Config)
  {
    m.highestIndex == |m.allTurns| - 1 && m.lowestIndex == Max(0, |m.allTurns| - cfg.keepRecent)
  }

  /** Every element in the list carries an id that is a key of the map, and
      every map entry points at a listed element carrying that key. */
  ghost predicate CacheConsistent(m: Manager, d: Dom)
  {
    && (forall h :: h in m.allTurns ==> HasId(d, h) && Id(d, h) in m.nodeCache)
    && (forall id :: id in m.nodeCache ==>
          m.nodeCache[id] in m.allTurns && HasId(d, m.nodeCache[id]) && Id(d, m.nodeCache[id]) == id)
  }

  /** No two listed elements share an id. */
  ghost predicate DistinctIds(m: Manager, d: Dom)
  {
    forall i, j :: 0 <= i < j < |m.allTurns| && HasId(d, m.allTurns[i]) && HasId(d, m.allTurns[j]) ==>
      Id(d, m.allTurns[i]) != Id(d, m.allTurns[j])
  }

  /** Every element whose index is its last occurrence in the list is shown
      exactly when that index lies in the window. */
  ghost predicate Painted(m: Manager, d: Dom)
  {
    forall i :: 0 <= i < |m.allTurns| && m.allTurns[i] !in m.allTurns[i + 1..] ==>
      m.allTurns[i] in d.shown && d.shown[m.allTurns[i]] == InWindow(m, i)
  }

  datatype Lookup = Lookup(mgr: Manager, found: bool)

  /** `getConversationContainer`: a found container is cached and returned
      from then on, whatever the page later offers. */
  function GetConversationContainer(m: Manager, p: Page): (r: Lookup)
    ensures m.containerCached ==> r.found
    ensures r.found <==> m.containerCached || p.containerPresent
    ensures r.mgr == m.(containerCached := r.found)
  {
    if m.containerCached then Lookup(m, true)
    else Lookup(m.(containerCached := p.containerPresent), p.containerPresent)
  }

  /** The keys after entering `hs` over `base`: the old keys and the ids of `hs`. */
  ghost predicate KeysEntered(base: map<string, Handle>, d: Dom, hs: seq<Handle>, cache: map<string, Handle>)
    requires forall h :: h in hs ==> HasId(d, h)
  {
    forall id :: id in cache <==> id in base || exists i :: 0 <= i < |hs| && Id(d, hs[i]) == id
  }

  /** `hs[i]` is the last element of `hs` carrying its id. */
  ghost predicate LastWithId(d: Dom, hs: seq<Handle>, i: int)
    requires forall h :: h in hs ==> HasId(d, h)
    requires 0 <= i < |hs|
  {
    forall j :: i < j < |hs| ==> Id(d, hs[j]) != Id(d, hs[i])
  }

  /** Every id of `hs` maps to the last element of `hs` carrying it. */
  ghost predicate LastEntered(d: Dom, hs: seq<Handle>, cache: map<string, Handle>)
    requires forall h :: h in hs ==> HasId(d, h)
  {
    forall i :: 0 <= i < |hs| && LastWithId(d, hs, i) ==> Id(d, hs[i]) in cache && cache[Id(d, hs[i])] == hs[i]
  }

  /** An old key that no element of `hs` carries keeps its old element. */
  ghost predicate OthersKept(base: map<string, Handle>, d: Dom, hs: seq<Handle>, cache: map<string, Handle>)
    requires forall h :: h in hs ==> HasId(d, h)
  {
    forall id :: id in base && id in cache && (forall i :: 0 <= i < |hs| ==> Id(d, hs[i]) != id) ==> cache[id] == base[id]
  }

  /** `cache` is what entering the elements `hs` in order over `base` yields,
      stated without the fold: later elements overwrite earlier ones with the
      same id. */
  ghost predicate LastWins(base: map<string, Handle>, d: Dom, hs: seq<Handle>, cache: map<string, Handle>)
    requires forall h :: h in hs ==> HasId(d, h)
  {
    KeysEntered(base, d, hs, cache) && LastEntered(d, hs, cache) && OthersKept(base, d, hs, cache)
  }

  lemma KeysEnteredStep(base: map<string, Handle>, d: Dom, hs: seq<Handle>, cache: map<string, Handle>)
    requires |hs| > 0 && forall x :: x in hs ==> HasId(d, x)
    requires KeysEntered(base[Id(d, hs[0]) := hs[0]], d, hs[1..], cache)
    ensures KeysEntered(base, d, hs, cache)
  {
    forall id | id in cache
      ensures id in base || exists i :: 0 <= i < |hs| && Id(d, hs[i]) == id
    {
      if id !in base && id != Id(d, hs[0]) {
        var i :| 0 <= i < |hs[1..]| && Id(d, hs[1..][i]) == id;
        assert hs[1..][i] == hs[i + 1];
      }
    }
    forall id | id in base || (exists i :: 0 <= i < |hs| && Id(d, hs[i]) == id)
      ensures id in cache
    {
      if id !in base && id != Id(d, hs[0]) {
        var i :| 0 <= i < |hs| && Id(d, hs[i]) == id;
        assert hs[i] == hs[1..][i - 1];
      }
    }
  }

  lemma LastEnteredStep(base: map<string, Handle>, d: Dom, hs: seq<Handle>, cache: map<string, Handle>)
    requires |hs| > 0 && forall x :: x in hs ==> HasId(d, x)
    requires LastEntered(d, hs[1..], cache)
    requires OthersKept(base[Id(d, hs[0]) := hs[0]], d, hs[1..], cache)
    requires Id(d, hs[0]) in cache
    ensures LastEntered(d, hs, cache)
  {
    forall i | 0 <= i < |hs| && LastWithId(d, hs, i)
      ensures Id(d, hs[i]) in cache && cache[Id(d, hs[i])] == hs[i]
    {
      if i == 0 {
        forall k | 0 <= k < |hs[1..]| ensures Id(d, hs[1..][k]) != Id(d, hs[0]) {
          assert hs[1..][k] == hs[k + 1];
        }
      } else {
        assert hs[i] == hs[1..][i - 1];
        forall j | i - 1 < j < |hs[1..]| ensures Id(d, hs[1..][j]) != Id(d, hs[1..][i - 1]) {
          assert hs[1..][j] == hs[j + 1];
        }
        assert LastWithId(d, hs[1..], i - 1);
      }
    }
  }

  lemma OthersKeptStep(base: map<string, Handle>, d: Dom, hs: seq<Handle>, cache: map<string, Handle>)
    requires |hs| > 0 && forall x :: x in hs ==> HasId(d, x)
    requires OthersKept(base[Id(d, hs[0]) := hs[0]], d, hs[1..], cache)
    ensures OthersKept(base, d, hs, cache)
  {
    forall id | id in base && id in cache && (forall i :: 0 <= i < |hs| ==> Id(d, hs[i]) != id)
      ensures cache[id] == base[id]
    {
      forall k | 0 <= k < |hs[1..]| ensures Id(d, hs[1..][k]) != id {
        assert hs[1..][k] == hs[k + 1];
      }
    }
  }

  /** Entering one more element in front: if the rest wins over the map
      with `hs[0]` already entered, the whole sequence wins over the old map. */
  lemma LastWinsStep(base: map<string, Handle>, d: Dom, hs: seq<Handle>, cache: map<string, Handle>)
    requires |hs| > 0 && forall x :: x in hs ==> HasId(d, x)
    requires LastWins(base[Id(d, hs[0]) := hs[0]], d, hs[1..], cache)
    ensures LastWins(base, d, hs, cache)
  {
    KeysEnteredStep(base, d, hs, cache);
    LastEnteredStep(base, d, hs, cache);
    OthersKeptStep(base, d, hs, cache);
  }

  datatype Rebuilt = Rebuilt(mgr: Manager, dom: Dom)

  /** The `articles.forEach` loop of `rebuildMessageCache`. */
  function Scan(m: Manager, d: Dom, rest: seq<Handle>): (r: Rebuilt)
    ensures r.mgr.allTurns == m.allTurns + rest
    ensures r.mgr.lowestIndex == m.lowestIndex && r.mgr.highestIndex == m.highestIndex
    ensures r.mgr.containerCached == m.containerCached
    ensures Stable(d, r.dom) && r.dom.shown == d.shown
    ensures forall h :: h in rest ==> HasId(r.dom, h)
    ensures CacheConsistent(m, d) ==> CacheConsistent(r.mgr, r.dom)
    decreases |rest|
  {
    if rest == [] then Rebuilt(m, d)
    else
      var res := GetNodeId(d, rest[0]);
      var next := m.(nodeCache := m.nodeCache[res.id := rest[0]], allTurns := m.allTurns + [rest[0]]);
      EnterStepConsistent(m, d, rest[0]);
      var r := Scan(next, res.dom, rest[1..]);
      assert m.allTurns + rest == next.allTurns + rest[1..];
      assert Id(r.dom, rest[0]) == res.id;
      r
  }

  /** Some element of `hs` carries `id`: then a last one does. */
  lemma {:induction false} LastCarrier(d: Dom, hs: seq<Handle>, id: string, k: int) returns (i: int)
    requires forall h :: h in hs ==> HasId(d, h)
    requires 0 <= k < |hs| && Id(d, hs[k]) == id
    ensures 0 <= i < |hs| && Id(d, hs[i]) == id && LastWithId(d, hs, i)
    decreases |hs| - k
  {
    if LastWithId(d, hs, k) {
      i := k;
    } else {
      var j :| k < j < |hs| && Id(d, hs[j]) == id;
      i := LastCarrier(d, hs, id, j);
    }
  }

  /** "Last one wins" pins the map down: two maps that both satisfy it for
      the same elements over the same base are equal. */
  lemma LastWinsUnique(base: map<string, Handle>, d: Dom, hs: seq<Handle>, c1: map<string, Handle>, c2: map<string, Handle>)
    requires forall h :: h in hs ==> HasId(d, h)
    requires LastWins(base, d, hs, c1) && LastWins(base, d, hs, c2)
    ensures c1 == c2
  {
    assert c1.Keys == c2.Keys;
    forall id | id in c1 ensures c1[id] == c2[id] {
      if k :| 0 <= k < |hs| && Id(d, hs[k]) == id {
        var i := LastCarrier(d, hs, id, k);
      }
    }
  }

  /** The map a scan leaves behind: every scanned id maps to the last
      scanned element carrying it, and untouched keys keep their element. */
  lemma {:induction false} ScanLastWins(m: Manager, d: Dom, rest: seq<Handle>)
    ensures var r := Scan(m, d, rest);
      LastWins(m.nodeCache, r.dom, rest, r.mgr.nodeCache)
    decreases |rest|
  {
    var r := Scan(m, d, rest);
    if rest != [] {
      var res := GetNodeId(d, rest[0]);
      var next := m.(nodeCache := m.nodeCache[res.id := rest[0]], allTurns := m.allTurns + [rest[0]]);
      assert r == Scan(next, res.dom, rest[1..]);
      ScanLastWins(next, res.dom, rest[1..]);
      assert Id(r.dom, rest[0]) == res.id;
      LastWinsStep(m.nodeCache, r.dom, rest, r.mgr.nodeCache);
    }
  }

  /** One step of the scan keeps the list and the map consistent. */
  lemma EnterStepConsistent(m: Manager, d: Dom, h: Handle)
    ensures var res := GetNodeId(d, h);
      CacheConsistent(m, d) ==>
      CacheConsistent(m.(nodeCache := m.nodeCache[res.id := h], allTurns := m.allTurns + [h]), res.dom)
  {
    var res := GetNodeId(d, h);
    var next := m.(nodeCache := m.nodeCache[res.id := h], allTurns := m.allTurns + [h]);
    if CacheConsistent(m, d) {
      forall x | x in next.allTurns
        ensures HasId(res.dom, x) && Id(res.dom, x) in next.nodeCache
      {
        if x != h {
          assert x in m.allTurns;
        }
      }
      forall id | id in next.nodeCache
        ensures next.nodeCache[id] in next.allTurns && HasId(res.dom, next.nodeCache[id])
        ensures Id(res.dom, next.nodeCache[id]) == id
      {
        if id != res.id {
          assert m.nodeCache[id] in m.allTurns;
        }
      }
    }
  }

  /** `rebuildMessageCache`: empty list and map, then (when a container is
      found) enter every scanned element in scan order. */
  function RebuildMessageCache(m: Manager, d: Dom, p: Page): (r: Rebuilt)
    ensures r.mgr.containerCached <==> m.containerCached || p.containerPresent
    ensures r.mgr.allTurns == (if r.mgr.containerCached then p.turns else [])
    ensures !r.mgr.containerCached ==> r.mgr.nodeCache == map[] && r.dom == d
    ensures r.mgr.lowestIndex == m.lowestIndex && r.mgr.highestIndex == m.highestIndex
    ensures CacheConsistent(r.mgr, r.dom)
    ensures Stable(d, r.dom) && r.dom.shown == d.shown
  {
    var look := GetConversationContainer(m, p);
    var cleared := look.mgr.(allTurns := [], nodeCache := map[]);
    if !look.found then Rebuilt(cleared, d) else Scan(cleared, d, p.turns)
  }

  /** `updateWindowIndices`: the tail window of the current list. */
  function UpdateWindowIndices(m: Manager, cfg: Config): (r: Manager)
    ensures r == m.(lowestIndex := r.lowestIndex, highestIndex := r.highestIndex)
    ensures r.highestIndex == |m.allTurns| - 1
    ensures forall i :: 0 <= i ==> (InWindow(r, i) <==> |m.allTurns| - cfg.keepRecent <= i < |m.allTurns|)
    ensures r.highestIndex - r.lowestIndex + 1 == Min(cfg.keepRecent, |m.allTurns|)
    ensures TailWindow(r, cfg) && WindowInRange(r)
  {
    var highest := |m.allTurns| - 1;
    m.(highestIndex := highest, lowestIndex := Max(0, highest - (cfg.keepRecent - 1)))
  }

  /** The `allTurns.forEach` loop of `resyncDOM`, from index `i` on. */
  function Paint(turns: seq<Handle>, m: Manager, i: nat, shown: map<Handle, bool>): (r: map<Handle, bool>)
    requires i <= |turns|
    ensures forall j :: i <= j < |turns| && turns[j] !in turns[j + 1..] ==>
      turns[j] in r && r[turns[j]] == InWindow(m, j)
    ensures forall h :: h in shown && h !in turns[i..] ==> h in r && r[h] == shown[h]
    ensures forall h :: h in r <==> h in shown || h in turns[i..]
    decreases |turns| - i
  {
    if i == |turns| then shown
    else
      var r := Paint(turns, m, i + 1, shown[turns[i] := InWindow(m, i)]);
      assert turns[i..] == [turns[i]] + turns[i + 1..];
      r
  }

  /** `resyncDOM(container)`: with a container, show exactly the listed
      elements inside the window; without one, do nothing. */
  function ResyncDOM(m: Manager, d: Dom, containerPresent: bool): (r: Dom)
    ensures !containerPresent ==> r == d
    ensures r.testid == d.testid && r.nonce == d.nonce
    ensures containerPresent ==> Painted(m, r)
    ensures forall h :: h !in m.allTurns ==> (h in r.shown <==> h in d.shown)
    ensures forall h :: h !in m.allTurns && h in d.shown ==> r.shown[h] == d.shown[h]
  {
    if !containerPresent then d
    else
      assert m.allTurns[0..] == m.allTurns;
      d.(shown := Paint(m.allTurns, m, 0, d.shown))
  }

  datatype Extended = Extended(mgr: Manager, changed: bool)

  /** `extendWindowBackward`: lower the window start by one chunk, clamped
      at 0; report whether it moved. */
  function ExtendWindowBackward(m: Manager, cfg: Config): (r: Extended)
    ensures r.mgr == m.(lowestIndex := r.mgr.lowestIndex)
    ensures r.mgr.lowestIndex == (if m.lowestIndex >= cfg.chunkSize then m.lowestIndex - cfg.chunkSize else 0)
    ensures r.changed <==> r.mgr.lowestIndex != m.lowestIndex
    ensures m.lowestIndex == 0 ==> !r.changed && r.mgr == m
    ensures 0 <= m.lowestIndex ==> r.mgr.lowestIndex <= m.lowestIndex
  {
    var lowest := Max(0, m.lowestIndex - cfg.chunkSize);
    Extended(m.(lowestIndex := lowest), lowest != m.lowestIndex)
  }

  /** `getLoadedStats`: the window's width and the list's length. Inside
      the list the visible count never exceeds the total. */
  function GetLoadedStats(m: Manager): (r: Stats)
    ensures r.total == |m.allTurns|
    ensures WindowInRange(m) ==> 0 <= r.visible <= r.total
    ensures r.visible <= 0 <==> m.highestIndex < m.lowestIndex
  {
    Stats(m.highestIndex - m.lowestIndex + 1, |m.allTurns|)
  }

  datatype Added = Added(mgr: Manager, dom: Dom, isNew: bool)

  /** `addNewNode`: append an element whose id is not yet a key; otherwise
      leave list, map and window alone. */
  function AddNewNode(m: Manager, d: Dom, h: Handle): (r: Added)
    ensures HasId(r.dom, h) && Stable(d, r.dom) && r.dom.shown == d.shown
    ensures r.isNew <==> Id(r.dom, h) !in m.nodeCache
    ensures r.isNew ==> r.mgr == m.(allTurns := m.allTurns + [h], nodeCache := m.nodeCache[Id(r.dom, h) := h])
    ensures !r.isNew ==> r.mgr == m
  {
    var res := GetNodeId(d, h);
    if res.id !in m.nodeCache then
      Added(m.(nodeCache := m.nodeCache[res.id := h], allTurns := m.allTurns + [h]), res.dom, true)
    else
      Added(m, res.dom, false)
  }

  /** The rebuild → updateWindowIndices → resync cycle run by the mutation
      handler and the scroll button. `explicitContainer` is true when the
      caller passes its own container to `resyncDOM`; otherwise the
      manager's lookup decides. */
  function Cycle(m: Manager, d: Dom, p: Page, cfg: Config, explicitContainer: bool): (r: Rebuilt)
    ensures r.mgr.containerCached <==> m.containerCached || p.containerPresent
    ensures r.mgr.allTurns == (if r.mgr.containerCached then p.turns else [])
    ensures TailWindow(r.mgr, cfg) && WindowInRange(r.mgr)
    ensures GetLoadedStats(r.mgr) == Stats(Min(cfg.keepRecent, |r.mgr.allTurns|), |r.mgr.allTurns|)
    ensures CacheConsistent(r.mgr, r.dom)
    ensures Stable(d, r.dom)
    ensures explicitContainer || r.mgr.containerCached ==> Painted(r.mgr, r.dom)
    ensures !(explicitContainer || r.mgr.containerCached) ==> r.dom.shown == d.shown
  {
    var rebuilt := RebuildMessageCache(m, d, p);
    var updated := UpdateWindowIndices(rebuilt.mgr, cfg);
    var present := explicitContainer || GetConversationContainer(updated, p).found;
    Rebuilt(updated, ResyncDOM(updated, rebuilt.dom, present))
  }
}
