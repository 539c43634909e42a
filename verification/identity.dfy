/** Node identity (src/utils/utils.js `getNodeId`, same logic in utils.js):
    a message element is identified by its `data-testid` attribute; when the
    attribute is missing or empty, a fallback id is synthesised once and
    written back onto the element, so later lookups agree. */
module Identity {

  /** An opaque reference to a DOM element of the host page. */
  type Handle = nat

  /** The element state this core reads and writes: each element's
      `data-testid` (no key = attribute absent), each message element's
      `style.display` (true = shown, false = `none`), and a counter that
      stands for the clock and random source of fallback ids. */
  datatype Dom = Dom(testid: map<Handle, string>, shown: map<Handle, bool>, nonce: nat)

  const FallbackPrefix: string := "fallback-"

  /** JavaScript truthiness of `node.dataset.testid`: present and non-empty. */
  predicate HasId(d: Dom, h: Handle)
  {
    h in d.testid && d.testid[h] != ""
  }

  function Id(d: Dom, h: Handle): string
    requires HasId(d, h)
  {
    d.testid[h]
  }

  predicate IsFallback(id: string)
  {
    |FallbackPrefix| <= |id| && id[..|FallbackPrefix|] == FallbackPrefix
  }

  /** Identities, once an element carries one, never change. */
  ghost predicate Stable(d: Dom, d': Dom)
  {
    forall h :: HasId(d, h) ==> HasId(d', h) && Id(d', h) == Id(d, h)
  }

  lemma StableTransitive(d1: Dom, d2: Dom, d3: Dom)
    requires Stable(d1, d2) && Stable(d2, d3)
    ensures Stable(d1, d3)
  {
  }

  function DigitChar(n: nat): char
    requires n < 10
  {
    "0123456789"[n]
  }

  /** Decimal rendering of the nonce (stands for `Date.now()` and the
      base-36 random suffix). */
  function Stamp(n: nat): (s: string)
    ensures |s| > 0
    decreases n
  {
    if n < 10 then [DigitChar(n)] else Stamp(n / 10) + [DigitChar(n % 10)]
  }

  function FallbackId(n: nat): (id: string)
    ensures IsFallback(id) && |id| > |FallbackPrefix|
  {
    FallbackPrefix + Stamp(n)
  }

  datatype Resolved = Resolved(id: string, dom: Dom)

  /** `getNodeId(node)`: reuse the element's id, or synthesise one and
      store it on the element. */
  function GetNodeId(d: Dom, h: Handle): (r: Resolved)
    ensures r.id != ""
    ensures HasId(r.dom, h) && Id(r.dom, h) == r.id
    ensures HasId(d, h) ==> r.id == Id(d, h) && r.dom == d
    ensures !HasId(d, h) ==> IsFallback(r.id)
    ensures Stable(d, r.dom)
    ensures forall x :: x != h ==> (x in r.dom.testid <==> x in d.testid)
    ensures forall x :: x != h && x in d.testid ==> r.dom.testid[x] == d.testid[x]
    ensures r.dom.shown == d.shown
  {
    if HasId(d, h) then
      Resolved(d.testid[h], d)
    else
      var id := FallbackId(d.nonce);
      Resolved(id, d.(testid := d.testid[h := id], nonce := d.nonce + 1))
  }

  /** A second lookup of the same element returns the same id and writes
      nothing: the resolver is idempotent. */
  lemma GetNodeIdIdempotent(d: Dom, h: Handle)
    ensures GetNodeId(GetNodeId(d, h).dom, h) == GetNodeId(d, h)
  {
  }

  /** Looking an element up never disturbs the identity of any other
      element, whatever identities it already carried. */
  lemma GetNodeIdLeavesOthers(d: Dom, h: Handle, x: Handle)
    requires x != h
    ensures HasId(GetNodeId(d, h).dom, x) <==> HasId(d, x)
    ensures HasId(d, x) ==> Id(GetNodeId(d, h).dom, x) == Id(d, x)
  {
  }
}
