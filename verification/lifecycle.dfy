/** The cleanup registry (src/managers/LifeCycleManager.js): functions
    registered for teardown, all run and forgotten at once. A callback may
    throw; `forEach` then passes the exception on, so the later callbacks
    are not called and the registry is not cleared. */
module Lifecycle {
  import opened Optional

  /** A registered cleanup function: an opaque name, and whether calling it
      throws. */
  datatype Cleanup = Cleanup(name: nat, throws: bool)

  /** `cleanupFns`; `None` stands for a registered `null` or `undefined`,
      which the optional call `fn?.()` skips. */
  datatype Registry = Registry(cleanupFns: seq<Option<Cleanup>>)

  /** The constructor: nothing registered. */
  function NewRegistry(): (r: Registry)
    ensures |r.cleanupFns| == 0
  {
    Registry([])
  }

  /** `register(fn)`: `push` — the registry grows by one entry at the end
      and keeps all earlier entries in place. */
  function Register(r: Registry, fn: Option<Cleanup>): (r': Registry)
    ensures |r'.cleanupFns| == |r.cleanupFns| + 1
    ensures r'.cleanupFns[..|r.cleanupFns|] == r.cleanupFns && r'.cleanupFns[|r.cleanupFns|] == fn
  {
    Registry(r.cleanupFns + [fn])
  }

  /** Calling this entry throws. */
  predicate Throws(f: Option<Cleanup>)
  {
    f.Some? && f.value.throws
  }

  /** No entry of `fns` throws. */
  predicate NoThrow(fns: seq<Option<Cleanup>>)
  {
    forall i :: 0 <= i < |fns| ==> !Throws(fns[i])
  }

  /** The calls `cleanupFns.forEach(fn => fn?.())` makes, in order: each
      non-null entry is called, up to and including the first one that
      throws. */
  function Invocations(fns: seq<Option<Cleanup>>): (calls: seq<Cleanup>)
    ensures |calls| <= |fns|
    ensures NoThrow(fns) ==> forall f :: f in calls <==> Some(f) in fns
    ensures forall j :: 0 <= j < |calls| - 1 ==> !calls[j].throws
    ensures !NoThrow(fns) ==> |calls| > 0 && calls[|calls| - 1].throws
    decreases |fns|
  {
    if fns == [] then []
    else if fns[0].None? then Invocations(fns[1..])
    else if fns[0].value.throws then [fns[0].value]
    else [fns[0].value] + Invocations(fns[1..])
  }

  /** One more entry is called only when nothing before it threw. */
  lemma {:induction false} InvocationsAppend(fns: seq<Option<Cleanup>>, fn: Option<Cleanup>)
    ensures Invocations(fns + [fn]) == Invocations(fns) + (if NoThrow(fns) && fn.Some? then [fn.value] else [])
    decreases |fns|
  {
    if fns == [] {
      assert [] + [fn] == [fn];
    } else {
      assert (fns + [fn])[1..] == fns[1..] + [fn];
      assert (fns + [fn])[0] == fns[0];
      if !Throws(fns[0]) {
        assert NoThrow(fns) <==> NoThrow(fns[1..]) by {
          if NoThrow(fns[1..]) {
            forall i | 0 < i < |fns| ensures !Throws(fns[i]) {
              assert fns[i] == fns[1..][i - 1];
            }
          }
          if NoThrow(fns) {
            forall i | 0 <= i < |fns[1..]| ensures !Throws(fns[1..][i]) {
              assert fns[1..][i] == fns[i + 1];
            }
          }
        }
        InvocationsAppend(fns[1..], fn);
      }
    }
  }

  /** No entry before index `k` throws. */
  predicate NoThrowBefore(fns: seq<Option<Cleanup>>, k: int)
  {
    forall i :: 0 <= i < k && i < |fns| ==> !Throws(fns[i])
  }

  /** The first entry that throws ends the calls: nothing registered after
      it is called. */
  lemma {:induction false} ThrowStopsCalls(fns: seq<Option<Cleanup>>, k: nat)
    requires k < |fns| && Throws(fns[k]) && NoThrowBefore(fns, k)
    ensures Invocations(fns) == Invocations(fns[..k]) + [fns[k].value]
    decreases k
  {
    if k == 0 {
      assert fns[..0] == [];
    } else {
      assert fns[..k][1..] == fns[1..][..k - 1];
      assert NoThrowBefore(fns[1..], k - 1) by {
        forall i | 0 <= i < k - 1 ensures !Throws(fns[1..][i]) {
          assert fns[1..][i] == fns[i + 1];
        }
      }
      assert !Throws(fns[0]) && fns[..k][0] == fns[0];
      ThrowStopsCalls(fns[1..], k - 1);
    }
  }

  /** `cleanupAll()`: call the registered functions in registration order,
      skipping null entries. When none throws, forget them all. When one
      throws, the calls stop there, the exception escapes (`threw`), and
      the registry is left as it was. */
  method CleanupAll(r: Registry) returns (calls: seq<Cleanup>, threw: bool, after: Registry)
    ensures calls == Invocations(r.cleanupFns)
    ensures threw <==> !NoThrow(r.cleanupFns)
    ensures !threw ==> after == NewRegistry()
    ensures threw ==> after == r
  {
    var fns := r.cleanupFns;
    calls := [];
    var i := 0;
    while i < |fns|
      invariant 0 <= i <= |fns|
      invariant NoThrowBefore(fns, i)
      invariant calls + Invocations(fns[i..]) == Invocations(fns)
    {
      assert fns[i..][0] == fns[i] && fns[i..][1..] == fns[i + 1..];
      if fns[i].Some? {
        calls := calls + [fns[i].value];
        if fns[i].value.throws {
          assert Throws(fns[i]);
          threw := true;
          after := r;
          return;
        }
      }
      i := i + 1;
    }
    assert fns[i..] == [];
    threw := false;
    after := NewRegistry();
  }

  /** Registering appends: the new function is called after every earlier
      one, unless an earlier one throws, in which case it is never reached;
      a null registration adds no call. A fresh registry calls nothing. */
  lemma RegisterRunsLast(r: Registry, fn: Option<Cleanup>)
    ensures NoThrow(r.cleanupFns) ==>
      Invocations(Register(r, fn).cleanupFns) == Invocations(r.cleanupFns) + (if fn.Some? then [fn.value] else [])
    ensures !NoThrow(r.cleanupFns) ==> Invocations(Register(r, fn).cleanupFns) == Invocations(r.cleanupFns)
    ensures Invocations(NewRegistry().cleanupFns) == []
  {
    InvocationsAppend(r.cleanupFns, fn);
  }

  /** A throwing first registration, as when the first cleanup calls a
      method the object does not have: `cleanupAll` calls only it and none
      of the later registrations, and (by its contract) clears nothing. */
  lemma ThrowingFirstCleanup(later: seq<Option<Cleanup>>)
    ensures var fns := [Some(Cleanup(0, true))] + later;
      Invocations(fns) == [Cleanup(0, true)] && !NoThrow(fns)
  {
    var fns := [Some(Cleanup(0, true))] + later;
    assert Throws(fns[0]);
  }
}
