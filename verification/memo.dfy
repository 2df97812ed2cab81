/** `cacheFor` of worker/src/cache-util.ts (and its verbatim copy
    worker/src/cache-for.ts): a time-to-live memo whose concurrent callers
    share one outstanding load. Loads are numbered by the order in which
    `fn` was invoked; the clock is an explicit input. */
module TtlMemo {
  import opened Wrappers

  /** `{ value, expires }`. */
  datatype Stored<T> = Stored(value: T, expires: int)

  /** The closure's state: the time to live `ms`, the stored value, the
      outstanding load (if any) and how many times `fn` has been invoked. */
  datatype Memo<T> = Memo(ms: int, stored: Option<Stored<T>>, loading: Option<nat>, calls: nat)

  /** What a call returns: the stored value, or the promise of load number `load`. */
  datatype Reply<T> = Value(value: T) | Pending(load: nat)

  /** How a load settles. */
  datatype Settlement<T> = Resolved(value: T) | Rejected

  /** `cacheFor(ms, fn)` before its first call. */
  function Init<T>(ms: int): Memo<T> {
    Memo(ms, None, None, 0)
  }

  /** The stored value is still fresh at `now` (strictly before expiry). */
  predicate Fresh<T>(m: Memo<T>, now: int) {
    m.stored.Some? && m.stored.value.expires > now
  }

  /** One call of the returned function at time `now`. */
  function Call<T>(m: Memo<T>, now: int): (r: (Memo<T>, Reply<T>))
    ensures Fresh(m, now) ==> r == (m, Value(m.stored.value.value))
    ensures !Fresh(m, now) && m.loading.Some? ==> r == (m, Pending(m.loading.value))
    ensures !Fresh(m, now) && m.loading.None? ==>
              && r.1 == Pending(m.calls)
              && r.0 == m.(loading := Some(m.calls), calls := m.calls + 1)
    ensures r.0.stored == m.stored && r.0.ms == m.ms
  {
    if Fresh(m, now) then (m, Value(m.stored.value.value))
    else if m.loading.Some? then (m, Pending(m.loading.value))
    else (m.(loading := Some(m.calls), calls := m.calls + 1), Pending(m.calls))
  }

  /** The outstanding load settles at time `now`: on success the value is
      stored to expire `ms` later; on failure the stored entry is kept; in
      both cases the in-flight marker is cleared. */
  function Settle<T>(m: Memo<T>, outcome: Settlement<T>, now: int): (r: Memo<T>)
    requires m.loading.Some?
    ensures r.loading.None? && r.calls == m.calls && r.ms == m.ms
    ensures outcome.Resolved? ==> r.stored == Some(Stored(outcome.value, now + m.ms))
    ensures outcome.Rejected? ==> r.stored == m.stored
  {
    match outcome
    case Resolved(v) => m.(stored := Some(Stored(v, now + m.ms)), loading := None)
    case Rejected => m.(loading := None)
  }

  /** A run of calls at the given times with no load settling in between. */
  function Calls<T>(m: Memo<T>, nows: seq<int>): (Memo<T>, seq<Reply<T>>)
    decreases |nows|
  {
    if |nows| == 0 then (m, [])
    else
      var (m1, r1) := Call(m, nows[0]);
      var (m2, rs) := Calls(m1, nows[1..]);
      (m2, [r1] + rs)
  }

  /** Coalescing: while no load settles, `fn` is invoked at most once however
      many calls arrive, every call that does not hit the stored value gets
      the same load, and the stored value is left alone. */
  lemma {:induction false} CallsShareOneLoad<T>(m: Memo<T>, nows: seq<int>)
    ensures var (m', rs) := Calls(m, nows);
      && |rs| == |nows|
      && m'.calls <= m.calls + 1
      && m'.stored == m.stored
      && (m.loading.Some? ==> m'.calls == m.calls && m'.loading == m.loading)
      && (forall i, j :: 0 <= i < |rs| && 0 <= j < |rs| && rs[i].Pending? && rs[j].Pending? ==> rs[i] == rs[j])
      && (forall i :: 0 <= i < |rs| && rs[i].Pending? && m.loading.Some? ==> rs[i].load == m.loading.value)
    decreases |nows|
  {
    if |nows| > 0 {
      var (m1, r1) := Call(m, nows[0]);
      CallsShareOneLoad(m1, nows[1..]);
      var (m2, rs) := Calls(m1, nows[1..]);
      assert Calls(m, nows) == (m2, [r1] + rs);
      if r1.Pending? {
        assert m1.loading == Some(r1.load);
      }
    }
  }

  /** After a successful load settles at `t0`, calls before `t0 + ms` return
      its value without invoking `fn`; the first call at or after expiry
      with nothing outstanding invokes `fn` again. */
  lemma ExpiryIsStrict<T>(m: Memo<T>, v: T, t0: int, now: int)
    requires m.loading.Some?
    ensures now < t0 + m.ms ==> Call(Settle(m, Resolved(v), t0), now).1 == Value(v)
    ensures now >= t0 + m.ms ==>
              && Call(Settle(m, Resolved(v), t0), now).1 == Pending(m.calls)
              && Call(Settle(m, Resolved(v), t0), now).0.calls == m.calls + 1
  {
  }

  /** A failed load leaves the memo as it was before the load started, so
      the next call that does not hit starts a new load. */
  lemma FailureRetries<T>(m: Memo<T>, now: int, later: int)
    requires !Fresh(m, now) && m.loading.None?
    requires !Fresh(m, later)
    ensures var m1 := Settle(Call(m, now).0, Rejected, later);
      && m1.stored == m.stored && m1.loading.None?
      && Call(m1, later).1 == Pending(m.calls + 1)
  {
  }
}

/** `cached` of worker/src/cache-util.ts, as written: a memo whose concurrent
    readers share one load, with an `invalidate` that clears the stored value.
    The stored value is never assigned, so every read that finds no load
    outstanding invokes `fn`. */
module SharedLoad {
  import opened Wrappers

  /** The closure's state: the stored value, the outstanding load (numbered
      by `fn` invocation) and how many times `fn` has been invoked. */
  datatype Loader<T> = Loader(stored: Option<T>, loading: Option<nat>, calls: nat)

  /** What a read returns: the stored value, or the promise of load `load`. */
  datatype Reply<T> = Value(value: T) | Pending(load: nat)

  datatype Settlement<T> = Resolved(value: T) | Rejected

  /** `cached(fn)` before its first read. */
  function Init<T>(): Loader<T> {
    Loader(None, None, 0)
  }

  /** `read()`. */
  function Read<T>(s: Loader<T>): (r: (Loader<T>, Reply<T>))
    ensures s.stored.Some? ==> r == (s, Value(s.stored.value))
    ensures s.stored.None? && s.loading.Some? ==> r == (s, Pending(s.loading.value))
    ensures s.stored.None? && s.loading.None? ==>
              r == (s.(loading := Some(s.calls), calls := s.calls + 1), Pending(s.calls))
  {
    if s.stored.Some? then (s, Value(s.stored.value))
    else if s.loading.Some? then (s, Pending(s.loading.value))
    else (s.(loading := Some(s.calls), calls := s.calls + 1), Pending(s.calls))
  }

  /** The outstanding load settles: its value or error goes to every reader
      holding its promise (the `if (loading)` guard always holds, since only
      this step clears `loading`), and `loading` is reset. The value is not
      stored. */
  function Finish<T>(s: Loader<T>, outcome: Settlement<T>): (r: (Loader<T>, nat, Settlement<T>))
    requires s.loading.Some?
    ensures r.0.stored == s.stored && r.0.loading.None? && r.0.calls == s.calls
    ensures Read(r.0).1 == (if s.stored.Some? then Value(s.stored.value) else Pending(s.calls))
    ensures r.1 == s.loading.value && r.2 == outcome
  {
    (s.(loading := None), s.loading.value, outcome)
  }

  /** `invalidate()`: clears the stored value only; an outstanding load keeps
      running and will still be delivered to its readers. */
  function Invalidate<T>(s: Loader<T>): (r: Loader<T>)
    ensures r.stored.None? && r.loading == s.loading && r.calls == s.calls
  {
    s.(stored := None)
  }

  /** One step a program can take on the loader. A `Finish` with nothing
      outstanding cannot happen and is skipped. */
  datatype Event<T> = ReadEvent | FinishEvent(outcome: Settlement<T>) | InvalidateEvent

  function Step<T>(s: Loader<T>, e: Event<T>): Loader<T> {
    match e
    case ReadEvent => Read(s).0
    case FinishEvent(outcome) => if s.loading.Some? then Finish(s, outcome).0 else s
    case InvalidateEvent => Invalidate(s)
  }

  function Replay<T>(s: Loader<T>, es: seq<Event<T>>): Loader<T>
    decreases |es|
  {
    if |es| == 0 then s else Replay(Step(s, es[0]), es[1..])
  }

  /** Nothing ever stores a value: in every state reachable from `Init` the
      stored value is absent, so the hit branch of `read` is dead code. */
  lemma {:induction false} StoredNeverAssigned<T>(s: Loader<T>, es: seq<Event<T>>)
    requires s.stored.None?
    ensures Replay(s, es).stored.None?
    decreases |es|
  {
    if |es| > 0 {
      StoredNeverAssigned(Step(s, es[0]), es[1..]);
    }
  }

  /** Hence every reachable read either joins the outstanding load or, once
      loads have settled, invokes `fn` again. */
  lemma ReachableReadNeverHits<T>(es: seq<Event<T>>)
    ensures Read(Replay(Init<T>(), es)).1.Pending?
    ensures Replay(Init<T>(), es).loading.None? ==>
              Read(Replay(Init<T>(), es)).0.calls == Replay(Init<T>(), es).calls + 1
  {
    StoredNeverAssigned(Init<T>(), es);
  }

  /** The discrepancy, on a concrete run: read, let the load succeed with
      `v`, read again without invalidating — `fn` has run twice and the
      second read does not see `v`. */
  lemma SecondReadReloads<T>(v: T)
    ensures var s1 := Read(Init<T>()).0;
      var s2 := Finish(s1, Resolved(v)).0;
      Read(s2).0.calls == 2 && Read(s2).1 == Pending(1)
  {
  }
}

/** `cached` as evidently intended: a settled successful load is stored, so
    later reads return it until `invalidate` clears it; a failure is not
    stored, and the next read retries. This is the lifecycle of the
    manifest snapshot loader. */
module SharedLoadIntended {
  import opened Wrappers
  import SharedLoad

  type Loader<T> = SharedLoad.Loader<T>

  /** The outstanding load settles and a successful value is kept. */
  function FinishStoring<T>(s: Loader<T>, outcome: SharedLoad.Settlement<T>): (r: Loader<T>)
    requires s.loading.Some?
    ensures r.loading.None? && r.calls == s.calls
    ensures outcome.Resolved? ==> r.stored == Some(outcome.value)
    ensures outcome.Rejected? ==> r.stored == s.stored
  {
    match outcome
    case Resolved(v) => s.(stored := Some(v), loading := None)
    case Rejected => s.(loading := None)
  }

  /** Read after a successful load returns its value without invoking `fn`;
      after `invalidate` the next read loads afresh. */
  lemma ReadAfterLoadHits<T>(v: T)
    ensures var s1 := SharedLoad.Read(SharedLoad.Init<T>()).0;
      var s2 := FinishStoring(s1, SharedLoad.Resolved(v));
      && SharedLoad.Read(s2) == (s2, SharedLoad.Value(v))
      && s2.calls == 1
      && SharedLoad.Read(SharedLoad.Invalidate(s2)).0.calls == 2
  {
  }

  /** A failed load is not kept: the next read invokes `fn` again. */
  lemma FailureIsNotStored<T>(s: Loader<T>)
    requires s.stored.None? && s.loading.Some?
    ensures SharedLoad.Read(FinishStoring(s, SharedLoad.Rejected)).0.calls == s.calls + 1
  {
  }
}
