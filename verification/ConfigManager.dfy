/** Locks on daemons' configurations and the contexts that own them (server/apps/manager.go). */
module ConfigManager {
  import opened Wrappers

  /** The values a context carries. Contexts are immutable; changed ones are new contexts. */
  datatype Context = Context(id: Option<int>, user: Option<int>, key: Option<nat>, daemons: Option<seq<int>>)

  datatype ConfigLock = ConfigLock(key: nat, user: int)

  type Locks = map<int, ConfigLock>

  predicate NoDuplicates(ids: seq<int>) {
    forall i, j :: 0 <= i < j < |ids| ==> ids[i] != ids[j]
  }

  // Releasing

  /** Without the given daemons, as far as they are locked under the given key. */
  function Released(locks: Locks, key: nat, ids: seq<int>): Locks {
    map d | d in locks && !(d in ids && locks[d].key == key) :: locks[d]
  }

  function ReleasedBy(locks: Locks, ctx: Context): Locks {
    if ctx.daemons.Some? && ctx.key.Some? then Released(locks, ctx.key.value, ctx.daemons.value) else locks
  }

  // Acquiring

  function Held(ids: seq<int>, lock: ConfigLock): Locks {
    map d | d in ids :: lock
  }

  /** Whether acquiring the daemon at position i fails, all earlier ones having been acquired. */
  predicate Refused(locks: Locks, user: Option<int>, ids: seq<int>, i: nat)
    requires i < |ids|
  {
    ids[i] in locks || ids[i] in ids[..i] || user.None?
  }

  /** The first position, from i on, at which acquiring fails, or the number of daemons. */
  function FirstRefused(locks: Locks, user: Option<int>, ids: seq<int>, i: nat): (k: nat)
    requires i <= |ids|
    ensures i <= k <= |ids|
    ensures forall j :: i <= j < k ==> !Refused(locks, user, ids, j)
    ensures k < |ids| ==> Refused(locks, user, ids, k)
    decreases |ids| - i
  {
    if i == |ids| || Refused(locks, user, ids, i) then i else FirstRefused(locks, user, ids, i + 1)
  }

  function FirstIndex(ids: seq<int>, id: int): (k: nat)
    requires id in ids
    ensures k < |ids| && ids[k] == id && id !in ids[..k]
  {
    if ids[0] == id then 0
    else
      var k := FirstIndex(ids[1..], id);
      assert ids[..k + 1] == [ids[0]] + ids[1..][..k];
      k + 1
  }

  /** The locks after an attempt to lock daemons. A failed attempt gives back the daemons
      listed before the first occurrence of the one that failed. */
  function LocksAfter(locks: Locks, ctx: Context, ids: seq<int>): Locks
    requires ctx.key.Some?
  {
    var k := FirstRefused(locks, ctx.user, ids, 0);
    if ctx.user.None? then locks
    else
      var lock := ConfigLock(ctx.key.value, ctx.user.value);
      if k == |ids| then locks + Held(ids, lock)
      else locks + Held(ids[FirstIndex(ids, ids[k])..k], lock)
  }

  /** Whether the attempt succeeds. */
  predicate Locked(locks: Locks, ctx: Context, ids: seq<int>) {
    FirstRefused(locks, ctx.user, ids, 0) == |ids|
  }

  function ContextAfter(locks: Locks, ctx: Context, ids: seq<int>): Context {
    if Locked(locks, ctx, ids) then ctx.(daemons := Some(ids)) else ctx
  }

  /** Whether a context may be stored: it names itself and its user, and no other user's
      context is stored under the same identifier. */
  predicate MayRemember(contexts: map<int, Context>, ctx: Context) {
    ctx.id.Some? && ctx.user.Some? && (ctx.id.value in contexts ==> contexts[ctx.id.value].user == ctx.user)
  }

  class Manager {
    var contexts: map<int, Context>
    var locks: Locks
    var key: nat

    /** The fields hold what a state of the runs below holds. */
    ghost predicate Records(s: State)
      reads this
    {
      contexts == s.contexts && locks == s.locks && key == s.key
    }

    constructor ()
      ensures contexts == map[] && locks == map[] && key == 0
    {
      contexts := map[];
      locks := map[];
      key := 0;
    }

    method GenerateKey() returns (k: nat)
      modifies this`key
      ensures k == key == old(key) + 1
      ensures forall s, s', thread, ctx, ids ::
        old(Records(s)) && Next(s, DrawKey(thread, ctx, ids), s') ==>
          Records(s') && s'.pending[thread] == Pending(ctx.(key := Some(k)), ids)
    {
      key := key + 1;
      return key;
    }

    method LockDaemon(ctx: Context, id: int) returns (ok: bool)
      requires ctx.key.Some?
      modifies this`locks
      ensures ok == (id !in old(locks) && ctx.user.Some?)
      ensures locks == if ok then old(locks)[id := ConfigLock(ctx.key.value, ctx.user.value)] else old(locks)
    {
      if id in locks || ctx.user.None? {
        return false;
      }
      locks := locks[id := ConfigLock(ctx.key.value, ctx.user.value)];
      return true;
    }

    method UnlockDaemon(ctx: Context, id: int)
      modifies this`locks
      ensures locks == if ctx.key.Some? then Released(old(locks), ctx.key.value, [id]) else old(locks)
    {
      if ctx.key.None? {
        return;
      }
      if id in locks && locks[id].key == ctx.key.value {
        locks := locks - {id};
      }
    }

    /** Gives back what a failed attempt acquired, up to the first occurrence of the daemon
        at position i, which could not be locked. */
    method Rollback(ctx: Context, ids: seq<int>, ghost before: Locks, i: nat)
      requires ctx.key.Some? && ctx.user.Some? && i < |ids|
      requires forall j :: 0 <= j < i ==> !Refused(before, ctx.user, ids, j)
      requires locks == before + Held(ids[..i], ConfigLock(ctx.key.value, ctx.user.value))
      modifies this`locks
      ensures FirstIndex(ids, ids[i]) <= i
      ensures locks == before + Held(ids[FirstIndex(ids, ids[i])..i], ConfigLock(ctx.key.value, ctx.user.value))
    {
      hide Held, Released, Refused;
      ghost var lock := ConfigLock(ctx.key.value, ctx.user.value);
      ghost var j := FirstIndex(ids, ids[i]);
      FirstIndexLeast(ids, i);
      for u := 0 to |ids|
        invariant u <= j
        invariant locks == before + Held(ids[u..i], lock)
      {
        if ids[u] == ids[i] {
          FirstIndexLeast(ids, u);
          break;
        }
        ReleaseFirst(before, ctx.user, ids, i, u, lock);
        UnlockDaemon(ctx, ids[u]);
      }
    }

    /** The part of Lock that runs under the mutex, with the key already drawn. */
    method LockDrawn(ctx: Context, ids: seq<int>) returns (ctx': Context, ok: bool)
      requires ctx.key.Some?
      modifies this`locks
      ensures ok == Locked(old(locks), ctx, ids)
      ensures ctx' == ContextAfter(old(locks), ctx, ids)
      ensures locks == LocksAfter(old(locks), ctx, ids)
      ensures forall s, s', thread ::
        old(Records(s)) && Next(s, Step.LockDrawn(thread), s') && s.pending[thread] == Pending(ctx, ids) ==>
          Records(s') && ctx' in s'.known
    {
      hide Held, FirstIndex, Next;
      ghost var before, first := locks, FirstRefused(locks, ctx.user, ids, 0);
      ghost var lock := ConfigLock(ctx.key.value, if ctx.user.Some? then ctx.user.value else 0);
      HeldNext([], 0, lock);
      for i := 0 to |ids|
        invariant i <= first && (i > 0 ==> ctx.user.Some?)
        invariant locks == before + Held(ids[..i], lock)
      {
        HeldNext(ids, i, lock);
        HeldKeys(ids[..i], lock);
        var locked := LockDaemon(ctx, ids[i]);
        assert locked == !Refused(before, ctx.user, ids, i);
        if !locked {
          if ctx.user.Some? {
            Rollback(ctx, ids, before, i);
          }
          LockDrawnStep(ctx, ids);
          return ctx, false;
        }
      }
      LockDrawnStep(ctx, ids);
      assert ids[..|ids|] == ids;
      return ctx.(daemons := Some(ids)), true;
    }

    method Lock(ctx: Context, ids: seq<int>) returns (ctx': Context, ok: bool)
      modifies this`locks, this`key
      ensures key == old(key) + 1
      ensures var drawn := ctx.(key := Some(key));
        && ok == Locked(old(locks), drawn, ids)
        && ctx' == ContextAfter(old(locks), drawn, ids)
        && locks == LocksAfter(old(locks), drawn, ids)
    {
      var k := GenerateKey();
      ctx', ok := LockDrawn(ctx.(key := Some(k)), ids);
    }

    method Unlock(ctx: Context)
      modifies this`locks
      ensures locks == ReleasedBy(old(locks), ctx)
      ensures forall s, s' :: old(Records(s)) && Next(s, Step.Unlock(ctx), s') ==> Records(s')
    {
      if ctx.daemons.None? {
        return;
      }
      var ids := ctx.daemons.value;
      for i := 0 to |ids|
        invariant locks == if ctx.key.Some? then Released(old(locks), ctx.key.value, ids[..i]) else old(locks)
      {
        UnlockDaemon(ctx, ids[i]);
        assert ids[..i + 1] == ids[..i] + [ids[i]];
      }
      assert ids[..|ids|] == ids;
    }

    method Done(ctx: Context)
      modifies this`locks, this`contexts
      ensures locks == ReleasedBy(old(locks), ctx)
      ensures contexts == if ctx.id.Some? then old(contexts) - {ctx.id.value} else old(contexts)
      ensures forall s, s' :: old(Records(s)) && Next(s, Step.Done(ctx), s') ==> Records(s')
    {
      if ctx.id.Some? && ctx.id.value in contexts {
        contexts := contexts - {ctx.id.value};
      }
      Unlock(ctx);
    }

    method RememberContext(ctx: Context) returns (ok: bool)
      modifies this`contexts
      ensures ok == MayRemember(old(contexts), ctx)
      ensures ok <==>
        && ctx.id.Some? && ctx.user.Some?
        && (ctx.id.value in old(contexts) ==> old(contexts)[ctx.id.value].user == ctx.user)
      ensures contexts == if ok then old(contexts)[ctx.id.value := ctx] else old(contexts)
      ensures forall s, s', s'', thread ::
        old(Records(s)) && Next(s, CheckContext(thread, ctx), s') && Next(s', StoreContext(thread), s'') ==>
          ok && Records(s'')
    {
      if ctx.id.None? || ctx.user.None? {
        return false;
      }
      if ctx.id.value in contexts && contexts[ctx.id.value].user != ctx.user {
        return false;
      }
      contexts := contexts[ctx.id.value := ctx];
      return true;
    }

    method RecoverContext(id: int, user: int) returns (ctx: Option<Context>)
      ensures ctx == if id in contexts && contexts[id].user == Some(user) then Some(contexts[id]) else None
    {
      if id in contexts && contexts[id].user.Some? && contexts[id].user.value == user {
        return Some(contexts[id]);
      }
      return None;
    }
  }

  lemma LockDrawnStep(ctx: Context, ids: seq<int>)
    ensures forall s, s', thread :: Next(s, Step.LockDrawn(thread), s') && s.pending[thread] == Pending(ctx, ids) ==>
      && s'.locks == LocksAfter(s.locks, ctx, ids) && s'.contexts == s.contexts && s'.key == s.key
      && ContextAfter(s.locks, ctx, ids) in s'.known
  {
    hide LocksAfter, ContextAfter;
  }

  lemma HeldKeys(ids: seq<int>, lock: ConfigLock)
    ensures forall d :: d in Held(ids, lock) <==> d in ids
  {
  }

  lemma HeldNext(ids: seq<int>, i: nat, lock: ConfigLock)
    ensures Held([], lock) == map[]
    ensures i < |ids| ==> Held(ids[..i + 1], lock) == Held(ids[..i], lock)[ids[i] := lock]
  {
    if i < |ids| {
      assert ids[..i + 1] == ids[..i] + [ids[i]];
    }
  }

  lemma FirstIndexLeast(ids: seq<int>, i: nat)
    requires i < |ids|
    ensures FirstIndex(ids, ids[i]) <= i
  {
    var k := FirstIndex(ids, ids[i]);
    assert forall m :: 0 <= m < k ==> ids[m] in ids[..k];
  }

  lemma ReleaseFirst(locks: Locks, user: Option<int>, ids: seq<int>, i: nat, u: nat, lock: ConfigLock)
    requires u < i < |ids|
    requires forall j :: 0 <= j < i ==> !Refused(locks, user, ids, j)
    ensures Released(locks + Held(ids[u..i], lock), lock.key, [ids[u]]) == locks + Held(ids[u + 1..i], lock)
  {
    assert !Refused(locks, user, ids, u);
    forall j | u < j < i ensures ids[j] != ids[u] {
      assert !Refused(locks, user, ids, j);
      assert ids[..j][u] == ids[u];
    }
    assert ids[u..i] == [ids[u]] + ids[u + 1..i];
  }

  // All or nothing

  /** Locking succeeds exactly when the context has a user and the daemons are distinct and
      free. Then every daemon is held under the context's key and user, and nothing else
      changes; releasing the returned context restores the locks. */
  lemma LockSucceeds(locks: Locks, ctx: Context, ids: seq<int>)
    requires ctx.key.Some?
    ensures Locked(locks, ctx, ids)
       <==> (ids == [] || ctx.user.Some?) && NoDuplicates(ids) && forall d :: d in ids ==> d !in locks
    ensures Locked(locks, ctx, ids) && ctx.user.Some? ==>
      var locks' := LocksAfter(locks, ctx, ids);
      && (forall d :: d in ids ==> d in locks' && locks'[d] == ConfigLock(ctx.key.value, ctx.user.value))
      && (forall d :: d !in ids ==> (d in locks' <==> d in locks) && (d in locks ==> locks'[d] == locks[d]))
    ensures Locked(locks, ctx, ids) ==>
      ReleasedBy(LocksAfter(locks, ctx, ids), ContextAfter(locks, ctx, ids)) == locks
  {
    var k := FirstRefused(locks, ctx.user, ids, 0);
    if k == |ids| {
      forall i, j | 0 <= i < j < |ids| ensures ids[i] != ids[j] {
        assert ids[..j][i] == ids[i];
        assert !Refused(locks, ctx.user, ids, j);
      }
      forall d | d in ids ensures d !in locks {
        var i :| 0 <= i < |ids| && ids[i] == d;
        assert !Refused(locks, ctx.user, ids, i);
      }
    } else {
      assert Refused(locks, ctx.user, ids, k);
      assert ids[k] in ids;
      if ids[k] in ids[..k] {
        var i :| 0 <= i < k && ids[..k][i] == ids[k];
        assert ids[i] == ids[k];
      }
    }
  }

  /** A failed attempt leaves the locks as they were exactly when it did not fail on a daemon
      that it had locked itself a moment before. */
  lemma LockFails(locks: Locks, ctx: Context, ids: seq<int>)
    requires ctx.key.Some? && !Locked(locks, ctx, ids)
    ensures LocksAfter(locks, ctx, ids) == locks
       <==> ctx.user.None? || ids[FirstRefused(locks, ctx.user, ids, 0)] in locks
  {
    var k := FirstRefused(locks, ctx.user, ids, 0);
    var j := FirstIndex(ids, ids[k]);
    FirstIndexLeast(ids, k);
    if ids[k] in locks {
      assert j < k ==> !Refused(locks, ctx.user, ids, j);
      HeldNext([], 0, ConfigLock(0, 0));
    } else if ctx.user.Some? {
      var i :| 0 <= i < k && ids[..k][i] == ids[k];
      FirstIndexLeast(ids, i);
      assert ids[j..k][0] == ids[k];
      assert ids[k] in LocksAfter(locks, ctx, ids);
    }
  }

  /** In particular locking distinct daemons is all or nothing. */
  lemma DistinctDaemonsAllOrNothing(locks: Locks, ctx: Context, ids: seq<int>)
    requires ctx.key.Some? && NoDuplicates(ids) && !Locked(locks, ctx, ids)
    ensures LocksAfter(locks, ctx, ids) == locks
  {
    LockFails(locks, ctx, ids);
    var k := FirstRefused(locks, ctx.user, ids, 0);
    assert ids[k] !in ids[..k];
  }

  /** A daemon that is asked for twice is locked, is found locked, and stays locked although
      the call fails. */
  lemma RepeatedDaemonStaysLocked(d: int, user: int, key: nat)
    ensures var ctx := Context(None, Some(user), Some(key), None);
      !Locked(map[], ctx, [d, d]) && LocksAfter(map[], ctx, [d, d]) == map[d := ConfigLock(key, user)]
  {
    var ctx := Context(None, Some(user), Some(key), None);
    assert [d, d][..1] == [d];
    assert Refused(map[], Some(user), [d, d], 1);
    assert !Refused(map[], Some(user), [d, d], 0);
    assert FirstRefused(map[], Some(user), [d, d], 0) == 1;
    assert FirstIndex([d, d], d) == 0;
    assert [d, d][0..1] == [d];
  }

  // Runs

  /** A call of Lock: the user in its context and the daemons asked for. */
  datatype Call = Call(user: Option<int>, ids: seq<int>)

  datatype Pending = Pending(ctx: Context, ids: seq<int>)

  /** The manager, the calls of Lock that have drawn a key but not yet the mutex, the contexts
      that passed the check of RememberContext but are not yet stored, and, as history, every
      context anyone may still have and the call that drew each key. */
  datatype State = State(
    contexts: map<int, Context>,
    locks: Locks,
    key: nat,
    pending: map<int, Pending>,
    checked: map<int, Context>,
    known: set<Context>,
    calls: map<nat, Call>)

  datatype Step =
    | CreateContext(id: int, user: int)
    | DrawKey(thread: int, ctx: Context, ids: seq<int>)
    | LockDrawn(thread: int)
    | Unlock(ctx: Context)
    | CheckContext(thread: int, ctx: Context)
    | StoreContext(thread: int)
    | Done(ctx: Context)

  ghost predicate Init(s: State) {
    s == State(map[], map[], 0, map[], map[], {}, map[])
  }

  ghost predicate Next(s: State, step: Step, s': State) {
    match step
    case CreateContext(id, user) =>
      && id !in s.contexts
      && s' == s.(known := s.known + {Context(Some(id), Some(user), None, None)})
    case DrawKey(thread, ctx, ids) =>
      && ctx in s.known && thread !in s.pending
      && s' == s.(
        key := s.key + 1,
        pending := s.pending[thread := Pending(ctx.(key := Some(s.key + 1)), ids)],
        calls := s.calls[s.key + 1 := Call(ctx.user, ids)])
    case LockDrawn(thread) =>
      && thread in s.pending && s.pending[thread].ctx.key.Some?
      && var Pending(ctx, ids) := s.pending[thread];
      s' == s.(
        locks := LocksAfter(s.locks, ctx, ids),
        pending := s.pending - {thread},
        known := s.known + {ContextAfter(s.locks, ctx, ids)})
    case Unlock(ctx) =>
      ctx in s.known && s' == s.(locks := ReleasedBy(s.locks, ctx))
    case CheckContext(thread, ctx) =>
      && ctx in s.known && thread !in s.checked && MayRemember(s.contexts, ctx)
      && s' == s.(checked := s.checked[thread := ctx])
    case StoreContext(thread) =>
      && thread in s.checked && s.checked[thread].id.Some?
      && s' == s.(
        contexts := s.contexts[s.checked[thread].id.value := s.checked[thread]],
        checked := s.checked - {thread})
    case Done(ctx) =>
      // Also what a timer does, possibly long after the context was replaced.
      && ctx in s.known
      && s' == s.(
        locks := ReleasedBy(s.locks, ctx),
        contexts := if ctx.id.Some? then s.contexts - {ctx.id.value} else s.contexts)
  }

  /** A context that has a key descends from the call of Lock that drew it. */
  ghost predicate ContextInv(s: State, ctx: Context) {
    ctx.key.Some? ==> ctx.key.value in s.calls && s.calls[ctx.key.value].user == ctx.user
  }

  ghost predicate CallsInv(s: State) {
    forall k :: k in s.calls ==> 1 <= k <= s.key
  }

  ghost predicate LocksInv(s: State) {
    forall d :: d in s.locks ==>
      && s.locks[d].key in s.calls
      && d in s.calls[s.locks[d].key].ids
      && s.calls[s.locks[d].key].user == Some(s.locks[d].user)
  }

  ghost predicate KnownInv(s: State) {
    forall ctx :: ctx in s.known ==> ContextInv(s, ctx)
  }

  ghost predicate CheckedInv(s: State) {
    forall t :: t in s.checked ==> s.checked[t] in s.known && s.checked[t].id.Some? && s.checked[t].user.Some?
  }

  ghost predicate StoredInv(s: State) {
    forall id :: id in s.contexts ==> s.contexts[id] in s.known && s.contexts[id].id == Some(id)
  }

  ghost predicate PendingInv(s: State) {
    forall t :: t in s.pending ==>
      && s.pending[t].ctx.key.Some? && s.pending[t].ctx.key.value in s.calls
      && s.calls[s.pending[t].ctx.key.value] == Call(s.pending[t].ctx.user, s.pending[t].ids)
  }

  /** A key is carried by one context only, and by none while its call has yet to run. */
  ghost predicate KeysInv(s: State) {
    && (forall c, e :: c in s.known && e in s.known && c.key.Some? && c.key == e.key ==> c == e)
    && (forall t, c :: t in s.pending && c in s.known ==> s.pending[t].ctx.key != c.key)
    && (forall t, u :: t in s.pending && u in s.pending && s.pending[t].ctx.key == s.pending[u].ctx.key ==> t == u)
  }

  ghost predicate Inv(s: State) {
    CallsInv(s) && LocksInv(s) && KnownInv(s) && CheckedInv(s) && StoredInv(s) && PendingInv(s) && KeysInv(s)
  }

  /** Locking adds no lock except under the drawn key and the context's user, for daemons it
      was asked for, and takes none away. */
  lemma LocksAfterAdds(locks: Locks, ctx: Context, ids: seq<int>, d: int)
    requires ctx.key.Some?
    ensures d in locks ==> d in LocksAfter(locks, ctx, ids) && LocksAfter(locks, ctx, ids)[d] == locks[d]
    ensures d in LocksAfter(locks, ctx, ids) && d !in locks ==>
      && d in ids && ctx.user.Some?
      && LocksAfter(locks, ctx, ids)[d] == ConfigLock(ctx.key.value, ctx.user.value)
  {
    var k := FirstRefused(locks, ctx.user, ids, 0);
    var from := if k == |ids| then 0 else FirstIndex(ids, ids[k]);
    if k < |ids| {
      FirstIndexLeast(ids, k);
    } else {
      assert ids[0..k] == ids;
    }
    forall i | from <= i < k ensures ids[i] !in locks {
      assert !Refused(locks, ctx.user, ids, i);
    }
  }

  lemma ReleasedOnly(locks: Locks, ctx: Context)
    ensures forall d :: d in ReleasedBy(locks, ctx) ==> d in locks && ReleasedBy(locks, ctx)[d] == locks[d]
  {
  }

  lemma MayBeRemembered(contexts: map<int, Context>, ctx: Context)
    requires MayRemember(contexts, ctx)
    ensures ctx.id.Some? && ctx.user.Some?
  {
  }

  lemma CallsKept(s: State, step: Step, s': State)
    requires CallsInv(s) && Next(s, step, s')
    ensures CallsInv(s') && s.key <= s'.key && s.known <= s'.known
    ensures forall k :: k in s.calls ==> k in s'.calls && s'.calls[k] == s.calls[k]
  {
    hide LocksAfter, ReleasedBy, MayRemember, ContextAfter;
  }

  lemma KnownKept(s: State, step: Step, s': State)
    requires CallsInv(s) && KnownInv(s) && PendingInv(s) && Next(s, step, s')
    ensures KnownInv(s')
  {
    hide LocksAfter, ReleasedBy, MayRemember, Locked;
  }

  lemma LocksKept(s: State, step: Step, s': State)
    requires CallsInv(s) && LocksInv(s) && PendingInv(s) && Next(s, step, s')
    ensures LocksInv(s')
  {
    hide LocksAfter, ReleasedBy, MayRemember, ContextAfter;
    match step {
      case Unlock(ctx) => ReleasedOnly(s.locks, ctx);
      case Done(ctx) => ReleasedOnly(s.locks, ctx);
      case LockDrawn(thread) =>
        var Pending(ctx, ids) := s.pending[thread];
        forall d | d in s'.locks
          ensures s'.locks[d].key in s.calls && d in s.calls[s'.locks[d].key].ids
          ensures s.calls[s'.locks[d].key].user == Some(s'.locks[d].user)
        {
          LocksAfterAdds(s.locks, ctx, ids, d);
        }
      case _ =>
    }
  }

  lemma ContextsKept(s: State, step: Step, s': State)
    requires CheckedInv(s) && StoredInv(s) && Next(s, step, s')
    ensures CheckedInv(s') && StoredInv(s')
  {
    hide LocksAfter, ReleasedBy, MayRemember, ContextAfter;
    if step.CheckContext? {
      MayBeRemembered(s.contexts, step.ctx);
    }
  }

  lemma PendingKept(s: State, step: Step, s': State)
    requires CallsInv(s) && PendingInv(s) && Next(s, step, s')
    ensures PendingInv(s')
  {
    hide LocksAfter, ReleasedBy, MayRemember, ContextAfter;
  }

  /** A pending key moves to the context with which its call comes back. */
  lemma KeyArrives(s: State, thread: int, c: Context, s': State)
    requires KeysInv(s) && thread in s.pending && c.key.Some? && c.key == s.pending[thread].ctx.key
    requires s'.known == s.known + {c} && s'.pending == s.pending - {thread}
    ensures KeysInv(s')
  {
  }

  lemma KeylessArrives(s: State, c: Context, s': State)
    requires KeysInv(s) && PendingInv(s) && c.key.None?
    requires s'.known == s.known + {c} && s'.pending == s.pending
    ensures KeysInv(s')
  {
  }

  lemma KeyIsDrawn(s: State, thread: int, p: Pending, s': State)
    requires KeysInv(s) && s'.known == s.known && s'.pending == s.pending[thread := p]
    requires forall c :: c in s.known ==> c.key != p.ctx.key
    requires forall t :: t in s.pending ==> s.pending[t].ctx.key != p.ctx.key
    ensures KeysInv(s')
  {
  }

  lemma KeysKept(s: State, step: Step, s': State)
    requires CallsInv(s) && KnownInv(s) && PendingInv(s) && KeysInv(s) && Next(s, step, s')
    ensures KeysInv(s')
  {
    hide LocksAfter, ReleasedBy, MayRemember, ContextAfter, CallsInv, KnownInv, PendingInv;
    match step {
      case LockDrawn(thread) =>
        var Pending(ctx, ids) := s.pending[thread];
        KeptKey(s.locks, ctx, ids);
        KeyArrives(s, thread, ContextAfter(s.locks, ctx, ids), s');
      case DrawKey(thread, _, _) =>
        NewKey(s);
        KeyIsDrawn(s, thread, s'.pending[thread], s');
      case CreateContext(id, user) =>
        KeylessArrives(s, Context(Some(id), Some(user), None, None), s');
      case _ =>
        assert s'.known == s.known && s'.pending == s.pending;
    }
  }

  lemma KeptKey(locks: Locks, ctx: Context, ids: seq<int>)
    ensures ContextAfter(locks, ctx, ids).key == ctx.key
  {
  }

  lemma NewKey(s: State)
    requires CallsInv(s) && KnownInv(s) && PendingInv(s)
    ensures forall c :: c in s.known ==> c.key != Some(s.key + 1)
    ensures forall t :: t in s.pending ==> s.pending[t].ctx.key != Some(s.key + 1)
  {
  }

  lemma NextKeepsInv(s: State, step: Step, s': State)
    requires Inv(s) && Next(s, step, s')
    ensures Inv(s')
  {
    hide Next, CallsInv, LocksInv, KnownInv, CheckedInv, StoredInv, PendingInv, KeysInv;
    CallsKept(s, step, s');
    KnownKept(s, step, s');
    LocksKept(s, step, s');
    ContextsKept(s, step, s');
    PendingKept(s, step, s');
    KeysKept(s, step, s');
  }

  /** In any step, a lock is kept unless someone releases it with a context that carries its
      key; and a new lock is taken only by the call that drew its key. */
  lemma LocksChangeByTheirKey(s: State, step: Step, s': State, d: int)
    requires Inv(s) && Next(s, step, s')
    ensures d in s.locks ==>
      || (d in s'.locks && s'.locks[d] == s.locks[d])
      || ((step.Unlock? || step.Done?) && step.ctx.key == Some(s.locks[d].key) && d !in s'.locks)
    ensures d !in s.locks && d in s'.locks ==>
      step.LockDrawn? && s.pending[step.thread].ctx.key == Some(s'.locks[d].key)
  {
    hide LocksAfter;
    if step.LockDrawn? {
      LocksAfterAdds(s.locks, s.pending[step.thread].ctx, s.pending[step.thread].ids, d);
    }
  }

  /** A step releases a lock if and only if it is given a context with the key of the lock that was
      returned for the locked daemon. */
  lemma WhatReleases(s: State, step: Step, s': State, d: int)
    requires Inv(s) && Next(s, step, s') && d in s.locks
    ensures d !in s'.locks
       <==> && (step.Unlock? || step.Done?) && step.ctx.key == Some(s.locks[d].key)
            && step.ctx.daemons.Some? && d in step.ctx.daemons.value
  {
    hide LocksAfter;
    if step.LockDrawn? {
      LocksAfterAdds(s.locks, s.pending[step.thread].ctx, s.pending[step.thread].ids, d);
    }
  }

  /** A step takes the locks of distinct daemons if and only if they are all free and there is a user. */
  lemma WhatLocks(s: State, step: Step, s': State, d: int)
    requires Next(s, step, s') && d !in s.locks
    requires step.LockDrawn? ==> step.thread in s.pending && NoDuplicates(s.pending[step.thread].ids)
    ensures d in s'.locks
       <==> && step.LockDrawn? && s.pending[step.thread].ctx.user.Some? && d in s.pending[step.thread].ids
            && forall e :: e in s.pending[step.thread].ids ==> e !in s.locks
  {
    hide LocksAfter, Locked;
    if step.LockDrawn? {
      var Pending(ctx, ids) := s.pending[step.thread];
      LockSucceeds(s.locks, ctx, ids);
      if !Locked(s.locks, ctx, ids) {
        DistinctDaemonsAllOrNothing(s.locks, ctx, ids);
      }
      if ids == [] {
        NothingAsked(s.locks, ctx);
      }
    }
  }

  lemma NothingAsked(locks: Locks, ctx: Context)
    requires ctx.key.Some?
    ensures LocksAfter(locks, ctx, []) == locks
  {
  }

  /** A step forgets a stored context if and only if it is Done with the identifier, and stores one
      under a new identifier if and only if that context passed its check. */
  lemma WhatForgets(s: State, step: Step, s': State, id: int)
    requires Next(s, step, s')
    ensures id in s.contexts ==> (id !in s'.contexts <==> step.Done? && step.ctx.id == Some(id))
    ensures id !in s.contexts ==>
      (id in s'.contexts <==> step.StoreContext? && s.checked[step.thread].id == Some(id))
    ensures id in s'.contexts && (id in s.contexts ==> s'.contexts[id] != s.contexts[id]) ==>
      step.StoreContext? && s'.contexts[id] == s.checked[step.thread]
  {
  }

  ghost predicate IsRun(states: seq<State>, steps: seq<Step>) {
    && |states| == |steps| + 1
    && Init(states[0])
    && forall i :: 0 <= i < |steps| ==> Next(states[i], steps[i], states[i + 1])
  }

  lemma {:induction false} RunKeepsInv(states: seq<State>, steps: seq<Step>, n: nat)
    requires IsRun(states, steps) && n < |states|
    ensures Inv(states[n])
  {
    hide Next, Inv;
    if n > 0 {
      RunKeepsInv(states, steps, n - 1);
      NextKeepsInv(states[n - 1], steps[n - 1], states[n]);
    } else {
      InitInv(states[0]);
    }
  }

  lemma InitInv(s: State)
    requires Init(s)
    ensures Inv(s)
  {
  }

  /** In every reachable state no lock key exceeds the counter, and all daemons locked under
      one key were asked for by the one call of Lock that drew it, by the user who holds them. */
  lemma KeysBelongToCalls(states: seq<State>, steps: seq<Step>, n: nat)
    requires IsRun(states, steps) && n < |states|
    ensures forall d :: d in states[n].locks ==>
      && 1 <= states[n].locks[d].key <= states[n].key
      && states[n].locks[d].key in states[n].calls
      && d in states[n].calls[states[n].locks[d].key].ids
      && states[n].calls[states[n].locks[d].key].user == Some(states[n].locks[d].user)
  {
    RunKeepsInv(states, steps, n);
  }

  /** A key stays with the call that drew it. */
  lemma {:induction false} CallsAreForever(states: seq<State>, steps: seq<Step>, n: nat, m: nat, k: nat)
    requires IsRun(states, steps) && n <= m < |states| && k in states[n].calls
    ensures k in states[m].calls && states[m].calls[k] == states[n].calls[k]
    decreases m
  {
    hide Next, CallsInv;
    if n < m {
      CallsAreForever(states, steps, n, m - 1, k);
      RunKeepsInv(states, steps, m - 1);
      CallsKept(states[m - 1], steps[m - 1], states[m]);
    }
  }

  /** Exclusive ownership: a daemon locked at some point of a run is, at any later point, still
      under the same lock, unless in between Unlock or Done was given a context that carries
      the lock's key; and every such context is of the user who holds the lock. Contexts
      without that key, stale or not, never release it. */
  lemma {:induction false} HeldUntilReleased(states: seq<State>, steps: seq<Step>, n: nat, m: nat, d: int)
    requires IsRun(states, steps) && n <= m < |states| && d in states[n].locks
    ensures
      || (d in states[m].locks && states[m].locks[d] == states[n].locks[d])
      || exists i :: n <= i < m && ReleasesUnder(steps[i], states[n].locks[d])
    decreases m
  {
    hide Next, Inv, ReleasesUnder;
    if n < m {
      HeldUntilReleased(states, steps, n, m - 1, d);
      if d in states[m - 1].locks && states[m - 1].locks[d] == states[n].locks[d] {
        ReleaseStep(states, steps, m - 1, d);
      }
    }
  }

  predicate ReleasesUnder(step: Step, lock: ConfigLock) {
    (step.Unlock? || step.Done?) && step.ctx.key == Some(lock.key) && step.ctx.user == Some(lock.user)
  }

  lemma ReleaseStep(states: seq<State>, steps: seq<Step>, i: nat, d: int)
    requires IsRun(states, steps) && i < |steps| && d in states[i].locks
    ensures
      || (d in states[i + 1].locks && states[i + 1].locks[d] == states[i].locks[d])
      || ReleasesUnder(steps[i], states[i].locks[d])
  {
    hide LocksAfter, ReleasedBy;
    RunKeepsInv(states, steps, i);
    LocksChangeByTheirKey(states[i], steps[i], states[i + 1], d);
  }

  // Stored contexts

  /** The lock of a daemon is carried by the context stored under an identifier: whoever
      recovers that context can release the daemon. */
  ghost predicate Carried(s: State, d: int, id: int) {
    && d in s.locks && id in s.contexts
    && s.contexts[id].key == Some(s.locks[d].key)
    && s.contexts[id].daemons.Some? && d in s.contexts[id].daemons.value
  }

  /** The context stored under the identifier is replaced by, or forgotten for, one that has
      another key. */
  ghost predicate Displaces(s: State, step: Step, id: int, key: nat) {
    match step
    case StoreContext(thread) =>
      thread in s.checked && s.checked[thread].id == Some(id) && s.checked[thread].key != Some(key)
    case Done(ctx) => ctx.id == Some(id) && ctx.key != Some(key)
    case _ => false
  }

  /** A carried lock that is still held after a step is no longer carried by the same identifier
      if and only if the step displaces its context. */
  lemma CarriedUnlessDisplaced(s: State, step: Step, s': State, d: int, id: int)
    requires Inv(s) && Next(s, step, s') && Carried(s, d, id)
    ensures (d in s'.locks && s'.locks[d] == s.locks[d] && !Carried(s', d, id))
       <==> Displaces(s, step, id, s.locks[d].key)
  {
    hide LocksAfter, MayRemember, ContextAfter, CallsInv, LocksInv, KnownInv, PendingInv;
    if step.LockDrawn? {
      hide StoredInv, CheckedInv, KeysInv;
      PendingHasKey(s, step.thread);
      LocksAfterAdds(s.locks, s.pending[step.thread].ctx, s.pending[step.thread].ids, d);
    }
  }

  lemma PendingHasKey(s: State, thread: int)
    requires Inv(s) && thread in s.pending
    ensures s.pending[thread].ctx.key.Some?
  {
  }

  /** No step takes a lock under a key that a known context has. */
  lemma NoNewLock(s: State, step: Step, s': State, d: int, ctx: Context)
    requires Inv(s) && Next(s, step, s') && d in s'.locks && ctx in s.known && ctx.key == Some(s'.locks[d].key)
    ensures d in s.locks && s.locks[d] == s'.locks[d]
  {
    hide Next, LocksInv, KnownInv, CheckedInv, StoredInv, CallsInv;
    LocksChangeByTheirKey(s, step, s', d);
    if step.LockDrawn? {
      DrawnIsPending(s, step, s');
    }
  }

  lemma DrawnIsPending(s: State, step: Step, s': State)
    requires Next(s, step, s') && step.LockDrawn?
    ensures step.thread in s.pending
  {
  }

  lemma {:induction false} KnownForever(states: seq<State>, steps: seq<Step>, n: nat, m: nat)
    requires IsRun(states, steps) && n <= m < |states|
    ensures states[n].known <= states[m].known
    decreases m
  {
    hide Next, CallsInv;
    if n < m {
      KnownForever(states, steps, n, m - 1);
      RunKeepsInv(states, steps, m - 1);
      CallsKept(states[m - 1], steps[m - 1], states[m]);
    }
  }

  /** A lock that is carried by the context stored under some identifier is, while it is held, still
      carried by it, unless in between that context was displaced. */
  lemma {:induction false} HeldLocksStayCarried(states: seq<State>, steps: seq<Step>, n: nat, m: nat, d: int, id: int)
    requires IsRun(states, steps) && n <= m < |states| && Carried(states[n], d, id)
    requires d in states[m].locks && states[m].locks[d] == states[n].locks[d]
    ensures Carried(states[m], d, id)
         || exists i :: n <= i < m && Displaces(states[i], steps[i], id, states[n].locks[d].key)
    decreases m
  {
    hide Next, Displaces;
    if n < m {
      RunKeepsInv(states, steps, n);
      RunKeepsInv(states, steps, m - 1);
      KnownForever(states, steps, n, m - 1);
      StoredIsKnown(states[n], id);
      hide Inv;
      NoNewLock(states[m - 1], steps[m - 1], states[m], d, states[n].contexts[id]);
      HeldLocksStayCarried(states, steps, n, m - 1, d, id);
      if Carried(states[m - 1], d, id) {
        CarriedUnlessDisplaced(states[m - 1], steps[m - 1], states[m], d, id);
      }
    }
  }

  lemma StoredIsKnown(s: State, id: int)
    requires Inv(s) && id in s.contexts
    ensures s.contexts[id] in s.known
  {
  }

  lemma OneDaemon(locks: Locks, ctx: Context, d: int)
    requires ctx.key.Some? && ctx.user.Some? && d !in locks
    ensures LocksAfter(locks, ctx, [d]) == locks[d := ConfigLock(ctx.key.value, ctx.user.value)]
    ensures ContextAfter(locks, ctx, [d]) == ctx.(daemons := Some([d]))
  {
    assert !Refused(locks, ctx.user, [d], 0);
    assert FirstRefused(locks, ctx.user, [d], 0) == 1;
  }

  /** The context with which a call comes back that has locked one daemon under the next key. */
  function LockedContext(s: State, ctx: Context, d: int): Context {
    ctx.(key := Some(s.key + 1), daemons := Some([d]))
  }

  /** What becomes of the manager when a daemon is locked and the context is remembered. */
  function LockedAndStored(s: State, ctx: Context, d: int): State
    requires ctx.id.Some? && ctx.user.Some?
  {
    s.(key := s.key + 1,
       calls := s.calls[s.key + 1 := Call(ctx.user, [d])],
       locks := s.locks[d := ConfigLock(s.key + 1, ctx.user.value)],
       known := s.known + {LockedContext(s, ctx, d)},
       contexts := s.contexts[ctx.id.value := LockedContext(s, ctx, d)])
  }

  lemma StillRemembered(contexts: map<int, Context>, ctx: Context, changed: Context)
    requires MayRemember(contexts, ctx) && changed.id == ctx.id && changed.user == ctx.user
    ensures MayRemember(contexts, changed) && ctx.id.Some? && ctx.user.Some?
  {
  }

  lemma LockAndStore(s: State, ctx: Context, d: int) returns (s1: State, s2: State, s3: State)
    requires ctx in s.known && MayRemember(s.contexts, ctx) && d !in s.locks && s.pending == map[] && s.checked == map[]
    ensures var locked := LockedContext(s, ctx, d);
      && Next(s, DrawKey(0, ctx, [d]), s1) && Next(s1, LockDrawn(0), s2)
      && Next(s2, CheckContext(0, locked), s3) && Next(s3, StoreContext(0), LockedAndStored(s, ctx, d))
  {
    var drawn, locked := ctx.(key := Some(s.key + 1)), LockedContext(s, ctx, d);
    OneDaemon(s.locks, drawn, d);
    StillRemembered(s.contexts, ctx, locked);
    hide LocksAfter, ContextAfter, MayRemember;
    var lock := ConfigLock(s.key + 1, ctx.user.value);
    s1 := s.(key := s.key + 1, pending := map[0 := Pending(drawn, [d])], calls := s.calls[s.key + 1 := Call(ctx.user, [d])]);
    s2 := s1.(locks := s.locks[d := lock], pending := map[], known := s.known + {locked});
    s3 := s2.(checked := map[0 := locked]);
    assert s1.pending - {0} == map[] && s3.checked - {0} == map[];
  }

  lemma OneMore(states: seq<State>, steps: seq<Step>, step: Step, s': State)
    requires IsRun(states, steps) && Next(states[|steps|], step, s')
    ensures IsRun(states + [s'], steps + [step])
  {
    hide Next, Init;
  }

  /** Locking and remembering continues a run that ends with nothing under way. */
  lemma LockFurther(states: seq<State>, steps: seq<Step>, ctx: Context, d: int)
    returns (states': seq<State>, steps': seq<Step>)
    requires IsRun(states, steps)
    requires var s := states[|steps|];
      ctx in s.known && MayRemember(s.contexts, ctx) && d !in s.locks && s.pending == map[] && s.checked == map[]
    ensures IsRun(states', steps') && states <= states'
    ensures |steps'| == |steps| + 4 && states'[|steps'|] == LockedAndStored(states[|steps|], ctx, d)
  {
    var s := states[|steps|];
    var locked, stored := LockedContext(s, ctx, d), LockedAndStored(s, ctx, d);
    var s1, s2, s3 := LockAndStore(s, ctx, d);
    hide Next, LockedContext, LockedAndStored;
    OneMore(states, steps, DrawKey(0, ctx, [d]), s1);
    OneMore(states + [s1], steps + [DrawKey(0, ctx, [d])], LockDrawn(0), s2);
    OneMore(states + [s1] + [s2], steps + [DrawKey(0, ctx, [d])] + [LockDrawn(0)], CheckContext(0, locked), s3);
    steps' := steps + [DrawKey(0, ctx, [d])] + [LockDrawn(0)] + [CheckContext(0, locked)];
    OneMore(states + [s1] + [s2] + [s3], steps', StoreContext(0), stored);
    states', steps' := states + [s1] + [s2] + [s3] + [stored], steps' + [StoreContext(0)];
  }

  /** A user who locks two daemons one after another in the same context is left with a lock that no
      stored context carries: the second context replaces the first one. */
  lemma SecondLockOrphansFirst(user: int) returns (states: seq<State>, steps: seq<Step>)
    ensures IsRun(states, steps) && |states| == 10
    ensures Carried(states[5], 5, 1)
    ensures 5 in states[9].locks && states[9].locks[5] == states[5].locks[5]
    ensures forall id :: !Carried(states[9], 5, id)
  {
    var empty := State(map[], map[], 0, map[], map[], {}, map[]);
    var ctx := Context(Some(1), Some(user), None, None);
    var start := empty.(known := {ctx});
    var locked := LockedAndStored(start, ctx, 5);
    assert IsRun([empty, start], [CreateContext(1, user)]);
    hide IsRun;
    var before, beforeSteps := LockFurther([empty, start], [CreateContext(1, user)], ctx, 5);
    assert before[5] == locked;
    states, steps := LockFurther(before, beforeSteps, LockedContext(start, ctx, 5), 6);
    RunLength(states, steps);
    assert states[5] == before[5];
  }

  lemma RunLength(states: seq<State>, steps: seq<Step>)
    requires IsRun(states, steps)
    ensures |states| == |steps| + 1
  {
  }

  // Contexts of other users

  /** In one step the user stored under an identifier changes if and only if a context of another
      user is stored that passed its check before. */
  lemma UserChangesByStoring(s: State, step: Step, s': State, id: int)
    requires Inv(s) && Next(s, step, s') && id in s.contexts
    ensures (id in s'.contexts && s'.contexts[id].user != s.contexts[id].user)
       <==> && step.StoreContext? && s.checked[step.thread].id == Some(id)
            && s.checked[step.thread].user != s.contexts[id].user
  {
    hide LocksAfter, ReleasedBy, ContextAfter, MayRemember, Inv;
  }

  /** A checked context passed its check at an earlier step, when no context of another user was
      stored under its identifier, and waits to be stored since then. */
  ghost predicate WasChecked(states: seq<State>, steps: seq<Step>, c: nat, n: nat, thread: int)
    requires c < n < |states| && |states| == |steps| + 1 && thread in states[n].checked
  {
    var ctx := states[n].checked[thread];
    && steps[c] == CheckContext(thread, ctx) && ctx.id.Some? && ctx.user.Some?
    && (ctx.id.value in states[c].contexts ==> states[c].contexts[ctx.id.value].user == ctx.user)
    && forall i :: c < i <= n ==> thread in states[i].checked && states[i].checked[thread] == ctx
  }

  lemma CheckedBefore(s: State, step: Step, s': State, thread: int)
    requires Next(s, step, s') && thread in s'.checked
    ensures || (thread in s.checked && s.checked[thread] == s'.checked[thread])
            || (step == CheckContext(thread, s'.checked[thread]) && MayRemember(s.contexts, s'.checked[thread]))
  {
    hide LocksAfter, ReleasedBy, ContextAfter, MayRemember;
  }

  lemma {:induction false} CheckOf(states: seq<State>, steps: seq<Step>, n: nat, thread: int) returns (c: nat)
    requires IsRun(states, steps) && n < |states| && thread in states[n].checked
    ensures c < n && WasChecked(states, steps, c, n, thread)
  {
    hide Next;
    if n == 0 {
      assert false;
    }
    CheckedBefore(states[n - 1], steps[n - 1], states[n], thread);
    if thread in states[n - 1].checked && states[n - 1].checked[thread] == states[n].checked[thread] {
      c := CheckOf(states, steps, n - 1, thread);
    } else {
      c := n - 1;
    }
  }

  /** In every run, the context of one user is replaced by that of another only by a context that
      passed its check while nothing of another user was stored under the identifier, and was stored
      only now: checking and storing are two steps. */
  lemma UserChangesOnlyInBetween(states: seq<State>, steps: seq<Step>, n: nat, id: int) returns (c: nat)
    requires IsRun(states, steps) && n < |steps| && id in states[n].contexts && id in states[n + 1].contexts
    requires states[n + 1].contexts[id].user != states[n].contexts[id].user
    ensures steps[n].StoreContext? && steps[n].thread in states[n].checked
    ensures c < n && WasChecked(states, steps, c, n, steps[n].thread)
    ensures states[n].checked[steps[n].thread] == states[n + 1].contexts[id]
    ensures id in states[c].contexts ==> states[c].contexts[id].user == states[n + 1].contexts[id].user
  {
    RunKeepsInv(states, steps, n);
    UserChangesByStoring(states[n], steps[n], states[n + 1], id);
    StoredFromChecked(states[n], steps[n], states[n + 1]);
    hide Next, Inv;
    c := CheckOf(states, steps, n, steps[n].thread);
  }

  lemma StoredFromChecked(s: State, step: Step, s': State)
    requires Next(s, step, s')
    ensures step.StoreContext? ==>
      && step.thread in s.checked && s.checked[step.thread].id.Some?
      && s'.contexts == s.contexts[s.checked[step.thread].id.value := s.checked[step.thread]]
  {
    hide LocksAfter, ReleasedBy, ContextAfter, MayRemember;
  }

  lemma CreateAndCheck(s: State, thread: int, id: int, user: int) returns (s1: State, s2: State)
    requires id !in s.contexts && thread !in s.checked
    ensures Next(s, CreateContext(id, user), s1)
    ensures Next(s1, CheckContext(thread, Context(Some(id), Some(user), None, None)), s2)
    ensures s2.contexts == s.contexts
    ensures s2.checked == s.checked[thread := Context(Some(id), Some(user), None, None)]
  {
    hide LocksAfter, ReleasedBy, ContextAfter;
    var ctx := Context(Some(id), Some(user), None, None);
    s1 := s.(known := s.known + {ctx});
    s2 := s1.(checked := s.checked[thread := ctx]);
  }

  lemma StoreChecked(s: State, thread: int) returns (s': State)
    requires thread in s.checked && s.checked[thread].id.Some?
    ensures Next(s, StoreContext(thread), s')
    ensures s'.contexts == s.contexts[s.checked[thread].id.value := s.checked[thread]]
    ensures s'.checked == s.checked - {thread}
  {
    hide LocksAfter, ReleasedBy, ContextAfter;
    s' := s.(contexts := s.contexts[s.checked[thread].id.value := s.checked[thread]], checked := s.checked - {thread});
  }

  /** Two users who were given the same identifier, and check before either stores, end with the
      context of the second in place of that of the first. */
  lemma SecondUserReplacesFirst(id: int, first: int, second: int) returns (states: seq<State>, steps: seq<Step>)
    requires first != second
    ensures IsRun(states, steps) && |states| == 7
    ensures id in states[5].contexts && states[5].contexts[id].user == Some(first)
    ensures id in states[6].contexts && states[6].contexts[id].user == Some(second)
  {
    var empty := State(map[], map[], 0, map[], map[], {}, map[]);
    assert Init(empty);
    var s1, s2 := CreateAndCheck(empty, 1, id, first);
    var s3, s4 := CreateAndCheck(s2, 2, id, second);
    var s5 := StoreChecked(s4, 1);
    var s6 := StoreChecked(s5, 2);
    hide Next, Init;
    states := [empty, s1, s2, s3, s4, s5, s6];
    steps := [CreateContext(id, first), CheckContext(1, Context(Some(id), Some(first), None, None)),
              CreateContext(id, second), CheckContext(2, Context(Some(id), Some(second), None, None)),
              StoreContext(1), StoreContext(2)];
  }
}
