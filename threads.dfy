/** The thread wrapper of the framework (Thread.cpp, Thread.hpp) as a
    single-threaded state machine: the counting semaphore, the re-entrant
    monitor's counters, a thread's keyed user data with its deinit calls,
    the reference count that defers `exited()`, and the registry of started
    threads with its main thread. Each method is one step of one thread; a
    step that would block answers so and changes nothing. */
module Threads {

  /** `Priority_Min`, `Priority_Normal`, `Priority_Max`. */
  const PriorityMin: int := -15
  const PriorityNormal: int := 0
  const PriorityMax: int := 15

  type U32 = x: int | 0 <= x < 0x1_0000_0000

  // ---------------------------------------------------------------------
  // Semaphore (the Qt build: a QSemaphore)

  /** What `acquire` comes to when no other thread releases meanwhile:
      a permit, a timeout, or a wait that never ends. */
  datatype AcquireResult = Acquired | TimedOut | Blocked

  class Semaphore {
    var count: int

    ghost predicate Valid()
      reads this
    {
      count >= 0
    }

    /** `Semaphore(initCount = 1, maxCount = 1)`: `maxCount` permits, of
        which `maxCount - initCount` are taken back when `initCount` is
        smaller. */
    constructor(initCount: int := 1, maxCount: int := 1)
      requires 0 <= initCount && 0 <= maxCount
      ensures Valid()
      ensures count == if initCount < maxCount then initCount else maxCount
    {
      count := maxCount;
      new;
      if initCount < maxCount {
        count := count - (maxCount - initCount);
      }
    }

    /** `acquire(millis = -1)`: `tryAcquire(1, millis)`; a negative
        `millis` waits without a time limit. */
    method Acquire(millis: int := -1) returns (r: AcquireResult)
      requires Valid()
      modifies this
      ensures Valid()
      ensures old(count) > 0 ==> r == Acquired && count == old(count) - 1
      ensures old(count) == 0 ==> count == 0 && r == (if millis >= 0 then TimedOut else Blocked)
    {
      if count > 0 {
        count := count - 1;
        return Acquired;
      }
      if millis >= 0 {
        return TimedOut;
      }
      return Blocked;
    }

    /** `release`: one more permit; the Qt semaphore has no upper bound. */
    method Release()
      requires Valid()
      modifies this
      ensures Valid() && count == old(count) + 1
    {
      count := count + 1;
    }
  }

  // ---------------------------------------------------------------------
  // Monitor

  /** The monitor's counters: the permits of its three semaphores, the
      owning thread, its enter count, the number of waiters, and the number
      of waiters a notify has let through that have not yet taken the
      monitor back. */
  datatype MonitorState = MonitorState(ownerSem: int, waitSem: int, notifySem: int, owner: U32,
                                       enterCount: int, waitCount: int, woken: int)

  /** The state the monitor is in between steps: the owner semaphore has
      its permit exactly when nobody holds the monitor, and the handshake
      semaphores are empty. */
  predicate MonitorValid(s: MonitorState) {
    s.ownerSem == (if s.enterCount == 0 then 1 else 0) &&
    s.waitSem == 0 && s.notifySem == 0 &&
    s.enterCount >= 0 && s.waitCount >= 0 && s.woken >= 0
  }

  /** The `FW_ASSERT` of `leave`, `wait`, `notify` and `notifyAll`. */
  predicate Owns(s: MonitorState, cur: U32) {
    s.owner == cur && s.enterCount > 0
  }

  /** `enter` completes at once when re-entering, else when the owner
      semaphore has a permit. */
  predicate CanEnter(s: MonitorState, cur: U32) {
    Owns(s, cur) || s.ownerSem > 0
  }

  /** `enter` by thread `cur`. */
  function EnterStep(s: MonitorState, cur: U32): (t: MonitorState)
    requires CanEnter(s, cur)
    ensures MonitorValid(s) ==> MonitorValid(t)
    ensures t.owner == cur && t.enterCount == s.enterCount + 1
    ensures t.ownerSem == (if Owns(s, cur) then s.ownerSem else s.ownerSem - 1)
    ensures t.waitCount == s.waitCount && t.woken == s.woken
  {
    var u := if Owns(s, cur) then s else s.(ownerSem := s.ownerSem - 1);
    u.(owner := cur, enterCount := u.enterCount + 1)
  }

  /** `leave` by the owner. */
  function LeaveStep(s: MonitorState, cur: U32): (t: MonitorState)
    requires Owns(s, cur)
    ensures MonitorValid(s) ==> MonitorValid(t)
    ensures t.enterCount == s.enterCount - 1 && t.owner == s.owner
    ensures t.ownerSem == (if s.enterCount == 1 then s.ownerSem + 1 else s.ownerSem)
    ensures t.waitCount == s.waitCount && t.woken == s.woken
  {
    var u := s.(enterCount := s.enterCount - 1);
    if u.enterCount == 0 then u.(ownerSem := u.ownerSem + 1) else u
  }

  /** The first half of `wait`, up to the thread blocking on the wait
      semaphore: it counts itself in and gives up the monitor. */
  function WaitBeginStep(s: MonitorState, cur: U32): (t: MonitorState)
    requires Owns(s, cur)
    ensures MonitorValid(s) ==> MonitorValid(t)
    ensures t.waitCount == s.waitCount + 1 && t.enterCount == 0 && t.ownerSem == s.ownerSem + 1
  {
    s.(waitCount := s.waitCount + 1, enterCount := 0, ownerSem := s.ownerSem + 1)
  }

  /** `notify` by the owner, with the woken waiter's part of the handshake
      (take the wait permit, count itself out, acknowledge) in between. */
  function NotifyStep(s: MonitorState, cur: U32): (t: MonitorState)
    requires Owns(s, cur)
    ensures MonitorValid(s) ==> MonitorValid(t)
    ensures s.waitCount == 0 ==> t == s
    ensures s.waitCount != 0 ==> t == s.(waitCount := s.waitCount - 1, woken := s.woken + 1)
  {
    if s.waitCount == 0 then s
    else s.(waitCount := s.waitCount - 1, woken := s.woken + 1)
  }

  /** `notifyAll`: one notify per waiter until none is left. */
  function NotifyAllStep(s: MonitorState, cur: U32): (t: MonitorState)
    requires Owns(s, cur) && s.waitCount >= 0
    decreases s.waitCount
  {
    if s.waitCount == 0 then s else NotifyAllStep(NotifyStep(s, cur), cur)
  }

  /** `notifyAll` lets every waiter through and changes nothing else. */
  lemma {:induction false} NotifyAllWakesAll(s: MonitorState, cur: U32)
    requires Owns(s, cur) && s.waitCount >= 0
    ensures NotifyAllStep(s, cur) == s.(waitCount := 0, woken := s.woken + s.waitCount)
    ensures MonitorValid(s) ==> MonitorValid(NotifyAllStep(s, cur))
    decreases s.waitCount
  {
    if s.waitCount != 0 {
      NotifyAllWakesAll(NotifyStep(s, cur), cur);
    }
  }

  /** The second half of `wait` completes when the thread has been let
      through and the monitor is free. */
  predicate CanResume(s: MonitorState) {
    s.woken > 0 && s.ownerSem > 0
  }

  /** The second half of `wait`: take the monitor back and restore the
      owner and enter count saved by the first half. */
  function WaitEndStep(s: MonitorState, savedOwner: U32, savedCount: int): (t: MonitorState)
    requires CanResume(s) && savedCount > 0
    ensures MonitorValid(s) ==> MonitorValid(t)
    ensures Owns(t, savedOwner) && t.enterCount == savedCount && t.waitCount == s.waitCount
    ensures t.woken == s.woken - 1 && t.ownerSem == s.ownerSem - 1
  {
    s.(ownerSem := s.ownerSem - 1, woken := s.woken - 1, owner := savedOwner, enterCount := savedCount)
  }

  /** `k` more enters by thread `cur`. */
  function Enters(s: MonitorState, cur: U32, k: nat): MonitorState
    requires CanEnter(s, cur) && s.enterCount >= 0
    decreases k
  {
    if k == 0 then s else Enters(EnterStep(s, cur), cur, k - 1)
  }

  /** `k` leaves by the owner. */
  function Leaves(s: MonitorState, cur: U32, k: nat): MonitorState
    requires s.owner == cur && k <= s.enterCount
    decreases k
  {
    if k == 0 then s else Leaves(LeaveStep(s, cur), cur, k - 1)
  }

  /** Every enter after the first is a re-entry: the count goes up by one
      per enter and the owner semaphore is taken only once. */
  lemma {:induction false} EntersCount(s: MonitorState, cur: U32, k: nat)
    requires CanEnter(s, cur) && s.enterCount >= 0 && k >= 1
    ensures Owns(Enters(s, cur, k), cur) && Enters(s, cur, k).enterCount == s.enterCount + k
    ensures Enters(s, cur, k).ownerSem == (if Owns(s, cur) then s.ownerSem else s.ownerSem - 1)
    ensures Enters(s, cur, k).waitCount == s.waitCount && Enters(s, cur, k).woken == s.woken
    ensures MonitorValid(s) ==> MonitorValid(Enters(s, cur, k))
    decreases k
  {
    if k > 1 {
      EntersCount(EnterStep(s, cur), cur, k - 1);
    }
  }

  /** Leaving fewer times than entered keeps the monitor held; leaving as
      many times releases it. */
  lemma {:induction false} LeavesRelease(s: MonitorState, cur: U32, k: nat)
    requires MonitorValid(s) && Owns(s, cur) && k <= s.enterCount
    ensures MonitorValid(Leaves(s, cur, k))
    ensures Leaves(s, cur, k).enterCount == s.enterCount - k && Leaves(s, cur, k).owner == cur
    ensures Leaves(s, cur, k).ownerSem == (if k == s.enterCount then 1 else 0)
    decreases k
  {
    if k > 0 && k < s.enterCount {
      LeavesRelease(LeaveStep(s, cur), cur, k - 1);
    } else if k > 0 {
      var t := LeaveStep(s, cur);
      if k > 1 {
        LeavesRelease(t, cur, k - 1);
      }
    }
  }

  /** `n` enters on a free monitor need exactly `n` leaves before the
      owner semaphore gets its permit back. */
  lemma EnterLeaveBalance(s: MonitorState, cur: U32, n: nat, k: nat)
    requires MonitorValid(s) && s.enterCount == 0 && n >= 1 && k <= n
    ensures Leaves.requires(Enters(s, cur, n), cur, k)
    ensures Leaves(Enters(s, cur, n), cur, k).ownerSem == (if k == n then 1 else 0)
  {
    EntersCount(s, cur, n);
    LeavesRelease(Enters(s, cur, n), cur, k);
  }

  /** A wait, another thread's enter, notify and leave, then the end of the
      wait: the waiter holds the monitor again with its enter count, and
      the waiter count is back where it was. */
  lemma WaitRoundTrip(s: MonitorState, cur: U32, other: U32)
    requires MonitorValid(s) && Owns(s, cur) && s.woken == 0
    ensures var s1 := WaitBeginStep(s, cur);
            CanEnter(s1, other) &&
            var s2 := EnterStep(s1, other);
            var s3 := NotifyStep(s2, other);
            Owns(s3, other) && s3.enterCount == 1 &&
            var s4 := LeaveStep(s3, other);
            CanResume(s4) &&
            var s5 := WaitEndStep(s4, cur, s.enterCount);
            s5 == s
  {
  }

  class Monitor {
    const ownerSem: Semaphore
    const waitSem: Semaphore
    const notifySem: Semaphore
    var ownerThread: U32
    var enterCount: int
    var waitCount: int
    /** Waiters a notify has let through that have not yet taken the
        monitor back (they wait on the owner semaphore). */
    ghost var woken: int

    ghost function State(): MonitorState
      reads this, ownerSem, waitSem, notifySem
    {
      MonitorState(ownerSem.count, waitSem.count, notifySem.count, ownerThread, enterCount, waitCount, woken)
    }

    ghost predicate Valid()
      reads this, ownerSem, waitSem, notifySem
    {
      ownerSem != waitSem && ownerSem != notifySem && waitSem != notifySem &&
      MonitorValid(State())
    }

    /** `ownerSem(1, 1)`, `waitSem(0, 1)`, `notifySem(0, 1)` and all
        counters 0. */
    constructor()
      ensures Valid() && State() == MonitorState(1, 0, 0, 0, 0, 0, 0)
    {
      ownerSem := new Semaphore(1, 1);
      waitSem := new Semaphore(0, 1);
      notifySem := new Semaphore(0, 1);
      ownerThread := 0;
      enterCount := 0;
      waitCount := 0;
      woken := 0;
    }

    /** `enter` by thread `cur`; `false` when it blocks on the owner
        semaphore, with nothing changed. */
    method Enter(cur: U32) returns (entered: bool)
      requires Valid()
      modifies this, ownerSem
      ensures Valid()
      ensures entered == CanEnter(old(State()), cur)
      ensures State() == if entered then EnterStep(old(State()), cur) else old(State())
    {
      if ownerThread != cur || enterCount == 0 {
        var r := ownerSem.Acquire();
        if r != Acquired {
          return false;
        }
      }
      ownerThread := cur;
      enterCount := enterCount + 1;
      entered := true;
    }

    /** `leave` by the owner. */
    method Leave(cur: U32)
      requires Valid() && Owns(State(), cur)
      modifies this, ownerSem
      ensures Valid() && State() == LeaveStep(old(State()), cur)
    {
      enterCount := enterCount - 1;
      if enterCount == 0 {
        ownerSem.Release();
      }
    }

    /** The first half of `wait`: save the owner and enter count, count in
        as a waiter and give the monitor up. */
    method WaitBegin(cur: U32) returns (savedOwner: U32, savedCount: int)
      requires Valid() && Owns(State(), cur)
      modifies this, ownerSem
      ensures Valid() && State() == WaitBeginStep(old(State()), cur)
      ensures savedOwner == cur && savedCount == old(enterCount) && savedCount > 0
    {
      savedOwner := ownerThread;
      savedCount := enterCount;
      waitCount := waitCount + 1;
      enterCount := 0;
      ownerSem.Release();
    }

    /** The second half of `wait`, once a notify has let the thread
        through; `false` while the monitor is held by another thread. */
    method WaitEnd(savedOwner: U32, savedCount: int) returns (resumed: bool)
      requires Valid() && woken > 0 && savedCount > 0
      modifies this, ownerSem
      ensures Valid()
      ensures resumed == CanResume(old(State()))
      ensures State() == if resumed then WaitEndStep(old(State()), savedOwner, savedCount) else old(State())
    {
      var r := ownerSem.Acquire();
      if r != Acquired {
        return false;
      }
      woken := woken - 1;
      ownerThread := savedOwner;
      enterCount := savedCount;
      resumed := true;
    }

    /** `notify` by the owner. */
    method Notify(cur: U32)
      requires Valid() && Owns(State(), cur)
      modifies this, waitSem, notifySem
      ensures Valid() && State() == NotifyStep(old(State()), cur)
    {
      if waitCount != 0 {
        waitSem.Release();
        // The waiter gets through, counts itself out and acknowledges.
        var got := waitSem.Acquire();
        waitCount := waitCount - 1;
        woken := woken + 1;
        notifySem.Release();
        // The notifier takes the acknowledgement.
        var ack := notifySem.Acquire();
      }
    }

    /** `notifyAll` by the owner. */
    method NotifyAll(cur: U32)
      requires Valid() && Owns(State(), cur)
      modifies this, waitSem, notifySem
      ensures Valid() && State() == NotifyAllStep(old(State()), cur)
    {
      NotifyAllWakesAll(State(), cur);
      while waitCount != 0
        invariant Valid() && Owns(State(), cur)
        invariant State() == old(State()).(waitCount := waitCount, woken := old(woken) + old(waitCount) - waitCount)
        decreases waitCount
      {
        waitSem.Release();
        var got := waitSem.Acquire();
        waitCount := waitCount - 1;
        woken := woken + 1;
        notifySem.Release();
        var ack := notifySem.Acquire();
      }
    }
  }

  // ---------------------------------------------------------------------
  // User data

  /** A pointer or function pointer; 0 is NULL. */
  type Ptr = nat

  /** A slot of `m_userData`: the data and the function that deinits it. */
  datatype UserData = UserData(data: Ptr, deinitFunc: Ptr)

  /** The slots after `setUserData(id, data, deinitFunc)`: the new pair
      when either is non-null, no slot otherwise. */
  function SetSlot(slots: map<string, UserData>, id: string, data: Ptr, deinitFunc: Ptr): (r: map<string, UserData>)
    ensures id in r <==> data != 0 || deinitFunc != 0
    ensures id in r ==> r[id] == UserData(data, deinitFunc)
    ensures forall k :: k != id ==> (k in r <==> k in slots)
    ensures forall k :: k in r && k != id ==> r[k] == slots[k]
  {
    if data != 0 || deinitFunc != 0 then slots[id := UserData(data, deinitFunc)] else slots - {id}
  }

  /** What `getUserData(id)` answers: the slot's data, NULL without one. */
  function Lookup(slots: map<string, UserData>, id: string): Ptr {
    if id in slots then slots[id].data else 0
  }

  /** The deinit call `setUserData` makes after replacing a slot: the old
      function with the old data, when there was one. */
  function ReplacedDeinit(slots: map<string, UserData>, id: string): (calls: seq<UserData>)
    ensures |calls| <= 1
    ensures |calls| == 1 <==> id in slots && slots[id].deinitFunc != 0
    ensures |calls| == 1 ==> calls[0] == slots[id]
  {
    if id in slots && slots[id].deinitFunc != 0 then [slots[id]] else []
  }

  /** Setting then getting gives the data back, and no other id changes. */
  lemma GetAfterSet(slots: map<string, UserData>, id: string, data: Ptr, deinitFunc: Ptr, other: string)
    ensures Lookup(SetSlot(slots, id, data, deinitFunc), id) == data
    ensures other != id ==> Lookup(SetSlot(slots, id, data, deinitFunc), other) == Lookup(slots, other)
  {
  }

  /** Setting NULL data with no function removes the slot; setting the
      same id twice keeps only the second. */
  lemma SetSlotTwice(slots: map<string, UserData>, id: string, d1: Ptr, f1: Ptr, d2: Ptr, f2: Ptr)
    ensures id !in SetSlot(slots, id, 0, 0)
    ensures SetSlot(SetSlot(slots, id, d1, f1), id, d2, f2) == SetSlot(slots, id, d2, f2)
  {
    var a := SetSlot(SetSlot(slots, id, d1, f1), id, d2, f2);
    var b := SetSlot(slots, id, d2, f2);
    assert forall k :: k in a <==> k in b;
    assert forall k :: k in a ==> a[k] == b[k];
  }

  /** The deinit calls of the destructor, in the order `order` visits the
      slots: each slot's function with its data, slots without one
      skipped. */
  function DeinitCalls(slots: map<string, UserData>, order: seq<string>): seq<UserData>
    requires forall i :: 0 <= i < |order| ==> order[i] in slots
  {
    if order == [] then []
    else
      var last := slots[order[|order| - 1]];
      DeinitCalls(slots, order[..|order| - 1]) + (if last.deinitFunc != 0 then [last] else [])
  }

  /** `order` visits every slot once. */
  predicate EnumeratesSlots(slots: map<string, UserData>, order: seq<string>) {
    (forall i :: 0 <= i < |order| ==> order[i] in slots) &&
    (forall k :: k in slots ==> k in order) &&
    (forall i, j :: 0 <= i < j < |order| ==> order[i] != order[j])
  }

  /** Every call the destructor makes is a slot's non-null function with
      its data, and every slot with a function is called. */
  lemma {:induction false} DeinitCallsComplete(slots: map<string, UserData>, order: seq<string>)
    requires forall i :: 0 <= i < |order| ==> order[i] in slots
    ensures forall c :: c in DeinitCalls(slots, order) ==> c.deinitFunc != 0 && exists k :: k in order && slots[k] == c
    ensures forall k :: k in order && slots[k].deinitFunc != 0 ==> slots[k] in DeinitCalls(slots, order)
    decreases |order|
  {
    if order != [] {
      var init := order[..|order| - 1];
      DeinitCallsComplete(slots, init);
      forall k | k in order && slots[k].deinitFunc != 0
        ensures slots[k] in DeinitCalls(slots, order)
      {
        if k != order[|order| - 1] {
          var i :| 0 <= i < |order| && order[i] == k;
          assert init[i] == k;
        }
      }
      forall c | c in DeinitCalls(slots, order)
        ensures c.deinitFunc != 0 && exists k :: k in order && slots[k] == c
      {
        if c in DeinitCalls(slots, init) {
          var k :| k in init && slots[k] == c;
          var i :| 0 <= i < |init| && init[i] == k;
          assert order[i] == k;
        } else {
          assert c == slots[order[|order| - 1]];
        }
      }
    }
  }

  /** Enumerating every slot once, the destructor calls exactly as many
      deinit functions as there are slots with one. */
  lemma {:induction false} DeinitCallsCount(slots: map<string, UserData>, order: seq<string>)
    requires forall i :: 0 <= i < |order| ==> order[i] in slots
    ensures |DeinitCalls(slots, order)| <= |order|
    ensures (forall i :: 0 <= i < |order| ==> slots[order[i]].deinitFunc == 0) ==> DeinitCalls(slots, order) == []
    decreases |order|
  {
    if order != [] {
      DeinitCallsCount(slots, order[..|order| - 1]);
    }
  }

  // ---------------------------------------------------------------------
  // Registry of started threads

  /** `s_threads` and `s_mainThread`. */
  datatype RegistryState = RegistryState(threads: map<U32, Thread>, main: Thread?)

  /** The registry after `started()` of thread `t` with id `id`. */
  function StartedStep(r: RegistryState, t: Thread, id: U32): (r': RegistryState)
    ensures id in r'.threads && r'.main != null
    ensures r'.main == if r.main == null then t else r.main
    ensures id in r.threads ==> r'.threads == r.threads
    ensures id !in r.threads ==> r'.threads[id] == t && r'.threads.Keys == r.threads.Keys + {id}
    ensures forall k :: k in r.threads ==> k in r'.threads && r'.threads[k] == r.threads[k]
  {
    RegistryState(if id !in r.threads then r.threads[id := t] else r.threads,
                  if r.main == null then t else r.main)
  }

  /** The registry after `exited()` of thread `t` with id `id`; nothing
      happens without a handle. */
  function ExitedStep(r: RegistryState, t: Thread, id: U32, hasHandle: bool): (r': RegistryState)
    ensures !hasHandle ==> r' == r
    ensures hasHandle ==> id !in r'.threads && r'.main != t
    ensures hasHandle ==> r'.threads.Keys == r.threads.Keys - {id}
    ensures forall k :: k in r'.threads ==> k in r.threads && r'.threads[k] == r.threads[k]
    ensures r'.main != r.main ==> hasHandle && r.main == t && r'.main == null
  {
    if !hasHandle then r
    else RegistryState(r.threads - {id}, if r.main == t then null else r.main)
  }

  /** A second `started()` with an id already registered changes nothing. */
  lemma StartedIdempotent(r: RegistryState, t: Thread, t2: Thread, id: U32)
    ensures StartedStep(StartedStep(r, t, id), t2, id) == StartedStep(r, t, id)
  {
  }

  /** Starting and then exiting a thread whose id was not registered and
      which was not main gives the registry back. */
  lemma StartedThenExited(r: RegistryState, t: Thread, id: U32)
    requires id !in r.threads && (r.main == null || r.main != t)
    ensures ExitedStep(StartedStep(r, t, id), t, id, true) == r
  {
    assert r.threads[id := t] - {id} == r.threads;
  }

  /** The registry once `getCurrent()` has run on the thread `curId`:
      unchanged when that id is registered, otherwise with `current`
      started under it. */
  function Registered(r: RegistryState, current: Thread, curId: U32): RegistryState {
    if curId in r.threads then r else StartedStep(r, current, curId)
  }

  class Registry {
    var threads: map<U32, Thread>
    var main: Thread?

    ghost function State(): RegistryState
      reads this
    {
      RegistryState(threads, main)
    }

    constructor()
      ensures State() == RegistryState(map[], null)
    {
      threads := map[];
      main := null;
    }
  }

  // ---------------------------------------------------------------------
  // Thread

  class Thread {
    const registry: Registry
    var refCount: int
    var exited: bool
    var id: U32
    /** `m_handle != NULL`. */
    var hasHandle: bool
    var priority: int
    var userData: map<string, UserData>
    /** The deinit functions called so far, each with its data. */
    var deinitLog: seq<UserData>

    /** `Thread()`, with `m_exited` initialised to false. */
    constructor(registry: Registry)
      ensures this.registry == registry
      ensures refCount == 0 && !exited && id == 0 && !hasHandle && priority == PriorityNormal
      ensures userData == map[] && deinitLog == []
    {
      this.registry := registry;
      refCount := 0;
      exited := false;
      id := 0;
      hasHandle := false;
      priority := PriorityNormal;
      userData := map[];
      deinitLog := [];
    }

    /** `Thread()` as its initialiser list stands: `m_exited` keeps
        whatever value the memory held, given here as `garbage`. */
    constructor AsWritten(registry: Registry, garbage: bool)
      ensures this.registry == registry
      ensures refCount == 0 && exited == garbage && id == 0 && !hasHandle && priority == PriorityNormal
      ensures userData == map[] && deinitLog == []
    {
      this.registry := registry;
      refCount := 0;
      exited := garbage;
      id := 0;
      hasHandle := false;
      priority := PriorityNormal;
      userData := map[];
      deinitLog := [];
    }

    /** `getUserData(id)`. */
    method GetUserData(key: string) returns (data: Ptr)
      ensures data == Lookup(userData, key)
    {
      var found := key in userData;
      data := if found then userData[key].data else 0;
    }

    /** `setUserData(id, data, deinitFunc = NULL)`: replace or remove the
        slot, then call the old slot's deinit function on its data. */
    method SetUserData(key: string, data: Ptr, deinitFunc: Ptr := 0)
      modifies this`userData, this`deinitLog
      ensures userData == SetSlot(old(userData), key, data, deinitFunc)
      ensures deinitLog == old(deinitLog) + ReplacedDeinit(old(userData), key)
    {
      var oldData := UserData(0, 0);
      var newData := UserData(data, deinitFunc);
      var found := key in userData;
      if found {
        oldData := userData[key];
        userData := userData[key := newData];
      }
      if found != (data != 0 || deinitFunc != 0) {
        if found {
          userData := userData - {key};
        } else {
          userData := userData[key := newData];
        }
      }
      if oldData.deinitFunc != 0 {
        deinitLog := deinitLog + [oldData];
      }
    }

    /** What `exited()` leaves behind, from the state before it. */
    twostate predicate ExitedFrom()
      reads this, registry
    {
      registry.State() == ExitedStep(old(registry.State()), this, old(id), old(hasHandle)) &&
      id == (if old(hasHandle) then 0 else old(id)) && !hasHandle
    }

    /** `exited()`: without a handle nothing; otherwise leave the registry
        (and the main slot), and reset the id and the handle. */
    method Exited()
      modifies this`id, this`hasHandle, registry
      ensures ExitedFrom()
    {
      if !hasHandle {
        return;
      }
      if registry.main == this {
        registry.main := null;
      }
      if id in registry.threads {
        registry.threads := registry.threads - {id};
      }
      id := 0;
      hasHandle := false;
    }

    /** `started()` on the thread whose id is `curId`. */
    method Started(curId: U32)
      modifies this`id, this`hasHandle, registry
      ensures id == curId && hasHandle
      ensures registry.State() == StartedStep(old(registry.State()), this, curId)
    {
      id := curId;
      hasHandle := true;
      if registry.main == null {
        registry.main := this;
      }
      if curId !in registry.threads {
        registry.threads := registry.threads[curId := this];
      }
    }

    /** `refer()`. */
    method Refer()
      modifies this`refCount
      ensures refCount == old(refCount) + 1
    {
      refCount := refCount + 1;
    }

    /** `unrefer()`: the deferred `exited()` runs when the count drops to 0
        with `m_exited` set, which it clears first. */
    method Unrefer()
      modifies this`refCount, this`exited, this`id, this`hasHandle, registry
      ensures refCount == old(refCount) - 1
      ensures old(refCount) == 1 && old(exited) ==> !exited && ExitedFrom()
      ensures !(old(refCount) == 1 && old(exited)) ==>
                exited == old(exited) && id == old(id) && hasHandle == old(hasHandle) &&
                registry.State() == old(registry.State())
    {
      refCount := refCount - 1;
      if refCount == 0 && exited {
        exited := false;
        Exited();
      }
    }

    /** `setPriority(priority)`: the Qt priority of the handle is not part
        of this model. */
    method SetPriority(p: int)
      modifies this`refCount, this`exited, this`id, this`hasHandle, this`priority, registry
      ensures priority == p && refCount == old(refCount)
      ensures old(refCount) == 0 && old(exited) ==> !exited && ExitedFrom()
      ensures !(old(refCount) == 0 && old(exited)) ==>
                exited == old(exited) && id == old(id) && hasHandle == old(hasHandle) &&
                registry.State() == old(registry.State())
    {
      Refer();
      priority := p;
      Unrefer();
    }

    /** The end of a thread: `refer()`, `m_exited = true`, `unrefer()`, as
        both `join()` and the destructor's own branch do. */
    method MarkExited()
      modifies this`refCount, this`exited, this`id, this`hasHandle, registry
      ensures refCount == old(refCount)
      ensures old(refCount) == 0 ==> !exited && ExitedFrom()
      ensures old(refCount) != 0 ==> exited && id == old(id) && hasHandle == old(hasHandle) &&
                                     registry.State() == old(registry.State())
    {
      Refer();
      exited := true;
      Unrefer();
    }

    /** `~Thread()`: the `this != getCurrent()` test first registers the
        calling thread `curId` when it is not registered yet; `current` is
        the thread it answers. Then the thread is marked exited (by `join()`
        or by the destructor's own branch, which do the same), and every
        remaining slot's deinit function is called on its data, in the
        table's slot order `order`. */
    method Destroy(curId: U32, order: seq<string>) returns (current: Thread)
      requires EnumeratesSlots(userData, order)
      modifies this`refCount, this`exited, this`id, this`hasHandle, this`deinitLog, registry
      ensures curId in old(registry.threads) ==> current == old(registry.threads)[curId]
      ensures curId !in old(registry.threads) ==>
                fresh(current) && current.id == curId && current.hasHandle && !current.exited
      ensures refCount == old(refCount) && userData == old(userData)
      ensures old(refCount) == 0 ==>
                !exited && id == (if old(hasHandle) then 0 else old(id)) && !hasHandle &&
                registry.State() == ExitedStep(Registered(old(registry.State()), current, curId),
                                               this, old(id), old(hasHandle))
      ensures old(refCount) != 0 ==>
                exited && id == old(id) && hasHandle == old(hasHandle) &&
                registry.State() == Registered(old(registry.State()), current, curId)
      ensures deinitLog == old(deinitLog) + DeinitCalls(userData, order)
    {
      current := GetCurrent(registry, curId);
      MarkExited();
      CallDeinits(order);
    }

    /** The destructor's loop over the slots: each non-null deinit function
        is called on its data, in slot order. */
    method CallDeinits(order: seq<string>)
      requires forall i :: 0 <= i < |order| ==> order[i] in userData
      modifies this`deinitLog
      ensures deinitLog == old(deinitLog) + DeinitCalls(userData, order)
    {
      var i := 0;
      while i < |order|
        modifies this`deinitLog
        invariant 0 <= i <= |order|
        invariant deinitLog == old(deinitLog) + DeinitCalls(userData, order[..i])
      {
        var data := userData[order[i]];
        assert order[..i + 1][..i] == order[..i];
        if data.deinitFunc != 0 {
          deinitLog := deinitLog + [data];
        }
        i := i + 1;
      }
      assert order[..i] == order;
    }
  }

  /** The registered thread of `curId`, or a new thread that registers
      itself (`getCurrent`), built with `m_exited` initialised to false. */
  method GetCurrent(registry: Registry, curId: U32) returns (t: Thread)
    modifies registry
    ensures curId in old(registry.threads) ==> t == old(registry.threads)[curId] && registry.State() == old(registry.State())
    ensures curId !in old(registry.threads) ==>
              fresh(t) && t.registry == registry && t.id == curId && t.hasHandle && !t.exited && t.refCount == 0 &&
              registry.State() == StartedStep(old(registry.State()), t, curId)
  {
    if curId in registry.threads {
      return registry.threads[curId];
    }
    t := new Thread(registry);
    t.Started(curId);
  }

  /** `getCurrent` as written: a new thread's `m_exited` holds whatever the
      memory held, given here as `garbage`. */
  method GetCurrentAsWritten(registry: Registry, curId: U32, garbage: bool) returns (t: Thread)
    modifies registry
    ensures curId in old(registry.threads) ==> t == old(registry.threads)[curId] && registry.State() == old(registry.State())
    ensures curId !in old(registry.threads) ==>
              fresh(t) && t.registry == registry && t.id == curId && t.hasHandle && t.exited == garbage && t.refCount == 0 &&
              registry.State() == StartedStep(old(registry.State()), t, curId)
  {
    if curId in registry.threads {
      return registry.threads[curId];
    }
    t := new Thread.AsWritten(registry, garbage);
    t.Started(curId);
  }

  /** A thread that is not registered yet calls `getCurrent`, then any
      call that refers and unrefers it, such as `setPriority`. As written,
      when `m_exited` happens to hold true, the `unrefer()` runs `exited()`
      at once. The thread is no longer registered, the registry is as it
      was before, and the thread has lost its id and handle. */
  method UninitialisedExitedDropsThread(registry: Registry, curId: U32, p: int) returns (t: Thread)
    requires curId !in registry.threads
    modifies registry
    ensures registry.State() == old(registry.State())
    ensures t.id == 0 && !t.hasHandle
  {
    t := GetCurrentAsWritten(registry, curId, true);
    t.SetPriority(p);
    StartedThenExited(old(registry.State()), t, curId);
  }

  /** The same calls with `m_exited` initialised keep the thread registered
      under its id. */
  method InitialisedExitedKeepsThread(registry: Registry, curId: U32, p: int) returns (t: Thread)
    requires curId !in registry.threads
    modifies registry
    ensures registry.threads == old(registry.threads)[curId := t]
    ensures t.id == curId && t.hasHandle && !t.exited
  {
    t := GetCurrent(registry, curId);
    t.SetPriority(p);
  }
}
