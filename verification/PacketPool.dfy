// The packet pool under any number of threads and any interleaving. Each action is one atomic
// step: a semaphore call of the kernel, a pool call under lwIP's protection, or a thread's access
// to a packet it owns.
module PacketPool {

  type Tid = nat
  type Slot = nat
  type byte = b: int | 0 <= b < 256

  function PoolSize(): nat { 25 }

  // Where a thread stands: outside the pool functions, asleep on the semaphore, between chSemWait
  // and the pool allocation, in the endless loop after a failed allocation, or between the pool
  // release and chSemSignal.
  datatype Pc = Outside | Asleep | Granted | Spinning | Releasing

  datatype State = State(
    cnt: int,                     // semaphore counter, negative when threads sleep
    queue: seq<Tid>,              // threads asleep on the semaphore
    free: seq<Slot>,              // the pool's free list
    held: seq<(Tid, Slot)>,       // who holds which packet
    data: map<Slot, seq<byte>>,   // used bytes of each packet
    pc: map<Tid, Pc>,
    maxSize: nat)                 // config::max_packet_size

  datatype Action =
    | Wait(t: Tid)                         // chSemWait; sleepers queue first-in first-out
    | Allocate(t: Tid)                     // LWIP_MEMPOOL_ALLOC and the reset of used_data
    | Release(t: Tid, k: nat)              // LWIP_MEMPOOL_FREE of the k-th held packet
    | Signal(t: Tid)                       // chSemSignal
    | Append(t: Tid, k: nat, bytes: seq<byte>)  // packetAppendData
    | Fill(t: Tid, k: nat, bytes: seq<byte>)    // recvfrom into the packet
    | Give(t: Tid, k: nat, receiver: Tid)  // hand a packet to another thread

  // The first n slots, in order and as a set.
  function Slots(n: nat): (q: seq<Slot>)
    ensures |q| == n && forall i :: 0 <= i < n ==> q[i] == i
  {
    seq(n, i => i)
  }

  lemma SlotsHold(n: nat)
    ensures forall x: Slot :: x in Slots(n) <==> x < n
  {
    forall x: Slot | x < n ensures x in Slots(n) {
      assert Slots(n)[x] == x;
    }
  }

  function Below(n: nat): (r: set<Slot>)
    ensures forall x: Slot :: x in r <==> x < n
  {
    SlotsHold(n);
    set x | x in Slots(n)
  }

  lemma {:induction false} BelowSize(n: nat)
    ensures |Below(n)| == n
    decreases n
  {
    if n > 0 {
      BelowSize(n - 1);
      assert Below(n) == Below(n - 1) + {n - 1};
    } else {
      assert Below(0) == {};
    }
  }

  function Init(threads: set<Tid>, maxSize: nat): State {
    State(PoolSize(), [], Slots(PoolSize()), [],
          map x | x in Below(PoolSize()) :: [], map t | t in threads :: Outside, maxSize)
  }

  predicate Owns(s: State, t: Tid, k: nat) {
    k < |s.held| && s.held[k].0 == t
  }

  predicate Enabled(s: State, a: Action) {
    a.t in s.pc &&
    match a
    case Wait(t) => s.pc[t] == Outside
    case Allocate(t) => s.pc[t] == Granted
    case Release(t, k) => s.pc[t] == Outside && Owns(s, t, k)
    case Signal(t) => s.pc[t] == Releasing && (s.cnt + 1 <= 0 ==> s.queue != [] && s.queue[0] in s.pc)
    case Append(t, k, bytes) => s.pc[t] == Outside && Owns(s, t, k) && s.held[k].1 in s.data
    case Fill(t, k, bytes) => s.pc[t] == Outside && Owns(s, t, k) && |bytes| <= s.maxSize
    case Give(t, k, receiver) => s.pc[t] == Outside && Owns(s, t, k) && receiver in s.pc
  }

  function Do(s: State, a: Action): State
    requires Enabled(s, a)
  {
    match a
    case Wait(t) =>
      if s.cnt - 1 < 0 then
        s.(cnt := s.cnt - 1, queue := s.queue + [t], pc := s.pc[t := Asleep])
      else
        s.(cnt := s.cnt - 1, pc := s.pc[t := Granted])
    case Allocate(t) =>
      if s.free == [] then s.(pc := s.pc[t := Spinning])
      else
        s.(free := s.free[1..], held := s.held + [(t, s.free[0])], data := s.data[s.free[0] := []],
           pc := s.pc[t := Outside])
    case Release(t, k) =>
      s.(free := [s.held[k].1] + s.free, held := s.held[..k] + s.held[k + 1..], pc := s.pc[t := Releasing])
    case Signal(t) =>
      if s.cnt + 1 <= 0 then
        s.(cnt := s.cnt + 1, queue := s.queue[1..], pc := s.pc[t := Outside][s.queue[0] := Granted])
      else
        s.(cnt := s.cnt + 1, pc := s.pc[t := Outside])
    case Append(t, k, bytes) =>
      var slot := s.held[k].1;
      if |bytes| + |s.data[slot]| > s.maxSize then s else s.(data := s.data[slot := s.data[slot] + bytes])
    case Fill(t, k, bytes) =>
      s.(data := s.data[s.held[k].1 := bytes])
    case Give(t, k, receiver) =>
      s.(held := s.held[k := (receiver, s.held[k].1)])
  }

  // ---- Counting ----

  function At(pc: map<Tid, Pc>, p: Pc): set<Tid> {
    set t | t in pc && pc[t] == p
  }

  function SlotsOf(held: seq<(Tid, Slot)>): (r: seq<Slot>)
    ensures |r| == |held|
  {
    seq(|held|, i requires 0 <= i < |held| => held[i].1)
  }

  ghost function AllSlots(): multiset<Slot> {
    multiset(Below(PoolSize()))
  }

  // Semaphore and sleep queue agree.
  ghost predicate QueueInv(s: State) {
    && |s.queue| == (if s.cnt < 0 then -s.cnt else 0)
    && Distinct(s.queue)
    && (forall t :: t in s.queue <==> t in s.pc && s.pc[t] == Asleep)
  }

  // Every free packet is counted by the semaphore, promised to a sleeper's waker, promised to a
  // thread past the semaphore, or about to be signalled.
  ghost predicate CountInv(s: State) {
    |s.free| == s.cnt + |s.queue| + |At(s.pc, Granted)| + |At(s.pc, Releasing)|
  }

  // Free and held packets are the pool's 25, each exactly once.
  ghost predicate SlotInv(s: State) {
    && multiset(s.free) + multiset(SlotsOf(s.held)) == AllSlots()
    && s.data.Keys == Below(PoolSize())
    && (forall x :: x in s.data ==> |s.data[x]| <= s.maxSize)
  }

  ghost predicate Inv(s: State) {
    QueueInv(s) && CountInv(s) && SlotInv(s) && At(s.pc, Spinning) == {}
  }

  lemma AtUpdate(pc: map<Tid, Pc>, t: Tid, p: Pc, q: Pc)
    requires t in pc
    ensures |At(pc[t := q], p)| == |At(pc, p)| - (if pc[t] == p then 1 else 0) + (if q == p then 1 else 0)
  {
    var before, after := At(pc, p), At(pc[t := q], p);
    assert after == if q == p then before + {t} else before - {t};
  }

  lemma InitInv(threads: set<Tid>, maxSize: nat)
    ensures Inv(Init(threads, maxSize))
  {
    hide Below;
    var s := Init(threads, maxSize);
    assert At(s.pc, Granted) == {} && At(s.pc, Releasing) == {};
    FirstSlots(PoolSize());
    assert SlotsOf(s.held) == [];
  }

  lemma {:induction false} FirstSlots(n: nat)
    ensures multiset(Slots(n)) == multiset(Below(n))
    decreases n
  {
    if n > 0 {
      FirstSlots(n - 1);
      assert Slots(n) == Slots(n - 1) + [n - 1];
      assert Below(n) == Below(n - 1) + {n - 1};
    } else {
      assert Slots(0) == [] && Below(0) == {};
    }
  }

  // ---- Every action keeps the invariant ----

  lemma CountStep(s: State, a: Action)
    requires Inv(s) && Enabled(s, a)
    ensures CountInv(Do(s, a)) && At(Do(s, a).pc, Spinning) == {}
  {
    hide Below;
    hide SlotInv;
    var s' := Do(s, a);
    match a
    case Wait(t) =>
      var q := if s.cnt - 1 < 0 then Asleep else Granted;
      AtUpdate(s.pc, t, Granted, q);
      AtUpdate(s.pc, t, Releasing, q);
      AtUpdate(s.pc, t, Spinning, q);
    case Allocate(t) =>
      GrantedHasPacket(s, t);
      AtUpdate(s.pc, t, Granted, Outside);
      AtUpdate(s.pc, t, Releasing, Outside);
      AtUpdate(s.pc, t, Spinning, Outside);
    case Release(t, k) =>
      AtUpdate(s.pc, t, Granted, Releasing);
      AtUpdate(s.pc, t, Releasing, Releasing);
      AtUpdate(s.pc, t, Spinning, Releasing);
    case Signal(t) =>
      AtUpdate(s.pc, t, Granted, Outside);
      AtUpdate(s.pc, t, Releasing, Outside);
      AtUpdate(s.pc, t, Spinning, Outside);
      if s.cnt + 1 <= 0 {
        var pc, u := s.pc[t := Outside], s.queue[0];
        assert s.pc[u] == Asleep by { assert u in s.queue; }
        AtUpdate(pc, u, Granted, Granted);
        AtUpdate(pc, u, Releasing, Granted);
        AtUpdate(pc, u, Spinning, Granted);
      }
    case _ =>
  }

  // A thread past the semaphore finds the pool non-empty.
  lemma GrantedHasPacket(s: State, t: Tid)
    requires Inv(s) && t in s.pc && s.pc[t] == Granted
    ensures s.free != []
  {
    hide Below;
    assert t in At(s.pc, Granted);
  }

  predicate Distinct<T(==)>(q: seq<T>) {
    forall i, j :: 0 <= i < j < |q| ==> q[i] != q[j]
  }

  lemma AppendDistinct(q: seq<Tid>, t: Tid)
    requires Distinct(q) && t !in q
    ensures Distinct(q + [t])
    ensures forall u :: u in q + [t] <==> u in q || u == t
  {
  }

  lemma QueueStep(s: State, a: Action)
    requires Inv(s) && Enabled(s, a)
    ensures QueueInv(Do(s, a))
  {
    hide SlotInv, CountInv, At, SlotsOf, Distinct, Below;
    if a.Wait? && s.cnt - 1 < 0 {
      AppendDistinct(s.queue, a.t);
    } else if a.Signal? && s.cnt + 1 <= 0 {
      TailDistinct(s.queue);
      assert s.pc[s.queue[0]] == Asleep by { assert s.queue[0] in s.queue; }
    }
  }

  lemma TailDistinct(q: seq<Tid>)
    requires Distinct(q) && q != []
    ensures Distinct(q[1..])
    ensures forall u :: u in q[1..] <==> u in q && u != q[0]
  {
    assert q == [q[0]] + q[1..];
  }

  // Moving an element from one sequence to another keeps their joint contents.
  lemma MoveOut<T>(q: seq<T>, k: nat)
    requires k < |q|
    ensures multiset(q[..k] + q[k + 1..]) + multiset{q[k]} == multiset(q)
  {
    assert q == q[..k] + [q[k]] + q[k + 1..];
  }

  lemma SlotStep(s: State, a: Action)
    requires Inv(s) && Enabled(s, a)
    ensures SlotInv(Do(s, a))
  {
    hide QueueInv, CountInv, At, Below, AllSlots;
    match a
    case Allocate(t) =>
      if s.free != [] { AllocateSlots(s, t); }
    case Release(t, k) =>
      ReleaseSlots(s, t, k);
    case Give(t, k, receiver) =>
      assert SlotsOf(Do(s, a).held) == SlotsOf(s.held);
    case Fill(t, k, bytes) =>
      HeldInPool(s, k);
    case _ =>
  }

  lemma ReleaseSlots(s: State, t: Tid, k: nat)
    requires SlotInv(s) && Enabled(s, Release(t, k))
    ensures SlotInv(Do(s, Release(t, k)))
  {
    hide Below, AllSlots;
    var s', slots := Do(s, Release(t, k)), SlotsOf(s.held);
    MoveOut(slots, k);
    assert SlotsOf(s'.held) == slots[..k] + slots[k + 1..];
    assert multiset(s'.free) == multiset(s.free) + multiset{slots[k]};
  }

  lemma HeldInPool(s: State, k: nat)
    requires SlotInv(s) && k < |s.held|
    ensures s.held[k].1 in s.data
  {
    hide Below;
    var slots := SlotsOf(s.held);
    assert slots[k] in multiset(slots);
    assert slots[k] in AllSlots();
  }

  lemma AllocateSlots(s: State, t: Tid)
    requires SlotInv(s) && Enabled(s, Allocate(t)) && s.free != []
    ensures SlotInv(Do(s, Allocate(t)))
  {
    hide Below;
    var s' := Do(s, Allocate(t));
    assert s.free == [s.free[0]] + s.free[1..];
    assert SlotsOf(s'.held) == SlotsOf(s.held) + [s.free[0]];
    assert s.free[0] in AllSlots() by { assert s.free[0] in multiset(s.free); }
  }

  lemma StepInv(s: State, a: Action)
    requires Inv(s) && Enabled(s, a)
    ensures Inv(Do(s, a))
  {
    hide Below;
    CountStep(s, a);
    QueueStep(s, a);
    SlotStep(s, a);
  }

  // ---- Whole runs ----

  predicate Runs(s: State, actions: seq<Action>)
    decreases |actions|
  {
    actions == [] || (Enabled(s, actions[0]) && Runs(Do(s, actions[0]), actions[1..]))
  }

  function After(s: State, actions: seq<Action>): State
    requires Runs(s, actions)
    decreases |actions|
  {
    if actions == [] then s else After(Do(s, actions[0]), actions[1..])
  }

  lemma {:induction false} RunInv(s: State, actions: seq<Action>)
    requires Inv(s) && Runs(s, actions)
    ensures Inv(After(s, actions)) && After(s, actions).maxSize == s.maxSize
    decreases |actions|
  {
    if actions != [] {
      StepInv(s, actions[0]);
      RunInv(Do(s, actions[0]), actions[1..]);
    }
  }

  function Signals(actions: seq<Action>): nat
    decreases |actions|
  {
    if actions == [] then 0 else (if actions[0].Signal? then 1 else 0) + Signals(actions[1..])
  }

  // What a step does to a sleeper's place in the queue: a signal moves it up or, at the head, wakes
  // it; nothing else moves it.
  lemma PlaceStep(s: State, a: Action, i: nat)
    requires Inv(s) && Enabled(s, a) && i < |s.queue|
    ensures var s' := Do(s, a);
      if a.Signal? then
        if i == 0 then s.queue[0] in s'.pc && s'.pc[s.queue[0]] == Granted
        else i - 1 < |s'.queue| && s'.queue[i - 1] == s.queue[i]
      else i < |s'.queue| && s'.queue[i] == s.queue[i]
  {
    hide CountInv, SlotInv, At, Distinct;
  }

  lemma {:induction false} EndsInSignal(actions: seq<Action>)
    requires actions != [] && actions[|actions| - 1].Signal?
    ensures Signals(actions) > 0
    decreases |actions|
  {
    if !actions[0].Signal? {
      EndsInSignal(actions[1..]);
    }
  }

  // Sleepers are woken in turn: one with i others before it moves up with every signal, is overtaken
  // by nobody, and is woken by signal number i + 1.
  lemma {:induction false} WokenInTurn(s: State, actions: seq<Action>, i: nat)
    requires Inv(s) && Runs(s, actions) && i < |s.queue|
    ensures var t, s', n := s.queue[i], After(s, actions), Signals(actions);
      && (n <= i ==> i - n < |s'.queue| && s'.queue[i - n] == t)
      && (n == i + 1 && actions[|actions| - 1].Signal? ==> t in s'.pc && s'.pc[t] == Granted)
    decreases |actions|
  {
    if actions != [] {
      var a, rest := actions[0], actions[1..];
      FirstAction(s, actions);
      StepInv(s, a);
      PlaceStep(s, a, i);
      hide Inv, Do, Enabled, After, Runs, Signals;
      if a.Signal? && i == 0 {
        if rest != [] && rest[|rest| - 1].Signal? {
          EndsInSignal(rest);
        }
      } else {
        WokenInTurn(Do(s, a), rest, if a.Signal? then i - 1 else i);
      }
    }
  }

  lemma FirstAction(s: State, actions: seq<Action>)
    requires Runs(s, actions) && actions != []
    ensures Enabled(s, actions[0]) && Runs(Do(s, actions[0]), actions[1..])
    ensures After(s, actions) == After(Do(s, actions[0]), actions[1..])
    ensures |actions| == 1 ==> After(s, actions) == Do(s, actions[0])
    ensures Signals(actions) == Signals(actions[1..]) + if actions[0].Signal? then 1 else 0
  {
    hide Do, Enabled;
  }

  // Whatever the threads do and however they interleave: free and held packets always number 25,
  // no packet is free twice, held twice, or free and held at once, the semaphore never
  // over-promises, no packet outgrows its buffer, and no thread ever runs into the endless loop.
  lemma PoolSafe(threads: set<Tid>, maxSize: nat, actions: seq<Action>)
    requires Runs(Init(threads, maxSize), actions)
    ensures var s := After(Init(threads, maxSize), actions);
      && |s.free| + |s.held| == 25
      && (forall i, j :: 0 <= i < j < |s.free| ==> s.free[i] != s.free[j])
      && (forall i, j :: 0 <= i < j < |s.held| ==> s.held[i].1 != s.held[j].1)
      && (forall i, j :: 0 <= i < |s.free| && 0 <= j < |s.held| ==> s.free[i] != s.held[j].1)
      && |s.free| == s.cnt + |s.queue| + |At(s.pc, Granted)| + |At(s.pc, Releasing)|
      && (forall t :: t in s.pc ==> s.pc[t] != Spinning)
      && (forall t :: t in s.pc && s.pc[t] == Granted ==> s.free != [])
      && (forall x :: x in s.data ==> |s.data[x]| <= maxSize)
  {
    hide Below;
    var s := After(Init(threads, maxSize), actions);
    InitInv(threads, maxSize);
    RunInv(Init(threads, maxSize), actions);
    SlotsDistinct(s);
    forall t | t in s.pc ensures s.pc[t] != Spinning {
      assert t !in At(s.pc, Spinning);
    }
    forall t | t in s.pc && s.pc[t] == Granted ensures s.free != [] {
      GrantedHasPacket(s, t);
    }
  }

  lemma SlotsDistinct(s: State)
    requires SlotInv(s)
    ensures |s.free| + |s.held| == PoolSize()
    ensures forall i, j :: 0 <= i < j < |s.free| ==> s.free[i] != s.free[j]
    ensures forall i, j :: 0 <= i < j < |s.held| ==> s.held[i].1 != s.held[j].1
    ensures forall i, j :: 0 <= i < |s.free| && 0 <= j < |s.held| ==> s.free[i] != s.held[j].1
  {
    hide Below;
    var f, h := s.free, SlotsOf(s.held);
    BelowSize(PoolSize());
    SetDistinct(f + h, Below(PoolSize()));
    forall i, j | 0 <= i < |s.free| && 0 <= j < |s.held| ensures s.free[i] != s.held[j].1 {
      assert (f + h)[i] == f[i] && (f + h)[|f| + j] == h[j];
    }
    forall i, j | 0 <= i < j < |s.held| ensures s.held[i].1 != s.held[j].1 {
      assert (f + h)[|f| + i] == h[i] && (f + h)[|f| + j] == h[j];
    }
    forall i, j | 0 <= i < j < |s.free| ensures s.free[i] != s.free[j] {
      assert (f + h)[i] == f[i] && (f + h)[j] == f[j];
    }
  }

  // A sequence whose multiset is a set has no repetition.
  lemma SetDistinct(q: seq<Slot>, all: set<Slot>)
    requires multiset(q) == multiset(all)
    ensures Distinct(q) && |q| == |all|
  {
    assert |q| == |multiset(q)|;
    forall i, j | 0 <= i < j < |q| ensures q[i] != q[j] {
      MoveOut(q, i);
      var rest := q[..i] + q[i + 1..];
      assert rest[j - 1] == q[j];
      assert multiset(rest)[q[j]] > 0;
      assert multiset(q)[q[i]] == 1;
    }
  }

  // A thread sleeps on the semaphore only when the pool is exhausted: every packet still on the
  // free list is already promised, and with no thread between two steps all 25 are held.
  lemma SleepOnlyWhenExhausted(threads: set<Tid>, maxSize: nat, actions: seq<Action>, t: Tid)
    requires Runs(Init(threads, maxSize), actions)
    requires var s := After(Init(threads, maxSize), actions); t in s.pc && s.pc[t] == Asleep
    ensures var s := After(Init(threads, maxSize), actions);
      && |s.held| + |At(s.pc, Granted)| + |At(s.pc, Releasing)| == 25
      && s.cnt < 0 && t in s.queue
  {
    hide Below;
    var s := After(Init(threads, maxSize), actions);
    PoolSafe(threads, maxSize, actions);
    InitInv(threads, maxSize);
    RunInv(Init(threads, maxSize), actions);
    assert t in s.queue;
  }

  // A thread outside can always begin an operation, and sleeps exactly if the semaphore is not
  // positive. None is ever stuck between the two halves of an operation: past the semaphore it gets
  // the first free packet, empty, and about to signal it wakes the first sleeper.
  lemma HalvesComplete(threads: set<Tid>, maxSize: nat, actions: seq<Action>, t: Tid)
    requires Runs(Init(threads, maxSize), actions)
    requires t in After(Init(threads, maxSize), actions).pc
    ensures var s := After(Init(threads, maxSize), actions);
      && (s.pc[t] == Outside ==>
          && Enabled(s, Wait(t)) && (forall k :: Owns(s, t, k) ==> Enabled(s, Release(t, k)))
          && (Do(s, Wait(t)).pc[t] == if s.cnt > 0 then Granted else Asleep))
      && (s.pc[t] == Granted ==>
          && Enabled(s, Allocate(t)) && s.free != []
          && var s' := Do(s, Allocate(t));
             && s'.held == s.held + [(t, s.free[0])] && s'.free == s.free[1..] && s'.pc[t] == Outside
             && s.free[0] in s'.data && s'.data[s.free[0]] == [])
      && (s.pc[t] == Releasing ==> Enabled(s, Signal(t)))
      && (s.pc[t] == Releasing && s.queue != [] ==>
          var s' := Do(s, Signal(t)); s.queue[0] in s'.pc && s'.pc[s.queue[0]] == Granted)
  {
    hide Below;
    var s := After(Init(threads, maxSize), actions);
    InitInv(threads, maxSize);
    RunInv(Init(threads, maxSize), actions);
    if s.queue != [] {
      assert s.queue[0] in s.queue;
    }
    if s.pc[t] == Granted {
      GrantedHasPacket(s, t);
    }
  }

  // Packets are private: an action of another thread leaves the contents of a held packet and its
  // holder alone.
  lemma HeldPacketsArePrivate(threads: set<Tid>, maxSize: nat, actions: seq<Action>, a: Action, i: nat)
    requires Runs(Init(threads, maxSize), actions)
    requires var s := After(Init(threads, maxSize), actions);
      Enabled(s, a) && i < |s.held| && s.held[i].0 != a.t
    ensures var s := After(Init(threads, maxSize), actions);
      && s.held[i] in Do(s, a).held
      && s.held[i].1 in s.data && Do(s, a).data[s.held[i].1] == s.data[s.held[i].1]
  {
    hide Below;
    var s := After(Init(threads, maxSize), actions);
    PoolSafe(threads, maxSize, actions);
    InitInv(threads, maxSize);
    RunInv(Init(threads, maxSize), actions);
    var s' := Do(s, a);
    HeldInPool(s, i);
    match a
    case Release(t, k) =>
      assert s.held[i] in s.held[..k] + s.held[k + 1..] by {
        assert if i < k then s.held[..k][i] == s.held[i] else s.held[k + 1..][i - k - 1] == s.held[i];
      }
    case Give(t, k, receiver) =>
      assert s'.held[i] == s.held[i];
    case Allocate(t) =>
      if s.free != [] {
        assert s'.held[i] == s.held[i];
      }
    case _ =>
  }

  // ---- What a held packet holds ----

  // One step of a held packet, unless it is released: an append that fits adds its bytes at the end
  // and one that does not fit changes nothing, a fill replaces the contents, a gift changes the
  // holder, and nothing else changes either.
  lemma HeldStep(s: State, a: Action, i: nat)
    requires Inv(s) && Enabled(s, a) && i < |s.held|
    requires !(a.Release? && a.k == i)
    ensures var x, s' := s.held[i].1, Do(s, a);
      && x in s.data && x in s'.data
      && (if a.Give? && a.k == i then a.receiver else s.held[i].0, x) in s'.held
      && s'.data[x] ==
         if a.Append? && a.k == i && |s.data[x]| + |a.bytes| <= s.maxSize then s.data[x] + a.bytes
         else if a.Fill? && a.k == i then a.bytes
         else s.data[x]
  {
    hide QueueInv, CountInv, At, Below;
    SlotsDistinct(s);
    HeldInPool(s, i);
    var s' := Do(s, a);
    match a
    case Release(t, k) =>
      assert if i < k then s'.held[i] == s.held[i] else s'.held[i - 1] == s.held[i];
    case Give(t, k, receiver) =>
      assert s'.held[i] == (if k == i then (receiver, s.held[i].1) else s.held[i]);
    case Allocate(t) =>
      if s.free != [] { assert s'.held[i] == s.held[i]; }
    case _ =>
      assert s'.held[i] == s.held[i];
  }

  // A released packet is held by nobody and is the next one to be allocated.
  lemma ReleaseStep(s: State, t: Tid, k: nat)
    requires Inv(s) && Enabled(s, Release(t, k))
    ensures var x, s' := s.held[k].1, Do(s, Release(t, k));
      && s'.free == [x] + s.free && s'.pc[t] == Releasing
      && (forall u, y :: (u, y) in s'.held <==> y != x && (u, y) in s.held)
  {
    hide QueueInv, CountInv, At, Below;
    SlotsDistinct(s);
    hide SlotInv;
    RemovedOthersKept(s.held, k);
  }

  lemma RemovedOthersKept(held: seq<(Tid, Slot)>, k: nat)
    requires k < |held|
    requires forall i, j :: 0 <= i < j < |held| ==> held[i].1 != held[j].1
    ensures forall u, y :: (u, y) in held[..k] + held[k + 1..] <==> y != held[k].1 && (u, y) in held
  {
    var rest := held[..k] + held[k + 1..];
    forall u, y | y != held[k].1 && (u, y) in held ensures (u, y) in rest {
      var j :| 0 <= j < |held| && held[j] == (u, y);
      assert if j < k then rest[j] == held[j] else rest[j - 1] == held[j];
    }
    forall u, y | (u, y) in rest ensures (u, y) in held && y != held[k].1 {
      var j :| 0 <= j < |rest| && rest[j] == (u, y);
      assert rest[j] == held[if j < k then j else j + 1];
    }
  }

  // The action is about packet x.
  predicate On(s: State, a: Action, x: Slot) {
    match a
    case Release(_, k) => k < |s.held| && s.held[k].1 == x
    case Append(_, k, _) => k < |s.held| && s.held[k].1 == x
    case Fill(_, k, _) => k < |s.held| && s.held[k].1 == x
    case Give(_, k, _) => k < |s.held| && s.held[k].1 == x
    case _ => false
  }

  // No step of the run releases packet x.
  predicate NeverReleased(s: State, actions: seq<Action>, x: Slot)
    requires Runs(s, actions)
    decreases |actions|
  {
    actions == [] ||
    (!(actions[0].Release? && On(s, actions[0], x)) && NeverReleased(Do(s, actions[0]), actions[1..], x))
  }

  // The action's part in packet x: an append that fits adds its bytes behind what is there, a fill
  // starts afresh.
  function Written(s: State, a: Action, x: Slot, bytes: seq<byte>): seq<byte> {
    if !On(s, a, x) then bytes
    else if a.Append? && |bytes| + |a.bytes| <= s.maxSize then bytes + a.bytes
    else if a.Fill? then a.bytes
    else bytes
  }

  function GivenTo(s: State, a: Action, x: Slot, t: Tid): Tid {
    if a.Give? && On(s, a, x) then a.receiver else t
  }

  // What a run writes into packet x, and who has it last, from the actions on it alone.
  function WrittenBy(s: State, actions: seq<Action>, x: Slot, bytes: seq<byte>): seq<byte>
    requires Runs(s, actions)
    decreases |actions|
  {
    if actions == [] then bytes
    else WrittenBy(Do(s, actions[0]), actions[1..], x, Written(s, actions[0], x, bytes))
  }

  function HolderAfter(s: State, actions: seq<Action>, x: Slot, t: Tid): Tid
    requires Runs(s, actions)
    decreases |actions|
  {
    if actions == [] then t else HolderAfter(Do(s, actions[0]), actions[1..], x, GivenTo(s, actions[0], x, t))
  }

  // As long as a held packet is not released, whatever all the threads do with it and with the
  // others: the last thread it was given to holds it, and it holds exactly what was written to it.
  lemma {:induction false} HeldRun(s: State, actions: seq<Action>, t: Tid, x: Slot)
    requires Inv(s) && Runs(s, actions)
    requires (t, x) in s.held && NeverReleased(s, actions, x)
    ensures x in s.data && x in After(s, actions).data
    ensures (HolderAfter(s, actions, x, t), x) in After(s, actions).held
    ensures After(s, actions).data[x] == WrittenBy(s, actions, x, s.data[x])
    decreases |actions|
  {
    HeldHasData(s, t, x);
    if actions != [] {
      var a := actions[0];
      HeldPacketMoves(s, a, t, x);
      StepInv(s, a);
      hide Inv, Do, Enabled, On, Written, GivenTo;
      HeldRun(Do(s, a), actions[1..], GivenTo(s, a, x, t), x);
    }
  }

  lemma HeldHasData(s: State, t: Tid, x: Slot)
    requires Inv(s) && (t, x) in s.held
    ensures x in s.data
  {
    hide QueueInv, CountInv, At, Below;
    var i :| 0 <= i < |s.held| && s.held[i] == (t, x);
    HeldInPool(s, i);
  }

  // HeldStep by packet instead of by index.
  lemma HeldPacketMoves(s: State, a: Action, t: Tid, x: Slot)
    requires Inv(s) && Enabled(s, a) && (t, x) in s.held
    requires !(a.Release? && On(s, a, x))
    ensures x in s.data && x in Do(s, a).data
    ensures (GivenTo(s, a, x, t), x) in Do(s, a).held
    ensures Do(s, a).data[x] == Written(s, a, x, s.data[x])
  {
    var i :| 0 <= i < |s.held| && s.held[i] == (t, x);
    OnIffIndex(s, a, i);
    HeldStep(s, a, i);
    hide On, Inv, Enabled, Do;
  }

  lemma OnIffIndex(s: State, a: Action, i: nat)
    requires Inv(s) && Enabled(s, a) && i < |s.held|
    ensures On(s, a, s.held[i].1) <==> (a.Release? || a.Append? || a.Fill? || a.Give?) && a.k == i
  {
    hide QueueInv, CountInv, At, Below;
    SlotsDistinct(s);
  }

  // Over every run: a packet that a thread allocated and nobody released since holds exactly what
  // was appended to it since, or since it was last filled, and is held by the last thread it was
  // given to; nothing is left of what it held before.
  lemma AllocatedHoldsWritten(threads: set<Tid>, maxSize: nat, before: seq<Action>, t: Tid, rest: seq<Action>)
    requires Runs(Init(threads, maxSize), before)
    requires var s := After(Init(threads, maxSize), before);
      && Enabled(s, Allocate(t)) && s.free != [] && Runs(Do(s, Allocate(t)), rest)
      && NeverReleased(Do(s, Allocate(t)), rest, s.free[0])
    ensures var s := After(Init(threads, maxSize), before);
      var x, s1 := s.free[0], Do(s, Allocate(t));
      var s' := After(s1, rest);
      && x in s'.data && s'.data[x] == WrittenBy(s1, rest, x, [])
      && (HolderAfter(s1, rest, x, t), x) in s'.held
  {
    hide Below;
    InitInv(threads, maxSize);
    RunInv(Init(threads, maxSize), before);
    var s := After(Init(threads, maxSize), before);
    StepInv(s, Allocate(t));
    assert Do(s, Allocate(t)).held[|s.held|] == (t, s.free[0]);
    HeldRun(Do(s, Allocate(t)), rest, t, s.free[0]);
  }
}
