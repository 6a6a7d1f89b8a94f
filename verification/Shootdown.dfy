/** The TLB shootdown of kernel/memory/kmalloc.cpp:83-105 over the mailboxes of
    kernel/arch/x86_64/kernel/processors/processors.cpp, as a step machine: any number of
    processors and of threads that map, unmap and wake concurrently, with TLB fills and evictions
    anywhere between. A step is one page operation, one `invlpg`, or one section under a mailbox's
    spinlock. Pages are those of the virtual heap. */
module Shootdown {
  import opened Options

  /** What a mailbox asks its processor to run. */
  datatype Callback =
    | Shoot(lo: nat, hi: nat)  // invalidate these pages, then let the caller return
    | Wake                     // let the caller return, then yield (scheduler.cpp:68-72)

  datatype Mailbox = Mailbox(holder: Option<nat>, callback: Option<Callback>, callerCanReturn: bool)

  datatype Handler = Resting | Running(callback: Callback, next: nat)

  datatype Cpu = Cpu(tlb: map<nat, nat>, box: Mailbox, ipi: bool, handler: Handler)

  /** Where a thread is in `mapAddress`, `allocateMemory`, `unmapMemory` or `runOn`. */
  datatype Phase =
    | Idle
    | Mapping(lo: nat, hi: nat, next: nat)                   // pages before `next` are mapped
    | Unmapping(lo: nat, hi: nat, next: nat, cleared: bool)  // pages before `next` are unmapped
    | Shooting(lo: nat, hi: nat, cpu: nat)                   // processors before `cpu` are done
    | Waiting(lo: nat, hi: nat, cpu: nat)                    // in runOn(cpu)
    | Waking(cpu: nat)                                       // in runOn(cpu) for the scheduler

  datatype Thread = Thread(home: nat, phase: Phase)

  datatype Place = Free | Live | With(thread: nat) | Lost

  datatype State = State(entries: map<nat, nat>, place: map<nat, Place>, cpus: seq<Cpu>, threads: seq<Thread>)

  datatype Event =
    | Fill(cpu: nat, page: nat)
    | Evict(cpu: nat, page: nat)
    | Allocate(t: nat, lo: nat, hi: nat)
    | Map(t: nat, entry: nat)
    | MapDone(t: nat)
    | StartUnmap(t: nat, lo: nat, hi: nat)
    | Clear(t: nat)
    | Invlpg(t: nat)
    | StartShoot(t: nat)
    | SkipSelf(t: nat)
    | Call(t: nat)
    | CallWake(t: nat, cpu: nat)
    | Interrupt(cpu: nat)
    | Invalidate(cpu: nat)
    | LetCallerReturn(cpu: nat)
    | Return(t: nat)
    | GiveBack(t: nat, dropped: bool)

  // ---------------------------------------------------------------------
  // Steps
  // ---------------------------------------------------------------------

  predicate AllAt(s: State, lo: nat, hi: nat, w: Place) {
    lo <= hi && forall p :: lo <= p < hi ==> p in s.place && s.place[p] == w
  }

  function Moved(place: map<nat, Place>, lo: nat, hi: nat, w: Place): map<nat, Place> {
    map p | p in place :: if lo <= p < hi then w else place[p]
  }

  function InPhase(s: State, t: nat, ph: Phase): State
    requires t < |s.threads|
  {
    s.(threads := s.threads[t := s.threads[t].(phase := ph)])
  }

  function WithTlb(s: State, c: nat, tlb: map<nat, nat>): State
    requires c < |s.cpus|
  {
    s.(cpus := s.cpus[c := s.cpus[c].(tlb := tlb)])
  }

  predicate IsThread(s: State, t: nat) {
    t < |s.threads| && s.threads[t].home < |s.cpus|
  }

  predicate Enabled(s: State, e: Event) {
    match e
    case Fill(c, p) => c < |s.cpus| && p in s.entries
    case Evict(c, p) => c < |s.cpus|
    case Allocate(t, lo, hi) => IsThread(s, t) && s.threads[t].phase.Idle? && AllAt(s, lo, hi, Free)
    case Map(t, _) => IsThread(s, t) && s.threads[t].phase.Mapping? && s.threads[t].phase.next < s.threads[t].phase.hi
    case MapDone(t) => IsThread(s, t) && s.threads[t].phase.Mapping? && s.threads[t].phase.next == s.threads[t].phase.hi
    case StartUnmap(t, lo, hi) => IsThread(s, t) && s.threads[t].phase.Idle? && AllAt(s, lo, hi, Live)
    case Clear(t) =>
      && IsThread(s, t) && s.threads[t].phase.Unmapping?
      && s.threads[t].phase.next < s.threads[t].phase.hi && !s.threads[t].phase.cleared
    case Invlpg(t) => IsThread(s, t) && s.threads[t].phase.Unmapping? && s.threads[t].phase.cleared
    case StartShoot(t) =>
      IsThread(s, t) && s.threads[t].phase.Unmapping? && s.threads[t].phase.next == s.threads[t].phase.hi
    case SkipSelf(t) => IsThread(s, t) && s.threads[t].phase.Shooting? && s.threads[t].phase.cpu == s.threads[t].home
    case Call(t) =>
      && IsThread(s, t) && s.threads[t].phase.Shooting?
      && var c := s.threads[t].phase.cpu;
         c < |s.cpus| && c != s.threads[t].home && s.cpus[c].box.holder.None?
    case CallWake(t, c) =>
      IsThread(s, t) && s.threads[t].phase.Idle? && c < |s.cpus| && s.cpus[c].box.holder.None?
    case Interrupt(c) => c < |s.cpus| && s.cpus[c].ipi && s.cpus[c].handler.Resting?
    case Invalidate(c) =>
      && c < |s.cpus| && s.cpus[c].handler.Running?
      && s.cpus[c].handler.callback.Shoot? && s.cpus[c].handler.next < s.cpus[c].handler.callback.hi
    case LetCallerReturn(c) =>
      && c < |s.cpus| && s.cpus[c].handler.Running?
      && (s.cpus[c].handler.callback.Shoot? ==> s.cpus[c].handler.next == s.cpus[c].handler.callback.hi)
    case Return(t) =>
      && IsThread(s, t) && (s.threads[t].phase.Waiting? || s.threads[t].phase.Waking?)
      && s.threads[t].phase.cpu < |s.cpus| && s.cpus[s.threads[t].phase.cpu].box.callerCanReturn
    case GiveBack(t, _) =>
      IsThread(s, t) && s.threads[t].phase.Shooting? && s.threads[t].phase.cpu == |s.cpus|
  }

  /** `runOn` up to the wait: take the mailbox, fill it in, send the interrupt. */
  function Posted(s: State, c: nat, t: nat, cb: Callback): State
    requires c < |s.cpus|
  {
    s.(cpus := s.cpus[c := s.cpus[c].(box := Mailbox(Some(t), Some(cb), false), ipi := true)])
  }

  function Step(s: State, e: Event): State
    requires Enabled(s, e)
  {
    match e
    case Fill(c, p) => WithTlb(s, c, s.cpus[c].tlb[p := s.entries[p]])
    case Evict(c, p) => WithTlb(s, c, s.cpus[c].tlb - {p})
    case Allocate(t, lo, hi) => InPhase(s, t, Mapping(lo, hi, lo)).(place := Moved(s.place, lo, hi, With(t)))
    case Map(t, entry) =>
      // mapPage flushes nothing
      var ph := s.threads[t].phase;
      InPhase(s, t, Mapping(ph.lo, ph.hi, ph.next + 1)).(entries := s.entries[ph.next := entry])
    case MapDone(t) =>
      var ph := s.threads[t].phase;
      InPhase(s, t, Idle).(place := Moved(s.place, ph.lo, ph.hi, Live))
    case StartUnmap(t, lo, hi) =>
      InPhase(s, t, Unmapping(lo, hi, lo, false)).(place := Moved(s.place, lo, hi, With(t)))
    case Clear(t) =>
      var ph := s.threads[t].phase;
      InPhase(s, t, Unmapping(ph.lo, ph.hi, ph.next, true)).(entries := s.entries - {ph.next})
    case Invlpg(t) =>
      var ph := s.threads[t].phase;
      var c := s.threads[t].home;
      WithTlb(InPhase(s, t, Unmapping(ph.lo, ph.hi, ph.next + 1, false)), c, s.cpus[c].tlb - {ph.next})
    case StartShoot(t) =>
      var ph := s.threads[t].phase;
      InPhase(s, t, Shooting(ph.lo, ph.hi, 0))
    case SkipSelf(t) =>
      var ph := s.threads[t].phase;
      InPhase(s, t, Shooting(ph.lo, ph.hi, ph.cpu + 1))
    case Call(t) =>
      var ph := s.threads[t].phase;
      InPhase(Posted(s, ph.cpu, t, Shoot(ph.lo, ph.hi)), t, Waiting(ph.lo, ph.hi, ph.cpu))
    case CallWake(t, c) => InPhase(Posted(s, c, t, Wake), t, Waking(c))
    case Interrupt(c) =>
      // receiveCall: run the callback if there is one
      var cpu := s.cpus[c];
      var handler := match cpu.box.callback {
        case Some(Shoot(lo, hi)) => Running(Shoot(lo, hi), lo)
        case Some(Wake) => Running(Wake, 0)
        case None => Resting
      };
      s.(cpus := s.cpus[c := cpu.(ipi := false, handler := handler)])
    case Invalidate(c) =>
      var cpu := s.cpus[c];
      s.(cpus := s.cpus[c := cpu.(tlb := cpu.tlb - {cpu.handler.next},
                                  handler := cpu.handler.(next := cpu.handler.next + 1))])
    case LetCallerReturn(c) =>
      var cpu := s.cpus[c];
      s.(cpus := s.cpus[c := cpu.(handler := Resting, box := cpu.box.(callerCanReturn := true))])
    case Return(t) =>
      var ph := s.threads[t].phase;
      var cpu := s.cpus[ph.cpu];
      var s' := s.(cpus := s.cpus[ph.cpu := cpu.(box := Mailbox(None, None, cpu.box.callerCanReturn))]);
      InPhase(s', t, if ph.Waiting? then Shooting(ph.lo, ph.hi, ph.cpu + 1) else Idle)
    case GiveBack(t, dropped) =>
      var ph := s.threads[t].phase;
      InPhase(s, t, Idle).(place := Moved(s.place, ph.lo, ph.hi, if dropped then Lost else Free))
  }

  // ---------------------------------------------------------------------
  // The invariant
  // ---------------------------------------------------------------------

  /** Unmapped, and cached by no processor. */
  ghost predicate CleanAt(s: State, p: nat) {
    p !in s.entries && forall c :: 0 <= c < |s.cpus| ==> p !in s.cpus[c].tlb
  }

  /** Mapped, and every processor that caches the page caches the entry in the tables. */
  ghost predicate SeenRight(s: State, p: nat) {
    && p in s.entries
    && forall c :: 0 <= c < |s.cpus| && p in s.cpus[c].tlb ==> s.cpus[c].tlb[p] == s.entries[p]
  }

  predicate HasPages(ph: Phase) { ph.Mapping? || ph.Unmapping? || ph.Shooting? || ph.Waiting? }

  predicate Holds(ph: Phase, p: nat) { HasPages(ph) && ph.lo <= p < ph.hi }

  /** What a thread in this phase knows of a page it holds. */
  ghost predicate PhaseOk(s: State, th: Thread, p: nat) {
    match th.phase
    case Mapping(_, _, next) => if p < next then SeenRight(s, p) else CleanAt(s, p)
    case Unmapping(_, _, next, cleared) =>
      && (p < next ==> p !in s.entries && (th.home < |s.cpus| ==> p !in s.cpus[th.home].tlb))
      && (p == next && cleared ==> p !in s.entries)
    case Shooting(_, _, cpu) => ShotBefore(s, p, cpu, th.home)
    case Waiting(_, _, cpu) => ShotBefore(s, p, cpu, th.home)
    case _ => true
  }

  ghost predicate ShotBefore(s: State, p: nat, cpu: nat, home: nat) {
    && p !in s.entries
    && forall c :: 0 <= c < |s.cpus| && (c < cpu || c == home) ==> p !in s.cpus[c].tlb
  }

  ghost predicate PageOk(s: State, p: nat)
    requires p in s.place
  {
    match s.place[p]
    case Free => CleanAt(s, p)
    case Lost => CleanAt(s, p)
    case Live => SeenRight(s, p)
    case With(t) => t < |s.threads| && Holds(s.threads[t].phase, p) && PhaseOk(s, s.threads[t], p)
  }

  ghost predicate ThreadOk(s: State, t: nat)
    requires t < |s.threads|
  {
    var ph := s.threads[t].phase;
    && s.threads[t].home < |s.cpus|
    && (HasPages(ph) ==> ph.lo <= ph.hi && forall p :: ph.lo <= p < ph.hi ==> p in s.place && s.place[p] == With(t))
    && (ph.Mapping? ==> ph.lo <= ph.next <= ph.hi)
    && (ph.Unmapping? ==> ph.lo <= ph.next <= ph.hi && (ph.cleared ==> ph.next < ph.hi))
    && (ph.Shooting? ==> ph.cpu <= |s.cpus|)
    && (ph.Waiting? || ph.Waking? ==> ph.cpu < |s.cpus| && s.cpus[ph.cpu].box.holder == Some(t))
  }

  /** A mailbox is idle, or held by a thread that waits for exactly its callback, which is still to
      be started, running, or done. */
  ghost predicate BoxOk(s: State, c: nat)
    requires c < |s.cpus|
  {
    var cpu := s.cpus[c];
    match cpu.box.holder
    case None => cpu.box.callback == None && !cpu.ipi && cpu.handler.Resting?
    case Some(t) =>
      && t < |s.threads|
      && var ph := s.threads[t].phase;
         && (ph.Waiting? || ph.Waking?) && ph.cpu == c
         && cpu.box.callback == Some(if ph.Waiting? then Shoot(ph.lo, ph.hi) else Wake)
         && (cpu.handler.Running? ==>
               && Some(cpu.handler.callback) == cpu.box.callback && !cpu.ipi && !cpu.box.callerCanReturn
               && (ph.Waiting? ==>
                     && ph.lo <= cpu.handler.next <= ph.hi
                     && forall p :: ph.lo <= p < cpu.handler.next ==> p !in cpu.tlb))
         && (cpu.box.callerCanReturn ==> !cpu.ipi)
         && (cpu.ipi || cpu.handler.Running? || cpu.box.callerCanReturn)
         && (cpu.box.callerCanReturn && ph.Waiting? ==> forall p :: ph.lo <= p < ph.hi ==> p !in cpu.tlb)
  }

  ghost predicate Inv(s: State) {
    && (forall p :: p in s.place ==> PageOk(s, p))
    && (forall t :: 0 <= t < |s.threads| ==> ThreadOk(s, t))
    && (forall c :: 0 <= c < |s.cpus| ==> BoxOk(s, c))
  }

  lemma ThreadInv(s: State, t: nat)
    requires Inv(s) && t < |s.threads|
    ensures ThreadOk(s, t)
  {}

  lemma PageInv(s: State, p: nat)
    requires Inv(s) && p in s.place
    ensures PageOk(s, p)
  {}

  lemma BoxInv(s: State, c: nat)
    requires Inv(s) && c < |s.cpus|
    ensures BoxOk(s, c)
  {}

  /** The thread that takes the step, if a thread does. */
  function Actor(e: Event): Option<nat> {
    match e
    case Allocate(t, _, _) => Some(t)
    case Map(t, _) => Some(t)
    case MapDone(t) => Some(t)
    case StartUnmap(t, _, _) => Some(t)
    case Clear(t) => Some(t)
    case Invlpg(t) => Some(t)
    case StartShoot(t) => Some(t)
    case SkipSelf(t) => Some(t)
    case Call(t) => Some(t)
    case CallWake(t, _) => Some(t)
    case Return(t) => Some(t)
    case GiveBack(t, _) => Some(t)
    case _ => None
  }

  /** A step moves no page that another thread holds. */
  lemma OthersKeepPlaces(s: State, e: Event, t: nat, p: nat)
    requires Inv(s) && Enabled(s, e) && t < |s.threads| && Actor(e) != Some(t)
    requires p in s.place && s.place[p] == With(t)
    ensures p in Step(s, e).place && Step(s, e).place[p] == With(t)
  {
    hide Inv;
    if Actor(e).Some? {
      ThreadInv(s, Actor(e).value);
    }
  }

  lemma OtherThreadKept(s: State, e: Event, t: nat)
    requires Inv(s) && Enabled(s, e) && t < |s.threads| && Actor(e) != Some(t)
    ensures ThreadOk(Step(s, e), t)
  {
    hide Inv;
    ThreadInv(s, t);
    var s' := Step(s, e);
    var ph := s.threads[t].phase;
    assert s'.threads[t] == s.threads[t];
    if HasPages(ph) {
      forall p | ph.lo <= p < ph.hi ensures p in s'.place && s'.place[p] == With(t) {
        OthersKeepPlaces(s, e, t, p);
      }
    }
    if e.Return? {
      ThreadInv(s, e.t);
    }
  }

  lemma ActorKept(s: State, e: Event)
    requires Inv(s) && Enabled(s, e) && Actor(e).Some?
    ensures ThreadOk(Step(s, e), Actor(e).value)
  {
    hide Inv;
    ThreadInv(s, Actor(e).value);
  }

  /** The pages of a thread that shoots down are unmapped. */
  lemma ShootingUnmapped(s: State, t: nat, p: nat)
    requires Inv(s) && t < |s.threads| && (s.threads[t].phase.Waiting? || s.threads[t].phase.Shooting?)
    requires s.threads[t].phase.lo <= p < s.threads[t].phase.hi
    ensures p !in s.entries
  {
    hide Inv;
    ThreadInv(s, t);
    PageInv(s, p);
  }

  predicate Talks(e: Event) {
    e.Call? || e.CallWake? || e.Interrupt? || e.Invalidate? || e.LetCallerReturn? || e.Return?
  }

  /** Steps that use no mailbox change neither it nor its handler, and bring into a TLB at most
      what the tables hold; threads that wait do not take them. */
  lemma QuietCpu(s: State, e: Event, c: nat)
    requires Enabled(s, e) && c < |s.cpus| && !Talks(e)
    ensures var cpu, cpu' := s.cpus[c], Step(s, e).cpus[c];
            && |Step(s, e).cpus| == |s.cpus|
            && cpu'.box == cpu.box && cpu'.ipi == cpu.ipi && cpu'.handler == cpu.handler
            && forall p :: p in cpu'.tlb ==> p in cpu.tlb || p in s.entries
  {}

  lemma QuietWaiter(s: State, e: Event, t: nat)
    requires Enabled(s, e) && t < |s.threads| && !Talks(e)
    requires s.threads[t].phase.Waiting? || s.threads[t].phase.Waking?
    ensures t < |Step(s, e).threads| && Step(s, e).threads[t] == s.threads[t]
  {}

  /** A fill cannot reload what the handler invalidated, since those pages are unmapped. */
  lemma BoxKeptQuiet(s: State, e: Event, c: nat)
    requires Inv(s) && Enabled(s, e) && c < |s.cpus| && !Talks(e)
    ensures c < |Step(s, e).cpus| && BoxOk(Step(s, e), c)
  {
    hide Inv, Step, Enabled;
    QuietCpu(s, e, c);
    BoxInv(s, c);
    if s.cpus[c].box.holder.Some? {
      var t := s.cpus[c].box.holder.value;
      var ph := s.threads[t].phase;
      QuietWaiter(s, e, t);
      if ph.Waiting? {
        forall p | ph.lo <= p < ph.hi ensures p !in s.entries {
          ShootingUnmapped(s, t, p);
        }
      }
    }
  }

  lemma BoxKeptCalls(s: State, e: Event, c: nat)
    requires Inv(s) && Enabled(s, e) && c < |s.cpus| && (e.Call? || e.CallWake? || e.Return?)
    ensures BoxOk(Step(s, e), c)
  {
    hide Inv;
    BoxInv(s, c);
    ThreadInv(s, e.t);
  }

  lemma BoxKeptHandler(s: State, e: Event, c: nat)
    requires Inv(s) && Enabled(s, e) && c < |s.cpus| && (e.Interrupt? || e.Invalidate? || e.LetCallerReturn?)
    ensures BoxOk(Step(s, e), c)
  {
    hide Inv;
    BoxInv(s, c);
    if s.cpus[c].box.holder.Some? {
      ThreadInv(s, s.cpus[c].box.holder.value);
    }
  }

  // ---------------------------------------------------------------------
  // Pages
  // ---------------------------------------------------------------------

  /** Fills load what the tables hold, so they spoil no page; dropping spoils none either. */
  lemma PageKeptByTlbs(s: State, e: Event, p: nat)
    requires Inv(s) && Enabled(s, e) && p in s.place && Actor(e).None?
    ensures p in Step(s, e).place && PageOk(Step(s, e), p)
  {
    hide Inv;
    PageInv(s, p);
  }

  /** A thread's step leaves alone the pages it neither holds nor takes. */
  lemma PageKeptByOthers(s: State, e: Event, p: nat)
    requires Inv(s) && Enabled(s, e) && p in s.place && Actor(e).Some?
    requires s.place[p] != With(Actor(e).value) && Step(s, e).place[p] == s.place[p]
    ensures PageOk(Step(s, e), p)
  {
    hide Inv;
    PageInv(s, p);
    ThreadInv(s, Actor(e).value);
    if e.Map? || e.Clear? || e.Invlpg? {
      hide PageOk, ShotBefore;
      PageKeptByEdits(s, e, p);
    } else {
      hide PageOk;
      SameView(s, Step(s, e), p);
    }
  }

  lemma PageKeptByEdits(s: State, e: Event, p: nat)
    requires Enabled(s, e) && p in s.place && PageOk(s, p) && (e.Map? || e.Clear? || e.Invlpg?)
    requires e.t < |s.threads| && ThreadOk(s, e.t) && s.place[p] != With(e.t)
    ensures PageOk(Step(s, e), p)
  {
    assert p != s.threads[e.t].phase.next;
  }

  /** A page looks the same as long as tables, caches and the thread that holds it do. */
  lemma SameView(s: State, s': State, p: nat)
    requires p in s.place && p in s'.place && s'.place[p] == s.place[p] && PageOk(s, p)
    requires s'.entries == s.entries && |s'.cpus| == |s.cpus| && |s'.threads| == |s.threads|
    requires forall c :: 0 <= c < |s.cpus| ==> s'.cpus[c].tlb == s.cpus[c].tlb
    requires s.place[p].With? && s.place[p].thread < |s.threads| ==>
               s'.threads[s.place[p].thread] == s.threads[s.place[p].thread]
    ensures PageOk(s', p)
  {}

  /** Pages a thread takes, holds through the step, or lets go. */
  lemma PageKeptByHolder(s: State, e: Event, p: nat)
    requires Inv(s) && Enabled(s, e) && p in s.place && Actor(e).Some?
    requires s.place[p] == With(Actor(e).value) || Step(s, e).place[p] != s.place[p]
    ensures p in Step(s, e).place && PageOk(Step(s, e), p)
  {
    hide Inv;
    PageInv(s, p);
    ThreadInv(s, Actor(e).value);
    if e.Return? {
      BoxInv(s, s.threads[e.t].phase.cpu);
    }
  }

  /** Every step of every processor and thread keeps the invariant. */
  lemma StepKeepsInv(s: State, e: Event)
    requires Inv(s) && Enabled(s, e)
    ensures Inv(Step(s, e))
  {
    hide PageOk, ThreadOk, BoxOk;
    var s' := Step(s, e);
    assert s'.place.Keys == s.place.Keys && |s'.cpus| == |s.cpus| && |s'.threads| == |s.threads|;
    hide Step;
    forall p | p in s'.place ensures PageOk(s', p) {
      if Actor(e).None? {
        PageKeptByTlbs(s, e, p);
      } else if s.place[p] != With(Actor(e).value) && s'.place[p] == s.place[p] {
        PageKeptByOthers(s, e, p);
      } else {
        PageKeptByHolder(s, e, p);
      }
    }
    forall t | 0 <= t < |s'.threads| ensures ThreadOk(s', t) {
      if Actor(e) == Some(t) {
        ActorKept(s, e);
      } else {
        OtherThreadKept(s, e, t);
      }
    }
    forall c | 0 <= c < |s'.cpus| ensures BoxOk(s', c) {
      if !Talks(e) {
        BoxKeptQuiet(s, e, c);
      } else if Actor(e).Some? {
        BoxKeptCalls(s, e, c);
      } else {
        BoxKeptHandler(s, e, c);
      }
    }
  }

  // ---------------------------------------------------------------------
  // Whole runs
  // ---------------------------------------------------------------------

  /** At boot every page of the heap is free, no TLB caches any, and nobody calls. */
  ghost predicate Init(s: State) {
    && s.entries == map[]
    && (forall p :: p in s.place ==> s.place[p] == Free)
    && (forall c :: 0 <= c < |s.cpus| ==> s.cpus[c] == Cpu(map[], Mailbox(None, None, false), false, Resting))
    && (forall t :: 0 <= t < |s.threads| ==> s.threads[t].phase.Idle? && s.threads[t].home < |s.cpus|)
  }

  ghost predicate Reaches(s: State, es: seq<Event>, s': State)
    decreases |es|
  {
    if es == [] then s' == s else Enabled(s, es[0]) && Reaches(Step(s, es[0]), es[1..], s')
  }

  lemma {:induction false} RunKeepsInv(s: State, es: seq<Event>, s': State)
    requires Inv(s) && Reaches(s, es, s')
    ensures Inv(s')
    decreases |es|
  {
    hide Inv;
    if es != [] {
      StepKeepsInv(s, es[0]);
      RunKeepsInv(Step(s, es[0]), es[1..], s');
    }
  }

  /** After every run, in every interleaving: a free page is unmapped and cached by no processor,
      and a live page is mapped and cached nowhere with another entry. */
  lemma FreePagesAreClean(s: State, es: seq<Event>, s': State, p: nat)
    requires Init(s) && Reaches(s, es, s') && p in s'.place
    ensures s'.place[p] == Free ==> CleanAt(s', p)
    ensures s'.place[p] == Live ==> SeenRight(s', p)
  {
    assert Inv(s);
    hide Inv;
    RunKeepsInv(s, es, s');
    PageInv(s', p);
  }

  /** So `mapPage`, which flushes nothing, takes effect on every processor at once. */
  lemma MappedIsSeen(s: State, es: seq<Event>, s': State, e: Event)
    requires Init(s) && Reaches(s, es, s') && e.Map? && Enabled(s', e)
    ensures var p := s'.threads[e.t].phase.next;
            SeenRight(Step(s', e), p) && Step(s', e).entries[p] == e.entry
  {
    assert Inv(s);
    hide Inv;
    RunKeepsInv(s, es, s');
    ThreadInv(s', e.t);
    PageInv(s', s'.threads[e.t].phase.next);
  }

  /** `runOn` returns from a shootdown only when its callback has run to the end on the target
      processor: none of the range is cached there. */
  lemma ReturnMeansInvalidated(s: State, es: seq<Event>, s': State, e: Event, p: nat)
    requires Init(s) && Reaches(s, es, s') && e.Return? && Enabled(s', e)
    requires s'.threads[e.t].phase.Waiting? && Holds(s'.threads[e.t].phase, p)
    ensures p !in s'.cpus[s'.threads[e.t].phase.cpu].tlb
  {
    assert Inv(s);
    hide Inv;
    RunKeepsInv(s, es, s');
    ThreadInv(s', e.t);
    BoxInv(s', s'.threads[e.t].phase.cpu);
  }

  // ---------------------------------------------------------------------
  // A mapping runs to its end
  // ---------------------------------------------------------------------

  /** `allocateMemory` and `mapAddress` can go on from wherever they are until every page of the range is
      mapped, here all to entry `entry`, and live. */
  lemma {:induction false} MapEnds(s: State, t: nat, entry: nat) returns (es: seq<Event>, s': State)
    requires Inv(s) && t < |s.threads| && s.threads[t].phase.Mapping?
    ensures Reaches(s, es, s') && t < |s'.threads| && s'.threads[t].phase.Idle?
    ensures var ph := s.threads[t].phase;
            && s'.place == Moved(s.place, ph.lo, ph.hi, Live)
            && (forall p :: ph.next <= p < ph.hi ==> p in s'.entries && s'.entries[p] == entry)
            && forall p :: p < ph.next || ph.hi <= p ==>
                 (p in s'.entries <==> p in s.entries) && (p in s.entries ==> s'.entries[p] == s.entries[p])
    decreases if s.threads[t].phase.hi < s.threads[t].phase.next then 0
              else s.threads[t].phase.hi - s.threads[t].phase.next
  {
    hide Inv;
    ThreadInv(s, t);
    var ph := s.threads[t].phase;
    var e := if ph.next < ph.hi then Map(t, entry) else MapDone(t);
    var s1 := Step(s, e);
    if ph.next < ph.hi {
      StepKeepsInv(s, e);
      var es1;
      es1, s' := MapEnds(s1, t, entry);
      es := [e] + es1;
      assert es[1..] == es1;
    } else {
      es, s' := [e], s1;
      assert es[1..] == [] && Reaches(s1, [], s1);
    }
  }

  // ---------------------------------------------------------------------
  // An unmap runs to its end
  // ---------------------------------------------------------------------

  /** Thread `t` is in `unmapMemory`, of the pages from `lo` to `hi`. */
  predicate Unmaps(s: State, t: nat, lo: nat, hi: nat) {
    && t < |s.threads|
    && var ph := s.threads[t].phase;
       (ph.Unmapping? || ph.Shooting? || ph.Waiting?) && ph.lo == lo && ph.hi == hi
  }

  /** Nobody else is calling a processor. */
  ghost predicate QuietFor(s: State, t: nat) {
    forall c :: 0 <= c < |s.cpus| ==> s.cpus[c].box.holder == None || s.cpus[c].box.holder == Some(t)
  }

  /** What comes next in `unmapMemory` and, while it waits, on the processor it called. */
  function NextStep(s: State, t: nat): Event
    requires t < |s.threads|
  {
    match s.threads[t].phase
    case Unmapping(_, hi, next, cleared) =>
      if cleared then Invlpg(t) else if next < hi then Clear(t) else StartShoot(t)
    case Shooting(_, _, c) =>
      if c >= |s.cpus| then GiveBack(t, false) else if c == s.threads[t].home then SkipSelf(t) else Call(t)
    case Waiting(_, hi, c) =>
      if c >= |s.cpus| || s.cpus[c].box.callerCanReturn then Return(t)
      else if s.cpus[c].handler.Running? then
        if s.cpus[c].handler.next < hi then Invalidate(c) else LetCallerReturn(c)
      else Interrupt(c)
    case _ => GiveBack(t, false)
  }

  lemma NextEnabled(s: State, t: nat, lo: nat, hi: nat)
    requires Inv(s) && Unmaps(s, t, lo, hi) && QuietFor(s, t)
    ensures Enabled(s, NextStep(s, t))
  {
    hide Inv;
    ThreadInv(s, t);
    var ph := s.threads[t].phase;
    if (ph.Waiting? || ph.Shooting?) && ph.cpu < |s.cpus| {
      BoxInv(s, ph.cpu);
    }
  }

  /** The unmap goes on, or has come to its end with its pages free; nobody else is disturbed. */
  lemma NextGoesOn(s: State, t: nat, lo: nat, hi: nat)
    requires Inv(s) && Unmaps(s, t, lo, hi) && QuietFor(s, t) && Enabled(s, NextStep(s, t))
    ensures var s' := Step(s, NextStep(s, t));
            && QuietFor(s', t) && |s'.threads| == |s.threads| && |s'.cpus| == |s.cpus|
            && (forall u :: 0 <= u < |s.threads| && u != t ==> s'.threads[u] == s.threads[u])
            && (if NextStep(s, t).GiveBack? then s'.threads[t].phase.Idle? && s'.place == Moved(s.place, lo, hi, Free)
                else Unmaps(s', t, lo, hi) && s'.place == s.place)
  {
    hide Inv;
    ThreadInv(s, t);
    var ph := s.threads[t].phase;
    if (ph.Waiting? || ph.Shooting?) && ph.cpu < |s.cpus| {
      BoxInv(s, ph.cpu);
    }
  }

  function Stage(s: State, t: nat): nat
    requires t < |s.threads|
  {
    if s.threads[t].phase.Unmapping? then 2 else 1
  }

  /** Pages still to unmap, or processors still to call. */
  function Rest(s: State, t: nat): int
    requires t < |s.threads|
  {
    match s.threads[t].phase
    case Unmapping(_, hi, next, _) => hi - next
    case Shooting(_, _, c) => |s.cpus| - c
    case Waiting(_, _, c) => |s.cpus| - c
    case _ => 0
  }

  /** How far the call has come. */
  function CallRest(s: State, t: nat): nat
    requires t < |s.threads|
  {
    match s.threads[t].phase
    case Unmapping(_, _, _, cleared) => if cleared then 0 else 1
    case Shooting(_, _, _) => 4
    case Waiting(_, _, c) =>
      if c >= |s.cpus| || s.cpus[c].box.callerCanReturn then 1 else if s.cpus[c].handler.Running? then 2 else 3
    case _ => 0
  }

  /** Pages the handler still has to invalidate. */
  function HandlerRest(s: State, t: nat): int
    requires t < |s.threads|
  {
    var ph := s.threads[t].phase;
    if ph.Waiting? && ph.cpu < |s.cpus| && s.cpus[ph.cpu].handler.Running? then ph.hi - s.cpus[ph.cpu].handler.next
    else 0
  }

  /** `(a, b, c, d)` comes before `(a', b', c', d')`, and the parts are not negative. */
  predicate Earlier(a: nat, b: int, c: nat, d: int, a': nat, b': int, c': nat, d': int) {
    && b >= 0 && d >= 0 && b' >= 0 && d' >= 0
    && (a < a' || (a == a' && (b < b' || (b == b' && (c < c' || (c == c' && d < d'))))))
  }

  lemma NextIsNearer(s: State, t: nat, lo: nat, hi: nat)
    requires Inv(s) && Unmaps(s, t, lo, hi) && QuietFor(s, t) && Enabled(s, NextStep(s, t))
    requires !NextStep(s, t).GiveBack? && t < |Step(s, NextStep(s, t)).threads|
    ensures var s' := Step(s, NextStep(s, t));
            Earlier(Stage(s', t), Rest(s', t), CallRest(s', t), HandlerRest(s', t),
                    Stage(s, t), Rest(s, t), CallRest(s, t), HandlerRest(s, t))
  {
    hide Inv;
    ThreadInv(s, t);
    var ph := s.threads[t].phase;
    if (ph.Waiting? || ph.Shooting?) && ph.cpu < |s.cpus| {
      BoxInv(s, ph.cpu);
    }
  }

  function AtLeastZero(x: int): nat {
    if x < 0 then 0 else x
  }

  /** While nobody else calls a processor, `unmapMemory` can run to its end from wherever it is: the
      steps it takes next, one after another, leave its pages free and everything else in place. */
  lemma {:induction false} UnmapEnds(s: State, t: nat, lo: nat, hi: nat) returns (es: seq<Event>, s': State)
    requires Inv(s) && Unmaps(s, t, lo, hi) && QuietFor(s, t)
    ensures Reaches(s, es, s') && t < |s'.threads| && s'.threads[t].phase.Idle?
    ensures s'.place == Moved(s.place, lo, hi, Free)
    decreases Stage(s, t), AtLeastZero(Rest(s, t)), CallRest(s, t), AtLeastZero(HandlerRest(s, t))
  {
    hide Inv, Step, Enabled, NextStep, Stage, Rest, CallRest, HandlerRest, QuietFor;
    var e := NextStep(s, t);
    NextEnabled(s, t, lo, hi);
    NextGoesOn(s, t, lo, hi);
    StepKeepsInv(s, e);
    var s1 := Step(s, e);
    if e.GiveBack? {
      es, s' := [e], s1;
      assert es[1..] == [] && Reaches(s1, [], s1);
    } else {
      NextIsNearer(s, t, lo, hi);
      var es1;
      es1, s' := UnmapEnds(s1, t, lo, hi);
      es := [e] + es1;
      assert es[0] == e && es[1..] == es1;
    }
  }
}
