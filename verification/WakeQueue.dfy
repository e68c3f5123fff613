/** Wake queues of LibOS/shim/include/shim_thread.h: many owners put threads on queues of their own
    and drain them, in interleaved atomic steps. */
module WakeQueue {

  /** `wake_queue.next` of a thread, and `first` of a queue: not on any queue, the end, or a thread. */
  datatype Link = Null | Tail | To(thread: nat)

  /** Where an owner is. */
  datatype Pc =
    | Idle
    | Linking(t: nat)                 // the exchange succeeded, `queue->first` is not set yet
    | Draining(qnode: Link)           // at the head of the loop in `wake_queue`
    | Clearing(t: nat, rest: Link)    // `qnode->next` is read
    | Waking(t: nat, rest: Link)      // the node is taken off
    | Putting(t: nat, rest: Link)     // the thread is woken up
    | Done

  /** An owner with its queue head. `held` lists the threads that are on its queue; `added`, `woken` and
      `put` record what it did. */
  datatype Owner =
    Owner(first: Link, pc: Pc, held: seq<nat>, added: multiset<nat>, woken: multiset<nat>, put: multiset<nat>)

  datatype State = State(next: seq<Link>, owners: seq<Owner>)

  datatype Kind = TryAdd(t: nat) | SetFirst | StartWake | Read | Clear | Wake | Put | Renew

  datatype Action = Action(o: nat, kind: Kind)

  // ---------------------------------------------------------------- steps

  predicate Enabled(s: State, a: Action)
  {
    && a.o < |s.owners|
    && var w := s.owners[a.o];
       match a.kind
       case TryAdd(t) => w.pc.Idle? && t < |s.next|
       case SetFirst => w.pc.Linking?
       case StartWake => w.pc.Idle?
       case Read => w.pc.Draining? && (w.pc.qnode.To? ==> w.pc.qnode.thread < |s.next|)
       case Clear => w.pc.Clearing? && w.pc.t < |s.next|
       case Wake => w.pc.Waking?
       case Put => w.pc.Putting?
       case Renew => w.pc.Done?
  }

  /** The compare-and-exchange of `add_thread_to_queue` fails. */
  predicate Refused(s: State, a: Action)
    requires Enabled(s, a) && a.kind.TryAdd?
  {
    s.next[a.kind.t] != Null
  }

  function With(s: State, o: nat, w: Owner): State
    requires o < |s.owners|
  {
    s.(owners := s.owners[o := w])
  }

  /** The steps that touch no link: `link` is the one that `Read` finds. */
  function Own(w: Owner, kind: Kind, link: Link): Owner
    requires kind.SetFirst? ==> w.pc.Linking?
    requires kind.Read? ==> w.pc.Draining?
    requires kind.Wake? ==> w.pc.Waking?
    requires kind.Put? ==> w.pc.Putting?
  {
    match kind
    case SetFirst => w.(first := To(w.pc.t), pc := Idle)
    case StartWake => w.(pc := Draining(w.first))
    case Read => if w.pc.qnode.To? then w.(pc := Clearing(w.pc.qnode.thread, link)) else w.(pc := Done)
    case Wake => w.(pc := Putting(w.pc.t, w.pc.rest), woken := w.woken + multiset{w.pc.t})
    case Put => w.(pc := Draining(w.pc.rest), put := w.put + multiset{w.pc.t})
    case Renew => w.(first := Tail, pc := Idle)
    case _ => w
  }

  function Apply(s: State, a: Action): State
    requires Enabled(s, a)
  {
    var w := s.owners[a.o];
    match a.kind
    case TryAdd(t) =>
      if s.next[t] != Null then s
      else State(s.next[t := w.first],
                 s.owners[a.o := w.(pc := Linking(t), held := [t] + w.held, added := w.added + multiset{t})])
    case Clear =>
      State(s.next[w.pc.t := Null],
            s.owners[a.o := w.(pc := Waking(w.pc.t, w.pc.rest), held := if w.held == [] then [] else w.held[1..])])
    case Read => With(s, a.o, Own(w, Read, if w.pc.qnode.To? then s.next[w.pc.qnode.thread] else Null))
    case kind => With(s, a.o, Own(w, kind, Null))
  }

  predicate Legal(s: State, run: seq<Action>)
    decreases |run|
  {
    run == [] || (Enabled(s, run[0]) && Legal(Apply(s, run[0]), run[1..]))
  }

  function After(s: State, run: seq<Action>): State
    requires Legal(s, run)
    decreases |run|
  {
    if run == [] then s else After(Apply(s, run[0]), run[1..])
  }

  // ---------------------------------------------------------------- the invariant

  /** Following `next` from `x` visits exactly `q` and ends at the tail. */
  predicate Chain(next: seq<Link>, x: Link, q: seq<nat>)
    decreases |q|
  {
    if q == [] then x == Tail
    else q[0] < |next| && x == To(q[0]) && Chain(next, next[q[0]], q[1..])
  }

  predicate NoDup(q: seq<nat>)
  {
    forall i, j :: 0 <= i < j < |q| ==> q[i] != q[j]
  }

  /** Threads taken off the queue whose wakeup, or put, is still to come. */
  function ToWake(w: Owner): multiset<nat>
  {
    multiset(w.held) + if w.pc.Waking? then multiset{w.pc.t} else multiset{}
  }

  function ToPut(w: Owner): multiset<nat>
  {
    multiset(w.held) + if w.pc.Waking? || w.pc.Putting? then multiset{w.pc.t} else multiset{}
  }

  /** The queue of an owner, wherever it is. */
  predicate QueueOk(next: seq<Link>, w: Owner)
  {
    match w.pc
    case Idle => Chain(next, w.first, w.held)
    case Linking(t) => Chain(next, To(t), w.held)
    case Draining(x) => Chain(next, x, w.held)
    case Clearing(t, x) => Chain(next, To(t), w.held) && w.held != [] && t < |next| && next[t] == x
    case Waking(t, x) => Chain(next, x, w.held)
    case Putting(t, x) => Chain(next, x, w.held)
    case Done => w.held == []
  }

  /** Every successful add is accounted for: woken, or its wakeup is still to come; the same for puts. */
  predicate OwnerOk(next: seq<Link>, w: Owner)
  {
    QueueOk(next, w) && NoDup(w.held) && w.added == w.woken + ToWake(w) && w.added == w.put + ToPut(w)
  }

  ghost predicate On(s: State, t: nat, i: nat)
  {
    i < |s.owners| && t in s.owners[i].held
  }

  ghost predicate AllOk(s: State)
  {
    forall i :: 0 <= i < |s.owners| ==> OwnerOk(s.next, s.owners[i])
  }

  /** A thread is on at most one queue. */
  ghost predicate Exclusive(s: State)
  {
    forall t: nat, i: nat, j: nat :: On(s, t, i) && On(s, t, j) ==> i == j
  }

  /** A thread is on a queue exactly when its link is not null. */
  ghost predicate Marked(s: State, t: nat)
    requires t < |s.next|
  {
    s.next[t] != Null <==> exists i: nat :: On(s, t, i)
  }

  ghost predicate AllMarked(s: State)
  {
    && (forall t: nat, i: nat :: On(s, t, i) ==> t < |s.next|)
    && (forall t: nat :: t < |s.next| ==> Marked(s, t))
  }

  ghost predicate Inv(s: State)
  {
    AllOk(s) && Exclusive(s) && AllMarked(s)
  }

  // ---------------------------------------------------------------- frames

  lemma {:induction false} ChainFrame(next: seq<Link>, t: nat, link: Link, x: Link, q: seq<nat>)
    requires Chain(next, x, q) && t < |next| && t !in q
    ensures Chain(next[t := link], x, q)
    decreases |q|
  {
    if q != [] {
      assert q[0] in q;
      ChainFrame(next, t, link, next[q[0]], q[1..]);
    }
  }

  /** An owner that does not hold `t` is unaffected by a change of its link. */
  lemma OwnerFrame(next: seq<Link>, t: nat, link: Link, w: Owner)
    requires OwnerOk(next, w) && t < |next| && t !in w.held
    ensures OwnerOk(next[t := link], w)
  {
    match w.pc
    case Idle => ChainFrame(next, t, link, w.first, w.held);
    case Linking(u) => ChainFrame(next, t, link, To(u), w.held);
    case Draining(x) => ChainFrame(next, t, link, x, w.held);
    case Clearing(u, x) =>
      ChainFrame(next, t, link, To(u), w.held);
      assert w.held[0] == u;
    case Waking(u, x) => ChainFrame(next, t, link, x, w.held);
    case Putting(u, x) => ChainFrame(next, t, link, x, w.held);
    case Done =>
  }

  // ---------------------------------------------------------------- every step keeps the invariant

  /** A step of one owner that changes neither links nor what it holds. */
  lemma LocalStep(s: State, o: nat, w: Owner)
    requires Inv(s) && o < |s.owners| && w.held == s.owners[o].held && OwnerOk(s.next, w)
    ensures Inv(With(s, o, w))
  {
    var s' := With(s, o, w);
    assert forall t: nat, i: nat :: On(s', t, i) <==> On(s, t, i);
    forall t: nat | t < |s'.next| ensures Marked(s', t) {
      assert Marked(s, t);
    }
  }

  /** One thread changes its link, and the other owners stay as they are. */
  lemma OthersOk(s: State, o: nat, t: nat, link: Link, w: Owner)
    requires Inv(s) && o < |s.owners| && t < |s.next| && OwnerOk(s.next[t := link], w)
    requires forall i: nat :: On(s, t, i) ==> i == o
    ensures AllOk(State(s.next[t := link], s.owners[o := w]))
  {
    var s' := State(s.next[t := link], s.owners[o := w]);
    forall i | 0 <= i < |s'.owners| ensures OwnerOk(s'.next, s'.owners[i]) {
      if i != o {
        assert !On(s, t, i);
        OwnerFrame(s.next, t, link, s.owners[i]);
      }
    }
  }

  lemma OnPushed(s: State, s': State, o: nat, t: nat, u: nat, i: nat)
    requires o < |s.owners| && |s'.owners| == |s.owners| && s'.owners[o].held == [t] + s.owners[o].held
    requires s'.owners == s.owners[o := s'.owners[o]]
    ensures On(s', u, i) <==> On(s, u, i) || (u == t && i == o)
  {
  }

  /** Putting `t`, which is on no queue, in front. */
  lemma Pushed(s: State, o: nat, t: nat, w: Owner)
    requires Inv(s) && o < |s.owners| && t < |s.next| && s.next[t] == Null && s.owners[o].first != Null
    requires w.held == [t] + s.owners[o].held && OwnerOk(s.next[t := s.owners[o].first], w)
    ensures Inv(State(s.next[t := s.owners[o].first], s.owners[o := w]))
  {
    var s' := State(s.next[t := s.owners[o].first], s.owners[o := w]);
    assert Marked(s, t);
    OthersOk(s, o, t, s.owners[o].first, w);
    forall u: nat, i: nat ensures On(s', u, i) <==> On(s, u, i) || (u == t && i == o) {
      OnPushed(s, s', o, t, u, i);
    }
    forall u: nat | u < |s'.next| ensures Marked(s', u) {
      assert Marked(s, u);
      assert On(s', t, o);
    }
  }

  lemma OnPopped(s: State, s': State, o: nat, t: nat, u: nat, i: nat)
    requires o < |s.owners| && |s'.owners| == |s.owners| && s.owners[o].held == [t] + s'.owners[o].held
    requires s'.owners == s.owners[o := s'.owners[o]] && NoDup(s.owners[o].held)
    requires On(s, t, i) ==> i == o
    ensures On(s', u, i) <==> On(s, u, i) && u != t
  {
    var q, q' := s.owners[o].held, s'.owners[o].held;
    assert q[0] == t && forall k :: 0 <= k < |q'| ==> q[k + 1] == q'[k];
    assert t !in q';
  }

  /** Taking off the front thread `t`. */
  lemma Popped(s: State, o: nat, t: nat, w: Owner)
    requires Inv(s) && o < |s.owners| && t < |s.next| && s.owners[o].held == [t] + w.held
    requires OwnerOk(s.next[t := Null], w)
    ensures Inv(State(s.next[t := Null], s.owners[o := w]))
  {
    var s' := State(s.next[t := Null], s.owners[o := w]);
    assert On(s, t, o) && OwnerOk(s.next, s.owners[o]);
    OthersOk(s, o, t, Null, w);
    forall u: nat, i: nat ensures On(s', u, i) <==> On(s, u, i) && u != t {
      OnPopped(s, s', o, t, u, i);
    }
    forall u: nat | u < |s'.next| ensures Marked(s', u) {
      assert Marked(s, u);
    }
  }

  lemma AddStep(s: State, o: nat, t: nat)
    requires Inv(s) && Enabled(s, Action(o, TryAdd(t))) && s.next[t] == Null
    ensures Inv(Apply(s, Action(o, TryAdd(t))))
  {
    var w := s.owners[o];
    var w' := w.(pc := Linking(t), held := [t] + w.held, added := w.added + multiset{t});
    assert OwnerOk(s.next, w);
    assert Marked(s, t) && !On(s, t, o);
    ChainFrame(s.next, t, w.first, w.first, w.held);
    assert ([t] + w.held)[1..] == w.held;
    assert multiset([t] + w.held) == multiset{t} + multiset(w.held);
    Pushed(s, o, t, w');
  }

  /** The owner whose front thread is taken off. */
  lemma ClearOk(next: seq<Link>, w: Owner, t: nat, x: Link, q: seq<nat>)
    requires OwnerOk(next, w) && w.pc == Clearing(t, x) && w.held == [t] + q && t < |next|
    ensures OwnerOk(next[t := Null], w.(pc := Waking(t, x), held := q))
  {
    FrontOff(t, q);
    ChainFrame(next, t, Null, x, q);
  }

  lemma FrontOff(t: nat, q: seq<nat>)
    requires NoDup([t] + q)
    ensures t !in q && NoDup(q) && multiset([t] + q) == multiset{t} + multiset(q) && ([t] + q)[1..] == q
  {
    var h := [t] + q;
    assert h[1..] == q;
    forall k | 0 <= k < |q| ensures q[k] == h[k + 1] != t {
      assert h[0] != h[k + 1];
    }
    forall i, j | 0 <= i < j < |q| ensures q[i] != q[j] {
      assert h[i + 1] != h[j + 1];
    }
  }

  lemma ClearStep(s: State, o: nat)
    requires Inv(s) && Enabled(s, Action(o, Clear))
    ensures Inv(Apply(s, Action(o, Clear)))
  {
    var w := s.owners[o];
    var t, x, q := w.pc.t, w.pc.rest, w.held[1..];
    assert OwnerOk(s.next, w);
    assert w.held == [t] + q;
    ClearOk(s.next, w, t, x, q);
    Popped(s, o, t, w.(pc := Waking(t, x), held := q));
  }

  lemma ReadOk(next: seq<Link>, w: Owner, link: Link)
    requires OwnerOk(next, w) && w.pc.Draining?
    requires w.pc.qnode.To? ==> w.pc.qnode.thread < |next| && link == next[w.pc.qnode.thread]
    ensures OwnerOk(next, Own(w, Read, link))
  {
  }

  lemma WakeOk(next: seq<Link>, w: Owner)
    requires OwnerOk(next, w) && w.pc.Waking?
    ensures OwnerOk(next, Own(w, Wake, Null))
  {
  }

  lemma PutOk(next: seq<Link>, w: Owner)
    requires OwnerOk(next, w) && w.pc.Putting?
    ensures OwnerOk(next, Own(w, Put, Null))
  {
  }

  lemma HeadOk(next: seq<Link>, w: Owner, kind: Kind)
    requires OwnerOk(next, w)
    requires (kind.SetFirst? && w.pc.Linking?) || (kind.StartWake? && w.pc.Idle?) || (kind.Renew? && w.pc.Done?)
    ensures OwnerOk(next, Own(w, kind, Null))
  {
    if kind.SetFirst? { assert w.held != [] && w.held[0] == w.pc.t; }
  }

  /** The other steps, which leave links and lists alone. */
  lemma OwnStep(s: State, a: Action)
    requires Inv(s) && Enabled(s, a) && !a.kind.TryAdd? && !a.kind.Clear?
    ensures Inv(Apply(s, a))
  {
    var w := s.owners[a.o];
    var link := if a.kind.Read? && w.pc.qnode.To? then s.next[w.pc.qnode.thread] else Null;
    assert OwnerOk(s.next, w);
    match a.kind {
      case Read => ReadOk(s.next, w, link);
      case Wake => WakeOk(s.next, w);
      case Put => PutOk(s.next, w);
      case _ => HeadOk(s.next, w, a.kind);
    }
    LocalStep(s, a.o, Own(w, a.kind, link));
  }

  lemma StepKeeps(s: State, a: Action)
    requires Inv(s) && Enabled(s, a)
    ensures Inv(Apply(s, a))
  {
    match a.kind
    case TryAdd(t) => if s.next[t] == Null { AddStep(s, a.o, t); }
    case Clear => ClearStep(s, a.o);
    case _ => OwnStep(s, a);
  }

  // ---------------------------------------------------------------- runs

  predicate Initial(s: State)
  {
    && (forall t :: 0 <= t < |s.next| ==> s.next[t] == Null)
    && (forall i :: 0 <= i < |s.owners| ==> s.owners[i] == Owner(Tail, Idle, [], multiset{}, multiset{}, multiset{}))
  }

  lemma InitialOk(s: State)
    requires Initial(s)
    ensures Inv(s)
  {
    assert forall t: nat, i: nat :: !On(s, t, i);
  }

  /** On every interleaving: the queues are chains that end at the tail, no thread is on two of them,
      a thread is on one exactly when its link is not null, and all adds are accounted for. */
  lemma {:induction false} RunKeeps(s: State, run: seq<Action>)
    requires Inv(s) && Legal(s, run)
    ensures Inv(After(s, run))
    decreases |run|
  {
    if run != [] {
      StepKeeps(s, run[0]);
      RunKeeps(Apply(s, run[0]), run[1..]);
    }
  }

  /** An owner that has drained its queues woke and put every thread exactly as often as it added it. */
  lemma Conservation(s: State, run: seq<Action>, o: nat)
    requires Initial(s) && Legal(s, run) && o < |After(s, run).owners|
    ensures var w := After(s, run).owners[o];
      && w.woken <= w.added && w.put <= w.woken
      && (w.pc.Done? ==> w.added == w.woken == w.put)
  {
    InitialOk(s);
    RunKeeps(s, run);
    var w := After(s, run).owners[o];
    assert OwnerOk(After(s, run).next, w);
    assert w.pc.Done? ==> multiset(w.held) == multiset{};
    assert ToPut(w) >= ToWake(w);
  }

  /** What an owner has added never gets less, and owners stay. */
  lemma {:induction false} AddedGrows(s: State, run: seq<Action>, o: nat)
    requires Legal(s, run) && o < |s.owners|
    ensures |After(s, run).owners| == |s.owners| && s.owners[o].added <= After(s, run).owners[o].added
    decreases |run|
  {
    if run != [] { AddedGrows(Apply(s, run[0]), run[1..], o); }
  }

  /** A refused add finds the thread on the queue of an owner that has yet to wake it, and in every
      continuation in which that owner drains its queue it has woken the thread once more by then. */
  lemma RefusedIsPending(s: State, run: seq<Action>, a: Action, more: seq<Action>)
    requires Initial(s) && Legal(s, run) && Enabled(After(s, run), a) && a.kind.TryAdd? && Refused(After(s, run), a)
    requires Legal(After(s, run), more)
    ensures Apply(After(s, run), a) == After(s, run)
    ensures var s', t := After(s, run), a.kind.t;
      exists i: nat :: On(s', t, i) && s'.owners[i].woken[t] < s'.owners[i].added[t] && WokenBy(s', t, i, After(s', more))
  {
    InitialOk(s);
    RunKeeps(s, run);
    var s', t := After(s, run), a.kind.t;
    assert Marked(s', t);
    var i: nat :| On(s', t, i);
    assert OwnerOk(s'.next, s'.owners[i]);
    assert t in ToWake(s'.owners[i]);
    RunKeeps(s', more);
    AddedGrows(s', more, i);
    DoneWoke(After(s', more), i);
  }

  /** If owner `i` has drained its queue in `s'`, it has woken `t` since `s`. */
  ghost predicate WokenBy(s: State, t: nat, i: nat, s': State)
  {
    && i < |s.owners| && i < |s'.owners|
    && (s'.owners[i].pc.Done? ==> s.owners[i].woken[t] < s'.owners[i].woken[t])
  }

  lemma DoneWoke(s: State, i: nat)
    requires Inv(s) && i < |s.owners|
    ensures s.owners[i].pc.Done? ==> s.owners[i].woken == s.owners[i].added && s.owners[i].put == s.owners[i].added
  {
    assert OwnerOk(s.next, s.owners[i]);
    assert s.owners[i].pc.Done? ==> multiset(s.owners[i].held) == multiset{};
  }

  /** Thread `t` goes from no queue to the front of the queue of `o`. */
  ghost predicate AddedTo(s: State, t: nat, o: nat, s': State)
  {
    && t < |s.next| && t < |s'.next| && o < |s.owners| && o < |s'.owners|
    && (forall i: nat :: !On(s, t, i)) && (forall i: nat :: On(s', t, i) <==> i == o)
    && s'.next[t] == s.owners[o].first && s'.owners[o].added[t] == s.owners[o].added[t] + 1
  }

  /** An add on a thread whose link is null succeeds: the thread is then on the queue of the adder and
      on no other, and in every continuation in which that owner drains its queue it has woken and
      put the thread once more by then. */
  lemma AddIsWoken(s: State, run: seq<Action>, o: nat, t: nat, more: seq<Action>)
    requires Initial(s) && Legal(s, run) && Enabled(After(s, run), Action(o, TryAdd(t)))
    requires After(s, run).next[t] == Null && Legal(Apply(After(s, run), Action(o, TryAdd(t))), more)
    ensures var s0 := After(s, run);
      var s1 := Apply(s0, Action(o, TryAdd(t)));
      && AddedTo(s0, t, o, s1) && WokenBy(s0, t, o, After(s1, more))
      && (After(s1, more).owners[o].pc.Done? ==> s0.owners[o].put[t] < After(s1, more).owners[o].put[t])
  {
    InitialOk(s);
    RunKeeps(s, run);
    var s0 := After(s, run);
    var s1 := Apply(s0, Action(o, TryAdd(t)));
    assert Marked(s0, t) && OwnerOk(s0.next, s0.owners[o]);
    forall i: nat ensures On(s1, t, i) <==> i == o {
      OnPushed(s0, s1, o, t, t, i);
    }
    AddStep(s0, o, t);
    RunKeeps(s1, more);
    AddedGrows(s1, more, o);
    DoneWoke(After(s1, more), o);
  }

  // ---------------------------------------------------------------- draining

  /** The steps an owner still has to take until its queue is drained. */
  function Left(w: Owner): nat
  {
    match w.pc
    case Idle => 4 * |w.held| + 2
    case Linking(_) => 4 * |w.held| + 3
    case Draining(_) => 4 * |w.held| + 1
    case Clearing(_, _) => 4 * |w.held|
    case Waking(_, _) => 4 * |w.held| + 3
    case Putting(_, _) => 4 * |w.held| + 2
    case Done => 0
  }

  function NextKind(w: Owner): Kind
    requires !w.pc.Done?
  {
    match w.pc
    case Idle => StartWake
    case Linking(_) => SetFirst
    case Draining(_) => Read
    case Clearing(_, _) => Clear
    case Waking(_, _) => Wake
    case Putting(_, _) => Put
  }

  /** Whatever the others do, an owner can always take its next step towards an empty queue, and
      each such step brings it closer. */
  lemma DrainAdvances(s: State, o: nat)
    requires Inv(s) && o < |s.owners| && !s.owners[o].pc.Done?
    ensures Enabled(s, Action(o, NextKind(s.owners[o])))
    ensures Left(Apply(s, Action(o, NextKind(s.owners[o]))).owners[o]) == Left(s.owners[o]) - 1
  {
    var w := s.owners[o];
    assert QueueOk(s.next, w) by { assert OwnerOk(s.next, w); }
    HeadKnown(s.next, w);
    StepLeft(s, o, w);
  }

  lemma StepLeft(s: State, o: nat, w: Owner)
    requires o < |s.owners| && w == s.owners[o] && !w.pc.Done?
    requires w.pc.Draining? && w.pc.qnode.To? ==> w.pc.qnode.thread < |s.next|
    requires w.pc.Draining? && !w.pc.qnode.To? ==> w.held == []
    requires w.pc.Clearing? ==> w.pc.t < |s.next| && w.held != []
    ensures Enabled(s, Action(o, NextKind(w)))
    ensures Left(Apply(s, Action(o, NextKind(w))).owners[o]) == Left(w) - 1
  {
  }

  lemma HeadKnown(next: seq<Link>, w: Owner)
    requires QueueOk(next, w)
    ensures w.pc.Draining? && w.pc.qnode.To? ==> w.pc.qnode.thread < |next|
    ensures w.pc.Draining? && !w.pc.qnode.To? ==> w.held == []
    ensures w.pc.Clearing? ==> w.pc.t < |next| && w.held != []
  {
  }

  /** How many steps of a run are steps of owner `o`. */
  function Steps(run: seq<Action>, o: nat): nat
  {
    if run == [] then 0 else (if run[0].o == o then 1 else 0) + Steps(run[1..], o)
  }

  /** Owner `o` only drains: it adds nothing and starts no new queue. */
  predicate OnlyDrains(run: seq<Action>, o: nat)
  {
    forall k :: 0 <= k < |run| && run[k].o == o ==> !run[k].kind.TryAdd? && !run[k].kind.Renew?
  }

  lemma OwnIsNext(s: State, a: Action)
    requires Enabled(s, a) && !a.kind.TryAdd? && !a.kind.Renew?
    ensures !s.owners[a.o].pc.Done? && a.kind == NextKind(s.owners[a.o])
  {
  }

  /** Whatever the other owners do in between, an owner that drains comes closer with each of its own
      steps and only with those. */
  lemma {:induction false} DrainRun(s: State, run: seq<Action>, o: nat)
    requires Inv(s) && Legal(s, run) && o < |s.owners| && OnlyDrains(run, o)
    ensures o < |After(s, run).owners| && Left(After(s, run).owners[o]) + Steps(run, o) == Left(s.owners[o])
    decreases |run|
  {
    if run != [] {
      var a := run[0];
      StepKeeps(s, a);
      if a.o == o {
        OwnIsNext(s, a);
        DrainAdvances(s, o);
        assert a == Action(o, NextKind(s.owners[o]));
      }
      DrainRun(Apply(s, a), run[1..], o);
    }
  }

  /** So after as many of its own steps as `Left` says, its queue is empty and all its threads are
      woken and put, on every interleaving with the others. */
  lemma Drained(s: State, run: seq<Action>, o: nat)
    requires Inv(s) && Legal(s, run) && o < |s.owners| && OnlyDrains(run, o)
    ensures Steps(run, o) <= Left(s.owners[o]) && o < |After(s, run).owners|
    ensures Steps(run, o) == Left(s.owners[o]) ==>
      var w := After(s, run).owners[o]; w.pc.Done? && w.held == [] && w.added == w.woken == w.put
  {
    DrainRun(s, run, o);
    RunKeeps(s, run);
    var s' := After(s, run);
    assert OwnerOk(s'.next, s'.owners[o]);
    if Left(s'.owners[o]) == 0 { assert multiset(s'.owners[o].held) == multiset{}; }
  }
}
