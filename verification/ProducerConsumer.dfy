/** The two threads of process/mut.c: a producer that pushes the numbers 0, 1, ... on a shared
    list and a consumer that takes them off, under one mutex and one condition variable.

    Every access to shared data is a step of its own, steps of the two threads alternate in
    any way, and the condition may wake the consumer for no reason.  The ten items of the
    program are N here. */
module ProducerConsumer {

  /** Where the producer is: about to allocate a node, lock, set its link, set the head,
      signal, unlock; or done. */
  datatype ProducerPc = Make | Lock | Link | Publish | Signal | Unlock | Done

  /** Where the consumer is: about to lock, test the head, (asleep on the condition), lock
      again after waking, read the head, set the head, print, free, unlock. */
  datatype ConsumerPc = CLock | Test | Asleep | Awake | Take | Advance | Print | Free | CUnlock

  datatype Owner = Nobody | Producer | Consumer

  /** A pointer to a node is the list from that node on, as numbers; a null pointer is []. */
  datatype State = State(
    n: nat,
    owner: Owner,
    head: seq<nat>,
    ppc: ProducerPc, i: nat, pnode: seq<nat>,
    cpc: ConsumerPc, cnode: seq<nat>,
    printed: seq<nat>,
    freed: seq<nat>)

  datatype Action = ProducerStep | ConsumerStep | SpuriousWakeup

  function Init(n: nat): State {
    State(n, Nobody, [], if n == 0 then Done else Make, 0, [], CLock, [], [], [])
  }

  predicate Enabled(s: State, a: Action) {
    match a
    case ProducerStep => s.ppc != Done && (s.ppc == Lock ==> s.owner == Nobody)
    case ConsumerStep => s.cpc != Asleep && (s.cpc in {CLock, Awake} ==> s.owner == Nobody)
    case SpuriousWakeup => s.cpc == Asleep
  }

  function Produce(s: State): State {
    match s.ppc
    case Make => s.(ppc := Lock, pnode := [s.i])
    case Lock => s.(ppc := Link, owner := Producer)
    case Link => s.(ppc := Publish, pnode := [s.i] + s.head)
    case Publish => s.(ppc := Signal, head := s.pnode)
    case Signal => s.(ppc := Unlock, cpc := if s.cpc == Asleep then Awake else s.cpc)
    case Unlock => s.(ppc := if s.i + 1 == s.n then Done else Make, i := s.i + 1, owner := Nobody)
    case Done => s
  }

  function Consume(s: State): State {
    match s.cpc
    case CLock => s.(cpc := Test, owner := Consumer)
    case Test => if s.head == [] then s.(cpc := Asleep, owner := Nobody) else s.(cpc := Take)
    case Asleep => s
    case Awake => s.(cpc := Test, owner := Consumer)
    case Take => s.(cpc := Advance, cnode := s.head)
    case Advance => s.(cpc := Print, head := if s.cnode == [] then [] else s.cnode[1..])
    case Print => s.(cpc := Free, printed := if s.cnode == [] then s.printed else s.printed + [s.cnode[0]])
    case Free => s.(cpc := CUnlock, freed := if s.cnode == [] then s.freed else s.freed + [s.cnode[0]])
    case CUnlock => s.(cpc := CLock, owner := Nobody)
  }

  function Step(s: State, a: Action): State {
    match a
    case ProducerStep => Produce(s)
    case ConsumerStep => Consume(s)
    case SpuriousWakeup => s.(cpc := Awake)
  }

  /** The actions lead from `s` to `t`, each enabled where it happens. */
  predicate Run(s: State, actions: seq<Action>, t: State)
    decreases |actions|
  {
    if actions == [] then s == t
    else Enabled(s, actions[0]) && Run(Step(s, actions[0]), actions[1..], t)
  }

  // ---------- What every step keeps ----------

  function UpTo(n: nat): (s: seq<nat>)
    ensures |s| == n && forall k | 0 <= k < n :: s[k] == k
  {
    if n == 0 then [] else UpTo(n - 1) + [n - 1]
  }

  /** How many numbers have been put on the list. */
  function Pushed(s: State): nat {
    s.i + if s.ppc in {Signal, Unlock} then 1 else 0
  }

  /** The numbers taken off the list, in order: those printed and the one in hand. */
  function Taken(s: State): seq<nat> {
    if s.cpc == Print && s.cnode != [] then s.printed + [s.cnode[0]] else s.printed
  }

  ghost predicate Decreasing(list: seq<nat>) {
    forall j, k | 0 <= j < k < |list| :: list[j] > list[k]
  }

  /** Only the owner of the mutex is between its lock and its unlock. */
  predicate Exclusive(s: State) {
    && (s.owner == Producer <==> s.ppc in {Link, Publish, Signal, Unlock})
    && (s.owner == Consumer <==> s.cpc in {Test, Take, Advance, Print, Free, CUnlock})
  }

  predicate Pointers(s: State) {
    && s.i <= s.n && (s.ppc == Done <==> s.i == s.n)
    && (s.ppc == Publish ==> s.pnode == [s.i] + s.head)
    && (s.cpc == Take ==> s.head != [])
    && (s.cpc == Advance ==> s.head != [] && s.cnode == s.head)
    && (s.cpc in {Print, Free} ==> s.cnode != [])
    && (s.cpc == Print ==> s.cnode[1..] == s.head)
  }

  /** A number taken stands before smaller ones only in decreasing order: once `a` has been
      taken and then `b < a`, nothing between them can follow. */
  predicate Avoids(out: seq<nat>) {
    forall j, k, l | 0 <= j < k < l < |out| :: !(out[k] < out[l] < out[j])
  }

  predicate ListAvoids(out: seq<nat>, list: seq<nat>) {
    forall j, k, x | 0 <= j < k < |out| && 0 <= x < |list| ::
      out[k] < out[j] && list[x] < out[j] ==> list[x] < out[k]
  }

  /** Of the numbers below `pushed`, those in `out` have been taken and those in `list` are
      still on the list: none is lost, doubled or invented, and both are in order. */
  ghost predicate Stacked(out: seq<nat>, list: seq<nat>, pushed: nat) {
    && multiset(out) + multiset(list) == multiset(UpTo(pushed))
    && Decreasing(list)
    && (forall x | 0 <= x < |list| :: list[x] < pushed)
    && (forall j | 0 <= j < |out| :: out[j] < pushed)
    && Avoids(out)
    && ListAvoids(out, list)
  }

  lemma AvoidsMore(out: seq<nat>, list: seq<nat>)
    requires Avoids(out) && ListAvoids(out, list) && list != []
    ensures Avoids(out + [list[0]])
  {
    var more := out + [list[0]];
    forall j, k, l | 0 <= j < k < l < |more| ensures !(more[k] < more[l] < more[j]) {
      if l < |out| {
        assert !(out[k] < out[l] < out[j]);
      } else {
        assert out[k] < out[j] && list[0] < out[j] ==> list[0] < out[k];
      }
    }
  }

  lemma ListAvoidsRest(out: seq<nat>, list: seq<nat>)
    requires ListAvoids(out, list) && Decreasing(list) && list != []
    ensures ListAvoids(out + [list[0]], list[1..])
  {
    var more, rest := out + [list[0]], list[1..];
    forall j, k, x | 0 <= j < k < |more| && 0 <= x < |rest|
      ensures more[k] < more[j] && rest[x] < more[j] ==> rest[x] < more[k]
    {
      if k < |out| {
        assert out[k] < out[j] && list[x + 1] < out[j] ==> list[x + 1] < out[k];
      }
    }
  }

  lemma TakeKeepsStacked(out: seq<nat>, list: seq<nat>, pushed: nat)
    requires Stacked(out, list, pushed) && list != []
    ensures Stacked(out + [list[0]], list[1..], pushed)
  {
    assert list == [list[0]] + list[1..];
    AvoidsMore(out, list);
    ListAvoidsRest(out, list);
  }

  lemma PushKeepsStacked(out: seq<nat>, list: seq<nat>, pushed: nat)
    requires Stacked(out, list, pushed)
    ensures Stacked(out, [pushed] + list, pushed + 1)
  {
    PushKeepsEach(out, list, pushed);
    PushKeepsOrder(out, list, pushed);
  }

  lemma PushKeepsEach(out: seq<nat>, list: seq<nat>, pushed: nat)
    requires multiset(out) + multiset(list) == multiset(UpTo(pushed))
    ensures multiset(out) + multiset([pushed] + list) == multiset(UpTo(pushed + 1))
  {
    assert UpTo(pushed + 1) == UpTo(pushed) + [pushed];
    assert multiset([pushed] + list) == multiset([pushed]) + multiset(list);
  }

  lemma PushKeepsOrder(out: seq<nat>, list: seq<nat>, pushed: nat)
    requires Decreasing(list) && ListAvoids(out, list)
    requires (forall x | 0 <= x < |list| :: list[x] < pushed) && (forall j | 0 <= j < |out| :: out[j] < pushed)
    ensures Decreasing([pushed] + list) && ListAvoids(out, [pushed] + list)
    ensures forall x | 0 <= x < |[pushed] + list| :: ([pushed] + list)[x] < pushed + 1
  {
  }

  /** Every node is freed once, after it was printed and before the next is taken. */
  predicate FreedOnce(s: State) {
    if s.cpc == Free then s.cnode != [] && s.printed == s.freed + [s.cnode[0]] else s.printed == s.freed
  }

  /** The consumer sleeps only on an empty list, unless the producer is about to signal. */
  predicate NoLostWakeup(s: State) {
    s.cpc == Asleep && s.ppc != Signal ==> s.head == []
  }

  ghost predicate Inv(s: State) {
    Exclusive(s) && Pointers(s) && Stacked(Taken(s), s.head, Pushed(s)) && FreedOnce(s) && NoLostWakeup(s)
  }

  lemma InitInv(n: nat)
    ensures Inv(Init(n))
  {
  }

  /** Each step takes the head off the list, puts the next number on it, or leaves it. */
  predicate StackStep(s: State, t: State) {
    || (Taken(t), t.head, Pushed(t)) == (Taken(s), s.head, Pushed(s))
    || (s.head != [] && (Taken(t), t.head, Pushed(t)) == (Taken(s) + [s.head[0]], s.head[1..], Pushed(s)))
    || (Taken(t), t.head, Pushed(t)) == (Taken(s), [Pushed(s)] + s.head, Pushed(s) + 1)
  }

  lemma StepIsStackStep(s: State, a: Action)
    requires Exclusive(s) && Pointers(s) && Enabled(s, a)
    ensures StackStep(s, Step(s, a))
  {
  }

  lemma StackedKept(s: State, t: State)
    requires Stacked(Taken(s), s.head, Pushed(s)) && StackStep(s, t)
    ensures Stacked(Taken(t), t.head, Pushed(t))
  {
    if s.head != [] {
      TakeKeepsStacked(Taken(s), s.head, Pushed(s));
    }
    PushKeepsStacked(Taken(s), s.head, Pushed(s));
  }

  lemma ControlKept(s: State, a: Action)
    requires Exclusive(s) && Pointers(s) && FreedOnce(s) && NoLostWakeup(s) && Enabled(s, a)
    ensures var t := Step(s, a); Exclusive(t) && Pointers(t) && FreedOnce(t) && NoLostWakeup(t)
  {
  }

  /** Every step of either thread, and every spurious wakeup, keeps the invariant. */
  lemma InvKept(s: State, a: Action)
    requires Inv(s) && Enabled(s, a)
    ensures Inv(Step(s, a))
  {
    StepIsStackStep(s, a);
    StackedKept(s, Step(s, a));
    ControlKept(s, a);
  }

  /** What every step keeps, every run keeps. */
  lemma {:induction false} RunKeeps(kept: State -> bool, s: State, actions: seq<Action>, t: State)
    requires forall u, a | kept(u) && Enabled(u, a) :: kept(Step(u, a))
    requires kept(s) && Run(s, actions, t)
    ensures kept(t)
    decreases |actions|
  {
    if actions != [] {
      RunKeeps(kept, Step(s, actions[0]), actions[1..], t);
    }
  }

  lemma RunKeepsInv(s: State, actions: seq<Action>, t: State)
    requires Inv(s) && Run(s, actions, t)
    ensures Inv(t) && t.n == s.n
  {
    RunKeepsN(s, actions, t);
    forall u, a | Inv(u) && Enabled(u, a) ensures Inv(Step(u, a)) {
      InvKept(u, a);
    }
    RunKeeps((u: State) => Inv(u), s, actions, t);
  }

  lemma RunKeepsN(s: State, actions: seq<Action>, t: State)
    requires Run(s, actions, t)
    ensures t.n == s.n
  {
    RunKeeps((u: State) => u.n == s.n, s, actions, t);
  }

  // ---------- What follows for every run ----------

  /** Safety over every interleaving: what was printed, the number in hand and the list are
      exactly the numbers pushed, each once; the list falls from its head; no number printed
      has two smaller ones after it in rising order; every printed node but the one in hand is
      freed, once; and a sleeping consumer has missed nothing. */
  lemma EveryRunIsSafe(n: nat, actions: seq<Action>, s: State)
    requires Run(Init(n), actions, s)
    ensures multiset(Taken(s)) + multiset(s.head) == multiset(UpTo(Pushed(s)))
    ensures Decreasing(s.head) && Avoids(s.printed)
    ensures FreedOnce(s)
    ensures s.cpc == Asleep && s.ppc != Signal ==> s.head == []
    ensures !(s.ppc in {Link, Publish, Signal, Unlock} && s.cpc in {Test, Take, Advance, Print, Free, CUnlock})
  {
    InitInv(n);
    RunKeepsInv(Init(n), actions, s);
    assert s.printed <= Taken(s);
    forall j, k, l | 0 <= j < k < l < |s.printed| ensures !(s.printed[k] < s.printed[l] < s.printed[j]) {
      assert Taken(s)[j] == s.printed[j] && Taken(s)[k] == s.printed[k] && Taken(s)[l] == s.printed[l];
    }
  }

  /** All numbers have been printed, and the consumer waits for more. */
  predicate Delivered(s: State) {
    && s.ppc == Done && s.cpc == Asleep && s.owner == Nobody && s.head == []
    && multiset(s.printed) == multiset(UpTo(s.n)) && s.freed == s.printed
  }

  /** No deadlock: where neither thread can move, everything has been delivered; and then
      neither can. */
  lemma StuckIffDelivered(n: nat, actions: seq<Action>, s: State)
    requires Run(Init(n), actions, s)
    ensures !Enabled(s, ProducerStep) && !Enabled(s, ConsumerStep) <==> Delivered(s)
  {
    InitInv(n);
    RunKeepsInv(Init(n), actions, s);
    if !Enabled(s, ProducerStep) && !Enabled(s, ConsumerStep) {
      StuckMeans(s);
    }
  }

  lemma StuckMeans(s: State)
    requires Inv(s) && !Enabled(s, ProducerStep) && !Enabled(s, ConsumerStep)
    ensures Delivered(s)
  {
    StuckAt(s);
    assert Taken(s) == s.printed && Pushed(s) == s.n;
    assert multiset(s.printed) + multiset([]) == multiset(s.printed);
  }

  lemma StuckAt(s: State)
    requires Exclusive(s) && Pointers(s) && NoLostWakeup(s)
    requires !Enabled(s, ProducerStep) && !Enabled(s, ConsumerStep)
    ensures s.owner == Nobody && s.ppc == Done && s.cpc == Asleep && s.i == s.n && s.head == []
  {
  }

  // ---------- Which steps can happen ----------

  ghost predicate Can(s: State, a: Action) {
    exists t :: Run(s, [a], t)
  }

  lemma OneStep(s: State, a: Action)
    ensures Can(s, a) <==> Enabled(s, a)
  {
    assert Run(Step(s, a), [a][1..], Step(s, a));
    if Enabled(s, a) {
      assert Run(s, [a], Step(s, a));
    }
  }

  /** The runs are all the interleavings: in every state that can be reached, the producer can go on
      until it has pushed all, but for its lock while the consumer is between its own lock and its
      unlock; so can the consumer, but for its two locks and for its sleep; and a sleeping consumer
      may wake up for no reason. */
  lemma StepsThatCanHappen(n: nat, actions: seq<Action>, s: State)
    requires Run(Init(n), actions, s)
    ensures Can(s, ProducerStep) <==>
            s.i < n && (s.ppc == Lock ==> s.cpc !in {Test, Take, Advance, Print, Free, CUnlock})
    ensures Can(s, ConsumerStep) <==>
            s.cpc != Asleep && (s.cpc in {CLock, Awake} ==> s.ppc !in {Link, Publish, Signal, Unlock})
    ensures Can(s, SpuriousWakeup) <==> s.cpc == Asleep
  {
    InitInv(n);
    RunKeepsInv(Init(n), actions, s);
    OneStep(s, ProducerStep);
    OneStep(s, ConsumerStep);
    OneStep(s, SpuriousWakeup);
  }

  /** What a thread's next step is: the producer's six for every number, the consumer's seven for
      every number, and its way to sleep on an empty list and back. */
  lemma ProgramOrder(s: State, t: State, a: Action)
    requires Run(s, [a], t)
    ensures a == ProducerStep ==>
      (s.ppc, t.ppc) in {(Make, Lock), (Lock, Link), (Link, Publish), (Publish, Signal), (Signal, Unlock),
                         (Unlock, Make), (Unlock, Done)}
    ensures a == ConsumerStep ==>
      (s.cpc, t.cpc) in {(CLock, Test), (Test, Take), (Take, Advance), (Advance, Print), (Print, Free),
                         (Free, CUnlock), (CUnlock, CLock), (Test, Asleep), (Awake, Test)}
    ensures a == SpuriousWakeup ==> (s.cpc, t.cpc) == (Asleep, Awake)
    ensures a == ProducerStep ==> t.cpc == if s.ppc == Signal && s.cpc == Asleep then Awake else s.cpc
    ensures a != ProducerStep ==> t.ppc == s.ppc && t.i == s.i && t.pnode == s.pnode
  {
    assert Run(Step(s, a), [a][1..], t);
  }

  /** A run with a wakeup for no reason: the consumer tests the empty list and sleeps again. */
  lemma WakesForNothing(n: nat)
    ensures exists s ::
      Run(Init(n), [ConsumerStep, ConsumerStep, SpuriousWakeup, ConsumerStep, ConsumerStep], s) && s.cpc == Asleep
  {
    var s0 := Init(n);
    var s1 := Consume(s0);
    var s2 := Consume(s1);
    var s3 := s2.(cpc := Awake);
    var s4 := Consume(s3);
    var s5 := Consume(s4);
    var actions := [ConsumerStep, ConsumerStep, SpuriousWakeup, ConsumerStep, ConsumerStep];
    assert Run(s5, actions[5..], s5);
    assert Run(s4, actions[4..], s5);
    assert Run(s3, actions[3..], s5);
    assert Run(s2, actions[2..], s5);
    assert Run(s1, actions[1..], s5);
    assert Run(s0, actions, s5);
  }

  // ---------- Progress ----------

  /** Steps the producer has behind it with the current number, weighed with what they make
      possible: a node on the list costs the consumer seven steps, a signal four. */
  function ProducerDone(pc: ProducerPc): nat {
    match pc
    case Make => 0
    case Lock => 1
    case Link => 2
    case Publish => 3
    case Signal => 11
    case Unlock => 16
    case Done => 0
  }

  function ConsumerLeft(pc: ConsumerPc): nat {
    match pc
    case Asleep => 0
    case Advance => 1
    case Take => 2
    case Test => 3
    case CLock => 4
    case Awake => 4
    case CUnlock => 5
    case Free => 6
    case Print => 7
  }

  /** An upper bound on the steps left without spurious wakeups. */
  function Rank(s: State): int {
    17 * (s.n - s.i) - ProducerDone(s.ppc) + ConsumerLeft(s.cpc) + 7 * |s.head|
  }

  lemma StepLowersRank(s: State, a: Action)
    requires Exclusive(s) && Pointers(s) && Enabled(s, a)
    ensures Rank(s) >= 0
    ensures if a == SpuriousWakeup then Rank(Step(s, a)) == Rank(s) + 4 else Rank(Step(s, a)) < Rank(s)
  {
  }

  function Wakeups(actions: seq<Action>): nat {
    if actions == [] then 0 else (if actions[0] == SpuriousWakeup then 1 else 0) + Wakeups(actions[1..])
  }

  lemma {:induction false} RunIsBounded(s: State, actions: seq<Action>, t: State)
    requires Inv(s) && Run(s, actions, t)
    ensures |actions| <= Rank(s) - Rank(t) + 5 * Wakeups(actions)
    ensures Rank(t) >= 0
    decreases |actions|
  {
    if actions == [] {
      assert Rank(s) >= 0;
    } else {
      StepLowersRank(s, actions[0]);
      InvKept(s, actions[0]);
      RunIsBounded(Step(s, actions[0]), actions[1..], t);
    }
  }

  /** Every run is short, in proportion to the items and the spurious wakeups, and can only
      stop with everything delivered: however the threads are scheduled, no item stays behind. */
  lemma EveryRunDelivers(n: nat, actions: seq<Action>, s: State)
    requires Run(Init(n), actions, s)
    ensures |actions| <= 17 * n + 4 + 5 * Wakeups(actions)
    ensures !Enabled(s, ProducerStep) && !Enabled(s, ConsumerStep) ==> multiset(s.printed) == multiset(UpTo(n))
  {
    InitInv(n);
    RunIsBounded(Init(n), actions, s);
    RunKeepsInv(Init(n), actions, s);
    StuckIffDelivered(n, actions, s);
  }

  // ---------- Which orders can be printed ----------

  lemma {:induction false} RunsJoin(s: State, a: seq<Action>, t: State, b: seq<Action>, u: State)
    requires Run(s, a, t) && Run(t, b, u)
    ensures Run(s, a + b, u)
    decreases |a|
  {
    if a == [] {
      assert a + b == b;
    } else {
      RunsJoin(Step(s, a[0]), a[1..], t, b, u);
      assert (a + b)[1..] == a[1..] + b;
    }
  }

  /** Both threads between two rounds: the producer has pushed `pushed` numbers. */
  predicate Resting(s: State, n: nat, pushed: nat, list: seq<nat>, out: seq<nat>) {
    && s.n == n && s.owner == Nobody && s.head == list && s.printed == out
    && s.i == pushed <= n && s.ppc == (if pushed == n then Done else Make)
    && s.cpc == CLock
  }

  lemma PushRound(s: State, n: nat, pushed: nat, list: seq<nat>, out: seq<nat>) returns (actions: seq<Action>, t: State)
    requires Resting(s, n, pushed, list, out) && pushed < n
    ensures Run(s, actions, t) && Resting(t, n, pushed + 1, [pushed] + list, out)
  {
    var s1 := Produce(s);
    var s2 := Produce(s1);
    var s3 := Produce(s2);
    var s4 := Produce(s3);
    var s5 := Produce(s4);
    t := Produce(s5);
    actions := [ProducerStep, ProducerStep, ProducerStep, ProducerStep, ProducerStep, ProducerStep];
    assert Run(t, actions[6..], t);
    assert Run(s5, actions[5..], t);
    assert Run(s4, actions[4..], t);
    assert Run(s3, actions[3..], t);
    assert Run(s2, actions[2..], t);
    assert Run(s1, actions[1..], t);
  }

  lemma PopRound(s: State, n: nat, pushed: nat, list: seq<nat>, out: seq<nat>) returns (actions: seq<Action>, t: State)
    requires Resting(s, n, pushed, list, out) && list != []
    ensures Run(s, actions, t) && Resting(t, n, pushed, list[1..], out + [list[0]])
  {
    var s1 := s.(cpc := Advance, owner := Consumer, cnode := list);
    RunThree(s, s1);
    var s2 := s1.(cpc := CUnlock, head := list[1..], printed := out + [list[0]], freed := s.freed + [list[0]]);
    RunThree(s1, s2);
    t := Consume(s2);
    assert Run(t, [ConsumerStep][1..], t);
    actions := ThreeSteps() + ThreeSteps() + [ConsumerStep];
    RunsJoin(s, ThreeSteps(), s1, ThreeSteps(), s2);
    RunsJoin(s, ThreeSteps() + ThreeSteps(), s2, [ConsumerStep], t);
  }

  function ThreeSteps(): seq<Action> {
    [ConsumerStep, ConsumerStep, ConsumerStep]
  }

  lemma RunThree(s: State, t: State)
    requires Enabled(s, ConsumerStep) && Enabled(Consume(s), ConsumerStep) && Enabled(Consume(Consume(s)), ConsumerStep)
    requires t == Consume(Consume(Consume(s)))
    ensures Run(s, ThreeSteps(), t)
  {
    assert Run(t, ThreeSteps()[3..], t);
    assert Run(Consume(Consume(s)), ThreeSteps()[2..], t);
    assert Run(Consume(s), ThreeSteps()[1..], t);
  }

  lemma CountOneMore(s: seq<nat>, x: nat, v: nat)
    ensures multiset(s + [x])[v] == multiset(s)[v] + if x == v then 1 else 0
  {
    assert multiset(s + [x]) == multiset(s) + multiset([x]);
  }

  lemma {:induction false} UpToHasEachOnce(n: nat, v: nat)
    ensures multiset(UpTo(n))[v] == if v < n then 1 else 0
  {
    if n > 0 {
      UpToHasEachOnce(n - 1, v);
      CountOneMore(UpTo(n - 1), n - 1, v);
    }
  }

  /** In an order of the numbers below `n`, a number stands in one place. */
  lemma StandsOnce(out: seq<nat>, n: nat, m: nat)
    requires multiset(out) == multiset(UpTo(n)) && m < |out|
    ensures out[m] < n && out[m] !in out[..m]
  {
    assert out == out[..m] + [out[m]] + out[m + 1..];
    assert multiset(out) == multiset(out[..m]) + multiset{out[m]} + multiset(out[m + 1..]);
    UpToHasEachOnce(n, out[m]);
  }

  /** A number that does not stand before place `m` nor there stands after it. */
  lemma StandsLater(out: seq<nat>, n: nat, m: nat, v: nat) returns (l: nat)
    requires multiset(out) == multiset(UpTo(n)) && m < |out|
    requires v < n && v !in out[..m] && v != out[m]
    ensures m < l < |out| && out[l] == v
  {
    UpToHasEachOnce(n, v);
    assert v in multiset(out);
    l :| 0 <= l < |out| && out[l] == v;
    forall i | 0 <= i < m ensures out[i] != v {
      assert out[..m][i] == out[i];
    }
  }

  lemma ListedNotTaken(out: seq<nat>, list: seq<nat>, pushed: nat, v: nat)
    requires multiset(out) + multiset(list) == multiset(UpTo(pushed)) && v < pushed
    ensures v in list <==> v !in out
  {
    UpToHasEachOnce(pushed, v);
    assert multiset(out)[v] + multiset(list)[v] == 1;
    assert v in list <==> v in multiset(list);
    assert v in out <==> v in multiset(out);
  }

  lemma AvoidsAt(out: seq<nat>, j: nat, k: nat, l: nat)
    requires Avoids(out) && j < k < l < |out|
    ensures out[l] <= out[k] || out[j] <= out[l]
  {
  }

  /** What has been pushed and not taken is at most the next number of an order without the
      forbidden pattern: the last number pushed was taken, and is larger. */
  lemma AtMostNext(out: seq<nat>, n: nat, m: nat, pushed: nat, v: nat)
    requires multiset(out) == multiset(UpTo(n)) && Avoids(out) && m < |out|
    requires v < pushed <= n && v !in out[..m] && pushed - 1 in out[..m]
    ensures v <= out[m]
  {
    if v != out[m] {
      var l := StandsLater(out, n, m, v);
      var j :| 0 <= j < m && out[..m][j] == pushed - 1;
      AvoidsAt(out, j, m, l);
    }
  }

  /** So the next number is at the head of the list as soon as it has been pushed. */
  lemma NextIsHead(out: seq<nat>, n: nat, m: nat, list: seq<nat>, pushed: nat)
    requires multiset(out) == multiset(UpTo(n)) && Avoids(out) && m < |out|
    requires multiset(out[..m]) + multiset(list) == multiset(UpTo(pushed)) && out[m] < pushed <= n
    requires Decreasing(list) && forall x | 0 <= x < |list| :: list[x] < pushed
    requires pushed - 1 in out[..m] || pushed - 1 == out[m]
    ensures list != [] && list[0] == out[m]
  {
    StandsOnce(out, n, m);
    ListedNotTaken(out[..m], list, pushed, out[m]);
    ListedNotTaken(out[..m], list, pushed, list[0]);
    if pushed - 1 in out[..m] {
      AtMostNext(out, n, m, pushed, list[0]);
    }
  }

  /** The producer runs until the number `x` is on the list. */
  lemma {:induction false} PushUpTo(s: State, n: nat, pushed: nat, list: seq<nat>, out: seq<nat>, x: nat)
    returns (actions: seq<Action>, t: State, more: seq<nat>)
    requires Resting(s, n, pushed, list, out) && x < n
    ensures Run(s, actions, t) && Resting(t, n, if pushed <= x then x + 1 else pushed, more, out)
    decreases n - pushed
  {
    if pushed <= x {
      var a, s1 := PushRound(s, n, pushed, list, out);
      var b, u, m := PushUpTo(s1, n, pushed + 1, [pushed] + list, out, x);
      RunsJoin(s, a, s1, b, u);
      actions, t, more := a + b, u, m;
    } else {
      actions, t, more := [], s, list;
    }
  }

  /** The first `m` numbers of the order can be printed, with no more pushed than that takes. */
  lemma {:induction false} PrintFirst(n: nat, out: seq<nat>, m: nat)
    returns (actions: seq<Action>, s: State, pushed: nat, list: seq<nat>)
    requires multiset(out) == multiset(UpTo(n)) && Avoids(out) && m <= |out|
    ensures Run(Init(n), actions, s) && Resting(s, n, pushed, list, out[..m])
    ensures if m == 0 then pushed == 0 else pushed - 1 in out[..m]
  {
    if m == 0 {
      actions, s, pushed, list := [], Init(n), 0, [];
    } else {
      var a, s1, pushed1, list1 := PrintFirst(n, out, m - 1);
      StandsOnce(out, n, m - 1);
      var b;
      b, s, pushed, list := PrintNext(n, out, m - 1, a, s1, pushed1, list1);
      RunsJoin(Init(n), a, s1, b, s);
      actions := a + b;
    }
  }

  lemma PrintNext(n: nat, out: seq<nat>, m: nat, before: seq<Action>, s: State, pushed: nat, list: seq<nat>)
    returns (actions: seq<Action>, t: State, pushed1: nat, list1: seq<nat>)
    requires multiset(out) == multiset(UpTo(n)) && Avoids(out) && m < |out| && out[m] < n
    requires Run(Init(n), before, s) && Resting(s, n, pushed, list, out[..m])
    requires if m == 0 then pushed == 0 else pushed - 1 in out[..m]
    ensures Run(s, actions, t) && Resting(t, n, pushed1, list1, out[..m + 1]) && pushed1 - 1 in out[..m + 1]
  {
    var a, s1, more := PushUpTo(s, n, pushed, list, out[..m], out[m]);
    pushed1 := if pushed <= out[m] then out[m] + 1 else pushed;
    RunsJoin(Init(n), before, s, a, s1);
    NextListed(n, out, m, before + a, s1, pushed1, more);
    var b;
    b, t := PopRound(s1, n, pushed1, more, out[..m]);
    list1 := more[1..];
    RunsJoin(s, a, s1, b, t);
    actions := a + b;
    assert out[..m + 1] == out[..m] + [out[m]];
  }

  lemma NextListed(n: nat, out: seq<nat>, m: nat, actions: seq<Action>, s: State, pushed: nat, list: seq<nat>)
    requires multiset(out) == multiset(UpTo(n)) && Avoids(out) && m < |out|
    requires Run(Init(n), actions, s) && Resting(s, n, pushed, list, out[..m])
    requires out[m] < pushed && (pushed - 1 in out[..m] || pushed - 1 == out[m])
    ensures list != [] && list[0] == out[m]
  {
    RestingStacked(n, actions, s, pushed, list, out[..m]);
    NextIsHead(out, n, m, list, pushed);
  }

  lemma RestingStacked(n: nat, actions: seq<Action>, s: State, pushed: nat, list: seq<nat>, out: seq<nat>)
    requires Run(Init(n), actions, s) && Resting(s, n, pushed, list, out)
    ensures multiset(out) + multiset(list) == multiset(UpTo(pushed)) && Decreasing(list)
    ensures (forall x | 0 <= x < |list| :: list[x] < pushed) && s.freed == out
  {
    InitInv(n);
    RunKeepsInv(Init(n), actions, s);
    assert Taken(s) == out && Pushed(s) == pushed;
  }

  ghost predicate CanPrint(n: nat, out: seq<nat>) {
    exists actions, s :: Run(Init(n), actions, s) && Delivered(s) && s.printed == out
  }

  /** The orders the consumer can print are exactly those in which no number is followed by
      two smaller ones in rising order: some interleaving prints every such order of the
      numbers below N, and no interleaving that delivers them prints another. */
  lemma PrintedOrdersAre(n: nat, out: seq<nat>)
    ensures CanPrint(n, out) <==> multiset(out) == multiset(UpTo(n)) && Avoids(out)
  {
    if CanPrint(n, out) {
      var actions, s :| Run(Init(n), actions, s) && Delivered(s) && s.printed == out;
      EveryRunIsSafe(n, actions, s);
      InitInv(n);
      RunKeepsInv(Init(n), actions, s);
    }
    if multiset(out) == multiset(UpTo(n)) && Avoids(out) {
      var actions, s := DeliverInOrder(n, out);
      assert Run(Init(n), actions, s) && Delivered(s) && s.printed == out;
    }
  }

  lemma DeliverInOrder(n: nat, out: seq<nat>) returns (actions: seq<Action>, s: State)
    requires multiset(out) == multiset(UpTo(n)) && Avoids(out)
    ensures Run(Init(n), actions, s) && Delivered(s) && s.printed == out
  {
    var a, s1, pushed, list := PrintFirst(n, out, |out|);
    assert out[..|out|] == out;
    RestingStacked(n, a, s1, pushed, list, out);
    AllPushed(n, out, list, pushed);
    var b := [ConsumerStep, ConsumerStep];
    s := s1.(cpc := Asleep);
    assert Run(s, b[2..], s);
    assert Run(Consume(s1), b[1..], s);
    RunsJoin(Init(n), a, s1, b, s);
    actions := a + b;
  }

  lemma AllPushed(n: nat, out: seq<nat>, list: seq<nat>, pushed: nat)
    requires multiset(out) == multiset(UpTo(n)) && pushed <= n
    requires multiset(out) + multiset(list) == multiset(UpTo(pushed))
    ensures pushed == n && list == []
  {
    assert |multiset(UpTo(n)) + multiset(list)| == n + |list|;
    assert |multiset(UpTo(pushed))| == pushed;
  }
}
