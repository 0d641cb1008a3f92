/** What whole runs of the message server amount to. */
module SmiServerRuns {
  import opened CStrings
  import opened SmiServer

  /** The server just opened, with no client yet. */
  function Fresh(first: int): (s: Server)
    ensures |s.clients| == MAX_CLIENTS
  {
    Server(seq(MAX_CLIENTS, _ => Client(-1, 0)), first, [], [])
  }

  // ---------- The simple server: who is served, and with what ----------

  /** The distinct processes that sent a request when their FIFO could be opened, in order of
      their first such request. */
  function Seen(arrivals: seq<Arrival>): seq<int> {
    if arrivals == [] then []
    else
      var n := |arrivals| - 1;
      var before, a := Seen(arrivals[..n]), arrivals[n];
      if !a.opens || PidOf(a) in before then before else before + [PidOf(a)]
  }

  /** The first 20 of them are served. */
  function Admitted(seen: seq<int>): seq<int> {
    seen[..Min(|seen|, MAX_CLIENTS)]
  }

  /** The process that holds the next slot without a descriptor, or 0: the last one since the
      slot came up whose FIFO could not be opened. */
  function Waiting(arrivals: seq<Arrival>): int {
    if arrivals == [] then 0
    else
      var n := |arrivals| - 1;
      var before, waiting, a := Admitted(Seen(arrivals[..n])), Waiting(arrivals[..n]), arrivals[n];
      if PidOf(a) in before || |before| == MAX_CLIENTS then waiting
      else if a.opens then 0
      else if SkipsNext(before, waiting, PidOf(a)) then waiting
      else PidOf(a)
  }

  /** Process 0 finds a later slot: the next one is held for another process, and the untouched
      ones after it hold 0. */
  predicate SkipsNext(served: seq<int>, waiting: int, pid: int) {
    pid == 0 && waiting != 0 && |served| + 1 < MAX_CLIENTS
  }

  /** A request opens a slot before the one that is held for another process. */
  predicate Overtakes(before: seq<Arrival>, a: Arrival) {
    var served := Admitted(Seen(before));
    a.opens && PidOf(a) !in served && SkipsNext(served, Waiting(before), PidOf(a))
  }

  predicate Overtaken(arrivals: seq<Arrival>) {
    arrivals != [] &&
    var n := |arrivals| - 1;
    Overtaken(arrivals[..n]) || Overtakes(arrivals[..n], arrivals[n])
  }

  function IndexOf(s: seq<int>, x: int): (i: nat)
    requires x in s
    ensures i < |s| && s[i] == x
  {
    if s[0] == x then 0 else IndexOf(s[1..], x) + 1
  }

  /** The replies: every request of a process from the one on that got it served, in order, in
      upper case, to the descriptor that process has: the k-th served has the k-th one. */
  function Replies(first: int, arrivals: seq<Arrival>): seq<(int, Message)> {
    if arrivals == [] then []
    else
      var n := |arrivals| - 1;
      var served, a := Admitted(Seen(arrivals)), arrivals[n];
      Replies(first, arrivals[..n]) +
        (if PidOf(a) in served then [Reply(first, served, a)] else [])
  }

  function Reply(first: int, served: seq<int>, a: Arrival): (int, Message)
    requires PidOf(a) in served
  {
    (first + IndexOf(served, PidOf(a)), Answer(a.message))
  }

  function SimpleSlot(first: int, served: seq<int>, waiting: int, i: nat): Client {
    if i < |served| then Client(first + i, served[i]) else Client(-1, if i == |served| then waiting else 0)
  }

  function Table(first: int, served: seq<int>, waiting: int): (clients: seq<Client>)
    ensures |clients| == MAX_CLIENTS
  {
    seq(MAX_CLIENTS, i requires 0 <= i < MAX_CLIENTS => SimpleSlot(first, served, waiting, i))
  }

  function Connections(first: int, served: seq<int>): seq<(int, int)> {
    if served == [] then []
    else
      var n := |served| - 1;
      Connections(first, served[..n]) + [(first + n, served[n])]
  }

  ghost predicate Distinct(s: seq<int>) {
    forall i, j | 0 <= i < j < |s| :: s[i] != s[j]
  }

  lemma {:induction false} SeenDistinct(arrivals: seq<Arrival>)
    ensures Distinct(Seen(arrivals))
  {
    if arrivals != [] {
      SeenDistinct(arrivals[..|arrivals| - 1]);
    }
  }

  lemma IndexIs(s: seq<int>, i: nat)
    requires Distinct(s) && i < |s|
    ensures IndexOf(s, s[i]) == i
  {
  }

  lemma FoundServed(first: nat, served: seq<int>, waiting: int, pid: int)
    requires Distinct(served) && |served| <= MAX_CLIENTS && pid in served
    ensures Found(Table(first, served, waiting), pid) == (Table(first, served, waiting), IndexOf(served, pid))
  {
    var clients, i := Table(first, served, waiting), IndexOf(served, pid);
    assert clients[i] == Client(first + i, pid);
    var n := SlotOf(clients, pid, 0);
    FoundMeans(clients, pid);
    assert n <= i;
    IndexIs(served, n);
  }

  lemma NotServed(first: nat, served: seq<int>, waiting: int, pid: int)
    requires |served| <= MAX_CLIENTS && pid !in served
    ensures forall j | 0 <= j < |served| ::
              Table(first, served, waiting)[j].fd != -1 && Table(first, served, waiting)[j].pid != pid
  {
    assert forall j | 0 <= j < |served| :: Table(first, served, waiting)[j] == Client(first + j, served[j]);
  }

  /** A new process gets the next slot, if there is one. */
  lemma FoundNew(first: nat, served: seq<int>, waiting: int, pid: int)
    requires |served| <= MAX_CLIENTS && pid !in served && !SkipsNext(served, waiting, pid)
    ensures Found(Table(first, served, waiting), pid) ==
            if |served| < MAX_CLIENTS then (Table(first, served, pid), |served|)
            else (Table(first, served, waiting), -1)
  {
    var clients, n := Table(first, served, waiting), |served|;
    FoundMeans(clients, pid);
    NotServed(first, served, waiting, pid);
    if n < MAX_CLIENTS {
      assert clients[n] == Client(-1, waiting);
      assert forall j | n < j < MAX_CLIENTS :: clients[j] == Client(-1, 0);
      assert Table(first, served, pid) == clients[n := Client(-1, pid)];
      assert waiting == pid ==> clients[n := Client(-1, pid)] == clients;
    }
  }

  /** Unless the next one is held for another process and the new one is process 0. */
  lemma FoundLater(first: nat, served: seq<int>, waiting: int)
    requires 0 !in served && SkipsNext(served, waiting, 0)
    ensures Found(Table(first, served, waiting), 0) == (Table(first, served, waiting), |served| + 1)
  {
    FoundMeans(Table(first, served, waiting), 0);
    NotServed(first, served, waiting, 0);
    assert Table(first, served, waiting)[|served|] == Client(-1, waiting);
    assert Table(first, served, waiting)[|served| + 1] == Client(-1, 0);
  }

  /** A message to a process with an open descriptor is written there. */
  lemma RepliedTo(s: Server, m: Message, n: nat)
    requires Found(s.clients, ToPid(m.id1)) == (s.clients, n) && n < |s.clients| && s.clients[n].fd != -1
    ensures Replied(s, m) == s.(sent := s.sent + [(s.clients[n].fd, m)])
  {
  }

  lemma ReplyToNew(first: int, served: seq<int>, a: Arrival)
    requires Distinct(served + [PidOf(a)])
    ensures Reply(first, served + [PidOf(a)], a) == (first + |served|, Answer(a.message))
  {
    var more := served + [PidOf(a)];
    IndexIs(more, |served|);
    assert more[|served|] == PidOf(a);
    assert IndexOf(more, PidOf(a)) == |served|;
  }

  /** A message to a process without a descriptor changes nothing but the table. */
  lemma NotReplied(s: Server, a: Arrival, n: nat)
    requires Received(s, a).1 == n && n < |s.clients| && Received(s, a).0.clients[n].fd == -1
    ensures Handled(s, a) == Received(s, a).0
  {
    SlotIsKept(s, a);
  }

  /** One request more in the simple description. */
  lemma SimpleNext(first: nat, before: seq<Arrival>, a: Arrival)
    ensures var served, pid := Admitted(Seen(before)), PidOf(a);
            var more := if pid in served || |served| == MAX_CLIENTS || !a.opens then served else served + [pid];
            && Distinct(served) && Distinct(more) && |more| <= MAX_CLIENTS
            && Admitted(Seen(before + [a])) == more
            && Replies(first, before + [a]) == Replies(first, before) +
                 (if pid in more then [Reply(first, more, a)] else [])
  {
    assert (before + [a])[..|before|] == before;
    SeenDistinct(before);
    SeenDistinct(before + [a]);
    var seen, served, pid := Seen(before), Admitted(Seen(before)), PidOf(a);
    if pid in served {
      var i := IndexOf(served, pid);
      assert seen[i] == pid;
    }
    assert |seen| < MAX_CLIENTS ==> served == seen;
    assert |seen| >= MAX_CLIENTS ==> Admitted(seen + [pid]) == served;
    assert |seen| < MAX_CLIENTS ==> Admitted(seen + [pid]) == seen + [pid];
  }

  lemma WaitingNext(before: seq<Arrival>, a: Arrival)
    ensures var served, waiting, pid := Admitted(Seen(before)), Waiting(before), PidOf(a);
            Waiting(before + [a]) ==
            if pid in served || |served| == MAX_CLIENTS then waiting
            else if a.opens then 0
            else if SkipsNext(served, waiting, pid) then waiting
            else pid
  {
    assert (before + [a])[..|before|] == before;
  }

  lemma ConnectionsMore(first: int, served: seq<int>, pid: int)
    ensures Connections(first, served + [pid]) == Connections(first, served) + [(first + |served|, pid)]
  {
    assert (served + [pid])[..|served|] == served;
  }

  // ---------- Who is served, in every run ----------

  predicate HasSlot(clients: seq<Client>, pid: int) {
    var n := SlotOf(clients, pid, 0);
    n != -1 && clients[n].fd != -1
  }

  /** Wherever their slots are: the slots with a descriptor are those of the processes served, each
      with its own descriptor, and it is found in its slot. */
  ghost predicate Serves(first: int, s: Server, served: seq<int>) {
    && Distinct(served) && |s.clients| == MAX_CLIENTS && s.nextFd == first + |served|
    && |OpenFds(s.clients)| == |served|
    && (forall i | 0 <= i < |s.clients| && s.clients[i].fd != -1 ::
          s.clients[i].pid in served && s.clients[i].fd == first + IndexOf(served, s.clients[i].pid))
    && (forall pid | pid in served :: HasSlot(s.clients, pid))
  }

  lemma {:induction false} OpenFdsFree(clients: seq<Client>)
    ensures |OpenFds(clients)| <= |clients|
    ensures |OpenFds(clients)| == |clients| <==> forall i | 0 <= i < |clients| :: clients[i].fd != -1
  {
    if clients != [] {
      OpenFdsFree(clients[1..]);
      if forall i | 0 <= i < |clients[1..]| :: clients[1..][i].fd != -1 {
        assert forall i | 0 < i < |clients| :: clients[i] == clients[1..][i - 1];
      } else {
        var i :| 0 <= i < |clients[1..]| && clients[1..][i].fd == -1;
        assert clients[i + 1].fd == -1;
      }
    }
  }

  lemma {:induction false} OpenFdsChanged(clients: seq<Client>, n: nat, c: Client)
    requires n < |clients| && clients[n].fd == -1
    ensures |OpenFds(clients[n := c])| == |OpenFds(clients)| + if c.fd != -1 then 1 else 0
  {
    if n == 0 {
      assert clients[0 := c][1..] == clients[1..];
    } else {
      assert clients[n := c][1..] == clients[1..][n - 1 := c];
      OpenFdsChanged(clients[1..], n - 1, c);
    }
  }

  /** A slot without a descriptor given to a process leaves every other process its slot. */
  lemma OthersKeepSlots(clients: seq<Client>, n: nat, c: Client, pid: int)
    requires n < |clients| && clients[n].fd == -1 && pid != c.pid && HasSlot(clients, pid)
    ensures HasSlot(clients[n := c], pid)
  {
    var m, after := SlotOf(clients, pid, 0), clients[n := c];
    assert m != n && after[m] == clients[m];
    assert forall j | 0 <= j < m :: after[j].pid != pid;
    assert SlotOf(after, pid, 0) == m;
  }

  /** A new process finds a slot, without a descriptor, exactly while fewer than 20 are served. */
  lemma NewFinds(first: int, s: Server, served: seq<int>, pid: int)
    requires Serves(first, s, served) && pid !in served
    ensures var (clients, n) := Found(s.clients, pid);
            && (n == -1 <==> |served| == MAX_CLIENTS) && |served| <= MAX_CLIENTS
            && (n != -1 ==> s.clients[n].fd == -1 && clients == s.clients[n := Client(-1, pid)]
                            && forall j | 0 <= j < n :: s.clients[j].pid != pid)
  {
    FoundMeans(s.clients, pid);
    OpenFdsFree(s.clients);
    var own, free := SlotOf(s.clients, pid, 0), FreeSlot(s.clients, 0);
    if own != -1 {
      assert s.clients[own].fd == -1;
      assert s.clients == s.clients[own := Client(-1, pid)];
    }
  }

  /** A slot changed for a process that is not served and stays so. */
  lemma StillServes(first: int, s: Server, served: seq<int>, n: nat, pid: int)
    requires Serves(first, s, served) && pid !in served && n < |s.clients| && s.clients[n].fd == -1
    ensures Serves(first, s.(clients := s.clients[n := Client(-1, pid)]), served)
  {
    OpenFdsChanged(s.clients, n, Client(-1, pid));
    forall q | q in served ensures HasSlot(s.clients[n := Client(-1, pid)], q) {
      OthersKeepSlots(s.clients, n, Client(-1, pid), q);
    }
  }

  lemma {:induction false} IndexOfMore(served: seq<int>, pid: int, q: int)
    requires q in served
    ensures IndexOf(served + [pid], q) == IndexOf(served, q)
  {
    if served[0] != q {
      assert (served + [pid])[1..] == served[1..] + [pid];
      IndexOfMore(served[1..], pid, q);
    }
  }

  /** A slot with a new descriptor for a new process. */
  lemma ServesMore(first: nat, s: Server, served: seq<int>, n: nat, pid: int)
    requires Serves(first, s, served) && pid !in served && n < |s.clients| && s.clients[n].fd == -1
    requires forall j | 0 <= j < n :: s.clients[j].pid != pid
    ensures Serves(first, s.(clients := s.clients[n := Client(s.nextFd, pid)], nextFd := s.nextFd + 1), served + [pid])
  {
    var c, more := Client(s.nextFd, pid), served + [pid];
    var after := s.clients[n := c];
    OpenFdsChanged(s.clients, n, c);
    assert more[|served|] == pid && Distinct(more);
    IndexIs(more, |served|);
    forall q | q in more ensures HasSlot(after, q) {
      if q == pid {
        assert after[n] == c && SlotOf(after, pid, 0) == n;
      } else {
        assert q in served;
        OthersKeepSlots(s.clients, n, c, q);
      }
    }
    forall i | 0 <= i < |after| && after[i].fd != -1
      ensures after[i].pid in more && after[i].fd == first + IndexOf(more, after[i].pid)
    {
      if i != n {
        IndexOfMore(served, pid, after[i].pid);
      }
    }
  }

  lemma ServedReplies(first: nat, s: Server, served: seq<int>, a: Arrival)
    requires Serves(first, s, served) && PidOf(a) in served
    ensures Handled(s, a) == s.(sent := s.sent + [Reply(first, served, a)])
  {
    FoundMeans(s.clients, PidOf(a));
    var n := SlotOf(s.clients, PidOf(a), 0);
    assert HasSlot(s.clients, PidOf(a));
    assert Received(s, a) == (s, n);
    RepliedTo(s, Answer(a.message), n);
  }

  lemma NewUnopened(first: nat, s: Server, served: seq<int>, a: Arrival)
    requires Serves(first, s, served) && PidOf(a) !in served && |served| < MAX_CLIENTS && !a.opens
    ensures var after := Handled(s, a);
            && Serves(first, after, served)
            && (after.sent, after.connected, after.nextFd) == (s.sent, s.connected, s.nextFd)
  {
    NewFinds(first, s, served, PidOf(a));
    var n := Found(s.clients, PidOf(a)).1;
    StillServes(first, s, served, n, PidOf(a));
    NotReplied(s, a, n);
  }

  lemma NewOpened(first: nat, s: Server, served: seq<int>, a: Arrival)
    requires Serves(first, s, served) && PidOf(a) !in served && |served| < MAX_CLIENTS && a.opens
    ensures var after, more := Handled(s, a), served + [PidOf(a)];
            && Serves(first, after, more) && PidOf(a) in more
            && after.connected == s.connected + [(first + |served|, PidOf(a))]
            && after.sent == s.sent + [Reply(first, more, a)]
  {
    var pid := PidOf(a);
    NewFinds(first, s, served, pid);
    var n := Found(s.clients, pid).1;
    ServesMore(first, s, served, n, pid);
    var s1 := Received(s, a).0;
    SlotIsKept(s, a);
    assert s1.clients == s.clients[n := Client(s.nextFd, pid)];
    RepliedTo(s1, Answer(a.message), n);
    assert Distinct(served + [pid]);
    ReplyToNew(first, served, a);
  }

  lemma NewRefused(first: nat, s: Server, served: seq<int>, a: Arrival)
    requires Serves(first, s, served) && PidOf(a) !in served && |served| == MAX_CLIENTS
    ensures Handled(s, a) == s
  {
    NewFinds(first, s, served, PidOf(a));
  }

  /** The processes served after a request. */
  function ServedAfter(served: seq<int>, a: Arrival): seq<int> {
    if PidOf(a) in served || |served| == MAX_CLIENTS || !a.opens then served else served + [PidOf(a)]
  }

  lemma HandledServes(first: nat, s: Server, served: seq<int>, a: Arrival)
    requires Serves(first, s, served)
    ensures var after, more := Handled(s, a), ServedAfter(served, a);
            && Serves(first, after, more)
            && after.connected == s.connected + (if more == served then [] else [(first + |served|, PidOf(a))])
            && after.sent == s.sent + (if PidOf(a) in more then [Reply(first, more, a)] else [])
  {
    OpenFdsFree(s.clients);
    if PidOf(a) in served {
      ServedReplies(first, s, served, a);
    } else if |served| == MAX_CLIENTS {
      NewRefused(first, s, served, a);
    } else if a.opens {
      NewOpened(first, s, served, a);
      assert |served + [PidOf(a)]| != |served|;
    } else {
      NewUnopened(first, s, served, a);
    }
  }

  /** The requests that are answered: every one of a process that is served by then, in order. */
  function Answered(arrivals: seq<Arrival>): seq<Arrival> {
    if arrivals == [] then []
    else
      var n := |arrivals| - 1;
      Answered(arrivals[..n]) + if PidOf(arrivals[n]) in Admitted(Seen(arrivals)) then [arrivals[n]] else []
  }

  /** The messages sent answer the requests, one by one: each goes to the descriptor that its
      process has, and is the request with its small letters in capitals. */
  ghost predicate AnswersEach(first: int, served: seq<int>, requests: seq<Arrival>, sent: seq<(int, Message)>) {
    |sent| == |requests| && forall j | 0 <= j < |sent| :: IsAnswer(first, served, requests[j], sent[j])
  }

  predicate IsAnswer(first: int, served: seq<int>, a: Arrival, reply: (int, Message)) {
    var m, r := a.message, reply.1;
    && PidOf(a) in served && reply.0 == first + IndexOf(served, PidOf(a))
    && (r.mtype, r.id1, r.id2) == (m.mtype, m.id1, m.id2) && Capitals(m.data, r.data)
  }

  lemma AnswersMore(first: int, served: seq<int>, pid: int, requests: seq<Arrival>, sent: seq<(int, Message)>)
    requires AnswersEach(first, served, requests, sent)
    ensures AnswersEach(first, served + [pid], requests, sent)
  {
    forall j | 0 <= j < |sent| ensures IsAnswer(first, served + [pid], requests[j], sent[j]) {
      assert IsAnswer(first, served, requests[j], sent[j]);
      IndexOfMore(served, pid, PidOf(requests[j]));
    }
  }

  lemma AnswersOne(first: int, served: seq<int>, requests: seq<Arrival>, sent: seq<(int, Message)>, a: Arrival)
    requires AnswersEach(first, served, requests, sent) && PidOf(a) in served
    ensures AnswersEach(first, served, requests + [a], sent + [Reply(first, served, a)])
  {
    AnswerIs(a.message);
    assert IsAnswer(first, served, a, Reply(first, served, a));
  }

  lemma {:induction false} RepliesAnswer(first: nat, arrivals: seq<Arrival>)
    ensures AnswersEach(first, Admitted(Seen(arrivals)), Answered(arrivals), Replies(first, arrivals))
  {
    if arrivals != [] {
      var before, a := arrivals[..|arrivals| - 1], arrivals[|arrivals| - 1];
      var served, more := Admitted(Seen(before)), Admitted(Seen(arrivals));
      RepliesAnswer(first, before);
      assert before + [a] == arrivals;
      SimpleNext(first, before, a);
      if more != served {
        AnswersMore(first, served, PidOf(a), Answered(before), Replies(first, before));
      }
      if PidOf(a) in more {
        AnswersOne(first, more, Answered(before), Replies(first, before), a);
      } else {
        assert Answered(before) + [] == Answered(before) && Replies(first, before) + [] == Replies(first, before);
      }
    }
  }

  /** Who is seen: the processes with a request when their FIFO could be opened, each once, in
      order of the first such request. */
  lemma {:induction false} SeenAre(arrivals: seq<Arrival>, pid: int)
    ensures pid in Seen(arrivals) <==>
            exists i | 0 <= i < |arrivals| :: arrivals[i].opens && PidOf(arrivals[i]) == pid
    ensures Distinct(Seen(arrivals))
    ensures arrivals != [] ==> Seen(arrivals[..|arrivals| - 1]) <= Seen(arrivals)
  {
    SeenDistinct(arrivals);
    if arrivals != [] {
      var n := |arrivals| - 1;
      SeenAre(arrivals[..n], pid);
      if i :| 0 <= i < n && arrivals[..n][i].opens && PidOf(arrivals[..n][i]) == pid {
        assert arrivals[i].opens && PidOf(arrivals[i]) == pid;
      }
    }
  }

  /** What the simple description says of the server, its table apart. */
  ghost predicate Described(first: nat, s: Server, arrivals: seq<Arrival>) {
    var served := Admitted(Seen(arrivals));
    && s.sent == Replies(first, arrivals) && s.connected == Connections(first, served)
    && s.nextFd == first + |served|
  }

  lemma DescribedNext(first: nat, s: Server, before: seq<Arrival>, a: Arrival)
    requires Serves(first, s, Admitted(Seen(before))) && Described(first, s, before)
    ensures Serves(first, Handled(s, a), Admitted(Seen(before + [a]))) && Described(first, Handled(s, a), before + [a])
  {
    var served := Admitted(Seen(before));
    SimpleNext(first, before, a);
    HandledServes(first, s, served, a);
    if ServedAfter(served, a) != served {
      ConnectionsMore(first, served, PidOf(a));
    }
  }

  lemma {:induction false} ServedIsDescribed(first: nat, arrivals: seq<Arrival>)
    ensures var s := Served(Fresh(first), arrivals);
            Serves(first, s, Admitted(Seen(arrivals))) && Described(first, s, arrivals)
  {
    if arrivals == [] {
      assert Admitted([]) == [];
      NothingOpen(first);
    } else {
      var n := |arrivals| - 1;
      ServedIsDescribed(first, arrivals[..n]);
      DescribedNext(first, Served(Fresh(first), arrivals[..n]), arrivals[..n], arrivals[n]);
      assert arrivals[..n] + [arrivals[n]] == arrivals;
    }
  }

  /** A process that is served, or cannot be, leaves the table alone. */
  lemma TableStays(first: nat, s: Server, served: seq<int>, waiting: int, a: Arrival)
    requires s.clients == Table(first, served, waiting) && Distinct(served) && |served| <= MAX_CLIENTS
    requires PidOf(a) in served || |served| == MAX_CLIENTS || (SkipsNext(served, waiting, PidOf(a)) && !a.opens)
    ensures Handled(s, a).clients == s.clients
  {
    RepliedTable(s, a);
    if PidOf(a) in served {
      var n := IndexOf(served, PidOf(a));
      FoundServed(first, served, waiting, PidOf(a));
      assert s.clients[n] == Client(first + n, served[n]);
    } else if |served| == MAX_CLIENTS {
      FoundNew(first, served, waiting, PidOf(a));
    } else {
      FoundLater(first, served, waiting);
    }
  }

  /** Any other gets the next slot. */
  lemma TableGrows(first: nat, s: Server, served: seq<int>, waiting: int, a: Arrival)
    requires s.clients == Table(first, served, waiting) && |served| < MAX_CLIENTS && s.nextFd == first + |served|
    requires PidOf(a) !in served && !SkipsNext(served, waiting, PidOf(a))
    ensures Handled(s, a).clients ==
            if a.opens then Table(first, served + [PidOf(a)], 0) else Table(first, served, PidOf(a))
  {
    var pid := PidOf(a);
    RepliedTable(s, a);
    FoundNew(first, served, waiting, pid);
    assert Table(first, served, pid)[|served|] == Client(-1, pid);
    assert Table(first, served + [pid], 0) == Table(first, served, pid)[|served| := Client(s.nextFd, pid)];
  }

  lemma TableNext(first: nat, s: Server, before: seq<Arrival>, a: Arrival)
    requires !Overtakes(before, a) && s.nextFd == first + |Admitted(Seen(before))|
    requires s.clients == Table(first, Admitted(Seen(before)), Waiting(before))
    ensures Handled(s, a).clients == Table(first, Admitted(Seen(before + [a])), Waiting(before + [a]))
  {
    var served, waiting, pid := Admitted(Seen(before)), Waiting(before), PidOf(a);
    SimpleNext(first, before, a);
    WaitingNext(before, a);
    if pid in served || |served| == MAX_CLIENTS || SkipsNext(served, waiting, pid) {
      TableStays(first, s, served, waiting, a);
    } else {
      TableGrows(first, s, served, waiting, a);
    }
  }

  lemma {:induction false} TableIs(first: nat, arrivals: seq<Arrival>)
    requires !Overtaken(arrivals)
    ensures Served(Fresh(first), arrivals).clients == Table(first, Admitted(Seen(arrivals)), Waiting(arrivals))
  {
    if arrivals == [] {
      assert Table(first, [], 0) == Fresh(first).clients;
      assert Admitted([]) == [];
    } else {
      var n := |arrivals| - 1;
      TableIs(first, arrivals[..n]);
      ServedIsDescribed(first, arrivals[..n]);
      TableNext(first, Served(Fresh(first), arrivals[..n]), arrivals[..n], arrivals[n]);
      assert arrivals[..n] + [arrivals[n]] == arrivals;
    }
  }

  /** The server is the simple server.  In every run, whatever processes send and whatever opens
      fail, its replies, the FIFOs it opened and its descriptors are those of the simple
      description; so is its table, unless process 0 has overtaken another. */
  lemma ServerIsSimple(first: nat, arrivals: seq<Arrival>)
    ensures var s, served := Served(Fresh(first), arrivals), Admitted(Seen(arrivals));
      && served == (if |Seen(arrivals)| <= 20 then Seen(arrivals) else Seen(arrivals)[..20])
      && s.sent == Replies(first, arrivals) && AnswersEach(first, served, Answered(arrivals), s.sent)
      && s.connected == Connections(first, served)
      && s.nextFd == first + |served|
      && (!Overtaken(arrivals) ==> s.clients == Table(first, served, Waiting(arrivals)))
  {
    ServedIsDescribed(first, arrivals);
    RepliesAnswer(first, arrivals);
    assert Seen(arrivals)[..|Seen(arrivals)|] == Seen(arrivals);
    if !Overtaken(arrivals) {
      TableIs(first, arrivals);
    }
  }

  /** Overtaking needs a failed open of another process and, later, a successful one of process 0. */
  lemma {:induction false} OvertakingNeeds(arrivals: seq<Arrival>)
    ensures Overtaken(arrivals) ==> exists i, j ::
              && 0 <= i < j < |arrivals| && !arrivals[i].opens && PidOf(arrivals[i]) != 0
              && arrivals[j].opens && PidOf(arrivals[j]) == 0
  {
    if Overtaken(arrivals) {
      var n := |arrivals| - 1;
      if Overtaken(arrivals[..n]) {
        OvertakingNeeds(arrivals[..n]);
      } else {
        var i := WaitingSince(arrivals[..n]);
        assert !arrivals[i].opens && PidOf(arrivals[i]) != 0;
      }
    }
  }

  lemma {:induction false} WaitingSince(arrivals: seq<Arrival>) returns (i: nat)
    requires Waiting(arrivals) != 0
    ensures i < |arrivals| && !arrivals[i].opens && PidOf(arrivals[i]) == Waiting(arrivals)
  {
    i := |arrivals| - 1;
    if arrivals[i].opens || PidOf(arrivals[i]) != Waiting(arrivals) {
      i := WaitingSince(arrivals[..i]);
    }
  }

  // ---------- The table over any run ----------

  /** Beyond the first slot without a descriptor the table is untouched, so the slots with one
      are a prefix; and no process has two slots. */
  ghost predicate TableOk(clients: seq<Client>) {
    && (forall i, j | 0 <= i < j < |clients| && clients[i].fd == -1 :: clients[j] == Client(-1, 0))
    && DistinctProcesses(clients)
  }

  /** No process but 0, which stands for none, has two slots. */
  ghost predicate DistinctProcesses(clients: seq<Client>) {
    forall i, j | 0 <= i < j < |clients| && clients[j].pid != 0 :: clients[i].pid != clients[j].pid
  }

  ghost predicate OpenPrefix(clients: seq<Client>) {
    forall i, j | 0 <= i < j < |clients| && clients[j].fd != -1 :: clients[i].fd != -1
  }

  /** What a slot with a descriptor holds is never changed by a request. */
  ghost predicate OpenKept(before: seq<Client>, after: seq<Client>) {
    |after| == |before| && forall i | 0 <= i < |before| && before[i].fd != -1 :: after[i] == before[i]
  }

  /** Sending changes nothing in the table. */
  lemma RepliedTable(s: Server, a: Arrival)
    ensures Handled(s, a).clients == Received(s, a).0.clients && Handled(s, a).nextFd == Received(s, a).0.nextFd
    ensures Handled(s, a).connected == Received(s, a).0.connected
  {
    SlotIsKept(s, a);
  }

  lemma HandledKeepsDistinct(s: Server, a: Arrival)
    requires DistinctProcesses(s.clients)
    ensures DistinctProcesses(Handled(s, a).clients)
  {
    FoundMeans(s.clients, PidOf(a));
    RepliedTable(s, a);
  }

  /** Over any run, whatever processes send and whatever opens fail, no process has two slots. */
  lemma {:induction false} ServedKeepsDistinct(first: nat, arrivals: seq<Arrival>)
    ensures DistinctProcesses(Served(Fresh(first), arrivals).clients)
  {
    if arrivals != [] {
      var n := |arrivals| - 1;
      ServedKeepsDistinct(first, arrivals[..n]);
      HandledKeepsDistinct(Served(Fresh(first), arrivals[..n]), arrivals[n]);
    }
  }

  /** The table after the first `n` requests. */
  function TableAfter(first: nat, arrivals: seq<Arrival>, n: nat): seq<Client>
    requires n <= |arrivals|
  {
    Served(Fresh(first), arrivals[..n]).clients
  }

  lemma NextKeepsOpen(first: nat, arrivals: seq<Arrival>, n: nat)
    requires n < |arrivals|
    ensures OpenKept(TableAfter(first, arrivals, n), TableAfter(first, arrivals, n + 1))
  {
    ServedNext(Fresh(first), arrivals, n);
    FoundMeans(Served(Fresh(first), arrivals[..n]).clients, PidOf(arrivals[n]));
    RepliedTable(Served(Fresh(first), arrivals[..n]), arrivals[n]);
  }

  /** Whatever comes in and whatever opens fail, a process with a descriptor keeps its slot and
      its descriptor from then on. */
  lemma ClientsKeepTheirSlots(first: nat, arrivals: seq<Arrival>, m: nat, n: nat)
    requires m <= n <= |arrivals|
    ensures OpenKept(TableAfter(first, arrivals, m), TableAfter(first, arrivals, n))
  {
    var tables := seq(|arrivals| + 1, k requires 0 <= k <= |arrivals| => TableAfter(first, arrivals, k));
    forall k | 0 <= k < |arrivals| ensures OpenKept(tables[k], tables[k + 1]) {
      NextKeepsOpen(first, arrivals, k);
    }
    OpenKeptAlong(tables, m, n);
  }

  lemma {:induction false} OpenKeptAlong(tables: seq<seq<Client>>, m: nat, n: nat)
    requires m <= n < |tables| && forall k | 0 <= k < |tables| - 1 :: OpenKept(tables[k], tables[k + 1])
    ensures OpenKept(tables[m], tables[n])
    decreases n
  {
    if m < n {
      OpenKeptAlong(tables, m, n - 1);
      assert OpenKept(tables[n - 1], tables[n - 1 + 1]);
    }
  }

  /** A free slot is skipped: the number 0, which every untouched slot holds, is found in one
      that is not the first without a descriptor. */
  predicate SkipsFree(clients: seq<Client>, pid: int) {
    var own, free := SlotOf(clients, pid, 0), FreeSlot(clients, 0);
    own != -1 && clients[own].fd == -1 && free != own
  }

  /** A request opens the slot it skips to. */
  predicate OpensLater(clients: seq<Client>, a: Arrival) {
    a.opens && SkipsFree(clients, PidOf(a))
  }

  /** For any process number, 0 included: a table in order stays in order, and its open slots a
      prefix, exactly unless the request opens a slot that skips a free one. */
  lemma PrefixKeptIff(s: Server, a: Arrival)
    requires TableOk(s.clients) && 0 <= s.nextFd
    ensures TableOk(Handled(s, a).clients) <==> !OpensLater(s.clients, a)
    ensures OpenPrefix(Handled(s, a).clients) <==> !OpensLater(s.clients, a)
    ensures s.nextFd <= Handled(s, a).nextFd
  {
    RepliedTable(s, a);
    FoundMeans(s.clients, PidOf(a));
    if OpensLater(s.clients, a) {
      LaterBreaks(s, a);
    }
  }

  lemma LaterBreaks(s: Server, a: Arrival)
    requires OpensLater(s.clients, a) && 0 <= s.nextFd
    ensures !OpenPrefix(Received(s, a).0.clients)
  {
    FoundMeans(s.clients, PidOf(a));
    var after, n, free := Received(s, a).0.clients, SlotOf(s.clients, PidOf(a), 0), FreeSlot(s.clients, 0);
    assert after[n].fd != -1 && after[free].fd == -1;
  }

  /** Up to a request that opens a slot it skips to, the table is in order. */
  lemma InOrderSoFar(first: nat, arrivals: seq<Arrival>, n: nat)
    requires n <= |arrivals|
    requires forall k | 0 <= k < n :: !OpensLater(TableAfter(first, arrivals, k), arrivals[k])
    ensures InOrder(first, arrivals, n)
  {
    forall k | 0 <= k < n && InOrder(first, arrivals, k) ensures InOrder(first, arrivals, k + 1) {
      InOrderNext(first, arrivals, k);
    }
    Climb((k: nat) => k <= |arrivals| && InOrder(first, arrivals, k), n);
  }

  lemma {:induction false} Climb(holds: nat -> bool, n: nat)
    requires holds(0) && forall k | 0 <= k < n && holds(k) :: holds(k + 1)
    ensures holds(n)
  {
    if n > 0 {
      Climb(holds, n - 1);
    }
  }

  ghost predicate InOrder(first: nat, arrivals: seq<Arrival>, n: nat)
    requires n <= |arrivals|
  {
    TableOk(TableAfter(first, arrivals, n)) && 0 <= Served(Fresh(first), arrivals[..n]).nextFd
  }

  lemma InOrderNext(first: nat, arrivals: seq<Arrival>, n: nat)
    requires n < |arrivals| && TableOk(TableAfter(first, arrivals, n))
    requires 0 <= Served(Fresh(first), arrivals[..n]).nextFd
    ensures OpenPrefix(TableAfter(first, arrivals, n + 1)) <==> !OpensLater(TableAfter(first, arrivals, n), arrivals[n])
    ensures TableOk(TableAfter(first, arrivals, n + 1)) <==> !OpensLater(TableAfter(first, arrivals, n), arrivals[n])
    ensures 0 <= Served(Fresh(first), arrivals[..n + 1]).nextFd
  {
    var s := Served(Fresh(first), arrivals[..n]);
    ServedNext(Fresh(first), arrivals, n);
    PrefixKeptIff(s, arrivals[n]);
  }

  /** Over any run, with any processes and any opens failing: the open slots are a prefix all the
      time exactly if no request opens a slot that skips a free one. */
  lemma PrefixAllAlongIff(first: nat, arrivals: seq<Arrival>)
    ensures (forall n | 0 <= n <= |arrivals| :: OpenPrefix(TableAfter(first, arrivals, n))) <==>
            (forall n | 0 <= n < |arrivals| :: !OpensLater(TableAfter(first, arrivals, n), arrivals[n]))
  {
    if n :| 0 <= n < |arrivals| && OpensLater(TableAfter(first, arrivals, n), arrivals[n]) {
      var m := FirstLater(first, arrivals, n);
      InOrderSoFar(first, arrivals, m);
      InOrderNext(first, arrivals, m);
      assert !OpenPrefix(TableAfter(first, arrivals, m + 1));
    } else {
      forall n | 0 <= n <= |arrivals| ensures OpenPrefix(TableAfter(first, arrivals, n)) {
        InOrderSoFar(first, arrivals, n);
      }
    }
  }

  lemma {:induction false} FirstLater(first: nat, arrivals: seq<Arrival>, n: nat) returns (m: nat)
    requires n < |arrivals| && OpensLater(TableAfter(first, arrivals, n), arrivals[n])
    ensures m <= n && OpensLater(TableAfter(first, arrivals, m), arrivals[m])
    ensures forall k | 0 <= k < m :: !OpensLater(TableAfter(first, arrivals, k), arrivals[k])
  {
    m := n;
    if k :| 0 <= k < n && OpensLater(TableAfter(first, arrivals, k), arrivals[k]) {
      m := FirstLater(first, arrivals, k);
    }
  }

  /** In the simple server's table a request opens a slot it skips to exactly when process 0
      overtakes another. */
  lemma OvertakesIff(first: nat, before: seq<Arrival>, a: Arrival)
    ensures OpensLater(Table(first, Admitted(Seen(before)), Waiting(before)), a) <==> Overtakes(before, a)
  {
    var served, waiting, pid := Admitted(Seen(before)), Waiting(before), PidOf(a);
    SeenDistinct(before);
    var clients := Table(first, served, waiting);
    assert forall j | 0 <= j < |served| :: clients[j] == Client(first + j, served[j]);
    if pid in served {
      FoundServed(first, served, waiting, pid);
      FoundMeans(clients, pid);
    } else {
      NotServed(first, served, waiting, pid);
      assert forall j | |served| < j < MAX_CLIENTS :: clients[j] == Client(-1, 0);
      if |served| < MAX_CLIENTS {
        assert clients[|served|] == Client(-1, waiting);
        assert FreeSlot(clients, 0) == |served|;
        if SkipsNext(served, waiting, pid) {
          assert clients[|served| + 1] == Client(-1, 0);
        }
      }
    }
  }

  lemma LaterIffOvertakes(first: nat, arrivals: seq<Arrival>, n: nat)
    requires n < |arrivals| && !Overtaken(arrivals[..n])
    ensures OpensLater(TableAfter(first, arrivals, n), arrivals[n]) <==> Overtakes(arrivals[..n], arrivals[n])
  {
    TableIs(first, arrivals[..n]);
    OvertakesIff(first, arrivals[..n], arrivals[n]);
  }

  lemma {:induction false} NotOvertakenAt(arrivals: seq<Arrival>, n: nat)
    requires n < |arrivals| && !Overtaken(arrivals)
    ensures !Overtaken(arrivals[..n]) && !Overtakes(arrivals[..n], arrivals[n])
    decreases |arrivals|
  {
    var last := |arrivals| - 1;
    if n < last {
      NotOvertakenAt(arrivals[..last], n);
      assert arrivals[..last][..n] == arrivals[..n];
    }
  }

  lemma {:induction false} FirstOvertaking(arrivals: seq<Arrival>) returns (n: nat)
    requires Overtaken(arrivals)
    ensures n < |arrivals| && !Overtaken(arrivals[..n]) && Overtakes(arrivals[..n], arrivals[n])
  {
    n := |arrivals| - 1;
    if Overtaken(arrivals[..n]) {
      var last := n;
      n := FirstOvertaking(arrivals[..last]);
      assert arrivals[..last][..n] == arrivals[..n];
    }
  }

  /** And that can be told from the requests alone: the open slots are a prefix all the time
      exactly if process 0 never overtakes a process whose FIFO could not be opened. */
  lemma NeverOvertakenIff(first: nat, arrivals: seq<Arrival>)
    ensures (forall n | 0 <= n <= |arrivals| :: OpenPrefix(TableAfter(first, arrivals, n))) <==> !Overtaken(arrivals)
  {
    PrefixAllAlongIff(first, arrivals);
    if Overtaken(arrivals) {
      var n := FirstOvertaking(arrivals);
      LaterIffOvertakes(first, arrivals, n);
    } else {
      forall n | 0 <= n < |arrivals| ensures !OpensLater(TableAfter(first, arrivals, n), arrivals[n]) {
        NotOvertakenAt(arrivals, n);
        LaterIffOvertakes(first, arrivals, n);
      }
    }
  }

  /** It does happen: after a failed open, a request of process 0 opens the second slot. */
  lemma PrefixCanBreak(m: Message)
    ensures var failed, zero := Arrival(m.(id1 := 7), false), Arrival(m.(id1 := 0), true);
            Overtaken([failed, zero]) && !OpenPrefix(Served(Fresh(5), [failed, zero]).clients)
  {
    var failed, zero := Arrival(m.(id1 := 7), false), Arrival(m.(id1 := 0), true);
    assert [failed, zero][..1] == [failed] && [failed][..0] == [];
    assert Seen([failed]) == [] && Waiting([failed]) == 7;
    assert Overtakes([failed], zero);
    TableIs(5, [failed]);
    OvertakesIff(5, [failed], zero);
    InOrderSoFar(5, [], 0);
    var s := Served(Fresh(5), [failed]);
    assert s.clients[0] == Client(-1, 7);
    PrefixKeptIff(s, zero);
    assert Served(Fresh(5), [failed, zero]) == Handled(s, zero);
  }

  // ---------- Replies and descriptors over any run ----------

  /** Every descriptor in the table is that of the slot's process. */
  predicate Connected(s: Server) {
    forall i | 0 <= i < |s.clients| && s.clients[i].fd != -1 :: (s.clients[i].fd, s.clients[i].pid) in s.connected
  }

  /** Every reply went to the FIFO of the process that the message names. */
  predicate GoneHome(s: Server) {
    forall j | 0 <= j < |s.sent| :: (s.sent[j].0, ToPid(s.sent[j].1.id1)) in s.connected
  }

  lemma ReceivedConnected(s: Server, a: Arrival)
    requires Connected(s) && GoneHome(s)
    ensures Connected(Received(s, a).0) && GoneHome(Received(s, a).0)
  {
    FoundMeans(s.clients, PidOf(a));
  }

  lemma RepliedGoesHome(s: Server, m: Message, n: nat)
    requires Connected(s) && GoneHome(s)
    requires Found(s.clients, ToPid(m.id1)) == (s.clients, n) && n < |s.clients| && s.clients[n].pid == ToPid(m.id1)
    ensures Connected(Replied(s, m)) && GoneHome(Replied(s, m))
  {
    if s.clients[n].fd != -1 {
      RepliedTo(s, m, n);
    }
  }

  /** Whatever process numbers come in and whatever opens fail: every reply was written to a
      descriptor that was opened for the FIFO of the process it answers. */
  lemma {:induction false} RepliesGoHome(first: nat, arrivals: seq<Arrival>)
    ensures var s := Served(Fresh(first), arrivals); Connected(s) && GoneHome(s)
  {
    if arrivals != [] {
      var k := |arrivals| - 1;
      var s, a := Served(Fresh(first), arrivals[..k]), arrivals[k];
      RepliesGoHome(first, arrivals[..k]);
      ReceivedConnected(s, a);
      SlotIsKept(s, a);
      FoundMeans(s.clients, PidOf(a));
      var (s1, n) := Received(s, a);
      if n != -1 {
        assert s1.clients[n].pid == PidOf(a);
        RepliedGoesHome(s1, Answer(a.message), n);
      }
    }
  }

  function Count(s: seq<int>, x: int): nat {
    if s == [] then 0 else (if s[0] == x then 1 else 0) + Count(s[1..], x)
  }

  lemma {:induction false} CountJoin(s: seq<int>, t: seq<int>, x: int)
    ensures Count(s + t, x) == Count(s, x) + Count(t, x)
  {
    if s == [] {
      assert s + t == t;
    } else {
      assert (s + t)[1..] == s[1..] + t;
      CountJoin(s[1..], t, x);
    }
  }

  /** A changed slot changes the count of its own descriptors only. */
  lemma {:induction false} SlotCounts(clients: seq<Client>, n: nat, c: Client, x: int)
    requires n < |clients| && clients[n].fd == -1 && x != -1
    ensures Count(OpenFds(clients[n := c]), x) == Count(OpenFds(clients), x) + if c.fd == x then 1 else 0
  {
    var open, rest := OpenFds(clients), OpenFds(clients[1..]);
    if n == 0 {
      assert clients[0 := c][1..] == clients[1..] && [] + rest == rest;
      CountJoin(if c.fd != -1 then [c.fd] else [], rest, x);
    } else {
      assert clients[n := c][1..] == clients[1..][n - 1 := c];
      SlotCounts(clients[1..], n - 1, c, x);
      var head := if clients[0].fd != -1 then [clients[0].fd] else [];
      CountJoin(head, rest, x);
      CountJoin(head, OpenFds(clients[1..][n - 1 := c]), x);
    }
  }

  /** The descriptors in the table are those handed out so far, each in one slot. */
  ghost predicate EachInOneSlot(first: int, s: Server) {
    && first <= s.nextFd
    && forall fd | fd != -1 :: Count(OpenFds(s.clients), fd) == if first <= fd < s.nextFd then 1 else 0
  }

  lemma ReceivedInOneSlot(first: nat, s: Server, a: Arrival)
    requires EachInOneSlot(first, s)
    ensures EachInOneSlot(first, Received(s, a).0)
  {
    FoundMeans(s.clients, PidOf(a));
    var (clients, n) := Found(s.clients, PidOf(a));
    var t := Received(s, a).0;
    if n != -1 && clients[n].fd == -1 {
      forall fd | fd != -1 ensures Count(OpenFds(t.clients), fd) == if first <= fd < t.nextFd then 1 else 0 {
        SlotCounts(s.clients, n, t.clients[n], fd);
        assert t.clients == s.clients[n := t.clients[n]];
        assert Count(OpenFds(s.clients), fd) == if first <= fd < s.nextFd then 1 else 0;
      }
    }
  }

  lemma NothingOpen(first: int)
    ensures OpenFds(Fresh(first).clients) == []
  {
    AllFree(Fresh(first).clients);
  }

  lemma {:induction false} AllFree(clients: seq<Client>)
    requires forall i | 0 <= i < |clients| :: clients[i].fd == -1
    ensures OpenFds(clients) == []
  {
    if clients != [] {
      AllFree(clients[1..]);
    }
  }

  lemma {:induction false} ServedInOneSlot(first: nat, arrivals: seq<Arrival>)
    ensures EachInOneSlot(first, Served(Fresh(first), arrivals))
  {
    if arrivals == [] {
      NothingOpen(first);
    } else {
      var n := |arrivals| - 1;
      ServedInOneSlot(first, arrivals[..n]);
      ReceivedInOneSlot(first, Served(Fresh(first), arrivals[..n]), arrivals[n]);
      RepliedTable(Served(Fresh(first), arrivals[..n]), arrivals[n]);
    }
  }

  /** How often `smi_close_fifo` closes a descriptor: the clients', and the server's own two,
      which were opened before them. */
  function TimesClosed(first: int, s: Server, fd: int): nat {
    Count(OpenFds(s.clients) + [first - 2, first - 1], fd)
  }

  /** Closing after any run closes every descriptor the server ever had exactly once, and
      nothing else. */
  lemma ClosesEachOnce(first: nat, arrivals: seq<Arrival>)
    requires 2 <= first
    ensures var s := Served(Fresh(first), arrivals);
            forall fd | fd != -1 :: TimesClosed(first, s, fd) == if first - 2 <= fd < s.nextFd then 1 else 0
  {
    var s := Served(Fresh(first), arrivals);
    ServedInOneSlot(first, arrivals);
    forall fd | fd != -1 ensures TimesClosed(first, s, fd) == if first - 2 <= fd < s.nextFd then 1 else 0 {
      CountJoin(OpenFds(s.clients), [first - 2, first - 1], fd);
      assert [first - 2, first - 1][1..] == [first - 1];
      assert Count([first - 1], fd) == if fd == first - 1 then 1 else 0;
      assert EachInOneSlot(first, s);
      assert Count(OpenFds(s.clients), fd) == if first <= fd < s.nextFd then 1 else 0;
    }
  }

  /** The server from its opening to its closing: it sends the replies of the simple description,
      and closes every descriptor it had exactly once. */
  method OpenServeClose(arrivals: seq<Arrival>, nextFd: nat) returns (q: SmiqFifo)
    requires forall i | 0 <= i < |arrivals| :: Complete(arrivals[i])
    ensures fresh(q) && AnswersEach(nextFd + 2, Admitted(Seen(arrivals)), Answered(arrivals), q.sent)
    ensures forall fd | fd != -1 :: Count(q.closed, fd) == if nextFd <= fd < q.nextFd then 1 else 0
    ensures forall i | 0 <= i < q.clients.Length :: q.clients[i].fd == -1
  {
    q := new SmiqFifo(arrivals, nextFd);
    q.Serve();
    assert arrivals[0..] == arrivals;
    ServerIsSimple(nextFd + 2, arrivals);
    ClosesEachOnce(nextFd + 2, arrivals);
    ghost var s, open := q.State(), OpenFds(q.clients[..]);
    q.CloseFifo();
    assert q.closed == open + [nextFd, nextFd + 1];
    forall fd | fd != -1 ensures Count(q.closed, fd) == if nextFd <= fd < q.nextFd then 1 else 0 {
      assert Count(q.closed, fd) == TimesClosed(nextFd + 2, s, fd);
    }
  }
}
