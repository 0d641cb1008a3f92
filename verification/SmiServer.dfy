/** The FIFO message server of ad_comm/smi_server.c: its client table, the two operations that
    use it, its main loop and its closing. */
module SmiServer {
  import opened CStrings

  const MAX_CLIENTS := 20
  const DATA_SIZE := 200

  /** A slot of the table. */
  datatype Client = Client(fd: int, pid: int)

  /** `struct smi_msg`. */
  datatype Message = Message(mtype: int, id1: int, id2: int, data: seq<char>)

  /** A request as it comes out of the server's FIFO, and whether the client's own FIFO can be
      connected at that moment. */
  datatype Arrival = Arrival(message: Message, opens: bool)

  /** A complete message with a string in it. */
  predicate Complete(a: Arrival) {
    |a.message.data| == 200 && '\0' in a.message.data
  }

  /** The conversion of a `long` to a 32-bit `pid_t`. */
  function ToPid(id: int): int {
    (id + 0x8000_0000) % 0x1_0000_0000 - 0x8000_0000
  }

  /** The only process number that differs from the `long` by a multiple of 2^32: below 2^31 it is
      the number itself. */
  lemma ToPidIs(id: int)
    ensures -0x8000_0000 <= ToPid(id) < 0x8000_0000 && (ToPid(id) - id) % 0x1_0000_0000 == 0
    ensures -0x8000_0000 <= id < 0x8000_0000 ==> ToPid(id) == id
  {
  }

  function PidOf(a: Arrival): int {
    ToPid(a.message.id1)
  }

  function ToUpper(c: char): char {
    if 'a' <= c <= 'z' then c - 'a' + 'A' else c
  }

  function Upper(s: seq<char>): (r: seq<char>)
    ensures |r| == |s| && forall i | 0 <= i < |s| :: r[i] == ToUpper(s[i])
  {
    if s == [] then [] else [ToUpper(s[0])] + Upper(s[1..])
  }

  /** The reply to a message: its string in upper case, all else as it came. */
  function Answer(m: Message): Message {
    var s := UpToNul(m.data);
    m.(data := Upper(s) + m.data[|s|..])
  }

  /** `after` is `before` with the small letters of its string in capitals: 97 to 122 are the codes
      of the small letters, and a capital's is 32 less. */
  predicate Capitals(before: seq<char>, after: seq<char>) {
    |after| == |before| && forall i | 0 <= i < |before| :: CapitalAt(before, after, i)
  }

  predicate CapitalAt(before: seq<char>, after: seq<char>, i: nat)
    requires i < |before| == |after|
  {
    var inString := '\0' !in before[..i + 1];
    after[i] as int == before[i] as int - if inString && 97 <= before[i] as int <= 122 then 32 else 0
  }

  /** The reply, character by character; everything but the string is as it came. */
  lemma AnswerIs(m: Message)
    ensures var r := Answer(m); (r.mtype, r.id1, r.id2) == (m.mtype, m.id1, m.id2) && Capitals(m.data, r.data)
  {
    var n := |UpToNul(m.data)|;
    forall i | 0 <= i < |m.data| ensures CapitalAt(m.data, Answer(m).data, i) {
      if i < n {
        assert m.data[..i + 1] == UpToNul(m.data)[..i + 1];
      } else {
        assert m.data[..i + 1][n] == '\0';
      }
    }
  }

  // ---------- The table as a value ----------

  /** The first slot from `i` on that belongs to `pid`, or -1. */
  function SlotOf(clients: seq<Client>, pid: int, i: nat): (n: int)
    requires i <= |clients|
    ensures n == -1 || (i <= n < |clients| && clients[n].pid == pid)
    ensures forall j | i <= j < (if n == -1 then |clients| else n) :: clients[j].pid != pid
    decreases |clients| - i
  {
    if i == |clients| then -1 else if clients[i].pid == pid then i else SlotOf(clients, pid, i + 1)
  }

  /** The first slot from `i` on without a descriptor, or -1. */
  function FreeSlot(clients: seq<Client>, i: nat): (n: int)
    requires i <= |clients|
    ensures n == -1 || (i <= n < |clients| && clients[n].fd == -1)
    ensures forall j | i <= j < (if n == -1 then |clients| else n) :: clients[j].fd != -1
    decreases |clients| - i
  {
    if i == |clients| then -1 else if clients[i].fd == -1 then i else FreeSlot(clients, i + 1)
  }

  /** `clients_find` from slot `i` on, `avail` being the first free slot before it, or -1: the new
      table and the slot found, or -1. */
  function Find(clients: seq<Client>, pid: int, i: nat, avail: int): (r: (seq<Client>, int))
    requires i <= |clients| && -1 <= avail < i
    ensures |r.0| == |clients| && -1 <= r.1 < |clients|
    ensures r.1 == -1 ==> r.0 == clients
    decreases |clients| - i
  {
    if i == |clients| then
      (if avail == -1 then clients else clients[avail := clients[avail].(pid := pid)], avail)
    else if clients[i].pid == pid then (clients, i)
    else Find(clients, pid, i + 1, if clients[i].fd == -1 && avail == -1 then i else avail)
  }

  /** `clients_find`. */
  function Found(clients: seq<Client>, pid: int): (r: (seq<Client>, int))
    ensures |r.0| == |clients| && -1 <= r.1 < |clients|
    ensures r.1 == -1 ==> r.0 == clients
  {
    Find(clients, pid, 0, -1)
  }

  /** From wherever the scan stands, it finds the slot of `pid`, or else the first free slot, which
      is then given to it, or -1. */
  lemma {:induction false} FoundIs(clients: seq<Client>, pid: int, i: nat, avail: int)
    requires i <= |clients| && -1 <= avail < i
    requires forall j | 0 <= j < i :: clients[j].pid != pid
    requires forall j | 0 <= j < (if avail == -1 then i else avail) :: clients[j].fd != -1
    requires avail != -1 ==> clients[avail].fd == -1
    ensures var own, free := SlotOf(clients, pid, 0), FreeSlot(clients, 0);
            Find(clients, pid, i, avail) ==
            if own != -1 then (clients, own)
            else if free != -1 then (clients[free := clients[free].(pid := pid)], free)
            else (clients, -1)
    decreases |clients| - i
  {
    if i < |clients| && clients[i].pid != pid {
      FoundIs(clients, pid, i + 1, if clients[i].fd == -1 && avail == -1 then i else avail);
    }
  }

  /** `clients_find` finds the slot of `pid`; without one it gives `pid` the first slot that has no
      descriptor; without that it changes nothing. */
  lemma FoundMeans(clients: seq<Client>, pid: int)
    ensures var own, free := SlotOf(clients, pid, 0), FreeSlot(clients, 0);
            Found(clients, pid) ==
            if own != -1 then (clients, own)
            else if free != -1 then (clients[free := clients[free].(pid := pid)], free)
            else (clients, -1)
  {
    FoundIs(clients, pid, 0, -1);
  }

  /** What the server has done: its table, the next descriptor the system will hand out, the
      clients' FIFOs connected, the messages written, each with its descriptor. */
  datatype Server = Server(
    clients: seq<Client>,
    nextFd: int,
    connected: seq<(int, int)>,
    sent: seq<(int, Message)>)

  /** One request taken from the FIFO; the result is its slot, -1 if there is none. */
  function Received(s: Server, a: Arrival): (r: (Server, int))
    ensures |r.0.clients| == |s.clients| && -1 <= r.1 < |s.clients|
  {
    var (clients, n) := Found(s.clients, PidOf(a));
    if n == -1 then (s, -1)
    else if clients[n].fd != -1 || !a.opens then (s.(clients := clients), n)
    else
      (s.(clients := clients[n := clients[n].(fd := s.nextFd)],
          nextFd := s.nextFd + 1,
          connected := s.connected + [(s.nextFd, PidOf(a))]), n)
  }

  /** A message written to the slot of the process that sent it; a write to descriptor -1 fails. */
  function Replied(s: Server, m: Message): Server {
    var (clients, n) := Found(s.clients, ToPid(m.id1));
    if n == -1 || clients[n].fd == -1 then s.(clients := clients)
    else s.(clients := clients, sent := s.sent + [(clients[n].fd, m)])
  }

  /** One turn of the main loop, or of the loop inside the receiving if there is no slot. */
  function Handled(s: Server, a: Arrival): Server {
    var (s1, n) := Received(s, a);
    if n == -1 then s1 else Replied(s1, Answer(a.message))
  }

  /** A run of steps. */
  function Run<S, A>(step: (S, A) -> S, s: S, inputs: seq<A>): S {
    if inputs == [] then s
    else
      var n := |inputs| - 1;
      step(Run(step, s, inputs[..n]), inputs[n])
  }

  function Served(s: Server, arrivals: seq<Arrival>): Server {
    Run(Handled, s, arrivals)
  }

  // ---------- The queue object ----------

  class SmiqFifo {
    const clients: array<Client>
    const data: array<char>  // the one message buffer: received, changed and sent in place
    var mtype: int
    var id1: int
    var id2: int
    var clientId1: int       // `sq_client`
    const fdServer: int
    const fdServerW: int
    // the operating system's side
    const arrivals: seq<Arrival>
    var taken: nat           // the requests read so far
    var nextFd: int
    var connected: seq<(int, int)>
    var sent: seq<(int, Message)>
    var closed: seq<int>

    ghost predicate Valid()
      reads this
    {
      clients.Length == MAX_CLIENTS && data.Length == DATA_SIZE && 0 <= nextFd && taken <= |arrivals|
    }

    ghost function State(): Server
      reads this, clients
    {
      Server(clients[..], nextFd, connected, sent)
    }

    function Buffer(): Message
      reads this, data
    {
      Message(mtype, id1, id2, data[..])
    }

    /** `smi_open_fifo` for the server. */
    constructor (arrivals: seq<Arrival>, nextFd: nat)
      ensures Valid() && fresh(clients) && fresh(data)
      ensures State() == Server(seq(MAX_CLIENTS, _ => Client(-1, 0)), nextFd + 2, [], [])
      ensures this.arrivals == arrivals && taken == 0 && closed == [] && fdServer == nextFd && fdServerW == nextFd + 1
    {
      clients := new Client[MAX_CLIENTS](_ => Client(0, 0));
      data := new char[DATA_SIZE](_ => '\0');
      mtype, id1, id2, clientId1 := 0, 0, 0, 0;
      this.arrivals, taken, connected, sent, closed := arrivals, 0, [], [], [];
      fdServer, fdServerW, this.nextFd := nextFd, nextFd + 1, nextFd + 2;
      new;
      ClientsBgn();
    }

    /** `clients_bgn`. */
    method ClientsBgn()
      requires Valid()
      modifies clients
      ensures forall i | 0 <= i < MAX_CLIENTS :: clients[i] == old(clients[i]).(fd := -1)
    {
      for i := 0 to MAX_CLIENTS
        invariant forall j | 0 <= j < i :: clients[j] == old(clients[j]).(fd := -1)
        invariant forall j | i <= j < MAX_CLIENTS :: clients[j] == old(clients[j])
      {
        clients[i] := clients[i].(fd := -1);
      }
    }

    /** `clients_find`: one scan for the owner and for the first free slot. */
    method ClientsFind(pid: int) returns (n: int)
      requires Valid()
      modifies clients
      ensures (clients[..], n) == Found(old(clients[..]), pid)
    {
      var avail := -1;
      for i := 0 to MAX_CLIENTS
        invariant clients[..] == old(clients[..])
        invariant -1 <= avail < i && Found(clients[..], pid) == Find(clients[..], pid, i, avail)
      {
        if clients[i].pid == pid {
          return i;
        }
        if clients[i].fd == -1 && avail == -1 {
          avail := i;
        }
      }
      if avail != -1 {
        clients[avail] := clients[avail].(pid := pid);
      }
      n := avail;
    }

    /** `read` of a complete message into the buffer. */
    method Read(m: Message)
      requires Valid() && |m.data| == DATA_SIZE
      modifies `mtype, `id1, `id2, data
      ensures Buffer() == m
    {
      mtype, id1, id2 := m.mtype, m.id1, m.id2;
      forall i | 0 <= i < DATA_SIZE {
        data[i] := m.data[i];
      }
      assert data[..] == m.data;
    }

    /** `smi_receive_getaddr_fifo` for the server: requests without a slot are read and dropped.
        When none is left the server blocks for ever; `got` is false then. */
    method ReceiveGetaddr() returns (got: bool)
      requires Valid() && forall i | 0 <= i < |arrivals| :: Complete(arrivals[i])
      modifies `mtype, `id1, `id2, `taken, `nextFd, `connected, clients, data
      ensures Valid() && sent == old(sent) && old(taken) <= taken
      ensures forall i | old(taken) <= i < (if got then taken - 1 else taken) ::
                Received(old(State()), arrivals[i]).1 == -1
      ensures if got then
                && old(taken) < taken && Buffer() == arrivals[taken - 1].message
                && Received(old(State()), arrivals[taken - 1]).1 != -1
                && State() == Received(old(State()), arrivals[taken - 1]).0
              else
                taken == |arrivals| && State() == old(State())
    {
      while taken < |arrivals|
        invariant Valid() && old(taken) <= taken && State() == old(State())
        invariant forall i | old(taken) <= i < taken :: Received(old(State()), arrivals[i]).1 == -1
      {
        var a := arrivals[taken];
        taken := taken + 1;
        Read(a.message);
        var n := ClientsFind(ToPid(id1));
        if n == -1 {
          continue;
        }
        if clients[n].fd == -1 {
          if a.opens {
            clients[n] := clients[n].(fd := nextFd);
            connected := connected + [(nextFd, ToPid(id1))];
            nextFd := nextFd + 1;
          } else {
            clients[n] := clients[n].(fd := -1);
          }
        }
        return true;
      }
      got := false;
    }

    /** `smi_send_getaddr_fifo` for the server; the address it returns is the buffer's. */
    method SendGetaddr(id1: int)
      modifies `clientId1
      ensures clientId1 == id1
    {
      clientId1 := id1;
    }

    /** The loop of `main` that changes the message: it reads and writes the same buffer. */
    method UpperCase()
      requires Valid() && '\0' in data[..]
      modifies data
      ensures Buffer() == Answer(old(Buffer())) && Capitals(old(data[..]), data[..])
    {
      ghost var s := UpToNul(data[..]);
      var i := 0;
      while data[i] != '\0'
        invariant 0 <= i <= |s| < data.Length
        invariant forall j | 0 <= j < i :: data[j] == ToUpper(old(data[j]))
        invariant forall j | i <= j < data.Length :: data[j] == old(data[j])
        decreases |s| - i
      {
        data[i] := ToUpper(data[i]);
        i := i + 1;
      }
      data[i] := '\0';
      assert data[..] == Upper(s) + old(data[..])[|s|..];
      AnswerIs(old(Buffer()));
    }

    /** `smi_send_release` for the server, to the client the message came from.  That client has a
        slot: with none, C would read before the table. */
    method SendRelease()
      requires Valid() && clientId1 == id1 && Found(clients[..], ToPid(clientId1)).1 != -1
      modifies `sent, clients
      ensures State() == Replied(old(State()), Buffer())
    {
      var n := ClientsFind(ToPid(clientId1));
      if clients[n].fd != -1 {
        sent := sent + [(clients[n].fd, Buffer())];
      }
    }

    /** The body of the main loop after the receiving. */
    method Respond()
      requires Valid() && '\0' in data[..] && Found(clients[..], ToPid(id1)).1 != -1
      modifies `clientId1, `sent, clients, data
      ensures Valid() && State() == Replied(old(State()), Answer(old(Buffer())))
    {
      SendGetaddr(id1);
      UpperCase();
      SendRelease();
    }

    /** Receiving and responding is handling a request. */
    method RespondTo(ghost before: Server, ghost a: Arrival)
      requires Valid() && Complete(a) && Buffer() == a.message
      requires State() == Received(before, a).0 && Received(before, a).1 != -1
      modifies `clientId1, `sent, clients, data
      ensures Valid() && State() == Handled(before, a)
    {
      SlotIsKept(before, a);
      assert clients[..] == State().clients && data[..] == Buffer().data;
      Respond();
    }

    /** One turn of the main loop: requests without a slot are dropped, the next one is handled. */
    method Turn() returns (got: bool)
      requires Valid() && forall i | 0 <= i < |arrivals| :: Complete(arrivals[i])
      modifies `mtype, `id1, `id2, `clientId1, `taken, `nextFd, `connected, `sent, clients, data
      ensures Valid() && if got then old(taken) < taken else old(taken) <= taken == |arrivals|
      ensures forall i | old(taken) <= i < (if got then taken - 1 else taken) ::
                Received(old(State()), arrivals[i]).1 == -1
      ensures State() == if got then Handled(old(State()), arrivals[taken - 1]) else old(State())
    {
      ghost var before := State();
      got := ReceiveGetaddr();
      if got {
        RespondTo(before, arrivals[taken - 1]);
      }
    }

    /** The main loop: receive, change, send, until the server blocks on an empty FIFO. */
    method Serve()
      requires Valid() && forall i | 0 <= i < |arrivals| :: Complete(arrivals[i])
      modifies `mtype, `id1, `id2, `clientId1, `taken, `nextFd, `connected, `sent, clients, data
      ensures Valid() && taken == |arrivals| && State() == Served(old(State()), arrivals[old(taken)..])
    {
      ghost var start, from := State(), taken;
      assert arrivals[from..from] == [];
      var got := true;
      while got
        invariant Valid() && from <= taken && State() == Served(start, arrivals[from..taken])
        invariant !got ==> taken == |arrivals|
        decreases got, |arrivals| - taken
      {
        ghost var before, k := State(), taken;
        got := Turn();
        TurnServes(start, before, arrivals, from, k, taken, got);
      }
      assert arrivals[from..taken] == arrivals[from..];
    }

    /** `clients_close_all`. */
    method ClientsCloseAll()
      requires Valid()
      modifies `closed, clients
      ensures closed == old(closed) + OpenFds(old(clients[..]))
      ensures forall i | 0 <= i < MAX_CLIENTS :: clients[i] == old(clients[i]).(fd := -1)
    {
      ghost var before := clients[..];
      for i := 0 to MAX_CLIENTS
        invariant closed + OpenFds(before[i..]) == old(closed) + OpenFds(before)
        invariant forall j | 0 <= j < i :: clients[j] == before[j].(fd := -1)
        invariant forall j | i <= j < MAX_CLIENTS :: clients[j] == before[j]
      {
        assert before[i..][1..] == before[i + 1..];
        if clients[i].fd != -1 {
          closed := closed + [clients[i].fd];
          clients[i] := clients[i].(fd := -1);
        }
      }
    }

    /** `smi_close_fifo` for the server. */
    method CloseFifo()
      requires Valid()
      modifies `closed, clients
      ensures closed == old(closed) + OpenFds(old(clients[..])) + [fdServer, fdServerW]
      ensures forall i | 0 <= i < MAX_CLIENTS :: clients[i].fd == -1
    {
      ClientsCloseAll();
      closed := closed + [fdServer];
      closed := closed + [fdServerW];
    }
  }

  /** The descriptors in the table, in order. */
  function OpenFds(clients: seq<Client>): seq<int> {
    if clients == [] then [] else (if clients[0].fd != -1 then [clients[0].fd] else []) + OpenFds(clients[1..])
  }

  /** A process that received a slot still has it when the reply is sent. */
  lemma SlotIsKept(s: Server, a: Arrival)
    ensures var (s1, n) := Received(s, a);
            n != -1 ==> Found(s1.clients, PidOf(a)) == (s1.clients, n)
  {
    var (s1, n) := Received(s, a);
    FoundMeans(s.clients, PidOf(a));
    FoundMeans(s1.clients, PidOf(a));
    if n != -1 {
      assert s1.clients[n].pid == PidOf(a);
      assert forall j | 0 <= j < n :: s1.clients[j].pid == s.clients[j].pid != PidOf(a);
    }
  }

  lemma RunNext<S, A>(step: (S, A) -> S, s: S, inputs: seq<A>, i: nat, k: nat)
    requires i <= k < |inputs|
    ensures Run(step, s, inputs[i..k + 1]) == step(Run(step, s, inputs[i..k]), inputs[k])
  {
    assert inputs[i..k + 1][..k - i] == inputs[i..k];
  }

  /** Inputs that change nothing leave the state as it is. */
  lemma {:induction false} IdleSteps<S, A>(step: (S, A) -> S, start: S, s: S, inputs: seq<A>, i: nat, k: nat, j: nat)
    requires i <= k <= j <= |inputs| && s == Run(step, start, inputs[i..k])
    requires forall d | k <= d < j :: step(s, inputs[d]) == s
    ensures Run(step, start, inputs[i..j]) == s
  {
    if k < j {
      IdleSteps(step, start, s, inputs, i, k, j - 1);
      RunNext(step, start, inputs, i, j - 1);
    }
  }

  /** Some inputs that change nothing, and then perhaps one that does. */
  lemma OneTurn<S, A>(step: (S, A) -> S, start: S, s: S, inputs: seq<A>, i: nat, k: nat, j: nat, got: bool)
    requires i <= k <= j <= |inputs| && s == Run(step, start, inputs[i..k]) && (got ==> k < j)
    requires forall d | k <= d < (if got then j - 1 else j) :: step(s, inputs[d]) == s
    ensures Run(step, start, inputs[i..j]) == if got then step(s, inputs[j - 1]) else s
  {
    IdleSteps(step, start, s, inputs, i, k, if got then j - 1 else j);
    if got {
      RunNext(step, start, inputs, i, j - 1);
    }
  }

  lemma ServedNext(s: Server, queue: seq<Arrival>, k: nat)
    requires k < |queue|
    ensures Served(s, queue[..k + 1]) == Handled(Served(s, queue[..k]), queue[k])
  {
    assert queue[..k + 1][..k] == queue[..k];
  }

  /** A request without a slot leaves the server as it is. */
  lemma DroppedChangesNothing(s: Server, a: Arrival)
    requires Received(s, a).1 == -1
    ensures Handled(s, a) == s
  {
  }

  /** A turn of the main loop, seen from a whole run that began in `start` with request `i`. */
  lemma TurnServes(start: Server, s: Server, queue: seq<Arrival>, i: nat, k: nat, j: nat, got: bool)
    requires i <= k <= j <= |queue| && s == Served(start, queue[i..k]) && (got ==> k < j)
    requires forall d | k <= d < (if got then j - 1 else j) :: Received(s, queue[d]).1 == -1
    ensures Served(start, queue[i..j]) == if got then Handled(s, queue[j - 1]) else s
  {
    forall d | k <= d < (if got then j - 1 else j) ensures Handled(s, queue[d]) == s {
      DroppedChangesNothing(s, queue[d]);
    }
    OneTurn(Handled, start, s, queue, i, k, j, got);
  }
}
