/** The error trace of common/ec.c: a list of contexts with one static node and one static
    string to fall back on when memory runs out. */
module ErrorTrace {
  import opened CStrings
  import opened Wrappers

  datatype ErrorType = Errno | Eai | GetDate | NoCode

  /** Where a node's text is: nowhere, in an allocated block, in the static string, or in the
      literal "?". */
  datatype Context = Null | HeapString(id: nat) | StaticString | Literal

  /** What `ec_push` is told; `str` may be a null pointer. */
  datatype Report = Report(fcn: string, file: string, line: string, str: Option<string>, errno: int, kind: ErrorType)

  /** Whether the two allocations of one `ec_push` succeed. */
  datatype Luck = Luck(text: bool, node: bool)

  function Text(r: Report): string {
    r.fcn + " [" + r.file + ":" + r.line + "] " + if r.str.Some? then r.str.value else ""
  }

  /** The size `ec_push` allocates: six characters for the line number, and one for the NUL. */
  function Size(r: Report): nat {
    |r.fcn| + 2 + |r.file| + 1 + 6 + 2 + (if r.str.Some? then |r.str.value| else 0) + 1
  }

  const STATIC_SIZE := 100

  /** What `snprintf` leaves in a buffer of `size` characters. */
  function Printed(text: string, size: nat): string
    requires 0 < size
  {
    if |text| < size then text else text[..size - 1]
  }

  // ---------- The trace as a value ----------

  /** A listed error; `node` is None for the static node. */
  datatype Entry = Entry(node: Node, context: Context, text: string, errno: int, kind: ErrorType)
  datatype Node = HeapNode(id: nat) | StaticNode

  /** The trace, newest error first, and the memory behind it: the numbers of nodes and of
      strings allocated so far, the entries freed since the program began, the strings that
      never got a node, and whether the literal was written to or freed, which C leaves
      undefined. */
  datatype Trace = Trace(
    entries: seq<Entry>,
    staticUsed: bool,
    nodes: nat,
    strings: nat,
    freed: seq<Entry>,
    lost: set<nat>,
    undefined: bool)

  const EMPTY := Trace([], false, 0, 0, [], {}, false)

  predicate StaticListed(entries: seq<Entry>) {
    exists i | 0 <= i < |entries| :: entries[i].node == StaticNode
  }

  function ContextFor(t: Trace, r: Report, ok: bool): (Context, string) {
    if ok then (HeapString(t.strings), Printed(Text(r), Size(r)))
    else if !t.staticUsed then (StaticString, Printed(Text(r), STATIC_SIZE))
    else (Literal, "?")
  }

  /** The memory after the string for a context has been found. */
  function Prepared(t: Trace, ok: bool): Trace {
    t.(strings := t.strings + if ok then 1 else 0,
       staticUsed := t.staticUsed || !ok,
       undefined := t.undefined || (!ok && t.staticUsed))
  }

  /** A context put on the list: in an allocated node, or in the static one if it is not on
      the list, or not at all. */
  function Placed(t: Trace, context: Context, text: string, r: Report, ok: bool): Trace {
    if ok then
      t.(nodes := t.nodes + 1, entries := [Entry(HeapNode(t.nodes), context, text, r.errno, r.kind)] + t.entries)
    else if !StaticListed(t.entries) then
      t.(entries := [Entry(StaticNode, context, text, r.errno, r.kind)] + t.entries)
    else if context.HeapString? then
      t.(lost := t.lost + {context.id})
    else
      t
  }

  /** `ec_push`. */
  function Pushed(t: Trace, r: Report, luck: Luck): Trace {
    var (context, text) := ContextFor(t, r, luck.text);
    Placed(Prepared(t, luck.text), context, text, r, luck.node)
  }

  /** How often the allocated node `id` occurs among entries. */
  function NodeCount(entries: seq<Entry>, id: nat): nat {
    if entries == [] then 0 else (if entries[0].node == HeapNode(id) then 1 else 0) + NodeCount(entries[1..], id)
  }

  function StringCount(entries: seq<Entry>, id: nat): nat {
    if entries == [] then 0 else (if entries[0].context == HeapString(id) then 1 else 0) + StringCount(entries[1..], id)
  }

  predicate LiteralListed(entries: seq<Entry>) {
    exists i | 0 <= i < |entries| :: entries[i].context == Literal
  }

  /** `ec_reinit`. */
  function Reinitialized(t: Trace): Trace {
    t.(entries := [], staticUsed := false,
       freed := t.freed + t.entries,
       undefined := t.undefined || LiteralListed(t.entries))
  }

  // ---------- What every push and reinit keeps ----------

  function StaticNodes(entries: seq<Entry>): nat {
    if entries == [] then 0 else (if entries[0].node == StaticNode then 1 else 0) + StaticNodes(entries[1..])
  }

  function StaticStrings(entries: seq<Entry>): nat {
    if entries == [] then 0 else (if entries[0].context == StaticString then 1 else 0) + StaticStrings(entries[1..])
  }

  function NodePlaces(t: Trace, id: nat): nat {
    NodeCount(t.entries, id) + NodeCount(t.freed, id)
  }

  function StringPlaces(t: Trace, id: nat): nat {
    StringCount(t.entries, id) + StringCount(t.freed, id) + if id in t.lost then 1 else 0
  }

  /** Every node and every string ever allocated is in one place: on the list, or freed once,
      or, a string, lost with the node that could not be had.  The static node and the static
      string are each listed at most once. */
  ghost predicate Sound(t: Trace) {
    && (forall id: nat :: NodePlaces(t, id) == if id < t.nodes then 1 else 0)
    && (forall id: nat :: StringPlaces(t, id) == if id < t.strings then 1 else 0)
    && StaticNodes(t.entries) <= 1
    && StaticStrings(t.entries) <= (if t.staticUsed then 1 else 0)
    && (!t.undefined ==> !LiteralListed(t.entries))
  }

  lemma {:induction false} NoStaticNode(entries: seq<Entry>)
    ensures StaticNodes(entries) == 0 <==> !StaticListed(entries)
  {
    if entries != [] {
      NoStaticNode(entries[1..]);
      if StaticListed(entries[1..]) {
        var i :| 0 <= i < |entries[1..]| && entries[1..][i].node == StaticNode;
        assert entries[i + 1].node == StaticNode;
      }
      if StaticListed(entries) && entries[0].node != StaticNode {
        var i :| 0 <= i < |entries| && entries[i].node == StaticNode;
        assert entries[1..][i - 1].node == StaticNode;
      }
    }
  }

  lemma Cons(e: Entry, entries: seq<Entry>)
    ensures ([e] + entries)[1..] == entries
    ensures LiteralListed([e] + entries) ==> e.context == Literal || LiteralListed(entries)
  {
    if LiteralListed([e] + entries) && e.context != Literal {
      var i :| 0 <= i < |[e] + entries| && ([e] + entries)[i].context == Literal;
      assert entries[i - 1].context == Literal;
    }
  }

  lemma {:induction false} CountJoin(a: seq<Entry>, b: seq<Entry>, id: nat)
    ensures NodeCount(a + b, id) == NodeCount(a, id) + NodeCount(b, id)
    ensures StringCount(a + b, id) == StringCount(a, id) + StringCount(b, id)
    decreases |a|
  {
    if a == [] {
      assert a + b == b;
    } else {
      assert (a + b)[1..] == a[1..] + b;
      CountJoin(a[1..], b, id);
    }
  }

  /** A push puts the new node and the new string in one place each, and moves no other. */
  lemma PushedPlaces(t: Trace, r: Report, luck: Luck, id: nat)
    requires t.strings !in t.lost
    ensures var p := Pushed(t, r, luck);
      && NodePlaces(p, id) == NodePlaces(t, id) + (if luck.node && id == t.nodes then 1 else 0)
      && StringPlaces(p, id) == StringPlaces(t, id) + (if luck.text && id == t.strings then 1 else 0)
  {
    var (context, text) := ContextFor(t, r, luck.text);
    if luck.node {
      Cons(Entry(HeapNode(t.nodes), context, text, r.errno, r.kind), t.entries);
    } else if !StaticListed(t.entries) {
      Cons(Entry(StaticNode, context, text, r.errno, r.kind), t.entries);
    }
  }

  lemma StaticsSound(t: Trace, context: Context, text: string, r: Report, ok: bool)
    requires StaticNodes(t.entries) <= 1
    requires StaticStrings(t.entries) + (if context == StaticString then 1 else 0) <= (if t.staticUsed then 1 else 0)
    requires !t.undefined ==> !LiteralListed(t.entries) && context != Literal
    ensures var p := Placed(t, context, text, r, ok);
            && StaticNodes(p.entries) <= 1 && StaticStrings(p.entries) <= (if p.staticUsed then 1 else 0)
            && (!p.undefined ==> !LiteralListed(p.entries))
  {
    NoStaticNode(t.entries);
    if ok {
      Cons(Entry(HeapNode(t.nodes), context, text, r.errno, r.kind), t.entries);
    } else if !StaticListed(t.entries) {
      Cons(Entry(StaticNode, context, text, r.errno, r.kind), t.entries);
    }
  }

  lemma PushedSound(t: Trace, r: Report, luck: Luck)
    requires Sound(t)
    ensures Sound(Pushed(t, r, luck))
  {
    var (context, text) := ContextFor(t, r, luck.text);
    var t1 := Prepared(t, luck.text);
    assert StringPlaces(t, t.strings) == 0;
    forall id: nat
      ensures NodePlaces(Pushed(t, r, luck), id) == if id < Pushed(t, r, luck).nodes then 1 else 0
      ensures StringPlaces(Pushed(t, r, luck), id) == if id < Pushed(t, r, luck).strings then 1 else 0
    {
      PushedPlaces(t, r, luck, id);
    }
    StaticsSound(t1, context, text, r, luck.node);
  }

  lemma ReinitializedSound(t: Trace)
    requires Sound(t)
    ensures Sound(Reinitialized(t))
  {
    forall id: nat
      ensures NodePlaces(Reinitialized(t), id) == NodePlaces(t, id)
      ensures StringPlaces(Reinitialized(t), id) == StringPlaces(t, id)
    {
      CountJoin(t.freed, t.entries, id);
    }
  }

  /** The strings still allocated are those not freed yet. */
  ghost predicate Accounted(t: Trace, live: set<nat>) {
    Sound(t) && forall id: nat :: id in live <==> id < t.strings && StringCount(t.freed, id) == 0
  }

  lemma PushedAccounted(t: Trace, r: Report, luck: Luck, live: set<nat>)
    requires Accounted(t, live)
    ensures Accounted(Pushed(t, r, luck), live + if luck.text then {t.strings} else {})
  {
    PushedSound(t, r, luck);
    assert StringPlaces(t, t.strings) == 0;
  }

  /** Clearing a trace whose listed strings have been freed. */
  lemma ReinitializedAccounted(t: Trace, before: set<nat>, after: set<nat>)
    requires Accounted(t, before)
    requires forall id: nat :: id in after <==> id in before && StringCount(t.entries, id) == 0
    ensures Accounted(Reinitialized(t), after)
  {
    ReinitializedSound(t);
    forall id: nat
      ensures StringCount(t.freed + t.entries, id) == StringCount(t.freed, id) + StringCount(t.entries, id)
    {
      CountJoin(t.freed, t.entries, id);
    }
  }

  // ---------- Whole runs ----------

  datatype Op = Push(r: Report, luck: Luck) | Reinit

  function Apply(t: Trace, op: Op): Trace {
    match op
    case Push(r, luck) => Pushed(t, r, luck)
    case Reinit => Reinitialized(t)
  }

  function Run(t: Trace, ops: seq<Op>): Trace
    decreases |ops|
  {
    if ops == [] then t else Run(Apply(t, ops[0]), ops[1..])
  }

  /** At most one allocation of a context fails between two reinits; `used` says that one has
      failed already. */
  predicate OneTextFailure(ops: seq<Op>, used: bool)
    decreases |ops|
  {
    if ops == [] then true
    else if ops[0].Reinit? then OneTextFailure(ops[1..], false)
    else (ops[0].luck.text || !used) && OneTextFailure(ops[1..], used || !ops[0].luck.text)
  }

  lemma ApplySound(t: Trace, op: Op)
    requires Sound(t)
    ensures Sound(Apply(t, op))
  {
    if op.Push? {
      PushedSound(t, op.r, op.luck);
    } else {
      ReinitializedSound(t);
    }
  }

  lemma ApplyDefined(t: Trace, op: Op)
    requires Sound(t) && !t.undefined
    ensures var t1 := Apply(t, op);
            && Sound(t1)
            && (t1.undefined <==> op.Push? && !op.luck.text && t.staticUsed)
            && (t1.staticUsed <==> op.Push? && (t.staticUsed || !op.luck.text))
  {
    ApplySound(t, op);
  }

  lemma {:induction false} RunSound(t: Trace, ops: seq<Op>)
    requires Sound(t)
    ensures Sound(Run(t, ops))
    decreases |ops|
  {
    if ops != [] {
      ApplySound(t, ops[0]);
      RunSound(Apply(t, ops[0]), ops[1..]);
    }
  }

  lemma {:induction false} UndefinedStays(t: Trace, ops: seq<Op>)
    requires t.undefined
    ensures Run(t, ops).undefined
    decreases |ops|
  {
    if ops != [] {
      UndefinedStays(Apply(t, ops[0]), ops[1..]);
    }
  }

  /** The literal is neither written to nor freed exactly as long as at most one allocation of
      a context fails between two reinits. */
  lemma {:induction false} DefinedIff(t: Trace, ops: seq<Op>)
    requires Sound(t) && !t.undefined
    ensures !Run(t, ops).undefined <==> OneTextFailure(ops, t.staticUsed)
    decreases |ops|
  {
    if ops != [] {
      var t1 := Apply(t, ops[0]);
      ApplyDefined(t, ops[0]);
      if t1.undefined {
        UndefinedStays(t1, ops[1..]);
      } else {
        DefinedIff(t1, ops[1..]);
      }
    }
  }

  lemma {:induction false} RunLast(t: Trace, ops: seq<Op>, op: Op)
    ensures Run(t, ops + [op]) == Apply(Run(t, ops), op)
    decreases |ops|
  {
    if ops == [] {
      assert [] + [op] == [op];
    } else {
      assert (ops + [op])[1..] == ops[1..] + [op];
      RunLast(Apply(t, ops[0]), ops[1..], op);
    }
  }

  // ---------- What the trace shows ----------

  /** Whether the allocation of a node has failed since the last reinit. */
  predicate NodeFailed(ops: seq<Op>) {
    ops != [] &&
    var op := ops[|ops| - 1];
    op.Push? && (!op.luck.node || NodeFailed(ops[..|ops| - 1]))
  }

  /** Whether the allocation of a context has. */
  predicate TextFailed(ops: seq<Op>) {
    ops != [] &&
    var op := ops[|ops| - 1];
    op.Push? && (!op.luck.text || TextFailed(ops[..|ops| - 1]))
  }

  /** An error as it can be seen in the trace, with the warning or without. */
  datatype Shown = Shown(text: string, errno: int, kind: ErrorType, warned: bool)

  function ShownBy(e: Entry): Shown {
    Shown(e.text, e.errno, e.kind, e.node == StaticNode)
  }

  /** The text of a report: cut to its own size, or to the static string's in its place, or "?". */
  function ShownText(r: Report, ok: bool, staticUsed: bool): string {
    if ok then Printed(Text(r), Size(r)) else if !staticUsed then Printed(Text(r), STATIC_SIZE) else "?"
  }

  /** The errors pushed since the last reinit, newest first, but for those whose node could not
      be allocated when that had happened before: the first of these has the warning. */
  function Reported(ops: seq<Op>): seq<Shown> {
    if ops == [] then []
    else
      var before, op := ops[..|ops| - 1], ops[|ops| - 1];
      match op
      case Reinit => []
      case Push(r, luck) =>
        (if luck.node || !NodeFailed(before) then
           [Shown(ShownText(r, luck.text, TextFailed(before)), r.errno, r.kind, !luck.node)]
         else []) + Reported(before)
  }

  /** The entries of a trace show `shown`, and its static node and string are used as told. */
  ghost predicate Tells(t: Trace, shown: seq<Shown>, nodeFailed: bool, textFailed: bool) {
    && |t.entries| == |shown| && (forall i | 0 <= i < |shown| :: ShownBy(t.entries[i]) == shown[i])
    && (StaticListed(t.entries) <==> nodeFailed) && (t.staticUsed <==> textFailed)
  }

  lemma PushedTells(t: Trace, r: Report, luck: Luck, shown: seq<Shown>, nodeFailed: bool, textFailed: bool)
    requires Tells(t, shown, nodeFailed, textFailed)
    ensures Tells(Pushed(t, r, luck),
                  (if luck.node || !nodeFailed then
                     [Shown(ShownText(r, luck.text, textFailed), r.errno, r.kind, !luck.node)] else []) + shown,
                  nodeFailed || !luck.node, textFailed || !luck.text)
  {
    var entries := Pushed(t, r, luck).entries;
    if luck.node || !nodeFailed {
      assert entries == [entries[0]] + t.entries;
      NoStaticNode(entries);
      NoStaticNode(t.entries);
    } else {
      assert [] + shown == shown;
    }
  }

  /** After any run, whatever allocations failed, the trace shows the errors pushed since the last
      reinit, newest first, and misses only those after the first failure to allocate a node. */
  lemma {:induction false} TraceShows(ops: seq<Op>)
    ensures Tells(Run(EMPTY, ops), Reported(ops), NodeFailed(ops), TextFailed(ops))
  {
    if ops != [] {
      var before, op := ops[..|ops| - 1], ops[|ops| - 1];
      TraceShows(before);
      RunLast(EMPTY, before, op);
      assert ops == before + [op];
      if op.Push? {
        PushedTells(Run(EMPTY, before), op.r, op.luck, Reported(before), NodeFailed(before), TextFailed(before));
      }
    }
  }

  function Message(r: Report): string {
    if r.str.Some? then r.str.value else ""
  }

  /** How the newest error is shown, if its text could be allocated and it is listed: the function,
      the file in brackets with the line after a colon, the message; cut only by as many
      characters as the line number has more than six. */
  lemma ShownInFull(ops: seq<Op>, r: Report, node: bool)
    requires node || !NodeFailed(ops)
    ensures var shown := Reported(ops + [Push(r, Luck(true, node))]);
      && shown != [] && (shown[0].errno, shown[0].kind, shown[0].warned) == (r.errno, r.kind, !node)
      && shown[1..] == Reported(ops)
      && var t, a := shown[0].text, |r.fcn|;
         var b := a + 2 + |r.file|;
         var c := b + 1 + |r.line|;
         && |t| == a + 2 + |r.file| + 1 + Min(|r.line|, 6) + 2 + |Message(r)|
         && t[..a] == r.fcn && t[a] == ' ' && t[a + 1] == '[' && t[a + 2..b] == r.file && t[b] == ':'
         && (|r.line| <= 6 ==> t[b + 1..c] == r.line && t[c] == ']' && t[c + 1] == ' ' && t[c + 2..] == Message(r))
  {
    var op := Push(r, Luck(true, node));
    assert (ops + [op])[..|ops|] == ops && (ops + [op])[|ops|] == op;
    var t := Reported(ops + [op])[0].text;
    assert t == Printed(Text(r), Size(r));
    TextParts(r);
  }

  lemma TextParts(r: Report)
    ensures var t, a := Printed(Text(r), Size(r)), |r.fcn|;
         var b := a + 2 + |r.file|;
         var c := b + 1 + |r.line|;
         && |t| == a + 2 + |r.file| + 1 + Min(|r.line|, 6) + 2 + |Message(r)|
         && t[..a] == r.fcn && t[a] == ' ' && t[a + 1] == '[' && t[a + 2..b] == r.file && t[b] == ':'
         && (|r.line| <= 6 ==> t[b + 1..c] == r.line && t[c] == ']' && t[c + 1] == ' ' && t[c + 2..] == Message(r))
  {
    var a := |r.fcn|;
    var b := a + 2 + |r.file|;
    var c := b + 1 + |r.line|;
    var x := Text(r);
    assert x[..a] == r.fcn && x[a] == ' ' && x[a + 1] == '[' && x[a + 2..b] == r.file && x[b] == ':';
    assert x[b + 1..c] == r.line && x[c] == ']' && x[c + 1] == ' ' && x[c + 2..] == Message(r);
  }

  /** Without memory for its text: the same, cut to 99 characters, if it is the first such error
      since the last reinit, and a question mark otherwise. */
  lemma ShownInPart(ops: seq<Op>, r: Report, node: bool)
    requires (node || !NodeFailed(ops)) && |r.line| <= 6
    ensures var full := Reported(ops + [Push(r, Luck(true, node))]);
      var part := Reported(ops + [Push(r, Luck(false, node))]);
      && full != [] && part != [] && part[1..] == full[1..]
      && var text := full[0].text;
         part[0].text == if TextFailed(ops) then "?" else if |text| <= 99 then text else text[..99]
  {
    ShownInFull(ops, r, node);
    var op := Push(r, Luck(false, node));
    assert (ops + [op])[..|ops|] == ops && (ops + [op])[|ops|] == op;
    assert (ops + [Push(r, Luck(true, node))])[..|ops|] == ops;
    assert Printed(Text(r), Size(r)) == Text(r);
  }

  /** The line that is printed for each error: with the warning if its node is the static one, its
      level, its text and kind, and the error number of the oldest only. */
  lemma PrintedLines(ops: seq<Op>)
    ensures var lines, shown := Lines(Run(EMPTY, ops).entries), Reported(ops);
      && |lines| == |shown|
      && forall i | 0 <= i < |lines| ::
           && lines[i].incomplete == shown[i].warned && lines[i].level == i && lines[i].text == shown[i].text
           && lines[i].errno == (if i < |lines| - 1 then 0 else shown[i].errno) && lines[i].kind == shown[i].kind
  {
    TraceShows(ops);
    var entries, shown := Run(EMPTY, ops).entries, Reported(ops);
    forall i | 0 <= i < |entries| ensures ShownBy(entries[i]) == shown[i] {
    }
  }

  // ---------- What the run lost ----------

  /** A context could be allocated for some error, and no node for it, when that had happened
      before since the last reinit. */
  predicate LosesSome(ops: seq<Op>) {
    ops != [] &&
    var before, op := ops[..|ops| - 1], ops[|ops| - 1];
    LosesSome(before) || (op.Push? && op.luck.text && !op.luck.node && NodeFailed(before))
  }

  /** How many texts and how many nodes could be allocated. */
  function TextsMade(ops: seq<Op>): nat {
    if ops == [] then 0
    else
      var op := ops[|ops| - 1];
      TextsMade(ops[..|ops| - 1]) + if op.Push? && op.luck.text then 1 else 0
  }

  function NodesMade(ops: seq<Op>): nat {
    if ops == [] then 0
    else
      var op := ops[|ops| - 1];
      NodesMade(ops[..|ops| - 1]) + if op.Push? && op.luck.node then 1 else 0
  }

  /** The texts, numbered as they were allocated, that are for errors of that kind. */
  function LostTexts(ops: seq<Op>): set<nat> {
    if ops == [] then {}
    else
      var before, op := ops[..|ops| - 1], ops[|ops| - 1];
      if op.Push? && op.luck.text && !op.luck.node && NodeFailed(before) then LostTexts(before) + {TextsMade(before)}
      else LostTexts(before)
  }

  lemma PushedLoses(t: Trace, r: Report, luck: Luck)
    ensures var p := Pushed(t, r, luck);
      && p.lost == (if luck.text && !luck.node && StaticListed(t.entries) then t.lost + {t.strings} else t.lost)
      && p.strings == t.strings + (if luck.text then 1 else 0)
      && p.nodes == t.nodes + (if luck.node then 1 else 0)
  {
  }

  /** After any run the allocated and the lost memory is told by the allocations that failed. */
  lemma {:induction false} MemoryIs(ops: seq<Op>)
    ensures var t := Run(EMPTY, ops);
            t.lost == LostTexts(ops) && t.strings == TextsMade(ops) && t.nodes == NodesMade(ops)
  {
    if ops != [] {
      var before, op := ops[..|ops| - 1], ops[|ops| - 1];
      MemoryIs(before);
      RunLast(EMPTY, before, op);
      assert ops == before + [op];
      if op.Push? {
        StaticListedIffFailed(before);
        PushedLoses(Run(EMPTY, before), op.r, op.luck);
      }
    }
  }

  lemma StaticListedIffFailed(ops: seq<Op>)
    ensures StaticListed(Run(EMPTY, ops).entries) <==> NodeFailed(ops)
  {
    TraceShows(ops);
  }

  lemma {:induction false} LostTextsIff(ops: seq<Op>)
    ensures LostTexts(ops) != {} <==> LosesSome(ops)
  {
    if ops != [] {
      LostTextsIff(ops[..|ops| - 1]);
    }
  }

  /** A run loses memory exactly if it has such an error. */
  lemma LosesIff(ops: seq<Op>)
    ensures Run(EMPTY, ops).lost != {} <==> LosesSome(ops)
  {
    MemoryIs(ops);
    LostTextsIff(ops);
  }

  /** After any run and a reinit, whatever allocations failed: every node that could be allocated was
      freed exactly once, and so was every string, but for those of the errors that found memory
      for their text and none for their node, which had happened before since a reinit; nothing is
      listed, and the static string can be used again. */
  lemma ReinitFreesAll(ops: seq<Op>)
    ensures var t := Run(EMPTY, ops + [Reinit]);
            && (forall id: nat :: NodeCount(t.freed, id) == if id < NodesMade(ops) then 1 else 0)
            && (forall id: nat ::
                  StringCount(t.freed, id) == if id < TextsMade(ops) && id !in LostTexts(ops) then 1 else 0)
            && t.entries == [] && !t.staticUsed
  {
    RunSound(EMPTY, ops + [Reinit]);
    RunLast(EMPTY, ops, Reinit);
    MemoryIs(ops);
    var t := Run(EMPTY, ops + [Reinit]);
    forall id: nat
      ensures NodeCount(t.freed, id) == NodePlaces(t, id)
      ensures StringCount(t.freed, id) + (if id in t.lost then 1 else 0) == StringPlaces(t, id)
    {
    }
  }

  /** Two errors without nodes are enough. */
  lemma SecondIsLost(r: Report)
    ensures Run(EMPTY, [Push(r, Luck(true, false)), Push(r, Luck(true, false))]).lost != {}
  {
    var op := Push(r, Luck(true, false));
    assert [op, op][..1] == [op] && NodeFailed([op]);
    LosesIff([op, op]);
  }

  /** And two without texts for C to leave the run undefined. */
  lemma SecondIsUndefined(r: Report)
    ensures Run(EMPTY, [Push(r, Luck(false, true)), Push(r, Luck(false, true))]).undefined
  {
    var op := Push(r, Luck(false, true));
    RunSound(EMPTY, []);
    assert [op, op][1..] == [op];
    DefinedIff(EMPTY, [op, op]);
  }

  // ---------- What is printed ----------

  function Pushes(ops: seq<Op>): nat {
    if ops == [] || ops[|ops| - 1].Reinit? then 0 else Pushes(ops[..|ops| - 1]) + 1
  }

  lemma {:induction false} NoneMissing(ops: seq<Op>)
    ensures |Reported(ops)| <= Pushes(ops)
    ensures !NodeFailed(ops) ==> |Reported(ops)| == Pushes(ops)
  {
    if ops != [] {
      NoneMissing(ops[..|ops| - 1]);
    }
  }

  /** No error is missing in silence: the printed lines carry the warning that the trace may be
      incomplete exactly if a node could not be allocated since the last reinit, and without it
      there is a line for every error. */
  lemma WarnedIffNodeFailed(ops: seq<Op>)
    ensures var lines := Lines(Run(EMPTY, ops).entries);
      && ((exists i | 0 <= i < |lines| :: lines[i].incomplete) <==> NodeFailed(ops))
      && (!NodeFailed(ops) ==> |lines| == Pushes(ops))
  {
    TraceShows(ops);
    NoneMissing(ops);
    var entries := Run(EMPTY, ops).entries;
    var lines := Lines(entries);
    forall i | 0 <= i < |lines| ensures lines[i].incomplete <==> entries[i].node == StaticNode {
    }
    if NodeFailed(ops) {
      var i :| 0 <= i < |entries| && entries[i].node == StaticNode;
      assert lines[i].incomplete;
    }
  }

  /** What is pushed when `atexit` fails inside the first `ec_push`. */
  function AtexitReport(r: Report, errno: int): Report {
    r.(str := Some("atexit failed"), errno := errno, kind := Errno)
  }

  // ---------- The trace as a linked list ----------

  /** The strings contexts point to: the allocated ones and the static one, which is empty
      while it is not in use. */
  datatype Texts = Texts(heap: map<nat, string>, fallback: string)

  function TextOf(context: Context, texts: Texts): string {
    match context
    case Null => ""
    case HeapString(id) => if id in texts.heap then texts.heap[id] else ""
    case StaticString => texts.fallback
    case Literal => "?"
  }

  predicate Usable(context: Context, texts: Texts) {
    && context != Null
    && (context.HeapString? ==> context.id in texts.heap)
    && (context == StaticString ==> texts.fallback != "")
  }

  /** No text in use differs. */
  predicate Preserves(before: Texts, after: Texts) {
    && (forall id | id in before.heap :: id in after.heap && after.heap[id] == before.heap[id])
    && (before.fallback != "" ==> after.fallback == before.fallback)
  }

  /** One line more of what `ec_print` prints. */
  lemma LinesMore(entries: seq<Entry>, level: nat)
    requires level < |entries|
    ensures Lines(entries)[..level + 1] == Lines(entries)[..level] +
              [Line(entries[level].node == StaticNode, level, entries[level].text,
                    if level == |entries| - 1 then entries[level].errno else 0, entries[level].kind)]
  {
  }

  class EcNode {
    ghost const node: Node
    var next: EcNode?
    var errno: int
    var kind: ErrorType
    var context: Context

    constructor (ghost node: Node)
      ensures this.node == node && context == Null && next == null
    {
      this.node, next, errno, kind, context := node, null, 0, Errno, Null;
    }
  }

  /** A place in a list of nodes, or null at its end. */
  function At(list: seq<EcNode>, i: nat): EcNode? {
    if i < |list| then list[i] else null
  }

  /** A line of `ec_print`: whether the warning precedes it, its level, its text, and the
      error number it is given. */
  datatype Line = Line(incomplete: bool, level: nat, text: string, errno: int, kind: ErrorType)

  function Lines(entries: seq<Entry>): (lines: seq<Line>) {
    seq(|entries|, i requires 0 <= i < |entries| =>
      Line(entries[i].node == StaticNode, i, entries[i].text,
           if i == |entries| - 1 then entries[i].errno else 0, entries[i].kind))
  }

  class Ec {
    var head: EcNode?
    const emergency: EcNode
    var texts: Texts
    var nextString: nat
    var atexitCalled: bool
    var locked: bool
    ghost var list: seq<EcNode>    // the linked list
    ghost var live: set<EcNode>    // the allocated nodes
    ghost var t: Trace

    ghost predicate Shows(n: EcNode, e: Entry, texts: Texts)
      reads n
    {
      && e == Entry(n.node, n.context, TextOf(n.context, texts), n.errno, n.kind)
      && Usable(n.context, texts)
      && (n.node == StaticNode <==> n == emergency)
    }

    /** From `first` on, the nodes of `list` are linked in this order, the last one ends the
        list, and they show `entries`. */
    ghost predicate Chain(first: EcNode?, list: seq<EcNode>, entries: seq<Entry>, texts: Texts)
      reads list
    {
      if list == [] then first == null && entries == []
      else
        && first == list[0] && entries != [] && Shows(list[0], entries[0], texts)
        && Chain(list[0].next, list[1..], entries[1..], texts)
    }

    /** The same, place by place. */
    ghost predicate Linked(first: EcNode?, list: seq<EcNode>)
      reads list
    {
      && first == At(list, 0)
      && (forall i, j | 0 <= i < |list| && 0 <= j < |list| && j == i + 1 :: list[i].next == list[j])
      && (list != [] ==> list[|list| - 1].next == null)
    }

    /** The nodes show the entries. */
    ghost predicate ShowsAll(list: seq<EcNode>, entries: seq<Entry>, texts: Texts)
      reads list
    {
      |list| == |entries| && forall i | 0 <= i < |list| :: Shows(list[i], entries[i], texts)
    }

    ghost predicate Valid()
      reads this, emergency, list
    {
      !locked && Consistent() && Accounted(t, texts.heap.Keys)
    }

    ghost predicate Consistent()
      reads `head, `list, `live, `t, `texts, `nextString, emergency, list
    {
      && Chain(head, list, t.entries, texts)
      && (forall n | n in list :: n == emergency || n in live)
      && emergency.node == StaticNode && (emergency.context != Null <==> emergency in list)
      && emergency !in live
      && (texts.fallback != "" <==> t.staticUsed)
      && nextString == t.strings
    }

    constructor ()
      ensures Valid() && t == EMPTY && fresh(emergency) && !atexitCalled
    {
      head, texts, nextString, atexitCalled, locked := null, Texts(map[], ""), 0, false, false;
      emergency := new EcNode(StaticNode);
      list, live, t := [], {}, EMPTY;
    }

    method Mutex(lock: bool)
      requires locked != lock
      modifies `locked
      ensures locked == lock
    {
      locked := lock;
    }

    lemma {:induction false} ChainIs(first: EcNode?, list: seq<EcNode>, entries: seq<Entry>, texts: Texts)
      requires Chain(first, list, entries, texts)
      ensures Linked(first, list) && ShowsAll(list, entries, texts)
      decreases |list|
    {
      if list != [] {
        ChainIs(list[0].next, list[1..], entries[1..], texts);
        forall i, j | 0 <= i < |list| && 0 <= j < |list| && j == i + 1 ensures list[i].next == list[j] {
          assert list[j] == list[1..][i];
          assert i > 0 ==> list[i] == list[1..][i - 1];
        }
        forall i | 0 <= i < |list| ensures Shows(list[i], entries[i], texts) {
          assert i > 0 ==> list[i] == list[1..][i - 1] && entries[i] == entries[1..][i - 1];
        }
      }
    }

    /** The list shows the same while no text it uses changes. */
    lemma {:induction false} ChainKept(
      first: EcNode?, list: seq<EcNode>, entries: seq<Entry>, before: Texts, after: Texts)
      requires Chain(first, list, entries, before) && Preserves(before, after)
      ensures Chain(first, list, entries, after)
      decreases |list|
    {
      if list != [] {
        ChainKept(list[0].next, list[1..], entries[1..], before, after);
      }
    }

    /** A string for the context: allocated, static, or the literal. */
    method NewContext(r: Report, ok: bool) returns (context: Context)
      requires Consistent() && nextString !in texts.heap
      modifies `texts, `nextString, `t
      ensures Consistent() && t == Prepared(old(t), ok)
      ensures (context, TextOf(context, texts)) == ContextFor(old(t), r, ok)
      ensures texts.heap.Keys == old(texts).heap.Keys + (if ok then {old(nextString)} else {})
      ensures Usable(context, texts)
    {
      var text := Text(r);
      if ok {
        context := HeapString(nextString);
        texts := texts.(heap := texts.heap[nextString := Printed(text, Size(r))]);
        nextString := nextString + 1;
      } else if texts.fallback == "" {
        context := StaticString;
        texts := texts.(fallback := Printed(text, STATIC_SIZE));
      } else {
        context := Literal;
      }
      t := Prepared(t, ok);
      ChainKept(head, list, t.entries, old(texts), texts);
    }

    /** The three assignments that put a node at the head of the list. */
    method Insert(p: EcNode, context: Context, r: Report)
      requires Consistent() && Usable(context, texts)
      requires p !in list && (p.node == StaticNode <==> p == emergency) && (p == emergency || p in live)
      modifies `head, `list, `t, p
      ensures Consistent() && list == [p] + old(list)
      ensures var e := Entry(p.node, context, TextOf(context, texts), r.errno, r.kind);
              t == old(t).(entries := [e] + old(t).entries)
    {
      t := t.(entries := [Entry(p.node, context, TextOf(context, texts), r.errno, r.kind)] + t.entries);
      p.next, p.context, p.errno, p.kind := head, context, r.errno, r.kind;
      head := p;
      list := [p] + list;
      assert list[1..] == old(list) && t.entries[1..] == old(t).entries;
    }

    /** A node for the context, if there is one. */
    method NewNode(context: Context, r: Report, ok: bool)
      requires Consistent() && Usable(context, texts)
      modifies `head, `list, `live, `t, emergency
      ensures Consistent() && t == Placed(old(t), context, TextOf(context, texts), r, ok)
    {
      StaticListedIff(head, list, t.entries, texts);
      if ok {
        var p := new EcNode(HeapNode(t.nodes));
        live := live + {p};
        t := t.(nodes := t.nodes + 1);
        Insert(p, context, r);
      } else if emergency.context == Null {
        Insert(emergency, context, r);
      } else if context.HeapString? {
        t := t.(lost := t.lost + {context.id});
      }
    }

    lemma StaticListedIff(first: EcNode?, list: seq<EcNode>, entries: seq<Entry>, texts: Texts)
      requires Chain(first, list, entries, texts)
      ensures StaticListed(entries) <==> emergency in list
    {
      ChainIs(first, list, entries, texts);
      if emergency in list {
        var i :| 0 <= i < |list| && list[i] == emergency;
        assert Shows(list[i], entries[i], texts);
      }
    }

    /** What `ec_push` does under its mutex. */
    method Record(r: Report, luck: Luck)
      requires Consistent() && Accounted(t, texts.heap.Keys)
      modifies `head, `list, `live, `t, `texts, `nextString, emergency
      ensures Consistent() && Accounted(t, texts.heap.Keys) && t == Pushed(old(t), r, luck)
    {
      PushedAccounted(t, r, luck, texts.heap.Keys);
      var context := NewContext(r, luck.text);
      NewNode(context, r, luck.node);
    }

    /** The part of `ec_push` that holds the mutex; says whether this was the first call. */
    method RecordLocked(r: Report, luck: Luck) returns (first: bool)
      requires Valid()
      modifies this, emergency
      ensures Valid() && t == Pushed(old(t), r, luck)
      ensures first == !old(atexitCalled) && atexitCalled
    {
      Mutex(true);
      Record(r, luck);
      first := !atexitCalled;
      atexitCalled := true;
      Mutex(false);
    }

    /** `ec_push`.  The first call registers the printing at exit; if that fails, one more
        error is pushed, with the mutex released, and all is printed; that push is not the first,
        so it does no more than record. */
    method Push(r: Report, luck: Luck, atexitFails: bool, atexitErrno: int, again: Luck)
      requires Valid()
      modifies this, emergency
      ensures Valid() && atexitCalled
      ensures t == if !old(atexitCalled) && atexitFails
                   then Pushed(Pushed(old(t), r, luck),
                               r.(str := Some("atexit failed"), errno := atexitErrno, kind := Errno), again)
                   else Pushed(old(t), r, luck)
    {
      var first := RecordLocked(r, luck);
      if first && atexitFails {
        RecordAndPrint(AtexitReport(r, atexitErrno), again);
      }
    }

    /** What `ec_push` does when `atexit` fails: one more error, and all is printed. */
    method RecordAndPrint(r: Report, luck: Luck)
      requires Valid() && atexitCalled
      modifies this, emergency
      ensures Valid() && atexitCalled && t == Pushed(old(t), r, luck)
    {
      var _ := RecordLocked(r, luck);
      var _ := Print();
    }

    /** `ec_print`: one line an error, newest first; only the oldest gets its error number. */
    method Print() returns (lines: seq<Line>)
      requires !locked && Consistent()
      modifies `locked
      ensures !locked && lines == Lines(t.entries)
    {
      ChainIs(head, list, t.entries, texts);
      Mutex(true);
      lines := PrintAll();
      Mutex(false);
    }

    method PrintAll() returns (lines: seq<Line>)
      requires Linked(head, list) && ShowsAll(list, t.entries, texts)
      ensures lines == Lines(t.entries)
    {
      lines := [];
      var e := head;
      var level := 0;
      while e != null
        invariant 0 <= level <= |list| && e == At(list, level)
        invariant lines == Lines(t.entries)[..level]
        decreases |list| - level
      {
        LinesMore(t.entries, level);
        assert Shows(e, t.entries[level], texts);
        var errno := if e.next == null then e.errno else 0;
        lines := lines + [Line(e == emergency, level, TextOf(e.context, texts), errno, e.kind)];
        e := e.next;
        level := level + 1;
      }
    }

    /** A list with an end has no cycle: no node is on it twice. */
    lemma Acyclic(first: EcNode?, list: seq<EcNode>)
      requires Linked(first, list)
      ensures forall i, j | 0 <= i < j < |list| :: list[i] != list[j]
    {
      forall i, j | 0 <= i < j < |list| ensures list[i] != list[j] {
        Apart(first, list, i, j);
      }
    }

    lemma {:induction false} Apart(first: EcNode?, list: seq<EcNode>, i: nat, j: nat)
      requires Linked(first, list) && i < j < |list|
      ensures list[i] != list[j]
      decreases |list| - j
    {
      assert list[i].next == list[i + 1];
      if j + 1 < |list| {
        Apart(first, list, i + 1, j + 1);
      }
    }

    /** The allocated strings are those of `base` that the first `level` entries do not use. */
    ghost predicate FreedUpTo(base: map<nat, string>, entries: seq<Entry>, level: nat)
      requires level <= |entries|
      reads `texts
    {
      forall id: nat :: id in texts.heap <==> id in base && StringCount(entries[..level], id) == 0
    }

    /** `free` of an entry's context, unless it is the static string; the block is allocated. */
    method FreeContext(context: Context, ghost base: map<nat, string>, ghost level: nat)
      requires Sound(t) && level < |t.entries| && context == t.entries[level].context
      requires FreedUpTo(base, t.entries, level) && (context.HeapString? ==> context.id in base)
      modifies `texts
      ensures texts.fallback == old(texts).fallback && FreedUpTo(base, t.entries, level + 1)
    {
      CountedOnce(t, level);
      CountStep(t.entries, level);
      if context.HeapString? {
        assert context.id in texts.heap;
        texts := texts.(heap := texts.heap - {context.id});
      }
    }

    /** `free` of a node, which must be allocated. */
    ghost method FreeNode(n: EcNode)
      requires n in live
      modifies `live
      ensures live == old(live) - {n}
    {
      live := live - {n};
    }

    /** One turn of the loop of `ec_reinit`.  What is read of the node is read while it is
        allocated. */
    method FreeOne(e: EcNode, ghost base: map<nat, string>, ghost level: nat) returns (next: EcNode?)
      requires e == emergency || e in live
      requires Sound(t) && level < |t.entries| && e.context == t.entries[level].context
      requires FreedUpTo(base, t.entries, level) && (e.context.HeapString? ==> e.context.id in base)
      modifies `texts, `live
      ensures next == e.next
      ensures texts.fallback == old(texts).fallback && FreedUpTo(base, t.entries, level + 1)
      ensures live == old(live) - if e == emergency then {} else {e}
    {
      next := e.next;
      FreeContext(e.context, base, level);
      if e != emergency {
        FreeNode(e);
      }
    }

    /** Every listed context and node is freed, the static ones apart. */
    method FreeAll()
      requires Consistent() && Accounted(t, texts.heap.Keys)
      modifies `texts, `live
      ensures texts.fallback == old(texts).fallback
      ensures FreedUpTo(old(texts).heap, t.entries, |t.entries|)
      ensures forall n :: n in live <==> n in old(live) && n !in list
    {
      ChainIs(head, list, t.entries, texts);
      FreeLinked();
    }

    /** The loop of `ec_reinit`: none is freed twice, and none is read after it was freed. */
    method FreeLinked()
      requires Linked(head, list) && ShowsAll(list, t.entries, texts)
      requires emergency !in live && forall i | 0 <= i < |list| :: list[i] == emergency || list[i] in live
      requires Accounted(t, texts.heap.Keys)
      modifies `texts, `live
      ensures texts.fallback == old(texts).fallback
      ensures FreedUpTo(old(texts).heap, t.entries, |t.entries|)
      ensures forall n :: n in live <==> n in old(live) && n !in list
    {
      var e := head;
      ghost var level, before, was := 0, texts, live;
      Acyclic(head, list);
      assert StringCount(t.entries[..0], 0) == 0;
      while e != null
        invariant 0 <= level <= |list| && e == At(list, level)
        invariant texts.fallback == before.fallback && FreedUpTo(before.heap, t.entries, level)
        invariant forall i | level <= i < |list| :: list[i] == emergency || list[i] in live
        invariant forall i | 0 <= i < level :: list[i] !in live
        invariant live <= was && forall n | n in was && n !in list :: n in live
        decreases |list| - level
      {
        assert Shows(e, t.entries[level], before);
        e := FreeOne(e, before.heap, level);
        level := level + 1;
      }
    }

    /** The end of `ec_reinit`: nothing is listed, and the static node and string are cleared. */
    method Clear(ghost base: map<nat, string>)
      requires Accounted(t, base.Keys) && FreedUpTo(base, t.entries, |t.entries|)
      requires emergency.node == StaticNode && emergency !in live
      requires nextString == t.strings
      modifies `head, `list, `t, `texts, emergency
      ensures Consistent() && Accounted(t, texts.heap.Keys)
      ensures t == Reinitialized(old(t)) && list == [] && emergency.context == Null
    {
      assert t.entries[..|t.entries|] == t.entries;
      ReinitializedAccounted(t, base.Keys, texts.heap.Keys);
      head := null;
      emergency.next, emergency.errno, emergency.kind, emergency.context := null, 0, Errno, Null;
      texts := texts.(fallback := "");
      list := [];
      t := Reinitialized(t);
    }

    /** `ec_reinit`. */
    method Reinit()
      requires Valid()
      modifies this, emergency
      ensures Valid() && t == Reinitialized(old(t)) && list == [] && emergency.context == Null
      ensures forall n :: n in live <==> n in old(live) && n !in old(list)
      ensures atexitCalled == old(atexitCalled)
    {
      Mutex(true);
      ghost var base := texts.heap;
      FreeAll();
      Clear(base);
      Mutex(false);
    }
  }

  lemma CountStep(entries: seq<Entry>, i: nat)
    requires i < |entries|
    ensures forall id: nat ::
      StringCount(entries[..i + 1], id) ==
      StringCount(entries[..i], id) + if entries[i].context == HeapString(id) then 1 else 0
  {
    forall id: nat
      ensures StringCount(entries[..i + 1], id) ==
              StringCount(entries[..i], id) + if entries[i].context == HeapString(id) then 1 else 0
    {
      assert entries[..i + 1] == entries[..i] + [entries[i]];
      CountJoin(entries[..i], [entries[i]], id);
    }
  }

  /** A listed string is not also listed before. */
  lemma CountedOnce(t: Trace, i: nat)
    requires Sound(t) && i < |t.entries|
    ensures t.entries[i].context.HeapString? ==> StringCount(t.entries[..i], t.entries[i].context.id) == 0
  {
    if t.entries[i].context.HeapString? {
      var id := t.entries[i].context.id;
      assert t.entries == t.entries[..i] + t.entries[i..];
      CountJoin(t.entries[..i], t.entries[i..], id);
      assert StringPlaces(t, id) <= 1;
    }
  }
}
