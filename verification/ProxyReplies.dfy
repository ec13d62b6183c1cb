/** What the model proxy lets through of a provider's reply (`api/llm_proxy.py`): every named tool call is judged by the
    policy and recorded, and the calls that must not stand are removed from the reply. */
module ProxyReplies {

  import opened Basics
  import opened PolicyEngine
  import G = Guards
  import W = ObservationWindows

  /** A tool call of an OpenAI message, or a content block of an Anthropic reply; `body` is the rest of it. */
  datatype Item = Item(toolUse: bool, name: string, arguments: Arguments, body: string)

  predicate Named(i: Item) { i.toolUse && i.name != "" }

  datatype Verdict = Allow | NotifyOnly | Hold | Deny

  /** `_VERDICT`: only `auto` is allowed here. */
  function VerdictOf(a: Approval): Verdict {
    match a
    case Auto => Allow
    case Notify => NotifyOnly
    case HumanInTheLoop => Hold
    case HumanDual => Hold
    case Deny => Verdict.Deny
  }

  /** One audit row; a relaxed refusal is recorded as `monitor_...`. */
  datatype Row = Row(tool: string, arguments: Arguments, actionClass: Option<ActionClass>, verdict: Verdict,
                     relaxed: bool)

  predicate Stands(r: Row) { r.verdict == Allow || r.relaxed }

  /** The policy, the name heuristics, whether the agent is observed, and the note that says that a call was blocked. */
  datatype Gate = Gate(policy: Policy, byName: string -> Option<ActionClass>, observing: bool, note: string)

  /** The text block that ends a blocked turn. */
  function Note(g: Gate): Item { Item(false, "", map[], g.note) }

  /** The judge as it is when it is asked its n-th question of this reply. */
  datatype Asked = Asked(judge: Option<G.Counters>, answers: nat -> G.Answer, n: nat)

  /** `_verdict` */
  function Judged(g: Gate, a: Asked, i: Item): Outcome {
    G.Resolved(Evaluate(g.policy, i.name, i.arguments, g.byName(i.name)), a.judge, a.answers(a.n))
  }

  function AfterAsking(g: Gate, a: Asked, i: Item): Asked {
    var o := Evaluate(g.policy, i.name, i.arguments, g.byName(i.name));
    if o.ambiguous && a.judge.Some? then Asked(Some(G.Consulted(a.judge.value, a.answers(a.n)).0), a.answers, a.n + 1)
    else a.(n := a.n + 1)
  }

  /** The row that the inner function `drop` appends. */
  function Recorded(g: Gate, a: Asked, i: Item): Row {
    var o := Judged(g, a, i);
    var verdict := VerdictOf(o.decision);
    Row(i.name, i.arguments, o.actionClass, verdict, verdict != Allow && g.observing && W.Observes(o.actionClass))
  }

  datatype Sifted = Sifted(kept: seq<Item>, rows: seq<Row>, asked: Asked)

  /** The items that are kept, the rows and the judge after them. */
  function Sift(g: Gate, items: seq<Item>, a: Asked): Sifted {
    if items == [] then Sifted([], [], a)
    else
      var before := Sift(g, items[..|items| - 1], a);
      var i := items[|items| - 1];
      if !Named(i) then Sifted(before.kept + [i], before.rows, before.asked)
      else
        var row := Recorded(g, before.asked, i);
        Sifted(if Stands(row) then before.kept + [i] else before.kept, before.rows + [row],
               AfterAsking(g, before.asked, i))
  }

  // ---------------------------------------------------------------- what the sieve guarantees

  function NamedItems(items: seq<Item>): seq<Item> {
    if items == [] then []
    else NamedItems(items[..|items| - 1]) + (if Named(items[|items| - 1]) then [items[|items| - 1]] else [])
  }

  function Others(items: seq<Item>): seq<Item> {
    if items == [] then []
    else Others(items[..|items| - 1]) + (if Named(items[|items| - 1]) then [] else [items[|items| - 1]])
  }

  function Standing(rows: seq<Row>): seq<Row> {
    if rows == [] then []
    else Standing(rows[..|rows| - 1]) + (if Stands(rows[|rows| - 1]) then [rows[|rows| - 1]] else [])
  }

  /** Row by row, the tool and the arguments of the items. */
  predicate Names(rows: seq<Row>, items: seq<Item>) {
    |rows| == |items| &&
    forall k :: 0 <= k < |rows| ==> rows[k].tool == items[k].name && rows[k].arguments == items[k].arguments
  }

  /** A row that stands without being allowed was relaxed, for a read or a write, under observation. */
  predicate Lawful(g: Gate, r: Row) {
    r.verdict != Allow && Stands(r) ==> g.observing && r.actionClass in {Some(Read), Some(Write)}
  }

  /** The rows are the calls of a reply, those that stand are the calls that are relayed, and all are lawful. */
  predicate Faithful(g: Gate, rows: seq<Row>, calls: seq<Item>, relayed: seq<Item>) {
    && Names(rows, calls) && Names(Standing(rows), relayed)
    && forall k :: 0 <= k < |rows| ==> Lawful(g, rows[k])
  }

  lemma {:induction false} StandingConcat(a: seq<Row>, b: seq<Row>)
    ensures Standing(a + b) == Standing(a) + Standing(b)
  {
    if b == [] {
      assert a + b == a;
    } else {
      assert (a + b)[..|a + b| - 1] == a + b[..|b| - 1];
      StandingConcat(a, b[..|b| - 1]);
    }
  }

  lemma FaithfulConcat(g: Gate, r: seq<Row>, c: seq<Item>, k: seq<Item>, r': seq<Row>, c': seq<Item>, k': seq<Item>)
    requires Faithful(g, r, c, k) && Faithful(g, r', c', k')
    ensures Faithful(g, r + r', c + c', k + k')
  {
    StandingConcat(r, r');
  }

  lemma SnocFacts(items: seq<Item>, i: Item)
    ensures NamedItems(items + [i]) == NamedItems(items) + (if Named(i) then [i] else [])
    ensures Others(items + [i]) == Others(items) + (if Named(i) then [] else [i])
  {
    assert (items + [i])[..|items|] == items;
  }

  lemma OneCall(g: Gate, a: Asked, i: Item)
    ensures var row := Recorded(g, a, i); Faithful(g, [row], [i], if Stands(row) then [i] else [])
  {
    var row := Recorded(g, a, i);
    assert [row][..0] == [] && Standing([]) == [];
    assert Standing([row]) == Standing([row][..0]) + (if Stands(row) then [row] else []);
    assert W.Observes(row.actionClass) ==> row.actionClass == Some(Read) || row.actionClass == Some(Write);
    assert Lawful(g, row);
  }

  /** The audit rows are the named calls, one to one and in order; the calls that survive are exactly those whose row
      stands, in order; everything else in the reply is untouched; and what stands is lawful. */
  lemma {:induction false} SieveIsExact(g: Gate, items: seq<Item>, a: Asked)
    ensures var r := Sift(g, items, a);
            Faithful(g, r.rows, NamedItems(items), NamedItems(r.kept)) && Others(r.kept) == Others(items)
  {
    if items != [] {
      var front, i := items[..|items| - 1], items[|items| - 1];
      SieveIsExact(g, front, a);
      var before := Sift(g, front, a);
      SnocFacts(before.kept, i);
      if Named(i) {
        var row := Recorded(g, before.asked, i);
        OneCall(g, before.asked, i);
        FaithfulConcat(g, before.rows, NamedItems(front), NamedItems(before.kept), [row], [i],
            if Stands(row) then [i] else []);
        if !Stands(row) { assert NamedItems(before.kept) + [] == NamedItems(before.kept); }
      }
    }
  }

  // ---------------------------------------------------------------- replies

  /** A message of an OpenAI choice: its tool calls when they are a list, and its text. */
  datatype Message = Message(calls: Option<seq<Item>>, content: string)

  datatype Reply =
    | OpenAi(messages: seq<Message>)
    | Anthropic(content: Option<seq<Item>>, stopReason: string)
    | Other

  function HasToolUse(items: seq<Item>): bool { exists k :: 0 <= k < |items| && items[k].toolUse }

  /** What becomes of one message. */
  function Cleared(g: Gate, m: Message, kept: seq<Item>): Message {
    Message(Some(kept), if kept == [] && m.content == "" then g.note else m.content)
  }

  datatype Processed = Processed(messages: seq<Message>, rows: seq<Row>, asked: Asked)

  function ProcessMessages(g: Gate, messages: seq<Message>, a: Asked): Processed {
    if messages == [] then Processed([], [], a)
    else
      var before := ProcessMessages(g, messages[..|messages| - 1], a);
      var m := messages[|messages| - 1];
      if m.calls.None? then Processed(before.messages + [m], before.rows, before.asked)
      else
        var r := Sift(g, m.calls.value, before.asked);
        Processed(before.messages + [Cleared(g, m, r.kept)], before.rows + r.rows, r.asked)
  }

  /** The content and the stop reason of an Anthropic reply: a reply that announces a tool call that it no longer
      carries ends its turn and says why. */
  function Ended(g: Gate, kept: seq<Item>, stopReason: string): Reply {
    if stopReason == "tool_use" && !HasToolUse(kept) then Anthropic(Some(kept + [Note(g)]), "end_turn")
    else Anthropic(Some(kept), stopReason)
  }

  function Relayed(g: Gate, reply: Reply, a: Asked): (Reply, seq<Row>) {
    match reply
    case OpenAi(messages) => (OpenAi(ProcessMessages(g, messages, a).messages), ProcessMessages(g, messages, a).rows)
    case Anthropic(Some(items), stopReason) => (Ended(g, Sift(g, items, a).kept, stopReason), Sift(g, items, a).rows)
    case Anthropic(None, _) => (reply, [])
    case Other => (reply, [])
  }

  // ---------------------------------------------------------------- `_process`

  class Proxy {
    const gate: Gate
    const judge: G.Judge?
    const answers: nat -> G.Answer
    var reply: Reply
    var audited: seq<Row>
    var asked: nat

    constructor (gate: Gate, judge: G.Judge?, answers: nat -> G.Answer, reply: Reply)
      ensures this.gate == gate && this.judge == judge && this.answers == answers && this.reply == reply
      ensures audited == [] && asked == 0
    {
      this.gate, this.judge, this.answers, this.reply := gate, judge, answers, reply;
      audited, asked := [], 0;
    }

    ghost function Now(): Asked
      reads this, judge
    {
      Asked(if judge == null then None else Some(judge.Now()), answers, asked)
    }

    /** The inner function `drop`. */
    method Drop(i: Item) returns (dropped: bool)
      requires Named(i)
      modifies this`audited, this`asked, judge
      ensures audited == old(audited) + [Recorded(gate, old(Now()), i)]
      ensures Now() == AfterAsking(gate, old(Now()), i)
      ensures dropped == !Stands(Recorded(gate, old(Now()), i))
    {
      var first := Evaluate(gate.policy, i.name, i.arguments, gate.byName(i.name));
      var outcome := G.ResolveAmbiguous(first, judge, answers(asked));
      asked := asked + 1;
      var verdict := VerdictOf(outcome.decision);
      var blocked := verdict != Allow;
      var relaxed := blocked && gate.observing && W.Observes(outcome.actionClass);
      audited := audited + [Row(i.name, i.arguments, outcome.actionClass, verdict, relaxed)];
      dropped := blocked && !relaxed;
    }

    method Filter(items: seq<Item>) returns (kept: seq<Item>)
      modifies this`audited, this`asked, judge
      ensures var r := Sift(gate, items, old(Now()));
              kept == r.kept && audited == old(audited) + r.rows && Now() == r.asked
    {
      kept := [];
      for k := 0 to |items|
        invariant var r := Sift(gate, items[..k], old(Now()));
                  kept == r.kept && audited == old(audited) + r.rows && Now() == r.asked
      {
        assert items[..k + 1][..k] == items[..k];
        if Named(items[k]) {
          var dropped := Drop(items[k]);
          if dropped { continue; }
        }
        kept := kept + [items[k]];
      }
      assert items[..|items|] == items;
    }

    /** `_process` */
    method Process()
      modifies this, judge
      ensures var (relayed, rows) := Relayed(gate, old(reply), old(Now()));
              reply == relayed && audited == old(audited) + rows
    {
      hide Sift, AfterAsking, Recorded, HasToolUse;
      match reply
      case OpenAi(messages) =>
        var done: seq<Message> := [];
        for k := 0 to |messages|
          invariant reply == old(reply)
          invariant var p := ProcessMessages(gate, messages[..k], old(Now()));
                    done == p.messages && audited == old(audited) + p.rows && Now() == p.asked
        {
          assert messages[..k + 1][..k] == messages[..k];
          var m := messages[k];
          if m.calls.None? {
            done := done + [m];
            continue;
          }
          var kept := Filter(m.calls.value);
          done := done + [Cleared(gate, m, kept)];
        }
        assert messages[..|messages|] == messages;
        reply := OpenAi(done);
      case Anthropic(Some(items), stopReason) =>
        var kept := Filter(items);
        if stopReason == "tool_use" && !HasToolUse(kept) {
          reply := Anthropic(Some(kept + [Note(gate)]), "end_turn");
        } else {
          reply := Anthropic(Some(kept), stopReason);
        }
      case _ =>
    }
  }

  // ---------------------------------------------------------------- what a relayed reply guarantees

  /** A reply left with stop reason `tool_use` still carries a tool use. */
  lemma ToolUseIsNotAnnouncedInVain(g: Gate, reply: Reply, a: Asked)
    requires reply.Anthropic? && reply.content.Some?
    ensures var relayed := Relayed(g, reply, a).0;
            relayed.Anthropic? && relayed.content.Some? &&
            (relayed.stopReason == "tool_use" ==> HasToolUse(relayed.content.value))
  {
    var kept := Sift(g, reply.content.value, a).kept;
    assert |"end_turn"| == 8 && "end_turn"[0] == 'e' && "tool_use"[0] == 't';
    assert "end_turn" != "tool_use";
  }

  /** The items of a reply that can be tool calls, in order. */
  function Calls(reply: Reply): seq<Item> {
    match reply
    case OpenAi(messages) => MessageCalls(messages)
    case Anthropic(Some(items), _) => NamedItems(items)
    case _ => []
  }

  function MessageCalls(messages: seq<Message>): seq<Item> {
    if messages == [] then []
    else
      var m := messages[|messages| - 1];
      MessageCalls(messages[..|messages| - 1]) + (if m.calls.Some? then NamedItems(m.calls.value) else [])
  }

  lemma {:induction false} MessagesAreExact(g: Gate, messages: seq<Message>, a: Asked)
    ensures var p := ProcessMessages(g, messages, a);
            Faithful(g, p.rows, MessageCalls(messages), MessageCalls(p.messages))
  {
    if messages != [] {
      var front, m := messages[..|messages| - 1], messages[|messages| - 1];
      MessagesAreExact(g, front, a);
      var before := ProcessMessages(g, front, a);
      if m.calls.Some? {
        var r := Sift(g, m.calls.value, before.asked);
        SieveIsExact(g, m.calls.value, before.asked);
        FaithfulConcat(g, before.rows, MessageCalls(front), MessageCalls(before.messages),
                       r.rows, NamedItems(m.calls.value), NamedItems(r.kept));
        MessagesSnoc(before.messages, Cleared(g, m, r.kept));
      } else {
        MessagesSnoc(before.messages, m);
        assert MessageCalls(front) + [] == MessageCalls(front);
        assert MessageCalls(before.messages) + [] == MessageCalls(before.messages);
      }
    }
  }

  lemma MessagesSnoc(messages: seq<Message>, m: Message)
    ensures MessageCalls(messages + [m])
            == MessageCalls(messages) + (if m.calls.Some? then NamedItems(m.calls.value) else [])
  {
    assert (messages + [m])[..|messages|] == messages;
  }

  /** The note is not a call. */
  lemma NoteIsNoCall(g: Gate, kept: seq<Item>, stopReason: string)
    ensures Calls(Ended(g, kept, stopReason)) == NamedItems(kept)
  {
    SnocFacts(kept, Note(g));
  }

  /** For any reply of either style: the audit rows are its named calls in order, the named calls that are relayed are
      exactly those whose row stands, and a call that the policy did not allow stands only under observation and only
      as a read or a write. */
  lemma RelayIsExact(g: Gate, reply: Reply, a: Asked)
    requires !reply.Other?
    ensures var (relayed, rows) := Relayed(g, reply, a);
            Faithful(g, rows, Calls(reply), Calls(relayed))
  {
    match reply
    case OpenAi(messages) => MessagesAreExact(g, messages, a);
    case Anthropic(Some(items), stopReason) =>
      SieveIsExact(g, items, a);
      NoteIsNoCall(g, Sift(g, items, a).kept, stopReason);
    case Anthropic(None, _) =>
  }

  // ---------------------------------------------------------------- the rest of the reply

  /** The items in their order, without the named calls whose row does not stand. */
  function Surviving(items: seq<Item>, rows: seq<Row>): seq<Item>
    requires |rows| == |NamedItems(items)|
  {
    if items == [] then []
    else
      var front, i := items[..|items| - 1], items[|items| - 1];
      if !(i.toolUse && i.name != "") then Surviving(front, rows) + [i]
      else if rows[|rows| - 1].verdict == Allow || rows[|rows| - 1].relaxed
      then Surviving(front, rows[..|rows| - 1]) + [i]
      else Surviving(front, rows[..|rows| - 1])
  }

  /** What is kept of one list of calls or blocks: everything in its place but the calls whose row does not stand. */
  lemma {:induction false} SieveKeepsOrder(g: Gate, items: seq<Item>, a: Asked)
    ensures |Sift(g, items, a).rows| == |NamedItems(items)|
    ensures Sift(g, items, a).kept == Surviving(items, Sift(g, items, a).rows)
  {
    hide Recorded, AfterAsking;
    if items != [] {
      var front := items[..|items| - 1];
      SieveKeepsOrder(g, front, a);
      var rows := Sift(g, items, a).rows;
      if Named(items[|items| - 1]) { assert rows[..|rows| - 1] == Sift(g, front, a).rows; }
    }
  }

  /** A message before and after, given the rows of its calls: the calls that stand, in place, and the note when no call
      and no text is left. */
  predicate Rewritten(g: Gate, m: Message, r: Message, rows: seq<Row>) {
    if m.calls.None? then r == m
    else
      && |rows| == |NamedItems(m.calls.value)| && r.calls == Some(Surviving(m.calls.value, rows))
      && r.content == if r.calls.value == [] && m.content == "" then g.note else m.content
  }

  /** Message by message, each with the rows of its own calls. */
  predicate AllRewritten(g: Gate, messages: seq<Message>, relayed: seq<Message>, rows: seq<Row>) {
    if messages == [] then relayed == [] && rows == []
    else
      var m := messages[|messages| - 1];
      var own := if m.calls.Some? then |NamedItems(m.calls.value)| else 0;
      && relayed != [] && own <= |rows|
      && Rewritten(g, m, relayed[|relayed| - 1], rows[|rows| - own..])
      && AllRewritten(g, messages[..|messages| - 1], relayed[..|relayed| - 1], rows[..|rows| - own])
  }

  /** What is rewritten, style by style: the messages one by one; and the blocks, where a reply that announced a tool
      use and carries none any more ends its turn with the note.  Every other text, block and stop reason is
      untouched. */
  lemma RewritingIsExact(g: Gate, reply: Reply, a: Asked)
    ensures var (relayed, rows) := Relayed(g, reply, a);
            match reply
            case OpenAi(messages) => relayed.OpenAi? && AllRewritten(g, messages, relayed.messages, rows)
            case Anthropic(Some(items), stopReason) =>
              && |rows| == |NamedItems(items)|
              && var kept := Surviving(items, rows);
                 if stopReason == "tool_use" && !(exists i :: i in kept && i.toolUse)
                 then relayed == Anthropic(Some(kept + [Item(false, "", map[], g.note)]), "end_turn")
                 else relayed == Anthropic(Some(kept), stopReason)
            case _ => relayed == reply
  {
    match reply
    case OpenAi(messages) => MessagesAreRewritten(g, messages, a);
    case Anthropic(Some(items), stopReason) => SieveKeepsOrder(g, items, a);
    case _ =>
  }

  lemma {:induction false} MessagesAreRewritten(g: Gate, messages: seq<Message>, a: Asked)
    ensures var p := ProcessMessages(g, messages, a); AllRewritten(g, messages, p.messages, p.rows)
    decreases |messages|, 1
  {
    if messages != [] { LastOfAllRewritten(g, messages, a); }
  }

  lemma {:induction false} LastOfAllRewritten(g: Gate, messages: seq<Message>, a: Asked)
    requires messages != []
    ensures var p := ProcessMessages(g, messages, a); AllRewritten(g, messages, p.messages, p.rows)
    decreases |messages|, 0
  {
    hide *;
    var front, m := messages[..|messages| - 1], messages[|messages| - 1];
    MessagesAreRewritten(g, front, a);
    var r, own := LastIsRewritten(g, messages, a);
    var before := ProcessMessages(g, front, a);
    OneMoreRewritten(g, front, before.messages, before.rows, m, r, own);
    assert messages == front + [m];
  }

  /** What the last message adds. */
  lemma LastIsRewritten(g: Gate, messages: seq<Message>, a: Asked) returns (r: Message, own: seq<Row>)
    requires messages != []
    ensures var (before, m) := (ProcessMessages(g, messages[..|messages| - 1], a), messages[|messages| - 1]);
            var p := ProcessMessages(g, messages, a);
            && p.messages == before.messages + [r] && p.rows == before.rows + own
            && Rewritten(g, m, r, own) && (m.calls.None? ==> own == [])
  {
    hide Sift, NamedItems, Surviving;
    var before, m := ProcessMessages(g, messages[..|messages| - 1], a), messages[|messages| - 1];
    if m.calls.Some? {
      var s := Sift(g, m.calls.value, before.asked);
      SieveKeepsOrder(g, m.calls.value, before.asked);
      r, own := Cleared(g, m, s.kept), s.rows;
    } else {
      r, own := m, [];
    }
  }

  lemma OneMoreRewritten(g: Gate, front: seq<Message>, done: seq<Message>, rows: seq<Row>, m: Message, r: Message,
                         own: seq<Row>)
    requires AllRewritten(g, front, done, rows) && Rewritten(g, m, r, own) && (m.calls.None? ==> own == [])
    ensures AllRewritten(g, front + [m], done + [r], rows + own)
  {
    hide NamedItems, Surviving;
    assert (front + [m])[..|front|] == front && (done + [r])[..|done|] == done;
    assert (rows + own)[|rows|..] == own && (rows + own)[..|rows|] == rows;
  }

  // ---------------------------------------------------------------- rows say what was decided

  /** The judge and the number of its questions after these calls were judged, one after the other. */
  function AskedAfter(g: Gate, calls: seq<Item>, a: Asked): Asked {
    if calls == [] then a
    else
      var i := calls[|calls| - 1];
      var before := AskedAfter(g, calls[..|calls| - 1], a);
      var ambiguous := Evaluate(g.policy, i.name, i.arguments, g.byName(i.name)).ambiguous;
      Asked(if before.judge.Some? && ambiguous
            then Some(G.Asked(before.judge.value, G.ToClassify(before.answers(before.n)))) else before.judge,
            before.answers, before.n + 1)
  }

  /** The outcome of one call: what the policy says, or, if that is ambiguous, what the judge then makes of it. */
  function OutcomeAt(g: Gate, calls: seq<Item>, k: nat, a: Asked): Outcome
    requires k < |calls|
  {
    var then' := AskedAfter(g, calls[..k], a);
    G.Resolved(Evaluate(g.policy, calls[k].name, calls[k].arguments, g.byName(calls[k].name)), then'.judge,
               then'.answers(then'.n))
  }

  /** The row says what was decided: allow exactly for a call that runs unattended, notify, hold for one or two
      people, or deny; it is relaxed exactly if it was not allowed, the agent is observed, and the class is read or
      write. */
  predicate Says(g: Gate, i: Item, r: Row, o: Outcome) {
    && r.tool == i.name && r.arguments == i.arguments && r.actionClass == o.actionClass
    && (r.verdict == Allow <==> o.decision == Auto)
    && (r.verdict == NotifyOnly <==> o.decision == Notify)
    && (r.verdict == Hold <==> o.decision in {HumanInTheLoop, HumanDual})
    && (r.relaxed <==> o.decision != Auto && g.observing && o.actionClass in {Some(Read), Some(Write)})
  }

  ghost predicate AllSay(g: Gate, calls: seq<Item>, rows: seq<Row>, a: Asked) {
    |rows| == |calls| && forall k :: 0 <= k < |rows| ==> Says(g, calls[k], rows[k], OutcomeAt(g, calls, k, a))
  }

  lemma {:induction false} AskedConcat(g: Gate, x: seq<Item>, y: seq<Item>, a: Asked)
    ensures AskedAfter(g, x + y, a) == AskedAfter(g, y, AskedAfter(g, x, a))
  {
    if y == [] {
      assert x + y == x;
    } else {
      assert (x + y)[..|x + y| - 1] == x + y[..|y| - 1];
      AskedConcat(g, x, y[..|y| - 1], a);
    }
  }

  /** Later calls are judged with the judge that earlier ones left. */
  lemma SayConcat(g: Gate, x: seq<Item>, r: seq<Row>, y: seq<Item>, s: seq<Row>, a: Asked)
    requires AllSay(g, x, r, a) && AllSay(g, y, s, AskedAfter(g, x, a))
    ensures AllSay(g, x + y, r + s, a)
  {
    hide Says, AskedAfter, Evaluate;
    forall k | 0 <= k < |r + s| ensures Says(g, (x + y)[k], (r + s)[k], OutcomeAt(g, x + y, k, a)) {
      if k < |x| {
        assert (x + y)[..k] == x[..k];
        assert Says(g, x[k], r[k], OutcomeAt(g, x, k, a));
      } else {
        assert (x + y)[..k] == x + y[..k - |x|];
        AskedConcat(g, x, y[..k - |x|], a);
        assert Says(g, y[k - |x|], s[k - |x|], OutcomeAt(g, y, k - |x|, AskedAfter(g, x, a)));
      }
    }
  }

  lemma OneSays(g: Gate, i: Item, a: Asked)
    ensures AllSay(g, [i], [Recorded(g, a, i)], a) && AskedAfter(g, [i], a) == AfterAsking(g, a, i)
  {
    hide Evaluate;
    assert [i][..0] == [];
    assert OutcomeAt(g, [i], 0, a) == Judged(g, a, i);
  }

  lemma {:induction false} SiftSays(g: Gate, items: seq<Item>, a: Asked)
    ensures AllSay(g, NamedItems(items), Sift(g, items, a).rows, a)
    ensures Sift(g, items, a).asked == AskedAfter(g, NamedItems(items), a)
  {
    if items != [] {
      hide AllSay, Recorded, AfterAsking;
      var front, i := items[..|items| - 1], items[|items| - 1];
      SiftSays(g, front, a);
      var before := Sift(g, front, a);
      if Named(i) {
        OneSays(g, i, before.asked);
        SayConcat(g, NamedItems(front), before.rows, [i], [Recorded(g, before.asked, i)], a);
        AskedConcat(g, NamedItems(front), [i], a);
      } else {
        assert NamedItems(items) == NamedItems(front);
      }
    } else {
      assert AskedAfter(g, [], a) == a;
    }
  }

  lemma {:induction false} MessagesSay(g: Gate, messages: seq<Message>, a: Asked)
    ensures AllSay(g, MessageCalls(messages), ProcessMessages(g, messages, a).rows, a)
    ensures ProcessMessages(g, messages, a).asked == AskedAfter(g, MessageCalls(messages), a)
  {
    if messages != [] {
      hide AllSay, Sift;
      var front, m := messages[..|messages| - 1], messages[|messages| - 1];
      MessagesSay(g, front, a);
      var before := ProcessMessages(g, front, a);
      if m.calls.Some? {
        SiftSays(g, m.calls.value, before.asked);
        SayConcat(g, MessageCalls(front), before.rows, NamedItems(m.calls.value),
                  Sift(g, m.calls.value, before.asked).rows, a);
        AskedConcat(g, MessageCalls(front), NamedItems(m.calls.value), a);
      } else {
        assert MessageCalls(messages) == MessageCalls(front);
      }
    } else {
      assert AskedAfter(g, [], a) == a;
    }
  }

  /** The k-th row says what was decided of the k-th named call, in a reply of either style. */
  lemma RowsSayWhatWasDecided(g: Gate, reply: Reply, a: Asked)
    ensures AllSay(g, Calls(reply), Relayed(g, reply, a).1, a)
  {
    match reply
    case OpenAi(messages) => MessagesSay(g, messages, a);
    case Anthropic(Some(items), _) => SiftSays(g, items, a);
    case _ =>
  }

  /** So a call that the policy itself decides, and that is relayed without observation, is one that the policy runs
      unattended; and every such call is relayed. */
  lemma PolicyDecides(g: Gate, reply: Reply, a: Asked, k: nat)
    requires k < |Calls(reply)|
    requires var i := Calls(reply)[k]; !Evaluate(g.policy, i.name, i.arguments, g.byName(i.name)).ambiguous
    ensures |Relayed(g, reply, a).1| == |Calls(reply)|
    ensures var i, row := Calls(reply)[k], Relayed(g, reply, a).1[k];
            var policy := Evaluate(g.policy, i.name, i.arguments, g.byName(i.name));
            && row.actionClass == policy.actionClass && (row.verdict == Allow <==> policy.decision == Auto)
            && (Stands(row) <==> policy.decision == Auto
                                 || (g.observing && policy.actionClass in {Some(Read), Some(Write)}))
  {
    RowsSayWhatWasDecided(g, reply, a);
    hide Evaluate;
    assert Says(g, Calls(reply)[k], Relayed(g, reply, a).1[k], OutcomeAt(g, Calls(reply), k, a));
  }

  /** `_observing`: the capability is held and the lookup found an active window. */
  predicate Observing(sold: bool, readable: bool, windows: seq<W.Window>, agent: W.Agent, now: int) {
    sold && readable && W.AnyActive(windows, agent, now)
  }

  /** End to end, over every run of the windows: a named call that the policy did not allow is relayed only if its class
      is read or write, and a window of its agent was opened or extended less than `maxHours` before. */
  lemma RelaxationIsBounded(g: Gate, reply: Reply, a: Asked, maxHours: int, states: seq<W.State>, steps: seq<W.Step>,
                            n: nat, sold: bool, readable: bool, agent: W.Agent, now: int, k: nat)
    requires W.Run(maxHours, states, steps) && n < |states|
    requires g.observing == Observing(sold, readable, states[n].windows, agent, now)
    requires !reply.Other? && k < |Relayed(g, reply, a).1|
    requires var row := Relayed(g, reply, a).1[k]; Stands(row) && row.verdict != Allow
    ensures sold && Relayed(g, reply, a).1[k].actionClass in {Some(Read), Some(Write)}
    ensures W.OpenedRecently(states, steps, n, agent, now, maxHours)
  {
    RelayIsExact(g, reply, a);
    assert Lawful(g, Relayed(g, reply, a).1[k]);
    W.ObservationIsBounded(maxHours, states, steps, n, agent, now);
  }
}
