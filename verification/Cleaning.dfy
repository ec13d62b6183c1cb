/** The bounded JSON cleaner of `core/extension_redaction.py`: the recursive `visit` with its budgets, and `clean`.

    The detectors are parameters: `find` returns the spans found in a text (none when an incomplete private key
    makes the source raise), `secret` says that a protocol identifier holds a recognizable secret, `sensitive`
    matches a key, `extract` is the outcome of reading the n-th attachment of the request, and `heading` is the line
    written above the text of an attachment. */
module Cleaning {

  import opened Basics
  import opened JsonText
  import opened Spans

  datatype Rules = Rules(
    find: string -> Option<seq<Span>>,
    secret: string -> bool,
    sensitive: string -> bool,
    protocol: string -> bool,
    kind: Json -> Kind)

  datatype Env = Env(
    rules: Rules,
    extract: (nat, seq<Field>) -> Result<string, string>,
    heading: string)

  /** Found spans are non-empty and inside the text. */
  ghost predicate Sound(rules: Rules) {
    forall s: string :: rules.find(s).Some? ==> InRange(rules.find(s).value, |s|)
  }

  datatype Kind = Attachment | HiddenReasoning | Reasoning | Ordinary

  datatype Fault =
    | InvalidJson
    | MessagesRequired
    | RequestTooLarge
    | RequestTooDeep
    | IncompletePrivateKey
    | RedactionIncomplete
    | AttachmentRefused(reason: Refusal)
    | AttachmentsNotSupported
    | SignedThinkingCannotBeRedacted
    | SecretInProtocolIdentifier

  datatype Refusal = CountExceeded | InvalidMetadata | Unreadable(code: string)

  const MAX_REQUEST_BYTES: nat := 16 * 1024 * 1024
  const MAX_BYTES: nat := 1_048_576
  const MAX_DEPTH: nat := 40
  const MAX_ATTACHMENTS: nat := 4
  const REPLACEMENT := "XXX"

  // ---------------------------------------------------------------- sizes

  function Utf8Size(c: char): nat {
    if c as int < 0x80 then 1 else if c as int < 0x800 then 2 else if c as int < 0x1_0000 then 3 else 4
  }

  /** Bytes of one character inside a string of `json.dumps(..., ensure_ascii=False)`. */
  function EscapedSize(c: char): nat {
    if c == '\"' || c == '\\' || c as int in {8, 9, 10, 12, 13} then 2
    else if c as int < 0x20 then 6
    else Utf8Size(c)
  }

  function TextSize(s: string): nat { if s == "" then 0 else Utf8Size(s[0]) + TextSize(s[1..]) }

  function StringSize(s: string): nat { if s == "" then 2 else EscapedSize(s[0]) + StringSize(s[1..]) }

  /** Bytes of `json.dumps(v, ensure_ascii=False).encode()`, separators `", "` and `": "`. */
  function DumpSize(v: Json): nat
    decreases v, 0
  {
    match v
    case Null => 4
    case Bool(b) => if b then 4 else 5
    case Int(n) => |IntText(n)|
    case Float(repr) => |repr|
    case Str(s) => StringSize(s)
    case Arr(items) => 2 + ItemsSize(items)
    case Obj(fields) => 2 + FieldsSize(fields)
  }

  function ItemsSize(items: seq<Json>): nat
    decreases items, 1
  {
    if items == [] then 0
    else ItemsSize(items[..|items| - 1]) + (if |items| > 1 then 2 else 0) + DumpSize(items[|items| - 1])
  }

  function FieldsSize(fields: seq<Field>): nat
    decreases fields, 1
  {
    if fields == [] then 0
    else
      var last := fields[|fields| - 1];
      FieldsSize(fields[..|fields| - 1]) + (if |fields| > 1 then 2 else 0)
      + StringSize(last.key) + 2 + DumpSize(last.value)
  }

  // ---------------------------------------------------------------- the specification of `visit`

  /** The nonlocal variables of `clean` and the reader's counter. */
  datatype State = State(count: nat, kinds: set<string>, textBytes: nat, read: nat)

  const FRESH := State(0, {}, 0, 0)

  datatype Outcome<T> = Done(value: T, state: State) | Failed(fault: Fault)

  predicate Has(fields: seq<Field>, key: string) {
    fields != [] && (fields[|fields| - 1].key == key || Has(fields[..|fields| - 1], key))
  }

  /** The value of a key, `null` when it is absent. */
  function Get(fields: seq<Field>, key: string): Json {
    if fields == [] then Null
    else if fields[|fields| - 1].key == key then fields[|fields| - 1].value
    else Get(fields[..|fields| - 1], key)
  }

  function BlockKind(rules: Rules, fields: seq<Field>): Kind { rules.kind(Get(fields, "type")) }

  /** `spans`: sorted, merged. */
  function Detected(rules: Rules, s: string): Option<seq<Span>> {
    if rules.find(s).None? then None else Some(Merged(Sort(rules.find(s).value, ByTuple)))
  }

  lemma DetectedInRange(rules: Rules, s: string)
    requires Sound(rules) && Detected(rules, s).Some?
    ensures InRange(Detected(rules, s).value, |s|)
  {
    MergeIsExact(rules.find(s).value, |s|);
  }

  const Mark: string -> string := (rule: string) => REPLACEMENT

  ghost function Tokens(rules: Rules, s: string): (tokens: seq<Token>)
    requires Sound(rules) && Detected(rules, s).Some?
    ensures Renderable(s, tokens)
  {
    DetectedInRange(rules, s);
    PiecesRenderable(s, Detected(rules, s).value, 0);
    Pieces(Detected(rules, s).value, 0, |s|)
  }

  ghost predicate Quiet(rules: Rules, s: string) { Detected(rules, s) == Some([]) }

  /** The authoritative second scan refuses what the replacement left. */
  function Rescan(rules: Rules, out: string, st: State): (r: Outcome<string>)
    ensures r.Done? ==> Quiet(rules, r.value)
  {
    match Detected(rules, out)
    case None => Failed(IncompletePrivateKey)
    case Some(left) => if left != [] then Failed(RedactionIncomplete) else Done(out, st)
  }

  /** A string: budget, replacement, and the rescan that refuses what is left. */
  ghost function VisitText(rules: Rules, s: string, st: State): (r: Outcome<string>)
    requires Sound(rules)
    ensures r.Done? ==> Quiet(rules, r.value)
  {
    if st.textBytes + TextSize(s) > MAX_BYTES then Failed(RequestTooLarge)
    else if Detected(rules, s).None? then Failed(IncompletePrivateKey)
    else
      var tokens := Tokens(rules, s);
      Rescan(rules, Render(s, tokens, Mark),
             State(st.count + |Masks(tokens)|, st.kinds + (set r <- Masks(tokens)), st.textBytes + TextSize(s),
                   st.read))
  }

  /** `out` is `s` with the spans of `merged` replaced and every character outside `found` kept in its place. */
  ghost predicate ReplacedIn(s: string, found: seq<Span>, merged: seq<Span>, out: string) {
    exists tokens :: Renderable(s, tokens) && out == Render(s, tokens, Mark)
                     && Survivors(tokens) == Uncovered(found, 0, |s|) && Masks(tokens) == RuleSeq(merged)
  }

  /** What cleaning does to one text: outside the spans that were found every character survives in its place, inside
      nothing does, each merged span is replaced once and counted once, and nothing is found in the result. */
  lemma CleanedTextIsExact(rules: Rules, s: string, st: State)
    requires Sound(rules) && VisitText(rules, s, st).Done?
    ensures rules.find(s).Some? && Quiet(rules, VisitText(rules, s, st).value)
    ensures var (found, r) := (rules.find(s).value, VisitText(rules, s, st));
            var merged := Merged(Sort(found, ByTuple));
            && Disjoint(merged) && (forall i :: Covered(merged, i) <==> Covered(found, i))
            && r.state.count == st.count + |RuleSeq(merged)| && ReplacedIn(s, found, merged, r.value)
  {
    hide Quiet, Render, Survivors, Uncovered, Masks, RuleSeq, Merged, Sort, Covered, Pieces;
    var found := rules.find(s).value;
    RedactionIsExact(found, |s|);
    MergeIsExact(found, |s|);
    var tokens := Tokens(rules, s);
    assert VisitText(rules, s, st).value == Render(s, tokens, Mark);
  }

  ghost function VisitString(rules: Rules, s: string, depth: nat, st: State): (r: Outcome<string>)
    requires Sound(rules)
    ensures r.Done? ==> depth <= MAX_DEPTH && Quiet(rules, r.value)
  {
    if depth > MAX_DEPTH then Failed(RequestTooDeep) else VisitText(rules, s, st)
  }

  function Label(v: Json): Option<seq<string>> {
    match v
    case Null => Some([])
    case Str(s) => Some([s])
    case _ => None
  }

  /** The title and the context of an attachment: absent, `null` or text. */
  function Metadata(fields: seq<Field>): Option<seq<string>> {
    match (Label(Get(fields, "title")), Label(Get(fields, "context")))
    case (Some(title), Some(context)) => Some(title + context)
    case _ => None
  }

  function JoinLines(lines: seq<string>): string {
    if lines == [] then "" else if |lines| == 1 then lines[0] else lines[0] + "\n" + JoinLines(lines[1..])
  }

  function TextBlock(text: string): Json { Obj([Field("type", Str("text")), Field("text", Str(text))]) }

  /** The text of the n-th attachment of the request, under its heading and its metadata. */
  function ReadAttachment(env: Env, fields: seq<Field>, n: nat): Result<string, Refusal> {
    if n > MAX_ATTACHMENTS then Err(CountExceeded)
    else
      match env.extract(n, fields)
      case Err(code) => Err(Unreadable(code))
      case Ok(extracted) =>
        match Metadata(fields)
        case None => Err(InvalidMetadata)
        case Some(metadata) => Ok(env.heading + JoinLines(metadata + [extracted]))
  }

  /** The cleaned text that replaces an attachment. */
  ghost function VisitRendition(env: Env, fields: seq<Field>, depth: nat, st: State): (r: Outcome<string>)
    requires Sound(env.rules)
    ensures r.Done? ==> depth < MAX_DEPTH && Quiet(env.rules, r.value)
  {
    match ReadAttachment(env, fields, st.read + 1)
    case Err(refusal) => Failed(AttachmentRefused(refusal))
    case Ok(text) => VisitString(env.rules, text, depth + 1, st.(read := st.read + 1))
  }

  predicate Scalar(v: Json) { v.Str? || v.Int? || v.Float? || v.Bool? }

  ghost function VisitField(env: Env, f: Field, depth: nat, st: State): Outcome<Json>
    requires Sound(env.rules)
    decreases f, 1
  {
    if env.rules.sensitive(f.key) && Scalar(f.value) then
      Done(Str(REPLACEMENT),
           if f.value == Str(REPLACEMENT) then st
           else st.(count := st.count + 1, kinds := st.kinds + {"password_assignment"}))
    else if env.rules.protocol(f.key) then
      if f.value.Str? && env.rules.secret(f.value.s) then Failed(SecretInProtocolIdentifier) else Done(f.value, st)
    else
      Visit(env, f.value, depth + 1, st)
  }

  ghost function VisitFields(env: Env, fields: seq<Field>, depth: nat, st: State): Outcome<seq<Field>>
    requires Sound(env.rules)
    decreases fields, 2
  {
    if fields == [] then Done([], st)
    else
      match VisitFields(env, fields[..|fields| - 1], depth, st)
      case Failed(fault) => Failed(fault)
      case Done(front, st') =>
        var last := fields[|fields| - 1];
        match VisitField(env, last, depth, st')
        case Failed(fault) => Failed(fault)
        case Done(value, st'') => Done(front + [Field(last.key, value)], st'')
  }

  ghost function VisitItems(env: Env, items: seq<Json>, depth: nat, st: State): Outcome<seq<Json>>
    requires Sound(env.rules)
    decreases items, 2
  {
    if items == [] then Done([], st)
    else
      match VisitItems(env, items[..|items| - 1], depth, st)
      case Failed(fault) => Failed(fault)
      case Done(front, st') =>
        match Visit(env, items[|items| - 1], depth + 1, st')
        case Failed(fault) => Failed(fault)
        case Done(value, st'') => Done(front + [value], st'')
  }

  /** Signed thinking is returned as it is, and only if nothing is found in it. */
  ghost function VisitReasoning(env: Env, fields: seq<Field>, st: State): (r: Outcome<Json>)
    requires Sound(env.rules)
    ensures r.Done? ==> r.value == Obj(fields)
  {
    match Get(fields, "thinking")
    case Str(t) =>
      if Detected(env.rules, t).None? then Failed(IncompletePrivateKey)
      else if Detected(env.rules, t).value != [] then Failed(SignedThinkingCannotBeRedacted)
      else Done(Obj(fields), st)
    case _ => Failed(SignedThinkingCannotBeRedacted)
  }

  /** An object: attachments become text, signed thinking is kept or refused, the rest is visited. */
  ghost function VisitBlock(env: Env, fields: seq<Field>, depth: nat, st: State): (r: Outcome<Json>)
    requires Sound(env.rules)
    ensures r.Done? ==> r.value.Obj?
    decreases fields, 3
  {
    match BlockKind(env.rules, fields)
    case Attachment =>
      (match VisitRendition(env, fields, depth, st)
       case Failed(fault) => Failed(fault)
       case Done(text, st') => Done(TextBlock(text), st'))
    case HiddenReasoning => Failed(AttachmentsNotSupported)
    case Reasoning => VisitReasoning(env, fields, st)
    case Ordinary =>
      match VisitFields(env, fields, depth, st)
      case Failed(fault) => Failed(fault)
      case Done(fields', st') => Done(Obj(fields'), st')
  }

  /** `visit`; it turns no composite into a scalar and no scalar into a composite. */
  ghost function Visit(env: Env, v: Json, depth: nat, st: State): (r: Outcome<Json>)
    requires Sound(env.rules)
    ensures r.Done? ==> (Scalar(r.value) <==> Scalar(v))
    decreases v, 0
  {
    if depth > MAX_DEPTH then Failed(RequestTooDeep)
    else
      match v
      case Str(s) =>
        (match VisitText(env.rules, s, st)
         case Failed(fault) => Failed(fault)
         case Done(text, st') => Done(Str(text), st'))
      case Arr(items) =>
        (match VisitItems(env, items, depth, st)
         case Failed(fault) => Failed(fault)
         case Done(items', st') => Done(Arr(items'), st'))
      case Obj(fields) => VisitBlock(env, fields, depth, st)
      case _ => Done(v, st)
  }

  // ---------------------------------------------------------------- what a cleaned tree looks like

  /** Nothing is left to clean: every inspected string is quiet, no attachment and no hidden reasoning is left, and
      no scalar stands under a sensitive key except the replacement. */
  ghost predicate Settled(rules: Rules, v: Json, depth: nat)
    decreases v, 0
  {
    depth <= MAX_DEPTH &&
    match v
    case Str(s) => Quiet(rules, s)
    case Arr(items) => SettledItems(rules, items, depth + 1)
    case Obj(fields) => SettledBlock(rules, fields, depth)
    case _ => true
  }

  ghost predicate SettledItems(rules: Rules, items: seq<Json>, depth: nat)
    decreases items, 1
  {
    forall k :: 0 <= k < |items| ==> Settled(rules, items[k], depth)
  }

  ghost predicate SettledFields(rules: Rules, fields: seq<Field>, depth: nat)
    decreases fields, 1
  {
    forall k :: 0 <= k < |fields| ==> SettledField(rules, fields[k], depth)
  }

  ghost predicate SettledBlock(rules: Rules, fields: seq<Field>, depth: nat)
    decreases fields, 2
  {
    match BlockKind(rules, fields)
    case Attachment => false
    case HiddenReasoning => false
    case Reasoning => Get(fields, "thinking").Str? && Quiet(rules, Get(fields, "thinking").s)
    case Ordinary => SettledFields(rules, fields, depth)
  }

  ghost predicate SettledField(rules: Rules, f: Field, depth: nat)
    decreases f, 1
  {
    if rules.sensitive(f.key) && Scalar(f.value) then f.value == Str(REPLACEMENT)
    else if rules.protocol(f.key) then f.value.Str? ==> !rules.secret(f.value.s)
    else Settled(rules, f.value, depth + 1)
  }

  /** The bytes that `visit` charges to the budget. */
  function Charged(rules: Rules, v: Json): nat
    decreases v, 0
  {
    match v
    case Str(s) => TextSize(s)
    case Arr(items) => ChargedItems(rules, items)
    case Obj(fields) => if BlockKind(rules, fields).Reasoning? then 0 else ChargedFields(rules, fields)
    case _ => 0
  }

  function ChargedItems(rules: Rules, items: seq<Json>): nat
    decreases items, 1
  {
    if items == [] then 0 else ChargedItems(rules, items[..|items| - 1]) + Charged(rules, items[|items| - 1])
  }

  function ChargedField(rules: Rules, f: Field): nat
    decreases f, 1
  {
    if (rules.sensitive(f.key) && Scalar(f.value)) || rules.protocol(f.key) then 0 else Charged(rules, f.value)
  }

  function ChargedFields(rules: Rules, fields: seq<Field>): nat
    decreases fields, 2
  {
    if fields == [] then 0 else ChargedFields(rules, fields[..|fields| - 1]) + ChargedField(rules, fields[|fields| - 1])
  }

  // ---------------------------------------------------------------- a visit leaves a settled tree

  /** The names that `clean` writes itself, `type` and `text`, are neither findings nor special. */
  ghost predicate NeutralLiterals(rules: Rules) {
    && rules.protocol("type") && !rules.protocol("text")
    && !rules.sensitive("type") && !rules.sensitive("text") && !rules.secret("text")
    && rules.kind(Str("text")) == Ordinary
  }

  /** The protocol keys and the block types of the source. */
  ghost predicate SourceNames(rules: Rules) {
    && (forall key :: rules.protocol(key) <==>
          key == "type" || key == "role" || key == "id" || key == "tool_use_id" || key == "name")
    && (forall t :: rules.kind(t) ==
          if t == Str("image") || t == Str("document") then Attachment
          else if t == Str("redacted_thinking") then HiddenReasoning
          else if t == Str("thinking") then Reasoning
          else Ordinary)
  }

  lemma SourceNamesAreNeutral(rules: Rules)
    requires SourceNames(rules) && !rules.sensitive("type") && !rules.sensitive("text") && !rules.secret("text")
    ensures NeutralLiterals(rules)
  {
    assert |"text"| == 4 && |"type"| == 4 && |"role"| == 4 && |"name"| == 4;
    assert "text"[1] != "type"[1] && "text"[0] != "role"[0] && "text"[0] != "name"[0];
    assert |"image"| == 5 && |"document"| == 8 && |"redacted_thinking"| == 17 && |"thinking"| == 8;
  }

  lemma SettledItemsSnoc(rules: Rules, front: seq<Json>, last: Json, depth: nat)
    requires SettledItems(rules, front, depth) && Settled(rules, last, depth)
    ensures SettledItems(rules, front + [last], depth)
  {
  }

  lemma SettledFieldsSnoc(rules: Rules, front: seq<Field>, last: Field, depth: nat)
    requires SettledFields(rules, front, depth) && SettledField(rules, last, depth)
    ensures SettledFields(rules, front + [last], depth)
  {
  }

  lemma {:induction false} VisitSettles(env: Env, v: Json, depth: nat, st: State)
    requires Sound(env.rules) && NeutralLiterals(env.rules) && Visit(env, v, depth, st).Done?
    ensures Settled(env.rules, Visit(env, v, depth, st).value, depth)
    decreases v, 0
  {
    match v
    case Arr(items) => ItemsSettle(env, items, depth, st);
    case Obj(fields) => BlockSettles(env, fields, depth, st);
    case _ =>
  }

  lemma {:induction false} ItemsSettle(env: Env, items: seq<Json>, depth: nat, st: State)
    requires Sound(env.rules) && NeutralLiterals(env.rules) && VisitItems(env, items, depth, st).Done?
    ensures SettledItems(env.rules, VisitItems(env, items, depth, st).value, depth + 1)
    decreases items, 2
  {
    if items != [] {
      var front, last := items[..|items| - 1], items[|items| - 1];
      ItemsSettle(env, front, depth, st);
      var before := VisitItems(env, front, depth, st);
      VisitSettles(env, last, depth + 1, before.state);
      SettledItemsSnoc(env.rules, before.value, Visit(env, last, depth + 1, before.state).value, depth + 1);
    }
  }

  lemma {:induction false} FieldsSettle(env: Env, fields: seq<Field>, depth: nat, st: State)
    requires Sound(env.rules) && NeutralLiterals(env.rules) && VisitFields(env, fields, depth, st).Done?
    ensures SettledFields(env.rules, VisitFields(env, fields, depth, st).value, depth)
    decreases fields, 2
  {
    if fields != [] {
      var front, last := fields[..|fields| - 1], fields[|fields| - 1];
      FieldsSettle(env, front, depth, st);
      var before := VisitFields(env, front, depth, st);
      FieldSettles(env, last, depth, before.state);
      SettledFieldsSnoc(env.rules, before.value,
                        Field(last.key, VisitField(env, last, depth, before.state).value), depth);
    }
  }

  lemma {:induction false} FieldSettles(env: Env, f: Field, depth: nat, st: State)
    requires Sound(env.rules) && NeutralLiterals(env.rules) && VisitField(env, f, depth, st).Done?
    ensures SettledField(env.rules, Field(f.key, VisitField(env, f, depth, st).value), depth)
    decreases f, 1
  {
    if !(env.rules.sensitive(f.key) && Scalar(f.value)) && !env.rules.protocol(f.key) {
      VisitSettles(env, f.value, depth + 1, st);
    }
  }

  /** Visiting the fields keeps every value under a protocol key that is not sensitive. */
  lemma {:induction false} VisitKeepsKey(env: Env, fields: seq<Field>, depth: nat, st: State, key: string)
    requires Sound(env.rules) && VisitFields(env, fields, depth, st).Done? && env.rules.protocol(key)
        && !env.rules.sensitive(key)
    ensures Get(VisitFields(env, fields, depth, st).value, key) == Get(fields, key)
  {
    if fields != [] {
      var front, last := fields[..|fields| - 1], fields[|fields| - 1];
      VisitKeepsKey(env, front, depth, st, key);
      var before := VisitFields(env, front, depth, st);
      var out := before.value + [Field(last.key, VisitField(env, last, depth, before.state).value)];
      assert out[..|out| - 1] == before.value;
    }
  }

  lemma {:induction false} BlockSettles(env: Env, fields: seq<Field>, depth: nat, st: State)
    requires Sound(env.rules) && NeutralLiterals(env.rules) && depth <= MAX_DEPTH
    ensures VisitBlock(env, fields, depth, st).Done? ==>
              Settled(env.rules, VisitBlock(env, fields, depth, st).value, depth)
    decreases fields, 3
  {
    match BlockKind(env.rules, fields)
    case Attachment =>
      var text := VisitRendition(env, fields, depth, st);
      if text.Done? { TextBlockSettled(env.rules, text.value, depth); }
    case Ordinary =>
      if VisitFields(env, fields, depth, st).Done? {
        FieldsSettle(env, fields, depth, st);
        VisitKeepsKey(env, fields, depth, st, "type");
      }
    case _ =>
  }

  lemma TextBlockIsOrdinary(rules: Rules, text: string)
    requires NeutralLiterals(rules)
    ensures BlockKind(rules, TextBlock(text).fields) == Ordinary
  {
    var out := TextBlock(text).fields;
    assert out[..1] == [out[0]] && out[..1][..0] == [];
    assert Get(out, "type") == Get(out[..1], "type") == Str("text");
  }

  lemma TextBlockSettled(rules: Rules, text: string, depth: nat)
    requires NeutralLiterals(rules) && depth < MAX_DEPTH && Quiet(rules, text)
    ensures Settled(rules, TextBlock(text), depth)
  {
    TextBlockIsOrdinary(rules, text);
    assert SettledField(rules, Field("type", Str("text")), depth);
    assert SettledField(rules, Field("text", Str(text)), depth);
    assert SettledBlock(rules, TextBlock(text).fields, depth);
  }

  // ---------------------------------------------------------------- a settled tree is a fixed point

  lemma QuietText(rules: Rules, s: string, st: State)
    requires Sound(rules) && Quiet(rules, s) && st.textBytes + TextSize(s) <= MAX_BYTES
    ensures VisitText(rules, s, st) == Done(s, st.(textBytes := st.textBytes + TextSize(s)))
  {
    RenderKeeps(s, 0, |s|, Mark);
    KeepsHaveNoMask(0, |s|);
    assert s[0..|s|] == s;
    assert Tokens(rules, s) == Keeps(0, |s|);
  }

  function Spent(st: State, charge: nat): State { st.(textBytes := st.textBytes + charge) }

  ghost predicate Unchanged<T>(r: Outcome<T>, v: T, st: State, charge: nat) { r == Done(v, Spent(st, charge)) }

  /** Visiting a settled tree returns it, counts nothing, and charges its inspected text to the budget. */
  lemma {:induction false} SettledIsFixed(env: Env, v: Json, depth: nat, st: State)
    requires Sound(env.rules) && Settled(env.rules, v, depth) && st.textBytes + Charged(env.rules, v) <= MAX_BYTES
    ensures Unchanged(Visit(env, v, depth, st), v, st, Charged(env.rules, v))
    decreases v, 0
  {
    match v
    case Str(s) => QuietText(env.rules, s, st);
    case Arr(items) => ItemsFixed(env, items, depth, st);
    case Obj(fields) => BlockFixed(env, fields, depth, st);
    case _ =>
  }

  lemma {:induction false} BlockFixed(env: Env, fields: seq<Field>, depth: nat, st: State)
    requires Sound(env.rules) && SettledBlock(env.rules, fields, depth)
    requires st.textBytes + Charged(env.rules, Obj(fields)) <= MAX_BYTES
    ensures Unchanged(VisitBlock(env, fields, depth, st), Obj(fields), st, Charged(env.rules, Obj(fields)))
    decreases fields, 3
  {
    hide VisitFields, SettledFields, ChargedFields;
    if BlockKind(env.rules, fields).Ordinary? { FieldsFixed(env, fields, depth, st); }
  }

  lemma SettledItemsFront(rules: Rules, items: seq<Json>, depth: nat)
    requires SettledItems(rules, items, depth) && items != []
    ensures SettledItems(rules, items[..|items| - 1], depth) && Settled(rules, items[|items| - 1], depth)
  {
  }

  lemma SettledFieldsFront(rules: Rules, fields: seq<Field>, depth: nat)
    requires SettledFields(rules, fields, depth) && fields != []
    ensures SettledFields(rules, fields[..|fields| - 1], depth) && SettledField(rules, fields[|fields| - 1], depth)
  {
  }

  lemma {:induction false} ItemsFixed(env: Env, items: seq<Json>, depth: nat, st: State)
    requires Sound(env.rules) && SettledItems(env.rules, items, depth + 1)
    requires st.textBytes + ChargedItems(env.rules, items) <= MAX_BYTES
    ensures Unchanged(VisitItems(env, items, depth, st), items, st, ChargedItems(env.rules, items))
    decreases items, 2
  {
    hide Visit, Settled, SettledItems, Charged;
    if items != [] {
      var front, last := items[..|items| - 1], items[|items| - 1];
      SettledItemsFront(env.rules, items, depth + 1);
      ItemsFixed(env, front, depth, st);
      SettledIsFixed(env, last, depth + 1, Spent(st, ChargedItems(env.rules, front)));
      ItemsStep(env, items, depth, st, ChargedItems(env.rules, front), Charged(env.rules, last));
    }
  }

  /** One more item, unfolded once. */
  lemma VisitOneItem(env: Env, items: seq<Json>, depth: nat, st: State, front: seq<Json>, mid: State, v: Json,
                     end: State)
    requires Sound(env.rules) && items != []
    requires VisitItems(env, items[..|items| - 1], depth, st) == Done(front, mid)
    requires Visit(env, items[|items| - 1], depth + 1, mid) == Done(v, end)
    ensures VisitItems(env, items, depth, st) == Done(front + [v], end)
  {
    hide Visit, Sound;
  }

  lemma ItemsStep(env: Env, items: seq<Json>, depth: nat, st: State, a: nat, b: nat)
    requires Sound(env.rules) && items != []
    requires Unchanged(VisitItems(env, items[..|items| - 1], depth, st), items[..|items| - 1], st, a)
    requires Unchanged(Visit(env, items[|items| - 1], depth + 1, Spent(st, a)), items[|items| - 1], Spent(st, a), b)
    ensures Unchanged(VisitItems(env, items, depth, st), items, st, a + b)
  {
    hide VisitItems, Visit, Sound;
    var front, last := items[..|items| - 1], items[|items| - 1];
    VisitOneItem(env, items, depth, st, front, Spent(st, a), last, Spent(Spent(st, a), b));
    assert items == front + [last];
  }

  lemma {:induction false} FieldsFixed(env: Env, fields: seq<Field>, depth: nat, st: State)
    requires Sound(env.rules) && SettledFields(env.rules, fields, depth)
    requires st.textBytes + ChargedFields(env.rules, fields) <= MAX_BYTES
    ensures Unchanged(VisitFields(env, fields, depth, st), fields, st, ChargedFields(env.rules, fields))
    decreases fields, 2
  {
    hide VisitField, SettledField, SettledFields, ChargedField;
    if fields != [] {
      var front, last := fields[..|fields| - 1], fields[|fields| - 1];
      SettledFieldsFront(env.rules, fields, depth);
      FieldsFixed(env, front, depth, st);
      FieldFixed(env, last, depth, Spent(st, ChargedFields(env.rules, front)));
      FieldsStep(env, fields, depth, st, ChargedFields(env.rules, front), ChargedField(env.rules, last));
    }
  }

  /** One more field, unfolded once. */
  lemma VisitOneMore(env: Env, fields: seq<Field>, depth: nat, st: State, front: seq<Field>, mid: State, v: Json,
                     end: State)
    requires Sound(env.rules) && fields != []
    requires VisitFields(env, fields[..|fields| - 1], depth, st) == Done(front, mid)
    requires VisitField(env, fields[|fields| - 1], depth, mid) == Done(v, end)
    ensures VisitFields(env, fields, depth, st) == Done(front + [Field(fields[|fields| - 1].key, v)], end)
  {
    hide VisitField, Sound;
  }

  lemma FieldsStep(env: Env, fields: seq<Field>, depth: nat, st: State, a: nat, b: nat)
    requires Sound(env.rules) && fields != []
    requires Unchanged(VisitFields(env, fields[..|fields| - 1], depth, st), fields[..|fields| - 1], st, a)
    requires Unchanged(VisitField(env, fields[|fields| - 1], depth, Spent(st, a)), fields[|fields| - 1].value,
        Spent(st, a), b)
    ensures Unchanged(VisitFields(env, fields, depth, st), fields, st, a + b)
  {
    hide VisitFields, VisitField, Sound;
    var front, last := fields[..|fields| - 1], fields[|fields| - 1];
    VisitOneMore(env, fields, depth, st, front, Spent(st, a), last.value, Spent(Spent(st, a), b));
    assert fields == front + [last];
  }

  lemma {:induction false} FieldFixed(env: Env, f: Field, depth: nat, st: State)
    requires Sound(env.rules) && SettledField(env.rules, f, depth)
    requires st.textBytes + ChargedField(env.rules, f) <= MAX_BYTES
    ensures Unchanged(VisitField(env, f, depth, st), f.value, st, ChargedField(env.rules, f))
    decreases f, 1
  {
    if !(env.rules.sensitive(f.key) && Scalar(f.value)) && !env.rules.protocol(f.key) {
      SettledIsFixed(env, f.value, depth + 1, st);
    }
  }

  /** Exactly the settled trees are left alone by `visit`. */
  lemma FixedIffSettled(env: Env, v: Json, depth: nat, st: State)
    requires Sound(env.rules) && NeutralLiterals(env.rules) && st.textBytes + Charged(env.rules, v) <= MAX_BYTES
    ensures Unchanged(Visit(env, v, depth, st), v, st, Charged(env.rules, v)) <==> Settled(env.rules, v, depth)
  {
    if Settled(env.rules, v, depth) { SettledIsFixed(env, v, depth, st); }
    if Visit(env, v, depth, st).Done? { VisitSettles(env, v, depth, st); }
  }

  // ---------------------------------------------------------------- the budget of a second pass

  lemma {:induction false} TextFitsString(s: string)
    ensures TextSize(s) < StringSize(s)
  {
    if s != "" { TextFitsString(s[1..]); }
  }

  /** The inspected text of a tree is no longer than the dump of the tree. */
  lemma {:induction false} ChargedFitsDump(rules: Rules, v: Json)
    ensures Charged(rules, v) <= DumpSize(v)
    decreases v, 0
  {
    match v
    case Str(s) => TextFitsString(s);
    case Arr(items) => ItemsFit(rules, items);
    case Obj(fields) => FieldsFit(rules, fields);
    case _ =>
  }

  lemma {:induction false} ItemsFit(rules: Rules, items: seq<Json>)
    ensures ChargedItems(rules, items) <= ItemsSize(items)
    decreases items, 1
  {
    if items != [] {
      ItemsFit(rules, items[..|items| - 1]);
      ChargedFitsDump(rules, items[|items| - 1]);
    }
  }

  lemma {:induction false} FieldsFit(rules: Rules, fields: seq<Field>)
    ensures ChargedFields(rules, fields) <= FieldsSize(fields)
    decreases fields, 1
  {
    if fields != [] {
      FieldsFit(rules, fields[..|fields| - 1]);
      ChargedFitsDump(rules, fields[|fields| - 1].value);
    }
  }

  // ---------------------------------------------------------------- `clean`

  function Put(fields: seq<Field>, key: string, v: Json): seq<Field> {
    if fields == [] then []
    else if fields[|fields| - 1].key == key then fields[..|fields| - 1] + [Field(key, v)]
    else Put(fields[..|fields| - 1], key, v) + [fields[|fields| - 1]]
  }

  /** The loop of `clean` over the inspected fields of the request. */
  ghost function VisitTops(env: Env, fields: seq<Field>, keys: seq<string>, st: State): Outcome<seq<Field>>
    requires Sound(env.rules)
  {
    if keys == [] then Done(fields, st)
    else
      match VisitTops(env, fields, keys[..|keys| - 1], st)
      case Failed(fault) => Failed(fault)
      case Done(before, st') =>
        var key := keys[|keys| - 1];
        if !Has(before, key) then Done(before, st')
        else
          match Visit(env, Get(before, key), 0, st')
          case Failed(fault) => Failed(fault)
          case Done(v, st'') => Done(Put(before, key, v), st'')
  }

  datatype Cleaned = Cleaned(tree: Json, count: nat, kinds: set<string>, attachments: nat)

  function Inspected(): seq<string> { ["messages", "system", "tools"] }

  /** `clean` on a body of `size` bytes that decodes to `loaded` (none when it is not valid JSON). */
  ghost function CleanBody(env: Env, keys: seq<string>, size: nat, loaded: Option<Json>): Result<Cleaned, Fault>
    requires Sound(env.rules) && keys != []
  {
    if size > MAX_REQUEST_BYTES then Err(RequestTooLarge)
    else if loaded.None? then Err(InvalidJson)
    else if !loaded.value.Obj? || !Get(loaded.value.fields, keys[0]).Arr? then Err(MessagesRequired)
    else
      match VisitTops(env, loaded.value.fields, keys, FRESH)
      case Failed(fault) => Err(fault)
      case Done(fields, st) =>
        if DumpSize(Obj(fields)) > MAX_BYTES then Err(RequestTooLarge)
        else Ok(Cleaned(Obj(fields), st.count, st.kinds, st.read))
  }

  lemma {:induction false} GetAfterPut(fields: seq<Field>, key: string, v: Json, other: string)
    requires Has(fields, key)
    ensures Has(Put(fields, key, v), other) <==> Has(fields, other)
    ensures Get(Put(fields, key, v), other) == if other == key then v else Get(fields, other)
  {
    var front, last := fields[..|fields| - 1], fields[|fields| - 1];
    var out := Put(fields, key, v);
    if last.key == key {
      assert out[..|out| - 1] == front;
    } else {
      GetAfterPut(front, key, v, other);
      assert out[..|out| - 1] == Put(front, key, v);
    }
  }

  lemma {:induction false} PutSame(fields: seq<Field>, key: string)
    requires Has(fields, key)
    ensures Put(fields, key, Get(fields, key)) == fields
  {
    var front, last := fields[..|fields| - 1], fields[|fields| - 1];
    assert fields == front + [last];
    if last.key != key { PutSame(front, key); }
  }

  lemma {:induction false} AbsentIsNull(fields: seq<Field>, key: string)
    requires !Has(fields, key)
    ensures Get(fields, key) == Null
  {
    if fields != [] { AbsentIsNull(fields[..|fields| - 1], key); }
  }

  /** The inspected fields hold settled values. */
  ghost predicate TopsSettled(rules: Rules, fields: seq<Field>, keys: seq<string>) {
    forall k :: 0 <= k < |keys| ==> Settled(rules, Get(fields, keys[k]), 0)
  }

  lemma PutSettled(rules: Rules, fields: seq<Field>, keys: seq<string>, key: string, v: Json)
    requires TopsSettled(rules, fields, keys) && Has(fields, key) && Settled(rules, v, 0)
    ensures TopsSettled(rules, Put(fields, key, v), keys + [key])
  {
    forall k | 0 <= k <= |keys| ensures Settled(rules, Get(Put(fields, key, v), (keys + [key])[k]), 0) {
      GetAfterPut(fields, key, v, (keys + [key])[k]);
    }
  }

  lemma AbsentSettled(rules: Rules, fields: seq<Field>, keys: seq<string>, key: string)
    requires TopsSettled(rules, fields, keys) && !Has(fields, key)
    ensures TopsSettled(rules, fields, keys + [key])
  {
    AbsentIsNull(fields, key);
    forall k | 0 <= k <= |keys| ensures Settled(rules, Get(fields, (keys + [key])[k]), 0) {
      assert k < |keys| ==> (keys + [key])[k] == keys[k];
    }
  }

  lemma {:induction false} TopsSettle(env: Env, fields: seq<Field>, keys: seq<string>, st: State)
    requires Sound(env.rules) && NeutralLiterals(env.rules) && VisitTops(env, fields, keys, st).Done?
    ensures TopsSettled(env.rules, VisitTops(env, fields, keys, st).value, keys)
  {
    if keys != [] {
      var front, key := keys[..|keys| - 1], keys[|keys| - 1];
      TopsSettle(env, fields, front, st);
      var before := VisitTops(env, fields, front, st);
      assert keys == front + [key];
      if Has(before.value, key) {
        VisitSettles(env, Get(before.value, key), 0, before.state);
        PutSettled(env.rules, before.value, front, key, Visit(env, Get(before.value, key), 0, before.state).value);
      } else {
        AbsentSettled(env.rules, before.value, front, key);
      }
    }
  }

  /** A visit keeps a list a list. */
  lemma {:induction false} TopsKeepArray(env: Env, fields: seq<Field>, keys: seq<string>, st: State, key: string)
    requires Sound(env.rules) && VisitTops(env, fields, keys, st).Done? && Get(fields, key).Arr?
    ensures Get(VisitTops(env, fields, keys, st).value, key).Arr?
  {
    if keys != [] {
      var front, last := keys[..|keys| - 1], keys[|keys| - 1];
      TopsKeepArray(env, fields, front, st, key);
      var before := VisitTops(env, fields, front, st);
      if Has(before.value, last) {
        GetAfterPut(before.value, last, Visit(env, Get(before.value, last), 0, before.state).value, key);
      }
    }
  }

  function ChargedTops(rules: Rules, fields: seq<Field>, keys: seq<string>): nat {
    if keys == [] then 0
    else ChargedTops(rules, fields, keys[..|keys| - 1]) + Charged(rules, Get(fields, keys[|keys| - 1]))
  }

  lemma TopsSettledFront(rules: Rules, fields: seq<Field>, keys: seq<string>)
    requires TopsSettled(rules, fields, keys) && keys != []
    ensures TopsSettled(rules, fields, keys[..|keys| - 1]) && Settled(rules, Get(fields, keys[|keys| - 1]), 0)
  {
    hide Settled;
    var front := keys[..|keys| - 1];
    forall k | 0 <= k < |front| ensures Settled(rules, Get(fields, front[k]), 0) { assert front[k] == keys[k]; }
  }

  lemma TopsStep(env: Env, fields: seq<Field>, keys: seq<string>, st: State, a: nat, b: nat)
    requires Sound(env.rules) && keys != []
    requires Unchanged(VisitTops(env, fields, keys[..|keys| - 1], st), fields, st, a)
    requires var key := keys[|keys| - 1];
             if Has(fields, key)
             then Unchanged(Visit(env, Get(fields, key), 0, Spent(st, a)), Get(fields, key), Spent(st, a), b)
             else b == 0
    ensures Unchanged(VisitTops(env, fields, keys, st), fields, st, a + b)
  {
    hide Visit;
    if Has(fields, keys[|keys| - 1]) { PutSame(fields, keys[|keys| - 1]); }
  }

  lemma {:induction false} TopsFixed(env: Env, fields: seq<Field>, keys: seq<string>, st: State)
    requires Sound(env.rules) && TopsSettled(env.rules, fields, keys)
    requires st.textBytes + ChargedTops(env.rules, fields, keys) <= MAX_BYTES
    ensures Unchanged(VisitTops(env, fields, keys, st), fields, st, ChargedTops(env.rules, fields, keys))
  {
    hide Settled, Visit, TopsSettled;
    if keys != [] {
      var front, key := keys[..|keys| - 1], keys[|keys| - 1];
      TopsSettledFront(env.rules, fields, keys);
      TopsFixed(env, fields, front, st);
      var a := ChargedTops(env.rules, fields, front);
      if Has(fields, key) {
        SettledIsFixed(env, Get(fields, key), 0, Spent(st, a));
      } else {
        AbsentIsNull(fields, key);
      }
      TopsStep(env, fields, keys, st, a, Charged(env.rules, Get(fields, key)));
    }
  }

  predicate Distinct(keys: seq<string>) { forall i, j :: 0 <= i < j < |keys| ==> keys[i] != keys[j] }

  /** Taking one field away lowers the charge of distinct keys by at most the charge of its value. */
  lemma {:induction false} ChargedWithout(rules: Rules, fields: seq<Field>, keys: seq<string>)
    requires fields != [] && Distinct(keys)
    ensures var last := fields[|fields| - 1];
            ChargedTops(rules, fields, keys)
            <= ChargedTops(rules, fields[..|fields| - 1], keys)
               + (if last.key in keys then Charged(rules, last.value) else 0)
  {
    if keys != [] {
      var front, key := keys[..|keys| - 1], keys[|keys| - 1];
      assert keys == front + [key] && key !in front;
      ChargedWithout(rules, fields, front);
    }
  }

  lemma {:induction false} NoFieldsNoCharge(rules: Rules, keys: seq<string>)
    ensures ChargedTops(rules, [], keys) == 0
  {
    if keys != [] { NoFieldsNoCharge(rules, keys[..|keys| - 1]); }
  }

  lemma {:induction false} TopsFitDump(rules: Rules, fields: seq<Field>, keys: seq<string>)
    requires Distinct(keys)
    ensures ChargedTops(rules, fields, keys) <= FieldsSize(fields)
  {
    if fields == [] {
      NoFieldsNoCharge(rules, keys);
    } else {
      TopsFitDump(rules, fields[..|fields| - 1], keys);
      ChargedWithout(rules, fields, keys);
      ChargedFitsDump(rules, fields[|fields| - 1].value);
    }
  }

  /** What a successful `clean` returns: an object whose inspected fields are settled, within the size limit. */
  lemma CleanSettles(env: Env, keys: seq<string>, size: nat, loaded: Option<Json>)
    requires Sound(env.rules) && NeutralLiterals(env.rules) && keys != [] && CleanBody(env, keys, size, loaded).Ok?
    ensures var tree := CleanBody(env, keys, size, loaded).value.tree;
            && tree.Obj? && Get(tree.fields, keys[0]).Arr? && TopsSettled(env.rules, tree.fields, keys)
            && DumpSize(tree) <= MAX_BYTES
  {
    TopsSettle(env, loaded.value.fields, keys, FRESH);
    TopsKeepArray(env, loaded.value.fields, keys, FRESH, keys[0]);
  }

  lemma SettledCleans(env: Env, keys: seq<string>, tree: Json)
    requires Sound(env.rules) && keys != [] && Distinct(keys)
    requires tree.Obj? && Get(tree.fields, keys[0]).Arr? && TopsSettled(env.rules, tree.fields, keys)
    requires DumpSize(tree) <= MAX_BYTES
    ensures CleanBody(env, keys, DumpSize(tree), Some(tree)) == Ok(Cleaned(tree, 0, {}, 0))
  {
    TopsFitDump(env.rules, tree.fields, keys);
    TopsFixed(env, tree.fields, keys, FRESH);
  }

  /** Cleaning is idempotent: when `clean` succeeds, cleaning its result succeeds too, whatever the attachment
      reader would answer, with the same tree, nothing counted and no attachment read. */
  lemma CleanIsIdempotent(env: Env, again: Env, keys: seq<string>, size: nat, loaded: Option<Json>)
    requires Sound(env.rules) && NeutralLiterals(env.rules) && again.rules == env.rules
    requires keys != [] && Distinct(keys) && CleanBody(env, keys, size, loaded).Ok?
    ensures var tree := CleanBody(env, keys, size, loaded).value.tree;
            CleanBody(again, keys, DumpSize(tree), Some(tree)) == Ok(Cleaned(tree, 0, {}, 0))
  {
    CleanSettles(env, keys, size, loaded);
    SettledCleans(again, keys, CleanBody(env, keys, size, loaded).value.tree);
  }

  lemma InspectedAreDistinct()
    ensures Inspected() != [] && Distinct(Inspected())
  {
    assert |"messages"| == 8 && |"system"| == 6 && |"tools"| == 5;
  }

  /** With the protocol keys, the block types and the inspected fields of the source, whatever the detectors look for,
      provided that they find nothing in the two words that the cleaner itself writes. */
  lemma SourceCleanIsIdempotent(env: Env, again: Env, size: nat, loaded: Option<Json>)
    requires Sound(env.rules) && SourceNames(env.rules) && again.rules == env.rules
    requires !env.rules.sensitive("type") && !env.rules.sensitive("text") && !env.rules.secret("text")
    requires CleanBody(env, Inspected(), size, loaded).Ok?
    ensures var tree := CleanBody(env, Inspected(), size, loaded).value.tree;
            CleanBody(again, Inspected(), DumpSize(tree), Some(tree)) == Ok(Cleaned(tree, 0, {}, 0))
  {
    hide SourceNames, NeutralLiterals, Inspected, CleanBody;
    SourceNamesAreNeutral(env.rules);
    InspectedAreDistinct();
    CleanIsIdempotent(env, again, Inspected(), size, loaded);
  }
}
