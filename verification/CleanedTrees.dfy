/** What `clean` of `core/extension_redaction.py` does to a tree, said without its visit: which trees can be cleaned,
    what each of them becomes, node by node, and what is counted on the way. */
module CleanedTrees {

  import opened Basics
  import opened JsonText
  import opened Spans
  import opened Cleaning

  // ---------------------------------------------------------------- one text

  /** The text with `XXX` in the place of each span, from a position on. */
  function Replaced(s: string, spans: seq<Span>, from: nat): string
    requires InRange(spans, |s|) && Disjoint(spans) && from <= |s| && (spans != [] ==> from <= spans[0].start)
  {
    if spans == [] then s[from..]
    else s[from..spans[0].start] + "XXX" + Replaced(s, spans[1..], spans[0].end)
  }

  /** The merged spans of what is found in a text. */
  ghost function Hits(rules: Rules, s: string): (merged: seq<Span>)
    requires Sound(rules)
    ensures InRange(merged, |s|) && Disjoint(merged)
  {
    if rules.find(s).None? then []
    else
      MergeIsExact(rules.find(s).value, |s|);
      Merged(Sort(rules.find(s).value, ByTuple))
  }

  ghost function Masked(rules: Rules, s: string): string
    requires Sound(rules)
  {
    Replaced(s, Hits(rules, s), 0)
  }

  /** A text can be cleaned if no private key in it is incomplete and nothing is found in what replacing leaves. */
  ghost predicate TextCleanable(rules: Rules, s: string)
    requires Sound(rules)
  {
    rules.find(s).Some? && rules.find(Masked(rules, s)) == Some([])
  }

  // ---------------------------------------------------------------- what is counted

  /** Replacements, their rules, inspected bytes and attachments read. */
  datatype Tally = Tally(count: nat, kinds: set<string>, bytes: nat, attachments: nat)

  const NOTHING := Tally(0, {}, 0, 0)

  function Plus(a: Tally, b: Tally): Tally {
    Tally(a.count + b.count, a.kinds + b.kinds, a.bytes + b.bytes, a.attachments + b.attachments)
  }

  ghost function TextTally(rules: Rules, s: string): Tally
    requires Sound(rules)
  {
    Tally(|Hits(rules, s)|, (set hit <- Hits(rules, s) :: hit.rule), TextSize(s), 0)
  }

  /** The text of the n-th attachment: the heading, the title and the context on lines of their own, and what was
      extracted; there is none beyond the fourth, for one that cannot be read, or when a label is no text. */
  function Rendition(env: Env, fields: seq<Field>, n: nat): Option<string> {
    var title, context := Get(fields, "title"), Get(fields, "context");
    if n > 4 || env.extract(n, fields).Err? || !(title.Null? || title.Str?) || !(context.Null? || context.Str?)
    then None
    else Some(env.heading + Line(title) + Line(context) + env.extract(n, fields).value)
  }

  function Line(v: Json): string { if v.Str? then v.s + "\n" else "" }

  ghost function TallyOf(env: Env, v: Json, read: nat): Tally
    requires Sound(env.rules)
    decreases v, 0
  {
    match v
    case Str(s) => TextTally(env.rules, s)
    case Arr(items) => ItemsTally(env, items, read)
    case Obj(fields) =>
      (match BlockKind(env.rules, fields)
       case Attachment =>
         (match Rendition(env, fields, read + 1)
          case None => NOTHING
          case Some(text) => TextTally(env.rules, text).(attachments := 1))
       case Ordinary => FieldsTally(env, fields, read)
       case _ => NOTHING)
    case _ => NOTHING
  }

  ghost function ItemsTally(env: Env, items: seq<Json>, read: nat): Tally
    requires Sound(env.rules)
    decreases items, 1
  {
    if items == [] then NOTHING
    else
      var before := ItemsTally(env, items[..|items| - 1], read);
      Plus(before, TallyOf(env, items[|items| - 1], read + before.attachments))
  }

  /** A text, a number or a truth value. */
  predicate Literal(v: Json) { v.Str? || v.Int? || v.Float? || v.Bool? }

  /** A scalar under a sensitive key counts as one replacement unless it is `XXX` already; a protocol identifier counts
      for nothing. */
  ghost function FieldTally(env: Env, f: Field, read: nat): Tally
    requires Sound(env.rules)
    decreases f, 1
  {
    if env.rules.sensitive(f.key) && Literal(f.value)
    then if f.value == Str("XXX") then NOTHING else Tally(1, {"password_assignment"}, 0, 0)
    else if env.rules.protocol(f.key) then NOTHING
    else TallyOf(env, f.value, read)
  }

  ghost function FieldsTally(env: Env, fields: seq<Field>, read: nat): Tally
    requires Sound(env.rules)
    decreases fields, 2
  {
    if fields == [] then NOTHING
    else
      var before := FieldsTally(env, fields[..|fields| - 1], read);
      Plus(before, FieldTally(env, fields[|fields| - 1], read + before.attachments))
  }

  // ---------------------------------------------------------------- which trees can be cleaned

  ghost predicate Cleanable(env: Env, v: Json, depth: nat, read: nat)
    requires Sound(env.rules)
    decreases v, 0
  {
    depth <= 40 &&
    match v
    case Str(s) => TextCleanable(env.rules, s)
    case Arr(items) => ItemsCleanable(env, items, depth + 1, read)
    case Obj(fields) =>
      (match BlockKind(env.rules, fields)
       case Attachment =>
         && depth < 40 && Rendition(env, fields, read + 1).Some?
         && TextCleanable(env.rules, Rendition(env, fields, read + 1).value)
       case HiddenReasoning => false
       case Reasoning => Get(fields, "thinking").Str? && env.rules.find(Get(fields, "thinking").s) == Some([])
       case Ordinary => FieldsCleanable(env, fields, depth, read))
    case _ => true
  }

  ghost predicate ItemsCleanable(env: Env, items: seq<Json>, depth: nat, read: nat)
    requires Sound(env.rules)
    decreases items, 1
  {
    items == [] ||
    (var front := items[..|items| - 1];
     && ItemsCleanable(env, front, depth, read)
     && Cleanable(env, items[|items| - 1], depth, read + ItemsTally(env, front, read).attachments))
  }

  /** A protocol identifier must not hold a recognizable secret. */
  ghost predicate FieldCleanable(env: Env, f: Field, depth: nat, read: nat)
    requires Sound(env.rules)
    decreases f, 1
  {
    if env.rules.sensitive(f.key) && Literal(f.value) then true
    else if env.rules.protocol(f.key) then f.value.Str? ==> !env.rules.secret(f.value.s)
    else Cleanable(env, f.value, depth + 1, read)
  }

  ghost predicate FieldsCleanable(env: Env, fields: seq<Field>, depth: nat, read: nat)
    requires Sound(env.rules)
    decreases fields, 2
  {
    fields == [] ||
    (var front := fields[..|fields| - 1];
     && FieldsCleanable(env, front, depth, read)
     && FieldCleanable(env, fields[|fields| - 1], depth, read + FieldsTally(env, front, read).attachments))
  }

  // ---------------------------------------------------------------- what a tree becomes

  /** Lists keep their length and objects their keys, in order; every inspected text is masked; a scalar under a
      sensitive key is `XXX`; an attachment is one text block with its masked rendition; all else is as it was. */
  ghost predicate CleanedFrom(env: Env, before: Json, after: Json, read: nat)
    requires Sound(env.rules)
    decreases before, 0
  {
    match before
    case Str(s) => after == Str(Masked(env.rules, s))
    case Arr(items) => after.Arr? && ItemsCleanedFrom(env, items, after.items, read)
    case Obj(fields) =>
      (match BlockKind(env.rules, fields)
       case Attachment =>
         && Rendition(env, fields, read + 1).Some?
         && var text := Masked(env.rules, Rendition(env, fields, read + 1).value);
            after == Obj([Field("type", Str("text")), Field("text", Str(text))])
       case Ordinary => after.Obj? && FieldsCleanedFrom(env, fields, after.fields, read)
       case _ => after == before)
    case _ => after == before
  }

  ghost predicate ItemsCleanedFrom(env: Env, before: seq<Json>, after: seq<Json>, read: nat)
    requires Sound(env.rules)
    decreases before, 1
  {
    |after| == |before| &&
    forall k :: 0 <= k < |before| ==>
      CleanedFrom(env, before[k], after[k], read + ItemsTally(env, before[..k], read).attachments)
  }

  ghost predicate FieldCleanedFrom(env: Env, before: Field, after: Field, read: nat)
    requires Sound(env.rules)
    decreases before, 1
  {
    && after.key == before.key
    && if env.rules.sensitive(before.key) && Literal(before.value) then after.value == Str("XXX")
       else if env.rules.protocol(before.key) then after.value == before.value
       else CleanedFrom(env, before.value, after.value, read)
  }

  ghost predicate FieldsCleanedFrom(env: Env, before: seq<Field>, after: seq<Field>, read: nat)
    requires Sound(env.rules)
    decreases before, 2
  {
    |after| == |before| &&
    forall k :: 0 <= k < |before| ==>
      FieldCleanedFrom(env, before[k], after[k], read + FieldsTally(env, before[..k], read).attachments)
  }

  // ---------------------------------------------------------------- the visit does exactly that

  function Added(st: State, t: Tally): State {
    State(st.count + t.count, st.kinds + t.kinds, st.textBytes + t.bytes, st.read + t.attachments)
  }

  lemma {:induction false} RenderIsReplaced(s: string, spans: seq<Span>, from: nat)
    requires InRange(spans, |s|) && Disjoint(spans) && from <= |s| && (spans != [] ==> from <= spans[0].start)
    ensures Renderable(s, Pieces(spans, from, |s|))
    ensures Render(s, Pieces(spans, from, |s|), Mark) == Replaced(s, spans, from)
    decreases |spans|
  {
    PiecesRenderable(s, spans, from);
    if spans == [] {
      RenderKeeps(s, from, |s|, Mark);
    } else {
      var rest := Pieces(spans[1..], spans[0].end, |s|);
      var keeps, mask := Keeps(from, spans[0].start), [Mask(spans[0].rule)];
      RenderIsReplaced(s, spans[1..], spans[0].end);
      RenderKeeps(s, from, spans[0].start, Mark);
      OneMask(s, spans[0].rule);
      RenderConcat(s, keeps, mask, Mark);
      RenderConcat(s, keeps + mask, rest, Mark);
    }
  }

  lemma OneMask(s: string, rule: string)
    ensures Renderable(s, [Mask(rule)]) && Render(s, [Mask(rule)], Mark) == "XXX"
  {
    assert [Mask(rule)][1..] == [];
  }

  lemma {:induction false} RulesOfSpans(spans: seq<Span>)
    ensures |RuleSeq(spans)| == |spans| && (set r <- RuleSeq(spans)) == (set hit <- spans :: hit.rule)
  {
    if spans != [] {
      var rest := spans[1..];
      RulesOfSpans(rest);
      assert spans == [spans[0]] + rest && RuleSeq(spans) == [spans[0].rule] + RuleSeq(rest);
      assert (set r <- RuleSeq(spans)) == {spans[0].rule} + (set r <- RuleSeq(rest));
      assert (set hit <- spans :: hit.rule) == {spans[0].rule} + (set hit <- rest :: hit.rule);
    }
  }

  lemma NothingFound(rules: Rules, s: string)
    ensures Quiet(rules, s) <==> rules.find(s) == Some([])
  {
    if rules.find(s).Some? {
      var found := rules.find(s).value;
      SortKeepsElements(found, ByTuple);
      var sorted := Sort(found, ByTuple);
      assert |sorted| == |multiset(sorted)| == |multiset(found)| == |found|;
      if sorted != [] { assert Merged(sorted) != []; }
    }
  }

  /** One text: it is masked, counted and charged, exactly if the budget allows and it can be cleaned. */
  lemma TextIsExact(rules: Rules, s: string, st: State)
    requires Sound(rules)
    ensures var r := VisitText(rules, s, st);
            && (r.Done? <==> TextCleanable(rules, s) && st.textBytes + TextSize(s) <= MAX_BYTES)
            && (r.Done? ==> r.value == Masked(rules, s) && r.state == Added(st, TextTally(rules, s)))
  {
    hide Masked, Hits, Masks, RuleSeq, Tokens, Render, Rescan, Quiet, Sound;
    if rules.find(s).Some? {
      TokensAreMasked(rules, s);
      RulesOfSpans(Hits(rules, s));
      var tokens := Tokens(rules, s);
      RescanIff(rules, Render(s, tokens, Mark),
                State(st.count + |Masks(tokens)|, st.kinds + (set r <- Masks(tokens)), st.textBytes + TextSize(s),
                      st.read));
    }
  }

  lemma RescanIff(rules: Rules, out: string, st: State)
    ensures Rescan(rules, out, st).Done? <==> rules.find(out) == Some([])
    ensures Rescan(rules, out, st).Done? ==> Rescan(rules, out, st) == Done(out, st)
  {
    hide Merged, Sort;
    NothingFound(rules, out);
  }

  lemma TokensAreMasked(rules: Rules, s: string)
    requires Sound(rules) && rules.find(s).Some?
    ensures Detected(rules, s).Some?
    ensures Render(s, Tokens(rules, s), Mark) == Masked(rules, s) && Masks(Tokens(rules, s)) == RuleSeq(Hits(rules, s))
  {
    var merged := Hits(rules, s);
    RenderIsReplaced(s, merged, 0);
    PiecesExact(merged, 0, |s|);
  }

  lemma RenditionIsRead(env: Env, fields: seq<Field>, n: nat)
    ensures ReadAttachment(env, fields, n).Ok? <==> Rendition(env, fields, n).Some?
    ensures ReadAttachment(env, fields, n).Ok? ==>
              ReadAttachment(env, fields, n).value == Rendition(env, fields, n).value
  {
    hide JoinLines, Get;
    var title, context := Label(Get(fields, "title")), Label(Get(fields, "context"));
    if n <= MAX_ATTACHMENTS && env.extract(n, fields).Ok? && title.Some? && context.Some? {
      Joined(title.value, context.value, env.extract(n, fields).value);
    }
  }

  function LabelLine(labels: seq<string>): string { if labels == [] then "" else labels[0] + "\n" }

  lemma Joined(title: seq<string>, context: seq<string>, e: string)
    requires |title| <= 1 && |context| <= 1
    ensures JoinLines(title + context + [e]) == LabelLine(title) + (LabelLine(context) + e)
  {
    hide JoinLines;
    if title == [] {
      assert title + context + [e] == context + [e];
      OneLabel(context, e);
    } else {
      assert title + context + [e] == [title[0]] + (context + [e]);
      OneLine(title[0], context + [e]);
      OneLabel(context, e);
    }
  }

  lemma OneLabel(labels: seq<string>, e: string)
    requires |labels| <= 1
    ensures JoinLines(labels + [e]) == LabelLine(labels) + e
  {
    if labels == [] {
      assert labels + [e] == [e];
    } else {
      assert labels + [e] == [labels[0]] + [e];
      OneLine(labels[0], [e]);
    }
  }

  lemma OneLine(line: string, lines: seq<string>)
    requires lines != []
    ensures JoinLines([line] + lines) == line + "\n" + JoinLines(lines)
  {
    assert ([line] + lines)[1..] == lines;
  }

  lemma AddedTwice(st: State, a: Tally, b: Tally)
    ensures Added(Added(st, a), b) == Added(st, Plus(a, b))
    ensures Added(st, a).textBytes == st.textBytes + a.bytes && Added(st, a).read == st.read + a.attachments
    ensures Plus(a, b).bytes == a.bytes + b.bytes
  {
  }

  /** A visit from `st` that could clean and did: what it returns and what it leaves. */
  ghost predicate VisitOk(env: Env, v: Json, depth: nat, st: State)
    requires Sound(env.rules)
  {
    var r, t := Visit(env, v, depth, st), TallyOf(env, v, st.read);
    && (r.Done? <==> Cleanable(env, v, depth, st.read) && st.textBytes + t.bytes <= MAX_BYTES)
    && (r.Done? ==> CleanedFrom(env, v, r.value, st.read) && r.state == Added(st, t))
  }

  ghost predicate ItemsOk(env: Env, items: seq<Json>, depth: nat, st: State)
    requires Sound(env.rules)
  {
    var r, t := VisitItems(env, items, depth, st), ItemsTally(env, items, st.read);
    && (r.Done? <==> ItemsCleanable(env, items, depth + 1, st.read) && st.textBytes + t.bytes <= MAX_BYTES)
    && (r.Done? ==> ItemsCleanedFrom(env, items, r.value, st.read) && r.state == Added(st, t))
  }

  ghost predicate FieldOk(env: Env, f: Field, depth: nat, st: State)
    requires Sound(env.rules)
  {
    var r, t := VisitField(env, f, depth, st), FieldTally(env, f, st.read);
    && (r.Done? <==> FieldCleanable(env, f, depth, st.read) && st.textBytes + t.bytes <= MAX_BYTES)
    && (r.Done? ==> FieldCleanedFrom(env, f, Field(f.key, r.value), st.read) && r.state == Added(st, t))
  }

  ghost predicate FieldsOk(env: Env, fields: seq<Field>, depth: nat, st: State)
    requires Sound(env.rules)
  {
    var r, t := VisitFields(env, fields, depth, st), FieldsTally(env, fields, st.read);
    && (r.Done? <==> FieldsCleanable(env, fields, depth, st.read) && st.textBytes + t.bytes <= MAX_BYTES)
    && (r.Done? ==> FieldsCleanedFrom(env, fields, r.value, st.read) && r.state == Added(st, t))
  }

  /** `visit`, exactly: it succeeds if and only if the tree can be cleaned within the budget; then it returns what the
      tree becomes, and counts, charges and attachments just what there is to. */
  lemma {:induction false} VisitIsExact(env: Env, v: Json, depth: nat, st: State)
    requires Sound(env.rules) && st.textBytes <= MAX_BYTES
    ensures VisitOk(env, v, depth, st)
    decreases v, 0
  {
    match v
    case Str(s) => TextIsExact(env.rules, s, st);
    case Arr(items) => if depth <= 40 { ItemsAreExact(env, items, depth, st); }
    case Obj(fields) => if depth <= 40 { BlockIsExact(env, fields, depth, st); }
    case _ =>
  }

  lemma ItemsOnce(env: Env, items: seq<Json>, depth: nat, st: State)
    requires Sound(env.rules) && items != []
    ensures var front, last, r := items[..|items| - 1], items[|items| - 1], VisitItems(env, items, depth, st);
            var before, t := VisitItems(env, front, depth, st), ItemsTally(env, front, st.read);
            && ItemsTally(env, items, st.read) == Plus(t, TallyOf(env, last, st.read + t.attachments))
            && (ItemsCleanable(env, items, depth + 1, st.read) <==>
                  && ItemsCleanable(env, front, depth + 1, st.read)
                  && Cleanable(env, last, depth + 1, st.read + t.attachments))
            && (before.Failed? ==> r.Failed?)
            && (before.Done? ==>
                  var one := Visit(env, last, depth + 1, before.state);
                  if one.Failed? then r.Failed? else r == Done(before.value + [one.value], one.state))
  {
    hide Visit, Cleanable, TallyOf, Sound;
  }

  lemma FieldsOnce(env: Env, fields: seq<Field>, depth: nat, st: State)
    requires Sound(env.rules) && fields != []
    ensures var front, last, r := fields[..|fields| - 1], fields[|fields| - 1], VisitFields(env, fields, depth, st);
            var before, t := VisitFields(env, front, depth, st), FieldsTally(env, front, st.read);
            && FieldsTally(env, fields, st.read) == Plus(t, FieldTally(env, last, st.read + t.attachments))
            && (FieldsCleanable(env, fields, depth, st.read) <==>
                  && FieldsCleanable(env, front, depth, st.read)
                  && FieldCleanable(env, last, depth, st.read + t.attachments))
            && (before.Failed? ==> r.Failed?)
            && (before.Done? ==>
                  var one := VisitField(env, last, depth, before.state);
                  if one.Failed? then r.Failed? else r == Done(before.value + [Field(last.key, one.value)], one.state))
  {
    hide VisitField, FieldCleanable, FieldTally, Sound;
  }

  lemma ItemsCompose(env: Env, items: seq<Json>, depth: nat, st: State)
    requires Sound(env.rules) && items != [] && ItemsOk(env, items[..|items| - 1], depth, st)
    requires var before := VisitItems(env, items[..|items| - 1], depth, st);
             before.Done? ==> VisitOk(env, items[|items| - 1], depth + 1, before.state)
    ensures ItemsOk(env, items, depth, st)
  {
    hide VisitItems, ItemsTally, ItemsCleanable, Visit, Cleanable, TallyOf, CleanedFrom, ItemsCleanedFrom, Sound, Added,
      Plus;
    var front, last := items[..|items| - 1], items[|items| - 1];
    ItemsOnce(env, items, depth, st);
    var before, t := VisitItems(env, front, depth, st), ItemsTally(env, front, st.read);
    AddedTwice(st, t, TallyOf(env, last, st.read + t.attachments));
    if before.Done? && Visit(env, last, depth + 1, before.state).Done? {
      ItemsCleanedSnoc(env, items, before.value, Visit(env, last, depth + 1, before.state).value, st.read);
    }
  }

  lemma {:induction false} ItemsAreExact(env: Env, items: seq<Json>, depth: nat, st: State)
    requires Sound(env.rules) && st.textBytes <= MAX_BYTES
    ensures ItemsOk(env, items, depth, st)
    decreases items, 2
  {
    if items != [] {
      var front, last := items[..|items| - 1], items[|items| - 1];
      ItemsAreExact(env, front, depth, st);
      var before := VisitItems(env, front, depth, st);
      if before.Done? { VisitIsExact(env, last, depth + 1, before.state); }
      ItemsCompose(env, items, depth, st);
    }
  }

  lemma ItemsCleanedSnoc(env: Env, items: seq<Json>, front: seq<Json>, last: Json, read: nat)
    requires Sound(env.rules) && items != [] && ItemsCleanedFrom(env, items[..|items| - 1], front, read)
    requires CleanedFrom(env, items[|items| - 1], last, read + ItemsTally(env, items[..|items| - 1], read).attachments)
    ensures ItemsCleanedFrom(env, items, front + [last], read)
  {
    hide CleanedFrom, ItemsTally;
    var after := front + [last];
    forall k | 0 <= k < |items|
      ensures CleanedFrom(env, items[k], after[k], read + ItemsTally(env, items[..k], read).attachments)
    {
      if k < |front| { assert items[..|items| - 1][..k] == items[..k] && items[..|items| - 1][k] == items[k]; }
    }
  }

  lemma {:induction false} FieldIsExact(env: Env, f: Field, depth: nat, st: State)
    requires Sound(env.rules) && st.textBytes <= MAX_BYTES
    ensures FieldOk(env, f, depth, st)
    decreases f, 1
  {
    hide Visit, Cleanable, TallyOf, CleanedFrom;
    if !(env.rules.sensitive(f.key) && Literal(f.value)) && !env.rules.protocol(f.key) {
      VisitIsExact(env, f.value, depth + 1, st);
    }
  }

  lemma FieldsCompose(env: Env, fields: seq<Field>, depth: nat, st: State)
    requires Sound(env.rules) && fields != [] && FieldsOk(env, fields[..|fields| - 1], depth, st)
    requires var before := VisitFields(env, fields[..|fields| - 1], depth, st);
             before.Done? ==> FieldOk(env, fields[|fields| - 1], depth, before.state)
    ensures FieldsOk(env, fields, depth, st)
  {
    hide VisitFields, FieldsTally, FieldsCleanable, VisitField, FieldCleanable, FieldTally, FieldCleanedFrom,
      FieldsCleanedFrom, Sound, Added, Plus;
    var front, last := fields[..|fields| - 1], fields[|fields| - 1];
    FieldsOnce(env, fields, depth, st);
    var before, t := VisitFields(env, front, depth, st), FieldsTally(env, front, st.read);
    AddedTwice(st, t, FieldTally(env, last, st.read + t.attachments));
    if before.Done? && VisitField(env, last, depth, before.state).Done? {
      var v := VisitField(env, last, depth, before.state).value;
      FieldsCleanedSnoc(env, fields, before.value, Field(last.key, v), st.read);
    }
  }

  lemma {:induction false} FieldsAreExact(env: Env, fields: seq<Field>, depth: nat, st: State)
    requires Sound(env.rules) && st.textBytes <= MAX_BYTES
    ensures FieldsOk(env, fields, depth, st)
    decreases fields, 2
  {
    if fields != [] {
      var front, last := fields[..|fields| - 1], fields[|fields| - 1];
      FieldsAreExact(env, front, depth, st);
      var before := VisitFields(env, front, depth, st);
      if before.Done? { FieldIsExact(env, last, depth, before.state); }
      FieldsCompose(env, fields, depth, st);
    }
  }

  lemma FieldsCleanedSnoc(env: Env, fields: seq<Field>, front: seq<Field>, last: Field, read: nat)
    requires Sound(env.rules) && fields != [] && FieldsCleanedFrom(env, fields[..|fields| - 1], front, read)
    requires FieldCleanedFrom(env, fields[|fields| - 1], last,
                              read + FieldsTally(env, fields[..|fields| - 1], read).attachments)
    ensures FieldsCleanedFrom(env, fields, front + [last], read)
  {
    hide FieldCleanedFrom, FieldsTally;
    var after := front + [last];
    forall k | 0 <= k < |fields|
      ensures FieldCleanedFrom(env, fields[k], after[k], read + FieldsTally(env, fields[..k], read).attachments)
    {
      if k < |front| { assert fields[..|fields| - 1][..k] == fields[..k] && fields[..|fields| - 1][k] == fields[k]; }
    }
  }

  lemma {:induction false} BlockIsExact(env: Env, fields: seq<Field>, depth: nat, st: State)
    requires Sound(env.rules) && depth <= 40 && st.textBytes <= MAX_BYTES
    ensures var v := Obj(fields);
            var r, t := VisitBlock(env, fields, depth, st), TallyOf(env, v, st.read);
            && (r.Done? <==> Cleanable(env, v, depth, st.read) && st.textBytes + t.bytes <= MAX_BYTES)
            && (r.Done? ==> CleanedFrom(env, v, r.value, st.read) && r.state == Added(st, t))
    decreases fields, 3
  {
    match BlockKind(env.rules, fields)
    case Attachment => AttachmentIsExact(env, fields, depth, st);
    case HiddenReasoning =>
    case Reasoning => ReasoningIsExact(env, fields, depth, st);
    case Ordinary =>
      hide VisitFields, FieldsCleanable, FieldsCleanedFrom, FieldsTally, Sound;
      FieldsAreExact(env, fields, depth, st);
  }

  lemma AttachmentIsExact(env: Env, fields: seq<Field>, depth: nat, st: State)
    requires Sound(env.rules) && depth <= 40 && BlockKind(env.rules, fields) == Attachment
    ensures var v := Obj(fields);
            var r, t := VisitBlock(env, fields, depth, st), TallyOf(env, v, st.read);
            && (r.Done? <==> Cleanable(env, v, depth, st.read) && st.textBytes + t.bytes <= MAX_BYTES)
            && (r.Done? ==> CleanedFrom(env, v, r.value, st.read) && r.state == Added(st, t))
  {
    hide TextCleanable, TextTally, Masked, VisitText, Rendition, ReadAttachment, Sound;
    RenditionIsRead(env, fields, st.read + 1);
    var text := Rendition(env, fields, st.read + 1);
    if text.Some? {
      TextIsExact(env.rules, text.value, st.(read := st.read + 1));
      SizeOfText(env.rules, text.value);
    }
  }

  lemma SizeOfText(rules: Rules, s: string)
    requires Sound(rules)
    ensures TextTally(rules, s).bytes == TextSize(s) && TextTally(rules, s).attachments == 0
  {
  }

  lemma ReasoningIsExact(env: Env, fields: seq<Field>, depth: nat, st: State)
    requires Sound(env.rules) && depth <= 40 && st.textBytes <= MAX_BYTES && BlockKind(env.rules, fields) == Reasoning
    ensures var v := Obj(fields);
            var r := VisitBlock(env, fields, depth, st);
            && (r.Done? <==> Cleanable(env, v, depth, st.read))
            && (r.Done? ==> r == Done(v, st))
  {
    hide Merged, Sort, Sound;
    if Get(fields, "thinking").Str? { NothingFound(env.rules, Get(fields, "thinking").s); }
  }
}
