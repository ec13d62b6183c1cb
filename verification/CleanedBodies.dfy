/** The rest of what `clean` of `core/extension_redaction.py` does, said without its visit: why a tree is refused, and
    what becomes of a whole request body. */
module CleanedBodies {

  import opened Basics
  import opened JsonText
  import opened Spans
  import opened Cleaning
  import opened CleanedTrees

  // ---------------------------------------------------------------- why a tree is refused

  /** `fault` is why a text is refused when `spent` bytes have been charged before it. */
  ghost predicate TextFails(rules: Rules, s: string, spent: nat, fault: Fault)
    requires Sound(rules)
  {
    if spent + TextSize(s) > MAX_BYTES then fault == RequestTooLarge
    else if rules.find(s).None? || rules.find(Masked(rules, s)).None? then fault == IncompletePrivateKey
    else rules.find(Masked(rules, s)).value != [] && fault == RedactionIncomplete
  }

  ghost predicate AttachmentFails(env: Env, fields: seq<Field>, depth: nat, n: nat, spent: nat, fault: Fault)
    requires Sound(env.rules)
  {
    if n > 4 then fault == AttachmentRefused(CountExceeded)
    else if env.extract(n, fields).Err? then fault == AttachmentRefused(Unreadable(env.extract(n, fields).error))
    else if Rendition(env, fields, n).None? then fault == AttachmentRefused(InvalidMetadata)
    else if depth >= 40 then fault == RequestTooDeep
    else TextFails(env.rules, Rendition(env, fields, n).value, spent, fault)
  }

  ghost predicate ReasoningFails(rules: Rules, thinking: Json, fault: Fault) {
    if thinking.Str? && rules.find(thinking.s).None? then fault == IncompletePrivateKey
    else (thinking.Str? ==> rules.find(thinking.s) != Some([])) && fault == SignedThinkingCannotBeRedacted
  }

  /** The first thing in the tree that cannot be cleaned, after `spent` bytes and `read` attachments, and its fault. */
  ghost predicate Fails(env: Env, v: Json, depth: nat, read: nat, spent: nat, fault: Fault)
    requires Sound(env.rules)
    decreases v, 0
  {
    if depth > 40 then fault == RequestTooDeep
    else
      match v
      case Str(s) => TextFails(env.rules, s, spent, fault)
      case Arr(items) => ItemsFail(env, items, depth + 1, read, spent, fault)
      case Obj(fields) =>
        (match BlockKind(env.rules, fields)
         case Attachment => AttachmentFails(env, fields, depth, read + 1, spent, fault)
         case HiddenReasoning => fault == AttachmentsNotSupported
         case Reasoning => ReasoningFails(env.rules, Get(fields, "thinking"), fault)
         case Ordinary => FieldsFail(env, fields, depth, read, spent, fault))
      case _ => false
  }

  /** One of the items fails first: one of the front, or, when those pass, the last. */
  ghost predicate ItemsFail(env: Env, items: seq<Json>, depth: nat, read: nat, spent: nat, fault: Fault)
    requires Sound(env.rules)
    decreases items, 1
  {
    items != [] &&
    var front := items[..|items| - 1];
    || ItemsFail(env, front, depth, read, spent, fault)
    || (ItemsPass(env, front, depth, read, spent)
        && var t := ItemsTally(env, front, read);
           Fails(env, items[|items| - 1], depth, read + t.attachments, spent + t.bytes, fault))
  }

  ghost predicate FieldsFail(env: Env, fields: seq<Field>, depth: nat, read: nat, spent: nat, fault: Fault)
    requires Sound(env.rules)
    decreases fields, 2
  {
    fields != [] &&
    var front := fields[..|fields| - 1];
    || FieldsFail(env, front, depth, read, spent, fault)
    || (FieldsPass(env, front, depth, read, spent)
        && var t := FieldsTally(env, front, read);
           FieldFails(env, fields[|fields| - 1], depth, read + t.attachments, spent + t.bytes, fault))
  }

  ghost predicate FieldFails(env: Env, f: Field, depth: nat, read: nat, spent: nat, fault: Fault)
    requires Sound(env.rules)
    decreases f, 1
  {
    if env.rules.sensitive(f.key) && Literal(f.value) then false
    else if env.rules.protocol(f.key)
    then f.value.Str? && env.rules.secret(f.value.s) && fault == SecretInProtocolIdentifier
    else Fails(env, f.value, depth + 1, read, spent, fault)
  }

  ghost predicate ItemsPass(env: Env, items: seq<Json>, depth: nat, read: nat, spent: nat)
    requires Sound(env.rules)
  {
    ItemsCleanable(env, items, depth, read) && spent + ItemsTally(env, items, read).bytes <= MAX_BYTES
  }

  ghost predicate FieldsPass(env: Env, fields: seq<Field>, depth: nat, read: nat, spent: nat)
    requires Sound(env.rules)
  {
    FieldsCleanable(env, fields, depth, read) && spent + FieldsTally(env, fields, read).bytes <= MAX_BYTES
  }

  lemma TextFailsExactly(rules: Rules, s: string, st: State)
    requires Sound(rules) && VisitText(rules, s, st).Failed?
    ensures TextFails(rules, s, st.textBytes, VisitText(rules, s, st).fault)
  {
    hide Masked, Hits, Masks, RuleSeq, Tokens, Render, Rescan, Quiet, Sound;
    if rules.find(s).Some? {
      TokensAreMasked(rules, s);
      var tokens := Tokens(rules, s);
      RescanFails(rules, Render(s, tokens, Mark),
                  State(st.count + |Masks(tokens)|, st.kinds + (set r <- Masks(tokens)), st.textBytes + TextSize(s),
                        st.read));
    }
  }

  lemma RescanFails(rules: Rules, out: string, st: State)
    ensures Rescan(rules, out, st).Failed? ==>
              if rules.find(out).None? then Rescan(rules, out, st).fault == IncompletePrivateKey
              else rules.find(out).value != [] && Rescan(rules, out, st).fault == RedactionIncomplete
  {
    hide Merged, Sort;
    NothingFound(rules, out);
  }

  /** A refused visit names the fault of the first thing that cannot be cleaned. */
  lemma {:induction false} VisitFailsExactly(env: Env, v: Json, depth: nat, st: State)
    requires Sound(env.rules) && st.textBytes <= MAX_BYTES && Visit(env, v, depth, st).Failed?
    ensures Fails(env, v, depth, st.read, st.textBytes, Visit(env, v, depth, st).fault)
    decreases v, 0
  {
    hide Sound, VisitItems, VisitFields, VisitText, ItemsFail, FieldsFail, TextFails, AttachmentFails, ReasoningFails;
    if depth <= 40 {
      match v
      case Str(s) => TextFailsExactly(env.rules, s, st);
      case Arr(items) => ItemsFailExactly(env, items, depth, st);
      case Obj(fields) => BlockFailsExactly(env, fields, depth, st);
      case _ =>
    }
  }

  lemma {:induction false} ItemsFailExactly(env: Env, items: seq<Json>, depth: nat, st: State)
    requires Sound(env.rules) && st.textBytes <= MAX_BYTES && VisitItems(env, items, depth, st).Failed?
    ensures ItemsFail(env, items, depth + 1, st.read, st.textBytes, VisitItems(env, items, depth, st).fault)
    decreases items, 2
  {
    hide Sound, Visit, Fails, Added, Cleanable, CleanedFrom, TallyOf, ItemsCleanable, ItemsCleanedFrom, ItemsTally;
    var front, last := items[..|items| - 1], items[|items| - 1];
    var before := VisitItems(env, front, depth, st);
    if before.Failed? {
      ItemsFailExactly(env, front, depth, st);
    } else {
      ItemsAreExact(env, front, depth, st);
      AddedTwice(st, ItemsTally(env, front, st.read), NOTHING);
      VisitFailsExactly(env, last, depth + 1, before.state);
    }
  }

  lemma {:induction false} FieldsFailExactly(env: Env, fields: seq<Field>, depth: nat, st: State)
    requires Sound(env.rules) && st.textBytes <= MAX_BYTES && VisitFields(env, fields, depth, st).Failed?
    ensures FieldsFail(env, fields, depth, st.read, st.textBytes, VisitFields(env, fields, depth, st).fault)
    decreases fields, 2
  {
    hide Sound, VisitField, FieldFails, Added, FieldCleanable, FieldCleanedFrom, FieldTally, FieldsCleanable,
      FieldsCleanedFrom, FieldsTally;
    var front, last := fields[..|fields| - 1], fields[|fields| - 1];
    var before := VisitFields(env, front, depth, st);
    if before.Failed? {
      FieldsFailExactly(env, front, depth, st);
    } else {
      FieldsAreExact(env, front, depth, st);
      AddedTwice(st, FieldsTally(env, front, st.read), NOTHING);
      FieldFailsExactly(env, last, depth, before.state);
    }
  }

  lemma {:induction false} FieldFailsExactly(env: Env, f: Field, depth: nat, st: State)
    requires Sound(env.rules) && st.textBytes <= MAX_BYTES && VisitField(env, f, depth, st).Failed?
    ensures FieldFails(env, f, depth, st.read, st.textBytes, VisitField(env, f, depth, st).fault)
    decreases f, 1
  {
    hide Sound, Visit, Fails;
    if !(env.rules.sensitive(f.key) && Literal(f.value)) && !env.rules.protocol(f.key) {
      VisitFailsExactly(env, f.value, depth + 1, st);
    }
  }

  lemma {:induction false} BlockFailsExactly(env: Env, fields: seq<Field>, depth: nat, st: State)
    requires Sound(env.rules) && depth <= 40 && st.textBytes <= MAX_BYTES && VisitBlock(env, fields, depth, st).Failed?
    ensures Fails(env, Obj(fields), depth, st.read, st.textBytes, VisitBlock(env, fields, depth, st).fault)
    decreases fields, 3
  {
    hide Sound, VisitFields, FieldsFail, AttachmentFails, VisitRendition, VisitReasoning, ReasoningFails;
    match BlockKind(env.rules, fields)
    case Attachment => AttachmentFailsExactly(env, fields, depth, st);
    case HiddenReasoning =>
    case Reasoning => ReasoningFailsExactly(env, fields, st);
    case Ordinary => FieldsFailExactly(env, fields, depth, st);
  }

  lemma ReasoningFailsExactly(env: Env, fields: seq<Field>, st: State)
    requires Sound(env.rules) && VisitReasoning(env, fields, st).Failed?
    ensures ReasoningFails(env.rules, Get(fields, "thinking"), VisitReasoning(env, fields, st).fault)
  {
    hide Merged, Sort, Sound;
    if Get(fields, "thinking").Str? { NothingFound(env.rules, Get(fields, "thinking").s); }
  }

  lemma AttachmentFailsExactly(env: Env, fields: seq<Field>, depth: nat, st: State)
    requires Sound(env.rules) && depth <= 40 && BlockKind(env.rules, fields) == Attachment
    requires VisitBlock(env, fields, depth, st).Failed?
    ensures AttachmentFails(env, fields, depth, st.read + 1, st.textBytes, VisitBlock(env, fields, depth, st).fault)
  {
    hide TextFails, Masked, VisitText, Rendition, Sound;
    RenditionIsRead(env, fields, st.read + 1);
    var text, st' := Rendition(env, fields, st.read + 1), st.(read := st.read + 1);
    if text.Some? && VisitText(env.rules, text.value, st').Failed? {
      TextFailsExactly(env.rules, text.value, st');
    }
  }

  // ---------------------------------------------------------------- the whole body

  /** What is counted in the inspected fields of a request, one after the other. */
  ghost function TopsTally(env: Env, fields: seq<Field>, keys: seq<string>, read: nat): Tally
    requires Sound(env.rules)
  {
    if keys == [] then NOTHING
    else
      var before, key := TopsTally(env, fields, keys[..|keys| - 1], read), keys[|keys| - 1];
      if Has(fields, key) then Plus(before, TallyOf(env, Get(fields, key), read + before.attachments)) else before
  }

  ghost predicate TopsCleanable(env: Env, fields: seq<Field>, keys: seq<string>, read: nat)
    requires Sound(env.rules)
  {
    forall k :: 0 <= k < |keys| && Has(fields, keys[k]) ==>
      Cleanable(env, Get(fields, keys[k]), 0, read + TopsTally(env, fields, keys[..k], read).attachments)
  }

  /** The object keeps its keys in order, the inspected fields are cleaned, and every other field is as it was. */
  ghost predicate TopsCleanedFrom(env: Env, before: seq<Field>, after: seq<Field>, keys: seq<string>, read: nat)
    requires Sound(env.rules)
  {
    && |after| == |before|
    && (forall i :: 0 <= i < |before| ==> after[i].key == before[i].key)
    && (forall i :: 0 <= i < |before| && before[i].key !in keys ==> after[i] == before[i])
    && forall k :: 0 <= k < |keys| && Has(before, keys[k]) ==>
         CleanedFrom(env, Get(before, keys[k]), Get(after, keys[k]),
                     read + TopsTally(env, before, keys[..k], read).attachments)
  }

  /** The first inspected field that cannot be cleaned, and its fault. */
  ghost predicate TopsFail(env: Env, fields: seq<Field>, keys: seq<string>, read: nat, spent: nat, fault: Fault)
    requires Sound(env.rules)
  {
    keys != [] &&
    var front, key := keys[..|keys| - 1], keys[|keys| - 1];
    var t := TopsTally(env, fields, front, read);
    || TopsFail(env, fields, front, read, spent, fault)
    || (TopsCleanable(env, fields, front, read) && spent + t.bytes <= MAX_BYTES && Has(fields, key)
        && Fails(env, Get(fields, key), 0, read + t.attachments, spent + t.bytes, fault))
  }

  ghost predicate TopsOk(env: Env, fields: seq<Field>, keys: seq<string>, st: State)
    requires Sound(env.rules)
  {
    var r, t := VisitTops(env, fields, keys, st), TopsTally(env, fields, keys, st.read);
    && (r.Done? <==> TopsCleanable(env, fields, keys, st.read) && st.textBytes + t.bytes <= MAX_BYTES)
    && (r.Done? ==> && TopsCleanedFrom(env, fields, r.value, keys, st.read) && r.state == Added(st, t)
                    && forall key :: (key !in keys ==> Get(r.value, key) == Get(fields, key))
                                     && (Has(r.value, key) <==> Has(fields, key)))
  }

  lemma {:induction false} PutInPlace(fields: seq<Field>, key: string, v: Json)
    ensures |Put(fields, key, v)| == |fields|
    ensures forall i :: 0 <= i < |fields| ==>
              && Put(fields, key, v)[i].key == fields[i].key
              && (fields[i].key != key ==> Put(fields, key, v)[i] == fields[i])
  {
    if fields != [] { PutInPlace(fields[..|fields| - 1], key, v); }
  }

  lemma TopsOnce(env: Env, fields: seq<Field>, keys: seq<string>, st: State)
    requires Sound(env.rules) && keys != []
    ensures var front, key, r := keys[..|keys| - 1], keys[|keys| - 1], VisitTops(env, fields, keys, st);
            var before, t := VisitTops(env, fields, front, st), TopsTally(env, fields, front, st.read);
            && TopsTally(env, fields, keys, st.read)
               == (if Has(fields, key) then Plus(t, TallyOf(env, Get(fields, key), st.read + t.attachments)) else t)
            && (before.Failed? ==> r.Failed?)
            && (before.Done? && !Has(before.value, key) ==> r == before)
            && (before.Done? && Has(before.value, key) ==>
                  var one := Visit(env, Get(before.value, key), 0, before.state);
                  if one.Failed? then r.Failed? else r == Done(Put(before.value, key, one.value), one.state))
  {
    hide Visit, TallyOf, Sound;
  }

  lemma TopsCleanableOnce(env: Env, fields: seq<Field>, keys: seq<string>, read: nat)
    requires Sound(env.rules) && keys != []
    ensures var front, key := keys[..|keys| - 1], keys[|keys| - 1];
            TopsCleanable(env, fields, keys, read) <==>
              && TopsCleanable(env, fields, front, read)
              && (Has(fields, key) ==>
                    Cleanable(env, Get(fields, key), 0, read + TopsTally(env, fields, front, read).attachments))
  {
    hide Cleanable, TopsTally, Sound, Get, Has;
    var front := keys[..|keys| - 1];
    assert forall k :: 0 <= k < |front| ==> front[..k] == keys[..k] && front[k] == keys[k];
  }

  lemma TopsCleanedSnoc(env: Env, fields: seq<Field>, mid: seq<Field>, keys: seq<string>, v: Json, read: nat)
    requires Sound(env.rules) && keys != [] && Distinct(keys) && Has(fields, keys[|keys| - 1])
    requires TopsCleanedFrom(env, fields, mid, keys[..|keys| - 1], read)
    requires forall key :: Has(mid, key) <==> Has(fields, key)
    requires CleanedFrom(env, Get(fields, keys[|keys| - 1]), v,
                         read + TopsTally(env, fields, keys[..|keys| - 1], read).attachments)
    ensures TopsCleanedFrom(env, fields, Put(mid, keys[|keys| - 1], v), keys, read)
  {
    hide CleanedFrom, TopsTally, Sound, Get, Has;
    var front, key := keys[..|keys| - 1], keys[|keys| - 1];
    var after := Put(mid, key, v);
    PutInPlace(mid, key, v);
    forall k | 0 <= k < |keys| && Has(fields, keys[k])
      ensures CleanedFrom(env, Get(fields, keys[k]), Get(after, keys[k]),
                          read + TopsTally(env, fields, keys[..k], read).attachments)
    {
      GetAfterPut(mid, key, v, keys[k]);
      if k < |front| { assert front[..k] == keys[..k] && front[k] == keys[k]; }
    }
    forall i | 0 <= i < |fields| && fields[i].key !in keys ensures after[i] == fields[i] {
      assert fields[i].key !in front;
    }
  }

  lemma TopsUntouched(env: Env, fields: seq<Field>, after: seq<Field>, keys: seq<string>, read: nat)
    requires Sound(env.rules) && keys != [] && !Has(fields, keys[|keys| - 1])
    requires TopsCleanedFrom(env, fields, after, keys[..|keys| - 1], read)
    ensures TopsCleanedFrom(env, fields, after, keys, read)
  {
    hide CleanedFrom, TopsTally, Sound, Get, Has;
    var front := keys[..|keys| - 1];
    assert forall k :: 0 <= k < |front| ==> front[..k] == keys[..k] && front[k] == keys[k];
    assert forall key :: key !in keys ==> key !in front;
  }

  lemma PutKeepsOthers(before: seq<Field>, key: string, v: Json, fields: seq<Field>, keys: seq<string>)
    requires keys != [] && key == keys[|keys| - 1] && Has(before, key)
    requires forall other :: other !in keys[..|keys| - 1] ==> Get(before, other) == Get(fields, other)
    requires forall other :: Has(before, other) <==> Has(fields, other)
    ensures forall other :: other !in keys ==> Get(Put(before, key, v), other) == Get(fields, other)
    ensures forall other :: Has(Put(before, key, v), other) <==> Has(fields, other)
  {
    forall other ensures (other !in keys ==> Get(Put(before, key, v), other) == Get(fields, other))
                         && (Has(Put(before, key, v), other) <==> Has(fields, other))
    {
      GetAfterPut(before, key, v, other);
    }
  }

  lemma TopsCompose(env: Env, fields: seq<Field>, keys: seq<string>, st: State)
    requires Sound(env.rules) && keys != [] && Distinct(keys) && TopsOk(env, fields, keys[..|keys| - 1], st)
    requires var before, key := VisitTops(env, fields, keys[..|keys| - 1], st), keys[|keys| - 1];
             before.Done? && Has(fields, key) ==> VisitOk(env, Get(fields, key), 0, before.state)
    ensures TopsOk(env, fields, keys, st)
  {
    hide VisitTops, TopsTally, TopsCleanable, TopsCleanedFrom, Visit, Cleanable, TallyOf, CleanedFrom, Sound, Added,
      Plus, Get, Has, Put;
    var front, key := keys[..|keys| - 1], keys[|keys| - 1];
    var before, t := VisitTops(env, fields, front, st), TopsTally(env, fields, front, st.read);
    assert key !in front;
    TopsOnce(env, fields, keys, st);
    TopsCleanableOnce(env, fields, keys, st.read);
    AddedTwice(st, t, TallyOf(env, Get(fields, key), st.read + t.attachments));
    if before.Done? {
      if Has(fields, key) {
        var one := Visit(env, Get(fields, key), 0, before.state);
        if one.Done? {
          TopsCleanedSnoc(env, fields, before.value, keys, one.value, st.read);
          PutKeepsOthers(before.value, key, one.value, fields, keys);
        }
      } else {
        TopsUntouched(env, fields, before.value, keys, st.read);
      }
    }
  }

  lemma {:induction false} TopsAreExact(env: Env, fields: seq<Field>, keys: seq<string>, st: State)
    requires Sound(env.rules) && Distinct(keys) && st.textBytes <= MAX_BYTES
    ensures TopsOk(env, fields, keys, st)
  {
    if keys != [] {
      var front, key := keys[..|keys| - 1], keys[|keys| - 1];
      TopsAreExact(env, fields, front, st);
      var before := VisitTops(env, fields, front, st);
      hide Visit, Sound, TopsCleanable, TopsCleanedFrom, TopsTally;
      if before.Done? && Has(fields, key) { VisitIsExact(env, Get(fields, key), 0, before.state); }
      TopsCompose(env, fields, keys, st);
    }
  }

  lemma {:induction false} TopsFailExactly(env: Env, fields: seq<Field>, keys: seq<string>, st: State)
    requires Sound(env.rules) && Distinct(keys) && st.textBytes <= MAX_BYTES
    requires VisitTops(env, fields, keys, st).Failed?
    ensures TopsFail(env, fields, keys, st.read, st.textBytes, VisitTops(env, fields, keys, st).fault)
  {
    hide Visit, Sound, TopsCleanable, TopsCleanedFrom, TopsTally, Fails, Added;
    var front, key := keys[..|keys| - 1], keys[|keys| - 1];
    var before := VisitTops(env, fields, front, st);
    if before.Failed? {
      TopsFailExactly(env, fields, front, st);
    } else {
      TopsAreExact(env, fields, front, st);
      assert key !in front;
      AddedTwice(st, TopsTally(env, fields, front, st.read), NOTHING);
      VisitFailsExactly(env, Get(fields, key), 0, before.state);
    }
  }

  /** `clean`, exactly.  A body that is too large, is no JSON, or has no list of messages is refused as such.  Any
      other is cleaned if and only if its inspected fields can be cleaned within the budget and the result is not too
      large: then they are, everything else is as it was, and what is reported is what there was to count. */
  lemma CleanIsExact(env: Env, keys: seq<string>, size: nat, loaded: Option<Json>)
    requires Sound(env.rules) && keys != [] && Distinct(keys)
    ensures var r := CleanBody(env, keys, size, loaded);
            if size > 16 * 1024 * 1024 then r == Err(RequestTooLarge)
            else if loaded.None? then r == Err(InvalidJson)
            else if !loaded.value.Obj? || !Get(loaded.value.fields, keys[0]).Arr? then r == Err(MessagesRequired)
            else
              var fields := loaded.value.fields;
              var t := TopsTally(env, fields, keys, 0);
              if !TopsCleanable(env, fields, keys, 0) || t.bytes > 1_048_576
              then r.Err? && TopsFail(env, fields, keys, 0, 0, r.error)
              else
                exists after :: TopsCleanedFrom(env, fields, after, keys, 0)
                  && r == if DumpSize(Obj(after)) > 1_048_576 then Err(RequestTooLarge)
                          else Ok(Cleaned(Obj(after), t.count, t.kinds, t.attachments))
  {
    hide TopsCleanable, TopsCleanedFrom, TopsTally, DumpSize;
    if loaded.Some? && loaded.value.Obj? {
      var fields := loaded.value.fields;
      TopsAreExact(env, fields, keys, FRESH);
      if VisitTops(env, fields, keys, FRESH).Failed? { TopsFailExactly(env, fields, keys, FRESH); }
      hide VisitTops, Sound, TopsFail;
      if VisitTops(env, fields, keys, FRESH).Done? {
        assert TopsCleanedFrom(env, fields, VisitTops(env, fields, keys, FRESH).value, keys, 0);
        var t := TopsTally(env, fields, keys, 0);
        assert {} + t.kinds == t.kinds;
        assert VisitTops(env, fields, keys, FRESH).state == State(t.count, t.kinds, t.bytes, t.attachments);
      }
    }
  }
}
