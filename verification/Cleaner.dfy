/** `clean` as the source runs it: an object whose counters every visit updates, proved against the specification
    of module `Cleaning`. */
module Cleaner {

  import opened Basics
  import opened JsonText
  import opened Spans
  import opened Cleaning

  /** A failed prefix fails the whole list. */
  lemma {:induction false} ItemsFailEarly(env: Env, items: seq<Json>, k: nat, depth: nat, st: State)
    requires Sound(env.rules) && k <= |items| && VisitItems(env, items[..k], depth, st).Failed?
    ensures VisitItems(env, items, depth, st) == Failed(VisitItems(env, items[..k], depth, st).fault)
    decreases |items|
  {
    if k == |items| {
      assert items[..k] == items;
    } else {
      assert items[..|items| - 1][..k] == items[..k];
      ItemsFailEarly(env, items[..|items| - 1], k, depth, st);
    }
  }

  lemma {:induction false} FieldsFailEarly(env: Env, fields: seq<Field>, k: nat, depth: nat, st: State)
    requires Sound(env.rules) && k <= |fields| && VisitFields(env, fields[..k], depth, st).Failed?
    ensures VisitFields(env, fields, depth, st) == Failed(VisitFields(env, fields[..k], depth, st).fault)
    decreases |fields|
  {
    if k == |fields| {
      assert fields[..k] == fields;
    } else {
      assert fields[..|fields| - 1][..k] == fields[..k];
      FieldsFailEarly(env, fields[..|fields| - 1], k, depth, st);
    }
  }

  lemma {:induction false} TopsFailEarly(env: Env, fields: seq<Field>, keys: seq<string>, k: nat, st: State)
    requires Sound(env.rules) && k <= |keys| && VisitTops(env, fields, keys[..k], st).Failed?
    ensures VisitTops(env, fields, keys, st) == Failed(VisitTops(env, fields, keys[..k], st).fault)
    decreases |keys|
  {
    if k == |keys| {
      assert keys[..k] == keys;
    } else {
      assert keys[..|keys| - 1][..k] == keys[..k];
      TopsFailEarly(env, fields, keys[..|keys| - 1], k, st);
    }
  }

  /** One more step of each loop. */
  lemma ItemsNext(env: Env, items: seq<Json>, k: nat, depth: nat, st: State)
    requires Sound(env.rules) && k < |items| && VisitItems(env, items[..k], depth, st).Done?
    ensures var before := VisitItems(env, items[..k], depth, st);
            VisitItems(env, items[..k + 1], depth, st) ==
              match Visit(env, items[k], depth + 1, before.state)
              case Failed(fault) => Failed(fault)
              case Done(v, st') => Done(before.value + [v], st')
  {
    assert items[..k + 1][..k] == items[..k];
  }

  lemma FieldsNext(env: Env, fields: seq<Field>, k: nat, depth: nat, st: State)
    requires Sound(env.rules) && k < |fields| && VisitFields(env, fields[..k], depth, st).Done?
    ensures var before := VisitFields(env, fields[..k], depth, st);
            VisitFields(env, fields[..k + 1], depth, st) ==
              match VisitField(env, fields[k], depth, before.state)
              case Failed(fault) => Failed(fault)
              case Done(v, st') => Done(before.value + [Field(fields[k].key, v)], st')
  {
    assert fields[..k + 1][..k] == fields[..k];
  }

  lemma TopsNext(env: Env, fields: seq<Field>, keys: seq<string>, k: nat, st: State)
    requires Sound(env.rules) && k < |keys| && VisitTops(env, fields, keys[..k], st).Done?
    ensures var before := VisitTops(env, fields, keys[..k], st);
            VisitTops(env, fields, keys[..k + 1], st) ==
              if !Has(before.value, keys[k]) then before
              else
                match Visit(env, Get(before.value, keys[k]), 0, before.state)
                case Failed(fault) => Failed(fault)
                case Done(v, st') => Done(Put(before.value, keys[k], v), st')
  {
    assert keys[..k + 1][..k] == keys[..k];
  }

  lemma RenditionSteps(env: Env, fields: seq<Field>, depth: nat, st: State, text: Result<string, Refusal>)
    requires Sound(env.rules) && text == ReadAttachment(env, fields, st.read + 1)
    ensures text.Err? ==> VisitRendition(env, fields, depth, st) == Failed(AttachmentRefused(text.error))
    ensures text.Ok? ==> VisitRendition(env, fields, depth, st)
                         == VisitString(env.rules, text.value, depth + 1, st.(read := st.read + 1))
  {
    hide VisitString, ReadAttachment, Quiet;
  }

  /** One run of `clean`: its nonlocal variables and the attachment reader's counter. */
  class Run {
    const env: Env
    var count: nat
    var kinds: set<string>
    var textBytes: nat
    var read: nat

    ghost function Now(): State
      reads this
    {
      State(count, kinds, textBytes, read)
    }

    /** What the run has reached, as an outcome of the specification. */
    ghost function Reached<T>(r: Result<T, Fault>): Outcome<T>
      reads this
    {
      match r
      case Err(fault) => Failed(fault)
      case Ok(v) => Done(v, Now())
    }

    constructor (env: Env)
      ensures this.env == env && Now() == FRESH
    {
      this.env := env;
      count, kinds, textBytes, read := 0, {}, 0, 0;
    }

    /** The inner function `spans`. */
    method Search(s: string) returns (r: Option<seq<Span>>)
      ensures r == Detected(env.rules, s)
    {
      var found := env.rules.find(s);
      if found.None? { return None; }
      var merged := MergeSpans(found.value);
      r := Some(merged);
    }

    method VisitTextOf(s: string) returns (r: Result<string, Fault>)
      requires Sound(env.rules)
      modifies this
      ensures Reached(r) == VisitText(env.rules, s, old(Now()))
    {
      hide Quiet, Detected, Rescan, Render, Masks;
      textBytes := textBytes + TextSize(s);
      if textBytes > MAX_BYTES { return Err(RequestTooLarge); }
      var spans := Search(s);
      if spans.None? { return Err(IncompletePrivateKey); }
      DetectedInRange(env.rules, s);
      var text, masked, rules := ReplaceSpans(s, spans.value, Mark);
      count := count + masked;
      kinds := kinds + rules;
      r := RescanOf(text);
    }

    method RescanOf(text: string) returns (r: Result<string, Fault>)
      ensures Reached(r) == Rescan(env.rules, text, Now())
    {
      var left := Search(text);
      if left.None? { return Err(IncompletePrivateKey); }
      if left.value != [] { return Err(RedactionIncomplete); }
      r := Ok(text);
    }

    method VisitStringAt(s: string, depth: nat) returns (r: Result<string, Fault>)
      requires Sound(env.rules)
      modifies this
      ensures Reached(r) == VisitString(env.rules, s, depth, old(Now()))
    {
      if depth > MAX_DEPTH { return Err(RequestTooDeep); }
      r := VisitTextOf(s);
    }

    method VisitAttachment(fields: seq<Field>, depth: nat) returns (r: Result<string, Fault>)
      requires Sound(env.rules)
      modifies this
      ensures Reached(r) == VisitRendition(env, fields, depth, old(Now()))
    {
      hide VisitRendition, VisitString, ReadAttachment, Quiet;
      var n := read + 1;
      var text := ReadAttachment(env, fields, n);
      RenditionSteps(env, fields, depth, Now(), text);
      read := n;
      if text.Err? { return Err(AttachmentRefused(text.error)); }
      r := VisitStringAt(text.value, depth + 1);
    }

    method VisitEntry(f: Field, depth: nat) returns (r: Result<Json, Fault>)
      requires Sound(env.rules)
      modifies this
      ensures Reached(r) == VisitField(env, f, depth, old(Now()))
      decreases f, 1
    {
      if env.rules.sensitive(f.key) && Scalar(f.value) {
        if f.value != Str(REPLACEMENT) {
          count := count + 1;
          kinds := kinds + {"password_assignment"};
        }
        return Ok(Str(REPLACEMENT));
      }
      if env.rules.protocol(f.key) {
        if f.value.Str? && env.rules.secret(f.value.s) { return Err(SecretInProtocolIdentifier); }
        return Ok(f.value);
      }
      r := VisitValue(f.value, depth + 1);
    }

    method VisitObject(fields: seq<Field>, depth: nat) returns (r: Result<Json, Fault>)
      requires Sound(env.rules)
      modifies this
      ensures Reached(r) == VisitBlock(env, fields, depth, old(Now()))
      decreases fields, 3
    {
      var kind := BlockKind(env.rules, fields);
      if kind == Attachment {
        var text := VisitAttachment(fields, depth);
        if text.Err? { return Err(text.error); }
        return Ok(TextBlock(text.value));
      }
      if kind == HiddenReasoning { return Err(AttachmentsNotSupported); }
      if kind == Reasoning {
        var thinking := Get(fields, "thinking");
        if !thinking.Str? { return Err(SignedThinkingCannotBeRedacted); }
        var spans := Search(thinking.s);
        if spans.None? { return Err(IncompletePrivateKey); }
        if spans.value != [] { return Err(SignedThinkingCannotBeRedacted); }
        return Ok(Obj(fields));
      }
      var visited: seq<Field> := [];
      for k := 0 to |fields|
        invariant VisitFields(env, fields[..k], depth, old(Now())) == Done(visited, Now())
      {
        FieldsNext(env, fields, k, depth, old(Now()));
        var v := VisitEntry(fields[k], depth);
        if v.Err? {
          FieldsFailEarly(env, fields, k + 1, depth, old(Now()));
          return Err(v.error);
        }
        visited := visited + [Field(fields[k].key, v.value)];
      }
      assert fields[..|fields|] == fields;
      r := Ok(Obj(visited));
    }

    method VisitList(items: seq<Json>, depth: nat) returns (r: Result<seq<Json>, Fault>)
      requires Sound(env.rules)
      modifies this
      ensures Reached(r) == VisitItems(env, items, depth, old(Now()))
      decreases items, 2
    {
      var visited: seq<Json> := [];
      for k := 0 to |items|
        invariant VisitItems(env, items[..k], depth, old(Now())) == Done(visited, Now())
      {
        ItemsNext(env, items, k, depth, old(Now()));
        var v := VisitValue(items[k], depth + 1);
        if v.Err? {
          ItemsFailEarly(env, items, k + 1, depth, old(Now()));
          return Err(v.error);
        }
        visited := visited + [v.value];
      }
      assert items[..|items|] == items;
      r := Ok(visited);
    }

    /** `visit` */
    method VisitValue(v: Json, depth: nat) returns (r: Result<Json, Fault>)
      requires Sound(env.rules)
      modifies this
      ensures Reached(r) == Visit(env, v, depth, old(Now()))
      decreases v, 0
    {
      if depth > MAX_DEPTH { return Err(RequestTooDeep); }
      match v
      case Str(s) =>
        var text := VisitTextOf(s);
        r := if text.Err? then Err(text.error) else Ok(Str(text.value));
      case Arr(items) =>
        var visited := VisitList(items, depth);
        r := if visited.Err? then Err(visited.error) else Ok(Arr(visited.value));
      case Obj(fields) =>
        r := VisitObject(fields, depth);
      case _ =>
        r := Ok(v);
    }
  }

  /** `clean` */
  method Clean(env: Env, keys: seq<string>, size: nat, loaded: Option<Json>) returns (r: Result<Cleaned, Fault>)
    requires Sound(env.rules) && keys != []
    ensures r == CleanBody(env, keys, size, loaded)
  {
    if size > MAX_REQUEST_BYTES { return Err(RequestTooLarge); }
    if loaded.None? { return Err(InvalidJson); }
    if !loaded.value.Obj? || !Get(loaded.value.fields, keys[0]).Arr? { return Err(MessagesRequired); }
    var data := loaded.value.fields;
    var run := new Run(env);
    for k := 0 to |keys|
      invariant run.env == env
      invariant VisitTops(env, loaded.value.fields, keys[..k], FRESH) == Done(data, run.Now())
    {
      TopsNext(env, loaded.value.fields, keys, k, FRESH);
      if Has(data, keys[k]) {
        var v := run.VisitValue(Get(data, keys[k]), 0);
        if v.Err? {
          TopsFailEarly(env, loaded.value.fields, keys, k + 1, FRESH);
          return Err(v.error);
        }
        data := Put(data, keys[k], v.value);
      }
    }
    assert keys[..|keys|] == keys;
    if DumpSize(Obj(data)) > MAX_BYTES { return Err(RequestTooLarge); }
    r := Ok(Cleaned(Obj(data), run.count, run.kinds, run.read));
  }
}
