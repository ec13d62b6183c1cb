/** The texts that are hashed, character by character: `json.dumps(value, sort_keys=True, separators=(",", ":"))`, the
    frozen text of an instant, and the fields of each chained record under their sorted keys. */
module Formats {

  import opened Basics
  import opened JsonText
  import opened Timestamps
  import J = Journal
  import C = Checkpoints
  import E = ExtensionEvents

  // ---------------------------------------------------------------- compact JSON

  /** Parts with commas between them. */
  function Commas(parts: seq<string>): string {
    if parts == [] then "" else if |parts| == 1 then parts[0] else parts[0] + "," + Commas(parts[1..])
  }

  function ItemParts(items: seq<Json>): seq<string> {
    if items == [] then [] else [Text(items[0])] + ItemParts(items[1..])
  }

  function FieldParts(fields: seq<Field>): seq<string> {
    if fields == [] then []
    else ["\"" + Escape(fields[0].key) + "\":" + Text(fields[0].value)] + FieldParts(fields[1..])
  }

  lemma {:induction false} ItemsByParts(items: seq<Json>)
    ensures ItemsText(items) == Commas(ItemParts(items)) + "]" && |ItemParts(items)| == |items|
  {
    if items != [] {
      ItemsByParts(items[1..]);
      assert ItemParts(items)[1..] == ItemParts(items[1..]);
    }
  }

  lemma {:induction false} FieldsByParts(fields: seq<Field>)
    ensures FieldsText(fields) == Commas(FieldParts(fields)) + "}" && |FieldParts(fields)| == |fields|
  {
    if fields != [] {
      var rest, part := fields[1..], "\"" + Escape(fields[0].key) + "\":" + Text(fields[0].value);
      FieldsByParts(rest);
      hide Text, Escape, Quote;
      assert FieldParts(fields)[1..] == FieldParts(rest) && FieldParts(fields)[0] == part;
      FieldPart(fields[0].key, Text(fields[0].value), Tail(|fields| > 1, FieldsText(rest), "}"));
    }
  }

  lemma FieldPart(key: string, text: string, tail: string)
    ensures Quote(key) + (":" + (text + tail)) == ("\"" + Escape(key) + "\":" + text) + tail
  {
    hide Escape;
  }

  /** The compact text of a value: lists and objects without spaces, strings between quotation marks. */
  lemma TextIsCompact(v: Json)
    ensures match v
            case Null => Text(v) == "null"
            case Bool(b) => Text(v) == if b then "true" else "false"
            case Int(n) => Text(v) == if n < 0 then "-" + Decimal(-n) else Decimal(n)
            case Float(repr) => Text(v) == repr
            case Str(s) => Text(v) == "\"" + Escape(s) + "\""
            case Arr(items) => Text(v) == "[" + Commas(ItemParts(items)) + "]"
            case Obj(fields) => Text(v) == "{" + Commas(FieldParts(fields)) + "}"
  {
    match v
    case Arr(items) => ItemsByParts(items);
    case Obj(fields) => FieldsByParts(fields);
    case _ =>
  }

  /** Four hexadecimal digits in lower case, and the number that they stand for. */
  predicate IsHex4(h: string, n: int) {
    && |h| == 4 && (forall k :: 0 <= k < 4 ==> '0' <= h[k] <= '9' || 'a' <= h[k] <= 'f')
    && n == 4096 * HexValue(h[0]) + 256 * HexValue(h[1]) + 16 * HexValue(h[2]) + HexValue(h[3])
  }

  lemma Hex4Is(n: nat)
    requires n < 0x1_0000
    ensures IsHex4(Hex4(n), n)
  {
    Hex4Value(n);
    LowerHex(n / 4096);
    LowerHex(n / 256 % 16);
    LowerHex(n / 16 % 16);
    LowerHex(n % 16);
  }

  lemma LowerHex(d: nat)
    requires d < 16
    ensures '0' <= HexDigit(d) <= '9' || 'a' <= HexDigit(d) <= 'f'
  {
  }

  /** One character of a string: seven have a short escape, the rest of printable ASCII stands for itself, and every
      other character is written by its UTF-16 code units, two of them outside the basic plane. */
  lemma EscapeIsExact(c: char)
    ensures var e, n := EscapeChar(c), c as int;
            if c == '\"' then e == "\\\"" else if c == '\\' then e == "\\\\"
            else if n == 8 then e == "\\b" else if n == 9 then e == "\\t" else if n == 10 then e == "\\n"
            else if n == 12 then e == "\\f" else if n == 13 then e == "\\r"
            else if ' ' <= c <= '~' then e == [c]
            else if n < 0x1_0000 then |e| == 6 && e[..2] == "\\u" && IsHex4(e[2..], n)
            else
              && |e| == 12 && e[..2] == "\\u" == e[6..8]
              && IsHex4(e[2..6], 0xD800 + (n - 0x1_0000) / 1024) && IsHex4(e[8..], 0xDC00 + (n - 0x1_0000) % 1024)
  {
    hide UnicodeEscape, SecondUnits, FirstUnit, IsHex4, HexValue;
    if Long(c) {
      hide ShortEscape;
      if c as int < 0x1_0000 { OneUnit(c); } else { TwoUnits(c); }
    }
  }

  lemma OneUnit(c: char)
    requires c as int < 0x1_0000
    ensures var e := UnicodeEscape(FirstUnit(c)) + SecondUnits(c);
            |e| == 6 && e[..2] == "\\u" && IsHex4(e[2..], c as int)
  {
    hide IsHex4, UnicodeEscape;
    UnitText(c as int);
    assert UnicodeEscape(FirstUnit(c)) + SecondUnits(c) == UnicodeEscape(c as int);
  }

  lemma TwoUnits(c: char)
    requires c as int >= 0x1_0000
    ensures var e, n := UnicodeEscape(FirstUnit(c)) + SecondUnits(c), c as int;
            && |e| == 12 && e[..2] == "\\u" == e[6..8]
            && IsHex4(e[2..6], 0xD800 + (n - 0x1_0000) / 1024) && IsHex4(e[8..], 0xDC00 + (n - 0x1_0000) % 1024)
  {
    hide IsHex4, UnicodeEscape;
    var low := 0xDC00 + (c as int - 0x1_0000) % 1024;
    UnitText(FirstUnit(c));
    UnitText(low);
    Twice(UnicodeEscape(FirstUnit(c)), UnicodeEscape(low));
  }

  lemma UnitText(n: nat)
    requires n < 0x1_0000
    ensures var e := UnicodeEscape(n); |e| == 6 && e[..2] == "\\u" && IsHex4(e[2..], n) && e[2..] == e[2..6]
  {
    Hex4Is(n);
    assert UnicodeEscape(n)[2..] == Hex4(n);
  }

  lemma Twice(a: string, b: string)
    requires |a| == |b| == 6
    ensures (a + b)[..2] == a[..2] && (a + b)[2..6] == a[2..] && (a + b)[6..8] == b[..2] && (a + b)[8..] == b[2..]
  {
  }

  // ---------------------------------------------------------------- instants

  lemma {:induction false} PadValue(n: nat, w: nat)
    requires n < Pow10(w)
    ensures |Pad(n, w)| == w && DecimalValue(Pad(n, w)) == n
  {
    if w > 0 {
      PadValue(n / 10, w - 1);
      assert Pad(n, w)[..w - 1] == Pad(n / 10, w - 1);
    }
  }

  /** `YYYY-MM-DDTHH:MM:SS+00:00`, with six digits of microseconds after a point when there are any. */
  lemma CanonicalTsFormat(t: Instant)
    ensures var s := CanonicalTs(t);
            && |s| == (if t.micro == 0 then 25 else 32)
            && s[4] == '-' == s[7] && s[10] == 'T' && s[13] == ':' == s[16] && s[|s| - 6..] == "+00:00"
            && DecimalValue(s[..4]) == t.year && DecimalValue(s[5..7]) == t.month && DecimalValue(s[8..10]) == t.day
            && DecimalValue(s[11..13]) == t.hour && DecimalValue(s[14..16]) == t.minute
            && DecimalValue(s[17..19]) == t.second
            && (t.micro != 0 ==> s[19] == '.' && DecimalValue(s[20..26]) == t.micro)
  {
    CanonicalTsLayout(t);
    Powers();
    PadValue(t.year, 4);
    PadValue(t.month, 2);
    PadValue(t.day, 2);
    PadValue(t.hour, 2);
    PadValue(t.minute, 2);
    PadValue(t.second, 2);
    PadValue(t.micro, 6);
    hide *;
  }

  lemma CanonicalTsLayout(t: Instant)
    ensures var s := CanonicalTs(t);
            && |s| == (if t.micro == 0 then 25 else 32)
            && s[4] == '-' == s[7] && s[10] == 'T' && s[13] == ':' == s[16] && s[|s| - 6..] == "+00:00"
            && s[..4] == Pad(t.year, 4) && s[5..7] == Pad(t.month, 2) && s[8..10] == Pad(t.day, 2)
            && s[11..13] == Pad(t.hour, 2) && s[14..16] == Pad(t.minute, 2) && s[17..19] == Pad(t.second, 2)
            && (t.micro != 0 ==> s[19] == '.' && s[20..26] == Pad(t.micro, 6))
  {
    PadLength(t.year, 4);
    PadLength(t.month, 2);
    PadLength(t.day, 2);
    PadLength(t.hour, 2);
    PadLength(t.minute, 2);
    PadLength(t.second, 2);
    PadLength(t.micro, 6);
    hide Pad;
    var s, f := CanonicalTs(t), Fraction(t.micro);
    Layout(Pad(t.year, 4), Pad(t.month, 2), Pad(t.day, 2), Pad(t.hour, 2), Pad(t.minute, 2), Pad(t.second, 2), f, s);
    FractionLayout(Pad(t.micro, 6), f, t.micro);
    assert s[19..][|f| - 6..] == s[|s| - 6..];
    if t.micro != 0 { assert s[19..][1..7] == s[20..26] && s[19..][0] == s[19]; }
  }

  lemma Layout(y: string, mo: string, d: string, h: string, mi: string, sec: string, f: string, s: string)
    requires |y| == 4 && |mo| == |d| == |h| == |mi| == |sec| == 2
    requires s == y + ("-" + (mo + ("-" + (d + ("T" + (h + (":" + (mi + (":" + (sec + f))))))))))
    ensures |s| == 19 + |f| && s[4] == '-' == s[7] && s[10] == 'T' && s[13] == ':' == s[16]
    ensures s[..4] == y && s[5..7] == mo && s[8..10] == d && s[11..13] == h && s[14..16] == mi && s[17..19] == sec
    ensures s[19..] == f
  {
    var r5 := sec + f;
    var r4 := mi + (":" + r5);
    var r3 := h + (":" + r4);
    var r2 := d + ("T" + r3);
    var r1 := mo + ("-" + r2);
    assert s[0..] == s;
    Piece(s, 0, y, "-", r1);
    Piece(s, 5, mo, "-", r2);
    Piece(s, 8, d, "T", r3);
    Piece(s, 11, h, ":", r4);
    Piece(s, 14, mi, ":", r5);
    LastPiece(s, 17, sec, f);
  }

  lemma Piece(s: string, from: nat, a: string, sep: string, rest: string)
    requires from <= |s| && s[from..] == a + (sep + rest) && |sep| == 1
    ensures from + |a| < |s| && s[from..from + |a|] == a && s[from + |a|] == sep[0]
    ensures s[from + |a| + 1..] == rest
  {
    var t := s[from..];
    assert t[..|a|] == a && t[|a|] == sep[0] && t[|a| + 1..] == rest;
    assert s[from + |a| + 1..] == t[|a| + 1..];
  }

  lemma LastPiece(s: string, from: nat, a: string, rest: string)
    requires from <= |s| && s[from..] == a + rest
    ensures |s| == from + |a| + |rest| && s[from..from + |a|] == a && s[from + |a|..] == rest
  {
    var t := s[from..];
    assert t[..|a|] == a && t[|a|..] == rest;
    assert s[from + |a|..] == t[|a|..];
  }

  lemma FractionLayout(p: string, f: string, micro: nat)
    requires |p| == 6 && f == (if micro == 0 then "" else "." + p) + "+00:00"
    ensures |f| == (if micro == 0 then 6 else 13) && f[|f| - 6..] == "+00:00"
    ensures micro != 0 ==> f[0] == '.' && f[1..7] == p
  {
  }

  // ---------------------------------------------------------------- the chained records

  /** An audit event: its twelve columns under their names, in the order of the names. */
  lemma PayloadFormat(e: J.Entry)
    ensures J.PayloadV1(e) == Text(Obj([
              Field("action_class", J.OptStr(e.actionClass)), Field("args_hash", J.OptStr(e.argsHash)),
              Field("decision", Str(e.decision)), Field("error", J.OptStr(e.error)),
              Field("judge_used", Bool(e.judgeUsed)), Field("latency_ms", J.OptInt(e.latencyMs)),
              Field("policy_rule_id", J.OptStr(e.policyRuleId)), Field("request_id", J.OptStr(e.requestId)),
              Field("tenant_id", Str(e.tenant)), Field("tool_name", J.OptStr(e.toolName)),
              Field("ts", Str(CanonicalTs(e.ts))), Field("user_id", J.OptStr(e.userId))]))
    ensures forall s: string :: J.OptStr(None) == Null && J.OptStr(Some(s)) == Str(s)
    ensures forall n: int :: J.OptInt(None) == Null && J.OptInt(Some(n)) == Int(n)
  {
    hide Text;
    assert Record(J.KEYS, J.Columns(e)).fields == [
        Field("action_class", J.OptStr(e.actionClass)), Field("args_hash", J.OptStr(e.argsHash)),
        Field("decision", Str(e.decision)), Field("error", J.OptStr(e.error)),
        Field("judge_used", Bool(e.judgeUsed)), Field("latency_ms", J.OptInt(e.latencyMs)),
        Field("policy_rule_id", J.OptStr(e.policyRuleId)), Field("request_id", J.OptStr(e.requestId)),
        Field("tenant_id", Str(e.tenant)), Field("tool_name", J.OptStr(e.toolName)),
        Field("ts", Str(CanonicalTs(e.ts))), Field("user_id", J.OptStr(e.userId))];
  }

  /** A witness: its eight signed fields. */
  lemma ClaimFormat(c: C.Claim)
    ensures C.ClaimText(c) == Text(Obj([
              Field("algorithm", Str(c.algorithm)), Field("at", Str(CanonicalTs(c.at))),
              Field("entries", Int(c.entries)), Field("key_id", Str(c.keyId)),
              Field("last_audit_id", J.OptInt(c.lastAuditId)), Field("last_entry_hash", Str(c.lastEntryHash)),
              Field("public_key", Str(c.publicKey)), Field("tenant_id", Str(c.tenant))]))
  {
    hide Text;
    assert Record(C.CLAIM_KEYS, C.ClaimColumnsOf(c)).fields == [
        Field("algorithm", Str(c.algorithm)), Field("at", Str(CanonicalTs(c.at))),
        Field("entries", Int(c.entries)), Field("key_id", Str(c.keyId)),
        Field("last_audit_id", J.OptInt(c.lastAuditId)), Field("last_entry_hash", Str(c.lastEntryHash)),
        Field("public_key", Str(c.publicKey)), Field("tenant_id", Str(c.tenant))];
  }

  /** A workstation event: its identity, and what was received with the time of reception. */
  lemma EventFormat(tenant: string, e: E.Event)
    ensures E.EventText(tenant, e) == Text(Obj([
              Field("device", Str(e.device)), Field("event", Str(e.id)),
              Field("payload", Obj([Field("data", e.payload), Field("received_at", Str(CanonicalTs(e.received)))])),
              Field("source", Str(e.source)), Field("tenant", Str(tenant))]))
  {
    hide Text;
    assert Record(E.SIGNED_KEYS, j => E.SignedColumn(e, j)).fields
        == [Field("data", e.payload), Field("received_at", Str(CanonicalTs(e.received)))];
    assert Record(E.KEYS, E.Columns(tenant, e)).fields == [
        Field("device", Str(e.device)), Field("event", Str(e.id)),
        Field("payload", Obj([Field("data", e.payload), Field("received_at", Str(CanonicalTs(e.received)))])),
        Field("source", Str(e.source)), Field("tenant", Str(tenant))];
  }
}
