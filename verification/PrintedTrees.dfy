/** The text that `json.dumps(v, ensure_ascii=False)` prints, whose size in bytes `clean` bounds. */
module PrintedTrees {

  import opened Basics
  import opened JsonText
  import opened Cleaning

  /** `json.dumps(v, ensure_ascii=False)` */
  function Printed(v: Json): string
    decreases v, 0
  {
    match v
    case Null => "null"
    case Bool(b) => if b then "true" else "false"
    case Int(n) => IntText(n)
    case Float(repr) => repr
    case Str(s) => "\"" + Escaped(s) + "\""
    case Arr(items) => "[" + PrintedItems(items) + "]"
    case Obj(fields) => "{" + PrintedFields(fields) + "}"
  }

  function PrintedItems(items: seq<Json>): string
    decreases items, 1
  {
    if items == [] then ""
    else PrintedItems(items[..|items| - 1]) + (if |items| > 1 then ", " else "") + Printed(items[|items| - 1])
  }

  function PrintedFields(fields: seq<Field>): string
    decreases fields, 1
  {
    if fields == [] then ""
    else
      var last := fields[|fields| - 1];
      PrintedFields(fields[..|fields| - 1]) + (if |fields| > 1 then ", " else "")
      + ("\"" + Escaped(last.key) + "\": " + Printed(last.value))
  }

  function Escaped(s: string): string { if s == "" then "" else EscapedChar(s[0]) + Escaped(s[1..]) }

  /** The quotation mark, the backslash and the control characters are escaped; every other character stands for
      itself. */
  function EscapedChar(c: char): string {
    if c == '\"' then "\\\""
    else if c == '\\' then "\\\\"
    else if c == '\n' then "\\n"
    else if c == '\r' then "\\r"
    else if c == '\t' then "\\t"
    else if c as int == 8 then "\\b"
    else if c as int == 12 then "\\f"
    else if c as int < 0x20 then "\\u00" + [HexDigit(c as int / 16), HexDigit(c as int % 16)]
    else [c]
  }

  /** Floats are printed in ASCII. */
  predicate PlainFloats(v: Json)
    decreases v
  {
    match v
    case Float(repr) => TextSize(repr) == |repr|
    case Arr(items) => forall k :: 0 <= k < |items| ==> PlainFloats(items[k])
    case Obj(fields) => forall k :: 0 <= k < |fields| ==> PlainFloats(fields[k].value)
    case _ => true
  }

  lemma {:induction false} SizeConcat(a: string, b: string)
    ensures TextSize(a + b) == TextSize(a) + TextSize(b)
  {
    if a == "" {
      assert a + b == b;
    } else {
      assert (a + b)[1..] == a[1..] + b;
      SizeConcat(a[1..], b);
    }
  }

  lemma {:induction false} AsciiSize(s: string)
    requires forall k :: 0 <= k < |s| ==> s[k] as int < 0x80
    ensures TextSize(s) == |s|
  {
    if s != "" { AsciiSize(s[1..]); }
  }

  lemma CharSize(c: char)
    ensures TextSize(EscapedChar(c)) == EscapedSize(c)
  {
    if c as int >= 0x20 && c != '\"' && c != '\\' {
      assert [c][1..] == "";
    } else {
      if c as int < 0x20 {
        HexIsAscii(c as int / 16);
        HexIsAscii(c as int % 16);
      }
      AsciiSize(EscapedChar(c));
    }
  }

  lemma HexIsAscii(d: nat)
    requires d < 16
    ensures HexDigit(d) as int < 0x80
  {
  }

  lemma {:induction false} StringIsSized(s: string)
    ensures TextSize("\"" + Escaped(s) + "\"") == StringSize(s)
  {
    SizeConcat("\"" + Escaped(s), "\"");
    SizeConcat("\"", Escaped(s));
    AsciiSize("\"");
    if s != "" {
      CharSize(s[0]);
      SizeConcat(EscapedChar(s[0]), Escaped(s[1..]));
      StringIsSized(s[1..]);
      SizeConcat("\"" + Escaped(s[1..]), "\"");
      SizeConcat("\"", Escaped(s[1..]));
    }
  }

  /** The size that is compared with the limit is the number of UTF-8 bytes of the printed tree. */
  lemma {:induction false} DumpSizeIsExact(v: Json)
    requires PlainFloats(v)
    ensures TextSize(Printed(v)) == DumpSize(v)
    decreases v, 0
  {
    match v
    case Null => AsciiSize("null");
    case Bool(b) => AsciiSize(if b then "true" else "false");
    case Int(n) => IntIsAscii(n);
    case Float(_) =>
    case Str(s) => StringIsSized(s);
    case Arr(items) =>
      ItemsAreSized(items);
      Enclosed("[", PrintedItems(items), "]");
    case Obj(fields) =>
      FieldsAreSized(fields);
      Enclosed("{", PrintedFields(fields), "}");
  }

  lemma Enclosed(open: string, s: string, close: string)
    requires |open| == |close| == 1 && open[0] as int < 0x80 && close[0] as int < 0x80
    ensures TextSize(open + s + close) == 2 + TextSize(s)
  {
    SizeConcat(open + s, close);
    SizeConcat(open, s);
    AsciiSize(open);
    AsciiSize(close);
  }

  lemma IntIsAscii(n: int)
    ensures TextSize(IntText(n)) == |IntText(n)|
  {
    DigitsOnly(if n < 0 then -n else n);
    AsciiSize(IntText(n));
  }

  lemma DigitsOnly(n: nat)
    ensures forall k :: 0 <= k < |Decimal(n)| ==> Decimal(n)[k] as int < 0x80
  {
    DecimalDigits(n);
  }

  lemma {:induction false} ItemsAreSized(items: seq<Json>)
    requires forall k :: 0 <= k < |items| ==> PlainFloats(items[k])
    ensures TextSize(PrintedItems(items)) == ItemsSize(items)
    decreases items, 1
  {
    if items != [] {
      var front, sep, last := items[..|items| - 1], if |items| > 1 then ", " else "", items[|items| - 1];
      ItemsAreSized(front);
      DumpSizeIsExact(last);
      SizeConcat(PrintedItems(front) + sep, Printed(last));
      SizeConcat(PrintedItems(front), sep);
      AsciiSize(sep);
    }
  }

  lemma {:induction false} FieldsAreSized(fields: seq<Field>)
    requires forall k :: 0 <= k < |fields| ==> PlainFloats(fields[k].value)
    ensures TextSize(PrintedFields(fields)) == FieldsSize(fields)
    decreases fields, 1
  {
    if fields != [] {
      var front, sep, last := fields[..|fields| - 1], if |fields| > 1 then ", " else "", fields[|fields| - 1];
      FieldsAreSized(front);
      DumpSizeIsExact(last.value);
      var entry := "\"" + Escaped(last.key) + "\": " + Printed(last.value);
      SizeConcat(PrintedFields(front) + sep, entry);
      SizeConcat(PrintedFields(front), sep);
      AsciiSize(sep);
      EntrySize(last);
    }
  }

  lemma EntrySize(f: Field)
    ensures TextSize("\"" + Escaped(f.key) + "\": " + Printed(f.value))
            == StringSize(f.key) + 2 + TextSize(Printed(f.value))
  {
    var quoted := "\"" + Escaped(f.key) + "\"";
    StringIsSized(f.key);
    SizeConcat(quoted, ": ");
    AsciiSize(": ");
    assert quoted + ": " == "\"" + Escaped(f.key) + "\": ";
    SizeConcat("\"" + Escaped(f.key) + "\": ", Printed(f.value));
  }
}
