/** `json.dumps(value, sort_keys=True, separators=(",", ":"))`, the canonical text that every chain of
    the product hashes, and the proof that it is injective over whole JSON trees.

    An object is written as its fields in the order in which they are printed, which is the sorted order
    of the keys: two dictionaries are equal exactly when these sequences are.  `char` ranges over Unicode
    scalar values, so every `string` here is free of surrogates. */
module JsonText {

  import opened Basics

  datatype Json =
    | Null
    | Bool(b: bool)
    | Int(n: int)
    | Float(repr: string)
    | Str(s: string)
    | Arr(items: seq<Json>)
    | Obj(fields: seq<Field>)

  datatype Field = Field(key: string, value: Json)

  /** No float inside: the values whose text is proved injective below. */
  predicate Exact(v: Json) {
    match v
    case Float(_) => false
    case Arr(items) => forall x <- items :: Exact(x)
    case Obj(fields) => forall f <- fields :: Exact(f.value)
    case _ => true
  }

  // ---------------------------------------------------------------- characters (section 7 of RFC 8259)

  function HexDigit(d: nat): char
    requires d < 16
  {
    "0123456789abcdef"[d]
  }

  /** Four lower-case hexadecimal digits. */
  function Hex4(n: nat): string
    requires n < 0x1_0000
  {
    [HexDigit(n / 4096), HexDigit(n / 256 % 16), HexDigit(n / 16 % 16), HexDigit(n % 16)]
  }

  function UnicodeEscape(n: nat): string
    requires n < 0x1_0000
  {
    "\\u" + Hex4(n)
  }

  /** Printed with the `\u` form: neither printable ASCII nor one of the five short escapes. */
  predicate Long(c: char) {
    !(' ' <= c <= '~') && c as int !in {8, 9, 10, 12, 13}
  }

  function ShortEscape(c: char): string
    requires !Long(c)
  {
    if c == '\"' then "\\\""
    else if c == '\\' then "\\\\"
    else if c as int == 10 then "\\n"
    else if c as int == 13 then "\\r"
    else if c as int == 9 then "\\t"
    else if c as int == 12 then "\\f"
    else if c as int == 8 then "\\b"
    else [c]
  }

  /** The first UTF-16 code unit of a character, and the second one if there is one. */
  function FirstUnit(c: char): (n: nat)
    ensures n < 0x1_0000 && (0xD800 <= n < 0xDC00 <==> c as int >= 0x1_0000)
  {
    if c as int < 0x1_0000 then c as int else 0xD800 + (c as int - 0x1_0000) / 1024
  }

  function SecondUnits(c: char): string {
    if c as int < 0x1_0000 then "" else UnicodeEscape(0xDC00 + (c as int - 0x1_0000) % 1024)
  }

  /** The text of one character inside a string: printable ASCII stands for itself, everything else is
      escaped, and a scalar outside the basic plane becomes a surrogate pair. */
  function EscapeChar(c: char): string {
    if Long(c) then UnicodeEscape(FirstUnit(c)) + SecondUnits(c) else ShortEscape(c)
  }

  function Escape(s: string): string {
    if s == [] then [] else EscapeChar(s[0]) + Escape(s[1..])
  }

  function Quote(s: string): string { "\"" + (Escape(s) + "\"") }

  // ---------------------------------------------------------------- integers

  function Digit(d: nat): char
    requires d < 10
  {
    "0123456789"[d]
  }

  function Decimal(n: nat): string {
    if n < 10 then [Digit(n)] else Decimal(n / 10) + [Digit(n % 10)]
  }

  function IntText(n: int): string { if n < 0 then "-" + Decimal(-n) else Decimal(n) }

  // ---------------------------------------------------------------- values

  function Text(v: Json): string
    decreases v, 0
  {
    match v
    case Null => "null"
    case Bool(b) => if b then "true" else "false"
    case Int(n) => IntText(n)
    case Float(repr) => repr
    case Str(s) => Quote(s)
    case Arr(items) => "[" + ItemsText(items)
    case Obj(fields) => "{" + FieldsText(fields)
  }

  /** What follows an element: a comma and the rest, or the closing character. */
  function Tail(more: bool, rest: string, close: string): string { if more then "," + rest else close }

  /** The items, their separators and the closing bracket. */
  function ItemsText(items: seq<Json>): string
    decreases items, 1
  {
    if items == [] then "]"
    else Text(items[0]) + Tail(|items| > 1, ItemsText(items[1..]), "]")
  }

  /** The fields, their separators and the closing brace. */
  function FieldsText(fields: seq<Field>): string
    decreases fields, 1
  {
    if fields == [] then "}"
    else
      Quote(fields[0].key) + (":" + (Text(fields[0].value) + Tail(|fields| > 1, FieldsText(fields[1..]), "}")))
  }

  // ---------------------------------------------------------------- injectivity

  /** Two equal texts cut at the same place. */
  lemma Cancel(a: string, b: string, u: string, v: string)
    requires a + u == b + v && |a| == |b|
    ensures a == b && u == v
  {
    assert a == (a + u)[..|a|] == (b + v)[..|b|] == b;
    assert u == (a + u)[|a|..] == (b + v)[|b|..] == v;
  }

  lemma SameFirst(a: string, b: string, u: string, v: string)
    requires a + u == b + v && a != "" && b != ""
    ensures a[0] == b[0]
  {
    assert a[0] == (a + u)[0] == (b + v)[0] == b[0];
  }

  lemma SameSecond(a: string, b: string, u: string, v: string)
    requires a + u == b + v && |a| > 1 && |b| > 1
    ensures a[1] == b[1]
  {
    assert a[1] == (a + u)[1] == (b + v)[1] == b[1];
  }

  lemma SameSeq<T>(a: seq<T>, b: seq<T>)
    requires a != [] && b != [] && a[0] == b[0] && a[1..] == b[1..]
    ensures a == b
  {
    assert a == [a[0]] + a[1..] && b == [b[0]] + b[1..];
  }

  /** The same for a text made of a head, a body and what follows. */
  lemma CancelHead(a: string, b: string, p: string, q: string, u: string, v: string)
    requires (a + p) + u == (b + q) + v && |a| == |b|
    ensures a == b && p + u == q + v
  {
    Assoc(a, p, u);
    Assoc(b, q, v);
    Cancel(a, b, p + u, q + v);
  }

  function HexValue(c: char): int { if c <= '9' then c as int - '0' as int else c as int - 'a' as int + 10 }

  lemma Hex4Injective(m: nat, n: nat)
    requires m < 0x1_0000 && n < 0x1_0000 && Hex4(m) == Hex4(n)
    ensures m == n
  {
    Hex4Value(m);
    Hex4Value(n);
  }

  lemma Hex4Value(n: nat)
    requires n < 0x1_0000
    ensures var h := Hex4(n);
            n == 4096 * HexValue(h[0]) + 256 * HexValue(h[1]) + 16 * HexValue(h[2]) + HexValue(h[3])
  {
    hide HexValue, HexDigit;
    HexRoundTrip(n / 4096);
    HexRoundTrip(n / 256 % 16);
    HexRoundTrip(n / 16 % 16);
    HexRoundTrip(n % 16);
    assert n / 16 == 16 * (n / 256) + n / 16 % 16;
    assert n / 256 == 16 * (n / 4096) + n / 256 % 16;
  }

  lemma HexRoundTrip(d: nat)
    requires d < 16
    ensures HexValue(HexDigit(d)) == d
  {
  }

  lemma UnicodeEscapeSplit(m: nat, n: nat, u: string, v: string)
    requires m < 0x1_0000 && n < 0x1_0000
    requires UnicodeEscape(m) + u == UnicodeEscape(n) + v
    ensures m == n && u == v
  {
    Cancel(UnicodeEscape(m), UnicodeEscape(n), u, v);
    assert UnicodeEscape(m)[2..] == Hex4(m) && UnicodeEscape(n)[2..] == Hex4(n);
    Hex4Injective(m, n);
  }

  lemma ShortEscapeShape(c: char)
    requires !Long(c)
    ensures var e := ShortEscape(c);
            1 <= |e| <= 2 && e[0] != '\"' && (|e| == 2 <==> e[0] == '\\') && (|e| == 2 ==> e[1] != 'u')
  {
  }

  /** The first two characters tell which form follows, so that the escapes form a prefix code. */
  lemma EscapeCharShape(c: char)
    ensures var e := EscapeChar(c);
            |e| > 0 && e[0] != '\"' && (Long(c) <==> |e| > 1 && e[0] == '\\' && e[1] == 'u')
  {
    if !Long(c) { ShortEscapeShape(c); }
  }

  lemma ShortEscapeSplit(c: char, d: char, u: string, v: string)
    requires !Long(c) && !Long(d) && ShortEscape(c) + u == ShortEscape(d) + v
    ensures c == d && u == v
  {
    ShortEscapeShape(c);
    ShortEscapeShape(d);
    SameFirst(ShortEscape(c), ShortEscape(d), u, v);
    Cancel(ShortEscape(c), ShortEscape(d), u, v);
  }

  lemma LongEscapeSplit(c: char, d: char, u: string, v: string)
    requires Long(c) && Long(d) && EscapeChar(c) + u == EscapeChar(d) + v
    ensures c == d && u == v
  {
    var a, b := UnicodeEscape(FirstUnit(c)), UnicodeEscape(FirstUnit(d));
    assert |a| == |b| == 6;
    CancelHead(a, b, SecondUnits(c), SecondUnits(d), u, v);
    FirstUnitEscape(c, d);
    if c as int < 0x1_0000 {
      Cancel("", "", u, v);
    } else {
      UnicodeEscapeSplit(0xDC00 + (c as int - 0x1_0000) % 1024, 0xDC00 + (d as int - 0x1_0000) % 1024, u, v);
      SurrogatesInjective(c as int - 0x1_0000, d as int - 0x1_0000);
    }
  }

  lemma SurrogatesInjective(x: nat, y: nat)
    requires x / 1024 == y / 1024 && x % 1024 == y % 1024
    ensures x == y
  {
    assert x == 1024 * (x / 1024) + x % 1024 && y == 1024 * (y / 1024) + y % 1024;
  }

  lemma FirstUnitEscape(c: char, d: char)
    requires UnicodeEscape(FirstUnit(c)) == UnicodeEscape(FirstUnit(d))
    ensures FirstUnit(c) == FirstUnit(d)
  {
    UnicodeEscapeSplit(FirstUnit(c), FirstUnit(d), "", "");
  }

  lemma EscapeCharSplit(c: char, d: char, u: string, v: string)
    requires EscapeChar(c) + u == EscapeChar(d) + v
    ensures c == d && u == v
  {
    var e, f := EscapeChar(c), EscapeChar(d);
    EscapeCharShape(c);
    EscapeCharShape(d);
    SameFirst(e, f, u, v);
    if !Long(c) { ShortEscapeShape(c); }
    if !Long(d) { ShortEscapeShape(d); }
    if |e| > 1 && |f| > 1 { SameSecond(e, f, u, v); }
    if Long(c) { LongEscapeSplit(c, d, u, v); } else { ShortEscapeSplit(c, d, u, v); }
  }

  lemma {:induction false} EscapeSplit(s: string, t: string, u: string, v: string)
    requires Escape(s) + ("\"" + u) == Escape(t) + ("\"" + v)
    ensures s == t && u == v
  {
    EscapeFirst(s, u);
    EscapeFirst(t, v);
    if s == [] {
      assert Escape(s) + ("\"" + u) == "\"" + u && Escape(t) + ("\"" + v) == "\"" + v;
      Cancel("\"", "\"", u, v);
    } else {
      var a, b := Escape(s[1..]) + ("\"" + u), Escape(t[1..]) + ("\"" + v);
      Assoc(EscapeChar(s[0]), Escape(s[1..]), "\"" + u);
      Assoc(EscapeChar(t[0]), Escape(t[1..]), "\"" + v);
      EscapeCharSplit(s[0], t[0], a, b);
      EscapeSplit(s[1..], t[1..], u, v);
    }
  }

  /** The closing quote is the first bare quote. */
  lemma EscapeFirst(s: string, u: string)
    ensures (Escape(s) + ("\"" + u))[0] == '\"' <==> s == []
  {
    if s != [] { EscapeCharShape(s[0]); }
  }

  /** A quoted string ends where it says it ends. */
  lemma QuoteSplit(s: string, t: string, u: string, v: string)
    requires Quote(s) + u == Quote(t) + v
    ensures s == t && u == v
  {
    CancelHead("\"", "\"", Escape(s) + "\"", Escape(t) + "\"", u, v);
    Assoc(Escape(s), "\"", u);
    Assoc(Escape(t), "\"", v);
    EscapeSplit(s, t, u, v);
  }

  lemma {:induction false} DecimalDigits(n: nat)
    ensures |Decimal(n)| > 0 && forall i :: 0 <= i < |Decimal(n)| ==> IsDigit(Decimal(n)[i])
  {
    if n >= 10 { DecimalDigits(n / 10); }
  }

  /** The number that a text of decimal digits denotes. */
  function DecimalValue(s: string): int {
    if s == [] then 0 else 10 * DecimalValue(s[..|s| - 1]) + (s[|s| - 1] as int - '0' as int)
  }

  lemma {:induction false} DecimalRoundTrip(n: nat)
    ensures DecimalValue(Decimal(n)) == n
  {
    var s := Decimal(n);
    if n < 10 {
      assert s[..|s| - 1] == [];
    } else {
      assert s[..|s| - 1] == Decimal(n / 10);
      DecimalRoundTrip(n / 10);
    }
  }

  /** What may follow a value inside a document: nothing, or a separator. */
  predicate Delimited(u: string) { u == "" || u[0] in ",]}" }

  lemma DigitsSplit(x: string, y: string, u: string, v: string)
    requires x + u == y + v && Delimited(u)
    requires forall i :: 0 <= i < |y| ==> IsDigit(y[i])
    ensures |x| >= |y|
  {
    var l := x + u;
    assert forall i :: 0 <= i < |y| ==> l[i] == y[i];
    assert u != "" ==> l[|x|] == u[0];
  }

  lemma DecimalSplit(m: nat, n: nat, u: string, v: string)
    requires Decimal(m) + u == Decimal(n) + v && Delimited(u) && Delimited(v)
    ensures m == n && u == v
  {
    DecimalDigits(m);
    DecimalDigits(n);
    DigitsSplit(Decimal(m), Decimal(n), u, v);
    DigitsSplit(Decimal(n), Decimal(m), v, u);
    Cancel(Decimal(m), Decimal(n), u, v);
    DecimalRoundTrip(m);
    DecimalRoundTrip(n);
  }

  lemma IntFirst(n: int)
    ensures |IntText(n)| > 0 && (n < 0 ==> IntText(n)[0] == '-') && (n >= 0 ==> IsDigit(IntText(n)[0]))
  {
    DecimalDigits(if n < 0 then -n else n);
  }

  lemma IntSplit(m: int, n: int, u: string, v: string)
    requires IntText(m) + u == IntText(n) + v && Delimited(u) && Delimited(v)
    ensures m == n && u == v
  {
    hide Decimal, Delimited;
    IntFirst(m);
    IntFirst(n);
    SameFirst(IntText(m), IntText(n), u, v);
    if m < 0 {
      CancelHead("-", "-", Decimal(-m), Decimal(-n), u, v);
      DecimalSplit(-m, -n, u, v);
    } else {
      DecimalSplit(m, n, u, v);
    }
  }

  /** Which alternative of `Json` a text starts: the first character decides. */
  function Kind(c: char): nat {
    if c == 'n' then 0 else if c == 't' then 1 else if c == 'f' then 2 else if c == '-' || IsDigit(c) then 3
    else if c == '\"' then 4 else if c == '[' then 5 else if c == '{' then 6 else 7
  }

  function KindOf(v: Json): nat {
    match v
    case Null => 0
    case Bool(b) => if b then 1 else 2
    case Int(_) => 3
    case Float(_) => 7
    case Str(_) => 4
    case Arr(_) => 5
    case Obj(_) => 6
  }

  lemma TextKind(v: Json, x: string)
    requires Exact(v)
    ensures |Text(v)| > 0 && Kind((Text(v) + x)[0]) == KindOf(v) < 7
  {
    if v.Int? { IntFirst(v.n); }
  }

  /** The central lemma: a value followed by a separator can be read back in one way only. */
  lemma {:induction false} TextSplit(v: Json, w: Json, x: string, y: string)
    requires Exact(v) && Exact(w) && Delimited(x) && Delimited(y)
    requires Text(v) + x == Text(w) + y
    ensures v == w && x == y
    decreases v, 0
  {
    TextKind(v, x);
    TextKind(w, y);
    match v {
      case Null => Cancel(Text(v), Text(w), x, y);
      case Bool(b) => Cancel(Text(v), Text(w), x, y);
      case Int(n) => IntSplit(n, w.n, x, y);
      case Str(s) => QuoteSplit(s, w.s, x, y);
      case Arr(items) =>
        CancelHead("[", "[", ItemsText(items), ItemsText(w.items), x, y);
        ItemsSplit(items, w.items, x, y);
      case Obj(fields) =>
        CancelHead("{", "{", FieldsText(fields), FieldsText(w.fields), x, y);
        FieldsSplit(fields, w.fields, x, y);
    }
  }

  lemma TailSplit(more: bool, more': bool, t: string, t': string, close: string, x: string, y: string)
    requires close == "]" || close == "}"
    requires Tail(more, t, close) + x == Tail(more', t', close) + y
    ensures more == more' && (more ==> t + x == t' + y) && (!more ==> x == y)
  {
    assert (Tail(more, t, close) + x)[0] == if more then ',' else close[0];
    assert (Tail(more', t', close) + y)[0] == if more' then ',' else close[0];
    if more {
      CancelHead(",", ",", t, t', x, y);
    } else {
      Cancel(close, close, x, y);
    }
  }

  lemma {:induction false} ItemsSplit(a: seq<Json>, b: seq<Json>, x: string, y: string)
    requires (forall v <- a :: Exact(v)) && (forall v <- b :: Exact(v))
    requires ItemsText(a) + x == ItemsText(b) + y
    ensures a == b && x == y
    decreases a, 1
  {
    ItemsFirst(a, x);
    ItemsFirst(b, y);
    if a == [] {
      Cancel("]", "]", x, y);
    } else {
      var ta, tb := Tail(|a| > 1, ItemsText(a[1..]), "]"), Tail(|b| > 1, ItemsText(b[1..]), "]");
      Assoc(Text(a[0]), ta, x);
      Assoc(Text(b[0]), tb, y);
      TextSplit(a[0], b[0], ta + x, tb + y);
      TailSplit(|a| > 1, |b| > 1, ItemsText(a[1..]), ItemsText(b[1..]), "]", x, y);
      if |a| > 1 { ItemsSplit(a[1..], b[1..], x, y); }
      SameSeq(a, b);
    }
  }

  lemma ItemsFirst(a: seq<Json>, x: string)
    requires forall v <- a :: Exact(v)
    ensures (ItemsText(a) + x)[0] == ']' <==> a == []
  {
    if a != [] { TextKind(a[0], ""); assert (ItemsText(a) + x)[0] == (Text(a[0]) + "")[0]; }
  }

  lemma {:induction false} FieldsSplit(a: seq<Field>, b: seq<Field>, x: string, y: string)
    requires (forall f <- a :: Exact(f.value)) && (forall f <- b :: Exact(f.value))
    requires FieldsText(a) + x == FieldsText(b) + y
    ensures a == b && x == y
    decreases a, 1
  {
    assert (FieldsText(a) + x)[0] == (if a == [] then '}' else '\"');
    assert (FieldsText(b) + y)[0] == (if b == [] then '}' else '\"');
    if a == [] {
      Cancel("}", "}", x, y);
    } else {
      var ta, tb := Tail(|a| > 1, FieldsText(a[1..]), "}"), Tail(|b| > 1, FieldsText(b[1..]), "}");
      FieldSplit(a, b, x, y, ta, tb);
      TextSplit(a[0].value, b[0].value, ta + x, tb + y);
      TailSplit(|a| > 1, |b| > 1, FieldsText(a[1..]), FieldsText(b[1..]), "}", x, y);
      if |a| > 1 { FieldsSplit(a[1..], b[1..], x, y); }
      SameSeq(a, b);
    }
  }

  /** The first key is read, then its colon. */
  lemma FieldSplit(a: seq<Field>, b: seq<Field>, x: string, y: string, ta: string, tb: string)
    requires a != [] && b != [] && FieldsText(a) + x == FieldsText(b) + y
    requires ta == Tail(|a| > 1, FieldsText(a[1..]), "}") && tb == Tail(|b| > 1, FieldsText(b[1..]), "}")
    ensures a[0].key == b[0].key && Text(a[0].value) + (ta + x) == Text(b[0].value) + (tb + y)
  {
    var va, vb := Text(a[0].value) + ta, Text(b[0].value) + tb;
    Assoc(Quote(a[0].key), ":" + va, x);
    Assoc(Quote(b[0].key), ":" + vb, y);
    QuoteSplit(a[0].key, b[0].key, (":" + va) + x, (":" + vb) + y);
    CancelHead(":", ":", va, vb, x, y);
    Assoc(Text(a[0].value), ta, x);
    Assoc(Text(b[0].value), tb, y);
  }

  /** An object with fixed keys: a dictionary display, its keys in sorted order. */
  function Record(keys: seq<string>, column: int -> Json): Json {
    Obj(seq(|keys|, i requires 0 <= i < |keys| => Field(keys[i], column(i))))
  }

  /** Two such objects with the same canonical text agree column by column. */
  lemma RecordInjective(keys: seq<string>, c: int -> Json, d: int -> Json)
    requires forall i :: 0 <= i < |keys| ==> Exact(c(i)) && Exact(d(i))
    requires Text(Record(keys, c)) == Text(Record(keys, d))
    ensures forall i :: 0 <= i < |keys| ==> c(i) == d(i)
  {
    var x, y := Record(keys, c), Record(keys, d);
    TextInjective(x, y);
    forall i | 0 <= i < |keys| ensures c(i) == d(i) {
      assert x.fields[i].value == y.fields[i].value;
    }
  }

  /** Two trees with the same canonical text are the same tree. */
  lemma TextInjective(v: Json, w: Json)
    requires Exact(v) && Exact(w) && Text(v) == Text(w)
    ensures v == w
  {
    assert Text(v) + "" == Text(v) && Text(w) + "" == Text(w);
    TextSplit(v, w, "", "");
  }
}
