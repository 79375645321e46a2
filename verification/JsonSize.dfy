/** Size accounting of query results against the JSON text they encode to. */
module JsonSize {
  import opened Prelude
  import opened Json
  import opened Utf8

  const MAX_RESPONSE_BYTES: nat := 1024 * 1024

  // ----- the compact JSON text, with the escapes of section 7 of RFC 8259

  function HexDigit(n: nat): char
    requires n < 16
  {
    "0123456789abcdef"[n]
  }

  function EscapeChar(c: char): string
  {
    if c == '"' then "\\\""
    else if c == '\\' then "\\\\"
    else if c as int == 0x08 then "\\b"
    else if c as int == 0x0C then "\\f"
    else if c == '\n' then "\\n"
    else if c == '\r' then "\\r"
    else if c == '\t' then "\\t"
    else if c as int < 0x20 then "\\u00" + [HexDigit(c as int / 16), HexDigit(c as int % 16)]
    else [c]
  }

  function EscapeText(s: string): string
  {
    if s == "" then "" else EscapeChar(s[0]) + EscapeText(s[1..])
  }

  function PrintString(s: string): string { "\"" + EscapeText(s) + "\"" }

  function Print(v: Value): string
    decreases v, 1
  {
    match v
    case Null => "null"
    case Bool(b) => if b then "true" else "false"
    case Number(text) => text
    case Str(s) => PrintString(s)
    case Array(items) => "[" + PrintItems(items) + "]"
    case Object(fields) => "{" + PrintFields(fields) + "}"
  }

  function PrintItems(items: seq<Value>): string
    decreases items, 0
  {
    if items == [] then ""
    else Print(items[0]) + (if |items| == 1 then "" else ",") + PrintItems(items[1..])
  }

  function PrintFields(fields: seq<Field>): string
    decreases fields, 0
  {
    if fields == [] then ""
    else PrintString(fields[0].key) + ":" + Print(fields[0].value) + (if |fields| == 1 then "" else ",") + PrintFields(fields[1..])
  }

  /** Bytes of a text on the wire. */
  function Size(s: string): nat { |Encode(s)| }

  lemma {:induction false} EncodeConcat(a: string, b: string)
    ensures Encode(a + b) == Encode(a) + Encode(b)
  {
    if a == "" {
      assert a + b == b;
    } else {
      assert (a + b)[1..] == a[1..] + b;
      EncodeConcat(a[1..], b);
    }
  }

  lemma SizeConcat(a: string, b: string)
    ensures Size(a + b) == Size(a) + Size(b)
  {
    EncodeConcat(a, b);
  }

  lemma {:induction false} AsciiSize(s: string)
    requires forall i | 0 <= i < |s| :: s[i] as int < 0x80
    ensures Size(s) == |s|
  {
    if s != "" {
      AsciiSize(s[1..]);
    }
  }

  // ----- the accounting

  function SaturatingAdd(a: nat, b: nat): nat { Min(a + b, USIZE_MAX) }

  function CharBytes(c: char): nat
  {
    if c == '"' || c == '\\' then 2
    else if c as int == 0x08 || c as int == 0x0C || c == '\n' || c == '\r' || c == '\t' then 2
    else if c as int <= 0x1F then 6
    else Utf8Length(c)
  }

  function Utf8Length(c: char): nat
  {
    if c as int < 0x80 then 1 else if c as int < 0x800 then 2 else if c as int < 0x10000 then 3 else 4
  }

  function StringBytesFrom(sum: nat, s: string): nat
    decreases |s|
  {
    if s == "" then sum else StringBytesFrom(SaturatingAdd(sum, CharBytes(s[0])), s[1..])
  }

  function StringBytes(s: string): nat { StringBytesFrom(2, s) }

  function ValueBytes(v: Value): nat
    decreases v, 1
  {
    match v
    case Null => 4
    case Bool(b) => if b then 4 else 5
    case Number(text) => Size(text)
    case Str(s) => StringBytes(s)
    case Array(items) => ItemsBytesFrom(2, items)
    case Object(fields) => FieldsBytesFrom(2, fields)
  }

  function ItemsBytesFrom(sum: nat, items: seq<Value>): nat
    decreases items, 0
  {
    if items == [] then sum
    else ItemsBytesFrom(SaturatingAdd(SaturatingAdd(sum, ValueBytes(items[0])), 1), items[1..])
  }

  function FieldsBytesFrom(sum: nat, fields: seq<Field>): nat
    decreases fields, 0
  {
    if fields == [] then sum
    else
      FieldsBytesFrom(SaturatingAdd(SaturatingAdd(SaturatingAdd(sum, StringBytes(fields[0].key)), ValueBytes(fields[0].value)), 2),
                      fields[1..])
  }

  // ----- the slack: one trailing comma counted per non-empty array or object

  function Slack(v: Value): nat
    decreases v, 1
  {
    match v
    case Array(items) => (if items == [] then 0 else 1) + ItemsSlack(items)
    case Object(fields) => (if fields == [] then 0 else 1) + FieldsSlack(fields)
    case _ => 0
  }

  function ItemsSlack(items: seq<Value>): nat
    decreases items, 0
  {
    if items == [] then 0 else Slack(items[0]) + ItemsSlack(items[1..])
  }

  function FieldsSlack(fields: seq<Field>): nat
    decreases fields, 0
  {
    if fields == [] then 0 else Slack(fields[0].value) + FieldsSlack(fields[1..])
  }

  function Capped(n: nat): nat { Min(n, USIZE_MAX) }

  /** Number texts have a length that fits `usize`, as every string in memory does. */
  ghost predicate AllPlausible(v: Value)
    decreases v, 1
  {
    match v
    case Number(text) => Size(text) <= USIZE_MAX
    case Array(items) => forall i | 0 <= i < |items| :: AllPlausible(items[i])
    case Object(fields) => forall i | 0 <= i < |fields| :: AllPlausible(fields[i].value)
    case _ => true
  }

  lemma CharBytesExact(c: char)
    ensures CharBytes(c) == Size(EscapeChar(c))
  {
    if EscapeChar(c) == [c] {
      assert [c][1..] == "";
      assert Encode([c]) == EncodeChar(c) + Encode([c][1..]);
    } else {
      EscapesAreAscii(c);
      AsciiSize(EscapeChar(c));
    }
  }

  lemma EscapesAreAscii(c: char)
    requires EscapeChar(c) != [c]
    ensures |EscapeChar(c)| == CharBytes(c)
    ensures forall i | 0 <= i < |EscapeChar(c)| :: EscapeChar(c)[i] as int < 0x80
  {
  }

  lemma {:induction false} StringBytesExact(sum: nat, exact: nat, s: string)
    requires sum == Capped(exact)
    ensures StringBytesFrom(sum, s) == Capped(exact + Size(EscapeText(s)))
    decreases |s|
  {
    if s != "" {
      CharBytesExact(s[0]);
      SizeConcat(EscapeChar(s[0]), EscapeText(s[1..]));
      StringBytesExact(SaturatingAdd(sum, CharBytes(s[0])), exact + CharBytes(s[0]), s[1..]);
    }
  }

  lemma PrintStringSize(s: string)
    ensures StringBytes(s) == Capped(Size(PrintString(s)))
  {
    StringBytesExact(2, 2, s);
    SizeConcat("\"" + EscapeText(s), "\"");
    SizeConcat("\"", EscapeText(s));
    AsciiSize("\"");
  }

  /** Wrapping in brackets adds two bytes. */
  lemma BracketSize(open: string, body: string, close: string)
    requires |open| == |close| == 1 && open[0] as int < 0x80 && close[0] as int < 0x80
    ensures Size(open + body + close) == 2 + Size(body)
  {
    SizeConcat(open + body, close);
    SizeConcat(open, body);
    AsciiSize(open);
    AsciiSize(close);
  }

  /**
   * The accounted size of a value is the length of its JSON text plus one byte per non-empty array or
   * object in it, saturating at the largest `usize`.
   */
  lemma {:induction false} AccountedSize(v: Value)
    requires AllPlausible(v)
    ensures ValueBytes(v) == Capped(Size(Print(v)) + Slack(v))
    decreases v, 1
  {
    if v.Array? {
      ItemsAccounted(2, 2, v.items);
      BracketSize("[", PrintItems(v.items), "]");
    } else if v.Object? {
      FieldsAccounted(2, 2, v.fields);
      BracketSize("{", PrintFields(v.fields), "}");
    } else {
      LeafAccounted(v);
    }
  }

  lemma LeafAccounted(v: Value)
    requires AllPlausible(v) && !v.Array? && !v.Object?
    ensures ValueBytes(v) == Capped(Size(Print(v)) + Slack(v))
  {
    if v.Null? {
      AsciiSize("null");
    } else if v.Bool? {
      AsciiSize(if v.b then "true" else "false");
    } else if v.Str? {
      PrintStringSize(v.s);
    }
  }

  lemma {:induction false} ItemsAccounted(sum: nat, exact: nat, items: seq<Value>)
    requires sum == Capped(exact) && forall i | 0 <= i < |items| :: AllPlausible(items[i])
    ensures ItemsBytesFrom(sum, items)
            == Capped(exact + Size(PrintItems(items)) + ItemsSlack(items) + if items == [] then 0 else 1)
    decreases items, 0
  {
    if items != [] {
      AccountedSize(items[0]);
      var comma := if |items| == 1 then "" else ",";
      var size := Size(Print(items[0])) + Slack(items[0]);
      ItemsAccounted(SaturatingAdd(SaturatingAdd(sum, ValueBytes(items[0])), 1), exact + size + 1, items[1..]);
      SizeConcat(Print(items[0]) + comma, PrintItems(items[1..]));
      SizeConcat(Print(items[0]), comma);
      AsciiSize(comma);
    }
  }

  lemma {:induction false} FieldsAccounted(sum: nat, exact: nat, fields: seq<Field>)
    requires sum == Capped(exact) && forall i | 0 <= i < |fields| :: AllPlausible(fields[i].value)
    ensures FieldsBytesFrom(sum, fields)
            == Capped(exact + Size(PrintFields(fields)) + FieldsSlack(fields) + if fields == [] then 0 else 1)
    decreases fields, 1
  {
    if fields != [] {
      var grown := exact + FirstFieldSize(fields);
      FirstFieldAccounted(sum, exact, fields);
      FieldsAccounted(Capped(grown), grown, fields[1..]);
      FirstFieldSplit(fields);
    }
  }

  /** What the first field contributes to the accounted size. */
  function FirstFieldSize(fields: seq<Field>): nat
    requires fields != []
  {
    Size(PrintString(fields[0].key)) + Size(Print(fields[0].value)) + Slack(fields[0].value) + 2
  }

  lemma FirstFieldSplit(fields: seq<Field>)
    requires fields != []
    ensures FirstFieldSize(fields) + Size(PrintFields(fields[1..])) + FieldsSlack(fields[1..]) + (if fields[1..] == [] then 0 else 1)
            == Size(PrintFields(fields)) + FieldsSlack(fields) + 1
  {
    PrintFieldsStep(fields);
  }

  lemma FirstFieldAccounted(sum: nat, exact: nat, fields: seq<Field>)
    requires sum == Capped(exact) && fields != [] && AllPlausible(fields[0].value)
    ensures FieldsBytesFrom(sum, fields) == FieldsBytesFrom(Capped(exact + FirstFieldSize(fields)), fields[1..])
    decreases fields, 0
  {
    var f := fields[0];
    PrintStringSize(f.key);
    AccountedSize(f.value);
    AddsThenCaps(exact, Size(PrintString(f.key)), Size(Print(f.value)) + Slack(f.value));
  }

  /** Capping after every addition is the same as capping once. */
  lemma AddsThenCaps(exact: nat, a: nat, b: nat)
    ensures SaturatingAdd(SaturatingAdd(SaturatingAdd(Capped(exact), Capped(a)), Capped(b)), 2) == Capped(exact + a + b + 2)
  {
  }

  lemma PrintFieldsStep(fields: seq<Field>)
    requires fields != []
    ensures Size(PrintFields(fields))
            == Size(PrintString(fields[0].key)) + 1 + Size(Print(fields[0].value))
               + (if |fields| == 1 then 0 else 1) + Size(PrintFields(fields[1..]))
  {
    var comma := if |fields| == 1 then "" else ",";
    FieldSize(PrintString(fields[0].key), Print(fields[0].value), comma, PrintFields(fields[1..]));
    AsciiSize(comma);
  }

  lemma FieldSize(key: string, value: string, comma: string, rest: string)
    ensures Size(key + ":" + value + comma + rest) == Size(key) + 1 + Size(value) + Size(comma) + Size(rest)
  {
    SizeConcat(key + ":" + value + comma, rest);
    SizeConcat(key + ":" + value, comma);
    SizeConcat(key + ":", value);
    SizeConcat(key, ":");
    AsciiSize(":");
  }

  // ----- the response budget

  class ResponseBudget {
    var usedBytes: nat

    constructor ()
      ensures usedBytes == 0
    {
      usedBytes := 0;
    }

    /** Adds one cell; refuses when the total leaves `usize` or passes the response limit. */
    method Account(cellBytes: nat) returns (ok: bool)
      requires usedBytes <= USIZE_MAX
      modifies this
      ensures ok <==> old(usedBytes) + cellBytes <= MAX_RESPONSE_BYTES
      ensures ok ==> usedBytes == old(usedBytes) + cellBytes
      ensures usedBytes <= USIZE_MAX
    {
      if usedBytes + cellBytes > USIZE_MAX {
        return false;
      }
      usedBytes := usedBytes + cellBytes;
      ok := usedBytes <= MAX_RESPONSE_BYTES;
    }
  }

  function AccountedTotal(cells: seq<Value>): nat
  {
    if cells == [] then 0 else AccountedTotal(cells[..|cells| - 1]) + ValueBytes(cells[|cells| - 1])
  }

  function TextTotal(cells: seq<Value>): nat
  {
    if cells == [] then 0 else TextTotal(cells[..|cells| - 1]) + Size(Print(cells[|cells| - 1]))
  }

  lemma {:induction false} TotalsGrow(cells: seq<Value>, n: nat)
    requires n <= |cells|
    ensures AccountedTotal(cells[..n]) <= AccountedTotal(cells)
  {
    if n == |cells| {
      assert cells[..n] == cells;
    } else {
      TotalsGrow(cells[..|cells| - 1], n);
      assert cells[..|cells| - 1][..n] == cells[..n];
    }
  }

  lemma {:induction false} TextWithinAccounted(cells: seq<Value>)
    requires forall i | 0 <= i < |cells| :: AllPlausible(cells[i])
    ensures AccountedTotal(cells) < USIZE_MAX ==> TextTotal(cells) <= AccountedTotal(cells)
  {
    if cells != [] {
      TextWithinAccounted(cells[..|cells| - 1]);
      AccountedSize(cells[|cells| - 1]);
    }
  }

  /** The cells of a result are accepted exactly when their accounted sizes fit; then their JSON texts fit in 1 MiB too. */
  method AccountCells(cells: seq<Value>) returns (accepted: bool)
    requires forall i | 0 <= i < |cells| :: AllPlausible(cells[i])
    ensures accepted <==> AccountedTotal(cells) <= MAX_RESPONSE_BYTES
    ensures accepted ==> TextTotal(cells) <= MAX_RESPONSE_BYTES
  {
    var budget := new ResponseBudget();
    var i := 0;
    while i < |cells|
      invariant 0 <= i <= |cells|
      invariant budget.usedBytes == AccountedTotal(cells[..i]) <= MAX_RESPONSE_BYTES
    {
      assert cells[..i + 1][..i] == cells[..i];
      var ok := budget.Account(ValueBytes(cells[i]));
      if !ok {
        TotalsGrow(cells, i + 1);
        return false;
      }
      i := i + 1;
    }
    assert cells[..i] == cells;
    TextWithinAccounted(cells);
    return true;
  }
}
