/** The extracted-data card: how each value of the extracted record is
    shown (`renderValue`), and which top-level entries get a section.
    Values are JSON values as `JSON.parse` yields them, with integer
    numbers; the view is a tree of display nodes instead of JSX. */
module ExtractedDataCard {
  import opened Text
  import opened KeyFormat

  datatype Json =
    | JNull
    | JUndefined
    | JBool(b: bool)
    | JNum(n: int)
    | JStr(s: string)
    | JArr(items: seq<Json>)
    | JObj(entries: seq<(string, Json)>)

  /** `typeof v === 'object'`: null, arrays and objects. */
  predicate IsObjectTyped(v: Json)
  {
    v.JNull? || v.JArr? || v.JObj?
  }

  /** What the card draws for one value. */
  datatype Node =
    | NotProvided                                     // 未提供, in grey italics
    | NoData                                          // 無資料, in grey italics
    | BulletList(items: seq<Node>)                    // <ul> with one <li> per element
    | InlineText(text: string)                        // "Key: value; Key: value"
    | NestedView(indented: bool, fields: seq<(string, Node)>)  // heading and value per entry
    | YesNo(value: bool)                              // 是 (green) or 否 (red)
    | LongText(text: string)                          // pre-wrapped block
    | ShortText(text: string)                         // plain span

  const NotProvidedText: string := "未提供"
  const NoDataText: string := "無資料"
  const NoInfoText: string := "未提取到任何醫療資訊"

  function YesNoText(b: bool): string
  {
    if b then "是" else "否"
  }

  /** Texts longer than this many characters are shown as a block. */
  const LongTextThreshold: nat := 100

  // ---------------------------------------------------------------------
  // String(v) and JSON.stringify(v)

  /** `String(v)` for the values that are not objects. */
  function ScalarText(v: Json): string
    requires !IsObjectTyped(v)
  {
    match v
    case JUndefined => "undefined"
    case JBool(b) => if b then "true" else "false"
    case JNum(n) => IntToString(n)
    case JStr(s) => s
  }

  function HexDigit(d: nat): char
    requires d < 16
  {
    if d < 10 then DigitChar(d) else ('a' as int + d - 10) as char
  }

  /** How JSON.stringify writes one character inside a string literal. */
  function EscapeChar(c: char): string
  {
    if c == '"' then "\\\""
    else if c == '\\' then "\\\\"
    else if c == '\U{0008}' then "\\b"
    else if c == '\U{000C}' then "\\f"
    else if c == '\n' then "\\n"
    else if c == '\r' then "\\r"
    else if c == '\t' then "\\t"
    else if c < ' ' then "\\u00" + [HexDigit(c as int / 16), HexDigit(c as int % 16)]
    else [c]
  }

  function EscapeString(s: string): string
  {
    if s == [] then [] else EscapeChar(s[0]) + EscapeString(s[1..])
  }

  function Quote(s: string): string
  {
    "\"" + EscapeString(s) + "\""
  }

  /** The escaped text holds no control character... */
  lemma {:induction false} EscapeNoControl(s: string)
    ensures forall i :: 0 <= i < |EscapeString(s)| ==> EscapeString(s)[i] >= ' '
  {
    if s != [] {
      EscapeNoControl(s[1..]);
      var e := EscapeChar(s[0]);
      assert forall i :: 0 <= i < |e| ==> e[i] >= ' ';
      assert EscapeString(s) == e + EscapeString(s[1..]);
    }
  }

  /** ...and text without quotes, backslashes or control characters is
      written as it is. */
  lemma {:induction false} EscapePlain(s: string)
    requires forall i :: 0 <= i < |s| ==> s[i] >= ' ' && s[i] != '"' && s[i] != '\\'
    ensures EscapeString(s) == s
  {
    if s != [] {
      EscapePlain(s[1..]);
      assert [s[0]] + s[1..] == s;
    }
  }

  /** `JSON.stringify(v)`. An `undefined` array element is written as
      `null` and an object entry whose value is `undefined` is left out. */
  function Stringify(v: Json): string
  {
    match v
    case JNull => "null"
    case JUndefined => "null"
    case JBool(b) => if b then "true" else "false"
    case JNum(n) => IntToString(n)
    case JStr(s) => Quote(s)
    case JArr(items) => "[" + Join(seq(|items|, i requires 0 <= i < |items| => Stringify(items[i])), ",") + "]"
    case JObj(entries) =>
      var kept := DefinedEntries(entries);
      "{" + Join(seq(|kept|, i requires 0 <= i < |kept| => Quote(kept[i].0) + ":" + Stringify(kept[i].1)), ",") + "}"
  }

  /** The entries whose value is not `undefined`, in order. */
  function DefinedEntries(entries: seq<(string, Json)>): (r: seq<(string, Json)>)
    ensures forall e :: e in r ==> e in entries && !e.1.JUndefined?
  {
    if entries == [] then []
    else (if entries[0].1.JUndefined? then [] else [entries[0]]) + DefinedEntries(entries[1..])
  }

  // ---------------------------------------------------------------------
  // renderValue

  /** One entry of an inline object: `${formatKey(k)}: ${value}`, the value
      written by JSON.stringify when it is object-typed and by String
      otherwise. */
  function InlineEntry(k: string, v: Json): string
  {
    FormatKey(k) + ": " + (if IsObjectTyped(v) then Stringify(v) else ScalarText(v))
  }

  function InlineEntries(entries: seq<(string, Json)>): seq<string>
  {
    seq(|entries|, i requires 0 <= i < |entries| => InlineEntry(entries[i].0, entries[i].1))
  }

  /** Number and string values: a block when the text is long, a span
      otherwise. */
  function TextNode(text: string): Node
  {
    if |text| > LongTextThreshold then LongText(text) else ShortText(text)
  }

  /** `renderValue(value, depth)` */
  function Render(v: Json, depth: nat): Node
  {
    match v
    case JNull => NotProvided
    case JUndefined => NotProvided
    case JStr(s) => if s == "" then NotProvided else TextNode(s)
    case JArr(items) =>
      if |items| == 0 then NoData
      else BulletList(seq(|items|, i requires 0 <= i < |items| => Render(items[i], depth + 1)))
    case JObj(entries) =>
      if |entries| == 0 then NoData
      else if |entries| <= 3 && depth > 0 then InlineText(Join(InlineEntries(entries), "; "))
      else NestedView(depth > 0, seq(|entries|, i requires 0 <= i < |entries| =>
                                       (FormatKey(entries[i].0), Render(entries[i].1, depth + 1))))
    case JBool(b) => YesNo(b)
    case JNum(n) => TextNode(IntToString(n))
  }

  // ---------------------------------------------------------------------
  // Properties of renderValue

  /** The placeholder 未提供 is shown exactly for null, undefined and the
      empty string. */
  lemma RenderNotProvidedIff(v: Json, depth: nat)
    ensures Render(v, depth) == NotProvided <==> (v == JNull || v == JUndefined || v == JStr(""))
  {
  }

  /** `false` and `0` are values, not missing data: they render as 否 and
      "0". */
  lemma RenderFalseAndZero(depth: nat)
    ensures Render(JBool(false), depth) == YesNo(false) && YesNoText(false) == "否"
    ensures Render(JNum(0), depth) == ShortText("0")
  {
    assert IntToString(0) == "0";
  }

  /** Empty arrays and empty objects both render 無資料. */
  lemma RenderEmptyContainers(depth: nat)
    ensures Render(JArr([]), depth) == NoData
    ensures Render(JObj([]), depth) == NoData
  {
  }

  /** A non-empty array becomes a list with one item per element, in
      order, each rendered one level deeper. */
  lemma RenderArray(items: seq<Json>, depth: nat)
    requires |items| > 0
    ensures Render(JArr(items), depth).BulletList?
    ensures |Render(JArr(items), depth).items| == |items|
    ensures forall i :: 0 <= i < |items| ==> Render(JArr(items), depth).items[i] == Render(items[i], depth + 1)
  {
  }

  /** A non-empty object is written inline exactly when it is nested and
      has at most three entries; otherwise every entry gets a heading and
      its value one level deeper, indented unless at the top level. */
  lemma RenderObject(entries: seq<(string, Json)>, depth: nat)
    requires |entries| > 0
    ensures Render(JObj(entries), depth).InlineText? <==> depth > 0 && |entries| <= 3
    ensures Render(JObj(entries), depth).InlineText? ==>
      Render(JObj(entries), depth).text == Join(InlineEntries(entries), "; ")
    ensures !Render(JObj(entries), depth).InlineText? ==>
      Render(JObj(entries), depth).NestedView? && Render(JObj(entries), depth).indented == (depth > 0)
      && |Render(JObj(entries), depth).fields| == |entries|
      && forall i :: 0 <= i < |entries| ==>
           Render(JObj(entries), depth).fields[i] == (FormatKey(entries[i].0), Render(entries[i].1, depth + 1))
  {
  }

  /** A top-level object always gets the nested view. */
  lemma RenderTopLevelObject(entries: seq<(string, Json)>)
    requires |entries| > 0
    ensures Render(JObj(entries), 0) == NestedView(false, seq(|entries|, i requires 0 <= i < |entries| =>
                                                   (FormatKey(entries[i].0), Render(entries[i].1, 1))))
  {
  }

  /** The inline text starts with the first entry's heading and a colon. */
  lemma InlineTextStartsWithFirstKey(entries: seq<(string, Json)>)
    requires |entries| > 0
    ensures FormatKey(entries[0].0) + ": " <= Join(InlineEntries(entries), "; ")
  {
    JoinStartsWith(InlineEntries(entries), "; ", FormatKey(entries[0].0) + ": ");
  }

  lemma JoinStartsWith(ws: seq<string>, sep: string, p: string)
    requires |ws| > 0 && p <= ws[0]
    ensures p <= Join(ws, sep)
  {
    JoinEnds(ws, sep);
  }

  /** A string or number shows its own text, as a block exactly when it is
      longer than 100 characters. */
  lemma RenderScalar(v: Json, depth: nat)
    requires v.JNum? || (v.JStr? && v.s != "")
    ensures var text := if v.JNum? then IntToString(v.n) else v.s;
      Render(v, depth) == (if |text| > 100 then LongText(text) else ShortText(text))
  {
  }

  /** Shape every rendered tree has: lists and nested views are never
      empty, inline text appears only below the top level, nested views are
      indented exactly below the top level, long text is longer than the
      threshold and short text is non-empty and no longer than it. */
  predicate WellFormed(n: Node, depth: nat)
  {
    match n
    case NotProvided => true
    case NoData => true
    case YesNo(_) => true
    case BulletList(items) =>
      |items| > 0 && forall i :: 0 <= i < |items| ==> WellFormed(items[i], depth + 1)
    case InlineText(t) => depth > 0 && t != []
    case NestedView(indented, fields) =>
      |fields| > 0 && indented == (depth > 0)
      && forall i :: 0 <= i < |fields| ==> WellFormed(fields[i].1, depth + 1)
    case LongText(t) => |t| > LongTextThreshold
    case ShortText(t) => 0 < |t| <= LongTextThreshold
  }

  lemma {:induction false} RenderWellFormed(v: Json, depth: nat)
    ensures WellFormed(Render(v, depth), depth)
    decreases v
  {
    match v
    case JArr(items) =>
      forall i | 0 <= i < |items| ensures WellFormed(Render(items[i], depth + 1), depth + 1) {
        RenderWellFormed(items[i], depth + 1);
      }
      ArrayWellFormed(items, depth);
    case JObj(entries) =>
      forall i | 0 <= i < |entries| ensures WellFormed(Render(entries[i].1, depth + 1), depth + 1) {
        RenderWellFormed(entries[i].1, depth + 1);
      }
      ObjectWellFormed(entries, depth);
    case _ =>
  }

  lemma ArrayWellFormed(items: seq<Json>, depth: nat)
    requires forall i :: 0 <= i < |items| ==> WellFormed(Render(items[i], depth + 1), depth + 1)
    ensures WellFormed(Render(JArr(items), depth), depth)
  {
  }

  lemma ObjectWellFormed(entries: seq<(string, Json)>, depth: nat)
    requires forall i :: 0 <= i < |entries| ==> WellFormed(Render(entries[i].1, depth + 1), depth + 1)
    ensures WellFormed(Render(JObj(entries), depth), depth)
  {
    if 0 < |entries| <= 3 && depth > 0 {
      InlineTextNonEmpty(entries);
    }
  }

  lemma InlineTextNonEmpty(entries: seq<(string, Json)>)
    requires |entries| > 0
    ensures Join(InlineEntries(entries), "; ") != []
  {
    var parts := InlineEntries(entries);
    JoinEnds(parts, "; ");
    assert |parts[0]| > 0;
  }

  // ---------------------------------------------------------------------
  // The card

  /** Keys the card never shows. */
  predicate IsInternalKey(k: string)
  {
    k == "fileB64" || k == "mimeType"
  }

  /** `Object.entries(data).filter(([key]) => !['fileB64', 'mimeType'].includes(key))`:
      keeps exactly the non-internal entries. */
  function VisibleEntries(entries: seq<(string, Json)>): (r: seq<(string, Json)>)
    ensures forall e :: e in r ==> e in entries && !IsInternalKey(e.0)
    ensures forall e :: e in entries && !IsInternalKey(e.0) ==> e in r
  {
    if entries == [] then []
    else (if IsInternalKey(entries[0].0) then [] else [entries[0]]) + VisibleEntries(entries[1..])
  }

  /** The filter keeps order: filtering a concatenation concatenates the
      filtered parts. */
  lemma {:induction false} VisibleEntriesAppend(a: seq<(string, Json)>, b: seq<(string, Json)>)
    ensures VisibleEntries(a + b) == VisibleEntries(a) + VisibleEntries(b)
  {
    if a == [] {
      assert a + b == b;
    } else {
      assert (a + b)[0] == a[0];
      assert (a + b)[1..] == a[1..] + b;
      VisibleEntriesAppend(a[1..], b);
    }
  }

  datatype Card =
    | NoInfo                                    // the 未提取到任何醫療資訊 message alone
    | Sections(sections: seq<(string, Node)>)   // heading and rendered value per entry

  /** The card for the extracted record, given as its entries in
      enumeration order. */
  function RenderCard(entries: seq<(string, Json)>): Card
  {
    var visible := VisibleEntries(entries);
    if |visible| == 0 then NoInfo
    else Sections(seq(|visible|, i requires 0 <= i < |visible| =>
                        (FormatKey(visible[i].0), Render(visible[i].1, 0))))
  }

  /** The card shows only the "no info" message exactly when every entry
      is internal; otherwise one section per visible entry, in order, with
      the formatted key as heading and the value rendered at depth 0. */
  lemma RenderCardShape(entries: seq<(string, Json)>)
    ensures RenderCard(entries) == NoInfo <==> forall e :: e in entries ==> IsInternalKey(e.0)
    ensures RenderCard(entries).Sections? ==>
      |RenderCard(entries).sections| == |VisibleEntries(entries)|
      && forall i :: 0 <= i < |VisibleEntries(entries)| ==>
           RenderCard(entries).sections[i] == (FormatKey(VisibleEntries(entries)[i].0), Render(VisibleEntries(entries)[i].1, 0))
  {
    var visible := VisibleEntries(entries);
    if |visible| > 0 {
      assert visible[0] in visible;
    }
  }
}
