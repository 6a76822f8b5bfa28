/**
 * The results page: the `result` query parameter, read as JSON, is shown as
 * one row per entry, each labelled with the formatted key; no parameter shows
 * a notice, and text that does not parse, or that parses to null, is shown
 * raw.
 */
module ResultsView {
  import opened Wrappers
  import opened JsText
  import opened ResultLabels

  /** A parsed JSON value; an object lists its members in enumeration order. */
  datatype Json =
    | JNull
    | JBool(b: bool)
    | JNumber(x: real)
    | JString(s: string)
    | JArray(items: seq<Json>)
    | JObject(members: seq<(string, Json)>)

  /** `typeof v === 'object'`: true for objects, arrays and null. */
  predicate IsObjectType(v: Json) {
    v.JNull? || v.JArray? || v.JObject?
  }

  /** Array-like entries: the index, as decimal text, paired with each item. */
  function Indexed(items: seq<Json>, from: nat): (es: seq<(string, Json)>)
    ensures |es| == |items|
    ensures forall i :: 0 <= i < |items| ==> es[i] == (NatToString(from + i), items[i])
    decreases |items|
  {
    if items == [] then [] else [(NatToString(from), items[0])] + Indexed(items[1..], from + 1)
  }

  /** The one-character strings of `s`, in order. */
  function Characters(s: string): (cs: seq<Json>)
    ensures |cs| == |s|
    ensures forall i :: 0 <= i < |s| ==> cs[i] == JString([s[i]])
  {
    if s == [] then [] else [JString([s[0]])] + Characters(s[1..])
  }

  /**
   * `Object.entries(data)`: the members of an object, the indexed items of an
   * array or characters of a string, nothing for a number or a boolean; None
   * where it throws, on null.
   */
  function ObjectEntries(data: Json): (es: Option<seq<(string, Json)>>)
    ensures es.None? <==> data.JNull?
    ensures data.JObject? ==> es == Some(data.members)
    ensures (data.JBool? || data.JNumber?) ==> es == Some([])
  {
    match data
    case JNull => None
    case JBool(_) => Some([])
    case JNumber(_) => Some([])
    case JString(s) => Some(Indexed(Characters(s), 0))
    case JArray(items) => Some(Indexed(items, 0))
    case JObject(members) => Some(members)
  }

  /** What a row shows for a value: its JSON text for objects, the value itself otherwise. */
  datatype Cell = JsonText(value: Json) | Plain(value: Json)

  function RenderValue(v: Json): (c: Cell)
    ensures c.value == v
    ensures c.JsonText? <==> IsObjectType(v)
  {
    if IsObjectType(v) then JsonText(v) else Plain(v)
  }

  /** One result row: React key, label and value cell. */
  datatype Row = Row(key: string, caption: string, cell: Cell)

  /** One row per entry, in entry order. */
  function RenderRows(es: seq<(string, Json)>): (rows: seq<Row>)
    ensures |rows| == |es|
    ensures forall i :: 0 <= i < |es| ==>
      rows[i] == Row(es[i].0, FormatKey(es[i].0), RenderValue(es[i].1))
  {
    if es == [] then [] else [Row(es[0].0, FormatKey(es[0].0), RenderValue(es[0].1))] + RenderRows(es[1..])
  }

  /** The content `formatResult` produces when it produces any. */
  datatype Display = Rows(rows: seq<Row>) | RawText(text: string)

  /**
   * `formatResult(resultData)`. `parsed` is `JSON.parse(resultData)`, None
   * where parsing throws. An empty text is falsy and gives null (None).
   */
  function FormatResult(resultData: string, parsed: Option<Json>): (d: Option<Display>)
    ensures d.None? <==> resultData == []
    ensures resultData != [] && (parsed.None? || parsed.value.JNull?) ==> d == Some(RawText(resultData))
  {
    if resultData == [] then None
    else if parsed.None? then Some(RawText(resultData))
    else
      var es := ObjectEntries(parsed.value);
      if es.None? then Some(RawText(resultData)) else Some(Rows(RenderRows(es.value)))
  }

  /** What the results card shows. */
  datatype Page = NoResults | Shown(display: Display)

  /**
   * The card for the query parameter `result` (None when absent): the notice
   * when it is absent or empty, the formatted result otherwise.
   */
  function ResultsPage(result: Option<string>, parsed: Option<Json>): (p: Page)
    ensures p == NoResults <==> result.None? || result.value == []
  {
    if result.None? || result.value == [] then NoResults
    else Shown(FormatResult(result.value, parsed).value)
  }

  // ---------------------------------------------------------------------------
  // Properties
  // ---------------------------------------------------------------------------

  /** A parsed object shows exactly its members, in order, keyed by the raw key. */
  lemma ObjectRows(resultData: string, members: seq<(string, Json)>)
    requires resultData != []
    ensures var d := FormatResult(resultData, Some(JObject(members)));
      d.Some? && d.value.Rows? && |d.value.rows| == |members|
      && forall i :: 0 <= i < |members| ==>
           d.value.rows[i].key == members[i].0
           && d.value.rows[i].caption == FormatKey(members[i].0)
           && d.value.rows[i].cell.value == members[i].1
  {
  }

  /** A parsed array shows one row per item, keyed "0", "1", ... */
  lemma ArrayRows(resultData: string, items: seq<Json>)
    requires resultData != []
    ensures var d := FormatResult(resultData, Some(JArray(items)));
      d.Some? && d.value.Rows? && |d.value.rows| == |items|
      && forall i :: 0 <= i < |items| ==>
           d.value.rows[i].key == NatToString(i) && d.value.rows[i].cell.value == items[i]
  {
  }

  /** A parsed string shows one row per character, keyed "0", "1", ..., each holding that character. */
  lemma StringRows(resultData: string, s: string)
    requires resultData != []
    ensures var d := FormatResult(resultData, Some(JString(s)));
      d.Some? && d.value.Rows? && |d.value.rows| == |s|
      && forall i :: 0 <= i < |s| ==>
           d.value.rows[i].key == NatToString(i) && d.value.rows[i].cell == Plain(JString([s[i]]))
  {
  }

  /** Every label on a results card is trimmed, spaces its capitals and keeps its key's text. */
  lemma RowLabels(resultData: string, parsed: Option<Json>, i: nat)
    requires var d := FormatResult(resultData, parsed); d.Some? && d.value.Rows? && i < |d.value.rows|
    ensures var row := FormatResult(resultData, parsed).value.rows[i];
      Trimmed(row.caption)
      && InnerCapitalsAfterSpace(row.caption)
      && CaseVariant(RemoveWhitespace(row.caption), RemoveWhitespace(row.key))
  {
    var row := FormatResult(resultData, parsed).value.rows[i];
    assert row.caption == FormatKey(row.key);
    LabelCapitalsFollowSpaces(row.key);
    LabelKeepsText(row.key);
  }

  /** The null branch of `formatResult` is never reached from the page. */
  lemma PageNeverShowsNull(result: Option<string>, parsed: Option<Json>)
    requires result.Some? && result.value != []
    ensures FormatResult(result.value, parsed).Some?
    ensures ResultsPage(result, parsed) == Shown(FormatResult(result.value, parsed).value)
  {
  }
}
