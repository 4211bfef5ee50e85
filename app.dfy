/**
 * The browser client's report state: the two report cells, the single-slot
 * audit record, the chat history and the input box, and the two operations
 * that change them (sending a query and clearing the chat). Also the pure
 * projections of that state: the CSV export text and each row's cell text
 * and highlight.
 *
 * Sending is modelled as one atomic step that is handed the completed
 * outcome of the request to the analysis service.
 */
module App {
  import opened Wrappers
  import opened Text
  import opened Schemas

  /** A report cell: a value, or null before anything was written. */
  type Cell = Option<real>

  /** `tableData`: report cells by field id. */
  type Table = map<string, Cell>

  const SovereignId := "row_sovereign_exposure"
  const RetailId := "row_retail_exposure"

  /** Both known rows, empty. */
  const InitialTable: Table := map[SovereignId := None, RetailId := None]

  /** The bot message shown when the request to the service fails. */
  const ConnectionError := "Error: Could not connect to backend."

  /** The first line of the CSV export. */
  const CsvHeader := "Exposure Class, Risk Weight, Value (GBP)"

  /** The class name of the row the last update touched. */
  const HighlightClass := "highlight-row"

  datatype Sender = User | Bot

  datatype ChatMessage = ChatMessage(sender: Sender, text: string)

  /** How the request to the analysis service completed. */
  datatype Outcome = ConnectionFailed | Received(data: AnalysisResponse)

  /** A table holding both known rows. */
  predicate WellFormed(t: Table)
  {
    SovereignId in t && RetailId in t
  }

  /** `!input.trim()`: the input holds nothing but whitespace. */
  predicate Blank(input: string)
  {
    Trim(input, JsWhitespace) == ""
  }

  /** A blank input is exactly one made only of whitespace. */
  lemma BlankIffAllWhitespace(input: string)
    ensures Blank(input) <==> forall i :: 0 <= i < |input| ==> input[i] in JsWhitespace
  {
    TrimEmptyIffAllWhitespace(input, JsWhitespace);
  }

  // ---------------------------------------------------------------------------
  // Merging an update

  /** `{...prev, [update.field_id]: update.value}`: the field id is not checked. */
  function WriteCell(t: Table, u: FieldUpdate): (r: Table)
    ensures u.field_id in r && r[u.field_id] == Some(u.value)
    ensures r.Keys == t.Keys + {u.field_id}
    ensures forall k :: k in t && k != u.field_id ==> r[k] == t[k]
  {
    t[u.field_id := Some(u.value)]
  }

  /** Last write wins: a second update to the same field erases every trace of the first. */
  lemma LastWriteWins(t: Table, first: FieldUpdate, second: FieldUpdate)
    requires first.field_id == second.field_id
    ensures WriteCell(WriteCell(t, first), second) == WriteCell(t, second)
  {
  }

  /** Updates to different fields commute. */
  lemma WritesCommute(t: Table, a: FieldUpdate, b: FieldUpdate)
    requires a.field_id != b.field_id
    ensures WriteCell(WriteCell(t, a), b) == WriteCell(WriteCell(t, b), a)
  {
  }

  /** The bot message for a completed request. */
  function Reply(outcome: Outcome): string
  {
    match outcome
    case ConnectionFailed => ConnectionError
    case Received(data) => data.response_text
  }

  // ---------------------------------------------------------------------------
  // What the report panel shows

  /** The value cell of a row: "-" when empty, otherwise pounds and millions around the value. */
  function CellText(c: Cell, show: real -> string): (r: string)
    ensures r == "-" <==> c.None?
    ensures c.Some? ==> |r| == |show(c.value)| + 2 && r[0] == '£' && r[|r| - 1] == 'm'
                        && r[1..|r| - 1] == show(c.value)
  {
    match c
    case None => "-"
    case Some(v) => "£" + show(v) + "m"
  }

  /** The class name of the row for `rowId`, given the audit record. */
  function RowClass(audit: Option<FieldUpdate>, rowId: string): (r: string)
    ensures r == HighlightClass <==> audit.Some? && audit.value.field_id == rowId
    ensures r == "" || r == HighlightClass
  {
    if audit.Some? && audit.value.field_id == rowId then HighlightClass else ""
  }

  /** At most one of the two rows is highlighted. */
  lemma OneHighlightAtMost(audit: Option<FieldUpdate>)
    ensures RowClass(audit, SovereignId) == "" || RowClass(audit, RetailId) == ""
  {
  }

  // ---------------------------------------------------------------------------
  // CSV export

  /** One CSV row: `name, weight, value`, with an empty cell written as 0. */
  function CsvRow(name: string, weight: string, c: Cell, show: real -> string): string
  {
    name + ", " + weight + ", " + show(c.GetOr(0.0))
  }

  /** The lines of the export: the header, then the two rows in their fixed order. */
  function CsvLines(t: Table, show: real -> string): (lines: seq<string>)
    requires WellFormed(t)
    ensures |lines| == 3 && lines[0] == CsvHeader
    ensures lines[1] == "Central Governments, 0%, " + show(t[SovereignId].GetOr(0.0))
    ensures lines[2] == "Retail Exposures, 75%, " + show(t[RetailId].GetOr(0.0))
  {
    [CsvHeader,
     CsvRow("Central Governments", "0%", t[SovereignId], show),
     CsvRow("Retail Exposures", "75%", t[RetailId], show)]
  }

  /** The exported text: the lines joined by newlines. */
  function CsvText(t: Table, show: real -> string): string
    requires WellFormed(t)
  {
    Join(CsvLines(t, show), '\n')
  }

  /**
   * The export is exactly three lines, with no trailing newline, as long as
   * rendering a number never produces a newline.
   */
  lemma CsvIsThreeLines(t: Table, show: real -> string)
    requires WellFormed(t)
    requires forall v :: '\n' !in show(v)
    ensures Split(CsvText(t, show), '\n') == CsvLines(t, show)
    ensures var text := CsvText(t, show); |text| > 0 && text[|text| - 1] != '\n'
  {
    var lines := CsvLines(t, show);
    var sovereign: real := t[SovereignId].GetOr(0.0);
    var retail: real := t[RetailId].GetOr(0.0);
    assert '\n' !in show(sovereign) && '\n' !in show(retail);
    assert lines[1] == "Central Governments, 0%, " + show(sovereign);
    assert lines[2] == "Retail Exposures, 75%, " + show(retail);
    SplitJoin(lines, '\n');
    var text := CsvText(t, show);
    assert Join(lines[1..], '\n') == lines[1] + ['\n'] + lines[2];
    assert text == (lines[0] + ['\n'] + lines[1] + ['\n']) + lines[2];
    assert text[|text| - 1] == lines[2][|lines[2]| - 1];
  }

  /**
   * In every state the component keeps, the downloaded file is the header
   * followed by one line per row, each showing that row's current cell.
   */
  lemma ExportIsThreeLines(app: ReportApp, show: real -> string)
    requires app.Valid()
    requires forall v :: '\n' !in show(v)
    ensures Split(app.Csv(show), '\n') ==
              [CsvHeader,
               "Central Governments, 0%, " + show(app.tableData[SovereignId].GetOr(0.0)),
               "Retail Exposures, 75%, " + show(app.tableData[RetailId].GetOr(0.0))]
  {
    CsvIsThreeLines(app.tableData, show);
  }

  /** An update whose field id names no row leaves the export and both cells as they were. */
  lemma UnknownFieldInvisible(t: Table, u: FieldUpdate, show: real -> string)
    requires WellFormed(t)
    requires u.field_id != SovereignId && u.field_id != RetailId
    ensures WellFormed(WriteCell(t, u))
    ensures CsvText(WriteCell(t, u), show) == CsvText(t, show)
    ensures CellText(WriteCell(t, u)[SovereignId], show) == CellText(t[SovereignId], show)
    ensures CellText(WriteCell(t, u)[RetailId], show) == CellText(t[RetailId], show)
    ensures RowClass(Some(u), SovereignId) == "" && RowClass(Some(u), RetailId) == ""
  {
  }

  // ---------------------------------------------------------------------------
  // The component's state

  class ReportApp {
    var input: string
    var chatHistory: seq<ChatMessage>
    var loading: bool
    var tableData: Table
    var lastAudit: Option<FieldUpdate>

    /** The table always holds both known rows. */
    ghost predicate Valid()
      reads this
    {
      WellFormed(tableData)
    }

    /** `downloadCSV`'s text for the current table; the table must hold both rows. */
    function Csv(show: real -> string): string
      reads this
      requires Valid()
    {
      CsvText(tableData, show)
    }

    /** The initial state of the component. */
    constructor ()
      ensures Valid()
      ensures input == "" && chatHistory == [] && !loading
      ensures tableData == InitialTable && lastAudit == None
    {
      input := "";
      chatHistory := [];
      loading := false;
      tableData := InitialTable;
      lastAudit := None;
    }

    /** The input box's change handler. */
    method SetInput(text: string)
      requires Valid()
      modifies this
      ensures Valid()
      ensures input == text
      ensures chatHistory == old(chatHistory) && loading == old(loading)
      ensures tableData == old(tableData) && lastAudit == old(lastAudit)
    {
      input := text;
    }

    /** Clears the chat and the audit record; the table is kept. */
    method ClearChat()
      requires Valid()
      modifies this
      ensures Valid()
      ensures chatHistory == [] && lastAudit == None
      ensures tableData == old(tableData) && input == old(input) && loading == old(loading)
    {
      chatHistory := [];
      lastAudit := None;
    }

    /**
     * Sends the input and merges the service's answer: a blank input does
     * nothing; otherwise the user message and the reply are appended, and a
     * received update overwrites its cell and the audit record.
     */
    method HandleSend(outcome: Outcome)
      requires Valid()
      modifies this
      ensures Valid()
      // a blank input changes nothing at all
      ensures Blank(old(input)) ==>
                input == old(input) && chatHistory == old(chatHistory) && loading == old(loading)
                && tableData == old(tableData) && lastAudit == old(lastAudit)
      // otherwise, on either path, two messages are appended and the input is reset
      ensures !Blank(old(input)) ==>
                chatHistory == old(chatHistory) + [ChatMessage(User, old(input)), ChatMessage(Bot, Reply(outcome))]
                && !loading && input == ""
      // a received update is written, whatever the cell and the audit record held
      ensures !Blank(old(input)) && outcome.Received? && outcome.data.data_update.Some? ==>
                tableData == WriteCell(old(tableData), outcome.data.data_update.value)
                && lastAudit == outcome.data.data_update
      // a failure, or an answer without an update, keeps the table and the audit record
      ensures outcome.ConnectionFailed? || outcome.data.data_update.None? ==>
                tableData == old(tableData) && lastAudit == old(lastAudit)
    {
      if Blank(input) {
        return;
      }
      Respond(outcome);
    }

    /**
     * Everything `HandleSend` does once the input is known not to be blank:
     * record the user message, merge the outcome, reset `loading` and the input.
     */
    method Respond(outcome: Outcome)
      requires Valid()
      modifies this
      ensures Valid()
      ensures chatHistory == old(chatHistory) + [ChatMessage(User, old(input)), ChatMessage(Bot, Reply(outcome))]
      ensures !loading && input == ""
      ensures outcome.Received? && outcome.data.data_update.Some? ==>
                tableData == WriteCell(old(tableData), outcome.data.data_update.value)
                && lastAudit == outcome.data.data_update
      ensures outcome.ConnectionFailed? || outcome.data.data_update.None? ==>
                tableData == old(tableData) && lastAudit == old(lastAudit)
    {
      var newHistory := chatHistory + [ChatMessage(User, input)];
      chatHistory := newHistory;
      loading := true;
      match outcome {
        case Received(data) =>
          chatHistory := newHistory + [ChatMessage(Bot, data.response_text)];
          if data.data_update.Some? {
            var update := data.data_update.value;
            tableData := WriteCell(tableData, update);
            lastAudit := Some(update);
          }
        case ConnectionFailed =>
          chatHistory := newHistory + [ChatMessage(Bot, ConnectionError)];
      }
      loading := false;
      input := "";
    }
  }

  /** Clearing twice leaves the same state as clearing once. */
  method ClearChatTwice(app: ReportApp)
    requires app.Valid()
    modifies app
    ensures app.Valid()
    ensures app.chatHistory == [] && app.lastAudit == None && app.tableData == old(app.tableData)
    ensures app.input == old(app.input) && app.loading == old(app.loading)
  {
    app.ClearChat();
    var history, audit, table, input, loading := app.chatHistory, app.lastAudit, app.tableData, app.input, app.loading;
    app.ClearChat();
    assert app.chatHistory == history && app.lastAudit == audit && app.tableData == table;
    assert app.input == input && app.loading == loading;
  }

  /**
   * A sovereign update followed by a retail one: both cells hold their
   * values, and only the retail row is highlighted.
   */
  method TwoSends(a: FieldUpdate, b: FieldUpdate, query: string, show: real -> string)
    requires a.field_id == SovereignId && b.field_id == RetailId
    requires !Blank(query)
  {
    var app := new ReportApp();
    app.SetInput(query);
    app.HandleSend(Received(AnalysisResponse("first", Some(a))));
    app.SetInput(query);
    app.HandleSend(Received(AnalysisResponse("second", Some(b))));
    assert app.tableData[SovereignId] == Some(a.value) && app.tableData[RetailId] == Some(b.value);
    assert CellText(app.tableData[RetailId], show) == "£" + show(b.value) + "m";
    assert RowClass(app.lastAudit, RetailId) == HighlightClass;
    assert RowClass(app.lastAudit, SovereignId) == "";
    assert |app.chatHistory| == 4 && app.chatHistory[3] == ChatMessage(Bot, "second");
  }
}
