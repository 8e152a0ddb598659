/** The end of a run: the notification text, and the decision between
    publishing the new stock pool (write, commit, push, mail) and reporting
    that nothing changed. */
module Publisher {
  import opened Tables
  import opened Merger
  import opened Differ

  const StockFile: string := "股票池.csv"
  const CommitMessage: string := "Update 股票池.csv"
  const Subject: string := "台股股票池變動通知"
  const AlertTitle: string := "台股股票池變動提醒"
  const AddedTitle: string := "新增公司：\n"
  const RemovedTitle: string := "移除公司：\n"

  /** How a list of companies is laid out as text in the mail. */
  type Renderer = seq<Row> -> string

  predicate StartsWith(s: string, prefix: string) {
    |prefix| <= |s| && s[..|prefix|] == prefix
  }

  predicate EndsWith(s: string, suffix: string) {
    |suffix| <= |s| && s[|s| - |suffix|..] == suffix
  }

  /** The dated first line of the mail, followed by a blank line. */
  function Header(date: string): string {
    AlertTitle + " (" + date + ")\n\n"
  }

  /** A titled list of companies, or nothing when the list is empty. */
  function Block(title: string, rows: seq<Row>, render: Renderer): string {
    if rows == [] then "" else title + render(rows) + "\n\n"
  }

  /** The mail text: header, then the additions, then the removals. */
  function Body(date: string, render: Renderer, added: seq<Row>, removed: seq<Row>): string {
    Header(date) + Block(AddedTitle, added, render) + Block(RemovedTitle, removed, render)
  }

  /** The mail text as it is built: the header, then one append per non-empty list. */
  method ComposeBody(date: string, render: Renderer, added: seq<Row>, removed: seq<Row>)
    returns (content: string)
    ensures content == Body(date, render, added, removed)
  {
    content := AlertTitle + " (" + date + ")\n\n";
    if added != [] {
      content := content + (AddedTitle + render(added) + "\n\n");
    }
    if removed != [] {
      content := content + (RemovedTitle + render(removed) + "\n\n");
    }
  }

  /** The date can be read back from the header: different dates, different headers. */
  lemma HeaderCarriesDate(date: string)
    ensures var h := Header(date);
      |h| == |AlertTitle| + |date| + 5 &&
      h[..|AlertTitle|] == AlertTitle &&
      h[|AlertTitle|..|AlertTitle| + 2] == " (" &&
      h[|AlertTitle| + 2..|AlertTitle| + 2 + |date|] == date &&
      h[|AlertTitle| + 2 + |date|..] == ")\n\n"
  {
  }

  lemma HeaderInjective(d1: string, d2: string)
    requires Header(d1) == Header(d2)
    ensures d1 == d2
  {
    HeaderCarriesDate(d1);
    HeaderCarriesDate(d2);
  }

  /** The layout of the mail text: it opens with the header, the text right
      after the header is the additions block exactly when there are additions,
      otherwise the removals block exactly when there are removals, and a
      removals block always closes the mail. */
  lemma BodyLayout(date: string, render: Renderer, added: seq<Row>, removed: seq<Row>)
    ensures var body := Body(date, render, added, removed);
      StartsWith(body, Header(date))
    ensures var rest := Body(date, render, added, removed)[|Header(date)|..];
      StartsWith(rest, AddedTitle) <==> added != []
    ensures var rest := Body(date, render, added, removed)[|Header(date)|..];
      added == [] ==> (StartsWith(rest, RemovedTitle) <==> removed != [])
    ensures removed == [] ==>
      Body(date, render, added, removed) == Header(date) + Block(AddedTitle, added, render)
    ensures removed != [] ==>
      EndsWith(Body(date, render, added, removed), RemovedTitle + render(removed) + "\n\n")
    ensures Body(date, render, added, removed) == Header(date) <==> added == [] && removed == []
  {
    var h := Header(date);
    var body := Body(date, render, added, removed);
    var tail := Block(AddedTitle, added, render) + Block(RemovedTitle, removed, render);
    assert body == h + tail;
    assert body[..|h|] == h;
    assert body[|h|..] == tail;
    assert AddedTitle[0] != RemovedTitle[0];
    if added != [] {
      assert tail == AddedTitle + (render(added) + "\n\n" + Block(RemovedTitle, removed, render));
      assert tail[..|AddedTitle|] == AddedTitle;
      assert tail[0] == AddedTitle[0];
    } else if removed != [] {
      assert tail == RemovedTitle + (render(removed) + "\n\n");
      assert tail[..|RemovedTitle|] == RemovedTitle;
      assert tail[0] == RemovedTitle[0];
    } else {
      assert tail == [];
    }
    if removed != [] {
      var suffix := RemovedTitle + render(removed) + "\n\n";
      assert body == (h + Block(AddedTitle, added, render)) + suffix;
    }
  }

  /** One step of publishing, in the order the run takes them. */
  datatype Effect =
    | WriteFile(path: string, table: Table)
    | Stage(path: string)
    | Commit(message: string)
    | Push
    | SendMail(subject: string, body: string)

  /** What a run does after the comparison. */
  datatype Action = Publish(file: Table, body: string) | NoChange

  /** The steps an action stands for; nothing happens on no change. */
  function Effects(a: Action): seq<Effect> {
    match a
    case NoChange => []
    case Publish(file, body) =>
      [WriteFile(StockFile, file), Stage(StockFile), Commit(CommitMessage), Push,
       SendMail(Subject, body)]
  }

  /** Publish exactly when the table changed, with the current table and the
      mail text listing its additions and removals. */
  function Decide(current: Table, stored: Table, date: string, render: Renderer): (a: Action)
    ensures a.NoChange? <==> current == stored
    ensures Effects(a) == [] <==> !Changed(current, stored)
    ensures a.Publish? ==> a.file == current
    ensures a.Publish? ==> a.body == Body(date, render, Added(current, stored), Removed(current, stored))
  {
    if Changed(current, stored) then
      Publish(current, Body(date, render, Added(current, stored), Removed(current, stored)))
    else NoChange
  }

  /** One run over the two downloaded tables and the stored file, if any. A
      merge failure ends the run before anything is written or sent. */
  function Run(twse: Frame, tpex: Frame, file: Option<seq<Row>>, date: string, render: Renderer)
    : (r: Result<Action>)
    ensures r.Err? <==> Merge(twse, tpex).Err?
    ensures r.Err? ==> r.error == Merge(twse, tpex).error
    ensures r.Ok? ==> (r.value.NoChange? <==> Merge(twse, tpex).value == Stored(file))
    ensures r.Ok? && r.value.Publish? ==>
      r.value.file.columns == Columns && Sorted(r.value.file.rows)
    ensures r.Ok? && r.value.Publish? ==> r.value.file == Merge(twse, tpex).value
    ensures r.Ok? && r.value.Publish? ==>
      r.value.body == Body(date, render, Added(r.value.file, Stored(file)), Removed(r.value.file, Stored(file)))
  {
    match Merge(twse, tpex)
    case Err(e) => Err(e)
    case Ok(current) => Ok(Decide(current, Stored(file), date, render))
  }

  /** The stored file after a run: replaced wholly on publish, untouched otherwise. */
  function NextFile(file: Option<seq<Row>>, a: Action): Option<seq<Row>> {
    match a
    case Publish(t, _) => Some(t.rows)
    case NoChange => file
  }

  /** A second run over the same downloads reports no change and publishes nothing. */
  lemma RunIsIdempotent(twse: Frame, tpex: Frame, file: Option<seq<Row>>,
                        date: string, render: Renderer, date2: string, render2: Renderer)
    requires Run(twse, tpex, file, date, render).Ok?
    ensures Run(twse, tpex, NextFile(file, Run(twse, tpex, file, date, render).value),
                date2, render2) == Ok(NoChange)
  {
  }

  /** The first run publishes exactly when the merged table has rows, and its
      mail lists the whole table as additions and nothing as removals. */
  lemma FirstRunPublishesEverything(twse: Frame, tpex: Frame, date: string, render: Renderer)
    requires Run(twse, tpex, None, date, render).Ok?
    ensures var a := Run(twse, tpex, None, date, render).value;
      a.Publish? <==> Merge(twse, tpex).value.rows != []
    ensures var a := Run(twse, tpex, None, date, render).value;
      a.Publish? ==> a.body == Header(date) + AddedTitle + render(a.file.rows) + "\n\n"
  {
    FirstDecision(Merge(twse, tpex).value, date, render);
  }

  lemma FirstDecision(current: Table, date: string, render: Renderer)
    requires current.columns == Columns
    ensures var a := Decide(current, Stored(None), date, render);
      (a.Publish? <==> current.rows != []) &&
      (a.Publish? ==> a.file == current && a.body == Header(date) + AddedTitle + render(current.rows) + "\n\n")
  {
    var stored := Stored(None);
    FirstRun(current);
    assert Block(RemovedTitle, Removed(current, stored), render) == [];
  }

  /** Two stored companies, one kept and one replaced by a new code. */
  lemma ReplacedCompanyExample(date: string, render: Renderer)
    ensures var stored := Table(Columns, [Row(Value(1101), Value("A")), Row(Value(1102), Value("B"))]);
      var current := Table(Columns, [Row(Value(1101), Value("A")), Row(Value(1103), Value("C"))]);
      Added(current, stored) == [Row(Value(1103), Value("C"))] &&
      Removed(current, stored) == [Row(Value(1102), Value("B"))] &&
      Decide(current, stored, date, render) ==
        Publish(current, Header(date) + AddedTitle + render([Row(Value(1103), Value("C"))]) + "\n\n"
                         + RemovedTitle + render([Row(Value(1102), Value("B"))]) + "\n\n")
  {
  }
}
