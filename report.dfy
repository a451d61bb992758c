/** The markdown client note for an FX forward (src/fm_toolkit/report.py).
    Number formatting is library code outside this model, so every format
    the note uses is a parameter, gathered in `Formats`. */
module Report {
  import opened Results
  import opened Text
  import opened Exponential
  import opened FmCurves
  import opened FmFxForwards
  import opened ForwardPayoff
  import opened FmScenarios

  /** The six number formats of the note: `:,.0f`, `:.2f`, `:,.2f`,
      `:.4f`, `:.6f` and `:.4%`. */
  datatype Formats = Formats(grouped0: real -> string, fixed2: real -> string, grouped2: real -> string,
                             fixed4: real -> string, fixed6: real -> string, percent4: real -> string)

  /** Python's number formats never write a line break. */
  ghost predicate SingleLine(f: Formats) {
    && (forall x :: '\n' !in f.grouped0(x))
    && (forall x :: '\n' !in f.fixed2(x))
    && (forall x :: '\n' !in f.grouped2(x))
    && (forall x :: '\n' !in f.fixed4(x))
    && (forall x :: '\n' !in f.fixed6(x))
    && (forall x :: '\n' !in f.percent4(x))
  }

  predicate Plain(cells: seq<string>) {
    forall i :: 0 <= i < |cells| ==> '\n' !in cells[i]
  }

  // ---------------------------------------------------------------------
  // Markdown tables

  /** One table line: the cells between pipes. */
  function Row(cells: seq<string>): string {
    "| " + Join(" | ", cells) + " |"
  }

  function Dashes(k: nat): (d: seq<string>)
    ensures |d| == k && forall i :: 0 <= i < k ==> d[i] == "---"
  {
    seq(k, _ => "---")
  }

  /** The header line, the divider line, then one line per row in order. */
  function TableLines(headers: seq<string>, rows: seq<seq<string>>): seq<string> {
    [Row(headers), Row(Dashes(|headers|))] + seq(|rows|, i requires 0 <= i < |rows| => Row(rows[i]))
  }

  /** `_markdown_table`: the lines joined by line breaks. */
  function MarkdownTable(headers: seq<string>, rows: seq<seq<string>>): string {
    Join("\n", TableLines(headers, rows))
  }

  lemma PipesPlain()
    ensures '\n' !in "| " && '\n' !in " | " && '\n' !in " |" && '\n' !in "---"
  {
  }

  /** A line of cells without line breaks has none. */
  lemma RowPlain(cells: seq<string>)
    requires Plain(cells)
    ensures '\n' !in Row(cells)
  {
    PipesPlain();
    JoinWithout(" | ", cells, '\n');
  }

  /** Read back line by line, a table of single-line cells is its header,
      its divider of as many `---` cells as there are headers, and one line
      per row in order: 2 + len(rows) lines. */
  lemma TableSplit(headers: seq<string>, rows: seq<seq<string>>)
    requires Plain(headers) && forall i :: 0 <= i < |rows| ==> Plain(rows[i])
    ensures var lines := Split(MarkdownTable(headers, rows), '\n');
      && |lines| == 2 + |rows|
      && lines[0] == Row(headers)
      && lines[1] == Row(Dashes(|headers|))
      && forall i :: 0 <= i < |rows| ==> lines[i + 2] == Row(rows[i])
  {
    var lines := TableLines(headers, rows);
    RowPlain(headers);
    RowPlain(Dashes(|headers|));
    forall i | 0 <= i < |lines| ensures '\n' !in lines[i] {
      if i >= 2 {
        RowPlain(rows[i - 2]);
      }
    }
    assert "\n" == ['\n'];
    SplitJoinAll(lines, '\n');
    SplitEachPlain(lines, '\n');
  }

  /** How many items `xs[:m]` keeps of `n`: a negative bound counts from the
      end. */
  function PrefixLength(n: nat, m: int): (k: nat)
    ensures k <= n
  {
    if m >= 0 then (if m < n then m else n)
    else if n + m > 0 then n + m else 0
  }

  /** Each format, applied to any number, gives a line without breaks. */
  lemma FormatsPlain(f: Formats, x: real)
    requires SingleLine(f)
    ensures '\n' !in f.grouped0(x) && '\n' !in f.fixed2(x) && '\n' !in f.grouped2(x)
    ensures '\n' !in f.fixed4(x) && '\n' !in f.fixed6(x) && '\n' !in f.percent4(x)
  {
  }

  lemma PairPlain(a: string, b: string)
    requires '\n' !in a && '\n' !in b
    ensures Plain([a, b])
  {
  }

  // ---------------------------------------------------------------------
  // Curve key points

  const CurveHeaders: seq<string> := ["Pillar (Y)", "Zero Rate"]

  /** The first pillars of the curve with their rates, formatted. */
  function CurvePoints(c: ZeroCurve, f: Formats, maxPoints: int): seq<seq<string>>
    requires Valid(c)
  {
    var n := PrefixLength(|c.times|, maxPoints);
    seq(n, i requires 0 <= i < n => [f.fixed4(c.times[i]), f.percent4(c.zeroRates[i])])
  }

  function CurvePointsText(c: ZeroCurve, f: Formats, maxPoints: int): string
    requires Valid(c)
  {
    MarkdownTable(CurveHeaders, CurvePoints(c, f, maxPoints))
  }

  /** `_curve_points_table`: the loop appends one row per kept pillar. */
  method CurvePointsTable(c: ZeroCurve, f: Formats, maxPoints: int := 5) returns (table: string)
    requires Valid(c)
    ensures table == CurvePointsText(c, f, maxPoints)
  {
    var n := PrefixLength(|c.times|, maxPoints);
    var rows: seq<seq<string>> := [];
    for i := 0 to n
      invariant rows == CurvePoints(c, f, maxPoints)[..i]
    {
      rows := rows + [[f.fixed4(c.times[i]), f.percent4(c.zeroRates[i])]];
    }
    assert rows == CurvePoints(c, f, maxPoints);
    table := MarkdownTable(CurveHeaders, rows);
  }

  /** The default table lists the first min(5, #pillars) pillars, in curve
      order, one line each after the header and the divider. */
  lemma CurveTableLines(c: ZeroCurve, f: Formats)
    requires Valid(c) && SingleLine(f)
    ensures var lines := Split(CurvePointsText(c, f, 5), '\n');
      var n := if |c.times| < 5 then |c.times| else 5;
      && |lines| == 2 + n
      && lines[0] == Row(CurveHeaders)
      && forall i :: 0 <= i < n ==> lines[i + 2] == Row([f.fixed4(c.times[i]), f.percent4(c.zeroRates[i])])
  {
    var rows := CurvePoints(c, f, 5);
    assert |rows| == if |c.times| < 5 then |c.times| else 5;
    PairPlain("Pillar (Y)", "Zero Rate");
    forall i | 0 <= i < |rows| ensures Plain(rows[i]) {
      assert rows[i] == [f.fixed4(c.times[i]), f.percent4(c.zeroRates[i])];
      FormatsPlain(f, c.times[i]);
      FormatsPlain(f, c.zeroRates[i]);
      PairPlain(f.fixed4(c.times[i]), f.percent4(c.zeroRates[i]));
    }
    TableSplit(CurveHeaders, rows);
    forall i | 0 <= i < |rows| ensures rows[i] == [f.fixed4(c.times[i]), f.percent4(c.zeroRates[i])] {
    }
  }

  // ---------------------------------------------------------------------
  // Scenario summary

  const ScenarioHeaders: seq<string> := ["Scenario name", "Spot shock (pct)", "Domestic curve shock (bps)",
                                         "Foreign curve shock (bps)", "PV (domestic)", "PnL vs base"]

  /** One scenario row, formatted cell by cell. */
  function ScenarioCells(r: ScenarioRow, f: Formats): seq<string> {
    [r.name, f.fixed2(r.spotShockPct), f.fixed2(r.domesticBps), f.fixed2(r.foreignBps),
     f.grouped2(r.pv), f.grouped2(r.pnl)]
  }

  /** The rows `head(top_n)` keeps, formatted. */
  function ScenarioBody(rows: seq<ScenarioRow>, f: Formats, topN: int): seq<seq<string>> {
    var n := PrefixLength(|rows|, topN);
    seq(n, i requires 0 <= i < n => ScenarioCells(rows[i], f))
  }

  function ScenarioText(rows: seq<ScenarioRow>, f: Formats, topN: int): string {
    MarkdownTable(ScenarioHeaders, ScenarioBody(rows, f, topN))
  }

  /** `_scenario_markdown_table`: the loop over the kept rows. */
  method ScenarioMarkdownTable(rows: seq<ScenarioRow>, f: Formats, topN: int := 6) returns (table: string)
    ensures table == ScenarioText(rows, f, topN)
  {
    var n := PrefixLength(|rows|, topN);
    var body: seq<seq<string>> := [];
    for i := 0 to n
      invariant body == ScenarioBody(rows, f, topN)[..i]
    {
      var r := rows[i];
      body := body + [[r.name, f.fixed2(r.spotShockPct), f.fixed2(r.domesticBps), f.fixed2(r.foreignBps),
                       f.grouped2(r.pv), f.grouped2(r.pnl)]];
    }
    assert body == ScenarioBody(rows, f, topN);
    table := MarkdownTable(ScenarioHeaders, body);
  }

  /** Read back line by line, the scenario table is its six headers, the
      divider and one line per kept row, in order. */
  lemma ScenarioTableLines(rows: seq<ScenarioRow>, f: Formats, topN: int)
    requires SingleLine(f) && forall i :: 0 <= i < |rows| ==> '\n' !in rows[i].name
    ensures var lines := Split(ScenarioText(rows, f, topN), '\n');
      && |lines| == 2 + PrefixLength(|rows|, topN)
      && lines[0] == Row(ScenarioHeaders)
      && forall i :: 0 <= i < PrefixLength(|rows|, topN) ==> lines[i + 2] == Row(ScenarioCells(rows[i], f))
  {
    var body := ScenarioBody(rows, f, topN);
    HeadersPlain();
    forall i | 0 <= i < |body| ensures Plain(body[i]) {
      CellsPlain(rows[i], f);
    }
    TableSplit(ScenarioHeaders, body);
    forall i | 0 <= i < |body| ensures body[i] == ScenarioCells(rows[i], f) {
    }
  }

  lemma HeadersPlain()
    ensures Plain(ScenarioHeaders)
  {
  }

  lemma CellsPlain(r: ScenarioRow, f: Formats)
    requires SingleLine(f) && '\n' !in r.name
    ensures Plain(ScenarioCells(r, f))
  {
    FormatsPlain(f, r.spotShockPct);
    FormatsPlain(f, r.domesticBps);
    FormatsPlain(f, r.foreignBps);
    FormatsPlain(f, r.pv);
    FormatsPlain(f, r.pnl);
  }

  /** Of the eight scenarios `fx_forward_scenarios` returns, the summary
      keeps the six single-factor ones, in order, and drops the two
      combined ones that close the list. */
  lemma TopSixScenarios(exp: real -> real, x: Inputs, spotShockPct: real, rateShockBps: real,
                        g: real -> string, f: Formats)
    requires IsExp(exp) && ValidInputs(x)
    requires ScenarioTable(exp, x, spotShockPct, rateShockBps, g).Ok?
    ensures var rows := ScenarioTable(exp, x, spotShockPct, rateShockBps, g).value;
      var defs := ScenarioDefs(spotShockPct, rateShockBps, g);
      var body := ScenarioBody(rows, f, 6);
      && |rows| == 8
      && |body| == 6
      && forall i :: 0 <= i < 6 ==> body[i] == ScenarioCells(rows[i], f) && body[i][0] == defs[i].name
  {
    TableSpec(exp, x, spotShockPct, rateShockBps, g);
  }

  // ---------------------------------------------------------------------
  // PV explanation

  const AtFairText: string :=
    "The chosen strike is effectively at the market fair forward, so the trade is near zero value today."
  const BelowFairText: string :=
    "PV is positive because the agreed strike is below the current fair forward, "
    + "which is favorable for this long-base forward position."
  const AboveFairText: string :=
    "PV is negative because the agreed strike is above the current fair forward, "
    + "so the locked level is currently less favorable for this long-base forward position."

  /** abs(pv) < 1e-8. */
  predicate NearZero(pv: real) {
    -0.00000001 < pv < 0.00000001
  }

  /** `_pv_explanation`: strike and fair forward are passed but not read. */
  function PvExplanation(strike: real, fairForward: real, pv: real): (text: string)
    ensures text in {AtFairText, BelowFairText, AboveFairText}
  {
    if NearZero(pv) then AtFairText
    else if pv > 0.0 then BelowFairText
    else AboveFairText
  }

  lemma TextsDiffer()
    ensures AtFairText != BelowFairText && AtFairText != AboveFairText && BelowFairText != AboveFairText
  {
    assert |AtFairText| == 99 && |BelowFairText| == 131 && |AboveFairText| == 160;
  }

  /** The explanation depends on the PV alone and picks exactly one text:
      at fair inside the tolerance, below fair above it, above fair below
      minus it. */
  lemma ExplanationCases(strike: real, fairForward: real, pv: real)
    ensures PvExplanation(strike, fairForward, pv) == AtFairText <==> NearZero(pv)
    ensures PvExplanation(strike, fairForward, pv) == BelowFairText <==> pv >= 0.00000001
    ensures PvExplanation(strike, fairForward, pv) == AboveFairText <==> pv <= -0.00000001
  {
    TextsDiffer();
  }

  /** For a forward PV with positive notional and discount factor, what the
      text says about the strike is true: "below the fair forward" only when
      it is, "above" only when it is, and a strike at fair reads as at fair. */
  lemma ExplanationTruthful(notional: real, fair: real, strike: real, discount: real)
    requires notional > 0.0 && discount > 0.0
    ensures var text := PvExplanation(strike, fair, ForwardPv(notional, fair, strike, discount));
      && (text == BelowFairText ==> strike < fair)
      && (text == AboveFairText ==> strike > fair)
      && (strike == fair ==> text == AtFairText)
  {
    PvSign(notional, fair, strike, discount);
    ExplanationCases(strike, fair, ForwardPv(notional, fair, strike, discount));
  }

  // ---------------------------------------------------------------------
  // The client note

  const Title: string := "# FX & Rates Client Note - FX Forward"
  const TradeSummary: string := "## Trade Summary"
  const MarketSnapshot: string := "## Market Snapshot"
  const DomesticPoints: string := "### Domestic Curve Key Points"
  const ForeignPoints: string := "### Foreign Curve Key Points"
  const PricingSummary: string := "## Pricing Summary"
  const ScenarioSummary: string := "## Scenario Summary (Top 6)"
  const NextSteps: string := "## Next Steps"
  const NextStepsText: string :=
    "- Share the quoted strike versus fair value and propose hedge timing based on the scenario PnL profile."

  /** The five sections, in the order the note gives them, and the entry of
      the line list that holds each heading. */
  const Sections: seq<string> := [TradeSummary, MarketSnapshot, PricingSummary, ScenarioSummary, NextSteps]
  const SectionEntries: seq<nat> := [2, 8, 19, 24, 27]

  /** The five headings stand at their entries of a 29-entry line list. */
  predicate Laid(lines: seq<string>) {
    |lines| == 29 && forall j :: 0 <= j < 5 ==> lines[SectionEntries[j]] == Sections[j]
  }

  /** The `lines` list of the note, each table one entry. */
  function NoteLines(pair: string, x: Inputs, fair: real, pv: real, domesticRate: real, foreignRate: real,
                     domesticTable: string, foreignTable: string, scenarioTable: string, f: Formats)
    : (lines: seq<string>)
    ensures Laid(lines)
  {
    [ Title, "",
      TradeSummary,
      "- Pair: " + pair,
      "- Base notional: " + f.grouped0(x.notionalBase),
      "- Maturity: " + f.fixed2(x.maturityYears) + " years",
      "- Strike: " + f.fixed6(x.strike),
      "",
      MarketSnapshot,
      "- Spot: " + f.fixed6(x.spot),
      "- Domestic zero rate at maturity: " + f.percent4(domesticRate),
      "- Foreign zero rate at maturity: " + f.percent4(foreignRate),
      "",
      DomesticPoints, domesticTable, "",
      ForeignPoints, foreignTable, "",
      PricingSummary,
      "- Fair forward: " + f.fixed6(fair),
      "- PV (domestic): " + f.grouped2(pv),
      "- Interpretation: " + PvExplanation(x.strike, fair, pv),
      "",
      ScenarioSummary, scenarioTable, "",
      NextSteps, NextStepsText ]
  }

  /** The note once fair forward, PV and scenario table are known: the two
      zero rates at maturity are looked up, domestic first, and the lines are
      laid out. */
  function Assemble(pair: string, x: Inputs, fair: real, pv: real, rows: seq<ScenarioRow>, f: Formats)
    : (r: Result<seq<string>>)
    requires ValidInputs(x)
    ensures r.Ok? ==> Laid(r.value)
  {
    var rd := RateAt(x.domestic, x.maturityYears);
    if rd.Err? then Err(rd.error)
    else
      var rf := RateAt(x.foreign, x.maturityYears);
      // the foreign lookup fails only as the domestic one did
      if rf.Err? then Err(NonPositiveLookup)
      else Ok(NoteLines(pair, x, fair, pv, rd.value, rf.value,
                        CurvePointsText(x.domestic, f, 5), CurvePointsText(x.foreign, f, 5),
                        ScenarioText(rows, f, 6), f))
  }

  /** Only the lookups can fail, exactly when the maturity is not
      positive. */
  lemma AssembleFails(pair: string, x: Inputs, fair: real, pv: real, rows: seq<ScenarioRow>, f: Formats)
    requires ValidInputs(x)
    ensures var r := Assemble(pair, x, fair, pv, rows, f);
      && (r.Ok? <==> x.maturityYears > 0.0)
      && (r.Err? ==> r.error == NonPositiveLookup)
  {
  }

  /** The pricing summary shows the given fair forward, the given PV with
      its explanation, and the scenario table of the given rows. */
  lemma AssembleShows(pair: string, x: Inputs, fair: real, pv: real, rows: seq<ScenarioRow>, f: Formats)
    requires ValidInputs(x) && x.maturityYears > 0.0
    ensures var lines := Assemble(pair, x, fair, pv, rows, f).value;
      && lines[20] == "- Fair forward: " + f.fixed6(fair)
      && lines[21] == "- PV (domestic): " + f.grouped2(pv)
      && lines[22] == "- Interpretation: " + PvExplanation(x.strike, fair, pv)
      && lines[25] == ScenarioText(rows, f, 6)
  {
    AssembleFails(pair, x, fair, pv, rows, f);
    var rd := RateAt(x.domestic, x.maturityYears).value;
    var rf := RateAt(x.foreign, x.maturityYears).value;
    PricingLines(pair, x, fair, pv, rd, rf, CurvePointsText(x.domestic, f, 5), CurvePointsText(x.foreign, f, 5),
                 ScenarioText(rows, f, 6), f);
  }

  lemma PricingLines(pair: string, x: Inputs, fair: real, pv: real, domesticRate: real, foreignRate: real,
                     domesticTable: string, foreignTable: string, scenarioTable: string, f: Formats)
    ensures var lines := NoteLines(pair, x, fair, pv, domesticRate, foreignRate, domesticTable, foreignTable,
                                   scenarioTable, f);
      && lines[20] == "- Fair forward: " + f.fixed6(fair)
      && lines[21] == "- PV (domestic): " + f.grouped2(pv)
      && lines[22] == "- Interpretation: " + PvExplanation(x.strike, fair, pv)
      && lines[25] == scenarioTable
  {
  }

  /** `forward_rate` on the note's two curves. */
  function NoteForward(exp: real -> real, x: Inputs): Result<real>
    requires IsExp(exp) && ValidInputs(x)
  {
    ForwardRate(exp, x.spot, None, None, Some(x.maturityYears), Some(x.domestic), Some(x.foreign))
  }

  /** What the note shows, or the first error raised building it: a missing
      fair forward, PV or scenario table is computed, in that order, and only
      when missing. */
  function NoteContent(exp: real -> real, pair: string, x: Inputs, fairForward: Option<real>, pv: Option<real>,
                       scenarios: Option<seq<ScenarioRow>>, f: Formats, g: real -> string,
                       spotShockPct: real, rateShockBps: real): (r: Result<seq<string>>)
    requires IsExp(exp) && ValidInputs(x)
    ensures r.Ok? ==> Laid(r.value)
  {
    var fair := if fairForward.Some? then Ok(fairForward.value) else NoteForward(exp, x);
    if fair.Err? then Err(fair.error)
    else
      var value := if pv.Some? then Ok(pv.value) else BasePv(exp, x);
      if value.Err? then Err(value.error)
      else
        var rows := if scenarios.Some? then Ok(scenarios.value)
                    else ScenarioTable(exp, x, spotShockPct, rateShockBps, g);
        if rows.Err? then Err(rows.error)
        else Assemble(pair, x, fair.value, value.value, rows.value, f)
  }

  /** `build_fx_forward_client_note`: the lines joined by line breaks. */
  function ClientNote(exp: real -> real, pair: string, x: Inputs, fairForward: Option<real>, pv: Option<real>,
                      scenarios: Option<seq<ScenarioRow>>, f: Formats, g: real -> string,
                      spotShockPct: real := 1.0, rateShockBps: real := 25.0): Result<string>
    requires IsExp(exp) && ValidInputs(x)
  {
    var content := NoteContent(exp, pair, x, fairForward, pv, scenarios, f, g, spotShockPct, rateShockBps);
    if content.Err? then Err(content.error) else Ok(Join("\n", content.value))
  }

  /** The line of the joined text at which entry `k` of `lines` starts. */
  ghost function Position(lines: seq<string>, k: nat): nat
    requires k <= |lines|
  {
    |SplitEach(lines[..k], '\n')|
  }

  /** `s` is line `p` of `text`. */
  ghost predicate LineAt(text: seq<string>, p: nat, s: string) {
    p < |text| && text[p] == s
  }

  /** An entry without a line break is a whole line of the joined text. */
  lemma EntryIsLine(lines: seq<string>, k: nat)
    requires k < |lines| && '\n' !in lines[k]
    ensures LineAt(Split(Join("\n", lines), '\n'), Position(lines, k), lines[k])
  {
    assert "\n" == ['\n'];
    JoinedPart(lines, k, '\n');
  }

  /** Later entries start on later lines. */
  lemma PositionIncreasing(lines: seq<string>, j: nat, k: nat)
    requires j < k <= |lines|
    ensures Position(lines, j) < Position(lines, k)
  {
    assert lines[..k] == lines[..j] + lines[j..k];
    SplitEachConcat(lines[..j], lines[j..k], '\n');
  }

  lemma SectionsPlain()
    ensures forall j :: 0 <= j < 5 ==> '\n' !in Sections[j]
  {
  }

  /** A laid-out line list shows the five headings, in order, as whole
      lines of the joined text. */
  lemma HeadingsInOrder(lines: seq<string>)
    requires Laid(lines)
    ensures forall j :: 0 <= j < 5 ==>
      LineAt(Split(Join("\n", lines), '\n'), Position(lines, SectionEntries[j]), Sections[j])
    ensures forall j :: 0 <= j < 4 ==> Position(lines, SectionEntries[j]) < Position(lines, SectionEntries[j + 1])
  {
    SectionsPlain();
    forall j | 0 <= j < 5
      ensures LineAt(Split(Join("\n", lines), '\n'), Position(lines, SectionEntries[j]), Sections[j])
    {
      EntryIsLine(lines, SectionEntries[j]);
    }
    forall j | 0 <= j < 4 ensures Position(lines, SectionEntries[j]) < Position(lines, SectionEntries[j + 1]) {
      PositionIncreasing(lines, SectionEntries[j], SectionEntries[j + 1]);
    }
  }

  /** Line `p[j]` of `text` is the j-th heading, and the lines rise with j. */
  ghost predicate SectionsAt(text: seq<string>, p: seq<nat>) {
    && |p| == 5
    && (forall j :: 0 <= j < 4 ==> p[j] < p[j + 1])
    && (forall j :: 0 <= j < 5 ==> LineAt(text, p[j], Sections[j]))
  }

  /** Every note that is built holds, as whole lines and in this order, the
      headings Trade Summary, Market Snapshot, Pricing Summary, Scenario
      Summary (Top 6) and Next Steps; `p` is where they stand. */
  lemma NoteSections(exp: real -> real, pair: string, x: Inputs, fairForward: Option<real>, pv: Option<real>,
                     scenarios: Option<seq<ScenarioRow>>, f: Formats, g: real -> string,
                     spotShockPct: real, rateShockBps: real)
    returns (p: seq<nat>)
    requires IsExp(exp) && ValidInputs(x)
    ensures var note := ClientNote(exp, pair, x, fairForward, pv, scenarios, f, g, spotShockPct, rateShockBps);
      note.Ok? ==> SectionsAt(Split(note.value, '\n'), p)
  {
    var content := NoteContent(exp, pair, x, fairForward, pv, scenarios, f, g, spotShockPct, rateShockBps);
    p := [];
    if content.Ok? {
      p := JoinedSections(content.value);
    }
  }

  /** The heading lines of a laid-out line list, once joined. */
  lemma JoinedSections(lines: seq<string>) returns (p: seq<nat>)
    requires Laid(lines)
    ensures SectionsAt(Split(Join("\n", lines), '\n'), p)
  {
    HeadingsInOrder(lines);
    p := seq(5, j requires 0 <= j < 5 => Position(lines, SectionEntries[j]));
  }

  /** A missing fair forward is priced with `forward_rate`: its error is the
      note's, and otherwise the note is the one given that value. */
  lemma NoteFillsForward(exp: real -> real, pair: string, x: Inputs, pv: Option<real>,
                         scenarios: Option<seq<ScenarioRow>>, f: Formats, g: real -> string,
                         spotShockPct: real, rateShockBps: real)
    requires IsExp(exp) && ValidInputs(x)
    ensures var note := NoteContent(exp, pair, x, None, pv, scenarios, f, g, spotShockPct, rateShockBps);
      var fair := NoteForward(exp, x);
      && (fair.Err? ==> note == Err(fair.error))
      && (fair.Ok? ==> note == NoteContent(exp, pair, x, Some(fair.value), pv, scenarios, f, g, spotShockPct, rateShockBps))
  {
  }

  /** A missing PV is priced with `price_fx_forward` once the fair forward
      is known. */
  lemma NoteFillsPv(exp: real -> real, pair: string, x: Inputs, fair: real,
                    scenarios: Option<seq<ScenarioRow>>, f: Formats, g: real -> string,
                    spotShockPct: real, rateShockBps: real)
    requires IsExp(exp) && ValidInputs(x)
    ensures var note := NoteContent(exp, pair, x, Some(fair), None, scenarios, f, g, spotShockPct, rateShockBps);
      var value := BasePv(exp, x);
      && (value.Err? ==> note == Err(value.error))
      && (value.Ok? ==> note == NoteContent(exp, pair, x, Some(fair), Some(value.value), scenarios, f, g, spotShockPct, rateShockBps))
  {
  }

  /** A missing scenario table is built with `fx_forward_scenarios` and the
      two shocks once fair forward and PV are known. */
  lemma NoteFillsScenarios(exp: real -> real, pair: string, x: Inputs, fair: real, pv: real,
                           f: Formats, g: real -> string, spotShockPct: real, rateShockBps: real)
    requires IsExp(exp) && ValidInputs(x)
    ensures var note := NoteContent(exp, pair, x, Some(fair), Some(pv), None, f, g, spotShockPct, rateShockBps);
      var rows := ScenarioTable(exp, x, spotShockPct, rateShockBps, g);
      && (rows.Err? ==> note == Err(rows.error))
      && (rows.Ok? ==> note == NoteContent(exp, pair, x, Some(fair), Some(pv), Some(rows.value), f, g, spotShockPct, rateShockBps))
  {
  }

  /** With all three values supplied nothing is priced: the note is the
      assembly of exactly those values. */
  lemma NoteUsesSupplied(exp: real -> real, pair: string, x: Inputs, fair: real, pv: real,
                         rows: seq<ScenarioRow>, f: Formats, g: real -> string,
                         spotShockPct: real, rateShockBps: real)
    requires IsExp(exp) && ValidInputs(x)
    ensures NoteContent(exp, pair, x, Some(fair), Some(pv), Some(rows), f, g, spotShockPct, rateShockBps)
         == Assemble(pair, x, fair, pv, rows, f)
  {
  }
}
