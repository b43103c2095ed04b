/**
 * assets/views/asset.py: the CSV produced by export_current_data, one
 * 24-cell line per main asset, and the filters asset_list reads from the
 * query string.
 *
 * An asset is seen as these views read it: nullable text fields are folded
 * into "" (the views write `value or ""`), and a missing year is 0. The
 * asset sequence is the queryset in its iteration order; `id` is the pk.
 */
module Export {
  import opened Base
  import opened Text
  import Upload

  datatype Person = Person(id: nat, firstName: string, lastName: string)

  datatype Asset = Asset(
    id: nat,
    typeId: Option<nat>,
    typeName: Option<string>,
    holder: Option<Person>,
    makeModel: string,
    serialNumber: string,
    ram: string, hdd: string, ssd: string, os: string,
    year: nat,
    condition: string,
    remarks: string)

  /** The three cells one peripheral contributes: make/model, serial number and year. */
  datatype Group = Group(makeModel: string, serialNumber: string, year: string)

  const BlankGroup := Group("", "", "")

  const PeripheralTypes: seq<string> := ["Monitor", "Keyboard and Mouse", "UPS", "Printer", "Speaker"]

  const HeaderCells: seq<string> := [
    "Sl.No.", "Alloted To", "Device", "Make model", "Serial No.", "PROCESSOR", "RAM", "HDD", "SSD", "OS",
    "Year of Purchase", "Monitor", "Monitor Serial number", "Monitor Year of Purchase",
    "Keyboard and Mouse", "UPS", "UPS Serial number", "UPS Year of Purchase",
    "Printer", "Printer Serial number", "Printer Year of Purchase", "Speaker",
    "Condition", "REMARKS"]

  /** The export uses the import's peripheral list and the sample file's header. */
  lemma SameColumnsAsImport()
    ensures PeripheralTypes == Upload.Peripherals
    ensures HeaderCells == Upload.SampleHeader && |HeaderCells| == 24
  {
  }

  // ---------------------------------------------------------------------
  // Which assets become lines

  /** A main asset: its type is missing or its name is not a peripheral name. */
  predicate IsMain(a: Asset) {
    a.typeName.None? || a.typeName.value !in PeripheralTypes
  }

  /** The main_assets queryset, in iteration order. */
  function MainAssets(assets: seq<Asset>): (main: seq<Asset>)
    ensures |main| <= |assets|
    ensures forall k :: 0 <= k < |main| ==> IsMain(main[k]) && main[k] in assets
  {
    if assets == [] then []
    else
      var a := assets[|assets| - 1];
      MainAssets(assets[..|assets| - 1]) + (if IsMain(a) then [a] else [])
  }

  /** No main asset is left out. */
  lemma {:induction false} MainAssetsComplete(assets: seq<Asset>, k: nat)
    requires k < |assets| && IsMain(assets[k])
    ensures assets[k] in MainAssets(assets)
  {
    if k < |assets| - 1 {
      MainAssetsComplete(assets[..|assets| - 1], k);
    }
  }

  // ---------------------------------------------------------------------
  // The cells of one line

  /** "first last" of the holder, "" for an unassigned asset. */
  function HolderCell(a: Asset): string {
    if a.holder.Some? then a.holder.value.firstName + " " + a.holder.value.lastName else ""
  }

  function TypeCell(a: Asset): string {
    if a.typeName.Some? then a.typeName.value else ""
  }

  /** str(year) when the year is set and non-zero, else "". */
  function YearCell(year: nat): (cell: string)
    ensures cell == "" <==> year == 0
  {
    if year != 0 then IntToString(year) else ""
  }

  /** "<type>: <value>" when both are present, else the bare value. */
  function CompositeCell(typeName: Option<string>, value: string): (cell: string)
    ensures typeName.None? || value == "" ==> cell == value
    ensures typeName.Some? && value != "" ==> |cell| == |typeName.value| + 2 + |value|
  {
    if typeName.Some? && value != "" then typeName.value + ": " + value else value
  }

  predicate HeldOfType(a: Asset, holderId: nat, typeName: string) {
    a.holder.Some? && a.holder.value.id == holderId && a.typeName == Some(typeName)
  }

  /** Asset.objects.filter(alloted_to=holder, type__name=typeName).order_by("id").first() */
  function LowestHeld(assets: seq<Asset>, holderId: nat, typeName: string): (r: Option<Asset>)
    ensures r.Some? ==> r.value in assets && HeldOfType(r.value, holderId, typeName)
    ensures r.Some? ==> forall k :: 0 <= k < |assets| && HeldOfType(assets[k], holderId, typeName) ==> r.value.id <= assets[k].id
    ensures r.None? <==> forall k :: 0 <= k < |assets| ==> !HeldOfType(assets[k], holderId, typeName)
  {
    if assets == [] then None
    else
      var init := assets[..|assets| - 1];
      var a := assets[|assets| - 1];
      var r0 := LowestHeld(init, holderId, typeName);
      assert forall k :: 0 <= k < |init| ==> init[k] == assets[k];
      if !HeldOfType(a, holderId, typeName) then r0
      else if r0.None? || a.id < r0.value.id then Some(a)
      else r0
  }

  function GroupOf(p: Option<Asset>): Group {
    if p.None? then BlankGroup else Group(p.value.makeModel, p.value.serialNumber, YearCell(p.value.year))
  }

  /** The group of cells for each peripheral type, in PeripheralTypes order. */
  function PeripheralGroups(assets: seq<Asset>, a: Asset): (gs: seq<Group>)
    ensures |gs| == |PeripheralTypes|
    ensures a.holder.None? ==> forall k :: 0 <= k < |gs| ==> gs[k] == BlankGroup
  {
    GroupsFor(assets, a.holder, PeripheralTypes)
  }

  function GroupsFor(assets: seq<Asset>, holder: Option<Person>, names: seq<string>): (gs: seq<Group>)
    ensures |gs| == |names|
    ensures holder.None? ==> forall k :: 0 <= k < |gs| ==> gs[k] == BlankGroup
    ensures holder.Some? ==> forall k :: 0 <= k < |gs| ==> gs[k] == GroupOf(LowestHeld(assets, holder.value.id, names[k]))
  {
    if names == [] then []
    else
      GroupsFor(assets, holder, names[..|names| - 1]) +
        [if holder.None? then BlankGroup else GroupOf(LowestHeld(assets, holder.value.id, names[|names| - 1]))]
  }

  /**
   * The loop that fills peripheral_values: for a held asset, the lowest-id
   * asset of each peripheral type held by the same employee, blank when
   * there is none; all blank for an unassigned asset.
   */
  method FillPeripherals(assets: seq<Asset>, a: Asset) returns (groups: seq<Group>)
    ensures groups == PeripheralGroups(assets, a)
  {
    groups := [];
    var i := 0;
    while i < |PeripheralTypes|
      invariant 0 <= i <= |PeripheralTypes|
      invariant groups == GroupsFor(assets, a.holder, PeripheralTypes[..i])
    {
      var g := BlankGroup;
      if a.holder.Some? {
        g := GroupOf(LowestHeld(assets, a.holder.value.id, PeripheralTypes[i]));
      }
      groups := groups + [g];
      assert PeripheralTypes[..i + 1][..i] == PeripheralTypes[..i];
      i := i + 1;
    }
    assert PeripheralTypes[..i] == PeripheralTypes;
  }

  /** The 24 cells of the line for asset `a`, numbered `counter`, given its peripheral groups. */
  function RowCells(a: Asset, counter: nat, groups: seq<Group>): (cells: seq<string>)
    requires |groups| == 5
    ensures |cells| == |HeaderCells|
  {
    [IntToString(counter), HolderCell(a), TypeCell(a), TypeCell(a), a.serialNumber, a.makeModel,
     a.ram, a.hdd, a.ssd, a.os, YearCell(a.year),
     groups[0].makeModel, groups[0].serialNumber, groups[0].year,
     groups[1].makeModel,
     groups[2].makeModel, groups[2].serialNumber, groups[2].year,
     groups[3].makeModel, groups[3].serialNumber, groups[3].year,
     groups[4].makeModel,
     CompositeCell(a.typeName, a.condition), CompositeCell(a.typeName, a.remarks)]
  }

  /** ",".join(row) + "\n" */
  function Line(cells: seq<string>): string {
    Join(cells, ",") + "\n"
  }

  /** The data lines for `main`, numbered from `first`; `assets` is the table searched for peripherals. */
  function Lines(assets: seq<Asset>, main: seq<Asset>, first: nat): string
    decreases |main|
  {
    if main == [] then ""
    else Lines(assets, main[..|main| - 1], first) +
         Line(RowCells(main[|main| - 1], first + |main| - 1, PeripheralGroups(assets, main[|main| - 1])))
  }

  /** The row of the k-th main asset, as the file holds it. */
  function ExportRow(assets: seq<Asset>, k: nat): seq<string>
    requires k < |MainAssets(assets)|
  {
    var a := MainAssets(assets)[k];
    RowCells(a, k + 1, PeripheralGroups(assets, a))
  }

  /** The whole response body: the header line, then one line per main asset. */
  function ExportText(assets: seq<Asset>): string {
    Line(HeaderCells) + Lines(assets, MainAssets(assets), 1)
  }

  /** The loop over main_assets: one line per asset, `counter` running from 1. */
  method WriteLines(assets: seq<Asset>, main: seq<Asset>) returns (output: string)
    ensures output == Lines(assets, main, 1)
  {
    output := "";
    var counter := 1;
    var i := 0;
    while i < |main|
      invariant 0 <= i <= |main|
      invariant counter == i + 1
      invariant output == Lines(assets, main[..i], 1)
    {
      var a := main[i];
      var groups := FillPeripherals(assets, a);
      var row := RowCells(a, counter, groups);
      output := output + Line(row);
      LinesStep(assets, main, i);
      counter := counter + 1;
      i := i + 1;
    }
    assert main[..i] == main;
  }

  /**
   * export_current_data: non-staff users are refused (None stands for
   * the 403 response); otherwise the header and one line per main asset,
   * numbered from 1, are written to the buffer.
   */
  method ExportCurrentData(isStaff: bool, assets: seq<Asset>) returns (body: Option<string>)
    ensures !isStaff ==> body.None?
    ensures isStaff ==> body == Some(ExportText(assets))
  {
    if !isStaff {
      return None;
    }
    var header := Line(HeaderCells);
    var lines := WriteLines(assets, MainAssets(assets));
    return Some(header + lines);
  }

  /** One more main asset adds its line at the end. */
  lemma LinesStep(assets: seq<Asset>, main: seq<Asset>, i: nat)
    requires i < |main|
    ensures Lines(assets, main[..i + 1], 1) ==
            Lines(assets, main[..i], 1) + Line(RowCells(main[i], i + 1, PeripheralGroups(assets, main[i])))
  {
    assert main[..i + 1][..i] == main[..i];
  }

  // ---------------------------------------------------------------------
  // What a line says

  /** The cells of a line: its number, its type twice, make_model under PROCESSOR, the year. */
  lemma RowCellsFacts(a: Asset, counter: nat, groups: seq<Group>)
    requires |groups| == 5
    ensures var row := RowCells(a, counter, groups);
            && |row| == 24
            && Upload.ParseYear(row[0]) == counter
            && row[2] == row[3] == TypeCell(a)
            && row[5] == a.makeModel
            && (row[10] == "" <==> a.year == 0)
  {
    var row := RowCells(a, counter, groups);
    assert row[0] == IntToString(counter);
    Upload.ParseYearOfString(counter);
    assert row[10] == YearCell(a.year);
  }

  /** An unassigned asset's line has every peripheral cell blank. */
  lemma RowCellsBlank(a: Asset, counter: nat, groups: seq<Group>)
    requires |groups| == 5 && a.holder.None?
    requires forall k :: 0 <= k < 5 ==> groups[k] == BlankGroup
    ensures var row := RowCells(a, counter, groups);
            forall c :: 11 <= c < 22 ==> row[c] == ""
  {
  }

  /** Each line is numbered by its position, names its type twice, and puts make_model under PROCESSOR. */
  lemma ExportRowCells(assets: seq<Asset>, k: nat)
    requires k < |MainAssets(assets)|
    ensures var row := ExportRow(assets, k);
            var a := MainAssets(assets)[k];
            && |row| == 24
            && Upload.ParseYear(row[0]) == k + 1
            && row[2] == row[3] == TypeCell(a)
            && row[5] == a.makeModel
            && (row[10] == "" <==> a.year == 0)
            && (a.holder.None? ==> forall c :: 11 <= c < 22 ==> row[c] == "")
  {
    var a := MainAssets(assets)[k];
    RowCellsFacts(a, k + 1, PeripheralGroups(assets, a));
    if a.holder.None? {
      RowCellsBlank(a, k + 1, PeripheralGroups(assets, a));
    }
  }

  /** The lines of the main assets, counted from the first line after the header. */
  lemma {:induction false} LinesOfRows(assets: seq<Asset>, main: seq<Asset>)
    requires main <= MainAssets(assets)
    ensures Lines(assets, main, 1) == RowsText(assets, |main|)
  {
    if main != [] {
      LinesOfRows(assets, main[..|main| - 1]);
    }
  }

  /** The lines of rows 0 .. n - 1, each by ExportRow. */
  function RowsText(assets: seq<Asset>, n: nat): string
    requires n <= |MainAssets(assets)|
  {
    if n == 0 then "" else RowsText(assets, n - 1) + Line(ExportRow(assets, n - 1))
  }

  /** The body is the header followed by the lines of ExportRow 0, 1, 2, ... */
  lemma ExportTextRows(assets: seq<Asset>)
    ensures ExportText(assets) == Line(HeaderCells) + RowsText(assets, |MainAssets(assets)|)
  {
    LinesOfRows(assets, MainAssets(assets));
  }

  /** Without commas in the cells, splitting a line at commas gives its cells back. */
  lemma LineCells(cells: seq<string>)
    requires |cells| >= 1 && forall k :: 0 <= k < |cells| ==> ',' !in cells[k]
    ensures SplitOn(Line(cells)[..|Line(cells)| - 1], ',') == cells
  {
    var line := Line(cells);
    assert line[..|line| - 1] == Join(cells, ",");
    SplitOnJoin(cells, ',');
  }

  // ---------------------------------------------------------------------
  // Round trips with the importer

  /** The year cell reads back as the year, 0 for a blank cell. */
  lemma YearCellRoundTrip(year: nat)
    ensures Upload.ParseYear(YearCell(year)) == year
  {
    if year != 0 {
      Upload.ParseYearOfString(year);
    }
  }

  /** A clean "<type>: <value>" cell parses back to the single entry the importer looks up. */
  lemma CompositeCellRoundTrip(name: string, value: string, default: string)
    requires ':' !in name && ';' !in name && ';' !in value && Trimmed(value) && value != ""
    ensures Upload.Lookup(Upload.CompositeOf(CompositeCell(Some(name), value)), Lower(Strip(name)), default) == value
  {
    Upload.CompositeOfEntry(name, value);
  }

  /** The Condition cell of a typed asset gives its condition back for its Device cell. */
  lemma ConditionCellRoundTrip(a: Asset)
    requires a.typeName.Some? && ':' !in a.typeName.value && ';' !in a.typeName.value
    requires ';' !in a.condition && Trimmed(a.condition) && a.condition != ""
    ensures Upload.Lookup(Upload.CompositeOf(CompositeCell(a.typeName, a.condition)),
                          Lower(Strip(TypeCell(a))), "working") == a.condition
  {
    CompositeCellRoundTrip(a.typeName.value, a.condition, "working");
  }

  /**
   * The holder cell splits back into first and last name when the first
   * name is one word, including the one-word employee the importer creates
   * with an empty last name (the cell is then "first ").
   */
  lemma HolderCellRoundTrip(a: Asset, lastWords: seq<string>)
    requires a.holder.Some? && a.holder.value.firstName != "" && NoSpace(a.holder.value.firstName)
    requires forall k :: 0 <= k < |lastWords| ==> lastWords[k] != "" && NoSpace(lastWords[k])
    requires a.holder.value.lastName == Join(lastWords, " ")
    ensures Upload.SplitName(HolderCell(a)) == Some((a.holder.value.firstName, a.holder.value.lastName))
  {
    var first := a.holder.value.firstName;
    Upload.SplitNameOfJoin(first, lastWords);
    if lastWords == [] {
      var cell := first + " ";
      assert HolderCell(a) == cell;
      assert TrimLeft(cell) == cell;
      assert cell[..|cell| - 1] == first;
      StripOfNoSpace(first);
      assert Strip(cell) == Strip(first);
    } else {
      assert Join([first] + lastWords, " ") == first + " " + Join(lastWords, " ");
    }
  }

  // ---------------------------------------------------------------------
  // asset_list filters

  /** The q filter on the stripped term: make_model, serial number, type name or holder's names, case-insensitively. */
  predicate SearchMatch(a: Asset, q: string) {
    var t := Strip(q);
    || t == ""
    || IContains(a.makeModel, t)
    || IContains(a.serialNumber, t)
    || (a.typeName.Some? && IContains(a.typeName.value, t))
    || (a.holder.Some? && (IContains(a.holder.value.firstName, t) || IContains(a.holder.value.lastName, t)))
  }

  /** The type filter: an integer keeps that type id; absent, blank or not an integer, it is ignored. */
  predicate TypeMatch(a: Asset, typeParam: string) {
    typeParam == "" || ParseInt(typeParam).None? ||
    (a.typeId.Some? && a.typeId.value == ParseInt(typeParam).value)
  }

  /** The words that ask for every assigned asset. */
  predicate AssignedKeyword(p: string) {
    var l := Lower(p);
    l == "1" || l == "true" || l == "yes" || l == "assigned"
  }

  /** The assigned filter: a keyword keeps held assets, an integer the assets of that employee, anything else is ignored. */
  predicate AssignedMatch(a: Asset, assignedParam: string) {
    if assignedParam == "" then true
    else if AssignedKeyword(assignedParam) then a.holder.Some?
    else ParseInt(assignedParam).None? ||
         (a.holder.Some? && a.holder.value.id == ParseInt(assignedParam).value)
  }

  /** The status filter: condition__iexact. */
  predicate StatusMatch(a: Asset, status: string) {
    status == "" || Lower(a.condition) == Lower(status)
  }

  predicate Listed(a: Asset, q: string, typeParam: string, assignedParam: string, status: string) {
    SearchMatch(a, q) && TypeMatch(a, typeParam) && AssignedMatch(a, assignedParam) && StatusMatch(a, status)
  }

  /** The assets asset_list shows, in queryset order. */
  function ListAssets(assets: seq<Asset>, q: string, typeParam: string, assignedParam: string, status: string): (r: seq<Asset>)
    ensures |r| <= |assets|
    ensures forall k :: 0 <= k < |r| ==> r[k] in assets && Listed(r[k], q, typeParam, assignedParam, status)
  {
    if assets == [] then []
    else
      var a := assets[|assets| - 1];
      ListAssets(assets[..|assets| - 1], q, typeParam, assignedParam, status) +
        (if Listed(a, q, typeParam, assignedParam, status) then [a] else [])
  }

  /** Every asset that passes all four filters is shown. */
  lemma {:induction false} ListAssetsComplete(assets: seq<Asset>, q: string, typeParam: string, assignedParam: string, status: string, k: nat)
    requires k < |assets| && Listed(assets[k], q, typeParam, assignedParam, status)
    ensures assets[k] in ListAssets(assets, q, typeParam, assignedParam, status)
  {
    if k < |assets| - 1 {
      ListAssetsComplete(assets[..|assets| - 1], q, typeParam, assignedParam, status, k);
    }
  }

  /** With no parameters at all, every asset is listed. */
  lemma {:induction false} ListAssetsUnfiltered(assets: seq<Asset>)
    ensures ListAssets(assets, "", "", "", "") == assets
  {
    if assets != [] {
      ListAssetsUnfiltered(assets[..|assets| - 1]);
    }
  }

  /** A type parameter that is not an integer lists exactly what no type parameter lists. */
  lemma {:induction false} TypeParamIgnored(assets: seq<Asset>, q: string, typeParam: string, assignedParam: string, status: string)
    requires ParseInt(typeParam).None?
    ensures ListAssets(assets, q, typeParam, assignedParam, status) == ListAssets(assets, q, "", assignedParam, status)
  {
    if assets != [] {
      TypeParamIgnored(assets[..|assets| - 1], q, typeParam, assignedParam, status);
    }
  }

  /** An assigned parameter that is neither a keyword nor an integer lists what no parameter lists. */
  lemma {:induction false} AssignedParamIgnored(assets: seq<Asset>, q: string, typeParam: string, assignedParam: string, status: string)
    requires !AssignedKeyword(assignedParam) && ParseInt(assignedParam).None?
    ensures ListAssets(assets, q, typeParam, assignedParam, status) == ListAssets(assets, q, typeParam, "", status)
  {
    if assets != [] {
      AssignedParamIgnored(assets[..|assets| - 1], q, typeParam, assignedParam, status);
    }
  }

  /**
   * The text "1" is read as the keyword, not as an employee id: it keeps the
   * assets of every holder. Employee 1 is reached through another spelling
   * that int() reads as 1, such as "01", and assigned=2 keeps only employee
   * 2's assets.
   */
  lemma AssignedOneIsKeyword(a: Asset)
    ensures AssignedMatch(a, "1") <==> a.holder.Some?
    ensures AssignedMatch(a, "01") <==> a.holder.Some? && a.holder.value.id == 1
    ensures AssignedMatch(a, "2") <==> a.holder.Some? && a.holder.value.id == 2
  {
    assert Lower("1") == "1" && AssignedKeyword("1");
    assert Lower("2") == "2" && !AssignedKeyword("2");
    assert Lower("01") == "01" && !AssignedKeyword("01");
    assert ParseInt("2") == Some(2) by { Upload.ParseYearOfString(2); }
    assert ParseInt("01") == Some(1) by {
      StripOfNoSpace("01");
      assert AllDigits("01");
      assert "01"[..1] == "0" && "0"[..0] == "";
      assert DigitsValue("01") == 1;
    }
  }
}
