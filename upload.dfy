/**
 * CSV bulk import (assets/views/upload.py): the composite-field parser,
 * year coercion, the "Alloted To" name split, process_peripheral, the
 * per-row body of bulk_upload and the whole-file loop inside one
 * all-or-nothing transaction, and the sample CSV served for download.
 *
 * The database is a Store object holding three tables as sequences; the
 * id of a record is its position. The records the database refuses to insert
 * (a constraint it enforces) are a parameter, `refused`.
 */
module Upload {
  import opened Base
  import opened Text

  /** One CSV record as csv.DictReader yields it: header name to cell. */
  type Row = map<string, string>

  /** row.get(name, "") */
  function Cell(row: Row, name: string): string {
    if name in row then row[name] else ""
  }

  /** mapping.get(key, default) */
  function Lookup(m: map<string, string>, key: string, default: string): string {
    if key in m then m[key] else default
  }

  // ---------------------------------------------------------------------
  // parse_composite_field

  /** The key a part "<device>: <value>" contributes: before the first colon, stripped, lowercased. */
  function PartKey(part: string): string
    requires ':' in part
  {
    Lower(Strip(part[..IndexOf(part, ':')]))
  }

  /** The value a part contributes: everything after the first colon, stripped. */
  function PartValue(part: string): string
    requires ':' in part
  {
    Strip(part[IndexOf(part, ':') + 1..])
  }

  predicate HasEntry(part: string, key: string) {
    ':' in part && PartKey(part) == key
  }

  /** The mapping the parts build when read left to right, later entries overwriting earlier ones. */
  function CompositeOfParts(parts: seq<string>): map<string, string> {
    if parts == [] then map[]
    else
      AddPart(CompositeOfParts(parts[..|parts| - 1]), parts[|parts| - 1])
  }

  /** One step of the parse: a part with a colon sets its key. */
  function AddPart(m: map<string, string>, part: string): map<string, string> {
    if ':' in part then m[PartKey(part) := PartValue(part)] else m
  }

  /** What parse_composite_field returns for a cell. */
  function CompositeOf(field: string): map<string, string> {
    if field == "" then map[] else CompositeOfParts(SplitOn(field, ';'))
  }

  method ParseCompositeField(field: string) returns (mapping: map<string, string>)
    ensures mapping == CompositeOf(field)
    ensures field == "" ==> mapping == map[]
  {
    mapping := map[];
    if field != "" {
      var parts := SplitOn(field, ';');
      var i := 0;
      while i < |parts|
        invariant 0 <= i <= |parts|
        invariant mapping == CompositeOfParts(parts[..i])
      {
        mapping := AddPart(mapping, parts[i]);
        assert parts[..i + 1][..i] == parts[..i];
        i := i + 1;
      }
      assert parts[..|parts|] == parts;
    }
  }

  /** A key is present exactly when some part with a colon carries it. */
  lemma {:induction false} CompositeKeys(parts: seq<string>, key: string)
    ensures key in CompositeOfParts(parts) <==>
            exists i :: 0 <= i < |parts| && HasEntry(parts[i], key)
  {
    if parts != [] {
      var init := parts[..|parts| - 1];
      CompositeKeys(init, key);
      assert forall i :: 0 <= i < |init| ==> init[i] == parts[i];
      if key in CompositeOfParts(init) {
        var i :| 0 <= i < |init| && HasEntry(init[i], key);
        assert HasEntry(parts[i], key);
      }
    }
  }

  /** When a key repeats, the value of its last occurrence wins. */
  lemma {:induction false} CompositeLastWins(parts: seq<string>, i: nat)
    requires i < |parts| && ':' in parts[i]
    requires forall j :: i < j < |parts| ==> !HasEntry(parts[j], PartKey(parts[i]))
    ensures PartKey(parts[i]) in CompositeOfParts(parts)
    ensures CompositeOfParts(parts)[PartKey(parts[i])] == PartValue(parts[i])
  {
    var init := parts[..|parts| - 1];
    if i < |parts| - 1 {
      assert forall j :: i < j < |init| ==> init[j] == parts[j];
      CompositeLastWins(init, i);
      assert !HasEntry(parts[|parts| - 1], PartKey(parts[i]));
    }
  }

  /** The first colon of "<name>: <value>" is the one after the name. */
  lemma PartOf(name: string, value: string)
    requires ':' !in name
    ensures var part := name + ": " + value;
            ':' in part && IndexOf(part, ':') == |name| &&
            part[..|name|] == name && part[|name| + 1..] == " " + value
  {
    var part := name + ": " + value;
    assert part[|name|] == ':';
    assert part[..|name|] == name;
    assert part[|name| + 1..] == " " + value;
  }

  lemma StripAfterSpace(value: string)
    requires Trimmed(value)
    ensures Strip(" " + value) == value
  {
    assert (" " + value)[1..] == value;
    assert TrimLeft(" " + value) == TrimLeft(value) == value;
    StripOfTrimmed(value);
  }

  /** A one-entry composite cell parses back to its single entry. */
  lemma CompositeOfEntry(name: string, value: string)
    requires ':' !in name && ';' !in name && ';' !in value && Trimmed(value)
    ensures CompositeOf(name + ": " + value) == map[Lower(Strip(name)) := value]
  {
    var part := name + ": " + value;
    PartOf(name, value);
    StripAfterSpace(value);
    assert ';' !in part by {
      forall k | 0 <= k < |part| ensures part[k] != ';' {
        if k < |name| { assert part[k] == name[k]; }
        else if k >= |name| + 2 { assert part[k] == value[k - |name| - 2]; }
      }
    }
    SplitOnNoSep(part, ';');
    assert [part][..0] == [];
    assert PartKey(part) == Lower(Strip(name));
    assert PartValue(part) == value;
    assert CompositeOfParts([part]) == AddPart(map[], part);
  }

  // ---------------------------------------------------------------------
  // Year coercion and name split

  /**
   * `int(yop) if yop else 0` on the stripped cell, a ValueError also giving
   * 0. ParseInt strips the cell itself and refuses the empty string.
   */
  function ParseYear(cell: string): (year: int)
    ensures ParseInt(cell).Some? ==> year == ParseInt(cell).value
    ensures ParseInt(cell).None? ==> year == 0
  {
    match ParseInt(cell)
    case Some(v) => v
    case None => 0
  }

  lemma ParseYearOfString(year: int)
    ensures ParseYear(IntToString(year)) == year
  {
    ParseIntOfString(year);
  }

  /**
   * The "Alloted To" cell as (first name, last name): the first
   * whitespace-separated token, then the remaining tokens joined by single
   * spaces. A blank cell names no employee.
   */
  function SplitName(cell: string): (r: Option<(string, string)>)
    ensures r.None? <==> Strip(cell) == ""
    ensures r.Some? ==> r.value.0 != "" && NoSpace(r.value.0)
  {
    var allotedTo := Strip(cell);
    if allotedTo == "" then None
    else
      var names := Words(allotedTo);
      WordsOfNonBlank(allotedTo);
      Some((names[0], if |names| > 1 then Join(names[1..], " ") else ""))
  }

  /** "first last" with a one-word first name splits back into the two parts. */
  lemma SplitNameOfJoin(first: string, lastWords: seq<string>)
    requires first != "" && NoSpace(first)
    requires forall k :: 0 <= k < |lastWords| ==> lastWords[k] != "" && NoSpace(lastWords[k])
    ensures SplitName(Join([first] + lastWords, " ")) == Some((first, Join(lastWords, " ")))
  {
    var ws := [first] + lastWords;
    assert forall k :: 0 <= k < |ws| ==> ws[k] != "" && NoSpace(ws[k]);
    var s := Join(ws, " ");
    JoinOfWordsTrimmed(ws);
    StripOfTrimmed(s);
    WordsOfJoin(ws);
    SplitNameOfWords(s, ws);
    assert ws[1..] == lastWords;
  }

  /** A trimmed, non-blank cell splits at its first word. */
  lemma SplitNameOfWords(s: string, ws: seq<string>)
    requires s != "" && Strip(s) == s && Words(s) == ws && |ws| >= 1
    ensures SplitName(s) == Some((ws[0], Join(ws[1..], " ")))
  {
    if |ws| == 1 {
      assert ws[1..] == [];
    }
  }

  /**
   * No word of the cell is lost: first and last name, put back together
   * with one space (none when the last name is empty), are the cell's words
   * joined by single spaces.
   */
  lemma SplitNameKeepsWords(cell: string)
    requires SplitName(cell).Some?
    ensures var (first, last) := SplitName(cell).value;
            (if last == "" then first else first + " " + last) == Join(Words(Strip(cell)), " ")
  {
    var t := Strip(cell);
    var ws := Words(t);
    WordsOfNonBlank(t);
    if |ws| > 1 {
      var rest := ws[1..];
      assert forall k :: 0 <= k < |rest| ==> rest[k] == ws[k + 1];
      JoinOfWordsTrimmed(rest);
    }
  }

  /** Words joined by single spaces have no whitespace at either end. */
  lemma {:induction false} JoinOfWordsTrimmed(ws: seq<string>)
    requires |ws| >= 1 && forall k :: 0 <= k < |ws| ==> ws[k] != "" && NoSpace(ws[k])
    ensures var s := Join(ws, " "); s != "" && Trimmed(s)
  {
    if |ws| == 1 {
      assert Join(ws, " ") == ws[0];
    } else {
      var rest := ws[1..];
      assert forall k :: 0 <= k < |rest| ==> rest[k] == ws[k + 1];
      JoinOfWordsTrimmed(rest);
      var t := Join(rest, " ");
      var s := ws[0] + " " + t;
      assert Join(ws, " ") == s;
      assert s[0] == ws[0][0];
      assert s[|s| - 1] == t[|t| - 1];
    }
  }

  // ---------------------------------------------------------------------
  // Records the import writes

  datatype Employee = Employee(
    firstName: string, lastName: string,
    designation: string, section: string,
    email: Option<string>, phone: Option<string>)

  /** The employee get_or_create inserts when no one has that name. */
  function NewEmployee(first: string, last: string): Employee {
    Employee(first, last, "Unknown", "", None, None)
  }

  datatype AssetType = AssetType(name: string)

  /** The configuration columns a main device carries. */
  datatype Config = Config(ram: string, hdd: string, ssd: string, os: string)

  /** The fields of an asset that the CSV row determines. `config` is None when left at the field defaults. */
  datatype Details = Details(
    makeModel: string, serialNumber: Option<string>, config: Option<Config>,
    yearOfPurchase: int, condition: string, remarks: string)

  datatype Asset = Asset(typeId: nat, holder: Option<nat>, details: Details)

  /** An asset a row asks for: its type's name and its row-derived fields. */
  datatype Created = Created(typeName: string, details: Details)

  /** A stored asset as the import describes it: its type's name, its holder and its row-derived fields. */
  datatype Stored = Stored(typeName: string, holder: Option<nat>, details: Details)

  datatype RowError = EmployeeError(line: nat) | MissingDevice(line: nat) | MainAssetError(line: nat)

  datatype UploadResult =
    | DecodeError
    | Aborted
    | Done(created: nat, errors: seq<RowError>)

  /** The peripheral columns, in the order the import visits them. */
  const Peripherals: seq<string> := ["Monitor", "Keyboard and Mouse", "UPS", "Printer", "Speaker"]

  /** A stripped serial-number cell: blank becomes NULL. */
  function OptionalText(s: string): Option<string> {
    if s == "" then None else Some(s)
  }

  /** The fields of the row's main device. */
  function MainDetails(row: Row, cond: map<string, string>, rem: map<string, string>): Details {
    var device := Strip(Cell(row, "Device"));
    Details(
      Strip(Cell(row, "PROCESSOR")),
      OptionalText(Strip(Cell(row, "Serial No."))),
      Some(Config(Strip(Cell(row, "RAM")), Strip(Cell(row, "HDD")), Strip(Cell(row, "SSD")), Strip(Cell(row, "OS")))),
      ParseYear(Cell(row, "Year of Purchase")),
      Lookup(cond, Lower(device), "working"),
      Lookup(rem, Lower(device), ""))
  }

  /** The fields process_peripheral writes for the peripheral column `name`. */
  function PeripheralDetails(row: Row, name: string, cond: map<string, string>, rem: map<string, string>): Details {
    Details(
      Strip(Cell(row, name)),
      OptionalText(Strip(Cell(row, name + " Serial number"))),
      None,
      ParseYear(Cell(row, name + " Year of Purchase")),
      Lookup(cond, Lower(name), "working"),
      Lookup(rem, Lower(name), ""))
  }

  predicate Blank(row: Row, column: string) {
    Strip(Cell(row, column)) == ""
  }

  /** What process_peripheral inserts for one column: nothing when its primary cell is blank. */
  function PeripheralEntry(row: Row, name: string, cond: map<string, string>, rem: map<string, string>): Option<Created> {
    if Blank(row, name) then None else Some(Created(name, PeripheralDetails(row, name, cond, rem)))
  }

  /** PeripheralEntry for each of the named columns, in order. */
  function PeripheralEntries(row: Row, names: seq<string>, cond: map<string, string>, rem: map<string, string>): (es: seq<Option<Created>>)
    ensures |es| == |names|
  {
    if names == [] then []
    else PeripheralEntries(row, names[..|names| - 1], cond, rem) + [PeripheralEntry(row, names[|names| - 1], cond, rem)]
  }

  /**
   * A row once its cells are read: everything the import derives from the
   * text before it touches the database. `device` is the stripped Device
   * cell, blank meaning missing.
   */
  datatype RowPlan = RowPlan(
    holderName: Option<(string, string)>,
    device: string,
    main: Details,
    peripherals: seq<Option<Created>>)

  function PlanOf(row: Row): RowPlan {
    var cond := CompositeOf(Cell(row, "Condition"));
    var rem := CompositeOf(Cell(row, "REMARKS"));
    RowPlan(
      SplitName(Cell(row, "Alloted To")),
      Strip(Cell(row, "Device")),
      MainDetails(row, cond, rem),
      PeripheralEntries(row, Peripherals, cond, rem))
  }

  function PlansOf(rows: seq<Row>): (plans: seq<RowPlan>)
    ensures |plans| == |rows|
  {
    if rows == [] then []
    else PlansOf(rows[..|rows| - 1]) + [PlanOf(rows[|rows| - 1])]
  }

  lemma {:induction false} PlansOfAt(rows: seq<Row>, k: nat)
    requires k < |rows|
    ensures PlansOf(rows)[k] == PlanOf(rows[k])
  {
    if k < |rows| - 1 {
      PlansOfAt(rows[..|rows| - 1], k);
    }
  }

  /** The k-th entry comes from the k-th column: peripherals are visited in the given order. */
  lemma {:induction false} PeripheralEntriesAt(row: Row, names: seq<string>, cond: map<string, string>, rem: map<string, string>, k: nat)
    requires k < |names|
    ensures PeripheralEntries(row, names, cond, rem)[k] == PeripheralEntry(row, names[k], cond, rem)
  {
    if k < |names| - 1 {
      PeripheralEntriesAt(row, names[..|names| - 1], cond, rem, k);
    }
  }

  /** How many of the named columns have a non-blank primary cell. */
  function CountNonBlank(row: Row, names: seq<string>): nat {
    if names == [] then 0
    else CountNonBlank(row, names[..|names| - 1]) + (if Blank(row, names[|names| - 1]) then 0 else 1)
  }

  /** process_peripheral inserts exactly one asset per non-blank primary cell. */
  lemma {:induction false} PresentEntries(row: Row, names: seq<string>, cond: map<string, string>, rem: map<string, string>)
    ensures |Present(PeripheralEntries(row, names, cond, rem))| == CountNonBlank(row, names)
  {
    if names != [] {
      var es := PeripheralEntries(row, names, cond, rem);
      var init := names[..|names| - 1];
      PresentEntries(row, init, cond, rem);
      assert es[..|es| - 1] == PeripheralEntries(row, init, cond, rem);
    }
  }

  /**
   * How many assets a row creates when the import goes through: none for a
   * blank Device, else the main asset unless the database refuses it, plus
   * one per non-blank peripheral cell.
   */
  lemma RowCount(row: Row, holder: Option<nat>, refused: set<Details>)
    ensures var plan := PlanOf(row);
            |RowCreations(plan, holder, refused)| ==
              if Blank(row, "Device") then 0
              else (if plan.main in refused then 0 else 1) + CountNonBlank(row, Peripherals)
  {
    var cond := CompositeOf(Cell(row, "Condition"));
    var rem := CompositeOf(Cell(row, "REMARKS"));
    PresentEntries(row, Peripherals, cond, rem);
  }

  /** A peripheral entry exists exactly when its cell is non-blank, and holds that cell as make_model. */
  lemma PeripheralEntryOf(row: Row, name: string, cond: map<string, string>, rem: map<string, string>)
    ensures PeripheralEntry(row, name, cond, rem).Some? <==> !Blank(row, name)
    ensures PeripheralEntry(row, name, cond, rem).Some? ==>
              var c := PeripheralEntry(row, name, cond, rem).value;
              c.typeName == name && c.details.makeModel == Strip(Cell(row, name)) && c.details.makeModel != "" &&
              c.details.config.None? &&
              (Lower(name) !in cond ==> c.details.condition == "working") &&
              (Lower(name) !in rem ==> c.details.remarks == "")
  {
  }

  /** A Condition cell "<device>: <value>" gives the main asset that condition. */
  lemma MainConditionOfCell(row: Row, value: string)
    requires var device := Strip(Cell(row, "Device"));
             ':' !in device && ';' !in device && ';' !in value && Trimmed(value) &&
             Cell(row, "Condition") == device + ": " + value
    ensures PlanOf(row).main.condition == value
  {
    var device := Strip(Cell(row, "Device"));
    CompositeOfEntry(device, value);
    StripIdempotent(Cell(row, "Device"));
  }

  /** With no Condition entry for the device, the main asset's condition is "working". */
  lemma MainConditionDefault(row: Row)
    requires Lower(Strip(Cell(row, "Device"))) !in CompositeOf(Cell(row, "Condition"))
    ensures PlanOf(row).main.condition == "working"
  {
  }

  /** The present entries, in order. */
  function Present(es: seq<Option<Created>>): (cs: seq<Created>)
    ensures |cs| <= |es|
  {
    if es == [] then []
    else Present(es[..|es| - 1]) + (if es[|es| - 1].Some? then [es[|es| - 1].value] else [])
  }

  /** Whether the database refuses one of the present entries. */
  predicate AnyRefused(es: seq<Option<Created>>, refused: set<Details>) {
    exists k :: 0 <= k < |es| && es[k].Some? && es[k].value.details in refused
  }

  /** The assets `cs`, each stored with `holder` as alloted_to. */
  function Attach(cs: seq<Created>, holder: Option<nat>): (ss: seq<Stored>)
    ensures |ss| == |cs|
    ensures forall k :: 0 <= k < |ss| ==> ss[k] == Stored(cs[k].typeName, holder, cs[k].details)
  {
    seq(|cs|, k requires 0 <= k < |cs| => Stored(cs[k].typeName, holder, cs[k].details))
  }

  lemma AttachAppend(a: seq<Created>, b: seq<Created>, holder: Option<nat>)
    ensures Attach(a + b, holder) == Attach(a, holder) + Attach(b, holder)
  {
  }

  /** One more peripheral column stored: the stored assets grow by its entry. */
  lemma PeripheralsStep(entries: seq<Option<Created>>, i: nat, holder: Option<nat>, refused: set<Details>, start: seq<Stored>)
    requires i < |entries| && !AnyRefused(entries[..i], refused)
    requires !(entries[i].Some? && entries[i].value.details in refused)
    ensures !AnyRefused(entries[..i + 1], refused)
    ensures start + Attach(Present(entries[..i]), holder) + Attach(Present([entries[i]]), holder) ==
            start + Attach(Present(entries[..i + 1]), holder)
  {
    assert entries[..i + 1][..i] == entries[..i];
    assert Present(entries[..i + 1]) == Present(entries[..i]) + Present([entries[i]]) by {
      assert [entries[i]][..0] == [];
    }
    AttachAppend(Present(entries[..i]), Present([entries[i]]), holder);
    AppendAssoc(start, Attach(Present(entries[..i]), holder), Attach(Present([entries[i]]), holder));
    assert forall k :: 0 <= k < i + 1 ==> entries[..i + 1][k] == entries[k];
  }

  /** The assets one row creates for `holder` when the import does not abort. */
  function RowCreations(plan: RowPlan, holder: Option<nat>, refused: set<Details>): (cs: seq<Stored>)
    ensures forall k :: 0 <= k < |cs| ==> cs[k].holder == holder
  {
    if plan.device == "" then []
    else (if plan.main in refused then [] else [Stored(plan.device, holder, plan.main)]) + Attach(Present(plan.peripherals), holder)
  }

  /** A peripheral insert that fails is not caught and aborts the whole import. */
  predicate RowAborts(plan: RowPlan, refused: set<Details>) {
    plan.device != "" && AnyRefused(plan.peripherals, refused)
  }

  /** The errors a row reports about its Device and main asset. */
  function DeviceErrors(plan: RowPlan, line: nat, refused: set<Details>): seq<RowError> {
    if plan.device == "" then [MissingDevice(line)]
    else if plan.main in refused then [MainAssetError(line)]
    else []
  }

  // Whole file. The header is csv line 1, so plan k comes from line k + 2.

  predicate FileAborts(plans: seq<RowPlan>, refused: set<Details>) {
    exists k :: 0 <= k < |plans| && RowAborts(plans[k], refused)
  }

  /** The employee table after the get_or_create of every row, starting from `employees`. */
  function FileEmployees(employees: seq<Employee>, plans: seq<RowPlan>, refusedNames: set<(string, string)>): seq<Employee> {
    if plans == [] then employees
    else EmployeesAfter(FileEmployees(employees, plans[..|plans| - 1], refusedNames), plans[|plans| - 1], refusedNames)
  }

  /** The assets the rows create, each held by the employee its row resolved against the table the rows before it left. */
  function FileCreations(employees: seq<Employee>, plans: seq<RowPlan>, refused: set<Details>, refusedNames: set<(string, string)>): seq<Stored> {
    if plans == [] then []
    else
      var init := plans[..|plans| - 1];
      var plan := plans[|plans| - 1];
      FileCreations(employees, init, refused, refusedNames) + RowCreations(plan, HolderOf(FileEmployees(employees, init, refusedNames), plan, refusedNames), refused)
  }

  /** All errors a row reports: the employee error first, then the Device and main-asset errors. */
  function RowErrors(employees: seq<Employee>, plan: RowPlan, line: nat, refused: set<Details>, refusedNames: set<(string, string)>): seq<RowError> {
    (if EmployeeFails(employees, plan, refusedNames) then [EmployeeError(line)] else []) + DeviceErrors(plan, line, refused)
  }

  /** The error list of the whole file, row after row. */
  function FileErrors(employees: seq<Employee>, plans: seq<RowPlan>, refused: set<Details>, refusedNames: set<(string, string)>): seq<RowError> {
    if plans == [] then []
    else
      var init := plans[..|plans| - 1];
      FileErrors(employees, init, refused, refusedNames) + RowErrors(FileEmployees(employees, init, refusedNames), plans[|plans| - 1], |plans| + 1, refused, refusedNames)
  }

  function FileDeviceErrors(plans: seq<RowPlan>, refused: set<Details>): seq<RowError> {
    if plans == [] then []
    else FileDeviceErrors(plans[..|plans| - 1], refused) + DeviceErrors(plans[|plans| - 1], |plans| + 1, refused)
  }

  function WithoutEmployeeErrors(errs: seq<RowError>): seq<RowError> {
    if errs == [] then []
    else WithoutEmployeeErrors(errs[..|errs| - 1]) +
         (if errs[|errs| - 1].EmployeeError? then [] else [errs[|errs| - 1]])
  }

  lemma {:induction false} WithoutEmployeeErrorsAppend(a: seq<RowError>, b: seq<RowError>)
    ensures WithoutEmployeeErrors(a + b) == WithoutEmployeeErrors(a) + WithoutEmployeeErrors(b)
    decreases |b|
  {
    if b == [] {
      assert a + b == a;
    } else {
      var b' := b[..|b| - 1];
      assert (a + b)[..|a + b| - 1] == a + b';
      WithoutEmployeeErrorsAppend(a, b');
    }
  }

  lemma DeviceErrorsKeep(plan: RowPlan, line: nat, refused: set<Details>)
    ensures WithoutEmployeeErrors(DeviceErrors(plan, line, refused)) == DeviceErrors(plan, line, refused)
    ensures WithoutEmployeeErrors([EmployeeError(line)]) == []
  {
    var d := DeviceErrors(plan, line, refused);
    if d != [] {
      assert d[..0] == [];
    }
    assert [EmployeeError(line)][..0] == [];
  }

  /** Every error names a csv line in [lo, hi). */
  predicate LinesWithin(errs: seq<RowError>, lo: nat, hi: nat) {
    forall k :: 0 <= k < |errs| ==> lo <= errs[k].line < hi
  }

  /** Errors are reported in the order of the lines they name. */
  predicate LinesOrdered(errs: seq<RowError>) {
    forall j, k :: 0 <= j < k < |errs| ==> errs[j].line <= errs[k].line
  }

  lemma LinesAppend(errs: seq<RowError>, more: seq<RowError>, line: nat)
    requires line >= 2 && LinesWithin(errs, 2, line) && LinesOrdered(errs) && LinesWithin(more, line, line + 1)
    ensures LinesWithin(errs + more, 2, line + 1) && LinesOrdered(errs + more)
  {
    var all := errs + more;
    forall j, k | 0 <= j < k < |all|
      ensures all[j].line <= all[k].line
    {
      if k >= |errs| {
        assert all[k] == more[k - |errs|];
        if j >= |errs| {
          assert all[j] == more[j - |errs|];
        }
      }
    }
  }

  lemma RowErrorsOnLine(employees: seq<Employee>, plan: RowPlan, line: nat, refused: set<Details>, refusedNames: set<(string, string)>)
    ensures LinesWithin(RowErrors(employees, plan, line, refused, refusedNames), line, line + 1)
  {
  }

  lemma AppendAssoc<T>(a: seq<T>, b: seq<T>, c: seq<T>)
    ensures (a + b) + c == a + (b + c)
  {
  }

  // ---------------------------------------------------------------------
  // Employee lookup by name

  predicate Named(e: Employee, first: string, last: string) {
    e.firstName == first && e.lastName == last
  }

  /** How many employees carry exactly this first and last name. */
  function MatchCount(employees: seq<Employee>, first: string, last: string): nat {
    if employees == [] then 0
    else MatchCount(employees[..|employees| - 1], first, last) +
         (if Named(employees[|employees| - 1], first, last) then 1 else 0)
  }

  /**
   * get_or_create raises: MultipleObjectsReturned when the name is
   * ambiguous, or the database refuses to insert a new employee under a
   * name in `refusedNames`.
   */
  predicate EmployeeFails(employees: seq<Employee>, plan: RowPlan, refusedNames: set<(string, string)>) {
    plan.holderName.Some? &&
    var count := MatchCount(employees, plan.holderName.value.0, plan.holderName.value.1);
    count >= 2 || (count == 0 && plan.holderName.value in refusedNames)
  }

  /** The position of the first employee with this name; |employees| when there is none. */
  function FirstNamed(employees: seq<Employee>, first: string, last: string): (i: nat)
    ensures i <= |employees|
    ensures i < |employees| ==> Named(employees[i], first, last)
    ensures forall j :: 0 <= j < i && j < |employees| ==> !Named(employees[j], first, last)
    ensures i == |employees| <==> MatchCount(employees, first, last) == 0
  {
    if employees == [] then 0
    else
      var init := employees[..|employees| - 1];
      var p := FirstNamed(init, first, last);
      if p < |init| then p
      else if Named(employees[|employees| - 1], first, last) then |init|
      else |employees|
  }

  /**
   * The employee the row's assets go to, given the employees before the
   * row: none for a blank cell, an ambiguous name or a refused insert, the
   * new employee appended when nobody has the name, else the one employee
   * who has it.
   */
  function HolderOf(employees: seq<Employee>, plan: RowPlan, refusedNames: set<(string, string)>): (holder: Option<nat>)
    ensures holder.Some? ==> plan.holderName.Some? && holder.value <= |employees|
    ensures holder.Some? && holder.value < |employees| ==>
              Named(employees[holder.value], plan.holderName.value.0, plan.holderName.value.1)
    ensures holder == Some(|employees|) <==>
              plan.holderName.Some? && MatchCount(employees, plan.holderName.value.0, plan.holderName.value.1) == 0 &&
              plan.holderName.value !in refusedNames
    ensures holder.None? <==> plan.holderName.None? || EmployeeFails(employees, plan, refusedNames)
  {
    match plan.holderName
    case None => None
    case Some((first, last)) =>
      var c := MatchCount(employees, first, last);
      if c == 0 then (if (first, last) in refusedNames then None else Some(|employees|))
      else if c == 1 then Some(FirstNamed(employees, first, last))
      else None
  }

  /** The employee table after the row's get_or_create. */
  function EmployeesAfter(employees: seq<Employee>, plan: RowPlan, refusedNames: set<(string, string)>): seq<Employee> {
    match plan.holderName
    case Some((first, last)) =>
      if MatchCount(employees, first, last) == 0 && (first, last) !in refusedNames then employees + [NewEmployee(first, last)]
      else employees
    case None => employees
  }

  function CreationsOf(types: seq<AssetType>, assets: seq<Asset>): seq<Stored>
    requires forall k :: 0 <= k < |assets| ==> assets[k].typeId < |types|
  {
    if assets == [] then []
    else
      var a := assets[|assets| - 1];
      CreationsOf(types, assets[..|assets| - 1]) + [Stored(types[a.typeId].name, a.holder, a.details)]
  }

  lemma {:induction false} CreationsOfMoreTypes(types: seq<AssetType>, more: seq<AssetType>, assets: seq<Asset>)
    requires forall k :: 0 <= k < |assets| ==> assets[k].typeId < |types|
    ensures CreationsOf(types + more, assets) == CreationsOf(types, assets)
  {
    if assets != [] {
      CreationsOfMoreTypes(types, more, assets[..|assets| - 1]);
    }
  }

  lemma {:induction false} CreationsOfLength(types: seq<AssetType>, assets: seq<Asset>)
    requires forall k :: 0 <= k < |assets| ==> assets[k].typeId < |types|
    ensures |CreationsOf(types, assets)| == |assets|
  {
    if assets != [] {
      CreationsOfLength(types, assets[..|assets| - 1]);
    }
  }

  lemma CreationsOfAppend(types: seq<AssetType>, assets: seq<Asset>, a: Asset)
    requires forall k :: 0 <= k < |assets| ==> assets[k].typeId < |types|
    requires a.typeId < |types|
    ensures CreationsOf(types, assets + [a]) == CreationsOf(types, assets) + [Stored(types[a.typeId].name, a.holder, a.details)]
  {
    assert (assets + [a])[..|assets|] == assets;
  }

  lemma FileAbortsAt(plans: seq<RowPlan>, i: nat, refused: set<Details>)
    requires i < |plans| && RowAborts(plans[i], refused)
    ensures FileAborts(plans, refused)
  {
  }

  lemma FileAbortsStep(plans: seq<RowPlan>, i: nat, refused: set<Details>)
    requires i < |plans| && !FileAborts(plans[..i], refused) && !RowAborts(plans[i], refused)
    ensures !FileAborts(plans[..i + 1], refused)
  {
    var prefix := plans[..i + 1];
    forall k | 0 <= k < |prefix|
      ensures !RowAborts(prefix[k], refused)
    {
      if k < i {
        assert prefix[k] == plans[..i][k];
      }
    }
  }

  /** Row i resolves against the table rows 0 .. i-1 left and extends creations, employees and errors by its own. */
  lemma FileRowsStep(employees: seq<Employee>, plans: seq<RowPlan>, i: nat, refused: set<Details>, refusedNames: set<(string, string)>)
    requires i < |plans|
    ensures var emps := FileEmployees(employees, plans[..i], refusedNames);
            && FileEmployees(employees, plans[..i + 1], refusedNames) == EmployeesAfter(emps, plans[i], refusedNames)
            && FileCreations(employees, plans[..i + 1], refused, refusedNames) ==
                 FileCreations(employees, plans[..i], refused, refusedNames) + RowCreations(plans[i], HolderOf(emps, plans[i], refusedNames), refused)
            && FileErrors(employees, plans[..i + 1], refused, refusedNames) ==
                 FileErrors(employees, plans[..i], refused, refusedNames) + RowErrors(emps, plans[i], i + 2, refused, refusedNames)
  {
    assert plans[..i + 1][..i] == plans[..i];
  }

  /**
   * One more row that does not abort: the file-level facts about the rows
   * before it extend to the rows up to and including it.
   */
  lemma FileStep(plans: seq<RowPlan>, i: nat, refused: set<Details>, employees0: seq<Employee>,
                 start: seq<Stored>, before: seq<Stored>, after: seq<Stored>,
                 errors: seq<RowError>, errs: seq<RowError>, refusedNames: set<(string, string)>)
    requires i < |plans| && !FileAborts(plans[..i], refused) && !RowAborts(plans[i], refused)
    requires before == start + FileCreations(employees0, plans[..i], refused, refusedNames)
    requires after == before + RowCreations(plans[i], HolderOf(FileEmployees(employees0, plans[..i], refusedNames), plans[i], refusedNames), refused)
    requires errors == FileErrors(employees0, plans[..i], refused, refusedNames)
    requires errs == RowErrors(FileEmployees(employees0, plans[..i], refusedNames), plans[i], i + 2, refused, refusedNames)
    ensures !FileAborts(plans[..i + 1], refused)
    ensures after == start + FileCreations(employees0, plans[..i + 1], refused, refusedNames)
    ensures errors + errs == FileErrors(employees0, plans[..i + 1], refused, refusedNames)
    ensures EmployeesAfter(FileEmployees(employees0, plans[..i], refusedNames), plans[i], refusedNames) == FileEmployees(employees0, plans[..i + 1], refusedNames)
  {
    FileAbortsStep(plans, i, refused);
    FileRowsStep(employees0, plans, i, refused, refusedNames);
    var emps := FileEmployees(employees0, plans[..i], refusedNames);
    AppendAssoc(start, FileCreations(employees0, plans[..i], refused, refusedNames), RowCreations(plans[i], HolderOf(emps, plans[i], refusedNames), refused));
  }

  /** The error list without its employee errors is the file's Device and main-asset errors. */
  lemma {:induction false} FileErrorsDevice(employees: seq<Employee>, plans: seq<RowPlan>, refused: set<Details>, refusedNames: set<(string, string)>)
    ensures WithoutEmployeeErrors(FileErrors(employees, plans, refused, refusedNames)) == FileDeviceErrors(plans, refused)
  {
    if plans != [] {
      var init := plans[..|plans| - 1];
      var plan := plans[|plans| - 1];
      var line := |plans| + 1;
      FileErrorsDevice(employees, init, refused, refusedNames);
      var clash := if EmployeeFails(FileEmployees(employees, init, refusedNames), plan, refusedNames) then [EmployeeError(line)] else [];
      DeviceErrorsKeep(plan, line, refused);
      WithoutEmployeeErrorsAppend(FileErrors(employees, init, refused, refusedNames), clash + DeviceErrors(plan, line, refused));
      WithoutEmployeeErrorsAppend(clash, DeviceErrors(plan, line, refused));
    }
  }

  /** Every error names a line of the file, and the errors come in line order. */
  lemma {:induction false} FileErrorsLines(employees: seq<Employee>, plans: seq<RowPlan>, refused: set<Details>, refusedNames: set<(string, string)>)
    ensures LinesWithin(FileErrors(employees, plans, refused, refusedNames), 2, |plans| + 2)
    ensures LinesOrdered(FileErrors(employees, plans, refused, refusedNames))
  {
    if plans != [] {
      var init := plans[..|plans| - 1];
      FileErrorsLines(employees, init, refused, refusedNames);
      var errs := RowErrors(FileEmployees(employees, init, refusedNames), plans[|plans| - 1], |plans| + 1, refused, refusedNames);
      RowErrorsOnLine(FileEmployees(employees, init, refusedNames), plans[|plans| - 1], |plans| + 1, refused, refusedNames);
      LinesAppend(FileErrors(employees, init, refused, refusedNames), errs, |plans| + 1);
    }
  }

  /** The rows only ever add employees. */
  lemma {:induction false} FileEmployeesGrow(employees: seq<Employee>, plans: seq<RowPlan>, refusedNames: set<(string, string)>)
    ensures employees <= FileEmployees(employees, plans, refusedNames)
  {
    if plans != [] {
      FileEmployeesGrow(employees, plans[..|plans| - 1], refusedNames);
    }
  }

  /**
   * A one-row file naming someone not yet employed. When the database
   * accepts the new employee, the employee is appended and every asset the
   * row creates is assigned to them. When it refuses the insert, the row
   * reports an employee error first, the table is unchanged and the assets
   * are still created, with no holder.
   */
  lemma SingleRowHolder(employees: seq<Employee>, plan: RowPlan, refused: set<Details>, refusedNames: set<(string, string)>)
    requires plan.holderName.Some? && MatchCount(employees, plan.holderName.value.0, plan.holderName.value.1) == 0
    ensures plan.holderName.value !in refusedNames ==>
              FileEmployees(employees, [plan], refusedNames) ==
                employees + [NewEmployee(plan.holderName.value.0, plan.holderName.value.1)]
    ensures plan.holderName.value in refusedNames ==> FileEmployees(employees, [plan], refusedNames) == employees
    ensures var holder := if plan.holderName.value in refusedNames then None else Some(|employees|);
            FileCreations(employees, [plan], refused, refusedNames) == RowCreations(plan, holder, refused) &&
            forall k :: 0 <= k < |FileCreations(employees, [plan], refused, refusedNames)| ==>
              FileCreations(employees, [plan], refused, refusedNames)[k].holder == holder
    ensures FileErrors(employees, [plan], refused, refusedNames) ==
              (if plan.holderName.value in refusedNames then [EmployeeError(2)] else []) + DeviceErrors(plan, 2, refused)
  {
    assert [plan][..0] == [];
    assert FileEmployees(employees, [], refusedNames) == employees;
  }

  // ---------------------------------------------------------------------
  // download_sample_csv

  /** The header line of the sample file, cell by cell. */
  const SampleHeader: seq<string> := [
    "Sl.No.", "Alloted To", "Device", "Make model", "Serial No.", "PROCESSOR", "RAM", "HDD", "SSD", "OS",
    "Year of Purchase", "Monitor", "Monitor Serial number", "Monitor Year of Purchase",
    "Keyboard and Mouse", "UPS", "UPS Serial number", "UPS Year of Purchase",
    "Printer", "Printer Serial number", "Printer Year of Purchase", "Speaker",
    "Condition", "REMARKS"]

  /** The one data line of the sample file, cell by cell. */
  const SampleCells: seq<string> := [
    "1", "John Doe", "Laptop", "HP ProBook", "SN12345", "Intel Core i7", "8 GB", "1 TB", "256 GB", "Windows 10", "2023",
    "Dell 24\"", "MSN456", "2022", "Logitech Combo", "UPS Corp", "UPS789", "2023", "HP LaserJet", "PRN001", "2023", "Creative",
    "Laptop: Working; Monitor: Good; Keyboard and Mouse: Working; UPS: Working; Printer: Not Working; Speaker: Working",
    "Laptop: System is in Working Condition; Monitor: Clear display; Keyboard and Mouse: Responsive; UPS: Stable; Printer: Requires service; Speaker: Clear sound"]

  /** The body of the downloaded file: header line, then the sample line. */
  function SampleCsv(): string {
    Join(SampleHeader, ",") + "\n" + Join(SampleCells, ",") + "\n"
  }

  /** The sample's header carries the "Alloted To", Device, Condition and REMARKS columns, one per cell of the sample line. */
  lemma SampleHeaderColumns()
    ensures |SampleHeader| == |SampleCells| == 24
    ensures "Alloted To" in SampleHeader && "Device" in SampleHeader
    ensures "Condition" in SampleHeader && "REMARKS" in SampleHeader
  {
    assert SampleHeader[1] == "Alloted To" && SampleHeader[2] == "Device";
    assert SampleHeader[22] == "Condition" && SampleHeader[23] == "REMARKS";
  }

  /** The sample's header carries every column the import reads for the main device. */
  lemma SampleMainColumns()
    ensures "Make model" in SampleHeader && "Serial No." in SampleHeader && "PROCESSOR" in SampleHeader
    ensures "RAM" in SampleHeader && "HDD" in SampleHeader && "SSD" in SampleHeader && "OS" in SampleHeader
    ensures "Year of Purchase" in SampleHeader
  {
    assert SampleHeader[3] == "Make model" && SampleHeader[4] == "Serial No." && SampleHeader[5] == "PROCESSOR";
    assert SampleHeader[6] == "RAM" && SampleHeader[7] == "HDD" && SampleHeader[8] == "SSD" && SampleHeader[9] == "OS";
    assert SampleHeader[10] == "Year of Purchase";
  }

  /** Every peripheral column is in the sample's header, with serial-number and year columns for Monitor, UPS and Printer. */
  lemma SamplePeripheralColumns()
    ensures forall k :: 0 <= k < |Peripherals| ==> Peripherals[k] in SampleHeader
    ensures "Monitor Serial number" in SampleHeader && "Monitor Year of Purchase" in SampleHeader
    ensures "UPS Serial number" in SampleHeader && "UPS Year of Purchase" in SampleHeader
    ensures "Printer Serial number" in SampleHeader && "Printer Year of Purchase" in SampleHeader
  {
    assert Peripherals == [SampleHeader[11], SampleHeader[14], SampleHeader[15], SampleHeader[18], SampleHeader[21]];
    assert SampleHeader[12] == "Monitor Serial number" && SampleHeader[13] == "Monitor Year of Purchase";
    assert SampleHeader[16] == "UPS Serial number" && SampleHeader[17] == "UPS Year of Purchase";
    assert SampleHeader[19] == "Printer Serial number" && SampleHeader[20] == "Printer Year of Purchase";
  }

  /**
   * The sample's header has no serial-number or year column for "Keyboard
   * and Mouse", so a re-uploaded sample stores it with no serial number and
   * year 0.
   */
  lemma SampleKeyboardColumns()
    ensures "Keyboard and Mouse Serial number" !in SampleHeader && "Keyboard and Mouse Year of Purchase" !in SampleHeader
  {
  }

  /** Likewise the sample's header has no serial-number or year column for Speaker. */
  lemma SampleSpeakerColumns()
    ensures "Speaker Serial number" !in SampleHeader && "Speaker Year of Purchase" !in SampleHeader
  {
  }

  /** A peripheral whose serial-number and year columns the row lacks is stored with no serial number and year 0. */
  lemma MissingColumnsBlank(row: Row, name: string, cond: map<string, string>, rem: map<string, string>)
    requires name + " Serial number" !in row && name + " Year of Purchase" !in row
    ensures PeripheralDetails(row, name, cond, rem).serialNumber.None?
    ensures PeripheralDetails(row, name, cond, rem).yearOfPurchase == 0
  {
    assert Strip("") == "" && ParseInt("") == None;
  }

  lemma KeyboardColumnNames()
    ensures "Keyboard and Mouse" + " Serial number" == "Keyboard and Mouse Serial number"
    ensures "Keyboard and Mouse" + " Year of Purchase" == "Keyboard and Mouse Year of Purchase"
  {
  }

  lemma SpeakerColumnNames()
    ensures "Speaker" + " Serial number" == "Speaker Serial number"
    ensures "Speaker" + " Year of Purchase" == "Speaker Year of Purchase"
  {
  }

  /**
   * A row read back from the sample file, whose keys are its header's
   * columns, stores "Keyboard and Mouse" with no serial number and year 0,
   * whatever the row says.
   */
  lemma SampleRowLosesKeyboardSerial(row: Row, cond: map<string, string>, rem: map<string, string>)
    requires forall c :: c in row ==> c in SampleHeader
    ensures PeripheralDetails(row, "Keyboard and Mouse", cond, rem).serialNumber.None?
    ensures PeripheralDetails(row, "Keyboard and Mouse", cond, rem).yearOfPurchase == 0
  {
    KeyboardColumnNames();
    SampleKeyboardColumns();
    MissingColumnsBlank(row, "Keyboard and Mouse", cond, rem);
  }

  /** Likewise a row read back from the sample file stores Speaker with no serial number and year 0. */
  lemma SampleRowLosesSpeakerSerial(row: Row, cond: map<string, string>, rem: map<string, string>)
    requires forall c :: c in row ==> c in SampleHeader
    ensures PeripheralDetails(row, "Speaker", cond, rem).serialNumber.None?
    ensures PeripheralDetails(row, "Speaker", cond, rem).yearOfPurchase == 0
  {
    SpeakerColumnNames();
    SampleSpeakerColumns();
    MissingColumnsBlank(row, "Speaker", cond, rem);
  }

  // ---------------------------------------------------------------------
  // The database touched by the import

  predicate NameFree(types: seq<AssetType>, name: string) {
    forall k :: 0 <= k < |types| ==> types[k].name != name
  }

  /** AssetType.name is unique: each type's name is free among the types before it. */
  predicate UniqueNames(types: seq<AssetType>) {
    types == [] || (UniqueNames(types[..|types| - 1]) && NameFree(types[..|types| - 1], types[|types| - 1].name))
  }

  lemma {:induction false} UniqueNamesDistinct(types: seq<AssetType>, i: nat, j: nat)
    requires UniqueNames(types) && i < j < |types|
    ensures types[i].name != types[j].name
    decreases |types|
  {
    var init := types[..|types| - 1];
    if j < |types| - 1 {
      UniqueNamesDistinct(init, i, j);
    } else {
      assert init[i] == types[i];
    }
  }

  /** Type names are unique and every asset points at an existing type and holder. */
  ghost predicate ValidTables(employees: seq<Employee>, types: seq<AssetType>, assets: seq<Asset>) {
    && UniqueNames(types)
    && (forall k :: 0 <= k < |assets| ==> assets[k].typeId < |types|)
    && (forall k :: 0 <= k < |assets| ==> assets[k].holder.Some? ==> assets[k].holder.value < |employees|)
  }

  class Store {
    var employees: seq<Employee>
    var types: seq<AssetType>
    var assets: seq<Asset>

    ghost predicate Valid()
      reads this
    {
      ValidTables(employees, types, assets)
    }

    /** Each stored asset as the import describes it. */
    ghost function Creations(): seq<Stored>
      reads this
      requires Valid()
    {
      CreationsOf(types, assets)
    }

    predicate HolderOk(holder: Option<nat>)
      reads this
    {
      holder.Some? ==> holder.value < |employees|
    }

    constructor ()
      ensures Valid() && employees == [] && types == [] && assets == []
    {
      employees, types, assets := [], [], [];
    }

    /** AssetType.objects.get_or_create(name=name) */
    method GetOrCreateType(name: string) returns (id: nat)
      requires Valid()
      modifies this
      ensures Valid()
      ensures id < |types| && types[id].name == name
      ensures !NameFree(old(types), name) ==> types == old(types)
      ensures NameFree(old(types), name) ==> types == old(types) + [AssetType(name)]
      ensures employees == old(employees) && assets == old(assets)
      ensures Creations() == old(Creations())
    {
      var k := 0;
      while k < |types|
        invariant 0 <= k <= |types|
        invariant forall j :: 0 <= j < k ==> types[j].name != name
      {
        if types[k].name == name {
          return k;
        }
        k := k + 1;
      }
      CreationsOfMoreTypes(types, [AssetType(name)], assets);
      assert (types + [AssetType(name)])[..|types|] == types;
      types := types + [AssetType(name)];
      id := |types| - 1;
    }

    /**
     * Employee.objects.get_or_create(first_name=first, last_name=last, defaults=...);
     * None when it raises, which the caller catches.
     */
    method GetOrCreateEmployee(first: string, last: string, refusedNames: set<(string, string)>) returns (id: Option<nat>)
      requires Valid()
      modifies this
      ensures Valid()
      ensures MatchCount(old(employees), first, last) == 0 && (first, last) !in refusedNames ==>
                employees == old(employees) + [NewEmployee(first, last)] && id == Some(|old(employees)|)
      ensures MatchCount(old(employees), first, last) == 0 && (first, last) in refusedNames ==>
                employees == old(employees) && id.None?
      ensures MatchCount(old(employees), first, last) == 1 ==>
                employees == old(employees) && id == Some(FirstNamed(employees, first, last))
      ensures MatchCount(old(employees), first, last) >= 2 ==> employees == old(employees) && id.None?
      ensures types == old(types) && assets == old(assets)
      ensures Creations() == old(Creations())
    {
      var count := 0;
      var found := 0;
      var k := 0;
      while k < |employees|
        invariant 0 <= k <= |employees|
        invariant count == MatchCount(employees[..k], first, last)
        invariant count >= 1 ==> found == FirstNamed(employees[..k], first, last)
      {
        assert employees[..k + 1][..k] == employees[..k];
        if Named(employees[k], first, last) {
          if count == 0 {
            found := k;
          }
          count := count + 1;
        }
        k := k + 1;
      }
      assert employees[..k] == employees;
      if count == 0 && (first, last) in refusedNames {
        id := None;
      } else if count == 0 {
        employees := employees + [NewEmployee(first, last)];
        id := Some(|employees| - 1);
      } else if count == 1 {
        id := Some(found);
      } else {
        id := None;
      }
    }

    /** Asset.objects.create(...) for an insert the database accepts. */
    method CreateAsset(a: Asset)
      requires Valid() && a.typeId < |types| && HolderOk(a.holder)
      modifies this
      ensures Valid()
      ensures assets == old(assets) + [a]
      ensures employees == old(employees) && types == old(types)
      ensures Creations() == old(Creations()) + [Stored(types[a.typeId].name, a.holder, a.details)]
    {
      CreationsOfAppend(types, assets, a);
      assets := assets + [a];
    }

    /** The get_or_create of the row's employee, when the "Alloted To" cell names one. */
    method ResolveHolder(plan: RowPlan, line: nat, refusedNames: set<(string, string)>) returns (holder: Option<nat>, errs: seq<RowError>)
      requires Valid()
      modifies this
      ensures Valid() && HolderOk(holder)
      ensures employees == EmployeesAfter(old(employees), plan, refusedNames)
      ensures holder == HolderOf(old(employees), plan, refusedNames)
      ensures errs == if EmployeeFails(old(employees), plan, refusedNames) then [EmployeeError(line)] else []
      ensures types == old(types) && assets == old(assets)
      ensures Creations() == old(Creations())
    {
      errs := [];
      holder := None;
      if plan.holderName.Some? {
        holder := GetOrCreateEmployee(plan.holderName.value.0, plan.holderName.value.1, refusedNames);
        if holder.None? {
          errs := [EmployeeError(line)];
        }
      }
    }

    /**
     * The database half of process_peripheral: nothing for a blank primary
     * cell, otherwise one asset of the type named after the column. A
     * refused insert is not caught and aborts the import.
     */
    method ProcessPeripheral(entry: Option<Created>, holder: Option<nat>, refused: set<Details>)
      returns (aborted: bool, n: nat)
      requires Valid() && HolderOk(holder)
      modifies this
      ensures Valid() && HolderOk(holder)
      ensures employees == old(employees) && old(types) <= types && old(assets) <= assets
      ensures aborted <==> entry.Some? && entry.value.details in refused
      ensures entry.None? ==> n == 0 && types == old(types) && assets == old(assets)
      ensures !aborted ==> n == |assets| - |old(assets)|
      ensures !aborted ==> Creations() == old(Creations()) + Attach(Present([entry]), holder)
    {
      assert [entry][..0] == [];
      if entry.None? {
        return false, 0;
      }
      var typeId := GetOrCreateType(entry.value.typeName);
      if entry.value.details in refused {
        return true, 0;
      }
      CreateAsset(Asset(typeId, holder, entry.value.details));
      assert Attach(Present([entry]), holder) == [Stored(entry.value.typeName, holder, entry.value.details)];
      return false, 1;
    }

    /** The loop over the peripheral columns of a row. */
    method ImportPeripherals(entries: seq<Option<Created>>, holder: Option<nat>, refused: set<Details>)
      returns (aborted: bool, n: nat)
      requires Valid() && HolderOk(holder)
      modifies this
      ensures Valid()
      ensures aborted == AnyRefused(entries, refused)
      ensures employees == old(employees) && old(types) <= types && old(assets) <= assets
      ensures !aborted ==> n == |assets| - |old(assets)|
      ensures !aborted ==> Creations() == old(Creations()) + Attach(Present(entries), holder)
    {
      n := 0;
      var i := 0;
      while i < |entries|
        invariant 0 <= i <= |entries|
        invariant Valid() && HolderOk(holder)
        invariant employees == old(employees) && old(types) <= types && old(assets) <= assets
        invariant !AnyRefused(entries[..i], refused)
        invariant Creations() == old(Creations()) + Attach(Present(entries[..i]), holder)
        invariant n == |assets| - |old(assets)|
      {
        var stop, one := ProcessPeripheral(entries[i], holder, refused);
        if stop {
          assert entries[i].Some? && entries[i].value.details in refused;
          return true, n;
        }
        PeripheralsStep(entries, i, holder, refused, old(Creations()));
        n := n + one;
        i := i + 1;
      }
      assert entries[..i] == entries;
      aborted := false;
    }

    /** The main asset of a row whose Device cell is filled in. */
    method ImportMain(plan: RowPlan, line: nat, holder: Option<nat>, refused: set<Details>)
      returns (created: nat, errs: seq<RowError>)
      requires Valid() && HolderOk(holder)
      modifies this
      ensures Valid() && HolderOk(holder)
      ensures employees == old(employees) && old(types) <= types && old(assets) <= assets
      ensures created == |assets| - |old(assets)|
      ensures plan.main in refused ==> created == 0 && errs == [MainAssetError(line)]
      ensures plan.main !in refused ==> created == 1 && errs == []
      ensures Creations() == old(Creations()) + (if plan.main in refused then [] else [Stored(plan.device, holder, plan.main)])
    {
      var typeId := GetOrCreateType(plan.device);
      if plan.main !in refused {
        CreateAsset(Asset(typeId, holder, plan.main));
        return 1, [];
      }
      return 0, [MainAssetError(line)];
    }

    /** The Device part of a row: the main asset, then the peripherals. */
    method ImportDevice(plan: RowPlan, line: nat, holder: Option<nat>, refused: set<Details>)
      returns (aborted: bool, created: nat, errs: seq<RowError>)
      requires Valid() && HolderOk(holder)
      modifies this
      ensures Valid()
      ensures aborted == RowAborts(plan, refused)
      ensures employees == old(employees)
      ensures !aborted ==> created == |assets| - |old(assets)|
      ensures !aborted ==> Creations() == old(Creations()) + RowCreations(plan, holder, refused)
      ensures !aborted ==> old(types) <= types && old(assets) <= assets
      ensures !aborted ==> errs == DeviceErrors(plan, line, refused)
    {
      if plan.device == "" {
        return false, 0, [MissingDevice(line)];
      }
      ghost var start := Creations();
      created, errs := ImportMain(plan, line, holder, refused);
      ghost var mainPart := Creations()[|start|..];
      var n;
      aborted, n := ImportPeripherals(plan.peripherals, holder, refused);
      if !aborted {
        created := created + n;
        AppendAssoc(start, mainPart, Attach(Present(plan.peripherals), holder));
      }
    }

    /** The body of the bulk_upload loop for one row, read from csv line `line`. */
    method ImportRow(plan: RowPlan, line: nat, refused: set<Details>, refusedNames: set<(string, string)>)
      returns (aborted: bool, created: nat, holder: Option<nat>, errs: seq<RowError>)
      requires Valid()
      modifies this
      ensures Valid()
      ensures aborted == RowAborts(plan, refused)
      ensures employees == EmployeesAfter(old(employees), plan, refusedNames)
      ensures holder == HolderOf(old(employees), plan, refusedNames)
      ensures !aborted ==> created == |assets| - |old(assets)|
      ensures !aborted ==> Creations() == old(Creations()) + RowCreations(plan, holder, refused)
      ensures !aborted ==> old(types) <= types && old(assets) <= assets
      ensures !aborted ==> errs == RowErrors(old(employees), plan, line, refused, refusedNames)
    {
      var clash;
      holder, clash := ResolveHolder(plan, line, refusedNames);
      var more;
      aborted, created, more := ImportDevice(plan, line, holder, refused);
      errs := clash + more;
    }

    /** bulk_upload: decode, then every row inside one transaction. */
    method BulkUpload(decoded: Option<seq<Row>>, refused: set<Details>, refusedNames: set<(string, string)>) returns (result: UploadResult)
      requires Valid()
      modifies this
      ensures Valid()
      ensures decoded.None? ==> result == DecodeError
      ensures decoded.Some? ==> (result.Aborted? <==> FileAborts(PlansOf(decoded.value), refused))
      ensures !result.Done? ==> employees == old(employees) && types == old(types) && assets == old(assets)
      ensures result.Done? ==>
                && result.errors == FileErrors(old(employees), PlansOf(decoded.value), refused, refusedNames)
                && employees == FileEmployees(old(employees), PlansOf(decoded.value), refusedNames)
                && Creations() == old(Creations()) + FileCreations(old(employees), PlansOf(decoded.value), refused, refusedNames)
                && result.created == |FileCreations(old(employees), PlansOf(decoded.value), refused, refusedNames)| == |assets| - |old(assets)|
                && old(employees) <= employees && old(types) <= types && old(assets) <= assets
                && WithoutEmployeeErrors(result.errors) == FileDeviceErrors(PlansOf(decoded.value), refused)
                && (forall k :: 0 <= k < |result.errors| ==> 2 <= result.errors[k].line < |decoded.value| + 2)
                && (forall j, k :: 0 <= j < k < |result.errors| ==> result.errors[j].line <= result.errors[k].line)
    {
      if decoded.None? {
        return DecodeError;
      }
      var plans := PlansOf(decoded.value);
      var employees0, types0, assets0 := employees, types, assets;
      result := ImportAll(plans, refused, refusedNames);
      if result.Aborted? {
        Rollback(employees0, types0, assets0);
      } else {
        FileErrorsDevice(employees0, plans, refused, refusedNames);
        FileErrorsLines(employees0, plans, refused, refusedNames);
        FileEmployeesGrow(employees0, plans, refusedNames);
      }
    }

    /** Row i of the file, after rows 0 .. i-1 imported without aborting. */
    method ImportNext(plans: seq<RowPlan>, i: nat, refused: set<Details>, ghost employees0: seq<Employee>,
                      ghost start: seq<Stored>, errors: seq<RowError>, refusedNames: set<(string, string)>)
      returns (aborted: bool, created: nat, errorsAfter: seq<RowError>)
      requires Valid() && i < |plans| && !FileAborts(plans[..i], refused)
      requires employees == FileEmployees(employees0, plans[..i], refusedNames)
      requires Creations() == start + FileCreations(employees0, plans[..i], refused, refusedNames)
      requires errors == FileErrors(employees0, plans[..i], refused, refusedNames)
      modifies this
      ensures Valid()
      ensures aborted == RowAborts(plans[i], refused)
      ensures !aborted ==>
                && created == |assets| - |old(assets)|
                && old(types) <= types && old(assets) <= assets
                && !FileAborts(plans[..i + 1], refused)
                && employees == FileEmployees(employees0, plans[..i + 1], refusedNames)
                && Creations() == start + FileCreations(employees0, plans[..i + 1], refused, refusedNames)
                && errorsAfter == FileErrors(employees0, plans[..i + 1], refused, refusedNames)
    {
      ghost var before := Creations();
      var aborted', created', _, errs := ImportRow(plans[i], i + 2, refused, refusedNames);
      aborted, created := aborted', created';
      if !aborted {
        FileStep(plans, i, refused, employees0, start, before, Creations(), errors, errs, refusedNames);
      }
      errorsAfter := errors + errs;
    }

    /** Leaving the atomic block by an exception restores the tables as they were on entry. */
    method Rollback(employees0: seq<Employee>, types0: seq<AssetType>, assets0: seq<Asset>)
      requires ValidTables(employees0, types0, assets0)
      modifies this
      ensures Valid()
      ensures employees == employees0 && types == types0 && assets == assets0
    {
      employees, types, assets := employees0, types0, assets0;
    }

    /** The transaction of bulk_upload over the rows' plans. */
    method ImportAll(plans: seq<RowPlan>, refused: set<Details>, refusedNames: set<(string, string)>) returns (result: UploadResult)
      requires Valid()
      modifies this
      ensures Valid()
      ensures result.Aborted? || result.Done?
      ensures result.Aborted? <==> FileAborts(plans, refused)
      ensures result.Done? ==>
                && result.errors == FileErrors(old(employees), plans, refused, refusedNames)
                && employees == FileEmployees(old(employees), plans, refusedNames)
                && Creations() == old(Creations()) + FileCreations(old(employees), plans, refused, refusedNames)
                && result.created == |FileCreations(old(employees), plans, refused, refusedNames)| == |assets| - |old(assets)|
                && old(types) <= types && old(assets) <= assets
    {
      var types0, assets0 := types, assets;
      ghost var employees0 := employees;
      var createdCount := 0;
      ghost var start := Creations();
      var errors: seq<RowError> := [];
      var i := 0;
      assert plans[..0] == [];
      while i < |plans|
        invariant 0 <= i <= |plans|
        invariant Valid()
        invariant createdCount == |assets| - |assets0|
        invariant !FileAborts(plans[..i], refused)
        invariant employees == FileEmployees(employees0, plans[..i], refusedNames)
        invariant Creations() == start + FileCreations(employees0, plans[..i], refused, refusedNames)
        invariant errors == FileErrors(employees0, plans[..i], refused, refusedNames)
        invariant types0 <= types && assets0 <= assets
      {
        var aborted, n;
        aborted, n, errors := ImportNext(plans, i, refused, employees0, start, errors, refusedNames);
        if aborted {
          FileAbortsAt(plans, i, refused);
          return Aborted;
        }
        createdCount := createdCount + n;
        i := i + 1;
      }
      assert plans[..i] == plans;
      CreationsOfLength(types, assets);
      CreationsOfLength(types0, assets0);
      return Done(createdCount, errors);
    }
  }
}
