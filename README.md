# IT asset management: a verified model of the bookkeeping core

This project models, in Dafny, the logic underneath the Django IT-asset
application. The Django request handling and ORM calls around it are left out.

- **CSV bulk import** (`Upload`, upload.dfy), from `assets/views/upload.py`.
  - The composite "Condition"/"REMARKS" parser.
  - Year coercion and the "Alloted To" name split.
  - `process_peripheral`.
  - The per-row and whole-file logic of `bulk_upload`, over a `Store` object whose three tables (employees, asset types, assets) are sequences.
  - The downloadable sample file.
- **Audit history from the save signals** (`Audit`, audit.dfy), from `assets/signals.py`.
  - Which history actions a pre-save writes for an old/new snapshot pair.
  - The "created" row of post-save.
  - Both append to a `HistoryLog`.
- **Audit history and filters of the older function views** (`Legacy`, legacy.dfy), from `assets/views.py`.
  - The rows written by `asset_create` and `asset_update`.
  - The assigned filter and holder column of `export_assets_csv`.
  - The counters of `dashboard_view`.
- **The current-data export and list filters** (`Export`, export.dfy), from `assets/views/asset.py`.
  - The 24-cell export lines.
  - Round trips of those cells through the importer's parsers.
  - The q / type / assigned / status filters of `asset_list`.
- **The dashboard** (`Dashboard`, dashboard.dfy), from `assets/views/dashboard.py`.
  - Employee selection by search term.
  - Each employee's summary row: mutually exclusive condition counters, up to three samples, de-duplicated categories in first-seen order, and display name.
  - The global counters.
- **The data model** (`Models`, models.dfy), from `assets/models.py`.
  - The choice lists and the document upload path.
  - The on_delete rules as functions on a database value.
  - `DisposalRecord.save` on a `Registry` object.
- **The `querystring` template tag** (`QueryString`, querystring.dfy).
- **`employee_delete`** (`Employees`, employee.dfy).
  - It is gated by lookup and permission.
  - It unassigns the employee's assets and then deletes the employee.
- **Python string operations** the code relies on (`Text`, text.dfy): `strip`, ASCII `lower`, `split`, `join`, `in`, `str(int)` and `int(str)`.

The source files disagree about record shapes. `assets/models.py` has no
`AssetType`, `serial_number`, `is_active` or first/last names, yet the views
and signals use them. So each module models the fields its own source file
reads and writes.

Some inputs stand for things outside the code:

- **Database refusals.** The database's refusals to insert are parameters. `refused` holds the asset records it refuses. `refusedNames` holds the (first, last) names under which it refuses a new employee, for example because of the NOT NULL `email` column that the importer's default `None` violates.
- **Acting user.** The acting user is a parameter; an anonymous user is `None`.
- **Request outcome.** The method, form validity and permissions are parameters.

## Model

| member | source | states |
|---|---|---|
| Upload.ParseCompositeField | assets/views/upload.py:11-24 | the loop over `;`-separated parts builds exactly the map of CompositeOf; an empty cell gives the empty map |
| Upload.CompositeKeys | assets/views/upload.py:19-23 | a key is in the parsed map iff some part with a colon has that stripped, lowercased key; parts without a colon contribute nothing |
| Upload.CompositeLastWins | assets/views/upload.py:22-23 | a key's value is the stripped text after the first colon of the last part carrying that key |
| Upload.CompositeOfEntry | assets/views/upload.py:17-24 | a single "name: value" cell parses to the one entry {lower(strip(name)): value} |
| Upload.ParseYear | assets/views/upload.py:38-42 | when int() accepts the cell the year is that integer, whatever its spelling ("05", "+5"); blank or other text gives 0 |
| Upload.ParseYearOfString | assets/views/upload.py:120-124 | reading str(y) back as a year gives y |
| Upload.SplitName | assets/views/upload.py:79-84 | a blank cell names no employee; otherwise the first name is a non-empty word without whitespace |
| Upload.SplitNameOfJoin | assets/views/upload.py:82-84 | "first w1 w2 …" splits into first and the remaining words joined by single spaces |
| Upload.SplitNameKeepsWords | assets/views/upload.py:79-84 | no word of the cell is lost or reordered: first and last name, re-joined by one space, are the stripped cell's words joined by single spaces |
| Upload.JoinOfWordsTrimmed | assets/views/upload.py:84 | words joined by single spaces have no surrounding whitespace |
| Upload.PeripheralEntryOf | assets/views/upload.py:34-56 | a peripheral is created iff its stripped cell is non-blank, with that cell as make_model, its type name, no configuration, and condition "working" / remarks "" when the composite maps lack the lowercased name |
| Upload.PeripheralEntries | assets/views/upload.py:147-156 | one entry per peripheral column, in the fixed order |
| Upload.PeripheralEntriesAt | assets/views/upload.py:155-156 | the k-th entry is that of the k-th peripheral column |
| Upload.PresentEntries | assets/views/upload.py:155-156 | the peripherals created are as many as the non-blank peripheral cells |
| Upload.RowCount | assets/views/upload.py:104-110 | a row creates nothing when Device is blank, else the main asset (unless refused) plus one asset per non-blank peripheral cell |
| Upload.RowCreations | assets/views/upload.py:128-156 | every asset a row creates, main device and peripherals alike, gets the row's employee as alloted_to |
| Upload.PeripheralsStep | assets/views/upload.py:147-156 | storing one more peripheral column that is not refused adds exactly its entry, with the holder, to the row's assets |
| Upload.MissingColumnsBlank | assets/views/upload.py:37-42 | a peripheral whose serial-number and year columns are missing from the row is stored with no serial number and year 0 |
| Upload.MainConditionOfCell | assets/views/upload.py:100-127 | a Condition cell "<device>: <value>" gives the main asset that condition |
| Upload.MainConditionDefault | assets/views/upload.py:126 | with no Condition entry for the device, the main asset's condition is "working" |
| Upload.PlansOfAt | assets/views/upload.py:76 | the k-th row of the file is read into the k-th plan |
| Upload.DeviceErrorsKeep | assets/views/upload.py:97-145 | the Device and main-asset errors of a row are kept apart from its employee error |
| Upload.WithoutEmployeeErrorsAppend | assets/views/upload.py:74 | errors are accumulated by appending, so they can be filtered row by row |
| Upload.LinesAppend | assets/views/upload.py:97-145 | appending a later row's errors keeps the error list in line order |
| Upload.RowErrorsOnLine | assets/views/upload.py:97-145 | every error of a row names that row's line |
| Upload.CreationsOfMoreTypes | assets/views/upload.py:107 | adding asset types does not change what existing assets describe |
| Upload.CreationsOfLength | assets/views/upload.py:129 | one description per stored asset |
| Upload.CreationsOfAppend | assets/views/upload.py:129-142 | inserting an asset adds its description at the end |
| Upload.FileAbortsAt | assets/views/upload.py:75-156 | an uncaught peripheral failure in any row aborts the whole import |
| Upload.FileStep | assets/views/upload.py:76-156 | a row that does not abort extends the rows before it: the file has still not aborted, and its creations, employee table and error list grow by that row's own |
| Upload.FileAbortsStep | assets/views/upload.py:75-156 | a file prefix that has not aborted, followed by a row that does not abort, has not aborted |
| Upload.FileRowsStep | assets/views/upload.py:76-156 | row i resolves its holder against the employee table rows 0 .. i-1 left, and adds its employee, its assets and its errors (on line i + 2) to theirs |
| Upload.FileErrorsDevice | assets/views/upload.py:97-145 | dropping the employee errors from the file's error list leaves exactly the missing-Device and main-asset errors, row by row |
| Upload.FileErrorsLines | assets/views/upload.py:97-145 | every error names a data line of the file (2 .. rows + 1) and the errors come in line order |
| Upload.FileEmployeesGrow | assets/views/upload.py:85-95 | the import only ever adds employees |
| Upload.SingleRowHolder | assets/views/upload.py:79-156 | a one-row file naming someone not yet employed: when the insert is accepted, the employee is appended and every asset the row creates is assigned to them; when it is refused, the row reports an employee error first, the table is unchanged and the assets are still created, with no holder |
| Upload.SampleHeaderColumns | assets/views/upload.py:169-186 | the sample has 24 header cells and 24 data cells; its header has the "Alloted To", Device, Condition and REMARKS columns |
| Upload.SampleMainColumns | assets/views/upload.py:169-186 | the header has every column the import reads for the main device (Make model, Serial No., PROCESSOR, RAM, HDD, SSD, OS, Year of Purchase) |
| Upload.SamplePeripheralColumns | assets/views/upload.py:169-186 | the header has every peripheral column, and serial-number and year columns for Monitor, UPS and Printer |
| Upload.SampleKeyboardColumns | assets/views/upload.py:169-186 | the header has no "Keyboard and Mouse Serial number" or "Keyboard and Mouse Year of Purchase" column |
| Upload.SampleSpeakerColumns | assets/views/upload.py:169-186 | the header has no "Speaker Serial number" or "Speaker Year of Purchase" column |
| Upload.SampleRowLosesKeyboardSerial | assets/views/upload.py:169-186 | a row read back from the sample stores "Keyboard and Mouse" with no serial number and year 0, whatever the row holds |
| Upload.SampleRowLosesSpeakerSerial | assets/views/upload.py:169-186 | a row read back from the sample stores Speaker with no serial number and year 0, whatever the row holds |
| Upload.UniqueNamesDistinct | assets/views/upload.py:44-107 | get_or_create keeps asset type names pairwise distinct |
| Upload.FirstNamed | assets/views/upload.py:85-95 | the position of the first employee with that name; it is past the end exactly when nobody has the name |
| Upload.HolderOf | assets/views/upload.py:79-97 | a blank cell, an ambiguous name or a refused insert of a new employee gives no holder; a name nobody has, when the insert is accepted, gives the employee appended at the end; otherwise the one employee with the name |
| Upload.Store.constructor | assets/views/upload.py:75 | the tables start empty and valid |
| Upload.Store.GetOrCreateType | assets/views/upload.py:44-107 | returns the type with that name, appending it only when no type has it; nothing else changes |
| Upload.Store.GetOrCreateEmployee | assets/views/upload.py:85-97 | no match appends the employee with the default fields and returns it, unless the database refuses the insert, which raises (no id, nothing changes); one match returns that employee; several matches raise (no id, nothing changes) |
| Upload.Store.CreateAsset | assets/views/upload.py:128-142 | appends the asset, adding its type name, holder and fields to Creations |
| Upload.Store.ResolveHolder | assets/views/upload.py:79-97 | the holder is HolderOf the table before the row, the table becomes the one get_or_create leaves, and an employee error is reported exactly when get_or_create raises: on an ambiguous name or on a refused insert of a new employee |
| Upload.Store.ProcessPeripheral | assets/views/upload.py:26-56 | returns 0 and creates nothing for a blank cell, else creates one asset with the holder and returns 1; a refused insert aborts |
| Upload.Store.ImportPeripherals | assets/views/upload.py:147-156 | creates the present peripherals in column order, each with the holder, and counts them, unless one is refused |
| Upload.Store.ImportMain | assets/views/upload.py:104-145 | creates the main asset with its type and the holder and returns 1, or records a "Main Asset error" and returns 0 |
| Upload.Store.ImportDevice | assets/views/upload.py:104-156 | a blank Device yields exactly one missing-Device error and no assets; otherwise the main asset, then the peripherals, all with the holder (RowCreations), and the Device errors of the row |
| Upload.Store.ImportRow | assets/views/upload.py:76-156 | one row: the holder is HolderOf the table before it, the employee table becomes EmployeesAfter, and when it does not abort the assets and errors are exactly the row's RowCreations and RowErrors |
| Upload.Store.ImportNext | assets/views/upload.py:76-156 | row i, after rows 0 .. i-1: when it does not abort, the employee table, stored assets and error list are those of the file up to row i |
| Upload.Store.ImportAll | assets/views/upload.py:76-156 | the loop over the rows reports an abort iff some row has an uncaught peripheral failure; otherwise the errors are exactly FileErrors (an employee error for each ambiguous name or refused new employee), the employee table is FileEmployees, and the assets added are exactly FileCreations (with their holders), counted |
| Upload.Store.Rollback | assets/views/upload.py:75 | leaving the atomic block by an exception restores all three tables |
| Upload.Store.BulkUpload | assets/views/upload.py:60-163 | a decode failure processes no row; an aborted import leaves every table as it was; otherwise the errors, the employee table and the added assets are exactly those the rows determine, the errors name data lines in line order, and without the employee errors they are the Device and main-asset errors |
| Text.Strip | assets/views/upload.py:34 | str.strip() leaves no surrounding whitespace and never lengthens the text |
| Text.StripIdempotent | assets/views/upload.py:104-126 | stripping twice is stripping once |
| Text.SplitOnJoin | assets/views/asset.py:261 | splitting comma-free cells joined with commas gives the cells back |
| Text.ParseInt | assets/views/upload.py:40 | int() accepts only a non-blank cell |
| Text.IntToString | assets/views/asset.py:202 | str(n) is non-empty, without whitespace or commas |
| Text.Lower | assets/views/upload.py:20 | lower() keeps the length |
| Text.Words | assets/views/upload.py:82 | str.split() gives non-empty words without whitespace |
| Text.SplitOn | assets/views/upload.py:16 | str.split(sep) gives at least one part, none containing sep |
| Text.ParseIntOfString | assets/views/upload.py:40-122 | int(str(n)) == n |
| Text.WordsOfJoin | assets/views/upload.py:82 | str.split() of words joined by single spaces gives the words back |
| Audit.Changes | assets/signals.py:24-42 | at most three changes per save, each naming the new holder |
| Audit.ChangesMention | assets/signals.py:26-42 | an action is recorded iff its field changed as the handler checks: "assigned"/"transferred" for a new holder (by whether there was one), "disposed"/"repaired" for a condition change to "disposed"/"repair", "returned" for deactivation only |
| Audit.ChangesEmpty | assets/signals.py:24-53 | nothing is recorded iff none of the three tracked changes happened; there is never an "updated" or "created" entry |
| Audit.ChangesOrdered | assets/signals.py:26-42 | entries follow the order holder, condition, active, each at most once |
| Audit.ChangeEntries | assets/signals.py:46-53 | one history row per change, in order, with the acting user and "System auto-logged change: <action>" |
| Audit.PreSaveEntries | assets/signals.py:16-53 | at most three rows, all carrying the acting user and the new holder |
| Audit.PreSaveOneUser | assets/signals.py:16-51 | an instance without pk records nothing; all rows of one save are about one asset and carry one user |
| Audit.DisposalSaveEntries | assets/signals.py:16-53 | the save that marks a stored asset "disposed" and changes nothing else writes exactly one "disposed" row for its holder, by the acting user |
| Audit.HistoryLog.constructor | assets/signals.py:47 | the history starts empty |
| Audit.HistoryLog.LogAssetChanges | assets/signals.py:10-53 | the history grows by exactly PreSaveEntries and nothing else changes |
| Audit.HistoryLog.AppendEntries | assets/signals.py:44-53 | the loop appends exactly ChangeEntries: one row per change, in order, and nothing else changes |
| Audit.HistoryLog.LogAssetCreation | assets/signals.py:56-67 | created appends one "created" row naming the initial holder; otherwise nothing |
| Legacy.FieldRemarks | assets/views.py:199-205 | at most one remark per snapshot field |
| Legacy.FieldRemarksChanged | assets/views.py:202-205 | every remark is a real change of a snapshot field, with its old and new values |
| Legacy.FieldRemarksComplete | assets/views.py:202-205 | every field whose value differs gets its remark |
| Legacy.FieldRemarksUnchanged | assets/views.py:202-205 | an unchanged snapshot yields no remark |
| Legacy.CompareSnapshots | assets/views.py:199-205 | the loop builds exactly FieldRemarks, in snapshot order |
| Legacy.UpdateEntries | assets/views.py:207-229 | 1 or 2 rows: "assigned"/"returned" first iff the holder changed, then always "updated" |
| Legacy.CreateEntries | assets/views.py:164-179 | "created", then "assigned" only with a holder |
| Legacy.HistoryTable.constructor | assets/views.py:166 | the history starts empty |
| Legacy.HistoryTable.AssetCreate | assets/views.py:160-185 | a valid POST appends CreateEntries; GET and invalid forms append nothing |
| Legacy.HistoryTable.AssetUpdate | assets/views.py:188-237 | a valid POST appends UpdateEntries of the field remarks; GET and invalid forms append nothing |
| Legacy.AssignedFilter | assets/views.py:68-72 | "yes" keeps only held assets, "no" only unheld ones, any other value keeps all |
| Legacy.AssignedFilterKeeps | assets/views.py:68-72 | the filter drops no asset it should keep |
| Legacy.ExportedHolderColumn | assets/views.py:89 | with assigned=no every row reads "Unassigned"; with assigned=yes every row shows the holder's name |
| Legacy.CountWhere | assets/views.py:136-139 | a count never exceeds the number of assets |
| Legacy.DashboardView | assets/views.py:135-152 | held ≤ total, repair + disposed ≤ total, and the latest list is the first min(10, n) assets |
| Legacy.RepairDisposedDisjoint | assets/views.py:138-139 | no asset is counted both under repair and disposed |
| Export.SameColumnsAsImport | assets/views/asset.py:160-168 | the export's peripheral list and header are the importer's list and the sample header (24 cells) |
| Export.MainAssets | assets/views/asset.py:173-177 | only main assets (no type, or a non-peripheral type name) become lines |
| Export.MainAssetsComplete | assets/views/asset.py:173-177 | every main asset becomes a line |
| Export.YearCell | assets/views/asset.py:202 | the year cell is empty exactly when the year is 0 or missing |
| Export.CompositeCell | assets/views/asset.py:205-206 | "<type>: <value>" when both are present, otherwise the bare value |
| Export.LowestHeld | assets/views/asset.py:212-216 | the lowest-id asset of that type held by that employee, None iff there is none |
| Export.GroupsFor | assets/views/asset.py:209-227 | each peripheral's cells come from its lowest-id held asset; all blank for an unassigned asset |
| Export.PeripheralGroups | assets/views/asset.py:209-227 | five groups, all blank for an unassigned asset |
| Export.FillPeripherals | assets/views/asset.py:209-227 | the loop fills exactly PeripheralGroups |
| Export.RowCells | assets/views/asset.py:229-260 | every data row has as many cells as the header |
| Export.RowCellsFacts | assets/views/asset.py:194-260 | 24 cells: the line number, the type name under Device and Make model, make_model under PROCESSOR, and a year cell that is blank exactly when the year is 0 |
| Export.RowCellsBlank | assets/views/asset.py:194-260 | an unassigned asset's line has every peripheral cell blank |
| Export.ExportRowCells | assets/views/asset.py:179-262 | line k holds Sl.No. k+1 and the facts above for the k-th main asset |
| Export.WriteLines | assets/views/asset.py:179-262 | the loop writes one line per main asset, numbered from 1 |
| Export.ExportCurrentData | assets/views/asset.py:155-266 | non-staff users are refused; otherwise the header line and then the main assets' lines |
| Export.LinesStep | assets/views/asset.py:261-262 | each iteration appends the next asset's line |
| Export.LinesOfRows | assets/views/asset.py:179-262 | the loop's text is the lines of ExportRow 0, 1, … |
| Export.ExportTextRows | assets/views/asset.py:162-262 | the body is the header line followed by the lines of ExportRow 0, 1, … |
| Export.LineCells | assets/views/asset.py:261 | without commas in the cells, splitting a line at commas gives its cells back |
| Export.YearCellRoundTrip | assets/views/asset.py:202 | the importer reads the year cell back as the year (0 when blank) |
| Export.CompositeCellRoundTrip | assets/views/asset.py:205-206 | a clean "<type>: <value>" cell parses back to {lower(type): value} |
| Export.ConditionCellRoundTrip | assets/views/asset.py:205 | the importer recovers a typed asset's condition from its Condition and Device cells |
| Export.HolderCellRoundTrip | assets/views/asset.py:182-184 | the holder cell splits back into first and last name when the first name is one word, including an empty last name (the cell "first ") |
| Export.ListAssets | assets/views/asset.py:35-71 | every listed asset passes the search, type, assigned and status filters |
| Export.ListAssetsComplete | assets/views/asset.py:42-71 | every asset that passes all filters is listed |
| Export.ListAssetsUnfiltered | assets/views/asset.py:42-71 | with no parameters every asset is listed |
| Export.TypeParamIgnored | assets/views/asset.py:51-55 | a non-integer type parameter is ignored |
| Export.AssignedParamIgnored | assets/views/asset.py:57-67 | an assigned value that is neither a keyword nor an integer is ignored |
| Export.AssignedOneIsKeyword | assets/views/asset.py:60-64 | "1" keeps every held asset (it is a keyword, not an id); "01" keeps only employee 1's assets and "2" only employee 2's |
| Dashboard.Classify | assets/views/dashboard.py:64-70 | damaged iff the lowercased condition is "damaged"; else repair iff it contains "repair"; else disposed iff it contains "disposed" |
| Dashboard.CountKind | assets/views/dashboard.py:57-70 | a counter never exceeds the asset count |
| Dashboard.CountsExclusive | assets/views/dashboard.py:57-70 | damaged + repair + disposed ≤ asset_count |
| Dashboard.CountConditions | assets/views/dashboard.py:60-70 | the loop computes the three counters, which add up to at most the asset count |
| Dashboard.Samples | assets/views/dashboard.py:73 | min(3, n) samples, "-" in place of an empty make_model |
| Dashboard.IdsAppend | assets/views/dashboard.py:80-82 | adding a category adds its id to the seen set |
| Dashboard.CategoriesDistinct | assets/views/dashboard.py:76-82 | no type id is listed twice |
| Dashboard.CategoriesIds | assets/views/dashboard.py:76-82 | exactly the ids of the typed assets are listed |
| Dashboard.FirstOfType | assets/views/dashboard.py:78-80 | the first position holding that type |
| Dashboard.FirstOfTypePrefix | assets/views/dashboard.py:78-80 | a first occurrence stays put as assets are appended |
| Dashboard.CategoriesOrdered | assets/views/dashboard.py:76-82 | categories come in the order their types first occur |
| Dashboard.CollectCategories | assets/views/dashboard.py:76-82 | the loop with the seen set builds exactly Categories |
| Dashboard.DisplayName | assets/views/dashboard.py:88 | the stripped "first last", or "-" when that is empty; never empty |
| Dashboard.BlankNameIsDash | assets/views/dashboard.py:88 | whitespace-only names display as "-" |
| Dashboard.HeldBy | assets/views/dashboard.py:46-57 | exactly the employee's assets: every asset listed is held by them, and every asset they hold is listed |
| Dashboard.Summarize | assets/views/dashboard.py:52-96 | the loop body builds exactly SummaryOf |
| Dashboard.EmployeesData | assets/views/dashboard.py:50-96 | one row per employee, sl running from 1 in iteration order |
| Dashboard.SummaryFacts | assets/views/dashboard.py:57-96 | the row's counters add up to at most its asset count, at most three samples, distinct categories |
| Dashboard.SelectEmployees | assets/views/dashboard.py:36-42 | all employees for an empty term; otherwise only employees whose name contains the term, or whose pk is non-zero and who hold a matching asset (a pk of 0 is dropped as falsy) |
| Dashboard.SelectEmployeesComplete | assets/views/dashboard.py:24-42 | no matching employee is left out |
| Dashboard.EmployeesTable | assets/views/dashboard.py:9-96 | the rows are those of the employees selected by the stripped term (holders with pk 0 only by name), numbered from 1 |
| Dashboard.CountWhere | assets/views/dashboard.py:11-15 | a filtered count never exceeds the number of assets |
| Dashboard.GlobalTotals | assets/views/dashboard.py:11-15 | every global counter is at most the total |
| Dashboard.HeldSplitsByEmployee | assets/views/dashboard.py:12-57 | one employee's asset count is at most the assigned-assets counter |
| Models.Codes | assets/models.py:7-13 | the stored values of a choice list, in order |
| Models.ConditionCodes | assets/models.py:7-74 | exactly the five distinct codes working, damaged, repair, obsolete, disposed; the default "working" is one of them |
| Models.ActionCodes | assets/models.py:139-147 | the seven distinct history actions; "transferred" is not among them |
| Models.DocumentPath | assets/models.py:83-84 | the path starts with "asset_documents/" and ends with the file name |
| Models.DocumentPathInjective | assets/models.py:83-84 | slash-free tags make the path determine tag and file name |
| Models.SlashAt | assets/models.py:84 | the first '/' after a slash-free tag comes right after it |
| Models.Without | assets/models.py:90-149 | the rows that do not belong to the asset |
| Models.DeleteEmployee | assets/models.py:40-42 | SET_NULL: the employee's assets stay, with no holder; nothing else changes |
| Models.DeleteAsset | assets/models.py:90-149 | CASCADE: the asset's documents, repairs, disposal record and history rows go with it |
| Models.DeleteEmployeeConsistent | assets/models.py:40-42 | after deleting an employee no asset points at it and every foreign key is valid |
| Models.DeleteAssetConsistent | assets/models.py:90-149 | after deleting an asset no row points at it and every foreign key is valid |
| Models.Registry.constructor | assets/models.py:115-120 | no disposal records |
| Models.Registry.SaveDisposal | assets/models.py:118-135 | a first save sets the asset's condition to "disposed" before inserting; a re-save leaves the asset alone; a second record for one asset is refused; other assets never change |
| QueryString.Querystring | assets/templatetags/querystring.py:15-21 | the loop on the copy computes Apply; the caller's parameters are a value and stay as they were |
| QueryString.ApplyNamed | assets/templatetags/querystring.py:17-21 | a key passed None is absent afterwards; any other value becomes the key's only value |
| QueryString.ApplyOthers | assets/templatetags/querystring.py:15-21 | keys not named keep their values, and absent ones stay absent |
| QueryString.PopAbsent | assets/templatetags/querystring.py:19 | popping an absent key changes nothing |
| QueryString.ApplyIdempotent | assets/templatetags/querystring.py:17-21 | applying the same arguments twice equals applying them once |
| Employees.Unassign | assets/views/employee.py:54 | no asset is held by the employee afterwards; others' and unheld assets are unchanged; no asset is added or removed |
| Employees.UnassignThenDelete | assets/views/employee.py:54-55 | clearing the holders first leaves the same tables as the SET_NULL delete alone |
| Employees.Directory.constructor | assets/views/employee.py:47 | the tables as given |
| Employees.Directory.EmployeeDelete | assets/views/employee.py:46-59 | missing employee → 404 and forbidden without permission, changing nothing; GET shows the confirmation and changes nothing; POST unassigns, then removes the employee; history is never touched |
| Employees.EmployeeDeleteConsistent | assets/views/employee.py:54-55 | a successful delete keeps every foreign key valid and leaves history alone |

## Left out

- Rendering, redirects, messages, forms, URL routing and admin are left out. Login checks are also left out, except the permission and staff gates that change a view's outcome.
- ORM query semantics are modelled as filters over sequences in queryset order. Transactions inside `bulk_upload` are all-or-nothing over the whole file.
- Database errors are reduced to the `refused` set.
  - The import catches errors only for employees (`refusedNames`) and the main asset; any other refusal aborts the file.
  - Database-specific behaviour after a caught exception inside the transaction is not modelled.
- CSV reading is left out: `csv.DictReader` output is an input, with `reader.line_num` taken as position + 2 (no multi-line cells).
- `Upload.BulkUpload`: error lines are position + 2. The reader skips blank lines but still counts them in `line_num`, so after a blank line the source reports a larger number than this model.
- `Upload.Row`: a row is a map from header name to cell, so a short row's missing cells read as "". In the source they are None, and `.strip()` on them raises outside any try, which aborts the import.
- CSV export quoting is left out. The export joins cells with raw commas; `Export.LineCells` states the round trip only for comma-free cells.
- UTF-8 decoding is left out; only "decode failure ⇒ no rows processed" is modelled.
- `Text.Lower`: folds ASCII letters only, not the full Unicode `str.lower()`.
- `Text.ParseInt`: Python `int()`'s extras (underscores, non-ASCII digits) are not accepted; an optional sign and ASCII digits are.
- Django's `icontains`/`iexact` are modelled as substring/equality after the same ASCII lowering.
- `Legacy.HistoryTable.AssetUpdate`: remark texts are kept as data, not formatted.
  - The Title-Case field name and the `str()` of values are not built.
  - The "; "-joined string is not built.
  - The "Assigned to <employee>" text is a `Remark` value.
- `Legacy.HistoryTable.AssetUpdate` and `Legacy.HistoryTable.AssetCreate` take one acting user for all rows. In the source only the "updated" row maps an anonymous user to None; the other rows pass the request's user object as it is.
- `Upload.Store.GetOrCreateEmployee`: the employee's defaults are kept as data. Which inserts the database refuses (e-mail/phone constraints) is the `refusedNames` parameter, not derived from the defaults.
- `QueryString.Querystring`: the final `urlencode()` is left out, and so is the order of keys in the encoded string.
- `Export.ExportCurrentData`: the response's content type and attachment header are left out.
- Thread-local acting user (`common/current_user.py`), `common/login_required.py`, `create_user.py` and `assets/views/history.py` are not part of this model.
- UUID generation, file storage, timestamps, ordering by timestamp and `print` logging are left out. `recent_history` on the dashboard is therefore not modelled.
- `Models.Registry.SaveDisposal`: the record's own fields (date, method, certificate) are not modelled, only its link to the asset.
- `Models.Registry.SaveDisposal`: the asset's `save()` also fires the pre_save hook, which writes a "disposed" history row. That row is not part of this member. `Audit.DisposalSaveEntries` states it separately, over the audit module's asset snapshot. That snapshot has an `is_active` flag, which the asset model in `assets/models.py` lacks.
- `Upload.SampleHeaderColumns`: states the shape of the sample file. What importing the sample produces is stated only for the missing "Keyboard and Mouse" and Speaker columns.
