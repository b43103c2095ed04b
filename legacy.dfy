/**
 * The older function views of assets/views.py: the history rows written by
 * asset_create and asset_update, the assigned filter and holder column of
 * export_assets_csv, and the counts of dashboard_view.
 *
 * The asset is seen through model_to_dict: an ordered list of (field,
 * value) pairs. The form's validation and the save itself are inputs: a
 * request is a GET, an invalid POST or a valid POST carrying the saved
 * asset. The acting user is an id, None for an anonymous user.
 */
module Legacy {
  import opened Base

  /** A field value as model_to_dict returns it; Null is Python's None. */
  datatype Value = Null | Val(text: string)

  /** One remark of asset_update, before it is formatted into text. */
  datatype Remark =
    | FieldChanged(field: string, before: Value, after: Value)
    | AssignedTo(employee: nat)
    | Unassigned

  datatype Note = Text(text: string) | Remarks(remarks: seq<Remark>)

  /** One AssetHistory row of these views. */
  datatype Entry = Entry(asset: nat, user: Option<nat>, action: string, note: Note)

  /** What the request delivers: GET, a POST whose form fails, or a POST whose form saves. */
  datatype Request = Get | InvalidPost | ValidPost

  // ---------------------------------------------------------------------
  // asset_update: the field-by-field comparison

  /** new_data.get(field) */
  function Get(data: map<string, Value>, field: string): Value {
    if field in data then data[field] else Null
  }

  /** One remark per field of the old snapshot whose value differs afterwards, in snapshot order. */
  function FieldRemarks(before: seq<(string, Value)>, after: map<string, Value>): (rs: seq<Remark>)
    ensures |rs| <= |before|
  {
    if before == [] then []
    else
      var (field, value) := before[|before| - 1];
      FieldRemarks(before[..|before| - 1], after) +
        (if value != Get(after, field) then [FieldChanged(field, value, Get(after, field))] else [])
  }

  /** The remark records a real change of a field of the old snapshot. */
  predicate RealChange(r: Remark, before: seq<(string, Value)>, after: map<string, Value>) {
    r.FieldChanged? && r.before != r.after && r.after == Get(after, r.field) && (r.field, r.before) in before
  }

  /** Every remark is a real change of a field of the snapshot. */
  lemma {:induction false} FieldRemarksChanged(before: seq<(string, Value)>, after: map<string, Value>)
    ensures forall k :: 0 <= k < |FieldRemarks(before, after)| ==> RealChange(FieldRemarks(before, after)[k], before, after)
  {
    if before != [] {
      var init := before[..|before| - 1];
      FieldRemarksChanged(init, after);
      var rs := FieldRemarks(before, after);
      var rs0 := FieldRemarks(init, after);
      forall k | 0 <= k < |rs|
        ensures RealChange(rs[k], before, after)
      {
        if k < |rs0| {
          assert rs[k] == rs0[k];
          assert RealChange(rs0[k], init, after);
          var r := rs[k];
          assert (r.field, r.before) in init;
          var j :| 0 <= j < |init| && init[j] == (r.field, r.before);
          assert before[j] == init[j];
        } else {
          assert before[|before| - 1] == (rs[k].field, rs[k].before);
        }
      }
    }
  }

  /** Every field whose value differs gets its remark. */
  lemma {:induction false} FieldRemarksComplete(before: seq<(string, Value)>, after: map<string, Value>, k: nat)
    requires k < |before| && before[k].1 != Get(after, before[k].0)
    ensures FieldChanged(before[k].0, before[k].1, Get(after, before[k].0)) in FieldRemarks(before, after)
  {
    var init := before[..|before| - 1];
    if k < |init| {
      assert init[k] == before[k];
      FieldRemarksComplete(init, after, k);
    }
  }

  /** A snapshot compared with itself yields no remark. */
  lemma {:induction false} FieldRemarksUnchanged(before: seq<(string, Value)>, after: map<string, Value>)
    requires forall k :: 0 <= k < |before| ==> Get(after, before[k].0) == before[k].1
    ensures FieldRemarks(before, after) == []
  {
    if before != [] {
      var init := before[..|before| - 1];
      assert forall k :: 0 <= k < |init| ==> init[k] == before[k];
      FieldRemarksUnchanged(init, after);
    }
  }

  /** The loop over original_data.items(). */
  method CompareSnapshots(before: seq<(string, Value)>, after: map<string, Value>) returns (remarks: seq<Remark>)
    ensures remarks == FieldRemarks(before, after)
  {
    remarks := [];
    var i := 0;
    while i < |before|
      invariant 0 <= i <= |before|
      invariant remarks == FieldRemarks(before[..i], after)
    {
      var (field, value) := before[i];
      var newValue := Get(after, field);
      if value != newValue {
        remarks := remarks + [FieldChanged(field, value, newValue)];
      }
      assert before[..i + 1][..i] == before[..i];
      i := i + 1;
    }
    assert before[..i] == before;
  }

  /** The rows a valid update writes, given the holder before and after the save. */
  function UpdateEntries(asset: nat, user: Option<nat>, remarks: seq<Remark>, previous: Option<nat>, holder: Option<nat>): (es: seq<Entry>)
    ensures 1 <= |es| <= 2
    ensures es[|es| - 1] == Entry(asset, user, "updated", Text("Asset updated successfully."))
    ensures |es| == 2 <==> previous != holder
    ensures |es| == 2 ==> es[0].action == (if holder.Some? then "assigned" else "returned")
  {
    (if previous != holder then
       [Entry(asset, user, if holder.Some? then "assigned" else "returned",
              Remarks(remarks + [if holder.Some? then AssignedTo(holder.value) else Unassigned]))]
     else []) +
    [Entry(asset, user, "updated", Text("Asset updated successfully."))]
  }

  /** The rows a valid create writes. */
  function CreateEntries(asset: nat, user: Option<nat>, holder: Option<nat>): (es: seq<Entry>)
    ensures |es| == (if holder.Some? then 2 else 1)
    ensures es[0].action == "created"
    ensures |es| == 2 ==> es[1].action == "assigned" && es[1].note == Remarks([AssignedTo(holder.value)])
  {
    [Entry(asset, user, "created", Text("Asset created."))] +
    (if holder.Some? then [Entry(asset, user, "assigned", Remarks([AssignedTo(holder.value)]))] else [])
  }

  class HistoryTable {
    var entries: seq<Entry>

    constructor ()
      ensures entries == []
    {
      entries := [];
    }

    /** asset_create: only a valid POST writes history. */
    method AssetCreate(request: Request, asset: nat, holder: Option<nat>, user: Option<nat>)
      modifies this
      ensures request != ValidPost ==> entries == old(entries)
      ensures request == ValidPost ==> entries == old(entries) + CreateEntries(asset, user, holder)
    {
      if request == ValidPost {
        entries := entries + [Entry(asset, user, "created", Text("Asset created."))];
        if holder.Some? {
          entries := entries + [Entry(asset, user, "assigned", Remarks([AssignedTo(holder.value)]))];
        }
      }
    }

    /**
     * asset_update: a GET or an invalid form writes nothing; a valid save
     * compares the snapshots, writes an "assigned"/"returned" row when the
     * holder changed, and always an "updated" row.
     */
    method AssetUpdate(request: Request, asset: nat, before: seq<(string, Value)>, after: map<string, Value>,
                       previous: Option<nat>, holder: Option<nat>, user: Option<nat>)
      modifies this
      ensures request != ValidPost ==> entries == old(entries)
      ensures request == ValidPost ==>
                entries == old(entries) + UpdateEntries(asset, user, FieldRemarks(before, after), previous, holder)
    {
      if request != ValidPost {
        return;
      }
      var remarks := CompareSnapshots(before, after);
      if previous != holder {
        var action: string;
        if holder.Some? {
          action := "assigned";
          remarks := remarks + [AssignedTo(holder.value)];
        } else {
          action := "returned";
          remarks := remarks + [Unassigned];
        }
        entries := entries + [Entry(asset, user, action, Remarks(remarks))];
      }
      entries := entries + [Entry(asset, user, "updated", Text("Asset updated successfully."))];
    }
  }

  // ---------------------------------------------------------------------
  // export_assets_csv and dashboard_view

  /** The fields of an asset these two views read. */
  datatype ListedAsset = ListedAsset(holder: Option<nat>, holderName: string, condition: string)

  /** The `assigned` parameter (`choice`): "yes" keeps held assets, "no" unheld ones, anything else keeps all. */
  function AssignedFilter(assets: seq<ListedAsset>, choice: string): (r: seq<ListedAsset>)
    ensures |r| <= |assets|
    ensures choice == "yes" ==> forall k :: 0 <= k < |r| ==> r[k].holder.Some?
    ensures choice == "no" ==> forall k :: 0 <= k < |r| ==> r[k].holder.None?
    ensures choice != "yes" && choice != "no" ==> r == assets
  {
    if assets == [] then []
    else
      var a := assets[|assets| - 1];
      AssignedFilter(assets[..|assets| - 1], choice) +
        (if (choice == "yes" && a.holder.None?) || (choice == "no" && a.holder.Some?) then [] else [a])
  }

  /** The filter drops no asset it should keep: every held asset survives "yes", every unheld one "no". */
  lemma {:induction false} AssignedFilterKeeps(assets: seq<ListedAsset>, choice: string, k: nat)
    requires k < |assets|
    requires (choice == "yes" && assets[k].holder.Some?) || (choice == "no" && assets[k].holder.None?)
    ensures assets[k] in AssignedFilter(assets, choice)
  {
    if k < |assets| - 1 {
      AssignedFilterKeeps(assets[..|assets| - 1], choice, k);
    }
  }

  /** The "Assigned To" column: the holder's name, or "Unassigned". */
  function AssignedColumn(a: ListedAsset): string {
    if a.holder.Some? then a.holderName else "Unassigned"
  }

  /** With assigned=no every exported row reads "Unassigned"; with assigned=yes none is labelled that way by default. */
  lemma ExportedHolderColumn(assets: seq<ListedAsset>)
    ensures var r := AssignedFilter(assets, "no");
            forall k :: 0 <= k < |r| ==> AssignedColumn(r[k]) == "Unassigned"
    ensures var r := AssignedFilter(assets, "yes");
            forall k :: 0 <= k < |r| ==> AssignedColumn(r[k]) == r[k].holderName
  {
  }

  function CountWhere(assets: seq<ListedAsset>, held: bool, condition: Option<string>): (n: nat)
    ensures n <= |assets|
  {
    if assets == [] then 0
    else
      var a := assets[|assets| - 1];
      CountWhere(assets[..|assets| - 1], held, condition) +
        (if (held ==> a.holder.Some?) && (condition.Some? ==> a.condition == condition.value) then 1 else 0)
  }

  datatype Summary = Summary(total: nat, held: nat, underRepair: nat, disposed: nat, latest: seq<ListedAsset>)

  /** dashboard_view: totals by holder and by exact condition, and the first ten assets of the listing. */
  function DashboardView(assets: seq<ListedAsset>): (s: Summary)
    ensures s.held <= s.total && s.underRepair + s.disposed <= s.total
    ensures |s.latest| == if |assets| < 10 then |assets| else 10
    ensures s.latest <= assets
  {
    RepairDisposedDisjoint(assets);
    Summary(|assets|, CountWhere(assets, true, None), CountWhere(assets, false, Some("repair")),
            CountWhere(assets, false, Some("disposed")), if |assets| < 10 then assets else assets[..10])
  }

  /** No asset is counted both under repair and disposed. */
  lemma {:induction false} RepairDisposedDisjoint(assets: seq<ListedAsset>)
    ensures CountWhere(assets, false, Some("repair")) + CountWhere(assets, false, Some("disposed")) <= |assets|
  {
    if assets != [] {
      RepairDisposedDisjoint(assets[..|assets| - 1]);
    }
  }
}
