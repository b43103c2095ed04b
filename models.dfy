/**
 * The data model of assets/models.py: the condition, repair-status and
 * history-action choice lists, the upload path of asset documents, what the
 * on_delete rules do when an employee or an asset is deleted, and the save
 * of a DisposalRecord, which marks its asset disposed on first save.
 *
 * Rows are kept in maps from primary key to record; a foreign key is the
 * primary key it points to.
 */
module Models {
  import opened Base

  // ---------------------------------------------------------------------
  // Choice lists

  const ConditionChoices: seq<(string, string)> := [
    ("working", "Working"),
    ("damaged", "Damaged"),
    ("repair", "Under Repair"),
    ("obsolete", "Obsolete"),
    ("disposed", "Disposed")]

  const RepairStatusChoices: seq<(string, string)> := [
    ("reported", "Reported"),
    ("in_progress", "In Progress"),
    ("resolved", "Resolved"),
    ("replaced", "Replaced"),
    ("closed", "Closed")]

  const ActionChoices: seq<(string, string)> := [
    ("created", "Created"),
    ("assigned", "Assigned"),
    ("updated", "Updated"),
    ("returned", "Returned"),
    ("repaired", "Sent for Repair"),
    ("disposed", "Disposed"),
    ("deleted", "Deleted")]

  /** Asset.condition's default. */
  const DefaultCondition: string := "working"

  /** The stored values of a choice list. */
  function Codes(choices: seq<(string, string)>): (cs: seq<string>)
    ensures |cs| == |choices|
    ensures forall k :: 0 <= k < |cs| ==> cs[k] == choices[k].0
  {
    if choices == [] then [] else Codes(choices[..|choices| - 1]) + [choices[|choices| - 1].0]
  }

  predicate Distinct(cs: seq<string>) {
    forall i, j :: 0 <= i < j < |cs| ==> cs[i] != cs[j]
  }

  /** Condition is one of exactly five distinct codes, and the default is one of them. */
  lemma ConditionCodes()
    ensures Codes(ConditionChoices) == ["working", "damaged", "repair", "obsolete", "disposed"]
    ensures Distinct(Codes(ConditionChoices))
    ensures DefaultCondition in Codes(ConditionChoices)
  {
    var cs := Codes(ConditionChoices);
    assert cs == ["working", "damaged", "repair", "obsolete", "disposed"];
  }

  /**
   * The seven history actions are distinct. The pre-save signal writes
   * "transferred", which the list does not offer; choices are not checked
   * when a row is created in code, so such rows are stored as they are.
   */
  lemma ActionCodes()
    ensures Codes(ActionChoices) == ["created", "assigned", "updated", "returned", "repaired", "disposed", "deleted"]
    ensures Distinct(Codes(ActionChoices))
    ensures "transferred" !in Codes(ActionChoices)
  {
    var cs := Codes(ActionChoices);
    assert cs == ["created", "assigned", "updated", "returned", "repaired", "disposed", "deleted"];
  }

  // ---------------------------------------------------------------------
  // asset_document_path

  const DocumentRoot: string := "asset_documents/"

  /** Where an uploaded document is stored: under the asset's tag, keeping the file name. */
  function DocumentPath(assetTag: string, filename: string): (path: string)
    ensures |path| == |DocumentRoot| + |assetTag| + 1 + |filename|
    ensures path[..|DocumentRoot|] == DocumentRoot
    ensures path[|path| - |filename|..] == filename
  {
    DocumentRoot + assetTag + "/" + filename
  }

  /** Tags never contain '/' (they are UUIDs), so a path gives its tag and file name back. */
  lemma DocumentPathInjective(tag1: string, name1: string, tag2: string, name2: string)
    requires '/' !in tag1 && '/' !in tag2
    requires DocumentPath(tag1, name1) == DocumentPath(tag2, name2)
    ensures tag1 == tag2 && name1 == name2
  {
    var p := DocumentPath(tag1, name1);
    var n := |DocumentRoot|;
    assert p[n..] == tag1 + "/" + name1;
    assert p[n..] == tag2 + "/" + name2;
    SlashAt(tag1, name1, tag2, name2);
    SlashAt(tag2, name2, tag1, name1);
    assert tag1 == p[n..n + |tag1|] == tag2;
    assert name1 == p[n + |tag1| + 1..] == name2;
  }

  /** The first '/' after a slash-free tag sits right after the tag. */
  lemma SlashAt(tag1: string, name1: string, tag2: string, name2: string)
    requires '/' !in tag2
    requires tag1 + "/" + name1 == tag2 + "/" + name2
    ensures |tag2| <= |tag1|
  {
    var s := tag2 + "/" + name2;
    assert s[|tag1|] == (tag1 + "/" + name1)[|tag1|] == '/';
    assert forall i :: 0 <= i < |tag2| ==> s[i] == tag2[i] && tag2[i] in tag2;
  }

  // ---------------------------------------------------------------------
  // on_delete

  datatype Asset = Asset(holder: Option<nat>, condition: string)

  /**
   * The tables that hold foreign keys to an employee or an asset. The
   * dependent tables map a row's pk to the asset it belongs to.
   */
  datatype Db = Db(
    employees: set<nat>,
    assets: map<nat, Asset>,
    documents: map<nat, nat>,
    repairs: map<nat, nat>,
    disposals: map<nat, nat>,
    history: map<nat, nat>)

  /** Every foreign key points at an existing row, and an asset has at most one disposal record. */
  predicate Consistent(db: Db) {
    && (forall a :: a in db.assets && db.assets[a].holder.Some? ==> db.assets[a].holder.value in db.employees)
    && (forall d :: d in db.documents ==> db.documents[d] in db.assets)
    && (forall r :: r in db.repairs ==> db.repairs[r] in db.assets)
    && (forall d :: d in db.disposals ==> db.disposals[d] in db.assets)
    && (forall h :: h in db.history ==> db.history[h] in db.assets)
    && (forall d, e :: d in db.disposals && e in db.disposals && db.disposals[d] == db.disposals[e] ==> d == e)
  }

  /** The rows of a dependent table that do not belong to `asset`. */
  function Without(rows: map<nat, nat>, asset: nat): (r: map<nat, nat>)
    ensures forall k :: k in r <==> k in rows && rows[k] != asset
    ensures forall k :: k in r ==> r[k] == rows[k]
  {
    map k | k in rows && rows[k] != asset :: rows[k]
  }

  /** alloted_to is SET_NULL: deleting an employee keeps its assets, with no holder. */
  function DeleteEmployee(db: Db, employee: nat): (r: Db)
    ensures r.employees == db.employees - {employee}
    ensures r.assets.Keys == db.assets.Keys
    ensures forall a :: a in r.assets ==>
              r.assets[a] == if db.assets[a].holder == Some(employee) then db.assets[a].(holder := None) else db.assets[a]
    ensures r.documents == db.documents && r.repairs == db.repairs && r.disposals == db.disposals && r.history == db.history
  {
    db.(employees := db.employees - {employee},
        assets := map a | a in db.assets ::
                    if db.assets[a].holder == Some(employee) then db.assets[a].(holder := None) else db.assets[a])
  }

  /** Documents, repairs, the disposal record and history rows are CASCADE: they go with their asset. */
  function DeleteAsset(db: Db, asset: nat): (r: Db)
    ensures r.assets == db.assets - {asset} && r.employees == db.employees
    ensures forall d :: d in r.documents <==> d in db.documents && db.documents[d] != asset
    ensures forall d :: d in r.repairs <==> d in db.repairs && db.repairs[d] != asset
    ensures forall d :: d in r.disposals <==> d in db.disposals && db.disposals[d] != asset
    ensures forall d :: d in r.history <==> d in db.history && db.history[d] != asset
  {
    Db(db.employees, db.assets - {asset}, Without(db.documents, asset), Without(db.repairs, asset),
       Without(db.disposals, asset), Without(db.history, asset))
  }

  /** Deleting an employee leaves no asset pointing at it and keeps the database consistent. */
  lemma DeleteEmployeeConsistent(db: Db, employee: nat)
    requires Consistent(db)
    ensures var r := DeleteEmployee(db, employee);
            Consistent(r) && forall a :: a in r.assets ==> r.assets[a].holder != Some(employee)
  {
  }

  /** Deleting an asset leaves no row pointing at it and keeps the database consistent. */
  lemma DeleteAssetConsistent(db: Db, asset: nat)
    requires Consistent(db)
    ensures var r := DeleteAsset(db, asset);
            Consistent(r) &&
            (forall d :: d in r.documents ==> r.documents[d] != asset) &&
            (forall d :: d in r.disposals ==> r.disposals[d] != asset)
  {
    var r := DeleteAsset(db, asset);
    assert forall d :: d in r.documents ==> r.documents[d] == db.documents[d];
    assert forall d :: d in r.repairs ==> r.repairs[d] == db.repairs[d];
    assert forall d :: d in r.disposals ==> r.disposals[d] == db.disposals[d];
    assert forall d :: d in r.history ==> r.history[d] == db.history[d];
  }

  // ---------------------------------------------------------------------
  // DisposalRecord.save

  datatype SaveResult = Saved(pk: nat) | IntegrityError

  /** The asset table and the disposal table, as DisposalRecord.save touches them. */
  class Registry {
    var assets: map<nat, Asset>
    /** Disposal record pk to the pk of its asset. */
    var disposals: map<nat, nat>

    ghost predicate Valid()
      reads this
    {
      && (forall d :: d in disposals ==> disposals[d] in assets)
      && (forall d, e :: d in disposals && e in disposals && disposals[d] == disposals[e] ==> d == e)
    }

    /** The disposal record of `asset`, when there is one. */
    predicate HasDisposal(asset: nat)
      reads this
    {
      exists d :: d in disposals && disposals[d] == asset
    }

    constructor (assets: map<nat, Asset>)
      ensures Valid() && this.assets == assets && disposals == map[]
    {
      this.assets := assets;
      disposals := map[];
    }

    /**
     * Save a record for `asset`. A record without a pk (None or 0) is new:
     * its asset is first saved with condition "disposed", then the record
     * is inserted under `newPk`. The one-to-one link refuses a second
     * record for the same asset, after the asset has already been saved.
     */
    method SaveDisposal(pk: Option<nat>, asset: nat, newPk: nat) returns (result: SaveResult)
      requires Valid() && asset in assets
      requires newPk > 0 && newPk !in disposals
      modifies this
      ensures Valid()
      ensures assets.Keys == old(assets.Keys)
      ensures forall a :: a in assets && a != asset ==> assets[a] == old(assets[a])
      ensures pk.None? || pk.value == 0 ==>
                assets[asset] == old(assets[asset]).(condition := "disposed") &&
                (old(HasDisposal(asset)) ==> result == IntegrityError && disposals == old(disposals)) &&
                (!old(HasDisposal(asset)) ==> result == Saved(newPk) && disposals == old(disposals)[newPk := asset])
      ensures pk.Some? && pk.value != 0 ==>
                assets == old(assets) &&
                (result == IntegrityError <==>
                   exists d :: d in old(disposals) && d != pk.value && old(disposals)[d] == asset) &&
                (result.Saved? ==> result.pk == pk.value && disposals == old(disposals)[pk.value := asset])
    {
      var id: nat;
      if pk.None? || pk.value == 0 {
        assets := assets[asset := assets[asset].(condition := "disposed")];
        id := newPk;
      } else {
        id := pk.value;
      }
      if exists d :: d in disposals && d != id && disposals[d] == asset {
        return IntegrityError;
      }
      disposals := disposals[id := asset];
      result := Saved(id);
    }
  }
}
