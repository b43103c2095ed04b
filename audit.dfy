/**
 * History rows written by the Asset save signals (assets/signals.py).
 *
 * The pre-save handler compares the stored asset with the one about to be
 * saved and appends one AssetHistory row per tracked change; the post-save
 * handler appends a "created" row for a newly inserted asset. The history
 * table is a HistoryLog object whose only field is the sequence of rows.
 * The asset table is read, never written, so it is a parameter. The acting
 * user, which the source reads from a per-thread slot, is a parameter too.
 */
module Audit {
  import opened Base

  /** The three asset fields the pre-save handler compares. */
  datatype Snapshot = Snapshot(holder: Option<nat>, condition: string, isActive: bool)

  /** One AssetHistory row. `employee` and `performedBy` are ids, None for NULL. */
  datatype Entry = Entry(asset: nat, employee: Option<nat>, performedBy: Option<nat>, action: string, remarks: string)

  /** An element of the handler's `changes` list: the action and the employee it concerns. */
  datatype Change = Change(action: string, employee: Option<nat>)

  // ---------------------------------------------------------------------
  // log_asset_changes: which changes a save records

  /** A new holder: "transferred" away from a previous holder, "assigned" when there was none. */
  function HolderChange(before: Snapshot, after: Snapshot): seq<Change> {
    if before.holder != after.holder then
      [Change(if before.holder.Some? then "transferred" else "assigned", after.holder)]
    else []
  }

  /** Only a condition change to "disposed" or to "repair" is recorded. */
  function ConditionChange(before: Snapshot, after: Snapshot): seq<Change> {
    if before.condition == after.condition then []
    else if after.condition == "disposed" then [Change("disposed", after.holder)]
    else if after.condition == "repair" then [Change("repaired", after.holder)]
    else []
  }

  /** Deactivation is recorded as "returned"; reactivation is not recorded. */
  function ActiveChange(before: Snapshot, after: Snapshot): seq<Change> {
    if before.isActive != after.isActive && !after.isActive then [Change("returned", after.holder)] else []
  }

  /** The `changes` list of one save, in the order the handler checks the fields. */
  function Changes(before: Snapshot, after: Snapshot): (cs: seq<Change>)
    ensures |cs| <= 3
    ensures forall k :: 0 <= k < |cs| ==> cs[k].employee == after.holder
  {
    HolderChange(before, after) + ConditionChange(before, after) + ActiveChange(before, after)
  }

  /** When a save records `action`, independently of how the list is built. */
  predicate Triggers(before: Snapshot, after: Snapshot, action: string) {
    || (action == "assigned" && before.holder != after.holder && before.holder.None?)
    || (action == "transferred" && before.holder != after.holder && before.holder.Some?)
    || (action == "disposed" && before.condition != after.condition && after.condition == "disposed")
    || (action == "repaired" && before.condition != after.condition && after.condition == "repair")
    || (action == "returned" && before.isActive && !after.isActive)
  }

  predicate Mentions(cs: seq<Change>, action: string) {
    exists k :: 0 <= k < |cs| && cs[k].action == action
  }

  /** A save records an action exactly when that action's field changed in the way the handler looks for. */
  lemma ChangesMention(before: Snapshot, after: Snapshot, action: string)
    ensures Mentions(Changes(before, after), action) <==> Triggers(before, after, action)
  {
    var h, c, a := HolderChange(before, after), ConditionChange(before, after), ActiveChange(before, after);
    var cs := Changes(before, after);
    if Triggers(before, after, action) {
      if action == "assigned" || action == "transferred" {
        assert cs[0] == h[0];
      } else if action == "disposed" || action == "repaired" {
        assert cs[|h|] == c[0];
      } else {
        assert cs[|h| + |c|] == a[0];
      }
    }
  }

  /** A save that changes none of the tracked fields in a tracked way records nothing; there is no "updated" fallback. */
  lemma ChangesEmpty(before: Snapshot, after: Snapshot)
    ensures Changes(before, after) == [] <==>
            && before.holder == after.holder
            && (before.condition == after.condition || (after.condition != "disposed" && after.condition != "repair"))
            && !(before.isActive && !after.isActive)
    ensures !Mentions(Changes(before, after), "updated") && !Mentions(Changes(before, after), "created")
  {
    ChangesMention(before, after, "updated");
    ChangesMention(before, after, "created");
  }

  /** Where an action comes in the handler's order: holder, then condition, then active flag. */
  function Rank(action: string): nat {
    if action == "assigned" || action == "transferred" then 0
    else if action == "disposed" || action == "repaired" then 1
    else 2
  }

  /** The recorded changes follow the handler's field order, and no field contributes twice. */
  lemma ChangesOrdered(before: Snapshot, after: Snapshot)
    ensures var cs := Changes(before, after);
            forall j, k :: 0 <= j < k < |cs| ==> Rank(cs[j].action) < Rank(cs[k].action)
  {
    var h, c, a := HolderChange(before, after), ConditionChange(before, after), ActiveChange(before, after);
    var cs := Changes(before, after);
    forall j, k | 0 <= j < k < |cs|
      ensures Rank(cs[j].action) < Rank(cs[k].action)
    {
      if j < |h| {
        assert cs[j] == h[0];
        if k < |h| + |c| { assert cs[k] == c[0]; } else { assert cs[k] == a[0]; }
      } else if j < |h| + |c| {
        assert cs[j] == c[0] && cs[k] == a[0];
      }
    }
  }

  // ---------------------------------------------------------------------
  // The rows written

  function ChangeRemarks(action: string): string {
    "System auto-logged change: " + action
  }

  /** The history rows written for `changes`, one per change, in order. */
  function ChangeEntries(asset: nat, changes: seq<Change>, user: Option<nat>): (es: seq<Entry>)
    ensures |es| == |changes|
    ensures forall k :: 0 <= k < |es| ==>
              es[k] == Entry(asset, changes[k].employee, user, changes[k].action, ChangeRemarks(changes[k].action))
  {
    if changes == [] then []
    else
      var c := changes[|changes| - 1];
      ChangeEntries(asset, changes[..|changes| - 1], user) + [Entry(asset, c.employee, user, c.action, ChangeRemarks(c.action))]
  }

  /** A pk of None or 0 is false in Python: the asset has not been inserted yet. */
  predicate Unsaved(pk: Option<nat>) {
    pk.None? || pk.value == 0
  }

  /** The rows one pre-save writes, given the stored assets by pk. */
  function PreSaveEntries(pk: Option<nat>, stored: map<nat, Snapshot>, instance: Snapshot, user: Option<nat>): (es: seq<Entry>)
    ensures |es| <= 3
    ensures forall k :: 0 <= k < |es| ==> es[k].performedBy == user && es[k].employee == instance.holder
  {
    if Unsaved(pk) || pk.value !in stored then []
    else ChangeEntries(pk.value, Changes(stored[pk.value], instance), user)
  }

  /**
   * The save of a stored asset whose only change is its condition becoming
   * "disposed" (what recording a disposal does) writes exactly one row: a
   * "disposed" row for the asset's holder, by the acting user.
   */
  lemma DisposalSaveEntries(pk: nat, stored: map<nat, Snapshot>, user: Option<nat>)
    requires pk != 0 && pk in stored && stored[pk].condition != "disposed"
    ensures var instance := stored[pk].(condition := "disposed");
            PreSaveEntries(Some(pk), stored, instance, user) ==
              [Entry(pk, instance.holder, user, "disposed", ChangeRemarks("disposed"))]
  {
    var before := stored[pk];
    var instance := before.(condition := "disposed");
    assert Changes(before, instance) == [Change("disposed", instance.holder)];
  }

  /** Every row one pre-save writes is about that asset and carries the one acting user. */
  lemma PreSaveOneUser(pk: Option<nat>, stored: map<nat, Snapshot>, instance: Snapshot, user: Option<nat>)
    ensures var es := PreSaveEntries(pk, stored, instance, user);
            (Unsaved(pk) ==> es == []) &&
            forall j, k :: 0 <= j < k < |es| ==> es[j].asset == es[k].asset && es[j].performedBy == es[k].performedBy
  {
  }

  class HistoryLog {
    var entries: seq<Entry>

    constructor ()
      ensures entries == []
    {
      entries := [];
    }

    /**
     * log_asset_changes: nothing for an unsaved instance or one missing from
     * the table, else one row per recorded change.
     */
    method LogAssetChanges(pk: Option<nat>, stored: map<nat, Snapshot>, instance: Snapshot, user: Option<nat>)
      modifies this
      ensures entries == old(entries) + PreSaveEntries(pk, stored, instance, user)
    {
      if Unsaved(pk) {
        return;
      }
      if pk.value !in stored {
        return;
      }
      AppendEntries(pk.value, Changes(stored[pk.value], instance), user);
    }

    /** The loop of log_asset_changes: one row per change, in order. */
    method AppendEntries(asset: nat, changes: seq<Change>, user: Option<nat>)
      modifies this
      ensures entries == old(entries) + ChangeEntries(asset, changes, user)
    {
      var i := 0;
      while i < |changes|
        invariant 0 <= i <= |changes|
        invariant entries == old(entries) + ChangeEntries(asset, changes[..i], user)
      {
        var c := changes[i];
        entries := entries + [Entry(asset, c.employee, user, c.action, ChangeRemarks(c.action))];
        assert changes[..i + 1][..i] == changes[..i];
        i := i + 1;
      }
      assert changes[..i] == changes;
    }

    /** log_asset_creation: one "created" row naming the initial holder, only for an insert. */
    method LogAssetCreation(pk: nat, instance: Snapshot, created: bool, user: Option<nat>)
      modifies this
      ensures created ==> entries == old(entries) + [Entry(pk, instance.holder, user, "created", "Asset record created")]
      ensures !created ==> entries == old(entries)
    {
      if created {
        entries := entries + [Entry(pk, instance.holder, user, "created", "Asset record created")];
      }
    }
  }
}
