/**
 * employee_delete (assets/views/employee.py): look the employee up, refuse
 * a user without the delete permission, show the confirmation page on GET,
 * and on POST clear alloted_to on the employee's assets with one bulk
 * update, then delete the employee.
 *
 * The bulk update does not call Asset.save, so no save signal runs and no
 * history row is written: the history table is a field the view leaves
 * alone.
 */
module Employees {
  import opened Base
  import Models

  datatype Response = NotFound | Forbidden | ConfirmPage | RedirectToList

  /** Asset.objects.filter(alloted_to=employee).update(alloted_to=None) */
  function Unassign(assets: map<nat, Models.Asset>, employee: nat): (r: map<nat, Models.Asset>)
    ensures r.Keys == assets.Keys
    ensures forall a :: a in r ==> r[a].holder != Some(employee) && r[a].condition == assets[a].condition
    ensures forall a :: a in r && assets[a].holder != Some(employee) ==> r[a] == assets[a]
  {
    map a | a in assets :: if assets[a].holder == Some(employee) then assets[a].(holder := None) else assets[a]
  }

  /** Clearing the holders first leaves nothing for SET_NULL to do: the same tables result as from the delete alone. */
  lemma UnassignThenDelete(db: Models.Db, employee: nat)
    ensures Models.DeleteEmployee(db.(assets := Unassign(db.assets, employee)), employee) == Models.DeleteEmployee(db, employee)
  {
    var r1 := Models.DeleteEmployee(db.(assets := Unassign(db.assets, employee)), employee);
    var r2 := Models.DeleteEmployee(db, employee);
    assert r1.assets == r2.assets;
  }

  class Directory {
    var employees: set<nat>
    var assets: map<nat, Models.Asset>
    /** AssetHistory rows, by pk of the asset they are about. */
    var history: map<nat, nat>

    constructor (employees: set<nat>, assets: map<nat, Models.Asset>, history: map<nat, nat>)
      ensures this.employees == employees && this.assets == assets && this.history == history
    {
      this.employees := employees;
      this.assets := assets;
      this.history := history;
    }

    /**
     * employee_delete. A missing employee is a 404 before the permission is
     * looked at; a user without assets.delete_employee gets 403; a GET
     * shows the confirmation page. None of these change anything.
     */
    method EmployeeDelete(pk: nat, canDelete: bool, isPost: bool) returns (response: Response)
      modifies this
      ensures pk !in old(employees) ==> response == NotFound
      ensures pk in old(employees) && !canDelete ==> response == Forbidden
      ensures pk in old(employees) && canDelete && !isPost ==> response == ConfirmPage
      ensures response == RedirectToList <==> pk in old(employees) && canDelete && isPost
      ensures response != RedirectToList ==> employees == old(employees) && assets == old(assets)
      ensures response == RedirectToList ==>
                employees == old(employees) - {pk} && assets == Unassign(old(assets), pk)
      ensures history == old(history)
    {
      if pk !in employees {
        return NotFound;
      }
      if !canDelete {
        return Forbidden;
      }
      if isPost {
        assets := Unassign(assets, pk);
        employees := employees - {pk};
        return RedirectToList;
      }
      return ConfirmPage;
    }
  }

  /** A successful delete agrees with the SET_NULL rule and leaves the tables consistent. */
  lemma EmployeeDeleteConsistent(db: Models.Db, employee: nat)
    requires Models.Consistent(db)
    ensures var r := Models.DeleteEmployee(db.(assets := Unassign(db.assets, employee)), employee);
            Models.Consistent(r) && r.employees == db.employees - {employee} &&
            r.assets == Unassign(db.assets, employee) && r.history == db.history
  {
    UnassignThenDelete(db, employee);
    Models.DeleteEmployeeConsistent(db, employee);
    var r := Models.DeleteEmployee(db, employee);
    assert r.assets == Unassign(db.assets, employee);
  }
}
