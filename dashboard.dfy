/**
 * The dashboard view (assets/views/dashboard.py): the global counters, the
 * employees selected by the search term, and for each selected employee a
 * summary row built from the assets they hold: condition counters, up to
 * three sample names, the asset types without repeats, and a display name.
 *
 * Assets and employees are sequences in queryset order; an employee's
 * assets are those of the asset sequence they hold, in that order.
 */
module Dashboard {
  import opened Base
  import opened Text

  datatype Asset = Asset(
    typeId: Option<nat>,
    typeName: string,
    holder: Option<nat>,
    makeModel: string,
    serialNumber: string,
    condition: string)

  datatype Person = Person(id: nat, firstName: string, lastName: string)

  datatype Category = Category(id: nat, name: string)

  /** One entry of employees_data. */
  datatype Summary = Summary(
    sl: nat,
    id: nat,
    name: string,
    assetCount: nat,
    samples: seq<string>,
    categories: seq<Category>,
    damaged: nat,
    repair: nat,
    disposed: nat)

  // ---------------------------------------------------------------------
  // Condition counters

  datatype Kind = Damaged | UnderRepair | Disposed | Other

  /** The if/elif chain on the lowercased condition: exactly one kind per asset. */
  function Classify(condition: string): (k: Kind)
    ensures k == Damaged <==> Lower(condition) == "damaged"
    ensures k == UnderRepair <==> Lower(condition) != "damaged" && Contains(Lower(condition), "repair")
    ensures k == Disposed <==>
              Lower(condition) != "damaged" && !Contains(Lower(condition), "repair") && Contains(Lower(condition), "disposed")
  {
    var c := Lower(condition);
    if c == "damaged" then Damaged
    else if Contains(c, "repair") then UnderRepair
    else if Contains(c, "disposed") then Disposed
    else Other
  }

  /** How many of `assets` are of kind `k`. */
  function CountKind(assets: seq<Asset>, k: Kind): (n: nat)
    ensures n <= |assets|
  {
    if assets == [] then 0
    else CountKind(assets[..|assets| - 1], k) + (if Classify(assets[|assets| - 1].condition) == k then 1 else 0)
  }

  /** Each asset falls in at most one counter, so the three never add up past the asset count. */
  lemma {:induction false} CountsExclusive(assets: seq<Asset>)
    ensures CountKind(assets, Damaged) + CountKind(assets, UnderRepair) + CountKind(assets, Disposed) <= |assets|
  {
    if assets != [] {
      CountsExclusive(assets[..|assets| - 1]);
    }
  }

  /** The loop over the employee's assets that increments the three counters. */
  method CountConditions(held: seq<Asset>) returns (damaged: nat, repair: nat, disposed: nat)
    ensures damaged == CountKind(held, Damaged)
    ensures repair == CountKind(held, UnderRepair)
    ensures disposed == CountKind(held, Disposed)
    ensures damaged + repair + disposed <= |held|
  {
    damaged, repair, disposed := 0, 0, 0;
    var i := 0;
    while i < |held|
      invariant 0 <= i <= |held|
      invariant damaged == CountKind(held[..i], Damaged)
      invariant repair == CountKind(held[..i], UnderRepair)
      invariant disposed == CountKind(held[..i], Disposed)
    {
      var cond := Lower(held[i].condition);
      if cond == "damaged" {
        damaged := damaged + 1;
      } else if Contains(cond, "repair") {
        repair := repair + 1;
      } else if Contains(cond, "disposed") {
        disposed := disposed + 1;
      }
      assert held[..i + 1][..i] == held[..i];
      i := i + 1;
    }
    assert held[..i] == held;
    CountsExclusive(held);
  }

  // ---------------------------------------------------------------------
  // Samples, categories, name

  /** make_model of the first three assets, "-" standing for an empty one. */
  function Samples(held: seq<Asset>): (s: seq<string>)
    ensures |s| == if |held| < 3 then |held| else 3
    ensures forall k :: 0 <= k < |s| ==> s[k] != "" && (held[k].makeModel != "" ==> s[k] == held[k].makeModel)
    ensures forall k :: 0 <= k < |s| && held[k].makeModel == "" ==> s[k] == "-"
  {
    var first := if |held| < 3 then held else held[..3];
    seq(|first|, k requires 0 <= k < |first| => if first[k].makeModel == "" then "-" else first[k].makeModel)
  }

  function Ids(cs: seq<Category>): set<nat> {
    set k | 0 <= k < |cs| :: cs[k].id
  }

  /** The types of the assets, each id once, in the order they first occur, skipping untyped assets. */
  function Categories(held: seq<Asset>): (cs: seq<Category>)
    ensures |cs| <= |held|
  {
    if held == [] then []
    else
      var prev := Categories(held[..|held| - 1]);
      var a := held[|held| - 1];
      if a.typeId.Some? && a.typeId.value !in Ids(prev) then
        prev + [Category(a.typeId.value, if a.typeName == "" then "-" else a.typeName)]
      else prev
  }

  lemma IdsAppend(cs: seq<Category>, c: Category)
    ensures Ids(cs + [c]) == Ids(cs) + {c.id}
  {
    var both := cs + [c];
    assert forall k :: 0 <= k < |cs| ==> both[k] == cs[k];
    assert both[|cs|] == c;
  }

  /** No id is listed twice. */
  lemma {:induction false} CategoriesDistinct(held: seq<Asset>)
    ensures forall i, j :: 0 <= i < j < |Categories(held)| ==> Categories(held)[i].id != Categories(held)[j].id
  {
    if held != [] {
      var prev := Categories(held[..|held| - 1]);
      CategoriesDistinct(held[..|held| - 1]);
      var cs := Categories(held);
      var a := held[|held| - 1];
      if a.typeId.Some? && a.typeId.value !in Ids(prev) {
        var c := Category(a.typeId.value, if a.typeName == "" then "-" else a.typeName);
        assert cs == prev + [c];
        forall i, j | 0 <= i < j < |cs| ensures cs[i].id != cs[j].id {
          assert cs[i] == prev[i];
          if j == |prev| {
            assert cs[j] == c;
            assert prev[i].id in Ids(prev);
          } else {
            assert cs[j] == prev[j];
          }
        }
      }
    }
  }

  /** Exactly the ids of the typed assets are listed. */
  lemma {:induction false} CategoriesIds(held: seq<Asset>)
    ensures Ids(Categories(held)) == set k | 0 <= k < |held| && held[k].typeId.Some? :: held[k].typeId.value
  {
    if held != [] {
      var init := held[..|held| - 1];
      CategoriesIds(init);
      var prev := Categories(init);
      var a := held[|held| - 1];
      if a.typeId.Some? && a.typeId.value !in Ids(prev) {
        IdsAppend(prev, Category(a.typeId.value, if a.typeName == "" then "-" else a.typeName));
      }
      assert forall k :: 0 <= k < |init| ==> init[k] == held[k];
    }
  }

  /** Where the first asset of type `id` sits, |held| when there is none. */
  function FirstOfType(held: seq<Asset>, id: nat): (i: nat)
    ensures i <= |held|
    ensures i < |held| ==> held[i].typeId == Some(id)
    ensures forall k :: 0 <= k < i ==> held[k].typeId != Some(id)
  {
    if held == [] then 0
    else if held[0].typeId == Some(id) then 0
    else 1 + FirstOfType(held[1..], id)
  }

  /** A first occurrence stays put when assets are added at the end. */
  lemma {:induction false} FirstOfTypePrefix(held: seq<Asset>, n: nat, id: nat)
    requires n <= |held| && FirstOfType(held[..n], id) < n
    ensures FirstOfType(held, id) == FirstOfType(held[..n], id)
  {
    var i := FirstOfType(held[..n], id);
    assert held[i] == held[..n][i];
    assert forall k :: 0 <= k < n ==> held[..n][k] == held[k];
  }

  /** Categories come in the order in which their types first occur among the assets. */
  lemma {:induction false} CategoriesOrdered(held: seq<Asset>)
    ensures var cs := Categories(held);
            forall i, j :: 0 <= i < j < |cs| ==> FirstOfType(held, cs[i].id) < FirstOfType(held, cs[j].id)
    ensures var cs := Categories(held);
            forall i :: 0 <= i < |cs| ==> FirstOfType(held, cs[i].id) < |held|
  {
    if held != [] {
      var n := |held| - 1;
      var init := held[..n];
      CategoriesOrdered(init);
      CategoriesIds(init);
      var prev := Categories(init);
      var cs := Categories(held);
      assert init == held[..n];
      forall i | 0 <= i < |prev|
        ensures FirstOfType(held, prev[i].id) == FirstOfType(init, prev[i].id) < n
      {
        FirstOfTypePrefix(held, n, prev[i].id);
      }
      if cs != prev {
        var a := held[n];
        var id := a.typeId.value;
        assert id !in Ids(prev);
        assert forall k :: 0 <= k < n ==> init[k] == held[k];
        assert FirstOfType(held, id) == n;
        forall i | 0 <= i < |cs|
          ensures FirstOfType(held, cs[i].id) <= n
        {
          if i < |prev| { assert cs[i] == prev[i]; }
        }
        forall i, j | 0 <= i < j < |cs|
          ensures FirstOfType(held, cs[i].id) < FirstOfType(held, cs[j].id)
        {
          assert cs[i] == prev[i];
          if j < |prev| { assert cs[j] == prev[j]; }
        }
      }
    }
  }

  /** The loop with the `seen` set that builds the categories list. */
  method CollectCategories(held: seq<Asset>) returns (categories: seq<Category>)
    ensures categories == Categories(held)
  {
    categories := [];
    var seen: set<nat> := {};
    var i := 0;
    while i < |held|
      invariant 0 <= i <= |held|
      invariant categories == Categories(held[..i])
      invariant seen == Ids(categories)
    {
      var a := held[i];
      assert held[..i + 1][..i] == held[..i];
      if a.typeId.Some? && a.typeId.value !in seen {
        seen := seen + {a.typeId.value};
        var c := Category(a.typeId.value, if a.typeName == "" then "-" else a.typeName);
        IdsAppend(categories, c);
        categories := categories + [c];
      }
      i := i + 1;
    }
    assert held[..i] == held;
  }

  /** "first last" stripped, "-" when that leaves nothing. */
  function DisplayName(p: Person): (name: string)
    ensures name != "" && Trimmed(name)
    ensures Strip(p.firstName + " " + p.lastName) != "" ==> name == Strip(p.firstName + " " + p.lastName)
  {
    var full := Strip(p.firstName + " " + p.lastName);
    if full == "" then "-" else full
  }

  /** A name made only of whitespace shows as "-". */
  lemma BlankNameIsDash(p: Person)
    requires forall i :: 0 <= i < |p.firstName| ==> IsSpace(p.firstName[i])
    requires forall i :: 0 <= i < |p.lastName| ==> IsSpace(p.lastName[i])
    ensures DisplayName(p) == "-"
  {
    var full := p.firstName + " " + p.lastName;
    assert forall i :: 0 <= i < |full| ==> IsSpace(full[i]) by {
      forall i | 0 <= i < |full| ensures IsSpace(full[i]) {
        if i < |p.firstName| { assert full[i] == p.firstName[i]; }
        else if i > |p.firstName| { assert full[i] == p.lastName[i - |p.firstName| - 1]; }
      }
    }
    StripAll(full);
  }

  // ---------------------------------------------------------------------
  // One row per employee

  /** The prefetched assets of employee `id`, in asset order. */
  function HeldBy(assets: seq<Asset>, id: nat): (held: seq<Asset>)
    ensures |held| <= |assets|
    ensures forall k :: 0 <= k < |held| ==> held[k].holder == Some(id) && held[k] in assets
    ensures forall k :: 0 <= k < |assets| && assets[k].holder == Some(id) ==> assets[k] in held
  {
    if assets == [] then []
    else
      var a := assets[|assets| - 1];
      HeldBy(assets[..|assets| - 1], id) + (if a.holder == Some(id) then [a] else [])
  }

  /** The summary of the employee at position `sl` (from 1). */
  function SummaryOf(assets: seq<Asset>, p: Person, sl: nat): Summary {
    var held := HeldBy(assets, p.id);
    Summary(sl, p.id, DisplayName(p), |held|, Samples(held), Categories(held),
            CountKind(held, Damaged), CountKind(held, UnderRepair), CountKind(held, Disposed))
  }

  /** The body of the loop for one employee. */
  method Summarize(assets: seq<Asset>, p: Person, sl: nat) returns (s: Summary)
    ensures s == SummaryOf(assets, p, sl)
  {
    var held := HeldBy(assets, p.id);
    var damaged, repair, disposed := CountConditions(held);
    var categories := CollectCategories(held);
    s := Summary(sl, p.id, DisplayName(p), |held|, Samples(held), categories, damaged, repair, disposed);
  }

  /** The loop over the selected employees, numbering them from 1. */
  method EmployeesData(assets: seq<Asset>, employees: seq<Person>) returns (rows: seq<Summary>)
    ensures |rows| == |employees|
    ensures forall k :: 0 <= k < |rows| ==> rows[k] == SummaryOf(assets, employees[k], k + 1)
  {
    rows := [];
    var idx := 1;
    while idx <= |employees|
      invariant 1 <= idx <= |employees| + 1
      invariant |rows| == idx - 1
      invariant forall k :: 0 <= k < |rows| ==> rows[k] == SummaryOf(assets, employees[k], k + 1)
    {
      var s := Summarize(assets, employees[idx - 1], idx);
      rows := rows + [s];
      idx := idx + 1;
    }
  }

  /** What each row says about the employee's assets. */
  lemma SummaryFacts(assets: seq<Asset>, p: Person, sl: nat)
    ensures var s := SummaryOf(assets, p, sl);
            && s.sl == sl && s.id == p.id
            && s.damaged + s.repair + s.disposed <= s.assetCount
            && |s.samples| <= 3 && |s.samples| <= s.assetCount
            && |s.categories| <= s.assetCount
            && (forall i, j :: 0 <= i < j < |s.categories| ==> s.categories[i].id != s.categories[j].id)
  {
    var held := HeldBy(assets, p.id);
    var s := SummaryOf(assets, p, sl);
    assert s.categories == Categories(held) && s.assetCount == |held|;
    CountsExclusive(held);
    CategoriesDistinct(held);
  }

  // ---------------------------------------------------------------------
  // Which employees are listed

  /** The asset search of the dashboard: make_model, serial number or type name contains q. */
  predicate AssetMatches(a: Asset, q: string) {
    IContains(a.makeModel, q) || IContains(a.serialNumber, q) || (a.typeId.Some? && IContains(a.typeName, q))
  }

  /**
   * An employee is listed with a search term when they hold a matching asset
   * or either name contains it. The holder ids of the matching assets are
   * filtered by truth value, so a pk of 0 never qualifies through an asset.
   */
  predicate EmployeeMatches(assets: seq<Asset>, p: Person, q: string) {
    || (p.id != 0 && exists k :: 0 <= k < |assets| && assets[k].holder == Some(p.id) && AssetMatches(assets[k], q))
    || IContains(p.firstName, q)
    || IContains(p.lastName, q)
  }

  /** The employees listed for the stripped term q: all of them when it is empty. */
  function SelectEmployees(assets: seq<Asset>, employees: seq<Person>, q: string): (r: seq<Person>)
    ensures |r| <= |employees|
    ensures q == "" ==> r == employees
    ensures forall k :: 0 <= k < |r| ==> r[k] in employees && (q == "" || EmployeeMatches(assets, r[k], q))
  {
    if employees == [] then []
    else
      var p := employees[|employees| - 1];
      SelectEmployees(assets, employees[..|employees| - 1], q) +
        (if q == "" || EmployeeMatches(assets, p, q) then [p] else [])
  }

  /** No matching employee is left out. */
  lemma {:induction false} SelectEmployeesComplete(assets: seq<Asset>, employees: seq<Person>, q: string, k: nat)
    requires k < |employees| && EmployeeMatches(assets, employees[k], q)
    ensures employees[k] in SelectEmployees(assets, employees, q)
  {
    if k < |employees| - 1 {
      SelectEmployeesComplete(assets, employees[..|employees| - 1], q, k);
    }
  }

  /** The dashboard: the stripped term selects the employees, then each gets its numbered row. */
  method EmployeesTable(assets: seq<Asset>, employees: seq<Person>, q: string) returns (rows: seq<Summary>)
    ensures var selected := SelectEmployees(assets, employees, Strip(q));
            |rows| == |selected| &&
            forall k :: 0 <= k < |rows| ==> rows[k] == SummaryOf(assets, selected[k], k + 1)
  {
    rows := EmployeesData(assets, SelectEmployees(assets, employees, Strip(q)));
  }

  // ---------------------------------------------------------------------
  // The global counters

  datatype Totals = Totals(total: nat, held: nat, damaged: nat, underRepair: nat, disposed: nat)

  function CountWhere(assets: seq<Asset>, heldOnly: bool, exact: string, contains: string): (n: nat)
    ensures n <= |assets|
  {
    if assets == [] then 0
    else
      var a := assets[|assets| - 1];
      var hit := (heldOnly ==> a.holder.Some?) &&
                 (exact != "" ==> Lower(a.condition) == Lower(exact)) &&
                 (contains != "" ==> IContains(a.condition, contains));
      CountWhere(assets[..|assets| - 1], heldOnly, exact, contains) + (if hit then 1 else 0)
  }

  /** Total, held, condition iexact "damaged", icontains "repair", icontains "disposed". */
  function GlobalTotals(assets: seq<Asset>): (t: Totals)
    ensures t.total == |assets|
    ensures t.held <= t.total && t.damaged <= t.total && t.underRepair <= t.total && t.disposed <= t.total
  {
    Totals(|assets|, CountWhere(assets, true, "", ""), CountWhere(assets, false, "damaged", ""),
           CountWhere(assets, false, "", "repair"), CountWhere(assets, false, "", "disposed"))
  }

  /** One employee's asset count never exceeds the count of assigned assets. */
  lemma {:induction false} HeldSplitsByEmployee(assets: seq<Asset>, id: nat)
    ensures |HeldBy(assets, id)| <= CountWhere(assets, true, "", "")
  {
    if assets != [] {
      HeldSplitsByEmployee(assets[..|assets| - 1], id);
    }
  }
}
