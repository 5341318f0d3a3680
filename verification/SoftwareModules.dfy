// The software module lifecycle (internal/softwaremodules/manager.go): installing,
// updating and uninstalling deployment units on a device's parameter tree, each step
// written to the tree as it happens and undone when the operation fails.
module SoftwareModules {
  import opened Options
  import opened Paths
  import opened ParamStores
  import opened ParamNodes
  import opened ParamBatches
  import opened ParamTables
  import opened ParamGrafts
  import opened ParamTrees
  import opened SoftwareUnits

  // ---------- Rows ----------

  /** Writes the leaves the row declares and skips the ones it does not. */
  method SetLeaves(tree: Tree, row: Path, values: map<string, string>)
    requires tree.Valid() && Plain(row) && row != [] && forall x | x in values :: Segment(x)
    modifies tree.at.Values
    ensures tree.Valid() && LeavesSet(old(tree.View()), tree.View(), tree.rule, row, values)
  {
    hide Shaped, Content, ParsePath, Plain, Join, LeavesSet;
    ghost var s := tree.View();
    var todo := values.Keys;
    ghost var done: map<string, string> := map[];
    NoLeavesSet(s, tree.rule, row);
    while todo != {}
      invariant tree.Valid() && LeavesSet(s, tree.View(), tree.rule, row, done)
      invariant done.Keys !! todo && done.Keys + todo == values.Keys && forall x | x in done :: done[x] == values[x]
    {
      var x :| x in todo;
      LeafSetNext(s, tree.View(), tree.rule, row, done, x, values[x]);
      var _ := tree.SetSystem(Join(row) + "." + x, values[x]);
      todo, done := todo - {x}, done[x := values[x]];
    }
    assert done == values;
  }

  lemma NoLeavesSet(s: Store, rule: Rule, row: Path)
    ensures LeavesSet(s, s, rule, row, map[])
  {
  }

  /** Adds a row to the table, unless its template lacks one of the leaves. */
  method AddRow(tree: Tree, sm: Path, table: string, leaves: seq<string>) returns (row: Option<Path>)
    requires tree.Valid() && Plain(sm + [table]) && (table == DU || table == EU)
    requires InSync(tree.View(), sm + [table]) && TextRows(tree.View(), tree.rule, sm)
    requires leaves == Required(table) && forall leaf | leaf in leaves :: Segment(leaf)
    modifies tree`at, tree.at.Values
    ensures tree.Valid() && fresh(tree.at.Values - old(tree.at.Values))
    ensures row.Some? <==> Declares(old(tree.View()), sm + [table], leaves)
    ensures row.None? ==> tree.View() == old(tree.View())
    ensures row.Some? ==> RowMade(old(tree.View()), tree.View(), tree.rule, sm, table, row.value, leaves)
  {
    hide Shaped, Content, ParsePath, Plain, Join, RowAdded, RowDeleted, TextRows, InSync, WellFormed, Rows, Numbers;
    ghost var s := tree.View();
    tree.ViewIsWellFormed();
    var p := sm + [table];
    ParseJoin(p);
    var added := tree.AddObject(Join(p) + ".");
    if added.Err? {
      return None;
    }
    var k := Itoa(added.value);
    LeastIsNotTaken(s, p, added.value);
    var made := p + [k];
    PlainSnoc(p, k);
    TemplateIsNoNumber();
    LeavesOfNewRow(s, p, k, leaves);
    var complete := HasLeaves(tree, made, leaves);
    if !complete {
      DropNew(tree, s, p, k);
      return None;
    }
    assert made == sm + [table, k];
    RowIsMade(s, tree.rule, sm, table, k, leaves);
    return Some(made);
  }

  method HasLeaves(tree: Tree, row: Path, leaves: seq<string>) returns (complete: bool)
    requires tree.Valid() && Plain(row) && row != [] && forall leaf | leaf in leaves :: Segment(leaf)
    ensures complete <==> forall leaf | leaf in leaves :: Text(tree.View(), row + [leaf]).Some?
  {
    hide Shaped, Content, ParsePath, Join, Plain;
    for i := 0 to |leaves|
      invariant forall j | 0 <= j < i :: Text(tree.View(), row + [leaves[j]]).Some?
    {
      ParseBelow(row, leaves[i]);
      var v := tree.Get(Join(row) + "." + leaves[i]);
      if v.Err? {
        assert leaves[i] in leaves;
        return false;
      }
    }
    return true;
  }

  lemma LeavesOfNewRow(s: Store, p: Path, k: string, leaves: seq<string>)
    requires WellFormed(s) && p in s && s[p].table && p != [] && p + [k] !in s && k != TEMPLATE
    ensures Declares(s, p, leaves) <==> forall leaf | leaf in leaves :: Text(RowAdded(s, p, k), p + [k] + [leaf]).Some?
  {
    hide WellFormed, RowAdded;
    forall leaf | leaf in leaves
      ensures Text(RowAdded(s, p, k), p + [k] + [leaf]).Some? <==>
        p + [TEMPLATE, leaf] in s && s[p + [TEMPLATE, leaf]].leaf.Some?
    {
      NewRowLeaf(s, p, k, leaf);
      assert p + [k] + [leaf] == p + [k, leaf];
    }
  }

  lemma PlainSnoc(p: Path, k: string)
    requires Plain(p) && Segment(k)
    ensures Plain(p + [k])
  {
  }

  /** Takes out the row just added, which restores the tree. */
  method DropNew(tree: Tree, ghost s: Store, p: Path, k: string)
    requires tree.Valid() && Plain(p) && p != [] && Segment(k) && InstanceName(k)
    requires WellFormed(s) && p in s && s[p].table && p + [k] !in s && InSync(s, p)
    requires tree.View() == RowAdded(s, p, k)
    modifies tree`at, tree.at.Values
    ensures tree.Valid() && tree.at.Values <= old(tree.at.Values) && tree.View() == s
  {
    hide Shaped, Content, ParsePath, Plain, Join, RowAdded, RowDeleted, InSync, WellFormed;
    TemplateIsNoNumber();
    NewRowIsThere(s, p, k);
    AddThenDelete(s, p, k);
    DropRow(tree, p, k);
  }

  method DropRow(tree: Tree, p: Path, k: string)
    requires tree.Valid() && Plain(p) && p != [] && Segment(k) && InstanceName(k)
    requires p in tree.View() && tree.View()[p].table && p + [k] in tree.View()
    modifies tree`at, tree.at.Values
    ensures tree.Valid() && tree.at.Values <= old(tree.at.Values)
    ensures tree.View() == RowDeleted(old(tree.View()), p, k)
  {
    hide Shaped, Content, ParsePath, Plain, Join, RowDeleted;
    PlainSnoc(p, k);
    ParseJoin(p + [k]);
    var _ := tree.DeleteObject(Join(p + [k]) + ".");
  }

  // ---------- Data models ----------

  /** Unmounts the roots one by one. */
  method UnmountAll(tree: Tree, roots: seq<string>, ghost o: Store, ghost points: seq<Path>)
    requires tree.Valid() && Removable(tree.View(), points) && Names(o, roots, points)
    requires forall i | 0 <= i < |points| :: !RowOfHost(tree.View(), points[i])
    modifies tree`at, tree.at.Values
    ensures tree.Valid() && tree.at.Values <= old(tree.at.Values)
    ensures tree.View() == Remaining(old(tree.View()), points)
  {
    hide Shaped, Content, ParsePath, RootName, Plain, Removable, Remaining, Unmounted;
    ghost var s := tree.View();
    NothingRemoved(s, points);
    for i := 0 to |roots|
      invariant tree.Valid() && tree.at.Values <= old(tree.at.Values)
      invariant |roots| == |points| && tree.View() == Remaining(s, points[..i])
    {
      NextUnmounted(s, o, roots, points, i);
      var _ := tree.Unmount(roots[i]);
    }
    assert points[..|roots|] == points;
  }

  lemma NothingRemoved(s: Store, points: seq<Path>)
    ensures Remaining(s, points[..0]) == s
  {
  }

  // ---------- Execution units ----------

  lemma EuNames()
    ensures Segment("EUID") && Segment("Name") && Segment("ExecEnvLabel") && Segment("Status")
    ensures Segment("AutoStart") && Segment("References") && Segment("CreationTime")
  {
  }

  lemma CommonNames()
    ensures Segment("Vendor") && Segment("Version") && Segment("Description") && Segment("ExecutionEnvRef")
  {
  }

  lemma FaultNames()
    ensures Segment("ExecutionFaultCode") && Segment("ExecutionFaultMessage")
  {
  }

  function EuText(app: App, roots: seq<string>, ee: Path, now: string): map<string, string> {
    map["EUID" := app.unit, "Name" := app.unit, "ExecEnvLabel" := app.unit, "Status" := "Starting",
        "ExecutionFaultCode" := "NoFault", "ExecutionFaultMessage" := "", "AutoStart" := "true",
        "Vendor" := app.vendor, "Version" := app.version, "Description" := app.description,
        "References" := Joined(roots, ","), "ExecutionEnvRef" := Join(ee), "CreationTime" := now]
  }

  lemma EuTextFacts(app: App, roots: seq<string>, ee: Path, now: string)
    ensures forall x | x in EuText(app, roots, ee, now) :: Segment(x)
    ensures "References" in EuText(app, roots, ee, now)
    ensures EuText(app, roots, ee, now)["References"] == Joined(roots, ",")
  {
    EuNames();
    CommonNames();
    FaultNames();
  }

  /** The execution unit's row, walked Starting then Active. */
  method StartUnit(tree: Tree, sm: Path, app: App, ee: Path, now: string, roots: seq<string>,
                   ghost s: Store, ghost reg: Inventory, ghost models: Models, ghost model: Store,
                   ghost points: seq<Path>)
    returns (eu: Option<Path>)
    requires tree.Valid() && Agree(tree.View(), tree.rule, sm, reg, models)
    requires Fitted(tree.View(), sm, model, points) && Names(model, roots, points)
    requires tree.View() == Grafted(s, model) && AreTheFrontier(s, model, points)
    requires forall q | q in s :: q in tree.View() && tree.View()[q] == s[q]
    requires Declares(s, sm + [EU], EU_LEAVES) <==> Declares(tree.View(), sm + [EU], EU_LEAVES)
    modifies tree`at, tree.at.Values
    ensures tree.Valid() && fresh(tree.at.Values - old(tree.at.Values))
    ensures eu.Some? <==> Declares(s, sm + [EU], EU_LEAVES)
    ensures eu.None? ==> tree.View() == old(tree.View())
    ensures eu.Some? ==> Started(s, tree.View(), sm, model, roots, eu.value)
    ensures eu.Some? ==> Agree(tree.View(), tree.rule, sm, reg, models) && Unused(sm, reg, eu.value)
  {
    hide Shaped, Content, Fitted, Names, WellFormed, LeavesSet, Started, Starting, RowMade, Declares, Unused, Entries,
      Separate, DistinctUuids, InSync, TextRows, Plain, EuText, RowIn, Grafted, AreTheFrontier, RowsTakeText;
    ghost var g := tree.View();
    PlainTables(sm);
    EuNames();
    eu := AddRow(tree, sm, EU, EU_LEAVES);
    if eu.None? {
      return;
    }
    tree.ViewIsWellFormed();
    AgreeAfterMade(g, tree.View(), tree.rule, sm, reg, models, EU, eu.value, EU_LEAVES);
    RowStarts(s, g, tree.View(), tree.rule, sm, eu.value);
    MadeFacts(g, tree.View(), tree.rule, sm, EU, eu.value, EU_LEAVES);
    WriteUnit(tree, sm, app, ee, now, roots, eu.value, s, g, reg, models);
    StartedFrom(s, g, tree.View(), sm, model, roots, points, eu.value);
  }

  method WriteUnit(tree: Tree, sm: Path, app: App, ee: Path, now: string, roots: seq<string>, eu: Path,
                   ghost s: Store, ghost g: Store, ghost reg: Inventory, ghost models: Models)
    requires tree.Valid() && Agree(tree.View(), tree.rule, sm, reg, models) && Unused(sm, reg, eu)
    requires Starting(s, g, tree.View(), sm, eu) && Plain(eu) && eu != []
    requires TextLeaf(tree.View(), tree.rule, eu + ["Status"]) && TextLeaf(tree.View(), tree.rule, eu + ["References"])
    modifies tree.at.Values
    ensures tree.Valid() && Agree(tree.View(), tree.rule, sm, reg, models) && Starting(s, g, tree.View(), sm, eu)
    ensures Text(tree.View(), eu + ["Status"]) == Some("Active")
    ensures Text(tree.View(), eu + ["References"]) == Some(Joined(roots, ","))
  {
    hide Shaped, Content, WellFormed, LeavesSet, Starting, Unused, Agree, Plain, EuText, TextLeaf;
    EuTextFacts(app, roots, ee, now);
    EuNames();
    ghost var made, values := tree.View(), EuText(app, roots, ee, now);
    SetLeaves(tree, eu, EuText(app, roots, ee, now));
    tree.ViewIsWellFormed();
    ghost var written := tree.View();
    AgreeAfterText(made, written, tree.rule, sm, reg, models, eu, values);
    StartingStays(s, g, made, written, tree.rule, sm, eu, values);
    SetLeaves(tree, eu, map["Status" := "Active"]);
    tree.ViewIsWellFormed();
    AgreeAfterText(written, tree.View(), tree.rule, sm, reg, models, eu, map["Status" := "Active"]);
    StartingStays(s, g, written, tree.View(), tree.rule, sm, eu, map["Status" := "Active"]);
  }

  lemma PlainTables(sm: Path)
    requires Plain(sm)
    ensures Plain(sm + [DU]) && Plain(sm + [EU])
  {
    TablesAreSegments();
  }

  lemma MadeFacts(s: Store, t: Store, rule: Rule, sm: Path, table: string, row: Path, leaves: seq<string>)
    requires RowMade(s, t, rule, sm, table, row, leaves) && Plain(sm) && (table == DU || table == EU)
    ensures Plain(row) && row != [] && forall leaf | leaf in leaves :: TextLeaf(t, rule, row + [leaf])
  {
    RowIsPlain(t, sm, table, row);
  }

  /** Writing an unused row's leaves keeps the agreement. */
  lemma AgreeAfterText(s: Store, t: Store, rule: Rule, sm: Path, reg: Inventory, models: Models, row: Path,
                       values: map<string, string>)
    requires Agree(s, rule, sm, reg, models) && WellFormed(t) && LeavesSet(s, t, rule, row, values)
    requires Unused(sm, reg, row) || (|row| == |sm| + 2 && sm + [EE] <= row)
    ensures Agree(t, rule, sm, reg, models)
    ensures forall p :: TextLeaf(s, rule, p) ==> TextLeaf(t, rule, p)
    ensures forall x :: TextLeaf(s, rule, row + [x]) ==>
      Text(t, row + [x]) == if x in values then Some(values[x]) else Text(s, row + [x])
    ensures t.Keys == s.Keys && SameOutside(s, t, row)
  {
    hide Agree, WellFormed, Unused;
    AgreeAfterLeaves(s, t, rule, sm, reg, models, row);
  }

  /** Grafts the manifest's data model and starts its execution unit, or changes nothing. */
  method Start(tree: Tree, sm: Path, manifest: Manifest, ee: Path, now: string, ghost reg: Inventory,
               ghost models: Models)
    returns (roots: seq<string>, eu: Option<Path>, clash: bool)
    requires tree.Valid() && Agree(tree.View(), tree.rule, sm, reg, models)
    requires manifest.tree.Valid() && manifest.tree != tree && tree.at.Values !! manifest.tree.at.Values
    requires Joinable(tree.View(), sm, reg, manifest.tree.View())
    modifies tree`at, tree.at.Values
    ensures tree.Valid() && fresh(tree.at.Values - old(tree.at.Values))
    ensures var s, model := old(tree.View()), manifest.tree.View();
      && (clash <==> Clash(s, model)) && (eu.Some? <==> !clash && Declares(s, sm + [EU], EU_LEAVES))
      && (eu.None? ==> tree.View() == s)
      && (eu.Some? ==> Started(s, tree.View(), sm, model, roots, eu.value))
      && (eu.Some? ==> Newly(reg, models, sm, model, roots, eu.value))
      && (eu.Some? ==> Agree(tree.View(), tree.rule, sm, reg, models))
  {
    hide Shaped, Content, WellFormed, Grafted, Clash, FrontierPoints, AreTheFrontier, Names, Fitted, Started, Declares,
      Entries, Separate, DistinctUuids, InSync, TextRows, RowsTakeText, Plain, Unused, Clear, PointsOf, Removable;
    ghost var s, model := tree.View(), manifest.tree.View();
    tree.ViewIsWellFormed();
    var grafted, points := tree.Graft(manifest.tree);
    clash := grafted.Err?;
    if clash {
      return [], None, true;
    }
    roots := grafted.value;
    ghost var g := tree.View();
    tree.ViewIsWellFormed();
    AgreeAfterGraft(s, tree.rule, sm, reg, models, model);
    GraftFits(s, sm, model, points);
    GraftIsOutside(s, sm, model);
    DeclaresSame(s, g, sm);
    FittedIsRemovable(g, sm, model, points);
    eu := StartUnit(tree, sm, manifest.app, ee, now, roots, s, reg, models, model, points);
    if eu.None? {
      RemainingIsHost(s, model, points);
      UnmountAll(tree, roots, model, points);
      return [], None, false;
    }
    PointsNamed(model, roots, points);
    IsNew(s, sm, reg, models, model, roots, points, eu.value);
  }

  lemma IsNew(s: Store, sm: Path, reg: Inventory, models: Models, model: Store, roots: seq<string>,
              points: seq<Path>, eu: Path)
    requires WellFormed(s) && Entries(s, sm, reg, models) && FrontierPoints(s, model, points) && Unused(sm, reg, eu)
    requires PointsOf(roots) == points && Joinable(s, sm, reg, model)
    ensures Newly(reg, models, sm, model, roots, eu)
  {
    hide WellFormed, Entry, FrontierPoints, Clear, PointsOf, Unused;
    forall r | r in reg
      ensures Clear(models[r], PointsOf(roots))
    {
      NewPointsClear(s, sm, reg, models, model, points, r);
    }
  }

  /** Walks the execution unit Stopping then Idle and takes its data model out. */
  method Stop(tree: Tree, sm: Path, inst: Installation, ghost reg: Inventory, ghost models: Models, ghost model: Store)
    requires tree.Valid() && Agree(tree.View(), tree.rule, sm, reg, models) && Unused(sm, reg, inst.eu)
    requires RowIn(tree.View(), sm, EU, inst.eu)
    requires Fitted(tree.View(), sm, model, PointsOf(inst.roots)) && Names(model, inst.roots, PointsOf(inst.roots))
    requires forall r | r in reg :: Clear(models[r], PointsOf(inst.roots))
    modifies tree`at, tree.at.Values
    ensures tree.Valid() && tree.at.Values <= old(tree.at.Values)
    ensures Stopped(old(tree.View()), tree.View(), inst.eu, PointsOf(inst.roots))
    ensures Agree(tree.View(), tree.rule, sm, reg, models)
  {
    hide Shaped, Content, WellFormed, Remaining, Names, Fitted, LeavesSet, Agree, Plain, Unused, Clear, PointsOf,
      Removable, RowIn, Stopped, RowOfHost;
    ghost var s, points := tree.View(), PointsOf(inst.roots);
    EuNames();
    AgreeIsPlain(s, tree.rule, sm, reg, models);
    RowIsPlain(s, sm, EU, inst.eu);
    RowInFacts(s, sm, EU, inst.eu);
    SetLeaves(tree, inst.eu, map["Status" := "Stopping"]);
    tree.ViewIsWellFormed();
    ghost var stopping := tree.View();
    AgreeAfterText(s, stopping, tree.rule, sm, reg, models, inst.eu, map["Status" := "Stopping"]);
    FittedOutside(s, stopping, sm, model, points, inst.eu);
    FittedIsRemovable(stopping, sm, model, points);
    UnmountAll(tree, inst.roots, model, points);
    tree.ViewIsWellFormed();
    ghost var removed := tree.View();
    AgreeAfterRemoval(stopping, tree.rule, sm, reg, models, points);
    SetLeaves(tree, inst.eu, map["Status" := "Idle", "References" := ""]);
    tree.ViewIsWellFormed();
    ghost var idle := map["Status" := "Idle", "References" := ""];
    AgreeAfterText(removed, tree.View(), tree.rule, sm, reg, models, inst.eu, idle);
    IsStopped(s, stopping, removed, tree.View(), sm, inst.eu, points);
  }

  /** Stops a unit's execution unit and deletes its row, after writing leaves of the
      deployment unit's row. */
  method HaltUnit(tree: Tree, sm: Path, row: Path, inst: Installation, values: map<string, string>, ghost id: string,
                  ghost reg: Inventory, ghost models: Models, ghost model: Store)
    requires tree.Valid() && Agree(tree.View(), tree.rule, sm, reg, models) && Unused(sm, reg, row)
    requires Unused(sm, reg, inst.eu)
    requires Entry(tree.View(), sm, row, inst, model) && Identified(tree.View(), tree.rule, sm, row, id)
    requires forall r | r in reg :: Clear(models[r], PointsOf(inst.roots))
    requires "UUID" !in values && forall x | x in values :: Segment(x)
    modifies tree`at, tree.at.Values
    ensures tree.Valid() && tree.at.Values <= old(tree.at.Values) && Agree(tree.View(), tree.rule, sm, reg, models)
    ensures Identified(tree.View(), tree.rule, sm, row, id)
    ensures Halted(old(tree.View()), tree.View(), sm, row, inst.eu, PointsOf(inst.roots))
    ensures RowWritten(old(tree.View()), tree.View(), tree.rule, row, values)
  {
    hide Shaped, Content, WellFormed, LeavesSet, Agree, Plain, Unused, Clear, PointsOf, Entry, Identified, SameOutside,
      Ceased, Halted, Fitted, RowIn, Names, Beside, Declares, RowWritten;
    ghost var s := tree.View();
    EntryFacts(s, tree.rule, sm, reg, models, row, inst, model);
    SetLeaves(tree, row, values);
    tree.ViewIsWellFormed();
    ghost var written := tree.View();
    AgreeAfterText(s, written, tree.rule, sm, reg, models, row, values);
    IdentifiedWritten(s, written, tree.rule, sm, row, id, values);
    LeavesAreWritten(s, written, tree.rule, row, values);
    FittedOutside(s, written, sm, model, PointsOf(inst.roots), row);
    OtherRowStays(s, written, sm, row, inst.eu);
    Cease(tree, sm, row, inst, id, reg, models, model);
    HaltedFrom(s, written, tree.View(), sm, row, inst.eu, PointsOf(inst.roots));
    WrittenTrans(s, written, tree.View(), tree.rule, row, values, map[]);
    assert values + map[] == values;
  }

  lemma EntryFacts(s: Store, rule: Rule, sm: Path, reg: Inventory, models: Models, row: Path, inst: Installation,
                   model: Store)
    requires Agree(s, rule, sm, reg, models) && Entry(s, sm, row, inst, model)
    ensures RowIn(s, sm, DU, row) && RowIn(s, sm, EU, inst.eu) && Plain(row) && row != [] && sm <= row
    ensures Fitted(s, sm, model, PointsOf(inst.roots)) && Names(model, inst.roots, PointsOf(inst.roots))
    ensures Declares(s, sm + [EU], EU_LEAVES)
  {
    hide WellFormed, Fitted, Names, Declares, PointsOf, Entries;
    RowInFacts(s, sm, DU, row);
    RowIsPlain(s, sm, DU, row);
  }

  lemma OtherRowStays(s: Store, t: Store, sm: Path, row: Path, eu: Path)
    requires RowIn(s, sm, DU, row) && RowIn(s, sm, EU, eu) && s.Keys == t.Keys && SameOutside(s, t, row)
    requires Declares(s, sm + [EU], EU_LEAVES)
    ensures RowIn(t, sm, EU, eu) && sm + [EU] in t && t[sm + [EU]].table
  {
  }

  /** Stops the execution unit and deletes its row. */
  method Cease(tree: Tree, sm: Path, ghost row: Path, inst: Installation, ghost id: string,
               ghost reg: Inventory, ghost models: Models, ghost model: Store)
    requires tree.Valid() && Agree(tree.View(), tree.rule, sm, reg, models) && Unused(sm, reg, inst.eu)
    requires RowIn(tree.View(), sm, EU, inst.eu) && Identified(tree.View(), tree.rule, sm, row, id)
    requires Fitted(tree.View(), sm, model, PointsOf(inst.roots)) && Names(model, inst.roots, PointsOf(inst.roots))
    requires forall r | r in reg :: Clear(models[r], PointsOf(inst.roots))
    requires sm + [EU] in tree.View() && tree.View()[sm + [EU]].table
    modifies tree`at, tree.at.Values
    ensures tree.Valid() && tree.at.Values <= old(tree.at.Values) && Agree(tree.View(), tree.rule, sm, reg, models)
    ensures Identified(tree.View(), tree.rule, sm, row, id)
    ensures Ceased(old(tree.View()), tree.View(), sm, inst.eu, PointsOf(inst.roots))
    ensures RowWritten(old(tree.View()), tree.View(), tree.rule, row, map[])
  {
    hide Shaped, Content, WellFormed, Agree, Plain, Unused, Clear, PointsOf, Identified, Stopped, Ceased, Fitted, RowIn,
      Names, Beside, RowDeleted, InstanceName, Segment, RowWritten;
    ghost var s, points := tree.View(), PointsOf(inst.roots);
    FittedIsRemovable(s, sm, model, points);
    RowInFacts(s, sm, EU, inst.eu);
    RowInNames(s, sm, EU, inst.eu);
    AgreeIsPlain(s, tree.rule, sm, reg, models);
    PlainTables(sm);
    Stop(tree, sm, inst, reg, models, model);
    ghost var stopped := tree.View();
    TableStays(s, stopped, sm, inst.eu, points);
    DropRow(tree, sm + [EU], Last(inst.eu));
    tree.ViewIsWellFormed();
    AgreeAfterDrop(stopped, tree.rule, sm, reg, models, EU, Last(inst.eu));
    StoppedThenDropped(s, stopped, sm, inst.eu, points);
    IdentifiedCeased(s, tree.View(), tree.rule, sm, row, inst.eu, points, id);
    IdentifiedRow(s, tree.rule, sm, row, id);
    RowCeased(s, tree.View(), tree.rule, sm, row, inst.eu, points);
  }

  lemma IdentifiedRow(s: Store, rule: Rule, sm: Path, row: Path, id: string)
    requires Identified(s, rule, sm, row, id)
    ensures RowIn(s, sm, DU, row) && |row| == |sm| + 2 && RowTakesText(s, rule, row)
  {
  }

  lemma RowInNames(s: Store, sm: Path, table: string, row: Path)
    requires RowIn(s, sm, table, row)
    ensures row != [] && Segment(Last(row)) && InstanceName(Last(row)) && row == sm + [table] + [Last(row)]
    ensures row == sm + [table, Last(row)]
  {
  }

  lemma TableStays(s: Store, stopped: Store, sm: Path, eu: Path, points: seq<Path>)
    requires Stopped(s, stopped, eu, points) && Beside(sm, points) && |eu| == |sm| + 2
    requires sm + [EU] in s && s[sm + [EU]].table
    ensures sm + [EU] in stopped && stopped[sm + [EU]].table && eu in stopped
  {
    BesideIsApart(sm, points, sm + [EU]);
    assert Same(Remaining(s, points), stopped, sm + [EU]);
  }

  /** Deleting a row that no unit has. */
  lemma AgreeAfterDrop(s: Store, rule: Rule, sm: Path, reg: Inventory, models: Models, table: string, k: string)
    requires Agree(s, rule, sm, reg, models) && (table == DU || table == EU) && Unused(sm, reg, sm + [table, k])
    requires WellFormed(RowDeleted(s, sm + [table], k))
    ensures Agree(RowDeleted(s, sm + [table], k), rule, sm, reg, models)
  {
    hide WellFormed, RowDeleted, Agree, Unused, InSync;
    assert sm + [table] + [k] == sm + [table, k];
    RowDeletedElsewhere(s, sm + [table], k);
    CountersCount(s, sm + [table], k);
    AgreeAfterRow(s, RowDeleted(s, sm + [table], k), rule, sm, reg, models, table, k);
  }

  lemma RowDeletedOutside(s: Store, sm: Path, k: string)
    ensures AlikeOutside(s, RowDeleted(s, sm + [DU], k), sm)
    ensures RowDeleted(s, sm + [DU], k).Keys <= s.Keys
  {
    hide RowDeleted;
    RowDeletedElsewhere(s, sm + [DU], k);
    CounterOf(sm, DU);
    forall q | !(sm <= q)
      ensures Same(s, RowDeleted(s, sm + [DU], k), q)
    {
      assert sm + [DU] + [k] <= q ==> sm <= q;
    }
    RowDeletedKeys(s, sm + [DU], k);
  }

  lemma EnvsTrans(s: Store, t: Store, u: Store, sm: Path)
    requires EnvsKept(s, t, sm) && EnvsKept(t, u, sm)
    ensures EnvsKept(s, u, sm)
  {
    forall q | sm + [EE] <= q
      ensures Same(s, u, q)
    {
      assert Same(s, t, q) && Same(t, u, q);
    }
  }

  lemma RowDeletedKeys(s: Store, p: Path, k: string)
    ensures RowDeleted(s, p, k).Keys <= s.Keys
  {
    forall q | q in RowDeleted(s, p, k)
      ensures q in s
    {
      SyncedAt(Without(s, p + [k]), p, q);
    }
  }

  lemma AgreeIsDistinct(s: Store, rule: Rule, sm: Path, reg: Inventory, models: Models)
    requires Agree(s, rule, sm, reg, models)
    ensures DistinctUuids(s, reg)
  {
  }

  lemma AgreeIsPlain(s: Store, rule: Rule, sm: Path, reg: Inventory, models: Models)
    requires Agree(s, rule, sm, reg, models)
    ensures Plain(sm) && sm != [] && sm in s && WellFormed(s) && reg.Keys == models.Keys
  {
  }

  lemma IsStopped(s: Store, stopping: Store, removed: Store, t: Store, sm: Path, eu: Path, points: seq<Path>)
    requires SameOutside(s, stopping, eu) && s.Keys == stopping.Keys && removed == Remaining(stopping, points)
    requires SameOutside(removed, t, eu) && removed.Keys == t.Keys && eu in s && sm <= eu && Beside(sm, points)
    ensures Stopped(s, t, eu, points)
  {
    BesideIsApart(sm, points, eu);
    forall q
      ensures Same(Remaining(s, points), t, q) || eu <= q
    {
      assert q in s <==> q in stopping;
    }
  }

  // ---------- A deployment unit's row ----------

  /** Writes leaves of the pending row. */
  method WriteRow(tree: Tree, sm: Path, row: Path, values: map<string, string>,
                  ghost s: Store, ghost reg: Inventory, ghost models: Models)
    requires tree.Valid() && Agree(tree.View(), tree.rule, sm, reg, models) && Unused(sm, reg, row)
    requires Pending(s, tree.View(), tree.rule, sm, row) && forall x | x in values :: Segment(x)
    modifies tree.at.Values
    ensures tree.Valid() && Agree(tree.View(), tree.rule, sm, reg, models)
    ensures Pending(s, tree.View(), tree.rule, sm, row)
    ensures SameOutside(old(tree.View()), tree.View(), row)
    ensures forall x | x == "UUID" || x == "Version" ::
      Text(tree.View(), row + [x]) == if x in values then Some(values[x]) else Text(old(tree.View()), row + [x])
  {
    hide Shaped, Content, WellFormed, LeavesSet, Agree, Plain, Unused, Pending, TextLeaf, NoneHas, SameOutside,
      RowAdded, RowIn;
    ghost var before := tree.View();
    PendingFacts(s, before, tree.rule, sm, row);
    AgreeIsPlain(before, tree.rule, sm, reg, models);
    RowIsPlain(RowAdded(s, sm + [DU], Last(row)), sm, DU, row);
    SetLeaves(tree, row, values);
    tree.ViewIsWellFormed();
    AgreeAfterText(before, tree.View(), tree.rule, sm, reg, models, row, values);
    PendingStays(s, before, tree.View(), tree.rule, sm, row, values);
  }

  /** Begins a deployment unit's row. */
  method BeginRow(tree: Tree, sm: Path, ghost reg: Inventory, ghost models: Models) returns (row: Option<Path>)
    requires tree.Valid() && Agree(tree.View(), tree.rule, sm, reg, models)
    modifies tree`at, tree.at.Values
    ensures tree.Valid() && Agree(tree.View(), tree.rule, sm, reg, models)
    ensures fresh(tree.at.Values - old(tree.at.Values))
    ensures row.Some? <==> Declares(old(tree.View()), sm + [DU], DU_LEAVES)
    ensures row.None? ==> tree.View() == old(tree.View())
    ensures row.Some? ==> Pending(old(tree.View()), tree.View(), tree.rule, sm, row.value) && Unused(sm, reg, row.value)
    ensures AlikeOutside(old(tree.View()), tree.View(), sm)
  {
    hide Shaped, Content, WellFormed, Entries, Separate, DistinctUuids, InSync, Plain, RowMade, Unused, TextRows,
      RowsTakeText, RowAdded, Pending, Declares, AlikeOutside;
    ghost var s := tree.View();
    DuNames();
    PlainTables(sm);
    row := AddRow(tree, sm, DU, DU_LEAVES);
    if row.None? {
      AlikeItself(s, sm);
      return;
    }
    tree.ViewIsWellFormed();
    AgreeAfterMade(s, tree.View(), tree.rule, sm, reg, models, DU, row.value, DU_LEAVES);
    PendingFromMade(s, tree.View(), tree.rule, sm, row.value);
    MadeIsBelow(s, tree.View(), tree.rule, sm, row.value);
  }

  lemma PendingFacts(s: Store, t: Store, rule: Rule, sm: Path, row: Path)
    requires Pending(s, t, rule, sm, row)
    ensures row != [] && RowIn(RowAdded(s, sm + [DU], Last(row)), sm, DU, row) && RowIn(t, sm, DU, row)
    ensures RowTakesText(t, rule, row) && row !in s
  {
    hide RowAdded, TextLeaf;
    assert DU_LEAVES[0] == "UUID" && DU_LEAVES[2] == "Status" && DU_LEAVES[3] == "Version";
  }

  lemma PendingIdentified(s: Store, t: Store, rule: Rule, sm: Path, row: Path, id: string)
    requires Pending(s, t, rule, sm, row) && Text(t, row + ["UUID"]) == Some(id) && WellFormed(s)
    ensures Identified(t, rule, sm, row, id)
  {
    hide RowAdded, WellFormed;
    PendingFacts(s, t, rule, sm, row);
    PendingTouches(s, t, rule, sm, row);
  }

  lemma AlikeItself(s: Store, sm: Path)
    ensures AlikeOutside(s, s, sm)
  {
  }

  /** Marks the row Installed, for the execution unit started since before. */
  method MarkInstalled(tree: Tree, sm: Path, row: Path, values: map<string, string>, ghost inst: Installation,
                       ghost id: string, ghost before: Store, ghost reg: Inventory, ghost models: Models,
                       ghost model: Store)
    requires tree.Valid() && Agree(tree.View(), tree.rule, sm, reg, models) && Agree(before, tree.rule, sm, reg, models)
    requires Started(before, tree.View(), sm, model, inst.roots, inst.eu)
    requires Newly(reg, models, sm, model, inst.roots, inst.eu)
    requires Unused(sm, reg, row) && Identified(before, tree.rule, sm, row, id) && NoneHas(before, reg, id)
    requires "UUID" !in values && "Status" in values && values["Status"] == "Installed"
    requires forall x | x in values :: Segment(x)
    requires GivesVersion(before, row, values, inst.manifest.app.version)
    modifies tree.at.Values
    ensures tree.Valid() && Agree(tree.View(), tree.rule, sm, reg[row := inst], models[row := model])
    ensures HasUuid(tree.View(), row, id) && SameOutside(old(tree.View()), tree.View(), row) && sm <= row
    ensures RowWritten(old(tree.View()), tree.View(), tree.rule, row, values)
  {
    hide Shaped, Content, WellFormed, LeavesSet, Agree, Plain, Unused, TextLeaf, NoneHas, SameOutside, RowIn,
      Identified, Started, Newly, Segment, RowWritten;
    ghost var t := tree.View();
    AgreeIsPlain(before, tree.rule, sm, reg, models);
    IdentifiedFacts(before, tree.rule, sm, row, id);
    RowIsPlain(before, sm, DU, row);
    RowInFacts(before, sm, DU, row);
    StartedKeeps(before, t, tree.rule, sm, reg, models, model, inst, row, id);
    SetLeaves(tree, row, values);
    tree.ViewIsWellFormed();
    AgreeAfterText(t, tree.View(), tree.rule, sm, reg, models, row, values);
    IdentifiedWritten(t, tree.View(), tree.rule, sm, row, id, values);
    LeavesAreWritten(t, tree.View(), tree.rule, row, values);
    IdentifiedRow(before, tree.rule, sm, row, id);
    RowStarted(before, t, tree.rule, sm, model, inst.roots, inst.eu, row);
    VersionShown(before, t, tree.View(), tree.rule, row, values, inst.manifest.app.version);
    AllNoneHasKept(t, tree.View(), tree.rule, sm, reg, models, row);
    Entered(before, t, tree.View(), tree.rule, sm, reg, models, row, inst, model, id);
    IdentifiedFacts(tree.View(), tree.rule, sm, row, id);
  }

  lemma IdentifiedFacts(s: Store, rule: Rule, sm: Path, row: Path, id: string)
    requires Identified(s, rule, sm, row, id)
    ensures RowIn(s, sm, DU, row) && HasUuid(s, row, id)
  {
  }

  /** What an execution unit's start leaves of the row it is started for, and of the others. */
  lemma StartedKeeps(s: Store, t: Store, rule: Rule, sm: Path, reg: Inventory, models: Models, model: Store,
                     inst: Installation, row: Path, id: string)
    requires Agree(s, rule, sm, reg, models) && Started(s, t, sm, model, inst.roots, inst.eu)
    requires Newly(reg, models, sm, model, inst.roots, inst.eu)
    requires Identified(s, rule, sm, row, id) && NoneHas(s, reg, id)
    ensures Identified(t, rule, sm, row, id) && NoneHas(t, reg, id)
  {
    hide WellFormed, InSync, Entries, Separate, DistinctUuids, TextRows, RowsTakeText, Fitted, Names, Declares, RowIn,
      Identified, NoneHas, Unused, Clear, PointsOf, Joined, Grafted, AreTheFrontier, AlikeOutside;
    IdentifiedStays(s, t, rule, sm, row, id);
    NoneHasKept(s, t, sm, reg, models, inst.eu, id);
  }

  lemma StartedOutside(s: Store, t: Store, sm: Path, model: Store, roots: seq<string>, eu: Path)
    requires Started(s, t, sm, model, roots, eu)
    ensures AlikeOutside(Grafted(s, model), t, sm) && AreTheFrontier(s, model, PointsOf(roots))
  {
    hide Fitted, Names, Grafted, PointsOf, Declares, AreTheFrontier, AlikeOutside, Joined, RowIn;
  }

  /** The same units, of the same apps. */
  ghost predicate SameApps(a: Inventory, b: Inventory) {
    && a.Keys == b.Keys
    && forall r | r in a :: a[r].manifest == b[r].manifest && a[r].url == b[r].url && a[r].ee == b[r].ee
  }

  /** What halting a unit leaves of the others, and of the place it had. */
  lemma HaltJudges(s: Store, t: Store, rule: Rule, sm: Path, reg: Inventory, models: Models, row: Path,
                   inst: Installation, model: Store, id: string)
    requires Agree(s, rule, sm, reg, models) && Agree(t, rule, sm, reg, models) && Entry(s, sm, row, inst, model)
    requires Unused(sm, reg, row) && Unused(sm, reg, inst.eu) && NoneHas(s, reg, id)
    requires Halted(s, t, sm, row, inst.eu, PointsOf(inst.roots))
    requires forall r | r in reg :: Clear(model, PointsOf(reg[r].roots))
    ensures NoneHas(t, reg, id) && Declares(t, sm + [EU], EU_LEAVES) && EnvsKept(s, t, sm)
    ensures AlikeOutside(Remaining(s, PointsOf(inst.roots)), t, sm)
    ensures Joinable(t, sm, reg, model) && !Clash(t, model)
  {
    hide Agree, Entry, PointsOf, Clear, Unused, NoneHas, WellFormed, AlikeOutside, Remaining, Joinable, Clash, Halted,
      Fitted, Declares, EnvsKept, RowIn, Removable, RowOfHost, Plain, Beside, Names;
    var points := PointsOf(inst.roots);
    AgreeIsPlain(s, rule, sm, reg, models);
    AgreeIsPlain(t, rule, sm, reg, models);
    EntryFacts(s, rule, sm, reg, models, row, inst, model);
    FittedIsRemovable(s, sm, model, points);
    EntryIsBelow(s, sm, row, inst, model);
    HaltedDeclares(s, t, sm, row, inst.eu, points);
    HaltedEnvs(s, t, sm, row, inst.eu, points);
    HaltedNoneHas(s, t, rule, sm, reg, models, row, inst.eu, points);
    HaltedOutside(s, t, sm, row, inst.eu, points);
    CanRestart(s, t, sm, reg, model, points);
  }

  /** The unit is one that an operation with this identifier, and version if any, names. */
  ghost predicate Named(s: Store, reg: Inventory, r: Path, uuid: string, version: string)
    requires r in reg
  {
    HasUuid(s, r, uuid) && (version == "" || Fold(reg[r].manifest.app.version) == Fold(version))
  }

  lemma UnusedIsOut(sm: Path, reg: Inventory, row: Path)
    requires Unused(sm, reg, row)
    ensures row !in reg && reg - {row} == reg
  {
  }

  lemma UuidOutside(s: Store, t: Store, rule: Rule, sm: Path, reg: Inventory, models: Models, row: Path, ee: Path,
                    id: string)
    requires Agree(s, rule, sm, reg, models) && row in reg && HasUuid(s, row, id)
    requires SameOutside(s, t, ee) && sm + [EE] <= ee
    ensures HasUuid(t, row, id)
  {
    hide WellFormed, InSync, Fitted, Names, Declares;
    assert Entry(s, sm, row, reg[row], models[row]);
    RowInFacts(s, sm, DU, row);
    PrefixAt(sm + [EE], ee, |sm|);
    PrefixAt(ee, row + ["UUID"], |sm|);
  }

  lemma AllNoneHasKept(s: Store, t: Store, rule: Rule, sm: Path, reg: Inventory, models: Models, row: Path)
    requires Agree(s, rule, sm, reg, models) && Unused(sm, reg, row) && SameOutside(s, t, row)
    ensures forall uuid :: NoneHas(s, reg, uuid) ==> NoneHas(t, reg, uuid)
  {
    hide NoneHas, Entries, Unused, WellFormed, Separate, DistinctUuids, InSync, TextRows;
    forall uuid | NoneHas(s, reg, uuid)
      ensures NoneHas(t, reg, uuid)
    {
      NoneHasKept(s, t, sm, reg, models, row, uuid);
    }
  }

  lemma MadeIsBelow(s: Store, t: Store, rule: Rule, sm: Path, row: Path)
    requires RowMade(s, t, rule, sm, DU, row, DU_LEAVES)
    requires forall q :: Same(s, t, q) || row <= q || q == CounterPath(sm + [DU])
    ensures AlikeOutside(s, t, sm)
  {
    hide RowAdded;
    RowInFacts(t, sm, DU, row);
    RowIsBelow(s, t, sm, row, DU);
  }

  lemma OutsideIsBelow(s: Store, t: Store, sm: Path, row: Path)
    requires SameOutside(s, t, row) && sm <= row
    ensures AlikeOutside(s, t, sm)
  {
    forall q | !(sm <= q)
      ensures Same(s, t, q)
    {
      assert row <= q ==> sm <= q;
    }
  }

  /** Takes the pending row out again, which restores the tree. */
  method Undo(tree: Tree, sm: Path, row: Path, ghost s: Store)
    requires tree.Valid() && Pending(s, tree.View(), tree.rule, sm, row) && WellFormed(s) && InSync(s, sm + [DU])
    requires Plain(sm)
    modifies tree`at, tree.at.Values
    ensures tree.Valid() && tree.at.Values <= old(tree.at.Values) && tree.View() == s
  {
    hide Shaped, Content, WellFormed, Plain, Pending, InSync, RowDeleted;
    PendingFacts(s, tree.View(), tree.rule, sm, row);
    PendingUndone(s, tree.View(), tree.rule, sm, row);
    PlainTables(sm);
    DropRow(tree, sm + [DU], Last(row));
  }

  // ---------- The manager ----------

  datatype Reason = InvalidArguments | UnknownExecEnv | DisabledExecEnv | RequestDenied | FetchFailed | Injected
                  | Mismatch | Duplicate | UnknownDu | InvalidState | VersionExists

  datatype Result = Result(uuid: string, row: Option<Path>, version: string, state: string, eus: seq<Path>,
                           fault: Option<Reason>)

  function Failed(uuid: string, version: string, fault: Reason): Result {
    Result(uuid, None, version, "", [], Some(fault))
  }

  datatype Operation =
    | ToInstall(url: string, uuid: string, env: Environment)
    | ToUpdate(uuid: string, version: string, url: string, env: Environment)
    | ToUninstall(uuid: string, version: string, envRef: string)

  /** What became of looking an execution environment up. */
  datatype Environment = Env(path: Path) | Unknown | Disabled

  function EnvFault(env: Environment): Option<Reason> {
    match env
    case Env(_) => None
    case Unknown => Some(UnknownExecEnv)
    case Disabled => Some(DisabledExecEnv)
  }

  /** White space as Unicode has it. */
  predicate Space(c: char) {
    var n := c as int;
    || 9 <= n <= 13 || n == 32 || n == 0x85 || n == 0xA0 || n == 0x1680 || 0x2000 <= n <= 0x200A
    || n == 0x2028 || n == 0x2029 || n == 0x202F || n == 0x205F || n == 0x3000
  }

  predicate Blank(s: string) {
    forall c <- s :: Space(c)
  }

  lemma DuNames()
    ensures Segment("UUID") && Segment("Name") && Segment("Status") && Segment("Version") && Segment("URL")
    ensures Segment("Resolved") && Segment("DUID") && Segment("Installed") && Segment("LastUpdate")
  {
  }

  lemma ListNames()
    ensures Segment("ExecutionUnitList") && Segment(LIST)
  {
  }

  lemma ActiveGrows(s: Store, reg: Inventory, todo: set<Path>, r: Path, ee: Path)
    requires r in todo && r in reg
    ensures ActiveIn(s, reg - (todo - {r}), ee) == ActiveIn(s, reg - todo, ee) +
            if reg[r].ee == ee && Text(s, reg[r].eu + ["Status"]) == Some("Active") then {Join(reg[r].eu)} else {}
  {
    hide Join, Text;
    var less, more := reg - todo, reg - (todo - {r});
    assert more.Keys == less.Keys + {r};
    assert forall a | a in less :: more[a] == less[a];
    assert more[r] == reg[r];
  }

  /** A change to an environment's row leaves a deployment unit's row as it was. */
  lemma EnvLeavesRow(s: Store, t: Store, rule: Rule, sm: Path, row: Path, ee: Path)
    requires SameOutside(s, t, ee) && sm + [EE] <= ee && |row| == |sm| + 2 && row[|sm|] == DU
    ensures RowWritten(s, t, rule, row, map[])
  {
    hide TextLeaf, Text;
    PrefixAt(sm + [EE], ee, |sm|);
    assert (sm + [EE])[|sm|] == EE;
    forall x | row + [x] in s
      ensures row + [x] in t && t[row + [x]] == s[row + [x]]
    {
      PrefixAt(ee, row + [x], |sm|);
    }
    KeptIsWritten(s, t, rule, row);
  }

  /** A manifest's own tree and what it holds. */
  ghost predicate Holds(m: Tree, model: Store)
    reads m, m.at.Values
  {
    m.Valid() && m.View() == model
  }

  ghost function TreesOf(reg: Inventory): set<Tree> {
    set r | r in reg :: reg[r].manifest.tree
  }

  ghost function NodesOf(reg: Inventory): set<Node>
    reads TreesOf(reg)
  {
    set r, n | r in reg && n in reg[r].manifest.tree.at.Values :: n
  }

  /** The manifests' trees hold the models they held when their apps were installed. */
  ghost predicate Shelved(reg: Inventory, models: Models)
    reads TreesOf(reg), NodesOf(reg)
  {
    forall r | r in reg :: r in models && Holds(reg[r].manifest.tree, models[r])
  }

  /** One manifest more on the shelf. */
  lemma ShelfGains(tree: Tree, reg: Inventory, models: Models, row: Path, inst: Installation)
    requires Shelved(reg, models) && tree !in TreesOf(reg) && tree.at.Values !! NodesOf(reg)
    requires inst.manifest.tree.Valid() && inst.manifest.tree != tree && tree.at.Values !! inst.manifest.tree.at.Values
    ensures Shelved(reg[row := inst], models[row := inst.manifest.tree.View()])
    ensures tree !in TreesOf(reg[row := inst]) && tree.at.Values !! NodesOf(reg[row := inst])
  {
    hide Shaped, Content;
    var more := reg[row := inst];
    forall r | r in more
      ensures more[r].manifest.tree != tree && tree.at.Values !! more[r].manifest.tree.at.Values
    {
      if r != row {
        assert r in reg && more[r] == reg[r];
        assert reg[r].manifest.tree in TreesOf(reg);
        assert forall n | n in reg[r].manifest.tree.at.Values :: n in NodesOf(reg);
      }
    }
  }

  class Manager {
    const tree: Tree
    const sm: Path
    /** The apps whose installation the profile makes fail. */
    const faults: set<string>
    const isUuid: string -> bool
    /** Sorts references and joins them. */
    const render: set<string> -> string
    var installed: Inventory
    ghost var models: Models

    ghost predicate EnvPath(ee: Path) {
      |ee| == |sm| + 2 && sm + [EE] <= ee && Plain(ee)
    }

    /** The tree agrees with these units, whose manifests have trees apart from it. */
    ghost predicate Holding(reg: Inventory, ms: Models)
      reads tree, tree.at.Values, TreesOf(reg), NodesOf(reg)
    {
      && tree.Valid() && Agree(tree.View(), tree.rule, sm, reg, ms)
      && Shelved(reg, ms) && tree !in TreesOf(reg) && tree.at.Values !! NodesOf(reg)
      && (forall r | r in reg :: EnvPath(reg[r].ee))
    }

    ghost predicate Valid()
      reads this, tree, tree.at.Values, TreesOf(installed), NodesOf(installed)
    {
      Holding(installed, models)
    }

    constructor (tree: Tree, sm: Path, faults: set<string>, isUuid: string -> bool, render: set<string> -> string)
      requires tree.Valid() && sm in tree.View() && Plain(sm) && sm != []
      requires InSync(tree.View(), sm + [DU]) && InSync(tree.View(), sm + [EU]) && TextRows(tree.View(), tree.rule, sm)
      ensures Valid() && this.tree == tree && this.sm == sm && installed == map[]
    {
      hide Shaped, Content, WellFormed, InSync, TextRows, Plain, Agree;
      this.tree, this.sm, this.faults, this.isUuid, this.render := tree, sm, faults, isUuid, render;
      installed, models := map[], map[];
      new;
      tree.ViewIsWellFormed();
      NoUnitsAgree(tree.View(), tree.rule, sm);
    }

    method ReadText(row: Path, leaf: string) returns (text: Option<string>)
      requires tree.Valid() && Plain(row) && row != [] && Segment(leaf)
      ensures text == Text(tree.View(), row + [leaf])
    {
      hide Shaped, Content, ParsePath, Plain, Join;
      ParseBelow(row, leaf);
      var v := tree.Get(Join(row) + "." + leaf);
      return if v.Ok? then Some(v.value.raw) else None;
    }

    lemma RowsArePlain()
      requires Agree(tree.View(), tree.rule, sm, installed, models)
      ensures forall r | r in installed :: Plain(r) && r != [] && Plain(installed[r].eu) && installed[r].eu != []
    {
      forall r | r in installed
        ensures Plain(r) && r != [] && Plain(installed[r].eu) && installed[r].eu != []
      {
        assert Entry(tree.View(), sm, r, installed[r], models[r]);
        RowIsPlain(tree.View(), sm, DU, r);
        RowIsPlain(tree.View(), sm, EU, installed[r].eu);
      }
    }

    /** The unit with the identifier, and the version when one is given; there are never
        several to choose from. */
    method FindLocked(uuid: string, version: string) returns (found: Option<Path>)
      requires Valid()
      ensures Valid()
      ensures found.Some? ==> found.value in installed && Named(tree.View(), installed, found.value, uuid, version)
      ensures found.None? ==> forall r | r in installed :: !Named(tree.View(), installed, r, uuid, version)
    {
      hide Shaped, Content, Agree, Plain, EnvPath, Shelved, Fold;
      DuNames();
      RowsArePlain();
      AgreeIsDistinct(tree.View(), tree.rule, sm, installed, models);
      var matches: seq<Path> := [];
      var todo := installed.Keys;
      while todo != {}
        invariant todo <= installed.Keys
        invariant forall r | r in installed && r !in todo && Named(tree.View(), installed, r, uuid, version) ::
          r in matches
        invariant forall r | r in matches ::
          r in installed && r !in todo && Named(tree.View(), installed, r, uuid, version)
        invariant forall i, j | 0 <= i < j < |matches| :: matches[i] != matches[j]
      {
        var r :| r in todo;
        todo := todo - {r};
        if version != "" && Fold(installed[r].manifest.app.version) != Fold(version) {
          continue;
        }
        var v := ReadText(r, "UUID");
        if v.Some? && Fold(v.value) == Fold(uuid) {
          matches := matches + [r];
        }
      }
      AtMostOne(tree.View(), installed, matches, uuid);
      if |matches| == 0 {
        return None;
      }
      if |matches| == 1 {
        return Some(matches[0]);
      }
      assert false;
    }

    /** The inventory, but for one unit when an update leaves it out. */
    function AllBut(but: Option<Path>): Inventory
      reads this
    {
      if but.Some? then installed - {but.value} else installed
    }

    /** The profile's injected faults and the duplicate rule: one unit for an identifier. */
    method CheckManifest(app: string, uuid: string, but: Option<Path>) returns (fault: Option<Reason>)
      requires Valid()
      ensures Valid()
      ensures fault == ManifestFault(tree.View(), AllBut(but), app, uuid)
    {
      hide Shaped, Content, Agree, Plain, EnvPath, Shelved, Fold;
      if app in faults {
        return Some(Injected);
      }
      DuNames();
      RowsArePlain();
      var todo := installed.Keys;
      while todo != {}
        invariant todo <= installed.Keys
        invariant forall r | r in installed && r !in todo && Some(r) != but :: !HasUuid(tree.View(), r, uuid)
      {
        var r :| r in todo;
        todo := todo - {r};
        if Some(r) == but {
          continue;
        }
        var v := ReadText(r, "UUID");
        if v.Some? && Fold(v.value) == Fold(uuid) {
          assert r in AllBut(but) && HasUuid(tree.View(), r, uuid);
          return Some(Duplicate);
        }
      }
      return None;
    }

    /** Rewrites the environment's list of active execution units. */
    method SyncActiveUnits(ee: Path, ghost reg: Inventory, ghost ms: Models)
      requires tree.Valid() && Agree(tree.View(), tree.rule, sm, reg, ms) && EnvPath(ee)
      requires forall r | r in installed :: Plain(installed[r].eu) && installed[r].eu != []
      modifies tree.at.Values
      ensures tree.Valid() && Agree(tree.View(), tree.rule, sm, reg, ms)
      ensures old(tree.View()).Keys == tree.View().Keys && SameOutside(old(tree.View()), tree.View(), ee)
      ensures LeavesSet(old(tree.View()), tree.View(), tree.rule, ee,
                        map[LIST := render(ActiveIn(old(tree.View()), installed, ee))])
    {
      hide Shaped, Content, WellFormed, Plain, Agree, LeavesSet, Join;
      EuNames();
      ListNames();
      var active: set<string> := {};
      var todo := installed.Keys;
      while todo != {}
        invariant todo <= installed.Keys && tree.Valid() && tree.View() == old(tree.View())
        invariant active == ActiveIn(tree.View(), installed - todo, ee)
      {
        var r :| r in todo;
        ActiveGrows(tree.View(), installed, todo, r, ee);
        todo := todo - {r};
        if installed[r].ee == ee {
          var v := ReadText(installed[r].eu, "Status");
          if v == Some("Active") {
            active := active + {Join(installed[r].eu)};
          }
        }
      }
      assert installed - {} == installed;
      ghost var s := tree.View();
      SetLeaves(tree, ee, map[LIST := render(active)]);
      tree.ViewIsWellFormed();
      AgreeAfterText(s, tree.View(), tree.rule, sm, reg, ms, ee, map[LIST := render(active)]);
    }

    // ---------- Rows ----------

    lemma HoldingAgrees(reg: Inventory, ms: Models)
      requires Holding(reg, ms)
      ensures Agree(tree.View(), tree.rule, sm, reg, ms) && reg.Keys == ms.Keys
    {
      hide Agree;
      AgreeKeys(tree.View(), tree.rule, sm, reg, ms);
    }

    /** A manifest's tree is its own and its model can join the units. */
    ghost predicate Ready(manifest: Manifest, reg: Inventory)
      reads tree, tree.at.Values, manifest.tree, manifest.tree.at.Values
    {
      Apart(manifest) && Joinable(tree.View(), sm, reg, manifest.tree.View())
    }

    ghost predicate Apart(manifest: Manifest)
      reads tree, tree.at.Values, manifest.tree, manifest.tree.at.Values
    {
      manifest.tree.Valid() && manifest.tree != tree && tree.at.Values !! manifest.tree.at.Values
    }

    /** The manifest fetched, if there is one, has a tree of its own whose model can join
        the installed ones. */
    ghost predicate Offered(offer: Option<Manifest>)
      reads this, tree, tree.at.Values, if offer.Some? then {offer.value.tree} else {}
      reads if offer.Some? then offer.value.tree.at.Values else {}
    {
      offer.Some? ==> Ready(offer.value, installed)
    }

    /** Begins a deployment unit's row. */
    method Begin(ghost offer: Option<Manifest>) returns (row: Option<Path>)
      requires Valid() && Offered(offer)
      modifies tree`at, tree.at.Values
      ensures Valid() && Offered(offer) && fresh(tree.at.Values - old(tree.at.Values))
      ensures row.Some? <==> Declares(old(tree.View()), sm + [DU], DU_LEAVES)
      ensures row.None? ==> tree.View() == old(tree.View())
      ensures row.Some? ==>
        Pending(old(tree.View()), tree.View(), tree.rule, sm, row.value) && Unused(sm, installed, row.value)
    {
      hide Shaped, Content, Agree, EnvPath, Unused, Pending, Joinable, Shelved, AlikeOutside, Declares;
      ghost var s := tree.View();
      row := BeginRow(tree, sm, installed, models);
      if offer.Some? {
        JoinableKept(s, tree.View(), sm, installed, offer.value.tree.View());
      }
    }

    /** Writes leaves of the row begun. */
    method Draft(row: Path, values: map<string, string>, ghost s: Store, ghost offer: Option<Manifest>)
      requires Valid() && Offered(offer) && Pending(s, tree.View(), tree.rule, sm, row) && Unused(sm, installed, row)
      requires forall x | x in values :: Segment(x)
      modifies tree.at.Values
      ensures Valid() && Offered(offer) && Pending(s, tree.View(), tree.rule, sm, row)
      ensures forall x | x == "UUID" || x == "Version" ::
        Text(tree.View(), row + [x]) == if x in values then Some(values[x]) else Text(old(tree.View()), row + [x])
    {
      hide Shaped, Content, Agree, EnvPath, Pending, Unused, Shelved, Joinable, AlikeOutside, SameOutside, Segment,
        NoneHas, RowIn;
      ghost var before := tree.View();
      PendingFacts(s, before, tree.rule, sm, row);
      RowInFacts(before, sm, DU, row);
      WriteRow(tree, sm, row, values, s, installed, models);
      OutsideIsBelow(before, tree.View(), sm, row);
      if offer.Some? {
        JoinableKept(before, tree.View(), sm, installed, offer.value.tree.View());
      }
    }

    /** Takes the row begun out again. */
    method Discard(row: Path, ghost s: Store)
      requires Valid() && Pending(s, tree.View(), tree.rule, sm, row) && Agree(s, tree.rule, sm, installed, models)
      modifies tree`at, tree.at.Values
      ensures Valid() && tree.View() == s
    {
      hide Shaped, Content, WellFormed, Entries, Separate, DistinctUuids, InSync, Plain, EnvPath, Pending, TextRows,
        RowsTakeText, Shelved;
      Undo(tree, sm, row, s);
    }

    // ---------- Starting a unit ----------

    /** Starts the manifest's execution unit beside the units reg, or changes nothing. */
    method Launch(manifest: Manifest, ee: Path, now: string, ghost reg: Inventory, ghost ms: Models)
      returns (roots: seq<string>, eu: Option<Path>, clash: bool)
      requires Holding(reg, ms) && Ready(manifest, reg)
      modifies tree`at, tree.at.Values
      ensures Holding(reg, ms) && fresh(tree.at.Values - old(tree.at.Values))
      ensures Apart(manifest) && manifest.tree.View() == old(manifest.tree.View())
      ensures var s, model := old(tree.View()), manifest.tree.View();
        && (clash <==> Clash(s, model)) && (eu.Some? <==> !clash && Declares(s, sm + [EU], EU_LEAVES))
        && (eu.None? ==> tree.View() == s)
        && (eu.Some? ==> Started(s, tree.View(), sm, model, roots, eu.value))
        && (eu.Some? ==> Newly(reg, ms, sm, model, roots, eu.value))
    {
      hide Shaped, Content, Agree, EnvPath, Shelved, Joinable, Started, Newly, Declares, Clash;
      AgreeKeys(tree.View(), tree.rule, sm, reg, ms);
      roots, eu, clash := Start(tree, sm, manifest, ee, now, reg, ms);
    }

    /** Marks the row Installed, for the execution unit that has been started for it. */
    method Mark(row: Path, inst: Installation, ghost id: string, values: map<string, string>,
                 ghost before: Store, ghost reg: Inventory, ghost ms: Models)
      requires Holding(reg, ms) && EnvPath(inst.ee)
      requires Agree(before, tree.rule, sm, reg, ms)
      requires Started(before, tree.View(), sm, inst.manifest.tree.View(), inst.roots, inst.eu)
      requires Newly(reg, ms, sm, inst.manifest.tree.View(), inst.roots, inst.eu) && Unused(sm, reg, row)
      requires Identified(before, tree.rule, sm, row, id) && NoneHas(before, reg, id)
      requires "UUID" !in values && "Status" in values && values["Status"] == "Installed"
      requires forall x | x in values :: Segment(x)
      requires GivesVersion(before, row, values, inst.manifest.app.version)
      requires Apart(inst.manifest)
      modifies tree.at.Values
      ensures Holding(reg[row := inst], ms[row := old(inst.manifest.tree.View())]) && HasUuid(tree.View(), row, id)
      ensures SameOutside(old(tree.View()), tree.View(), row) && sm <= row
      ensures RowWritten(old(tree.View()), tree.View(), tree.rule, row, values)
    {
      hide Shaped, Content, Agree, Unused, NoneHas, Started, Newly, Identified, Segment, HasUuid, Shelved, SameOutside,
        RowWritten;
      ghost var model := inst.manifest.tree.View();
      ShelfGains(tree, reg, ms, row, inst);
      MarkInstalled(tree, sm, row, values, inst, id, before, reg, ms, model);
    }

    /** Marks the row Installed and enters the unit that has been started for it. */
    method Enter(row: Path, inst: Installation, ghost id: string, values: map<string, string>,
                 ghost before: Store, ghost reg: Inventory, ghost ms: Models)
      requires Holding(reg, ms) && reg == installed - {row} && EnvPath(inst.ee)
      requires Agree(before, tree.rule, sm, reg, ms)
      requires Started(before, tree.View(), sm, inst.manifest.tree.View(), inst.roots, inst.eu)
      requires Newly(reg, ms, sm, inst.manifest.tree.View(), inst.roots, inst.eu) && Unused(sm, reg, row)
      requires Identified(before, tree.rule, sm, row, id) && NoneHas(before, reg, id)
      requires "UUID" !in values && "Status" in values && values["Status"] == "Installed"
      requires forall x | x in values :: Segment(x)
      requires GivesVersion(before, row, values, inst.manifest.app.version)
      requires Apart(inst.manifest)
      modifies this`installed, this`models, tree.at.Values
      ensures Valid() && installed == old(installed)[row := inst] && HasUuid(tree.View(), row, id)
      ensures models == ms[row := old(inst.manifest.tree.View())]
      ensures AlikeOutside(old(tree.View()), tree.View(), sm)
      ensures RowWritten(old(tree.View()), tree.View(), tree.rule, row, values)
    {
      hide Shaped, Content, Agree, Shelved, Unused, NoneHas, Started, Newly, Identified, Segment, HasUuid, AlikeOutside,
        SameOutside, Apart, RowWritten;
      ghost var model, marked := inst.manifest.tree.View(), tree.View();
      Mark(row, inst, id, values, before, reg, ms);
      OutsideIsBelow(marked, tree.View(), sm, row);
      assert installed[row := inst] == reg[row := inst];
      installed, models := installed[row := inst], ms[row := model];
    }

    /** Brings the environment's list of active units up to date. */
    method Resync(ee: Path, ghost row: Path, ghost id: string)
      requires Valid() && EnvPath(ee) && row in installed && HasUuid(tree.View(), row, id)
      modifies tree.at.Values
      ensures Valid() && HasUuid(tree.View(), row, id) && Listed(ee)
      ensures AlikeOutside(old(tree.View()), tree.View(), sm)
      ensures RowWritten(old(tree.View()), tree.View(), tree.rule, row, map[])
    {
      hide Shaped, Content, Agree, HasUuid, Shelved, SameOutside, AlikeOutside, Join, ActiveIn, RefsIn, LeavesSet,
        ListsUnits, RowWritten;
      RowsArePlain();
      RowFacts(row);
      AgreeKeys(tree.View(), tree.rule, sm, installed, models);
      ghost var marked := tree.View();
      SyncActiveUnits(ee, installed, models);
      UuidOutside(marked, tree.View(), tree.rule, sm, installed, models, row, ee, id);
      EnvIsBelow(ee);
      OutsideIsBelow(marked, tree.View(), sm, ee);
      AllActive(marked, tree.rule, sm, installed, models, installed, ee);
      ListIsWritten(marked, tree.View(), tree.rule, installed, ee, render);
      EnvLeavesRow(marked, tree.View(), tree.rule, sm, row, ee);
    }

    lemma RowFacts(row: Path)
      requires Agree(tree.View(), tree.rule, sm, installed, models) && row in installed
      ensures |row| == |sm| + 2 && row[|sm|] == DU
    {
      assert Entry(tree.View(), sm, row, installed[row], models[row]);
      RowInFacts(tree.View(), sm, DU, row);
    }

    /** The environment's list names exactly its units, all of which run. */
    ghost predicate Listed(ee: Path)
      reads this, tree, tree.at.Values
    {
      ListsUnits(tree.View(), tree.rule, installed, ee, render)
    }

    lemma EnvIsBelow(ee: Path)
      requires EnvPath(ee)
      ensures sm <= ee
    {
    }

    /** The row holds the place of a unit that the others, reg, leave room for. */
    ghost predicate Standing(row: Path, id: string, reg: Inventory)
      reads this, tree, tree.at.Values
    {
      && reg == installed - {row} && Unused(sm, reg, row)
      && Identified(tree.View(), tree.rule, sm, row, id) && NoneHas(tree.View(), reg, id)
    }

    /** The unit installed from the manifest; its data model is what the tree has gained. */
    ghost predicate Gained(s: Store, was: Inventory, row: Path, manifest: Manifest, model: Store, ee: Path, url: string)
      reads this, tree, tree.at.Values
    {
      && row in installed && installed == was[row := installed[row]]
      && installed[row].manifest == manifest && installed[row].ee == ee && installed[row].url == url
      && AlikeOutside(Grafted(s, model), tree.View(), sm) && AreTheFrontier(s, model, PointsOf(installed[row].roots))
      && Listed(ee)
    }

    /** Starts the manifest's execution unit and enters the deployment unit under its row,
        or changes nothing. */
    method Deploy(row: Path, manifest: Manifest, ee: Path, url: string, ghost id: string, values: map<string, string>,
                  now: string, ghost reg: Inventory, ghost ms: Models)
      returns (eu: Option<Path>, clash: bool)
      requires Holding(reg, ms) && Standing(row, id, reg) && EnvPath(ee) && Ready(manifest, reg)
      requires "UUID" !in values && "Status" in values && values["Status"] == "Installed"
      requires forall x | x in values :: Segment(x)
      requires GivesVersion(tree.View(), row, values, manifest.app.version)
      modifies this`installed, this`models, tree`at, tree.at.Values
      ensures fresh(tree.at.Values - old(tree.at.Values))
      ensures var s, model := old(tree.View()), old(manifest.tree.View());
        && (clash <==> Clash(s, model)) && (eu.Some? <==> !clash && Declares(s, sm + [EU], EU_LEAVES))
        && (eu.Some? ==> Gained(s, old(installed), row, manifest, model, ee, url))
        && (eu.Some? ==> installed[row].eu == eu.value && models == ms[row := model])
        && (eu.Some? ==> RowWritten(s, tree.View(), tree.rule, row, values["ExecutionUnitList" := Join(eu.value)]))
      ensures eu.Some? ==> Valid() && HasUuid(tree.View(), row, id)
      ensures eu.None? ==>
        Holding(reg, ms) && tree.View() == old(tree.View()) && installed == old(installed) && models == old(models)
    {
      hide Shaped, Content, Agree, EnvPath, Unused, NoneHas, Holding, Ready, Started, Newly, Declares, Clash,
        Identified, TextLeaf, Apart, Segment, HasUuid, AlikeOutside, Grafted, AreTheFrontier, PointsOf, RowWritten,
        ListsUnits, Join;
      ghost var before, model := tree.View(), manifest.tree.View();
      HoldingAgrees(reg, ms);
      var roots, started, met := Launch(manifest, ee, now, reg, ms);
      eu, clash := started, met;
      if eu.None? {
        return;
      }
      ListNames();
      StartedOutside(before, tree.View(), sm, model, roots, eu.value);
      IdentifiedRow(before, tree.rule, sm, row, id);
      RowStarted(before, tree.View(), tree.rule, sm, model, roots, eu.value, row);
      ghost var run := tree.View();
      var listed := values["ExecutionUnitList" := Join(eu.value)];
      Enter(row, Installation(eu.value, ee, manifest, url, roots), id, listed, before, reg, ms);
      ghost var entered := tree.View();
      Resync(ee, row, id);
      WrittenTrans(before, run, entered, tree.rule, row, map[], listed);
      assert map[] + listed == listed;
      WrittenTrans(before, entered, tree.View(), tree.rule, row, listed, map[]);
      assert listed + map[] == listed;
      AlikeTrans(run, entered, tree.View(), sm);
      AlikeTrans(Grafted(before, model), run, tree.View(), sm);
    }

    // ---------- Installing ----------

    /** What the profile and the inventory say against a manifest. */
    ghost function ManifestFault(s: Store, reg: Inventory, app: string, uuid: string): Option<Reason> {
      if app in faults then Some(Injected) else if NoneHas(s, reg, uuid) then None else Some(Duplicate)
    }

    /** What can go wrong with a manifest that has been fetched. */
    ghost function FetchedFault(s: Store, reg: Inventory, app: string, uuid: string, model: Store,
                                cancelled: bool): Option<Reason>
    {
      if ManifestFault(s, reg, app, uuid).Some? then ManifestFault(s, reg, app, uuid)
      else if cancelled then Some(RequestDenied)
      else if Clash(s, model) then Some(Mismatch)
      else if Declares(s, sm + [EU], EU_LEAVES) then None
      else Some(RequestDenied)
    }

    /** What can go wrong with an install on the tree s, where the units are reg. */
    ghost function InstallFault(s: Store, reg: Inventory, url: string, uuid: string, env: Environment,
                                fetched: Option<Manifest>, model: Store, cancelled: bool): Option<Reason> {
      if Blank(url) || (uuid != "" && !isUuid(uuid)) then Some(InvalidArguments)
      else if env.Unknown? then Some(UnknownExecEnv)
      else if env.Disabled? then Some(DisabledExecEnv)
      else if !Declares(s, sm + [DU], DU_LEAVES) then Some(RequestDenied)
      else
        match fetched
        case None => Some(FetchFailed)
        case Some(m) => FetchedFault(s, reg, m.app.name, if uuid == "" then m.derivedUuid else uuid, model, cancelled)
    }

    ghost function ModelOf(offer: Option<Manifest>): Store
      reads if offer.Some? then {offer.value.tree} else {}
      reads if offer.Some? then offer.value.tree.at.Values else {}
    {
      if offer.Some? then offer.value.tree.View() else map[]
    }

    /** Installs one deployment unit. A failed install leaves tree and inventory as they
        were; one that succeeds adds the manifest's data model and nothing else outside
        the software modules object. */
    method Install(url: string, uuid: string, env: Environment, fetched: Option<Manifest>, cancelled: bool, now: string)
      returns (res: Result)
      requires Valid() && (env.Env? ==> EnvPath(env.path)) && Offered(fetched)
      modifies this, tree`at, tree.at.Values
      ensures Valid()
      ensures res.fault ==
        InstallFault(old(tree.View()), old(installed), url, uuid, env, fetched, old(ModelOf(fetched)), cancelled)
      ensures res.fault.Some? ==>
        tree.View() == old(tree.View()) && installed == old(installed) && models == old(models)
      ensures res.fault.None? ==> res.state == "Installed" && res.row.Some? && fetched.Some? && env.Env?
      ensures res.fault.None? ==> res.row.value !in old(installed)
      ensures res.fault.None? ==>
        Gained(old(tree.View()), old(installed), res.row.value, fetched.value, old(ModelOf(fetched)), env.path, url)
      ensures res.fault.None? ==>
        res.uuid == if uuid == "" then fetched.value.derivedUuid else uuid
      ensures res.fault.None? ==> HasUuid(tree.View(), res.row.value, res.uuid)
    {
      hide Shaped, Content, Agree, EnvPath, Pending, Unused, Shelved, Joinable, Blank, Declares, Gained, HasUuid,
        FetchedFault;
      if Blank(url) || (uuid != "" && !isUuid(uuid)) {
        return Failed("", "", InvalidArguments);
      }
      if !env.Env? {
        return Failed("", "", EnvFault(env).value);
      }
      var row := Begin(fetched);
      if row.None? {
        return Failed("", "", RequestDenied);
      }
      UnusedIsOut(sm, installed, row.value);
      res := InstallAt(row.value, url, uuid, env.path, fetched, cancelled, now, old(tree.View()));
    }

    /** The rest of an install, with the row begun. */
    method InstallAt(row: Path, url: string, uuid: string, ee: Path, fetched: Option<Manifest>, cancelled: bool,
                     now: string, ghost s: Store)
      returns (res: Result)
      requires Valid() && EnvPath(ee) && Agree(s, tree.rule, sm, installed, models)
      requires Pending(s, tree.View(), tree.rule, sm, row) && Unused(sm, installed, row) && Offered(fetched)
      modifies this, tree`at, tree.at.Values
      ensures Valid()
      ensures fetched.None? ==> res.fault == Some(FetchFailed)
      ensures fetched.Some? ==> var id := if uuid == "" then fetched.value.derivedUuid else uuid;
        && res.fault == FetchedFault(s, old(installed), fetched.value.app.name, id, old(ModelOf(fetched)), cancelled)
        && (res.fault.None? ==> res.row == Some(row) && res.uuid == id && res.state == "Installed")
        && (res.fault.None? ==> HasUuid(tree.View(), row, id))
        && (res.fault.None? ==> Gained(s, old(installed), row, fetched.value, old(ModelOf(fetched)), ee, url))
      ensures res.fault.Some? ==> tree.View() == s && installed == old(installed) && models == old(models)
    {
      hide Shaped, Content, Agree, EnvPath, Pending, Unused, NoneHas, Shelved, Joinable, Segment, Gained, HasUuid,
        FetchedFault;
      DuNames();
      CommonNames();
      Draft(row, map["UUID" := uuid, "Status" := "Installing", "Resolved" := "false", "URL" := url,
                     "ExecutionEnvRef" := Join(ee)], s, fetched);
      if fetched.None? {
        Discard(row, s);
        return Failed(uuid, "", FetchFailed);
      }
      res := InstallFetched(row, url, uuid, ee, fetched.value, cancelled, now, s);
    }

    method InstallFetched(row: Path, url: string, uuid: string, ee: Path, manifest: Manifest, cancelled: bool,
                          now: string, ghost s: Store)
      returns (res: Result)
      requires Valid() && EnvPath(ee) && Agree(s, tree.rule, sm, installed, models)
      requires Pending(s, tree.View(), tree.rule, sm, row) && Unused(sm, installed, row) && Offered(Some(manifest))
      modifies this, tree`at, tree.at.Values
      ensures Valid()
      ensures var id := if uuid == "" then manifest.derivedUuid else uuid;
        && res.fault == FetchedFault(s, old(installed), manifest.app.name, id, old(manifest.tree.View()), cancelled)
        && (res.fault.None? ==> res.row == Some(row) && res.uuid == id && res.state == "Installed")
        && (res.fault.None? ==> HasUuid(tree.View(), row, id))
      ensures res.fault.Some? ==> tree.View() == s && installed == old(installed) && models == old(models)
      ensures res.fault.None? ==> Gained(s, old(installed), row, manifest, old(manifest.tree.View()), ee, url)
    {
      hide Shaped, Content, Agree, EnvPath, Pending, Unused, NoneHas, Shelved, Joinable, Segment, Gained, HasUuid,
        Clash, Declares, AlikeOutside, Text, Holding;
      DuNames();
      var id := if uuid == "" then manifest.derivedUuid else uuid;
      Draft(row, map["UUID" := id], s, Some(manifest));
      HoldingAgrees(installed, models);
      PendingJudges(s, tree.View(), tree.rule, sm, installed, models, row);
      var fault := CheckManifest(manifest.app.name, id, None);
      if fault.Some? {
        Discard(row, s);
        return Failed(id, manifest.app.version, fault.value);
      }
      res := InstallChecked(row, url, id, ee, manifest, cancelled, now, s);
    }

    /** The rest of an install, with the manifest found good. */
    method InstallChecked(row: Path, url: string, id: string, ee: Path, manifest: Manifest, cancelled: bool,
                          now: string, ghost s: Store)
      returns (res: Result)
      requires Valid() && EnvPath(ee) && Agree(s, tree.rule, sm, installed, models)
      requires Pending(s, tree.View(), tree.rule, sm, row) && Unused(sm, installed, row) && Offered(Some(manifest))
      requires Text(tree.View(), row + ["UUID"]) == Some(id) && ManifestFault(s, installed, manifest.app.name, id).None?
      modifies this, tree`at, tree.at.Values
      ensures Valid()
      ensures res.fault == FetchedFault(s, old(installed), manifest.app.name, id, old(manifest.tree.View()), cancelled)
      ensures res.fault.None? ==>
        res.row == Some(row) && res.uuid == id && res.state == "Installed" && HasUuid(tree.View(), row, id)
      ensures res.fault.Some? ==> tree.View() == s && installed == old(installed) && models == old(models)
      ensures res.fault.None? ==> Gained(s, old(installed), row, manifest, old(manifest.tree.View()), ee, url)
    {
      hide Shaped, Content, Agree, EnvPath, Pending, Unused, NoneHas, Shelved, Joinable, Segment, Gained, HasUuid,
        Clash, Declares;
      DuNames();
      CommonNames();
      Draft(row, map["Name" := manifest.app.name, "Version" := manifest.app.version, "Vendor" := manifest.app.vendor,
                     "Description" := manifest.app.description, "DUID" := manifest.app.name], s, Some(manifest));
      if cancelled {
        Discard(row, s);
        return Failed(id, "", RequestDenied);
      }
      res := Activate(row, manifest, ee, url, id, now, s);
    }

    /** Starts the manifest's execution unit and enters the deployment unit. */
    method Activate(row: Path, manifest: Manifest, ee: Path, url: string, id: string, now: string, ghost s: Store)
      returns (res: Result)
      requires Valid() && EnvPath(ee) && Agree(s, tree.rule, sm, installed, models)
      requires Pending(s, tree.View(), tree.rule, sm, row) && Unused(sm, installed, row) && Offered(Some(manifest))
      requires Text(tree.View(), row + ["UUID"]) == Some(id) && NoneHas(s, installed, id)
      requires Text(tree.View(), row + ["Version"]) == Some(manifest.app.version)
      modifies this, tree`at, tree.at.Values
      ensures Valid()
      ensures res.fault == if Clash(s, old(manifest.tree.View())) then Some(Mismatch)
                           else if Declares(s, sm + [EU], EU_LEAVES) then None
                           else Some(RequestDenied)
      ensures res.fault.Some? ==> tree.View() == s && installed == old(installed) && models == old(models)
      ensures res.fault.None? ==>
        res.row == Some(row) && res.uuid == id && res.state == "Installed" && HasUuid(tree.View(), row, id)
      ensures res.fault.None? ==> Gained(s, old(installed), row, manifest, old(manifest.tree.View()), ee, url)
    {
      hide Shaped, Content, Agree, EnvPath, Pending, Unused, NoneHas, Declares, Clash, Identified, HasUuid, Shelved,
        Segment, Text, AlikeOutside, Grafted, AreTheFrontier, PointsOf, WellFormed, InSync;
      ghost var before, model := tree.View(), manifest.tree.View();
      DuNames();
      UnusedIsOut(sm, installed, row);
      AgreeIsPlain(s, tree.rule, sm, installed, models);
      PendingIdentified(s, before, tree.rule, sm, row, id);
      PendingJudges(s, before, tree.rule, sm, installed, models, row);
      ReadyIsOutside(manifest, installed);
      OutsideJudges(s, before, sm, model);
      var eu, clash := Deploy(row, manifest, ee, url, id,
        map["Status" := "Installed", "Resolved" := "true", "Installed" := now, "LastUpdate" := now], now,
        installed, models);
      if eu.None? {
        Discard(row, s);
        return Failed(id, manifest.app.version, if clash then Mismatch else RequestDenied);
      }
      AlikeTrans(Grafted(s, model), Grafted(before, model), tree.View(), sm);
      return Result(id, Some(row), manifest.app.version, "Installed", [eu.value], None);
    }

    lemma ReadyIsOutside(manifest: Manifest, reg: Inventory)
      requires Ready(manifest, reg)
      ensures forall q | q in manifest.tree.View() :: !(sm <= q)
    {
      hide Shaped, Content;
    }

    // ---------- Halting a unit ----------

    /** What the tree and the inventory are like once a unit is halted. */
    ghost predicate Cleared(s: Store, row: Path, id: string, reg: Inventory, ms: Models)
      reads this, tree, tree.at.Values, TreesOf(reg), NodesOf(reg)
    {
      && row in installed && Holding(reg, ms) && Standing(row, id, reg)
      && Halted(s, tree.View(), sm, row, installed[row].eu, PointsOf(installed[row].roots))
    }

    /** The unit's identifier as its row has it. */
    ghost function IdOf(row: Path): string
      requires Text(tree.View(), row + ["UUID"]).Some?
      reads tree, tree.at.Values
    {
      Text(tree.View(), row + ["UUID"]).value
    }

    /** What the agreement says of one unit and of the others without it. */
    lemma Leaving(row: Path)
      requires Valid() && row in installed
      ensures Text(tree.View(), row + ["UUID"]).Some? && Text(tree.View(), row + ["Status"]) == Some("Installed")
      ensures Text(tree.View(), row + ["Version"]) == Some(installed[row].manifest.app.version)
      ensures RowTakesText(tree.View(), tree.rule, row)
      ensures row in models && Entry(tree.View(), sm, row, installed[row], models[row])
      ensures Holding(installed - {row}, models - {row})
      ensures Standing(row, IdOf(row), installed - {row}) && Unused(sm, installed - {row}, installed[row].eu)
      ensures EnvPath(installed[row].ee) && Apart(installed[row].manifest)
      ensures installed[row].manifest.tree.View() == models[row]
      ensures forall r | r in installed - {row} :: Clear(models[r], PointsOf(installed[row].roots))
      ensures forall r | r in installed - {row} :: Clear(models[row], PointsOf(installed[r].roots))
    {
      hide Shaped, Content, Agree, EnvPath, Entry, PointsOf, Clear, Unused, TextLeaf;
      AgreeKeys(tree.View(), tree.rule, sm, installed, models);
      AgreeWithout(tree.View(), tree.rule, sm, installed, models, row);
      EntryOf(tree.View(), tree.rule, sm, installed, models, row);
      assert installed[row].manifest.tree in TreesOf(installed);
      assert forall n | n in installed[row].manifest.tree.at.Values :: n in NodesOf(installed);
      assert forall r | r in installed - {row} :: r in installed && (installed - {row})[r] == installed[r];
    }

    /** Stops the unit's execution unit and takes its row and its data model out. */
    method Halt(row: Path, values: map<string, string>, ghost id: string, ghost reg: Inventory, ghost ms: Models)
      requires Valid() && row in installed && reg == installed - {row} && ms == models - {row}
      requires Text(tree.View(), row + ["UUID"]) == Some(id)
      requires "UUID" !in values && forall x | x in values :: Segment(x)
      modifies tree`at, tree.at.Values
      ensures tree.at.Values <= old(tree.at.Values) && Cleared(old(tree.View()), row, id, reg, ms)
      ensures Declares(tree.View(), sm + [EU], EU_LEAVES)
      ensures AlikeOutside(Remaining(old(tree.View()), PointsOf(installed[row].roots)), tree.View(), sm)
      ensures Ready(installed[row].manifest, reg) && row in models && installed[row].manifest.tree.View() == models[row]
      ensures !Clash(tree.View(), models[row])
      ensures RowWritten(old(tree.View()), tree.View(), tree.rule, row, values)
      ensures EnvsKept(old(tree.View()), tree.View(), sm)
    {
      hide Shaped, Content, Agree, EnvPath, Entry, PointsOf, Clear, Unused, Identified, NoneHas, WellFormed,
        AlikeOutside, Remaining, Joinable, Clash, Halted, Segment, Text, Fitted, Declares, RowWritten, EnvsKept,
        Holding, Apart;
      ghost var s, inst := tree.View(), installed[row];
      Leaving(row);
      HoldingAgrees(reg, ms);
      HaltHeld(row, installed[row], values, id, reg, ms, models[row]);
      HoldingAgrees(reg, ms);
      HaltJudges(s, tree.View(), tree.rule, sm, reg, ms, row, inst, models[row], id);
    }

    /** The same, with the other units in view. */
    method HaltHeld(row: Path, inst: Installation, values: map<string, string>, ghost id: string,
                    ghost reg: Inventory, ghost ms: Models, ghost model: Store)
      requires Holding(reg, ms) && Apart(inst.manifest) && Unused(sm, reg, row) && Unused(sm, reg, inst.eu)
      requires Entry(tree.View(), sm, row, inst, model) && Identified(tree.View(), tree.rule, sm, row, id)
      requires forall r | r in reg :: Clear(ms[r], PointsOf(inst.roots))
      requires "UUID" !in values && forall x | x in values :: Segment(x)
      modifies tree`at, tree.at.Values
      ensures tree.at.Values <= old(tree.at.Values) && Holding(reg, ms)
      ensures Apart(inst.manifest) && inst.manifest.tree.View() == old(inst.manifest.tree.View())
      ensures Identified(tree.View(), tree.rule, sm, row, id)
      ensures Halted(old(tree.View()), tree.View(), sm, row, inst.eu, PointsOf(inst.roots))
      ensures RowWritten(old(tree.View()), tree.View(), tree.rule, row, values)
    {
      hide Shaped, Content, Agree, EnvPath, Entry, PointsOf, Clear, Unused, Identified, Halted, Segment, RowWritten,
        Shelved;
      HaltUnit(tree, sm, row, inst, values, id, reg, ms, model);
    }

    /** Takes out the row of a unit that has been halted and forgets the unit. */
    method Forget(row: Path, ghost id: string, ghost reg: Inventory, ghost ms: Models)
      requires Holding(reg, ms) && Standing(row, id, reg)
      modifies this`installed, this`models, tree`at, tree.at.Values
      ensures Valid() && installed == reg && models == ms
      ensures AlikeOutside(old(tree.View()), tree.View(), sm)
      ensures tree.View().Keys <= old(tree.View()).Keys && forall q | row <= q :: q !in tree.View()
      ensures EnvsKept(old(tree.View()), tree.View(), sm)
    {
      hide Shaped, Content, Agree, EnvPath, Unused, NoneHas, WellFormed, RowDeleted, Shelved, Plain, TextLeaf,
        InstanceName, Segment, RowIn, AlikeOutside, EnvsKept;
      ghost var s := tree.View();
      HoldingAgrees(reg, ms);
      AgreeIsPlain(s, tree.rule, sm, reg, ms);
      PlainTables(sm);
      RowInNames(s, sm, DU, row);
      DropHeld(row, reg, ms);
      RowDeletedOutside(s, sm, Last(row));
      RowDeletedEnvs(s, sm, Last(row));
      RowIsGone(s, sm + [DU], Last(row));
      installed, models := installed - {row}, ms;
    }

    method DropHeld(row: Path, ghost reg: Inventory, ghost ms: Models)
      requires Holding(reg, ms) && DuRow(tree.View(), sm, row) && row != [] && Unused(sm, reg, row)
      modifies tree`at, tree.at.Values
      ensures Holding(reg, ms) && tree.View() == RowDeleted(old(tree.View()), sm + [DU], Last(row))
    {
      hide Shaped, Content, Agree, EnvPath, Unused, WellFormed, RowDeleted, Shelved, Plain, InstanceName, Segment,
        RowIn;
      ghost var s := tree.View();
      AgreeIsPlain(s, tree.rule, sm, reg, ms);
      PlainTables(sm);
      RowInNames(s, sm, DU, row);
      RowInFacts(s, sm, DU, row);
      DropRow(tree, sm + [DU], Last(row));
      tree.ViewIsWellFormed();
      AgreeAfterDrop(s, tree.rule, sm, reg, ms, DU, Last(row));
    }

    // ---------- Updating ----------

    /** A manifest with a tree of its own whose model can take the place of the unit's. */
    ghost predicate Fits(manifest: Manifest, row: Path)
      requires row in installed
      reads this, tree, tree.at.Values, manifest.tree, manifest.tree.at.Values
    {
      && Apart(manifest)
      && Joinable(Remaining(tree.View(), PointsOf(installed[row].roots)), sm, installed - {row}, manifest.tree.View())
    }

    /** What can go wrong with an update of the unit inst on the tree s. */
    ghost function UpdateFault(s: Store, inst: Installation, env: Environment, fetched: Option<Manifest>, model: Store,
                               cancelled: bool): Option<Reason> {
      if env.Unknown? then Some(UnknownExecEnv)
      else if env.Disabled? then Some(DisabledExecEnv)
      else if fetched.None? then Some(FetchFailed)
      else if fetched.value.app.name in faults then Some(Injected)
      else if fetched.value.app.version == inst.manifest.app.version then Some(VersionExists)
      else if cancelled then Some(RequestDenied)
      else if Clash(Remaining(s, PointsOf(inst.roots)), model) then Some(Mismatch)
      else None
    }

    /** The unit is gone with all it had. */
    ghost predicate Dropped(s: Store, was: Inventory, row: Path)
      requires row in was
      reads this, tree, tree.at.Values
    {
      && installed == was - {row}
      && AlikeOutside(Remaining(s, PointsOf(was[row].roots)), tree.View(), sm)
      && (forall q | row <= q || was[row].eu <= q :: q !in tree.View())
    }

    /** What an update makes of the unit at row: the new version in place of the old; or,
        when that does not start, the old one put back, though under the new version's URL in
        its row; or, when cancelled, nothing, though the environment's list is as it was; or
        the tree as it was. */
    ghost predicate Updated(s: Store, was: Inventory, wm: Models, row: Path, fault: Option<Reason>,
                            fetched: Option<Manifest>, model: Store, url: string)
      requires row in was && row in wm
      reads this, tree, tree.at.Values
    {
      var rest, unit := Remaining(s, PointsOf(was[row].roots)), was[row];
      if fault == None then
        fetched.Some? && Gained(rest, was, row, fetched.value, model, unit.ee, url) && UrlIs(s, row, url)
      else if fault == Some(Mismatch) then
        Gained(rest, was, row, unit.manifest, wm[row], unit.ee, unit.url) && UrlIs(s, row, url)
      else if fault == Some(RequestDenied) then Dropped(s, was, row) && EnvsKept(s, tree.View(), sm)
      else installed == was && tree.View() == s
    }

    /** The row gives this URL, if it gives one that takes any text. */
    ghost predicate UrlIs(s: Store, row: Path, url: string)
      reads tree, tree.at.Values
    {
      TextLeaf(s, tree.rule, row + ["URL"]) ==> Text(tree.View(), row + ["URL"]) == Some(url)
    }

    /** The report tells what the inventory says of the unit. */
    predicate Reports(res: Result, row: Path)
      reads this
    {
      if row in installed then
        res.row == Some(row) && res.eus == [installed[row].eu] && res.version == installed[row].manifest.app.version
      else res.row == None
    }

    lemma GainedFrom(s: Store, t: Store, was: Inventory, row: Path, manifest: Manifest, model: Store, ee: Path,
                     url: string)
      requires Gained(t, was, row, manifest, model, ee, url) && AlikeOutside(s, t, sm)
      requires forall q | q in model :: !(sm <= q)
      ensures Gained(s, was, row, manifest, model, ee, url)
      ensures row in installed && installed[row].manifest == manifest
    {
      hide AlikeOutside, Grafted, AreTheFrontier, PointsOf, Shaped, Content;
      OutsideJudges(s, t, sm, model);
      AlikeTrans(Grafted(s, model), Grafted(t, model), tree.View(), sm);
    }

    /** Updates one deployment unit. Unless it is cancelled in the middle, the unit is there
        and running afterwards, at the new version or at the one it had. */
    method Update(uuid: string, version: string, url: string, env: Environment, fetched: Option<Manifest>,
                  cancelled: bool, now: string)
      returns (res: Result)
      requires Valid()
      requires fetched.Some? ==>
        forall r | r in installed && Named(tree.View(), installed, r, uuid, version) :: Fits(fetched.value, r)
      modifies this, tree`at, tree.at.Values
      ensures Valid()
      ensures (forall r | r in old(installed) :: !Named(old(tree.View()), old(installed), r, uuid, version)) ==>
        res.fault == Some(UnknownDu) && installed == old(installed) && tree.View() == old(tree.View())
      ensures forall r | r in old(installed) && Named(old(tree.View()), old(installed), r, uuid, version) ::
        && res.fault == UpdateFault(old(tree.View()), old(installed)[r], env, fetched, old(ModelOf(fetched)), cancelled)
        && r in old(models)
        && Updated(old(tree.View()), old(installed), old(models), r, res.fault, fetched, old(ModelOf(fetched)),
                   if url == "" then old(installed)[r].url else url)
        && Reports(res, r) && res.state == "Installed"
    {
      hide Shaped, Content, Agree, EnvPath, Shelved, Fold, Gained, Dropped, Joinable, Clash, Remaining, PointsOf,
        Entry, Plain, HasUuid, Updated, UpdateFault, Reports, Holding, Apart;
      var found := FindLocked(uuid, version);
      if found.None? {
        return Failed("", "", UnknownDu);
      }
      OnlyOneIsNamed(found.value, uuid, version);
      res := UpdateUnit(found.value, uuid, url, env, fetched, cancelled, now);
    }

    /** Updates the unit found. */
    method UpdateUnit(row: Path, uuid: string, url: string, env: Environment, fetched: Option<Manifest>,
                      cancelled: bool, now: string)
      returns (res: Result)
      requires Valid() && row in installed && HasUuid(tree.View(), row, uuid)
      requires fetched.Some? ==> Fits(fetched.value, row)
      modifies this, tree`at, tree.at.Values
      ensures Valid() && row in old(models)
      ensures res.fault ==
        UpdateFault(old(tree.View()), old(installed)[row], env, fetched, old(ModelOf(fetched)), cancelled)
      ensures Updated(old(tree.View()), old(installed), old(models), row, res.fault, fetched, old(ModelOf(fetched)),
                      if url == "" then old(installed)[row].url else url)
      ensures Reports(res, row) && res.state == "Installed"
    {
      hide Shaped, Content, Agree, EnvPath, Shelved, Fold, Gained, Dropped, Joinable, Clash, Remaining, PointsOf,
        Entry, Plain, HasUuid, Holding, Standing, Text, NoneHas, AlikeOutside, EnvsKept, UrlIs, Clear, Unused, Apart;
      var inst := installed[row];
      HoldingAgrees(installed, models);
      Leaving(row);
      NoOtherHas(row, uuid);
      var previous := Result(uuid, Some(row), inst.manifest.app.version, "Installed", [inst.eu], None);
      var status := StatusOf(row);
      if status.Some? && status.value != "Installed" {
        assert false;
      }
      if !env.Env? {
        return previous.(fault := EnvFault(env));
      }
      if fetched.None? {
        return previous.(fault := Some(FetchFailed));
      }
      var fault := CheckManifest(fetched.value.app.name, uuid, Some(row));
      if fault.Some? {
        return previous.(fault := fault);
      }
      if fetched.value.app.version == inst.manifest.app.version {
        return previous.(fault := Some(VersionExists));
      }
      res := Replace(row, if url == "" then inst.url else url, fetched.value, cancelled, now, previous);
    }

    method StatusOf(row: Path) returns (status: Option<string>)
      requires Valid() && row in installed
      ensures Valid() && status == Text(tree.View(), row + ["Status"])
    {
      hide Shaped, Content, Agree, EnvPath, Shelved, Plain, Text;
      RowsArePlain();
      DuNames();
      status := ReadText(row, "Status");
    }

    /** The unit's row shows the URL that the inventory has for it. */
    ghost predicate ShowsUrl(row: Path)
      requires row in installed
      reads this, tree, tree.at.Values
    {
      Text(tree.View(), row + ["URL"]) == Some(installed[row].url)
    }

    /** Where a row showed the inventory's URL, it still does after an update, unless the new
        version clashes and comes from another URL. */
    lemma ShowsUrlExactly(s: Store, was: Inventory, wm: Models, row: Path, env: Environment, fetched: Option<Manifest>,
                          model: Store, cancelled: bool, url: string)
      requires row in was && row in wm && row in installed
      requires Updated(s, was, wm, row, UpdateFault(s, was[row], env, fetched, model, cancelled), fetched, model,
                       if url == "" then was[row].url else url)
      requires TextLeaf(s, tree.rule, row + ["URL"]) && Text(s, row + ["URL"]) == Some(was[row].url)
      ensures ShowsUrl(row) <==>
        UpdateFault(s, was[row], env, fetched, model, cancelled) != Some(Mismatch) || url == "" || url == was[row].url
    {
      hide Shaped, Content, Text, TextLeaf, AlikeOutside, Grafted, AreTheFrontier, PointsOf, Listed, Remaining,
        EnvsKept, UpdateFault;
    }

    /** Where an environment's list named its units, it still does after an update, unless the
        update is cancelled once the unit is halted and the list is another without it. */
    lemma ListedExactly(s: Store, was: Inventory, wm: Models, row: Path, env: Environment, fetched: Option<Manifest>,
                        model: Store, cancelled: bool, url: string)
      requires row in was && row in wm && EnvPath(was[row].ee)
      requires Updated(s, was, wm, row, UpdateFault(s, was[row], env, fetched, model, cancelled), fetched, model, url)
      requires TextLeaf(s, tree.rule, was[row].ee + [LIST]) && ListsUnits(s, tree.rule, was, was[row].ee, render)
      ensures Listed(was[row].ee) <==>
        || UpdateFault(s, was[row], env, fetched, model, cancelled) != Some(RequestDenied)
        || render(RefsIn(was - {row}, was[row].ee)) == render(RefsIn(was, was[row].ee))
    {
      hide Shaped, Content, Text, AlikeOutside, Grafted, AreTheFrontier, PointsOf, Remaining, UpdateFault, UrlIs,
        RefsIn;
      if UpdateFault(s, was[row], env, fetched, model, cancelled) == Some(RequestDenied) {
        var leaf := was[row].ee + [LIST];
        assert sm + [EE] <= leaf && Same(s, tree.View(), leaf);
        SameIsText(s, tree.View(), tree.rule, leaf);
      }
    }

    /** No two units answer to one identifier. */
    lemma OnlyOneIsNamed(row: Path, uuid: string, version: string)
      requires Valid() && row in installed && Named(tree.View(), installed, row, uuid, version)
      ensures forall r | r in installed && Named(tree.View(), installed, r, uuid, version) :: r == row
    {
      hide Shaped, Content, Agree, Shelved, EnvPath, Fold, HasUuid;
      AgreeIsDistinct(tree.View(), tree.rule, sm, installed, models);
      forall r | r in installed && Named(tree.View(), installed, r, uuid, version)
        ensures r == row
      {
        if r != row {
          NotBoth(tree.View(), installed, r, row, uuid);
        }
      }
    }

    lemma NoOtherHas(row: Path, uuid: string)
      requires Valid() && row in installed && HasUuid(tree.View(), row, uuid)
      ensures NoneHas(tree.View(), installed - {row}, uuid)
    {
      hide Shaped, Content, Agree, Shelved, EnvPath, Fold, HasUuid;
      AgreeIsDistinct(tree.View(), tree.rule, sm, installed, models);
      forall r | r in installed - {row}
        ensures !HasUuid(tree.View(), r, uuid)
      {
        NotBoth(tree.View(), installed, r, row, uuid);
      }
    }

    /** Stops the version installed and starts the new one under the same row. */
    method Replace(row: Path, url: string, manifest: Manifest, cancelled: bool, now: string, previous: Result)
      returns (res: Result)
      requires Valid() && row in installed && Fits(manifest, row)
      requires previous ==
        Result(previous.uuid, Some(row), installed[row].manifest.app.version, "Installed", [installed[row].eu], None)
      modifies this, tree`at, tree.at.Values
      ensures Valid()
      ensures row in old(models)
      ensures res.fault ==
        if cancelled then Some(RequestDenied)
        else if Clash(old(Remaining(tree.View(), PointsOf(installed[row].roots))), old(manifest.tree.View()))
        then Some(Mismatch)
        else None
      ensures Updated(old(tree.View()), old(installed), old(models), row, res.fault, Some(manifest),
                      old(manifest.tree.View()), url)
      ensures Reports(res, row) && res.state == "Installed"
    {
      hide Shaped, Content, Agree, EnvPath, Shelved, Gained, Dropped, Joinable, Clash, Remaining, PointsOf, Entry,
        Holding, Standing, Halted, Segment, Declares, AlikeOutside, Unused, Identified, NoneHas, Text, Clear,
        RowWritten, EnvsKept;
      ghost var s := tree.View();
      Leaving(row);
      ghost var id, reg, ms := IdOf(row), installed - {row}, models - {row};
      ghost var rest, model := Remaining(s, PointsOf(installed[row].roots)), manifest.tree.View();
      DuNames();
      Halt(row, map["Status" := "Updating", "URL" := url], id, reg, ms);
      if cancelled {
        Abandon(row, s, id, reg, ms);
        return previous.(row := None, fault := Some(RequestDenied));
      }
      JoinableKept(rest, tree.View(), sm, reg, model);
      VersionStays(s, tree.View(), tree.rule, row, map["Status" := "Updating", "URL" := url]);
      res := Restart(row, installed[row], manifest, url, now, previous, s, id, reg, ms);
    }

    /** Forgets the unit that has been halted, and leaves the environments as they are. */
    method Abandon(row: Path, ghost s: Store, ghost id: string, ghost reg: Inventory, ghost ms: Models)
      requires Cleared(s, row, id, reg, ms) && EnvsKept(s, tree.View(), sm)
      requires AlikeOutside(Remaining(s, PointsOf(installed[row].roots)), tree.View(), sm)
      modifies this`installed, this`models, tree`at, tree.at.Values
      ensures Valid() && Dropped(s, old(installed), row) && EnvsKept(s, tree.View(), sm) && row !in installed
    {
      hide Shaped, Content, Agree, EnvPath, Shelved, Dropped, Remaining, PointsOf, Holding, Halted, AlikeOutside,
        EnvsKept, Unused, Identified, NoneHas;
      ghost var was, t := installed, tree.View();
      HaltedIsGone(s, t, sm, row, installed[row].eu, PointsOf(installed[row].roots));
      Forget(row, id, reg, ms);
      DroppedFrom(s, t, was, row);
      EnvsTrans(s, t, tree.View(), sm);
    }

    lemma DroppedFrom(s: Store, t: Store, was: Inventory, row: Path)
      requires row in was && installed == was - {row}
      requires AlikeOutside(Remaining(s, PointsOf(was[row].roots)), t, sm) && AlikeOutside(t, tree.View(), sm)
      requires forall q | was[row].eu <= q :: q !in t
      requires tree.View().Keys <= t.Keys && forall q | row <= q :: q !in tree.View()
      ensures Dropped(s, was, row)
    {
      hide Shaped, Content, Remaining, AlikeOutside, PointsOf;
      AlikeTrans(Remaining(s, PointsOf(was[row].roots)), t, tree.View(), sm);
    }

    /** Starts the new version where the old one was halted, or puts the old one back. */
    method Restart(row: Path, inst: Installation, manifest: Manifest, url: string, now: string, previous: Result,
                   ghost s: Store, ghost id: string, ghost reg: Inventory, ghost ms: Models)
      returns (res: Result)
      requires Cleared(s, row, id, reg, ms) && installed[row] == inst && EnvPath(inst.ee)
      requires AlikeOutside(Remaining(s, PointsOf(inst.roots)), tree.View(), sm)
      requires Declares(tree.View(), sm + [EU], EU_LEAVES)
      requires RowWritten(s, tree.View(), tree.rule, row, map["Status" := "Updating", "URL" := url])
      requires Ready(manifest, reg) && Ready(inst.manifest, reg) && row in models
      requires Text(tree.View(), row + ["Version"]) == Some(inst.manifest.app.version)
      requires inst.manifest.tree.View() == models[row] && !Clash(tree.View(), models[row])
      requires previous == Result(previous.uuid, Some(row), inst.manifest.app.version, "Installed", [inst.eu], None)
      modifies this, tree`at, tree.at.Values
      ensures Valid()
      ensures res.fault ==
        if Clash(Remaining(s, PointsOf(inst.roots)), old(manifest.tree.View())) then Some(Mismatch) else None
      ensures Updated(s, old(installed), old(models), row, res.fault, Some(manifest), old(manifest.tree.View()), url)
      ensures Reports(res, row) && res.state == "Installed"
    {
      hide Shaped, Content, Agree, EnvPath, Shelved, Gained, Dropped, Joinable, Clash, Remaining, PointsOf, Entry,
        Holding, Halted, Segment, Declares, AlikeOutside, Unused, Identified, NoneHas, Text, Clear, RowWritten, UrlIs,
        TextLeaf;
      ghost var t, rest, model := tree.View(), Remaining(s, PointsOf(inst.roots)), manifest.tree.View();
      DuNames();
      CommonNames();
      ReadyIsOutside(manifest, reg);
      OutsideJudges(rest, t, sm, model);
      var values := map["Name" := manifest.app.name, "Version" := manifest.app.version, "Vendor" := manifest.app.vendor,
                        "Description" := manifest.app.description, "Status" := "Installed", "Resolved" := "true",
                        "LastUpdate" := now];
      var eu, clash := DeployNew(row, inst.manifest, manifest, inst.ee, url, id, values, now, reg, ms);
      if eu.Some? {
        UrlStays(s, t, row, url, values, eu.value);
        GainedFrom(rest, t, old(installed), row, manifest, model, inst.ee, url);
        return Result(previous.uuid, Some(row), manifest.app.version, "Installed", [eu.value], None);
      }
      assert Cleared(s, row, id, reg, ms);
      res := PutBack(row, inst, url, clash, now, previous, s, id, reg, ms);
    }

    /** Starts the new version; when that fails the old one can still be put back. */
    method DeployNew(row: Path, ghost before: Manifest, manifest: Manifest, ee: Path, url: string, ghost id: string,
                     values: map<string, string>, now: string, ghost reg: Inventory, ghost ms: Models)
      returns (eu: Option<Path>, clash: bool)
      requires Holding(reg, ms) && Standing(row, id, reg) && EnvPath(ee) && Ready(manifest, reg) && Ready(before, reg)
      requires Declares(tree.View(), sm + [EU], EU_LEAVES)
      requires "UUID" !in values && "Status" in values && values["Status"] == "Installed"
      requires forall x | x in values :: Segment(x)
      requires GivesVersion(tree.View(), row, values, manifest.app.version)
      modifies this`installed, this`models, tree`at, tree.at.Values
      ensures fresh(tree.at.Values - old(tree.at.Values)) && (clash <==> eu.None?)
      ensures clash <==> Clash(old(tree.View()), old(manifest.tree.View()))
      ensures eu.Some? ==> Gained(old(tree.View()), old(installed), row, manifest, old(manifest.tree.View()), ee, url)
      ensures eu.Some? ==> installed[row].eu == eu.value && Valid()
      ensures eu.Some? ==>
        RowWritten(old(tree.View()), tree.View(), tree.rule, row, values["ExecutionUnitList" := Join(eu.value)])
      ensures eu.None? ==>
        Holding(reg, ms) && tree.View() == old(tree.View()) && installed == old(installed) && models == old(models)
      ensures eu.None? ==> Ready(before, reg) && before.tree.View() == old(before.tree.View())
    {
      hide Shaped, Content, Agree, EnvPath, Shelved, Gained, Joinable, Clash, Holding, Segment, Declares, Standing,
        RowWritten, HasUuid;
      eu, clash := Deploy(row, manifest, ee, url, id, values, now, reg, ms);
    }

    lemma UrlStays(s: Store, t: Store, row: Path, url: string, values: map<string, string>, eu: Path)
      requires RowWritten(s, t, tree.rule, row, map["Status" := "Updating", "URL" := url])
      requires RowWritten(t, tree.View(), tree.rule, row, values["ExecutionUnitList" := Join(eu)]) && "URL" !in values
      ensures UrlIs(s, row, url)
    {
      hide Shaped, Content, TextLeaf, Text, Join;
    }

    /** Starts the version that was halted again, which cannot fail. */
    method PutBack(row: Path, inst: Installation, ghost url: string, clash: bool, now: string, previous: Result,
                   ghost s: Store, ghost id: string, ghost reg: Inventory, ghost ms: Models)
      returns (res: Result)
      requires Cleared(s, row, id, reg, ms) && installed[row] == inst && EnvPath(inst.ee)
      requires AlikeOutside(Remaining(s, PointsOf(inst.roots)), tree.View(), sm)
      requires Declares(tree.View(), sm + [EU], EU_LEAVES)
      requires RowWritten(s, tree.View(), tree.rule, row, map["Status" := "Updating", "URL" := url])
      requires Ready(inst.manifest, reg) && row in models
      requires Text(tree.View(), row + ["Version"]) == Some(inst.manifest.app.version)
      requires inst.manifest.tree.View() == models[row] && !Clash(tree.View(), models[row])
      requires previous == Result(previous.uuid, Some(row), inst.manifest.app.version, "Installed", [inst.eu], None)
      modifies this, tree`at, tree.at.Values
      ensures Valid()
      ensures res.fault == Some(if clash then Mismatch else RequestDenied)
      ensures Gained(Remaining(s, PointsOf(inst.roots)), old(installed), row, inst.manifest, old(models)[row], inst.ee,
                     inst.url)
      ensures UrlIs(s, row, url)
      ensures Reports(res, row) && res.state == "Installed"
    {
      hide Shaped, Content, Agree, EnvPath, Shelved, Gained, Dropped, Joinable, Clash, Remaining, PointsOf, Entry,
        Holding, Halted, Segment, Declares, AlikeOutside, Unused, Identified, NoneHas, Text, Clear, RowWritten, UrlIs,
        TextLeaf;
      ghost var t, model := tree.View(), models[row];
      DuNames();
      ReadyIsOutside(inst.manifest, reg);
      var eu, _ := Deploy(row, inst.manifest, inst.ee, inst.url, id, map["Status" := "Installed"], now, reg, ms);
      if eu.None? {
        assert false;
      }
      UrlStays(s, t, row, url, map["Status" := "Installed"], eu.value);
      GainedFrom(Remaining(s, PointsOf(inst.roots)), t, old(installed), row, inst.manifest, model, inst.ee, inst.url);
      return previous.(eus := [eu.value], fault := Some(if clash then Mismatch else RequestDenied));
    }

    // ---------- Uninstalling ----------

    /** The request names an environment, and not the unit's. */
    predicate Elsewhere(envRef: string, ee: Path) {
      envRef != "" && TrimDot(envRef) != Join(ee)
    }

    /** Only three texts do not: the empty one and the unit's own path in either spelling. */
    lemma ElsewhereExactly(envRef: string, ee: Path)
      requires Plain(ee) && ee != []
      ensures Elsewhere(envRef, ee) <==> envRef !in {"", Join(ee), Join(ee) + "."}
      ensures forall x | Plain(x) && x != [] && x != ee && envRef in {Join(x), Join(x) + "."} :: Elsewhere(envRef, ee)
    {
      JoinEndsInSegment(ee);
      if TrimDot(envRef) == Join(ee) {
        assert envRef == Join(ee) || envRef == Join(ee) + ".";
      }
      forall x | Plain(x) && x != [] && x != ee && envRef in {Join(x), Join(x) + "."}
        ensures Elsewhere(envRef, ee)
      {
        JoinEndsInSegment(x);
        if Join(x) == Join(ee) {
          JoinInjective(x, ee);
        }
      }
    }

    lemma EnvIsPlain(ee: Path)
      requires EnvPath(ee)
      ensures Plain(ee) && ee != []
    {
    }

    /** Uninstalls one deployment unit: its rows and its data model go, all else stays. It
        takes no reference to an environment, or the unit's own in either spelling. */
    method Uninstall(uuid: string, version: string, envRef: string) returns (res: Result)
      requires Valid()
      modifies this, tree`at, tree.at.Values
      ensures Valid() && res.row == None
      ensures res.fault == None || res.fault == Some(UnknownDu)
      ensures res.fault.Some? ==> installed == old(installed) && tree.View() == old(tree.View())
      ensures res.fault.None? ==> res.uuid == uuid && res.state == "Uninstalled"
      ensures res.fault.None? ==>
        exists r | r in old(installed) :: Named(old(tree.View()), old(installed), r, uuid, version)
      ensures forall r | r in old(installed) && Named(old(tree.View()), old(installed), r, uuid, version) ::
        && (res.fault.None? <==> envRef in {"", Join(old(installed)[r].ee), Join(old(installed)[r].ee) + "."})
        && (res.fault.None? ==> Dropped(old(tree.View()), old(installed), r) && Listed(old(installed)[r].ee))
        && (forall x | Plain(x) && x != [] && x != old(installed)[r].ee && envRef in {Join(x), Join(x) + "."} ::
          res.fault == Some(UnknownDu) && installed == old(installed) && tree.View() == old(tree.View()))
    {
      hide Shaped, Content, Agree, EnvPath, Shelved, Fold, Dropped, PointsOf, Entry, Plain, Standing, Halted,
        Remaining, AlikeOutside, Clear, Text, Unused, Clash, Declares, Ready, Apart, HasUuid;
      ghost var s, was := tree.View(), installed;
      var found := FindLocked(uuid, version);
      if found.None? {
        return Failed("", "", UnknownDu);
      }
      var row := found.value;
      var inst := installed[row];
      OnlyOneIsNamed(row, uuid, version);
      Leaving(row);
      EnvIsPlain(inst.ee);
      ElsewhereExactly(envRef, inst.ee);
      if Elsewhere(envRef, inst.ee) {
        return Failed("", "", UnknownDu);
      }
      HoldingAgrees(installed, models);
      RowsArePlain();
      DuNames();
      var status := ReadText(row, "Status");
      if status.Some? && status.value != "Installed" {
        assert false;
      }
      ghost var id, reg, ms := IdOf(row), installed - {row}, models - {row};
      Halt(row, map["Status" := "Uninstalling"], id, reg, ms);
      Erase(row, s, id, reg, ms);
      return Result(uuid, None, inst.manifest.app.version, "Uninstalled", [], None);
    }

    /** Brings the environment's list up to date without the unit halted, and forgets it. */
    method Erase(row: Path, ghost s: Store, ghost id: string, ghost reg: Inventory, ghost ms: Models)
      requires Cleared(s, row, id, reg, ms) && EnvPath(installed[row].ee)
      requires AlikeOutside(Remaining(s, PointsOf(installed[row].roots)), tree.View(), sm)
      requires forall r | r in installed :: Plain(installed[r].eu) && installed[r].eu != []
      modifies this`installed, this`models, tree`at, tree.at.Values
      ensures Valid() && Dropped(s, old(installed), row) && Listed(old(installed)[row].ee)
    {
      hide Shaped, Content, Agree, Shelved, Dropped, PointsOf, Plain, Halted, Remaining, AlikeOutside, SameOutside,
        Unused, Identified, NoneHas, ActiveIn, RefsIn, LeavesSet, ListsUnits, Join, EnvsKept;
      ghost var was, t, ee := installed, tree.View(), installed[row].ee;
      HaltedIsGone(s, t, sm, row, installed[row].eu, PointsOf(installed[row].roots));
      SyncActiveUnits(installed[row].ee, reg, ms);
      ghost var u := tree.View();
      EnvIsBelow(ee);
      OutsideIsBelow(t, u, sm, ee);
      HaltedStatus(t, reg, was, row);
      HoldingAgrees(reg, ms);
      AllActive(t, tree.rule, sm, reg, ms, installed, ee);
      ListIsWritten(t, u, tree.rule, reg, ee, render);
      StillStands(t, row, id, reg, ms, ee);
      Forget(row, id, reg, ms);
      AlikeTrans(t, u, tree.View(), sm);
      DroppedFrom(s, t, was, row);
      ListKept(u, tree.View(), tree.rule, sm, reg, ee, render);
    }

    lemma HaltedStatus(t: Store, reg: Inventory, was: Inventory, row: Path)
      requires row in was && reg == was - {row} && forall q | was[row].eu <= q :: q !in t
      ensures forall r | r in reg :: r in was && was[r] == reg[r]
      ensures forall r | r in was && r !in reg :: was[r].eu + ["Status"] !in t
    {
    }

    lemma StillStands(t: Store, row: Path, id: string, reg: Inventory, ms: Models, ee: Path)
      requires Agree(t, tree.rule, sm, reg, ms) && SameOutside(t, tree.View(), ee) && EnvPath(ee)
      requires reg == installed - {row} && Unused(sm, reg, row)
      requires Identified(t, tree.rule, sm, row, id) && NoneHas(t, reg, id)
      ensures Standing(row, id, reg)
    {
      hide Shaped, Content, Agree, Unused, SameOutside, Plain, Identified, NoneHas;
      EnvLeavesRows(t, tree.View(), tree.rule, sm, reg, ms, row, ee, id);
    }

    // ---------- Running an operation ----------

    /** What an operation asks of the manifest its fetch may bring. */
    ghost predicate Able(op: Operation, fetched: Option<Manifest>)
      reads this, tree, tree.at.Values, if fetched.Some? then {fetched.value.tree} else {}
      reads if fetched.Some? then fetched.value.tree.at.Values else {}
    {
      match op
      case ToInstall(_, _, env) => (env.Env? ==> EnvPath(env.path)) && Offered(fetched)
      case ToUpdate(uuid, version, _, _) =>
        fetched.Some? ==>
          forall r | r in installed && Named(tree.View(), installed, r, uuid, version) :: Fits(fetched.value, r)
      case ToUninstall(_, _, _) => true
    }

    /** Why the operation on the unit at r fails, if it does. */
    ghost function UnitFault(op: Operation, s: Store, inst: Installation, fetched: Option<Manifest>, model: Store,
                             cancelled: bool): Option<Reason>
      requires !op.ToInstall?
    {
      match op
      case ToUpdate(_, _, _, env) => UpdateFault(s, inst, env, fetched, model, cancelled)
      case ToUninstall(_, _, envRef) =>
        if envRef in {"", Join(inst.ee), Join(inst.ee) + "."} then None else Some(UnknownDu)
    }

    /** Carries out one operation. Whatever it is and however it ends, the inventory and the
        tree agree afterwards. An operation that fails without being cancelled leaves every
        unit installed, at the version it had; no operation touches a unit that it does not
        name. */
    method Run(op: Operation, fetched: Option<Manifest>, cancelled: bool, now: string) returns (res: Result)
      requires Valid() && Able(op, fetched)
      modifies this, tree`at, tree.at.Values
      ensures Valid()
      ensures res.uuid == "" ==> op.uuid == ""
      ensures res.state == if res.fault.Some? then "Failed" else if op.ToUninstall? then "Uninstalled" else "Installed"
      ensures op.ToInstall? ==>
        res.fault == InstallFault(old(tree.View()), old(installed), op.url, op.uuid, op.env, fetched,
                                  old(ModelOf(fetched)), cancelled)
      ensures op.ToInstall? && res.fault.None? ==>
        res.row.Some? && res.row.value !in old(installed) && installed.Keys == old(installed).Keys + {res.row.value}
      ensures !op.ToInstall? ==>
        forall r | r in old(installed) && Named(old(tree.View()), old(installed), r, op.uuid, op.version) ::
          && res.fault == UnitFault(op, old(tree.View()), old(installed)[r], fetched, old(ModelOf(fetched)), cancelled)
          && (op.ToUninstall? && res.fault.None? ==> installed == old(installed) - {r})
          && (op.ToUpdate? && res.fault.None? ==> r in installed && Some(installed[r].manifest) == fetched)
          && (op.ToUninstall? ==>
            forall x | Plain(x) && x != [] && x != old(installed)[r].ee && op.envRef in {Join(x), Join(x) + "."} ::
              res.fault == Some(UnknownDu) && installed == old(installed) && tree.View() == old(tree.View()))
      ensures op.ToInstall? || res.fault == Some(UnknownDu) ||
        exists r | r in old(installed) :: Named(old(tree.View()), old(installed), r, op.uuid, op.version)
      ensures res.fault.Some? && !cancelled ==> SameApps(old(installed), installed)
      ensures forall r |
        r in old(installed) && (op.ToInstall? || !Named(old(tree.View()), old(installed), r, op.uuid, op.version)) ::
        r in installed && installed[r] == old(installed)[r]
    {
      hide Shaped, Content, Agree, EnvPath, Shelved, Joinable, Holding, Gained, Dropped, Updated, InstallFault,
        UpdateFault, Elsewhere, Reports, Named, SameApps, HasUuid, Fits, Offered, Listed;
      ghost var s, was, wm, model := tree.View(), installed, models, ModelOf(fetched);
      match op {
        case ToInstall(url, uuid, env) =>
          res := Install(url, uuid, env, fetched, cancelled, now);
          AfterInstall(s, was, res, fetched, model, env, url);
        case ToUpdate(uuid, version, url, env) =>
          res := Update(uuid, version, url, env, fetched, cancelled, now);
          SameAppsItself(was);
          forall r | r in was && Named(s, was, r, uuid, version)
            ensures res.fault == UpdateFault(s, was[r], env, fetched, model, cancelled)
            ensures res.fault.None? ==> r in installed && Some(installed[r].manifest) == fetched
            ensures res.fault.Some? && !cancelled ==> SameApps(was, installed)
            ensures forall q | q in was && q != r :: q in installed && installed[q] == was[q]
          {
            AfterUpdate(s, was, wm, r, env, fetched, model, cancelled, res.fault,
                        if url == "" then was[r].url else url);
          }
        case ToUninstall(uuid, version, envRef) =>
          res := Uninstall(uuid, version, envRef);
          SameAppsItself(was);
          forall r | r in was && Named(s, was, r, uuid, version) && res.fault.None?
            ensures installed == was - {r}
            ensures forall q | q in was && q != r :: q in installed && installed[q] == was[q]
          {
            AfterUninstall(s, was, r);
          }
      }
      if res.uuid == "" {
        res := res.(uuid := op.uuid);
      }
      if res.fault.Some? {
        res := res.(state := "Failed");
      }
    }

    lemma SameAppsItself(was: Inventory)
      ensures SameApps(was, was)
    {
    }

    lemma AfterInstall(s: Store, was: Inventory, res: Result, fetched: Option<Manifest>, model: Store,
                       env: Environment, url: string)
      requires res.fault.Some? ==> installed == was
      requires res.fault.None? ==> res.row.Some? && fetched.Some? && env.Env? && res.row.value !in was
      requires res.fault.None? ==> Gained(s, was, res.row.value, fetched.value, model, env.path, url)
      ensures res.fault.Some? ==> SameApps(was, installed)
      ensures res.fault.None? ==> installed.Keys == was.Keys + {res.row.value}
      ensures forall q | q in was :: q in installed && installed[q] == was[q]
    {
      hide Shaped, Content, AlikeOutside, Grafted, AreTheFrontier, PointsOf, Listed;
    }

    lemma AfterUpdate(s: Store, was: Inventory, wm: Models, r: Path, env: Environment, fetched: Option<Manifest>,
                      model: Store, cancelled: bool, fault: Option<Reason>, url: string)
      requires r in was && r in wm && Updated(s, was, wm, r, fault, fetched, model, url)
      requires fault == UpdateFault(s, was[r], env, fetched, model, cancelled)
      ensures fault.None? ==> r in installed && Some(installed[r].manifest) == fetched
      ensures fault.Some? && !cancelled ==> SameApps(was, installed)
      ensures forall q | q in was && q != r :: q in installed && installed[q] == was[q]
    {
      hide Shaped, Content, AlikeOutside, Grafted, AreTheFrontier, PointsOf, Listed, UrlIs, EnvsKept, Remaining, Clash;
    }

    lemma AfterUninstall(s: Store, was: Inventory, r: Path)
      requires r in was && Dropped(s, was, r)
      ensures installed == was - {r}
      ensures forall q | q in was && q != r :: q in installed && installed[q] == was[q]
    {
      hide Shaped, Content, AlikeOutside, PointsOf, Remaining;
    }
  }
}
