// Two updates on a small device (internal/softwaremodules/manager.go): one whose new version
// clashes with the device, and one cancelled in the middle.
module SoftwareWitnesses {
  import opened Options
  import opened Paths
  import opened ParamStores
  import opened ParamGrafts
  import opened ParamTables
  import opened SoftwareModules
  import opened SoftwareUnits

  const OBJECT := Cell(None, None, false)
  const TABLE := Cell(None, None, true)

  function TextCell(raw: string): Cell {
    Cell(Some(Value("string", raw, false)), None, false)
  }

  const ROOT: Path := ["S"]
  const UNIT: Path := ["S", DU, "1"]
  const RUN: Path := ["S", EU, "1"]
  const ENV: Path := ["S", EE, "1"]

  /** A device with one unit, installed from "a" at version "1", and a parameter of its own. */
  const DEVICE: Store := map[
    [] := OBJECT, ["X"] := TextCell(""), ["S"] := OBJECT,
    ["S", DU] := TABLE, ["S", DU, TEMPLATE] := OBJECT, ["S", DU, "1"] := OBJECT,
    ["S", DU, "1", "UUID"] := TextCell("u"), ["S", DU, "1", "Status"] := TextCell("Installed"),
    ["S", DU, "1", "Version"] := TextCell("1"), ["S", DU, "1", "URL"] := TextCell("a"),
    ["S", EU] := TABLE, ["S", EU, TEMPLATE] := OBJECT, ["S", EU, TEMPLATE, "Name"] := TextCell(""),
    ["S", EU, TEMPLATE, "Status"] := TextCell(""), ["S", EU, TEMPLATE, "References"] := TextCell(""),
    ["S", EU, "1"] := OBJECT, ["S", EU, "1", "Status"] := TextCell("Active"),
    ["S", EU, "1", "References"] := TextCell(""),
    ["S", EE] := OBJECT, ["S", EE, "1"] := OBJECT, ["S", EE, "1", LIST] := TextCell("S.ExecutionUnit.1")]

  /** The unit's data model adds nothing; the new version's meets the device's own parameter. */
  const NOTHING: Store := map[[] := OBJECT]
  const CLASHING: Store := map[[] := OBJECT, ["X"] := TextCell("")]

  function UnitOf(manifest: Manifest): Installation {
    Installation(RUN, ENV, manifest, "a", [])
  }

  ghost predicate AnyText(rule: Rule) {
    forall t, v :: rule(t, v)
  }

  lemma HangsAt(s: Store, p: Path, q: Path, k: string)
    requires p == q + [k] && q in s && s[q].leaf.None? && (Segment(k) || (k == TEMPLATE && s[q].table))
    ensures ChildOk(s, p)
  {
  }

  lemma StepsAreSegments()
    ensures Segment(DU) && Segment(EU) && Segment(EE) && Segment("S") && Segment("X") && Segment("1") && Segment(LIST)
    ensures Segment("UUID") && Segment("Status") && Segment("Version") && Segment("URL")
    ensures Segment("Name") && Segment("References")
  {
  }

  lemma DeviceHangs()
    ensures ChildOk(DEVICE, ["X"]) && ChildOk(DEVICE, ["S"]) && ChildOk(DEVICE, ["S", DU]) && ChildOk(DEVICE, ["S", EU])
    ensures ChildOk(DEVICE, ["S", EE]) && ChildOk(DEVICE, ["S", DU, TEMPLATE]) && ChildOk(DEVICE, ["S", EU, TEMPLATE])
    ensures ChildOk(DEVICE, UNIT) && ChildOk(DEVICE, RUN) && ChildOk(DEVICE, ENV)
  {
    hide Segment;
    StepsAreSegments();
    HangsAt(DEVICE, ["X"], [], "X");
    HangsAt(DEVICE, ["S"], [], "S");
    HangsAt(DEVICE, ["S", DU], ["S"], DU);
    HangsAt(DEVICE, ["S", EU], ["S"], EU);
    HangsAt(DEVICE, ["S", EE], ["S"], EE);
    HangsAt(DEVICE, ["S", DU, TEMPLATE], ["S", DU], TEMPLATE);
    HangsAt(DEVICE, ["S", EU, TEMPLATE], ["S", EU], TEMPLATE);
    HangsAt(DEVICE, UNIT, ["S", DU], "1");
    HangsAt(DEVICE, RUN, ["S", EU], "1");
    HangsAt(DEVICE, ENV, ["S", EE], "1");
  }

  lemma LeavesHang()
    ensures ChildOk(DEVICE, ["S", DU, "1", "UUID"]) && ChildOk(DEVICE, ["S", DU, "1", "Status"])
    ensures ChildOk(DEVICE, ["S", DU, "1", "Version"]) && ChildOk(DEVICE, ["S", DU, "1", "URL"])
    ensures ChildOk(DEVICE, ["S", EU, TEMPLATE, "Name"]) && ChildOk(DEVICE, ["S", EU, TEMPLATE, "Status"])
    ensures ChildOk(DEVICE, ["S", EU, TEMPLATE, "References"])
    ensures ChildOk(DEVICE, ["S", EU, "1", "Status"]) && ChildOk(DEVICE, ["S", EU, "1", "References"])
    ensures ChildOk(DEVICE, ["S", EE, "1", LIST])
  {
    hide Segment;
    StepsAreSegments();
    HangsAt(DEVICE, ["S", DU, "1", "UUID"], UNIT, "UUID");
    HangsAt(DEVICE, ["S", DU, "1", "Status"], UNIT, "Status");
    HangsAt(DEVICE, ["S", DU, "1", "Version"], UNIT, "Version");
    HangsAt(DEVICE, ["S", DU, "1", "URL"], UNIT, "URL");
    HangsAt(DEVICE, ["S", EU, TEMPLATE, "Name"], ["S", EU, TEMPLATE], "Name");
    HangsAt(DEVICE, ["S", EU, TEMPLATE, "Status"], ["S", EU, TEMPLATE], "Status");
    HangsAt(DEVICE, ["S", EU, TEMPLATE, "References"], ["S", EU, TEMPLATE], "References");
    HangsAt(DEVICE, ["S", EU, "1", "Status"], RUN, "Status");
    HangsAt(DEVICE, ["S", EU, "1", "References"], RUN, "References");
    HangsAt(DEVICE, ["S", EE, "1", LIST], ENV, LIST);
  }

  lemma DeviceIsWellFormed()
    ensures WellFormed(DEVICE)
  {
    hide ChildOk;
    DeviceHangs();
    LeavesHang();
    assert ["S", DU] + [TEMPLATE] == ["S", DU, TEMPLATE] && ["S", EU] + [TEMPLATE] == ["S", EU, TEMPLATE];
  }

  lemma NothingIsWellFormed()
    ensures WellFormed(NOTHING) && WellFormed(CLASHING)
  {
    assert Parent(["X"]) == [] && Last(["X"]) == "X" && Segment("X");
  }

  /** Nothing at all to take out. */
  lemma NothingFits(s: Store)
    requires WellFormed(s)
    ensures Fitted(s, ROOT, NOTHING, PointsOf([])) && Names(NOTHING, [], PointsOf([]))
    ensures Remaining(s, PointsOf([])) == s
  {
    NothingIsWellFormed();
  }

  lemma DeviceRows()
    ensures RowIn(DEVICE, ROOT, DU, UNIT) && RowIn(DEVICE, ROOT, EU, RUN) && Plain(ROOT)
    ensures DuRow(DEVICE, ROOT, UNIT) && Declares(DEVICE, ROOT + [EU], EU_LEAVES)
  {
    assert Segment("1") && Segment("S");
    assert Number("1") == 1;
    assert UNIT == ROOT + [DU, "1"] && RUN == ROOT + [EU, "1"] && ROOT + [DU] == ["S", DU] && ROOT + [EU] == ["S", EU];
    forall leaf | leaf in EU_LEAVES
      ensures ["S", EU] + [TEMPLATE, leaf] in DEVICE && DEVICE[["S", EU] + [TEMPLATE, leaf]].leaf.Some?
    {
      assert ["S", EU] + [TEMPLATE, leaf] == ["S", EU, TEMPLATE, leaf];
    }
  }

  lemma DeviceTexts()
    ensures Text(DEVICE, UNIT + ["Status"]) == Some("Installed") && Text(DEVICE, UNIT + ["UUID"]) == Some("u")
    ensures Text(DEVICE, UNIT + ["Version"]) == Some("1") && Text(DEVICE, UNIT + ["URL"]) == Some("a")
    ensures Text(DEVICE, RUN + ["Status"]) == Some("Active") && Text(DEVICE, RUN + ["References"]) == Some("")
    ensures Text(DEVICE, ENV + [LIST]) == Some("S.ExecutionUnit.1")
  {
    assert UNIT + ["Status"] == ["S", DU, "1", "Status"] && UNIT + ["UUID"] == ["S", DU, "1", "UUID"];
    assert UNIT + ["Version"] == ["S", DU, "1", "Version"] && UNIT + ["URL"] == ["S", DU, "1", "URL"];
    assert RUN + ["Status"] == ["S", EU, "1", "Status"] && RUN + ["References"] == ["S", EU, "1", "References"];
    assert ENV + [LIST] == ["S", EE, "1", LIST];
  }

  lemma UnitIsEntered(manifest: Manifest)
    requires manifest.app.version == "1"
    ensures Entry(DEVICE, ROOT, UNIT, UnitOf(manifest), NOTHING)
  {
    hide Fitted, RowIn, Declares, PointsOf, WellFormed, Text;
    DeviceIsWellFormed();
    NothingFits(DEVICE);
    DeviceRows();
    DeviceTexts();
  }

  lemma NoCounters()
    ensures InSync(DEVICE, ROOT + [DU]) && InSync(DEVICE, ROOT + [EU])
  {
    CounterOf(ROOT, DU);
    CounterOf(ROOT, EU);
    CounterIsNoCell(DU);
    CounterIsNoCell(EU);
  }

  lemma CounterIsNoCell(table: string)
    requires table == DU || table == EU
    ensures ["S", table + "NumberOfEntries"] !in DEVICE
  {
    var p := ["S", table + "NumberOfEntries"];
    assert |p| == 2 && |p[1]| == |table| + 15 && |DU| == 14 && |EU| == 13 && |EE| == 7;
    assert forall q | q in DEVICE && |q| == 2 :: q == ["S", DU] || q == ["S", EU] || q == ["S", EE];
  }

  /** The inventory of that one unit and the device agree. */
  lemma DeviceAgrees(rule: Rule, manifest: Manifest)
    requires manifest.app.version == "1" && AnyText(rule)
    ensures Agree(DEVICE, rule, ROOT, map[UNIT := UnitOf(manifest)], map[UNIT := NOTHING])
  {
    hide Entry, WellFormed, InSync, Text;
    DeviceIsWellFormed();
    UnitIsEntered(manifest);
    NoCounters();
    DeviceRows();
    LeavesTakeText(rule);
    var reg, models: Models := map[UNIT := UnitOf(manifest)], map[UNIT := NOTHING];
    assert Entries(DEVICE, ROOT, reg, models);
    assert Separate(reg, models) && DistinctUuids(DEVICE, reg);
    AnyTextRows(DEVICE, rule, ROOT);
    assert RowsTakeText(DEVICE, rule, reg);
  }

  lemma AnyTextRows(s: Store, rule: Rule, sm: Path)
    requires AnyText(rule)
    ensures TextRows(s, rule, sm)
  {
    forall table, leaf, v |
      (table == DU || table == EU) && leaf in Required(table) && Text(s, sm + [table, TEMPLATE, leaf]).Some?
      ensures rule(s[sm + [table, TEMPLATE, leaf]].leaf.value.vtype, v)
    {
    }
  }

  lemma LeavesTakeText(rule: Rule)
    requires AnyText(rule)
    ensures RowTakesText(DEVICE, rule, UNIT) && TextLeaf(DEVICE, rule, UNIT + ["URL"])
    ensures TextLeaf(DEVICE, rule, ENV + [LIST])
  {
    DeviceTexts();
  }

  /** The new version's data model can be offered, and clashes. */
  lemma ClashingIsOffered()
    ensures Joinable(DEVICE, ROOT, map[], CLASHING) && Clash(DEVICE, CLASHING)
  {
    NothingIsWellFormed();
    assert Segment("X");
    assert ClashAt(DEVICE, CLASHING, ["X"]);
  }

  /** A manager on this device, with its one unit. */
  ghost predicate AtDevice(m: Manager)
    reads m, m.tree, m.tree.at.Values, TreesOf(m.installed), NodesOf(m.installed)
  {
    && m.Valid() && m.sm == ROOT && m.tree.View() == DEVICE && AnyText(m.tree.rule)
    && m.installed.Keys == {UNIT} && m.installed[UNIT] == UnitOf(m.installed[UNIT].manifest)
    && m.models == map[UNIT := NOTHING] && m.installed[UNIT].manifest.app.version == "1"
  }

  lemma UnitIsNamed(m: Manager)
    requires AtDevice(m)
    ensures UNIT in m.installed && Named(DEVICE, m.installed, UNIT, "u", "") && forall r | r in m.installed :: r == UNIT
  {
    hide Agree, Text;
    DeviceTexts();
    assert UNIT in m.installed.Keys;
    assert forall r | r in m.installed :: r in m.installed.Keys;
  }

  /** A manifest that meets the device's own parameter. */
  ghost predicate Clashes(m: Manager, newer: Manifest)
    reads m, m.tree, m.tree.at.Values, newer.tree, newer.tree.at.Values
  {
    && m.Apart(newer) && newer.tree.View() == CLASHING
    && newer.app.version != "1" && newer.app.name !in m.faults
  }

  lemma ClashFits(m: Manager, newer: Manifest)
    requires AtDevice(m) && Clashes(m, newer)
    ensures UNIT in m.installed && m.Fits(newer, UNIT)
  {
    hide Agree, Joinable, WellFormed, Remaining, Named, PointsOf, Fitted, Names, Clash, Manager.Holding;
    UnitIsNamed(m);
    DeviceIsWellFormed();
    NothingFits(DEVICE);
    ClashingIsOffered();
    assert m.installed - {UNIT} == map[];
  }

  /** Why the update fails, by its inputs. */
  lemma ClashIsFound(m: Manager, newer: Manifest, cancelled: bool)
    requires AtDevice(m) && Clashes(m, newer)
    ensures UNIT in m.installed
    ensures m.UpdateFault(DEVICE, m.installed[UNIT], Env(ENV), Some(newer), CLASHING, cancelled) ==
      Some(if cancelled then RequestDenied else Mismatch)
  {
    hide Agree, WellFormed, Remaining, Clash;
    UnitIsNamed(m);
    DeviceIsWellFormed();
    NothingFits(DEVICE);
    ClashingIsOffered();
  }

  lemma AfterClash(m: Manager, was: Inventory, wm: Models, newer: Manifest)
    requires AnyText(m.tree.rule) && UNIT in was && UNIT in wm && was[UNIT].url == "a"
    requires m.Updated(DEVICE, was, wm, UNIT, Some(Mismatch), Some(newer), CLASHING, "b")
    ensures UNIT in m.installed && m.installed[UNIT].url == "a" && Text(m.tree.View(), UNIT + ["URL"]) == Some("b")
  {
    hide Remaining, Grafted, AlikeOutside, AreTheFrontier, PointsOf, ListsUnits, TextLeaf, Text;
    LeavesTakeText(m.tree.rule);
  }

  lemma AfterCancelling(m: Manager, was: Inventory, wm: Models, newer: Manifest, url: string)
    requires m.sm == ROOT && UNIT in was && UNIT in wm && was.Keys == {UNIT}
    requires m.Updated(DEVICE, was, wm, UNIT, Some(RequestDenied), Some(newer), CLASHING, url)
    ensures m.installed == map[] && Text(m.tree.View(), ENV + [LIST]) == Some("S.ExecutionUnit.1")
  {
    hide Remaining, Grafted, AlikeOutside, AreTheFrontier, PointsOf, ListsUnits, TextLeaf;
    DeviceTexts();
    assert ROOT + [EE] <= ENV + [LIST];
    assert Same(DEVICE, m.tree.View(), ENV + [LIST]);
  }

  /** An update from "b" whose new version clashes: the inventory keeps "a", the row shows "b". */
  method UpdateFromElsewhere(m: Manager, newer: Manifest, now: string) returns (res: Result)
    requires AtDevice(m) && Clashes(m, newer)
    modifies m, m.tree`at, m.tree.at.Values
    ensures m.Valid() && res.fault == Some(Mismatch) && UNIT in m.installed
    ensures m.installed[UNIT].url == "a" && Text(m.tree.View(), UNIT + ["URL"]) == Some("b")
  {
    hide Agree, Named, Text, TextLeaf, Manager.Fits, Manager.UpdateFault, Manager.Updated, Manager.Holding;
    UnitIsNamed(m);
    ClashFits(m, newer);
    ClashIsFound(m, newer, false);
    ghost var was, wm := m.installed, m.models;
    res := m.Update("u", "", "b", Env(ENV), Some(newer), false, now);
    AfterClash(m, was, wm, newer);
  }

  /** The same update cancelled in the middle: no unit is left, and the list still names one. */
  method UpdateCancelled(m: Manager, newer: Manifest, now: string) returns (res: Result)
    requires AtDevice(m) && Clashes(m, newer)
    modifies m, m.tree`at, m.tree.at.Values
    ensures m.Valid() && res.fault == Some(RequestDenied) && m.installed == map[]
    ensures Text(m.tree.View(), ENV + [LIST]) == Some("S.ExecutionUnit.1")
  {
    hide Agree, Named, Text, TextLeaf, Manager.Fits, Manager.UpdateFault, Manager.Updated, Manager.Holding;
    UnitIsNamed(m);
    ClashFits(m, newer);
    ClashIsFound(m, newer, true);
    ghost var was, wm := m.installed, m.models;
    res := m.Update("u", "", "b", Env(ENV), Some(newer), true, now);
    AfterCancelling(m, was, wm, newer, "b");
  }
}
