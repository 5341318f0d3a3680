// Installed software modules and the parameter tree (internal/softwaremodules/manager.go):
// what it means for the manager's inventory and the tree to agree, and what each kind of
// change to the tree leaves of that.
module SoftwareUnits {
  import opened Options
  import opened Paths
  import opened ParamStores
  import opened ParamBatches
  import opened ParamTables
  import opened ParamGrafts
  import opened ParamTrees

  const DU := "DeploymentUnit"
  const EU := "ExecutionUnit"
  const EE := "ExecEnv"

  const DU_LEAVES := ["UUID", "Name", "Status", "Version"]
  const EU_LEAVES := ["Name", "Status", "References"]

  datatype App = App(name: string, version: string, vendor: string, description: string, unit: string)

  /** A fetched manifest: the app, its data model, and the identifier derived for it. */
  datatype Manifest = Manifest(app: App, tree: Tree, derivedUuid: string)

  /** What the manager remembers of one deployment unit, under its row's path. */
  datatype Installation = Installation(eu: Path, ee: Path, manifest: Manifest, url: string, roots: seq<string>)

  type Inventory = map<Path, Installation>

  type Models = map<Path, Store>

  function Text(s: Store, p: Path): Option<string> {
    if p in s && s[p].leaf.Some? then Some(s[p].leaf.value.raw) else None
  }

  function Lower(c: char): char {
    if 'A' <= c <= 'Z' then (c as int - 'A' as int + 'a' as int) as char else c
  }

  /** Letters in one case, for comparing identifiers. */
  function Fold(s: string): string {
    seq(|s|, i requires 0 <= i < |s| => Lower(s[i]))
  }

  function Joined(parts: seq<string>, separator: string): string {
    if parts == [] then ""
    else if |parts| == 1 then parts[0]
    else parts[0] + separator + Joined(parts[1..], separator)
  }

  /** The same letter, or one in upper and one in lower case. */
  ghost predicate SameLetter(c: char, d: char) {
    || c == d
    || ('A' <= c <= 'Z' && d as int == c as int + 32)
    || ('A' <= d <= 'Z' && c as int == d as int + 32)
  }

  /** Identifiers compare alike exactly when they differ in the case of letters at most. */
  lemma FoldsExactly(a: string, b: string)
    ensures Fold(a) == Fold(b) <==> |a| == |b| && forall i | 0 <= i < |a| :: SameLetter(a[i], b[i])
  {
    if |a| == |b| {
      forall i | 0 <= i < |a|
        ensures Fold(a)[i] == Fold(b)[i] <==> SameLetter(a[i], b[i])
      {
      }
      if Fold(a) == Fold(b) {
        assert forall i | 0 <= i < |a| :: Fold(a)[i] == Fold(b)[i];
      }
    } else {
      assert |Fold(a)| != |Fold(b)|;
    }
  }

  /** A list that can be read back: no entry is empty or has a comma in it. */
  ghost predicate Listable(parts: seq<string>) {
    forall i | 0 <= i < |parts| :: parts[i] != "" && ',' !in parts[i]
  }

  lemma JoinedBegins(parts: seq<string>)
    requires parts != [] && Listable(parts)
    ensures var j := Joined(parts, ",");
      && parts[0] <= j && j != ""
      && (if |parts| == 1 then j == parts[0] else |parts[0]| < |j| && j[|parts[0]|] == ',' )
      && (|parts| > 1 ==> j[|parts[0]| + 1..] == Joined(parts[1..], ","))
  {
    if |parts| > 1 {
      assert Joined(parts, ",") == parts[0] + "," + Joined(parts[1..], ",");
    }
  }

  /** Joined by commas, a list tells its entries, all of them and in order. */
  lemma {:induction false} JoinedTellsParts(a: seq<string>, b: seq<string>)
    requires Listable(a) && Listable(b) && Joined(a, ",") == Joined(b, ",")
    ensures a == b
    decreases |a|
  {
    hide Joined, Listable;
    if a == [] {
      NoneJoined(b);
    } else if b == [] {
      NoneJoined(a);
    } else {
      SameStart(a, b);
      JoinedBegins(a);
      JoinedBegins(b);
      if |a| > 1 && |b| > 1 {
        ListedWithoutFirst(a);
        ListedWithoutFirst(b);
        JoinedTellsParts(a[1..], b[1..]);
        assert a == [a[0]] + a[1..] && b == [b[0]] + b[1..];
      }
    }
  }

  lemma NoneJoined(a: seq<string>)
    requires Listable(a)
    ensures Joined(a, ",") == Joined([], ",") <==> a == []
  {
    if a != [] {
      JoinedBegins(a);
    }
  }

  lemma ListedWithoutFirst(a: seq<string>)
    requires Listable(a) && a != []
    ensures Listable(a[1..])
  {
  }

  /** The first comma tells where the first entry ends. */
  lemma SameStart(a: seq<string>, b: seq<string>)
    requires Listable(a) && Listable(b) && a != [] && b != [] && Joined(a, ",") == Joined(b, ",")
    ensures a[0] == b[0] && (|a| == 1 <==> |b| == 1)
  {
    hide Joined;
    JoinedBegins(a);
    JoinedBegins(b);
    var j, m, n := Joined(a, ","), |a[0]|, |b[0]|;
    NoShorter(j, a[0], b[0]);
    NoShorter(j, b[0], a[0]);
    assert j[..m] == a[0] && j[..n] == b[0];
  }

  lemma NoShorter(j: string, x: string, y: string)
    requires x <= j && y <= j && ',' !in y
    requires x == j || (|x| < |j| && j[|x|] == ',')
    ensures |x| >= |y|
  {
  }

  function PointsOf(roots: seq<string>): seq<Path> {
    seq(|roots|, i requires 0 <= i < |roots| => if ParsePath(roots[i]).Some? then ParsePath(roots[i]).value else [])
  }

  // ---------- An app's data model in the tree ----------

  ghost predicate UnderAny(points: seq<Path>, q: Path) {
    exists i :: 0 <= i < |points| && points[i] <= q
  }

  /** The model is in the tree: what it added hangs at points, all else is shared objects. */
  ghost predicate Fitted(s: Store, sm: Path, model: Store, points: seq<Path>) {
    && WellFormed(model) && Removable(s, points)
    && (forall q | q in model :: !(sm <= q))
    && (forall i | 0 <= i < |points| :: points[i] in model && !(points[i] <= sm) && !RowOfHost(s, points[i]))
    && (forall q | q in model && Plain(q) :: q in s)
    && (forall q | q in model && Plain(q) && q != [] && !UnderAny(points, q) ::
          s[q].leaf.None? && model[q].leaf.None?)
  }

  /** No part of the model lies below another app's roots. */
  ghost predicate Clear(model: Store, points: seq<Path>) {
    forall i, q | 0 <= i < |points| && q in model :: !(points[i] <= q)
  }

  // ---------- Agreement ----------

  ghost predicate RowIn(s: Store, sm: Path, table: string, row: Path) {
    |row| == |sm| + 2 && row == sm + [table, row[|sm| + 1]] && InstanceName(row[|sm| + 1]) && Segment(row[|sm| + 1])
    && row in s
  }

  /** The table's template declares the leaves as text. */
  ghost predicate Declares(s: Store, table: Path, leaves: seq<string>) {
    && table in s && s[table].table
    && forall leaf | leaf in leaves ::
         table + [TEMPLATE, leaf] in s && s[table + [TEMPLATE, leaf]].leaf.Some?
  }

  /** A row of the table of deployment units. */
  ghost predicate DuRow(s: Store, sm: Path, row: Path) {
    RowIn(s, sm, DU, row) && sm + [DU] in s && s[sm + [DU]].table
  }

  ghost predicate Entry(s: Store, sm: Path, row: Path, inst: Installation, model: Store) {
    && DuRow(s, sm, row) && RowIn(s, sm, EU, inst.eu)
    && Text(s, row + ["Status"]) == Some("Installed") && Text(s, row + ["UUID"]).Some?
    && Text(s, row + ["Version"]) == Some(inst.manifest.app.version)
    && Text(s, inst.eu + ["Status"]) == Some("Active")
    && Text(s, inst.eu + ["References"]) == Some(Joined(inst.roots, ","))
    && Declares(s, sm + [EU], EU_LEAVES)
    && Fitted(s, sm, model, PointsOf(inst.roots)) && Names(model, inst.roots, PointsOf(inst.roots))
  }

  /** The cells an entry depends on. */
  ghost predicate Looks(sm: Path, row: Path, inst: Installation, model: Store, q: Path) {
    row <= q || inst.eu <= q || q == sm + [DU] || q == sm + [EU] || sm + [EU, TEMPLATE] <= q || (q in model && Plain(q))
  }

  lemma FittedKept(s: Store, t: Store, sm: Path, model: Store, points: seq<Path>)
    requires Fitted(s, sm, model, points)
    requires forall q | q in s && q in model && Plain(q) :: q in t && t[q] == s[q]
    ensures Fitted(t, sm, model, points)
  {
    forall i | 0 <= i < |points|
      ensures RemovableAt(t, points[i]) && (RowOfHost(t, points[i]) <==> RowOfHost(s, points[i]))
    {
      var p := points[i];
      assert RemovableAt(s, p) && ChildOk(model, p) && Plain(Parent(p));
    }
  }

  lemma LongerBelow(sm: Path, leaf: string)
    ensures sm + [EU] + [TEMPLATE, leaf] == sm + [EU, TEMPLATE] + [leaf]
    ensures sm + [EU, TEMPLATE] <= sm + [EU] + [TEMPLATE, leaf]
  {
  }

  lemma EntryKept(s: Store, t: Store, sm: Path, row: Path, inst: Installation, model: Store)
    requires Entry(s, sm, row, inst, model)
    requires forall q | q in s && Looks(sm, row, inst, model, q) :: q in t && t[q] == s[q]
    ensures Entry(t, sm, row, inst, model)
  {
    hide Fitted, Names, WellFormed, PointsOf;
    FittedKept(s, t, sm, model, PointsOf(inst.roots));
    forall leaf
      ensures Text(s, row + [leaf]).Some? ==> Text(t, row + [leaf]) == Text(s, row + [leaf])
      ensures Text(s, inst.eu + [leaf]).Some? ==> Text(t, inst.eu + [leaf]) == Text(s, inst.eu + [leaf])
    {
      assert row <= row + [leaf] && inst.eu <= inst.eu + [leaf];
    }
    forall leaf | leaf in EU_LEAVES
      ensures sm + [EU] + [TEMPLATE, leaf] in t && t[sm + [EU] + [TEMPLATE, leaf]].leaf.Some?
    {
      LongerBelow(sm, leaf);
    }
  }

  ghost predicate Entries(s: Store, sm: Path, reg: Inventory, models: Models) {
    reg.Keys == models.Keys && forall row | row in reg :: Entry(s, sm, row, reg[row], models[row])
  }

  ghost predicate ApartFrom(reg: Inventory, models: Models, a: Path, b: Path)
    requires a in reg && b in reg && a in models && b in models
  {
    reg[a].eu != reg[b].eu && Clear(models[a], PointsOf(reg[b].roots)) && Clear(models[b], PointsOf(reg[a].roots))
  }

  /** Different units have different execution units and unrelated data models. */
  ghost predicate Separate(reg: Inventory, models: Models)
    requires reg.Keys == models.Keys
  {
    forall a, b | a in reg && b in reg && a != b :: ApartFrom(reg, models, a, b)
  }

  /** The row's identifier is the given one, but for the case of letters. */
  ghost predicate HasUuid(s: Store, row: Path, uuid: string) {
    Text(s, row + ["UUID"]).Some? && Fold(Text(s, row + ["UUID"]).value) == Fold(uuid)
  }

  /** No two units have the same identifier, whatever its case. */
  ghost predicate DistinctUuids(s: Store, reg: Inventory) {
    forall a, b | a in reg && b in reg && a != b && Text(s, a + ["UUID"]).Some? ::
      !HasUuid(s, b, Text(s, a + ["UUID"]).value)
  }

  /** The leaves that identify a unit and tell its state and version take any text. */
  ghost predicate RowTakesText(s: Store, rule: Rule, row: Path) {
    TextLeaf(s, rule, row + ["UUID"]) && TextLeaf(s, rule, row + ["Status"]) && TextLeaf(s, rule, row + ["Version"])
  }

  ghost predicate RowsTakeText(s: Store, rule: Rule, reg: Inventory) {
    forall r | r in reg :: RowTakesText(s, rule, r)
  }

  /** The inventory and the tree agree. */
  ghost predicate Agree(s: Store, rule: Rule, sm: Path, reg: Inventory, models: Models) {
    && WellFormed(s) && sm in s && Plain(sm) && sm != []
    && Entries(s, sm, reg, models) && Separate(reg, models) && DistinctUuids(s, reg)
    && InSync(s, sm + [DU]) && InSync(s, sm + [EU]) && TextRows(s, rule, sm)
    && RowsTakeText(s, rule, reg)
  }

  /** The leaves the lifecycle cannot do without. */
  function Required(table: string): seq<string> {
    if table == DU then DU_LEAVES else EU_LEAVES
  }

  /** Where the templates declare those, they are typed as plain text; the other leaves of
      a row, the dates and switches among them, may be of any type. */
  ghost predicate TextRows(s: Store, rule: Rule, sm: Path) {
    forall table, leaf, v |
      (table == DU || table == EU) && leaf in Required(table) && Text(s, sm + [table, TEMPLATE, leaf]).Some? ::
      rule(s[sm + [table, TEMPLATE, leaf]].leaf.value.vtype, v)
  }

  lemma TextRowsKept(s: Store, t: Store, rule: Rule, sm: Path)
    requires TextRows(s, rule, sm)
    requires forall q | sm + [DU, TEMPLATE] <= q || sm + [EU, TEMPLATE] <= q :: Same(s, t, q)
    ensures TextRows(t, rule, sm)
  {
    forall table, leaf, v |
      (table == DU || table == EU) && leaf in Required(table) && Text(t, sm + [table, TEMPLATE, leaf]).Some?
      ensures rule(t[sm + [table, TEMPLATE, leaf]].leaf.value.vtype, v)
    {
      var q := sm + [table, TEMPLATE, leaf];
      assert q == sm + [table, TEMPLATE] + [leaf] && sm + [table, TEMPLATE] <= q;
      assert Same(s, t, q);
    }
  }

  // ---------- Changes confined to one row ----------

  predicate Same(s: Store, t: Store, q: Path) {
    (q in s <==> q in t) && (q in s ==> s[q] == t[q])
  }

  /** The two trees differ below sm at most. */
  ghost predicate AlikeOutside(s: Store, t: Store, sm: Path) {
    forall q | !(sm <= q) :: Same(s, t, q)
  }

  /** The row's own cells, the counters beside the tables, and the environments' rows. */
  ghost predicate Spare(sm: Path, row: Path, q: Path) {
    row <= q || q == CounterPath(sm + [DU]) || q == CounterPath(sm + [EU]) || sm + [EE] <= q
  }

  ghost predicate Confined(s: Store, t: Store, sm: Path, row: Path) {
    forall q :: Same(s, t, q) || Spare(sm, row, q)
  }

  /** A row of one of the two tables that no unit has. */
  ghost predicate Unused(sm: Path, reg: Inventory, row: Path) {
    && |row| == |sm| + 2 && sm <= row && (row[|sm|] == DU || row[|sm|] == EU) && row[|sm| + 1] != TEMPLATE
    && row !in reg && forall r | r in reg :: reg[r].eu != row
  }

  lemma CounterOf(sm: Path, table: string)
    ensures CounterPath(sm + [table]) == sm + [table + "NumberOfEntries"]
    ensures table == DU || table == EU ==>
      CounterPath(sm + [table]) != sm + [EU] && CounterPath(sm + [table]) != sm + [DU]
  {
    assert (sm + [table])[..|sm|] == sm;
    assert CounterPath(sm + [table])[|sm|] == table + "NumberOfEntries";
    assert |table + "NumberOfEntries"| == |table| + 15;
    assert (sm + [EU])[|sm|] == EU && (sm + [DU])[|sm|] == DU;
    assert |EU| == 13 && |DU| == 14;
  }

  lemma LooksElsewhere(s: Store, sm: Path, reg: Inventory, models: Models, r: Path, row: Path, q: Path)
    requires Entries(s, sm, reg, models) && Unused(sm, reg, row) && r in reg
    requires Looks(sm, r, reg[r], models[r], q)
    ensures !Spare(sm, row, q)
  {
    hide Entry, Looks, Spare;
    var inst := reg[r];
    assert Entry(s, sm, r, inst, models[r]);
    EntryLooks(s, sm, r, inst, models[r], q);
    SpareIsElsewhere(sm, row, q, r, inst.eu);
  }

  /** A row that is neither of the two has no cell that an entry depends on. */
  lemma SpareIsElsewhere(sm: Path, row: Path, q: Path, r: Path, eu: Path)
    requires |row| == |sm| + 2 && sm <= row && (row[|sm|] == DU || row[|sm|] == EU) && row[|sm| + 1] != TEMPLATE
    requires row != r && row != eu
    requires !(sm <= q) || q == sm + [DU] || q == sm + [EU]
      || (|q| >= |sm| + 2 && sm <= q && (q[|sm|] == DU || q[|sm|] == EU)
          && (q[..|sm| + 2] == r || q[..|sm| + 2] == eu || q[|sm| + 1] == TEMPLATE))
    ensures !Spare(sm, row, q)
  {
    CounterOf(sm, DU);
    CounterOf(sm, EU);
    PrefixOf(row, q);
    PrefixOf(sm + [EE], q);
    PrefixAt(sm + [EE], q, |sm|);
    assert (sm + [EE])[|sm|] == EE && EE != DU && EE != EU;
  }

  lemma PrefixAt(a: Path, q: Path, i: nat)
    requires i < |a|
    ensures a <= q ==> i < |q| && q[i] == a[i]
  {
  }

  lemma PrefixOf(a: Path, q: Path)
    ensures a <= q ==> |q| >= |a| && q[..|a|] == a
  {
  }

  /** Where the cells an entry depends on lie. */
  lemma EntryLooks(s: Store, sm: Path, r: Path, inst: Installation, model: Store, q: Path)
    requires Entry(s, sm, r, inst, model) && Looks(sm, r, inst, model, q)
    ensures q in model || q == sm + [DU] || q == sm + [EU]
      || (|q| >= |sm| + 2 && sm <= q && (q[|sm|] == DU || q[|sm|] == EU)
      && (q[..|sm| + 2] == r || q[..|sm| + 2] == inst.eu || q[|sm| + 1] == TEMPLATE))
    ensures q in model ==> !(sm <= q)
    ensures q == sm + [DU] || q == sm + [EU] ==> |q| == |sm| + 1
  {
  }

  lemma ConfinedKeepsEntries(s: Store, t: Store, rule: Rule, sm: Path, reg: Inventory, models: Models, row: Path)
    requires Entries(s, sm, reg, models) && Unused(sm, reg, row) && Confined(s, t, sm, row)
    ensures Entries(t, sm, reg, models)
    ensures DistinctUuids(s, reg) ==> DistinctUuids(t, reg)
    ensures RowsTakeText(s, rule, reg) ==> RowsTakeText(t, rule, reg)
  {
    hide Entry, Looks, Spare, Unused, TextLeaf, Text;
    forall r | r in reg
      ensures Entry(t, sm, r, reg[r], models[r]) && RowTextKept(s, t, rule, r)
    {
      forall q | Looks(sm, r, reg[r], models[r], q)
        ensures Same(s, t, q)
      {
        LooksElsewhere(s, sm, reg, models, r, row, q);
      }
      EntryKept(s, t, sm, r, reg[r], models[r]);
      EntryTextKept(s, t, rule, sm, r, reg[r], models[r]);
    }
  }

  ghost predicate RowTextKept(s: Store, t: Store, rule: Rule, r: Path) {
    && Text(t, r + ["UUID"]) == Text(s, r + ["UUID"])
    && (RowTakesText(s, rule, r) ==> RowTakesText(t, rule, r))
  }

  lemma EntryTextKept(s: Store, t: Store, rule: Rule, sm: Path, r: Path, inst: Installation, model: Store)
    requires Entry(s, sm, r, inst, model)
    requires forall q | q in s && Looks(sm, r, inst, model, q) :: q in t && t[q] == s[q]
    ensures RowTextKept(s, t, rule, r)
  {
    hide Fitted, Names, Declares, PointsOf;
    LooksAtLeaf(sm, r, inst, model, "UUID");
    LooksAtLeaf(sm, r, inst, model, "Status");
    LooksAtLeaf(sm, r, inst, model, "Version");
  }

  lemma LooksAtLeaf(sm: Path, r: Path, inst: Installation, model: Store, leaf: string)
    ensures Looks(sm, r, inst, model, r + [leaf])
  {
    assert r <= r + [leaf];
  }

  // ---------- Rows added and deleted ----------

  lemma InSyncKept(s: Store, t: Store, p: Path)
    requires p != [] && InSync(s, p) && Same(s, t, CounterPath(p))
    requires forall k | InstanceName(k) :: p + [k] in s <==> p + [k] in t
    ensures InSync(t, p)
  {
    hide InstanceName, CounterPath;
    forall k
      ensures k in Rows(s, p) <==> k in Rows(t, p)
    {
      InRows(s, p, k);
      InRows(t, p, k);
    }
    assert Rows(s, p) == Rows(t, p);
  }

  /** The other table's counter stays right. */
  lemma OtherInSync(s: Store, t: Store, sm: Path, table: string, k: string, other: string)
    requires (table == DU && other == EU) || (table == EU && other == DU)
    requires forall q :: Same(s, t, q) || sm + [table, k] <= q || q == CounterPath(sm + [table])
    requires InSync(s, sm + [other])
    ensures InSync(t, sm + [other])
  {
    hide InSync;
    CounterOf(sm, table);
    CounterOf(sm, other);
    var c := CounterPath(sm + [other]);
    assert c[|sm|] == other + "NumberOfEntries" && CounterPath(sm + [table])[|sm|] == table + "NumberOfEntries";
    SuffixDiffers(table, other, "NumberOfEntries");
    assert |sm + [table, k]| > |c|;
    forall n | InstanceName(n)
      ensures sm + [other] + [n] in s <==> sm + [other] + [n] in t
    {
      var q := sm + [other] + [n];
      assert q[|sm|] == other && (sm + [table, k])[|sm|] == table;
      assert |CounterPath(sm + [table])| < |q|;
      PrefixAt(sm + [table, k], q, |sm|);
      assert Same(s, t, q);
    }
    PrefixOf(sm + [table, k], c);
    assert Same(s, t, c);
    InSyncKept(s, t, sm + [other]);
  }

  lemma SuffixDiffers(a: string, b: string, suffix: string)
    requires a != b
    ensures a + suffix != b + suffix
  {
    assert (a + suffix)[..|a|] == a;
    assert |a| == |b| ==> (b + suffix)[..|a|] == b;
  }

  lemma RowIsUnused(s: Store, sm: Path, reg: Inventory, models: Models, table: string, k: string)
    requires Entries(s, sm, reg, models) && (table == DU || table == EU) && k != TEMPLATE
    requires sm + [table, k] !in s
    ensures Unused(sm, reg, sm + [table, k])
  {
    hide Fitted, Names, Declares, PointsOf;
    forall r | r in reg
      ensures r in s && reg[r].eu in s
    {
      assert Entry(s, sm, r, reg[r], models[r]);
    }
  }

  lemma TemplatesApart(s: Store, t: Store, sm: Path, table: string, k: string)
    requires (table == DU || table == EU) && k != TEMPLATE
    requires forall q :: Same(s, t, q) || sm + [table, k] <= q || q == CounterPath(sm + [table])
    ensures forall q | sm + [DU, TEMPLATE] <= q || sm + [EU, TEMPLATE] <= q :: Same(s, t, q)
  {
    CounterOf(sm, table);
    forall q | sm + [DU, TEMPLATE] <= q || sm + [EU, TEMPLATE] <= q
      ensures Same(s, t, q)
    {
      PrefixAt(sm + [DU, TEMPLATE], q, |sm| + 1);
      PrefixAt(sm + [EU, TEMPLATE], q, |sm| + 1);
      PrefixAt(sm + [table, k], q, |sm| + 1);
      assert (sm + [table, k])[|sm| + 1] == k;
      assert |q| >= |sm| + 2;
    }
  }

  /** Adding or deleting a row that no unit has keeps the agreement. */
  lemma AgreeAfterRow(s: Store, t: Store, rule: Rule, sm: Path, reg: Inventory, models: Models, table: string,
                      k: string)
    requires Agree(s, rule, sm, reg, models) && WellFormed(t) && (table == DU || table == EU)
    requires Unused(sm, reg, sm + [table, k])
    requires forall q :: Same(s, t, q) || sm + [table, k] <= q || q == CounterPath(sm + [table])
    requires InSync(t, sm + [table])
    ensures Agree(t, rule, sm, reg, models)
  {
    hide WellFormed, InSync, Entries, DistinctUuids, Separate, TextRows, RowsTakeText;
    var row := sm + [table, k];
    assert Confined(s, t, sm, row);
    ConfinedKeepsEntries(s, t, rule, sm, reg, models, row);
    TemplatesApart(s, t, sm, table, k);
    TextRowsKept(s, t, rule, sm);
    OtherInSync(s, t, sm, table, k, if table == DU then EU else DU);
    CounterOf(sm, table);
    PrefixOf(row, sm);
    assert Same(s, t, sm);
  }

  lemma RowAddedElsewhere(s: Store, p: Path, k: string)
    requires WellFormed(s) && p in s && s[p].table && p + [k] !in s && k != TEMPLATE && p != []
    ensures forall q :: Same(s, RowAdded(s, p, k), q) || p + [k] <= q || q == CounterPath(p)
  {
    RowAddedIsTemplate(s, p, k);
  }

  lemma RowDeletedElsewhere(s: Store, p: Path, k: string)
    requires p != []
    ensures forall q :: Same(s, RowDeleted(s, p, k), q) || p + [k] <= q || q == CounterPath(p)
  {
    forall q
      ensures Same(s, RowDeleted(s, p, k), q) || p + [k] <= q || q == CounterPath(p)
    {
      SyncedAt(Without(s, p + [k]), p, q);
    }
  }

  // ---------- Leaves written ----------

  lemma TemplatesOutside(s: Store, t: Store, sm: Path, row: Path)
    requires SameOutside(s, t, row) && |row| == |sm| + 2 && sm <= row
    requires row[|sm|] == EE || row[|sm| + 1] != TEMPLATE
    ensures forall q | sm + [DU, TEMPLATE] <= q || sm + [EU, TEMPLATE] <= q :: Same(s, t, q)
  {
    forall q | sm + [DU, TEMPLATE] <= q || sm + [EU, TEMPLATE] <= q
      ensures Same(s, t, q)
    {
      PrefixAt(sm + [DU, TEMPLATE], q, |sm|);
      PrefixAt(sm + [EU, TEMPLATE], q, |sm|);
      PrefixAt(sm + [DU, TEMPLATE], q, |sm| + 1);
      PrefixAt(sm + [EU, TEMPLATE], q, |sm| + 1);
      PrefixAt(row, q, |sm|);
      PrefixAt(row, q, |sm| + 1);
    }
  }

  lemma AgreeAfterLeaves(s: Store, t: Store, rule: Rule, sm: Path, reg: Inventory, models: Models, row: Path)
    requires Agree(s, rule, sm, reg, models) && WellFormed(t)
    requires Unused(sm, reg, row) || (|row| == |sm| + 2 && sm + [EE] <= row)
    requires s.Keys == t.Keys && SameOutside(s, t, row)
    ensures Agree(t, rule, sm, reg, models)
  {
    hide WellFormed, InSync, Entries, DistinctUuids, Separate, TextRows, RowsTakeText;
    CounterOf(sm, DU);
    CounterOf(sm, EU);
    PrefixOf(row, sm);
    PrefixOf(row, CounterPath(sm + [DU]));
    PrefixOf(row, CounterPath(sm + [EU]));
    PrefixAt(sm + [EE], row, |sm|);
    TemplatesOutside(s, t, sm, row);
    TextRowsKept(s, t, rule, sm);
    InSyncKept(s, t, sm + [DU]);
    InSyncKept(s, t, sm + [EU]);
    if Unused(sm, reg, row) {
      assert Confined(s, t, sm, row);
      ConfinedKeepsEntries(s, t, rule, sm, reg, models, row);
    } else {
      EnvironmentRow(s, t, rule, sm, reg, models, row);
    }
  }

  /** A change to an environment's row touches no unit. */
  lemma EnvironmentRow(s: Store, t: Store, rule: Rule, sm: Path, reg: Inventory, models: Models, row: Path)
    requires Entries(s, sm, reg, models) && sm + [EE] <= row && SameOutside(s, t, row)
    ensures Entries(t, sm, reg, models)
    ensures DistinctUuids(s, reg) ==> DistinctUuids(t, reg)
    ensures RowsTakeText(s, rule, reg) ==> RowsTakeText(t, rule, reg)
  {
    var nowhere := sm + [DU, ""];
    forall r | r in reg
      ensures r != nowhere && reg[r].eu != nowhere
    {
      assert Entry(s, sm, r, reg[r], models[r]);
      assert nowhere[|sm| + 1] == "";
    }
    hide Entries, Entry, DistinctUuids, RowsTakeText;
    assert Unused(sm, reg, nowhere);
    forall q
      ensures Same(s, t, q) || Spare(sm, nowhere, q)
    {
      assert row <= q ==> sm + [EE] <= q;
    }
    ConfinedKeepsEntries(s, t, rule, sm, reg, models, nowhere);
  }

  // ---------- Data models grafted and taken out ----------

  /** A model that can join these units: outside the software modules object, below no
      other unit's roots, and making no rows in the device's own tables. */
  ghost predicate Joinable(s: Store, sm: Path, reg: Inventory, model: Store) {
    && WellFormed(model)
    && (forall q | q in model :: !(sm <= q))
    && (forall r | r in reg :: Clear(model, PointsOf(reg[r].roots)))
    && (forall p | Frontier(s, model, p) :: !RowOfHost(s, p))
  }

  lemma GraftFits(s: Store, sm: Path, o: Store, points: seq<Path>)
    requires WellFormed(s) && WellFormed(o) && !Clash(s, o) && sm in s
    requires FrontierPoints(s, o, points) && AreTheFrontier(s, o, points)
    requires forall q | q in o :: !(sm <= q)
    requires forall p | Frontier(s, o, p) :: !RowOfHost(s, p)
    ensures Fitted(Grafted(s, o), sm, o, points)
  {
    hide WellFormed, Clash, Grafted;
    GraftIsRemovable(s, o, points);
    GraftJoinsLeaves(s, o);
    forall i | 0 <= i < |points|
      ensures points[i] in o && !(points[i] <= sm) && !RowOfHost(Grafted(s, o), points[i])
    {
      AboveNothing(s, o, points[i], sm);
    }
    forall q | q in o && Plain(q)
      ensures q in Grafted(s, o)
      ensures q != [] && !UnderAny(points, q) ==> Grafted(s, o)[q].leaf.None? && o[q].leaf.None?
    {
      ModelPathAfterGraft(s, o, points, q);
    }
  }

  lemma ModelPathAfterGraft(s: Store, o: Store, points: seq<Path>, q: Path)
    requires WellFormed(s) && WellFormed(o) && !Clash(s, o) && AreTheFrontier(s, o, points)
    requires q in o && Plain(q)
    ensures q in Grafted(s, o)
    ensures q != [] && !UnderAny(points, q) ==> Grafted(s, o)[q].leaf.None? && o[q].leaf.None?
  {
    PlainHasNoTemplate(q);
    TrunkExtends(q, q);
    TrunkIsPrefix(q);
    assert Trunk(q) == q;
    GraftJoinsLeaves(s, o);
    if q in s {
      assert !ClashAt(s, o, q);
    } else {
      var p := AddedBelowFrontier(s, o, q);
      assert p in points;
    }
  }

  lemma AgreeAfterGraft(s: Store, rule: Rule, sm: Path, reg: Inventory, models: Models, o: Store)
    requires Agree(s, rule, sm, reg, models) && WellFormed(o) && !Clash(s, o) && WellFormed(Grafted(s, o))
    requires forall q | q in o :: !(sm <= q)
    ensures Agree(Grafted(s, o), rule, sm, reg, models)
  {
    hide WellFormed, Clash, InSync, Entry, Looks, Text, TextLeaf;
    var t := Grafted(s, o);
    GraftJoinsLeaves(s, o);
    forall r | r in reg
      ensures Entry(t, sm, r, reg[r], models[r]) && RowTextKept(s, t, rule, r)
    {
      EntryKept(s, t, sm, r, reg[r], models[r]);
      EntryTextKept(s, t, rule, sm, r, reg[r], models[r]);
    }
    TemplatesGrafted(s, t, rule, sm, o);
    TableOutside(s, sm, DU, o);
    TableOutside(s, sm, EU, o);
  }

  lemma TemplatesGrafted(s: Store, t: Store, rule: Rule, sm: Path, o: Store)
    requires TextRows(s, rule, sm) && t == Grafted(s, o) && forall q | q in o :: !(sm <= q)
    ensures TextRows(t, rule, sm)
  {
    forall q | sm + [DU, TEMPLATE] <= q || sm + [EU, TEMPLATE] <= q
      ensures Same(s, t, q)
    {
      assert sm <= q;
    }
    TextRowsKept(s, t, rule, sm);
  }

  lemma EntryHasUuid(s: Store, sm: Path, r: Path, inst: Installation, model: Store)
    requires Entry(s, sm, r, inst, model)
    ensures Text(s, r + ["UUID"]).Some?
  {
  }

  lemma TableOutside(s: Store, sm: Path, table: string, o: Store)
    requires WellFormed(s) && WellFormed(o) && !Clash(s, o) && InSync(s, sm + [table])
    requires forall q | q in o :: !(sm <= q)
    ensures InSync(Grafted(s, o), sm + [table])
  {
    hide WellFormed, Clash, InSync;
    var t := Grafted(s, o);
    GraftJoinsLeaves(s, o);
    CounterOf(sm, table);
    forall k | InstanceName(k)
      ensures sm + [table] + [k] in s <==> sm + [table] + [k] in t
    {
      assert sm <= sm + [table] + [k];
    }
    assert Same(s, t, CounterPath(sm + [table]));
    InSyncKept(s, t, sm + [table]);
  }

  /** The divergences of a new model lie above nothing the other units have. */
  lemma NewPointsClear(s: Store, sm: Path, reg: Inventory, models: Models, o: Store, points: seq<Path>, r: Path)
    requires WellFormed(s) && Entries(s, sm, reg, models) && r in reg && FrontierPoints(s, o, points)
    ensures Clear(models[r], points)
  {
    assert Entry(s, sm, r, reg[r], models[r]);
    forall i, q | 0 <= i < |points| && q in models[r]
      ensures !(points[i] <= q)
    {
      assert Frontier(s, o, points[i]);
      if points[i] <= q {
        TrunkIsPlain(models[r], q);
        PlainHasNoTemplate(points[i]);
        TrunkExtends(points[i], q);
        AboveNothing(s, o, points[i], Trunk(q));
      }
    }
  }

  ghost predicate Beside(sm: Path, points: seq<Path>) {
    forall i | 0 <= i < |points| :: !(points[i] <= sm) && !(sm <= points[i])
  }

  lemma BesideIsApart(sm: Path, points: seq<Path>, q: Path)
    requires Beside(sm, points) && sm <= q
    ensures !UnderAny(points, q)
  {
    forall i | 0 <= i < |points|
      ensures !(points[i] <= q)
    {
      Comparable(points[i], sm, q);
    }
  }

  lemma Comparable(a: Path, b: Path, q: Path)
    ensures a <= q && b <= q ==> a <= b || b <= a
  {
    if a <= q && b <= q {
      assert a == q[..|a|] && b == q[..|b|];
      if |a| <= |b| {
        assert b[..|a|] == a;
      } else {
        assert a[..|b|] == b;
      }
    }
  }

  lemma StrictlyAbove(a: Path, p: Path)
    requires p != []
    ensures a <= p && a != p ==> a <= Parent(p)
  {
    if a <= p && a != p {
      assert a == p[..|a|] && Parent(p)[..|a|] == p[..|a|];
    }
  }

  /** Taking out subtrees that no unit depends on keeps the agreement. */
  lemma AgreeAfterRemoval(s: Store, rule: Rule, sm: Path, reg: Inventory, models: Models, points: seq<Path>)
    requires Agree(s, rule, sm, reg, models) && WellFormed(Remaining(s, points)) && Beside(sm, points)
    requires forall r | r in reg :: Clear(models[r], points)
    ensures Agree(Remaining(s, points), rule, sm, reg, models)
  {
    hide WellFormed, InSync, Entry, Beside, Looks, CounterPath, Text, TextLeaf;
    var t := Remaining(s, points);
    forall q | sm <= q
      ensures Same(s, t, q)
    {
      BesideIsApart(sm, points, q);
    }
    forall r | r in reg
      ensures Entry(t, sm, r, reg[r], models[r]) && RowTextKept(s, t, rule, r)
    {
      assert Clear(models[r], points);
      forall q | q in s && Looks(sm, r, reg[r], models[r], q)
        ensures q in t && t[q] == s[q]
      {
        EntryLooks(s, sm, r, reg[r], models[r], q);
        if q !in models[r] {
          assert Same(s, t, q);
        }
      }
      EntryKept(s, t, sm, r, reg[r], models[r]);
      EntryTextKept(s, t, rule, sm, r, reg[r], models[r]);
    }
    assert Same(s, t, sm);
    SyncBeside(s, t, sm, DU);
    SyncBeside(s, t, sm, EU);
    TextRowsKept(s, t, rule, sm);
  }

  lemma SyncBeside(s: Store, t: Store, sm: Path, table: string)
    requires InSync(s, sm + [table]) && forall q | sm <= q :: Same(s, t, q)
    ensures InSync(t, sm + [table])
  {
    hide InSync, Same;
    CounterOf(sm, table);
    forall k | InstanceName(k)
      ensures sm + [table] + [k] in s <==> sm + [table] + [k] in t
    {
      assert sm <= sm + [table] + [k];
      SameMeans(s, t, sm + [table] + [k]);
    }
    assert Same(s, t, CounterPath(sm + [table]));
    InSyncKept(s, t, sm + [table]);
  }

  lemma SameMeans(s: Store, t: Store, q: Path)
    requires Same(s, t, q)
    ensures q in s <==> q in t
  {
  }

  /** Putting a model back where it was taken out: it meets no clash, and diverges where it
      did before. */
  lemma RegraftFits(s: Store, t: Store, sm: Path, o: Store, points: seq<Path>)
    requires Fitted(s, sm, o, points) && WellFormed(s) && WellFormed(t)
    requires AlikeOutside(Remaining(s, points), t, sm)
    ensures !Clash(t, o)
    ensures forall p | Frontier(t, o, p) :: p in points && !RowOfHost(t, p)
  {
    forall p | p in t && p in o && p != [] && Plain(p)
      ensures t[p].leaf.None? && o[p].leaf.None?
    {
      assert Same(Remaining(s, points), t, p);
    }
    forall p | Frontier(t, o, p)
      ensures p in points && !RowOfHost(t, p)
    {
      assert ChildOk(o, p);
      assert Same(Remaining(s, points), t, p) && Same(Remaining(s, points), t, Parent(p));
      assert p in s;
      var i :| 0 <= i < |points| && points[i] <= p;
      StrictlyAbove(points[i], p);
    }
  }

  // ---------- Units joining and leaving the inventory ----------

  lemma RowInFacts(s: Store, sm: Path, table: string, row: Path)
    requires RowIn(s, sm, table, row)
    ensures |row| == |sm| + 2 && sm <= row && row[|sm|] == table && row[|sm| + 1] != TEMPLATE && row in s
    ensures row == sm + [table, Last(row)] && Parent(row) == sm + [table]
  {
    TemplateIsNoSegment();
    assert row[..|sm| + 1] == sm + [table];
  }

  lemma UnusedOnceOut(s: Store, sm: Path, reg: Inventory, models: Models, row: Path)
    requires Entries(s, sm, reg, models) && Separate(reg, models) && row in reg
    ensures Unused(sm, reg - {row}, row) && Unused(sm, reg - {row}, reg[row].eu)
  {
    hide Fitted, Names, Declares, PointsOf, Clear, WellFormed, RowIn;
    assert Entry(s, sm, row, reg[row], models[row]);
    RowInFacts(s, sm, DU, row);
    RowInFacts(s, sm, EU, reg[row].eu);
    forall r | r in reg - {row}
      ensures r != reg[row].eu && reg[r].eu != row && reg[r].eu != reg[row].eu
    {
      assert Entry(s, sm, r, reg[r], models[r]) && ApartFrom(reg, models, r, row);
      RowInFacts(s, sm, DU, r);
      RowInFacts(s, sm, EU, reg[r].eu);
    }
  }

  lemma AgreeWithout(s: Store, rule: Rule, sm: Path, reg: Inventory, models: Models, row: Path)
    requires Agree(s, rule, sm, reg, models) && row in reg
    ensures Agree(s, rule, sm, reg - {row}, models - {row})
    ensures Unused(sm, reg - {row}, row) && Unused(sm, reg - {row}, reg[row].eu)
    ensures forall r | r in reg - {row} ::
      Clear(models[r], PointsOf(reg[row].roots)) && Clear(models[row], PointsOf(reg[r].roots))
  {
    hide WellFormed, InSync, Entry, PointsOf, Clear, Unused, TextLeaf;
    var rest, left := reg - {row}, models - {row};
    assert rest.Keys == left.Keys;
    UnusedOnceOut(s, sm, reg, models, row);
    forall a, b | a in reg && b in reg && a != b
      ensures ApartFrom(reg, models, a, b)
    {
    }
    forall a, b | a in rest && b in rest && a != b
      ensures ApartFrom(rest, left, a, b)
    {
      assert ApartFrom(reg, models, a, b);
    }
  }

  /** The unit shares no execution unit with the others, and their models are unrelated. */
  ghost predicate Newcomer(reg: Inventory, models: Models, inst: Installation, model: Store)
    requires reg.Keys == models.Keys
  {
    && (forall r | r in reg :: reg[r].eu != inst.eu)
    && (forall r | r in reg :: Clear(models[r], PointsOf(inst.roots)) && Clear(model, PointsOf(reg[r].roots)))
  }

  lemma AgreeWith(s: Store, rule: Rule, sm: Path, reg: Inventory, models: Models, row: Path, inst: Installation,
                  model: Store)
    requires Agree(s, rule, sm, reg, models) && row !in reg && Entry(s, sm, row, inst, model)
    requires Newcomer(reg, models, inst, model)
    requires forall r | r in reg :: !HasUuid(s, r, Text(s, row + ["UUID"]).value)
    requires RowTakesText(s, rule, row)
    ensures Agree(s, rule, sm, reg[row := inst], models[row := model])
  {
    hide WellFormed, InSync, Entry, PointsOf, Clear, TextLeaf;
    var more, all := reg[row := inst], models[row := model];
    EntryHasUuid(s, sm, row, inst, model);
    forall a, b | a in more && b in more && a != b
      ensures ApartFrom(more, all, a, b)
    {
      if a in reg && b in reg && a != row && b != row {
        assert ApartFrom(reg, models, a, b);
      }
    }
    forall r | r in reg
      ensures Entry(s, sm, r, more[r], all[r])
    {
      assert r != row;
    }
  }

  // ---------- A row's own leaves ----------

  /** A leaf that takes any text. */
  ghost predicate TextLeaf(s: Store, rule: Rule, p: Path) {
    p in s && s[p].leaf.Some? && forall v :: rule(s[p].leaf.value.vtype, v)
  }

  /** Of the row's leaves the named ones have the text given, where their type takes it;
      nothing but text of the row's leaves has changed. */
  ghost predicate LeavesSet(s: Store, t: Store, rule: Rule, row: Path, values: map<string, string>) {
    && t.Keys == s.Keys && SameOutside(s, t, row)
    && (forall p :: TextLeaf(s, rule, p) <==> TextLeaf(t, rule, p))
    && (forall x | Text(s, row + [x]).Some? :: SetOrKept(s, t, rule, row, values, x))
  }

  ghost predicate SetOrKept(s: Store, t: Store, rule: Rule, row: Path, values: map<string, string>, x: string)
    requires Text(s, row + [x]).Some?
  {
    var p := row + [x];
    && Text(t, p) == (if x in values && rule(s[p].leaf.value.vtype, values[x]) then Some(values[x]) else Text(s, p))
    && Text(t, p).Some? && t[p].leaf.value.vtype == s[p].leaf.value.vtype
  }

  /** The row's leaves that take any text have the values given, or else what they had. */
  ghost predicate RowWritten(s: Store, t: Store, rule: Rule, row: Path, values: map<string, string>) {
    forall x :: TextLeaf(s, rule, row + [x]) ==>
      TextLeaf(t, rule, row + [x]) && Text(t, row + [x]) == if x in values then Some(values[x]) else Text(s, row + [x])
  }

  lemma LeavesAreWritten(s: Store, t: Store, rule: Rule, row: Path, values: map<string, string>)
    requires LeavesSet(s, t, rule, row, values)
    ensures RowWritten(s, t, rule, row, values)
  {
  }

  lemma KeptIsWritten(s: Store, t: Store, rule: Rule, row: Path)
    requires forall x | row + [x] in s :: row + [x] in t && t[row + [x]] == s[row + [x]]
    ensures RowWritten(s, t, rule, row, map[])
  {
  }

  lemma WrittenTrans(s: Store, t: Store, u: Store, rule: Rule, row: Path, a: map<string, string>,
                     b: map<string, string>)
    requires RowWritten(s, t, rule, row, a) && RowWritten(t, u, rule, row, b)
    ensures RowWritten(s, u, rule, row, a + b)
  {
    hide TextLeaf, Text;
  }

  /** One leaf more. */
  lemma LeafSetNext(s: Store, t: Store, rule: Rule, row: Path, values: map<string, string>, x: string, v: string)
    requires LeavesSet(s, t, rule, row, values) && Plain(row) && row != [] && Segment(x) && x !in values
    ensures var e := SystemSettable(t, rule, Join(row) + "." + x, v);
      && (e.Err? ==> LeavesSet(s, t, rule, row, values[x := v]))
      && (e.Ok? ==> LeavesSet(s, WithLeaf(t, e.value, t[e.value].leaf.value.(raw := v)), rule, row, values[x := v]))
  {
    hide ParsePath, Join, Plain;
    ParseBelow(row, x);
    var p := row + [x];
    assert row <= p;
    forall y | y != x
      ensures row + [y] != p
    {
      assert (row + [y])[|row|] == y && p[|row|] == x;
    }
  }

  lemma SameIsText(s: Store, t: Store, rule: Rule, p: Path)
    requires Same(s, t, p)
    ensures TextLeaf(s, rule, p) ==> TextLeaf(t, rule, p)
    ensures Text(s, p) == Text(t, p)
  {
  }

  /** A new row's leaf is its template's. */
  lemma NewRowLeaf(s: Store, p: Path, k: string, leaf: string)
    requires WellFormed(s) && p in s && s[p].table && p != [] && p + [k] !in s && k != TEMPLATE
    ensures p + [k, leaf] in RowAdded(s, p, k) <==> p + [TEMPLATE, leaf] in s
    ensures p + [k, leaf] in RowAdded(s, p, k) ==> RowAdded(s, p, k)[p + [k, leaf]] == s[p + [TEMPLATE, leaf]]
  {
    hide WellFormed, Moved, Synced, RowAdded;
    var q := p + [k, leaf];
    RowAddedIsTemplate(s, p, k);
    assert p + [k] <= q && q[|p| + 1..] == [leaf] && p + [TEMPLATE] + [leaf] == p + [TEMPLATE, leaf];
    UnderAt(RowAdded(s, p, k), p + [k], q);
    MovedAt(s, p + [TEMPLATE], p + [k], q);
  }

  lemma UnderAt(s: Store, p: Path, q: Path)
    requires p <= q
    ensures q in Under(s, p) <==> q in s
    ensures q in s ==> Under(s, p)[q] == s[q]
  {
  }

  /** The row just made of a table whose template declares the leaves. */
  ghost predicate RowMade(s: Store, t: Store, rule: Rule, sm: Path, table: string, row: Path, leaves: seq<string>) {
    && RowIn(t, sm, table, row) && row !in s && sm + [table] in s && s[sm + [table]].table
    && t == RowAdded(s, sm + [table], row[|sm| + 1])
    && (forall leaf | leaf in leaves :: TextLeaf(t, rule, row + [leaf]))
  }

  lemma RowIsMade(s: Store, rule: Rule, sm: Path, table: string, k: string, leaves: seq<string>)
    requires WellFormed(s) && Declares(s, sm + [table], leaves) && TextRows(s, rule, sm) && (table == DU || table == EU)
    requires sm + [table, k] !in s && InstanceName(k) && Segment(k) && leaves == Required(table)
    ensures RowMade(s, RowAdded(s, sm + [table], k), rule, sm, table, sm + [table, k], leaves)
  {
    hide WellFormed, RowAdded, InstanceName, Segment;
    TemplateIsNoNumber();
    var p, row := sm + [table], sm + [table, k];
    assert p + [k] == row;
    NewRowIsThere(s, p, k);
    forall leaf | leaf in leaves
      ensures TextLeaf(RowAdded(s, p, k), rule, row + [leaf])
    {
      NewRowLeaf(s, p, k, leaf);
      assert row + [leaf] == p + [k, leaf];
      assert sm + [table] + [TEMPLATE, leaf] == sm + [table, TEMPLATE, leaf];
      assert Text(s, sm + [table, TEMPLATE, leaf]).Some?;
    }
  }

  // ---------- An execution unit started ----------

  lemma PointsNamed(o: Store, roots: seq<string>, points: seq<Path>)
    requires Names(o, roots, points) && forall i | 0 <= i < |points| :: Plain(points[i])
    ensures PointsOf(roots) == points
  {
    hide ParsePath, RootName, Plain;
    forall i | 0 <= i < |points|
      ensures PointsOf(roots)[i] == points[i]
    {
      RootNameParses(o, points[i]);
    }
  }

  /** Changes below the software modules object do not bear on joining. */
  lemma JoinableKept(s: Store, t: Store, sm: Path, reg: Inventory, model: Store)
    requires Joinable(s, sm, reg, model) && AlikeOutside(s, t, sm)
    ensures Joinable(t, sm, reg, model)
  {
    forall p | Frontier(t, model, p)
      ensures !RowOfHost(t, p)
    {
      assert ChildOk(model, p) && Same(s, t, p) && Same(s, t, Parent(p));
      assert Frontier(s, model, p);
    }
  }

  /** A change to the row, or to the counter of its table, is one below sm. */
  lemma RowIsBelow(s: Store, t: Store, sm: Path, row: Path, table: string)
    requires sm <= row && forall q :: Same(s, t, q) || row <= q || q == CounterPath(sm + [table])
    ensures AlikeOutside(s, t, sm)
  {
    CounterOf(sm, table);
    forall q | !(sm <= q)
      ensures Same(s, t, q)
    {
      assert row <= q ==> sm <= q;
    }
  }

  /** The model is in place and its execution unit runs; nothing else has changed but the
      counter of execution units. */
  ghost predicate Started(s: Store, t: Store, sm: Path, model: Store, roots: seq<string>, eu: Path) {
    && RowIn(t, sm, EU, eu) && eu !in s
    && Fitted(t, sm, model, PointsOf(roots)) && Names(model, roots, PointsOf(roots))
    && Text(t, eu + ["Status"]) == Some("Active")
    && Text(t, eu + ["References"]) == Some(Joined(roots, ","))
    && Declares(t, sm + [EU], EU_LEAVES)
    && (forall q | q in s && q != CounterPath(sm + [EU]) :: q in t && t[q] == s[q])
    && AlikeOutside(Grafted(s, model), t, sm) && AreTheFrontier(s, model, PointsOf(roots))
  }

  /** What holds from the graft on, while the execution unit's row is made and written. */
  ghost predicate Starting(s: Store, g: Store, t: Store, sm: Path, eu: Path) {
    && RowIn(t, sm, EU, eu) && eu !in g && (forall q | q in s :: q in g && g[q] == s[q])
    && (forall q :: Same(g, t, q) || eu <= q || q == CounterPath(sm + [EU]))
  }

  lemma StartingStays(s: Store, g: Store, t: Store, u: Store, rule: Rule, sm: Path, eu: Path,
                      values: map<string, string>)
    requires Starting(s, g, t, sm, eu) && LeavesSet(t, u, rule, eu, values)
    ensures Starting(s, g, u, sm, eu)
  {
    forall q
      ensures Same(g, u, q) || eu <= q || q == CounterPath(sm + [EU])
    {
      assert Same(g, t, q) || eu <= q || q == CounterPath(sm + [EU]);
    }
  }

  lemma StartedFrom(s: Store, g: Store, t: Store, sm: Path, model: Store, roots: seq<string>, points: seq<Path>,
                    eu: Path)
    requires Starting(s, g, t, sm, eu) && WellFormed(g) && g == Grafted(s, model) && AreTheFrontier(s, model, points)
    requires Fitted(g, sm, model, points) && Names(model, roots, points)
    requires Declares(s, sm + [EU], EU_LEAVES)
    requires Text(t, eu + ["Status"]) == Some("Active") && Text(t, eu + ["References"]) == Some(Joined(roots, ","))
    ensures Started(s, t, sm, model, roots, eu)
  {
    hide WellFormed, Names, CounterPath, Grafted, AreTheFrontier;
    forall i | 0 <= i < |points|
      ensures Plain(points[i])
    {
      assert RemovableAt(g, points[i]);
    }
    PointsNamed(model, roots, points);
    RowInFacts(t, sm, EU, eu);
    RowIsBelow(g, t, sm, eu, EU);
    forall q | q in g && q in model && Plain(q)
      ensures q in t && t[q] == g[q]
    {
      assert Same(g, t, q);
    }
    FittedKept(g, t, sm, model, points);
    BelowNothing(g, eu);
    forall q | q in s
      ensures (q in t && t[q] == s[q]) || q == CounterPath(sm + [EU])
    {
      assert q in g && (Same(g, t, q) || eu <= q || q == CounterPath(sm + [EU]));
    }
    DeclaresKept(s, t, sm, eu);
  }

  lemma BelowNothing(g: Store, eu: Path)
    requires WellFormed(g) && eu !in g
    ensures forall q | q in g :: !(eu <= q)
  {
    forall q | q in g
      ensures !(eu <= q)
    {
      if eu <= q {
        PrefixClosed(g, eu, q);
      }
    }
  }

  lemma DeclaresKept(s: Store, t: Store, sm: Path, eu: Path)
    requires Declares(s, sm + [EU], EU_LEAVES)
    requires forall q | q in s :: (q in t && t[q] == s[q]) || eu <= q || q == CounterPath(sm + [EU])
    requires |eu| == |sm| + 2 && sm <= eu && eu[|sm| + 1] != TEMPLATE
    ensures Declares(t, sm + [EU], EU_LEAVES)
  {
    CounterOf(sm, EU);
    assert !(eu <= sm + [EU]);
    forall leaf | leaf in EU_LEAVES
      ensures sm + [EU] + [TEMPLATE, leaf] in t && t[sm + [EU] + [TEMPLATE, leaf]].leaf.Some?
    {
      var q := sm + [EU] + [TEMPLATE, leaf];
      PrefixAt(eu, q, |sm| + 1);
      assert q[|sm| + 1] == TEMPLATE && |q| > |CounterPath(sm + [EU])|;
    }
  }

  /** A row just made starts. */
  lemma RowStarts(s: Store, g: Store, t: Store, rule: Rule, sm: Path, eu: Path)
    requires RowMade(g, t, rule, sm, EU, eu, EU_LEAVES) && WellFormed(g)
    requires forall q | q in s :: q in g && g[q] == s[q]
    ensures Starting(s, g, t, sm, eu)
  {
    hide WellFormed, RowAdded;
    RowInFacts(t, sm, EU, eu);
    assert sm + [EU] + [Last(eu)] == eu;
    RowAddedElsewhere(g, sm + [EU], Last(eu));
  }

  lemma AgreeAfterMade(s: Store, t: Store, rule: Rule, sm: Path, reg: Inventory, models: Models, table: string,
                       row: Path, leaves: seq<string>)
    requires Agree(s, rule, sm, reg, models) && WellFormed(t) && (table == DU || table == EU)
    requires RowMade(s, t, rule, sm, table, row, leaves)
    ensures Agree(t, rule, sm, reg, models) && Unused(sm, reg, row)
    ensures forall q :: Same(s, t, q) || row <= q || q == CounterPath(sm + [table])
  {
    hide WellFormed, RowAdded, Entries, Separate, DistinctUuids, InSync, TextRows, Unused;
    var k := Last(row);
    RowInFacts(t, sm, table, row);
    RowIsUnused(s, sm, reg, models, table, k);
    assert sm + [table] + [k] == row;
    RowAddedElsewhere(s, sm + [table], k);
    CountersCount(s, sm + [table], k);
    AgreeAfterRow(s, t, rule, sm, reg, models, table, k);
  }

  lemma TablesAreSegments()
    ensures Segment(DU) && Segment(EU) && Segment(EE)
  {
  }

  lemma RowIsPlain(s: Store, sm: Path, table: string, row: Path)
    requires RowIn(s, sm, table, row) && Plain(sm) && (table == DU || table == EU)
    ensures Plain(row) && row != [] && Plain(sm + [table])
  {
    TablesAreSegments();
  }

  /** A model from outside leaves everything below the software modules object as it is. */
  lemma GraftIsOutside(s: Store, sm: Path, o: Store)
    requires WellFormed(s) && WellFormed(o) && !Clash(s, o) && forall q | q in o :: !(sm <= q)
    ensures forall q | sm <= q :: Same(s, Grafted(s, o), q)
    ensures forall q | q in s :: q in Grafted(s, o) && Grafted(s, o)[q] == s[q]
  {
    GraftJoinsLeaves(s, o);
  }

  lemma DeclaresSame(s: Store, t: Store, sm: Path)
    requires forall q | sm <= q :: Same(s, t, q)
    ensures Declares(s, sm + [EU], EU_LEAVES) <==> Declares(t, sm + [EU], EU_LEAVES)
  {
    assert sm <= sm + [EU] && Same(s, t, sm + [EU]);
    forall leaf
      ensures Same(s, t, sm + [EU] + [TEMPLATE, leaf])
    {
      assert sm <= sm + [EU] + [TEMPLATE, leaf];
    }
  }

  lemma FittedIsRemovable(s: Store, sm: Path, model: Store, points: seq<Path>)
    requires Fitted(s, sm, model, points)
    ensures Removable(s, points) && forall i | 0 <= i < |points| :: !RowOfHost(s, points[i])
    ensures Beside(sm, points) && forall i | 0 <= i < |points| :: Plain(points[i])
  {
    forall i | 0 <= i < |points|
      ensures Plain(points[i])
    {
      assert RemovableAt(s, points[i]);
    }
  }

  /** Stopping a unit: its model is taken out, its execution unit's row is idle; other
      cells outside that row stay. */
  ghost predicate Stopped(s: Store, t: Store, eu: Path, points: seq<Path>) {
    && (forall q :: Same(Remaining(s, points), t, q) || eu <= q)
    && eu in t
  }

  // ---------- A deployment unit's row in the making ----------

  /** From s, the row was added and nothing but its leaves has been written since. */
  ghost predicate Pending(s: Store, t: Store, rule: Rule, sm: Path, row: Path) {
    && row != [] && RowMade(s, RowAdded(s, sm + [DU], Last(row)), rule, sm, DU, row, DU_LEAVES)
    && t.Keys == RowAdded(s, sm + [DU], Last(row)).Keys && SameOutside(RowAdded(s, sm + [DU], Last(row)), t, row)
    && (forall leaf | leaf in DU_LEAVES :: TextLeaf(t, rule, row + [leaf]))
  }

  lemma PendingFromMade(s: Store, t: Store, rule: Rule, sm: Path, row: Path)
    requires RowMade(s, t, rule, sm, DU, row, DU_LEAVES)
    ensures Pending(s, t, rule, sm, row)
  {
    hide RowAdded;
    RowInFacts(t, sm, DU, row);
  }

  lemma PendingStays(s: Store, t: Store, u: Store, rule: Rule, sm: Path, row: Path, values: map<string, string>)
    requires Pending(s, t, rule, sm, row) && LeavesSet(t, u, rule, row, values)
    ensures Pending(s, u, rule, sm, row)
  {
    hide RowAdded, RowMade, TextLeaf;
  }

  /** Deleting a pending row restores the tree. */
  lemma PendingUndone(s: Store, t: Store, rule: Rule, sm: Path, row: Path)
    requires Pending(s, t, rule, sm, row) && WellFormed(s) && InSync(s, sm + [DU])
    ensures RowIn(t, sm, DU, row) && sm + [DU] in t && t[sm + [DU]].table && sm + [DU] + [Last(row)] == row
    ensures RowDeleted(t, sm + [DU], Last(row)) == s
  {
    hide WellFormed, RowAdded, Synced, InSync;
    var p, k := sm + [DU], Last(row);
    var made := RowAdded(s, p, k);
    RowInFacts(made, sm, DU, row);
    assert p + [k] == row;
    NewRowIsThere(s, p, k);
    assert !(row <= p) && |p| < |row|;
    assert Without(t, row) == Without(made, row);
    AddThenDelete(s, p, k);
  }

  /** No unit has the identifier. */
  ghost predicate NoneHas(s: Store, reg: Inventory, uuid: string) {
    forall r | r in reg :: !HasUuid(s, r, uuid)
  }

  lemma NoneHasKept(s: Store, t: Store, sm: Path, reg: Inventory, models: Models, row: Path, uuid: string)
    requires Entries(s, sm, reg, models) && Unused(sm, reg, row) && NoneHas(s, reg, uuid)
    requires forall q | q in s :: (q in t && t[q] == s[q]) || row <= q || q == CounterPath(sm + [EU])
    ensures NoneHas(t, reg, uuid)
  {
    hide Entry, Looks, Unused, CounterPath;
    forall r | r in reg
      ensures Text(t, r + ["UUID"]) == Text(s, r + ["UUID"])
    {
      EntryHasUuid(s, sm, r, reg[r], models[r]);
      LooksAtLeaf(sm, r, reg[r], models[r], "UUID");
      LooksElsewhere(s, sm, reg, models, r, row, r + ["UUID"]);
      SpareHolds(sm, row, r + ["UUID"]);
    }
  }

  lemma SpareHolds(sm: Path, row: Path, q: Path)
    ensures row <= q || q == CounterPath(sm + [EU]) ==> Spare(sm, row, q)
  {
  }

  /** A started unit whose row has been written: the new entry. */
  lemma EntryFromStart(s: Store, t: Store, u: Store, rule: Rule, sm: Path, row: Path, inst: Installation, model: Store)
    requires Started(s, t, sm, model, inst.roots, inst.eu) && DuRow(s, sm, row)
    requires SameOutside(t, u, row) && t.Keys == u.Keys
    requires Text(u, row + ["Status"]) == Some("Installed") && Text(u, row + ["UUID"]).Some?
    requires Text(u, row + ["Version"]) == Some(inst.manifest.app.version)
    ensures Entry(u, sm, row, inst, model)
  {
    hide Names, PointsOf, CounterPath, Fitted, AreTheFrontier, AlikeOutside;
    var eu := inst.eu;
    RowInFacts(s, sm, DU, row);
    RowInFacts(t, sm, EU, eu);
    CounterOf(sm, EU);
    assert row in t;
    FittedOutside(t, u, sm, model, PointsOf(inst.roots), row);
    forall x
      ensures Text(u, eu + [x]) == Text(t, eu + [x])
    {
      PrefixAt(row, eu + [x], |sm|);
    }
    DeclaresOutside(t, u, sm, row);
  }

  lemma FittedOutside(s: Store, t: Store, sm: Path, model: Store, points: seq<Path>, row: Path)
    requires Fitted(s, sm, model, points) && SameOutside(s, t, row) && sm <= row
    ensures Fitted(t, sm, model, points)
  {
    forall q | q in s && q in model && Plain(q)
      ensures q in t && t[q] == s[q]
    {
      assert row <= q ==> sm <= q;
    }
    FittedKept(s, t, sm, model, points);
  }

  lemma DeclaresOutside(s: Store, t: Store, sm: Path, row: Path)
    requires Declares(s, sm + [EU], EU_LEAVES) && SameOutside(s, t, row)
    requires |row| == |sm| + 2 && sm <= row && row[|sm| + 1] != TEMPLATE
    ensures Declares(t, sm + [EU], EU_LEAVES)
  {
    assert !(row <= sm + [EU]);
    forall leaf | leaf in EU_LEAVES
      ensures sm + [EU] + [TEMPLATE, leaf] in t && t[sm + [EU] + [TEMPLATE, leaf]].leaf.Some?
    {
      PrefixAt(row, sm + [EU] + [TEMPLATE, leaf], |sm| + 1);
    }
  }

  lemma NoUnitsAgree(s: Store, rule: Rule, sm: Path)
    requires WellFormed(s) && sm in s && Plain(sm) && sm != []
    requires InSync(s, sm + [DU]) && InSync(s, sm + [EU]) && TextRows(s, rule, sm)
    ensures Agree(s, rule, sm, map[], map[])
  {
  }

  lemma NotBoth(s: Store, reg: Inventory, a: Path, b: Path, uuid: string)
    requires DistinctUuids(s, reg) && a in reg && b in reg && a != b
    ensures !HasUuid(s, a, uuid) || !HasUuid(s, b, uuid)
  {
  }

  lemma AtMostOne(s: Store, reg: Inventory, matches: seq<Path>, uuid: string)
    requires DistinctUuids(s, reg) && forall r | r in matches :: r in reg && HasUuid(s, r, uuid)
    requires forall i, j | 0 <= i < j < |matches| :: matches[i] != matches[j]
    ensures |matches| <= 1
  {
    hide DistinctUuids, HasUuid;
    if |matches| > 1 {
      assert matches[0] in matches && matches[1] in matches;
      NotBoth(s, reg, matches[0], matches[1], uuid);
    }
  }

  // ---------- A unit entered ----------

  /** A deployment unit's row that has the identifier, and takes text. */
  ghost predicate Identified(s: Store, rule: Rule, sm: Path, row: Path, id: string) {
    && DuRow(s, sm, row) && Text(s, row + ["UUID"]) == Some(id)
    && RowTakesText(s, rule, row)
  }

  /** Starting an execution unit leaves the deployment unit's row as it was. */
  lemma IdentifiedStays(s: Store, t: Store, rule: Rule, sm: Path, row: Path, id: string)
    requires Identified(s, rule, sm, row, id)
    requires forall q | q in s && q != CounterPath(sm + [EU]) :: q in t && t[q] == s[q]
    ensures Identified(t, rule, sm, row, id)
  {
    CounterOf(sm, EU);
    RowInFacts(s, sm, DU, row);
    forall x
      ensures row + [x] != CounterPath(sm + [EU])
    {
      assert |row + [x]| > |CounterPath(sm + [EU])|;
    }
    assert row != CounterPath(sm + [EU]) && sm + [DU] != CounterPath(sm + [EU]);
  }

  lemma IdentifiedWritten(s: Store, t: Store, rule: Rule, sm: Path, row: Path, id: string, values: map<string, string>)
    requires Identified(s, rule, sm, row, id) && LeavesSet(s, t, rule, row, values)
    requires "UUID" !in values
    ensures Identified(t, rule, sm, row, id)
    ensures "Status" in values ==> Text(t, row + ["Status"]) == Some(values["Status"])
  {
  }

  /** The unit started is entered under its row. */
  lemma Entered(p: Store, t: Store, u: Store, rule: Rule, sm: Path, reg: Inventory, models: Models, row: Path,
                inst: Installation, model: Store, id: string)
    requires Agree(u, rule, sm, reg, models) && Started(p, t, sm, model, inst.roots, inst.eu)
    requires Newly(reg, models, sm, model, inst.roots, inst.eu) && Unused(sm, reg, row)
    requires Identified(p, rule, sm, row, id) && Identified(u, rule, sm, row, id)
    requires Text(u, row + ["Status"]) == Some("Installed")
    requires Text(u, row + ["Version"]) == Some(inst.manifest.app.version)
    requires SameOutside(t, u, row) && t.Keys == u.Keys && NoneHas(u, reg, id)
    ensures Agree(u, rule, sm, reg[row := inst], models[row := model])
  {
    hide Agree, Started, Entry, DuRow, TextLeaf, PointsOf, Clear;
    AgreeKeys(u, rule, sm, reg, models);
    EntryFromStart(p, t, u, rule, sm, row, inst, model);
    AgreeWith(u, rule, sm, reg, models, row, inst, model);
  }

  lemma AgreeKeys(s: Store, rule: Rule, sm: Path, reg: Inventory, models: Models)
    requires Agree(s, rule, sm, reg, models)
    ensures reg.Keys == models.Keys
  {
  }

  /** The started unit is unrelated to the others. */
  ghost predicate Newly(reg: Inventory, models: Models, sm: Path, model: Store, roots: seq<string>, eu: Path) {
    && Unused(sm, reg, eu) && reg.Keys == models.Keys
    && (forall r | r in reg :: Clear(models[r], PointsOf(roots)) && Clear(model, PointsOf(reg[r].roots)))
  }

  // ---------- What changes below the software modules object leave outside it ----------

  lemma AlikeTrans(s: Store, t: Store, u: Store, sm: Path)
    requires AlikeOutside(s, t, sm) && AlikeOutside(t, u, sm)
    ensures AlikeOutside(s, u, sm)
  {
    forall q | !(sm <= q)
      ensures Same(s, u, q)
    {
      assert Same(s, t, q) && Same(t, u, q);
    }
  }

  /** A model from outside meets the same clashes, diverges at the same places and adds
      the same cells. */
  lemma OutsideJudges(s: Store, t: Store, sm: Path, o: Store)
    requires AlikeOutside(s, t, sm) && forall q | q in o :: !(sm <= q)
    ensures Clash(s, o) <==> Clash(t, o)
    ensures forall points :: AreTheFrontier(s, o, points) <==> AreTheFrontier(t, o, points)
    ensures AlikeOutside(Grafted(s, o), Grafted(t, o), sm)
  {
    forall p
      ensures ClashAt(s, o, p) <==> ClashAt(t, o, p)
      ensures Frontier(s, o, p) <==> Frontier(t, o, p)
    {
      if p in o && p != [] {
        assert Same(s, t, p);
        assert !(sm <= Parent(p)) && Same(s, t, Parent(p));
      }
    }
    forall q | !(sm <= q)
      ensures Same(Grafted(s, o), Grafted(t, o), q)
    {
      assert Same(s, t, q);
      TrunkIsPrefix(q);
      assert sm <= Trunk(q) ==> sm <= q;
      assert Same(s, t, Trunk(q)) || sm <= Trunk(q);
    }
  }

  /** A row in the making bears neither on the other table's template nor on the units'
      identifiers. */
  lemma PendingJudges(s: Store, t: Store, rule: Rule, sm: Path, reg: Inventory, models: Models, row: Path)
    requires Agree(s, rule, sm, reg, models) && Pending(s, t, rule, sm, row) && Unused(sm, reg, row)
    ensures Declares(s, sm + [EU], EU_LEAVES) <==> Declares(t, sm + [EU], EU_LEAVES)
    ensures forall id :: NoneHas(s, reg, id) <==> NoneHas(t, reg, id)
    ensures AlikeOutside(s, t, sm)
  {
    hide Entry, Unused, WellFormed, InSync, Separate, DistinctUuids, TextRows, RowsTakeText, TextLeaf, RowAdded,
      Looks, Spare, Text;
    PendingTouches(s, t, rule, sm, row);
    RowInFacts(RowAdded(s, sm + [DU], Last(row)), sm, DU, row);
    RowIsBelow(s, t, sm, row, DU);
    TemplateThrough(s, t, sm, row);
    forall r | r in reg
      ensures Text(t, r + ["UUID"]) == Text(s, r + ["UUID"])
    {
      LooksAtLeaf(sm, r, reg[r], models[r], "UUID");
      LooksElsewhere(s, sm, reg, models, r, row, r + ["UUID"]);
      SpareCovers(sm, row, r + ["UUID"]);
      SameIsText(s, t, rule, r + ["UUID"]);
    }
    SameTextsNoneHas(s, t, reg);
  }

  lemma SameTextsNoneHas(s: Store, t: Store, reg: Inventory)
    requires forall r | r in reg :: Text(t, r + ["UUID"]) == Text(s, r + ["UUID"])
    ensures forall id :: NoneHas(s, reg, id) <==> NoneHas(t, reg, id)
  {
    hide Text, Fold;
    forall r, id | r in reg
      ensures HasUuid(s, r, id) <==> HasUuid(t, r, id)
    {
    }
  }

  lemma SpareCovers(sm: Path, row: Path, q: Path)
    requires !Spare(sm, row, q)
    ensures !(row <= q) && q != CounterPath(sm + [DU]) && q != CounterPath(sm + [EU])
  {
  }

  lemma PendingTouches(s: Store, t: Store, rule: Rule, sm: Path, row: Path)
    requires Pending(s, t, rule, sm, row) && WellFormed(s)
    ensures RowIn(RowAdded(s, sm + [DU], Last(row)), sm, DU, row) && DuRow(t, sm, row)
    ensures forall q :: Same(s, t, q) || row <= q || q == CounterPath(sm + [DU])
  {
    hide WellFormed, RowAdded, TextLeaf;
    var p, k := sm + [DU], Last(row);
    var made := RowAdded(s, p, k);
    RowInFacts(made, sm, DU, row);
    assert p + [k] == row;
    RowAddedElsewhere(s, p, k);
    CounterOf(sm, DU);
    forall q
      ensures Same(s, t, q) || row <= q || q == CounterPath(p)
    {
      assert Same(s, made, q) || row <= q || q == CounterPath(p);
    }
    assert !(row <= p) && Same(s, t, p);
  }

  lemma TemplateThrough(s: Store, t: Store, sm: Path, row: Path)
    requires |row| == |sm| + 2 && sm <= row && row[|sm| + 1] != TEMPLATE
    requires forall q :: Same(s, t, q) || row <= q || q == CounterPath(sm + [DU])
    ensures Declares(s, sm + [EU], EU_LEAVES) <==> Declares(t, sm + [EU], EU_LEAVES)
  {
    CounterOf(sm, DU);
    assert !(row <= sm + [EU]) && Same(s, t, sm + [EU]);
    forall leaf
      ensures Same(s, t, sm + [EU] + [TEMPLATE, leaf])
    {
      PrefixAt(row, sm + [EU] + [TEMPLATE, leaf], |sm| + 1);
      assert |sm + [EU] + [TEMPLATE, leaf]| > |CounterPath(sm + [DU])|;
    }
  }

  // ---------- A unit halted ----------

  /** The execution unit is gone, and with it its data model. */
  ghost predicate Ceased(s: Store, t: Store, sm: Path, eu: Path, points: seq<Path>) {
    && (forall q :: Same(Remaining(s, points), t, q) || eu <= q || q == CounterPath(sm + [EU]))
    && (forall q | eu <= q :: q !in t)
  }

  /** The same, but for text of the deployment unit's own row. */
  ghost predicate Halted(s: Store, t: Store, sm: Path, row: Path, eu: Path, points: seq<Path>) {
    && (forall q :: Same(Remaining(s, points), t, q) || row <= q || eu <= q || q == CounterPath(sm + [EU]))
    && (forall q | eu <= q :: q !in t)
  }

  lemma StoppedThenDropped(s: Store, stopped: Store, sm: Path, eu: Path, points: seq<Path>)
    requires Stopped(s, stopped, eu, points) && eu != [] && eu == sm + [EU] + [Last(eu)]
    ensures Ceased(s, RowDeleted(stopped, sm + [EU], Last(eu)), sm, eu, points)
  {
    hide Remaining, RowDeleted;
    var t := RowDeleted(stopped, sm + [EU], Last(eu));
    RowDeletedElsewhere(stopped, sm + [EU], Last(eu));
    forall q
      ensures Same(Remaining(s, points), t, q) || eu <= q || q == CounterPath(sm + [EU])
    {
      assert Same(stopped, t, q) || eu <= q || q == CounterPath(sm + [EU]);
      assert Same(Remaining(s, points), stopped, q) || eu <= q;
    }
    RowIsGone(stopped, sm + [EU], Last(eu));
  }

  lemma RowIsGone(s: Store, p: Path, k: string)
    ensures forall q | p + [k] <= q :: q !in RowDeleted(s, p, k)
  {
    forall q | p + [k] <= q
      ensures q !in RowDeleted(s, p, k)
    {
      SyncedAt(Without(s, p + [k]), p, q);
    }
  }

  lemma HaltedFrom(s: Store, written: Store, t: Store, sm: Path, row: Path, eu: Path, points: seq<Path>)
    requires SameOutside(s, written, row) && s.Keys == written.Keys && Ceased(written, t, sm, eu, points)
    ensures Halted(s, t, sm, row, eu, points)
  {
    forall q
      ensures Same(Remaining(s, points), t, q) || row <= q || eu <= q || q == CounterPath(sm + [EU])
    {
      assert q in s <==> q in written;
      assert row <= q || Same(s, written, q);
      assert row <= q || Same(Remaining(s, points), Remaining(written, points), q);
      assert Same(Remaining(written, points), t, q) || eu <= q || q == CounterPath(sm + [EU]);
    }
  }

  lemma HaltedOutside(s: Store, t: Store, sm: Path, row: Path, eu: Path, points: seq<Path>)
    requires Halted(s, t, sm, row, eu, points) && sm <= row && sm <= eu
    ensures AlikeOutside(Remaining(s, points), t, sm)
  {
    hide Remaining;
    CounterOf(sm, EU);
    forall q | !(sm <= q)
      ensures Same(Remaining(s, points), t, q)
    {
      assert row <= q || eu <= q ==> sm <= q;
    }
  }

  lemma IdentifiedCeased(s: Store, t: Store, rule: Rule, sm: Path, row: Path, eu: Path, points: seq<Path>, id: string)
    requires Identified(s, rule, sm, row, id) && Ceased(s, t, sm, eu, points) && Beside(sm, points)
    requires |eu| == |sm| + 2 && eu[|sm|] == EU
    ensures Identified(t, rule, sm, row, id)
  {
    RowInFacts(s, sm, DU, row);
    CounterOf(sm, EU);
    forall q | q == sm + [DU] || q == row || (exists x :: q == row + [x])
      ensures Same(s, t, q)
    {
      assert sm <= q && q[|sm|] == DU;
      PrefixAt(eu, q, |sm|);
      assert (sm + [DU])[|sm|] == DU && CounterPath(sm + [EU])[|sm|] == EU + "NumberOfEntries";
      BesideIsApart(sm, points, q);
      assert Same(Remaining(s, points), t, q);
    }
    assert Same(s, t, row + ["UUID"]) && Same(s, t, row + ["Status"]) && Same(s, t, row + ["Version"]);
    assert Same(s, t, row) && Same(s, t, sm + [DU]);
  }

  lemma HaltedNoneHas(s: Store, t: Store, rule: Rule, sm: Path, reg: Inventory, models: Models, row: Path, eu: Path,
                      points: seq<Path>)
    requires Agree(s, rule, sm, reg, models) && Unused(sm, reg, row) && Unused(sm, reg, eu)
    requires Halted(s, t, sm, row, eu, points) && Beside(sm, points)
    ensures forall uuid :: NoneHas(s, reg, uuid) <==> NoneHas(t, reg, uuid)
  {
    hide Entry, Unused, WellFormed, InSync, Separate, DistinctUuids, TextRows, RowsTakeText, Looks, Spare, Text, Beside;
    forall r | r in reg
      ensures Text(t, r + ["UUID"]) == Text(s, r + ["UUID"])
    {
      var q := r + ["UUID"];
      LooksAtLeaf(sm, r, reg[r], models[r], "UUID");
      LooksElsewhere(s, sm, reg, models, r, row, q);
      LooksElsewhere(s, sm, reg, models, r, eu, q);
      SpareCovers(sm, row, q);
      SpareCovers(sm, eu, q);
      EntryIsBelow(s, sm, r, reg[r], models[r]);
      BesideIsApart(sm, points, q);
      assert Same(Remaining(s, points), t, q);
      SameIsText(s, t, rule, q);
    }
    SameTextsNoneHas(s, t, reg);
  }

  lemma EntryIsBelow(s: Store, sm: Path, r: Path, inst: Installation, model: Store)
    requires Entry(s, sm, r, inst, model)
    ensures sm <= r && sm <= inst.eu
  {
    hide Fitted, Names, Declares, PointsOf;
    RowInFacts(s, sm, DU, r);
    RowInFacts(s, sm, EU, inst.eu);
  }

  /** The version taken out can always be put back. */
  lemma CanRestart(s: Store, t: Store, sm: Path, reg: Inventory, o: Store, points: seq<Path>)
    requires Fitted(s, sm, o, points) && WellFormed(s) && WellFormed(t) && AlikeOutside(Remaining(s, points), t, sm)
    requires forall r | r in reg :: Clear(o, PointsOf(reg[r].roots))
    ensures Joinable(t, sm, reg, o) && !Clash(t, o)
  {
    hide WellFormed, Remaining, Clear, PointsOf, AlikeOutside, Clash;
    RegraftFits(s, t, sm, o, points);
  }

  // ---------- A data model's stay ----------

  /** Taking out what an install put in leaves the tree, outside the software modules
      object, as it was before the install. */
  lemma UninstallUndoesInstall(s: Store, t: Store, u: Store, sm: Path, o: Store, points: seq<Path>)
    requires WellFormed(s) && WellFormed(o) && !Clash(s, o) && AreTheFrontier(s, o, points)
    requires AlikeOutside(Grafted(s, o), t, sm) && AlikeOutside(Remaining(t, points), u, sm)
    ensures AlikeOutside(s, u, sm)
  {
    hide WellFormed, Clash, Grafted, AreTheFrontier;
    RemainingIsHost(s, o, points);
    forall q | !(sm <= q)
      ensures Same(s, u, q)
    {
      assert Same(Grafted(s, o), t, q) && Same(Remaining(t, points), u, q);
    }
  }

  /** A unit keeps its data model when another's is taken out if and only if no object the
      other put in is an object of its own model. */
  lemma KeepsItsModelExactly(s: Store, sm: Path, model: Store, points: seq<Path>, others: seq<Path>)
    requires Fitted(s, sm, model, points) && forall i | 0 <= i < |others| :: Plain(others[i])
    ensures (forall q | q in model && Plain(q) :: Same(s, Remaining(s, others), q)) <==>
            forall i | 0 <= i < |others| :: others[i] !in model
    ensures (forall i | 0 <= i < |others| :: others[i] !in model) <==> Clear(model, others)
  {
    forall i, q | 0 <= i < |others| && q in model && others[i] <= q
      ensures others[i] in model
    {
      PrefixClosed(model, others[i], q);
    }
    if i :| 0 <= i < |others| && others[i] in model {
      assert others[i] <= others[i] && others[i] in s;
      assert !Same(s, Remaining(s, others), others[i]);
    }
  }

  /** One unit's entry. */
  lemma EntryOf(s: Store, rule: Rule, sm: Path, reg: Inventory, models: Models, row: Path)
    requires Agree(s, rule, sm, reg, models) && row in reg
    ensures row in models && Entry(s, sm, row, reg[row], models[row])
    ensures Text(s, row + ["UUID"]).Some? && Text(s, row + ["Status"]) == Some("Installed")
    ensures Text(s, row + ["Version"]) == Some(reg[row].manifest.app.version)
    ensures Identified(s, rule, sm, row, Text(s, row + ["UUID"]).value)
    ensures NoneHas(s, reg - {row}, Text(s, row + ["UUID"]).value)
  {
    hide WellFormed, InSync, Separate, TextRows, Fitted, Names, Declares, PointsOf, TextLeaf;
    assert Entry(s, sm, row, reg[row], models[row]);
  }

  lemma HaltedDeclares(s: Store, t: Store, sm: Path, row: Path, eu: Path, points: seq<Path>)
    requires Halted(s, t, sm, row, eu, points) && Beside(sm, points) && Declares(s, sm + [EU], EU_LEAVES)
    requires RowIn(s, sm, DU, row) && RowIn(s, sm, EU, eu)
    ensures Declares(t, sm + [EU], EU_LEAVES)
  {
    RowInFacts(s, sm, DU, row);
    RowInFacts(s, sm, EU, eu);
    CounterOf(sm, EU);
    var p := sm + [EU];
    BesideIsApart(sm, points, p);
    assert !(row <= p) && !(eu <= p) && Same(Remaining(s, points), t, p);
    forall leaf | leaf in EU_LEAVES
      ensures p + [TEMPLATE, leaf] in t && t[p + [TEMPLATE, leaf]].leaf.Some?
    {
      var q := p + [TEMPLATE, leaf];
      PrefixAt(row, q, |sm| + 1);
      PrefixAt(eu, q, |sm| + 1);
      assert q[|sm| + 1] == TEMPLATE && |q| > |CounterPath(p)|;
      BesideIsApart(sm, points, q);
      assert Same(Remaining(s, points), t, q);
    }
  }

  lemma HaltedIsGone(s: Store, t: Store, sm: Path, row: Path, eu: Path, points: seq<Path>)
    requires Halted(s, t, sm, row, eu, points)
    ensures forall q | eu <= q :: q !in t
  {
  }

  /** A change to an environment's row touches no deployment unit's row. */
  lemma EnvLeavesRows(s: Store, t: Store, rule: Rule, sm: Path, reg: Inventory, models: Models, row: Path, ee: Path,
                      id: string)
    requires Agree(s, rule, sm, reg, models) && SameOutside(s, t, ee) && sm + [EE] <= ee
    requires Identified(s, rule, sm, row, id) && NoneHas(s, reg, id)
    ensures Identified(t, rule, sm, row, id) && NoneHas(t, reg, id)
  {
    hide WellFormed, InSync, Separate, DistinctUuids, TextRows, RowsTakeText, Entry;
    PrefixAt(sm + [EE], ee, |sm|);
    RowInFacts(s, sm, DU, row);
    forall q | |q| > |sm| && q[|sm|] == DU
      ensures Same(s, t, q)
    {
      PrefixAt(ee, q, |sm|);
    }
    assert (sm + [DU])[|sm|] == DU;
    forall r | r in reg
      ensures Text(t, r + ["UUID"]) == Text(s, r + ["UUID"])
    {
      EntryIsBelow(s, sm, r, reg[r], models[r]);
      EntryRowIn(s, sm, r, reg[r], models[r]);
      RowInFacts(s, sm, DU, r);
    }
    SameTextsNoneHas(s, t, reg);
  }

  lemma EntryRowIn(s: Store, sm: Path, r: Path, inst: Installation, model: Store)
    requires Entry(s, sm, r, inst, model)
    ensures RowIn(s, sm, DU, r)
  {
  }

  /** Ceasing leaves the deployment unit's row as it was. */
  lemma RowCeased(s: Store, t: Store, rule: Rule, sm: Path, row: Path, eu: Path, points: seq<Path>)
    requires RowIn(s, sm, DU, row) && Ceased(s, t, sm, eu, points) && Beside(sm, points)
    requires |eu| == |sm| + 2 && eu[|sm|] == EU
    ensures RowWritten(s, t, rule, row, map[])
  {
    hide TextLeaf, Text;
    RowInFacts(s, sm, DU, row);
    CounterOf(sm, EU);
    forall x
      ensures Same(s, t, row + [x])
    {
      var q := row + [x];
      PrefixAt(eu, q, |sm|);
      assert |q| > |CounterPath(sm + [EU])|;
      BesideIsApart(sm, points, q);
      assert Same(Remaining(s, points), t, q);
    }
    KeptIsWritten(s, t, rule, row);
  }

  /** So does starting an execution unit. */
  lemma RowStarted(s: Store, t: Store, rule: Rule, sm: Path, model: Store, roots: seq<string>, eu: Path, row: Path)
    requires Started(s, t, sm, model, roots, eu) && |row| == |sm| + 2
    ensures RowWritten(s, t, rule, row, map[])
  {
    hide Fitted, Names, Grafted, PointsOf, Declares, AreTheFrontier, AlikeOutside, Joined, RowIn, TextLeaf;
    CounterOf(sm, EU);
    forall x | row + [x] in s
      ensures row + [x] in t && t[row + [x]] == s[row + [x]]
    {
      assert |row + [x]| > |CounterPath(sm + [EU])|;
    }
    KeptIsWritten(s, t, rule, row);
  }

  // ---------- The environments' lists ----------

  const LIST := "ActiveExecutionUnits"

  /** The execution units of an environment, by reference. */
  ghost function RefsIn(reg: Inventory, ee: Path): set<string> {
    set r | r in reg && reg[r].ee == ee :: Join(reg[r].eu)
  }

  /** Those of them that run. */
  ghost function ActiveIn(s: Store, reg: Inventory, ee: Path): set<string> {
    set r | r in reg && reg[r].ee == ee && Text(s, reg[r].eu + ["Status"]) == Some("Active") :: Join(reg[r].eu)
  }

  /** Where the inventory and the tree agree, every unit's execution unit runs; one whose
      row is gone does not. */
  lemma AllActive(s: Store, rule: Rule, sm: Path, reg: Inventory, models: Models, more: Inventory, ee: Path)
    requires Agree(s, rule, sm, reg, models) && forall r | r in reg :: r in more && more[r] == reg[r]
    requires forall r | r in more && r !in reg :: more[r].eu + ["Status"] !in s
    ensures ActiveIn(s, more, ee) == RefsIn(reg, ee)
  {
    hide WellFormed, InSync, Separate, DistinctUuids, TextRows, RowsTakeText, Fitted, Names, Declares, PointsOf, Join;
    forall r | r in reg
      ensures Text(s, reg[r].eu + ["Status"]) == Some("Active")
    {
      assert Entry(s, sm, r, reg[r], models[r]);
    }
    forall x
      ensures x in ActiveIn(s, more, ee) <==> x in RefsIn(reg, ee)
    {
      if x in RefsIn(reg, ee) {
        var r :| r in reg && reg[r].ee == ee && x == Join(reg[r].eu);
        assert r in more;
      }
    }
  }

  /** The environment's list, where it takes any text, names exactly its units. */
  ghost predicate ListsUnits(s: Store, rule: Rule, reg: Inventory, ee: Path, render: set<string> -> string) {
    TextLeaf(s, rule, ee + [LIST]) ==> Text(s, ee + [LIST]) == Some(render(RefsIn(reg, ee)))
  }

  lemma ListIsWritten(s: Store, t: Store, rule: Rule, reg: Inventory, ee: Path, render: set<string> -> string)
    requires LeavesSet(s, t, rule, ee, map[LIST := render(RefsIn(reg, ee))])
    ensures ListsUnits(t, rule, reg, ee, render)
  {
  }

  /** The environments' rows are as they were. */
  ghost predicate EnvsKept(s: Store, t: Store, sm: Path) {
    forall q | sm + [EE] <= q :: Same(s, t, q)
  }

  lemma HaltedEnvs(s: Store, t: Store, sm: Path, row: Path, eu: Path, points: seq<Path>)
    requires Halted(s, t, sm, row, eu, points) && Beside(sm, points) && RowIn(s, sm, DU, row) && RowIn(s, sm, EU, eu)
    ensures EnvsKept(s, t, sm)
  {
    RowInFacts(s, sm, DU, row);
    RowInFacts(s, sm, EU, eu);
    CounterOf(sm, EU);
    assert (sm + [EE])[|sm|] == EE && CounterPath(sm + [EU])[|sm|] == EU + "NumberOfEntries";
    forall q | sm + [EE] <= q
      ensures Same(s, t, q)
    {
      PrefixAt(sm + [EE], q, |sm|);
      PrefixAt(row, q, |sm|);
      PrefixAt(eu, q, |sm|);
      assert sm <= q;
      BesideIsApart(sm, points, q);
      assert Same(Remaining(s, points), t, q);
    }
  }

  lemma RowDeletedEnvs(s: Store, sm: Path, k: string)
    ensures EnvsKept(s, RowDeleted(s, sm + [DU], k), sm)
  {
    hide RowDeleted;
    RowDeletedElsewhere(s, sm + [DU], k);
    CounterOf(sm, DU);
    assert (sm + [EE])[|sm|] == EE && CounterPath(sm + [DU])[|sm|] == DU + "NumberOfEntries";
    forall q | sm + [EE] <= q
      ensures Same(s, RowDeleted(s, sm + [DU], k), q)
    {
      PrefixAt(sm + [EE], q, |sm|);
      PrefixAt(sm + [DU] + [k], q, |sm|);
    }
  }

  lemma ListKept(s: Store, t: Store, rule: Rule, sm: Path, reg: Inventory, ee: Path, render: set<string> -> string)
    requires ListsUnits(s, rule, reg, ee, render) && EnvsKept(s, t, sm) && sm + [EE] <= ee
    ensures ListsUnits(t, rule, reg, ee, render)
  {
    assert sm + [EE] <= ee + [LIST];
    assert Same(s, t, ee + [LIST]);
  }

  // ---------- An object that two apps share ----------

  const BARE: Store := map[[] := Cell(None, None, false)]

  /** The first app brings the object V with a leaf of its own, the second puts a leaf in it. */
  const FIRST: Store := map[[] := Cell(None, None, false), ["V"] := Cell(None, None, false),
                            ["V", "A"] := Cell(Some(Value("string", "", false)), None, false)]
  const SECOND: Store := map[[] := Cell(None, None, false), ["V"] := Cell(None, None, false),
                             ["V", "B"] := Cell(Some(Value("string", "", false)), None, false)]

  lemma SharedIsWellFormed()
    ensures WellFormed(BARE) && WellFormed(FIRST) && WellFormed(SECOND) && Plain(["V", "A"]) && Plain(["V", "B"])
    ensures Parent(["V"]) == [] && Parent(["V", "A"]) == ["V"] && Parent(["V", "B"]) == ["V"]
  {
    assert Parent(["V"]) == [] && Parent(["V", "A"]) == ["V"] && Parent(["V", "B"]) == ["V"];
    assert Segment("V") && Segment("A") && Segment("B");
  }

  lemma FirstIsGrafted()
    ensures !Clash(BARE, FIRST) && AreTheFrontier(BARE, FIRST, [["V"]]) && Grafted(BARE, FIRST) == FIRST
  {
    hide Grafted, Frontier, ClashAt;
    forall p
      ensures (Frontier(BARE, FIRST, p) <==> p == ["V"]) && !ClashAt(BARE, FIRST, p)
    {
      FirstMeets(p);
    }
    FirstAdds();
  }

  lemma FirstMeets(p: Path)
    ensures (Frontier(BARE, FIRST, p) <==> p == ["V"]) && !ClashAt(BARE, FIRST, p)
  {
    hide WellFormed, Plain;
    SharedIsWellFormed();
    PlainPrefix(["V", "A"], 1);
    assert ["V", "A"][..1] == ["V"];
    if p in FIRST {
      assert p == [] || p == ["V"] || p == ["V", "A"];
    }
  }

  lemma PlainPrefix(p: Path, n: nat)
    requires Plain(p) && n <= |p|
    ensures Plain(p[..n])
  {
  }

  lemma FirstAdds()
    ensures Grafted(BARE, FIRST) == FIRST
  {
    hide WellFormed, Plain, Trunk;
    SharedIsWellFormed();
    PlainPrefix(["V", "A"], 1);
    assert ["V", "A"][..1] == ["V"];
    PlainIsTrunk(["V"]);
    PlainIsTrunk(["V", "A"]);
    TrunkIsPrefix([]);
    assert forall q :: q in FIRST <==> q == [] || q == ["V"] || q == ["V", "A"];
    assert Grafted(BARE, FIRST).Keys == FIRST.Keys;
  }

  lemma SecondIsGrafted()
    ensures !Clash(FIRST, SECOND) && AreTheFrontier(FIRST, SECOND, [["V", "B"]])
    ensures ["V", "B"] in Grafted(FIRST, SECOND)
  {
    hide Grafted, Frontier, ClashAt;
    forall p
      ensures (Frontier(FIRST, SECOND, p) <==> p == ["V", "B"]) && !ClashAt(FIRST, SECOND, p)
    {
      SecondMeets(p);
    }
    SecondAdds();
  }

  lemma SecondMeets(p: Path)
    ensures (Frontier(FIRST, SECOND, p) <==> p == ["V", "B"]) && !ClashAt(FIRST, SECOND, p)
  {
    hide WellFormed;
    SharedIsWellFormed();
    if p in SECOND {
      assert p == [] || p == ["V"] || p == ["V", "B"];
    }
  }

  lemma SecondAdds()
    ensures ["V", "B"] in Grafted(FIRST, SECOND)
  {
    var q := ["V", "B"];
    TrunkIsPrefix(q);
    assert TEMPLATE !in q;
    assert Trunk(q) == q && q in SECOND && q !in FIRST;
  }

  /** With both grafted, taking out what the first brought takes the second one's leaf along. */
  lemma SharedObjectIsLost()
    ensures AreTheFrontier(BARE, FIRST, [["V"]]) && AreTheFrontier(Grafted(BARE, FIRST), SECOND, [["V", "B"]])
    ensures var both := Grafted(Grafted(BARE, FIRST), SECOND);
      ["V", "B"] in both && ["V", "B"] !in Remaining(both, [["V"]])
  {
    hide Grafted, AreTheFrontier;
    FirstIsGrafted();
    SecondIsGrafted();
    assert [["V"]][0] <= ["V", "B"];
  }

  // ---------- The version a row shows ----------

  /** With these values written, the row shows the version. */
  ghost predicate GivesVersion(s: Store, row: Path, values: map<string, string>, version: string) {
    if "Version" in values then values["Version"] == version else Text(s, row + ["Version"]) == Some(version)
  }

  lemma VersionShown(s: Store, t: Store, u: Store, rule: Rule, row: Path, values: map<string, string>, version: string)
    requires RowTakesText(s, rule, row) && GivesVersion(s, row, values, version)
    requires RowWritten(s, t, rule, row, map[]) && RowWritten(t, u, rule, row, values)
    ensures Text(u, row + ["Version"]) == Some(version)
  {
    hide TextLeaf, Text;
    WrittenTrans(s, t, u, rule, row, map[], values);
    assert map[] + values == values;
  }

  lemma VersionStays(s: Store, t: Store, rule: Rule, row: Path, values: map<string, string>)
    requires RowTakesText(s, rule, row) && RowWritten(s, t, rule, row, values) && "Version" !in values
    ensures Text(t, row + ["Version"]) == Text(s, row + ["Version"])
  {
    hide TextLeaf, Text;
  }
}
