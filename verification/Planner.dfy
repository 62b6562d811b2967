/** Inspection and planning: what an action will do to the files, and what the receipt remembers of them. */
module Planner {
  import opened Values
  import opened Files
  import opened HostConfig
  import opened Transaction

  datatype Asset = Asset(key: UnitKey, source: string, value: Content)

  datatype Manifest = Manifest(checksum: string, assets: seq<Asset>)

  datatype InspectedUnit = InspectedUnit(
    key: UnitKey,
    desired: Option<Asset>,
    current: Option<Content>,
    container: Option<Content>,
    receipt: Option<ReceiptEntry>)

  datatype Action = Install | Update | Uninstall

  /** The machine state handed to the planner; `stored` is the receipt file. */
  datatype Snapshot = Snapshot(
    pending: bool,
    stored: Option<Content>,
    receipt: Option<Receipt>,
    manifest: Option<Manifest>,
    units: seq<InspectedUnit>)

  datatype Reason = UnownedExisting | ModifiedOwned

  datatype Conflict = Conflict(key: UnitKey, reason: Reason)

  /** Content mutations come first and the receipt last; their own order does not matter. */
  datatype Plan = Plan(content: seq<Mutation>, receipt: seq<Mutation>, conflicts: seq<Conflict>,
                       approved: set<UnitKey>)
  {
    function Mutations(): seq<Mutation> {
      content + receipt
    }
  }

  // ---------------------------------------------------------------- reading units

  function ReadState(container: Option<Content>, part: Unit): Result<Option<Content>, string> {
    if part.WholeFile? then Ok(container)
    else if container.None? then Ok(None)
    else if !container.value.Document? || !container.value.root.Object? then
      Err("Host configuration must be a JSON object.")
    else
      var read := ReadUnit(container.value.root, part);
      if read.Err? then Err(read.error)
      else if read.value.None? then Ok(None)
      else Ok(Some(Document(read.value.value)))
  }

  function ReadKey(files: Files, key: UnitKey): Result<Option<Content>, string> {
    ReadState(Lookup(files, key.path), key.part)
  }

  function FindAsset(assets: seq<Asset>, key: UnitKey): Option<Asset> {
    if assets == [] then None
    else if assets[0].key == key then Some(assets[0])
    else FindAsset(assets[1..], key)
  }

  function FindReceipt(receipt: Option<Receipt>, key: UnitKey): Option<ReceiptEntry> {
    if receipt.Some? && key in receipt.value.entries then Some(receipt.value.entries[key]) else None
  }

  function ParseReceipt(stored: Option<Content>): Result<Option<Receipt>, string> {
    if stored.None? then Ok(None)
    else if stored.value.Ledger? then Ok(Some(stored.value.receipt))
    else Err("Installation receipt is not valid JSON.")
  }

  function AssetsOf(manifest: Option<Manifest>): seq<Asset> {
    if manifest.Some? then manifest.value.assets else []
  }

  ghost predicate DistinctUnits(units: seq<InspectedUnit>) {
    forall i, j :: 0 <= i < j < |units| ==> units[i].key != units[j].key
  }

  ghost predicate Listed(units: seq<InspectedUnit>, key: UnitKey) {
    exists i :: 0 <= i < |units| && units[i].key == key
  }

  ghost predicate InspectedAt(files: Files, assets: seq<Asset>, receipt: Option<Receipt>, u: InspectedUnit) {
    && u.desired == FindAsset(assets, u.key)
    && u.receipt == FindReceipt(receipt, u.key)
    && u.container == Lookup(files, u.key.path)
    && ReadKey(files, u.key) == Ok(u.current)
  }

  /** One unit for every key the manifest or the receipt names, as the files hold it. */
  ghost predicate IsInspection(files: Files, assets: seq<Asset>, receipt: Option<Receipt>, units: seq<InspectedUnit>) {
    && DistinctUnits(units)
    && (forall i :: 0 <= i < |units| ==> InspectedAt(files, assets, receipt, units[i]))
    && (forall key :: Listed(units, key) <==> FindAsset(assets, key).Some? || FindReceipt(receipt, key).Some?)
  }

  ghost predicate IsSnapshot(files: Files, receiptPath: Path, manifest: Option<Manifest>, snapshot: Snapshot) {
    && snapshot.stored == Lookup(files, receiptPath)
    && ParseReceipt(snapshot.stored) == Ok(snapshot.receipt)
    && snapshot.manifest == manifest
    && (manifest.None? ==> snapshot.receipt.Some?)
    && IsInspection(files, AssetsOf(manifest), snapshot.receipt, snapshot.units)
  }

  lemma {:induction false} FindAssetIs(assets: seq<Asset>, i: nat)
    requires i < |assets| && forall j :: 0 <= j < i ==> assets[j].key != assets[i].key
    ensures FindAsset(assets, assets[i].key) == Some(assets[i])
  {
    if i > 0 {
      FindAssetIs(assets[1..], i - 1);
    }
  }

  lemma {:induction false} FindAssetNone(assets: seq<Asset>, key: UnitKey)
    ensures FindAsset(assets, key).None? <==> forall j :: 0 <= j < |assets| ==> assets[j].key != key
    ensures FindAsset(assets, key).Some? ==>
              FindAsset(assets, key).value in assets && FindAsset(assets, key).value.key == key
  {
    if assets != [] {
      FindAssetNone(assets[1..], key);
    }
  }

  /** Units inspected so far, and the keys already seen. */
  ghost predicate Inspected(files: Files, assets: seq<Asset>, receipt: Option<Receipt>,
                            units: seq<InspectedUnit>, keys: set<UnitKey>) {
    && DistinctUnits(units)
    && (forall key :: key in keys <==> Listed(units, key))
    && (forall i :: 0 <= i < |units| ==> InspectedAt(files, assets, receipt, units[i]))
  }

  lemma InspectedMore(files: Files, assets: seq<Asset>, receipt: Option<Receipt>,
                      units: seq<InspectedUnit>, keys: set<UnitKey>, u: InspectedUnit)
    requires Inspected(files, assets, receipt, units, keys)
    requires u.key !in keys && InspectedAt(files, assets, receipt, u)
    ensures Inspected(files, assets, receipt, units + [u], keys + {u.key})
  {
    var more := units + [u];
    forall key ensures key in keys + {u.key} <==> Listed(more, key) {
      if Listed(units, key) {
        var k :| 0 <= k < |units| && units[k].key == key;
        assert more[k].key == key;
      }
      assert more[|units|].key == u.key;
      if Listed(more, key) && key != u.key {
        var k :| 0 <= k < |more| && more[k].key == key;
        assert units[k].key == key;
      }
    }
    forall i, j | 0 <= i < j < |more| ensures more[i].key != more[j].key {
      assert Listed(units, units[i].key);
    }
  }

  predicate Readable(files: Files, key: UnitKey) {
    ReadKey(files, key).Ok?
  }

  predicate ReadableAssets(files: Files, assets: seq<Asset>) {
    DistinctAssets(assets, |assets|) && forall i :: 0 <= i < |assets| ==> Readable(files, assets[i].key)
  }

  predicate DistinctAssets(assets: seq<Asset>, n: nat)
    requires n <= |assets|
  {
    forall i, j :: 0 <= i < j < n ==> assets[i].key != assets[j].key
  }

  method InspectAssets(files: Files, assets: seq<Asset>, receipt: Option<Receipt>)
    returns (result: Result<(seq<InspectedUnit>, set<UnitKey>), string>)
    ensures result.Ok? <==> ReadableAssets(files, assets)
    ensures result.Ok? ==> Inspected(files, assets, receipt, result.value.0, result.value.1)
    ensures result.Ok? ==> forall key :: key in result.value.1 <==> FindAsset(assets, key).Some?
  {
    var units: seq<InspectedUnit> := [];
    var keys: set<UnitKey> := {};
    for i := 0 to |assets|
      invariant Inspected(files, assets, receipt, units, keys)
      invariant KeysSeen(assets, i, keys) && DistinctAssets(assets, i)
      invariant forall k :: 0 <= k < i ==> Readable(files, assets[k].key)
    {
      var key := assets[i].key;
      var current := ReadKey(files, key);
      NextAsset(assets, i, keys);
      if key in keys {
        return Err("Installation units must be unique.");
      }
      if current.Err? {
        return Err(current.error);
      }
      var u := InspectedUnit(key, Some(assets[i]), current.value, Lookup(files, key.path), FindReceipt(receipt, key));
      InspectedMore(files, assets, receipt, units, keys, u);
      units, keys := units + [u], keys + {key};
    }
    forall key ensures key in keys <==> FindAsset(assets, key).Some? {
      FindAssetNone(assets, key);
    }
    result := Ok((units, keys));
  }

  ghost predicate KeysSeen(assets: seq<Asset>, n: nat, keys: set<UnitKey>)
    requires n <= |assets|
  {
    forall key :: key in keys <==> exists k :: 0 <= k < n && assets[k].key == key
  }

  lemma NextAsset(assets: seq<Asset>, i: nat, keys: set<UnitKey>)
    requires i < |assets| && KeysSeen(assets, i, keys) && DistinctAssets(assets, i)
    ensures KeysSeen(assets, i + 1, keys + {assets[i].key})
    ensures if assets[i].key in keys then !DistinctAssets(assets, |assets|) else DistinctAssets(assets, i + 1)
    ensures assets[i].key !in keys ==> FindAsset(assets, assets[i].key) == Some(assets[i])
  {
    forall key ensures key in keys + {assets[i].key} <==> exists k :: 0 <= k < i + 1 && assets[k].key == key {
      SeenMore(assets, i, key);
    }
    if assets[i].key in keys {
      var k :| 0 <= k < i && assets[k].key == assets[i].key;
      assert !DistinctAssets(assets, |assets|);
    } else {
      assert forall k :: 0 <= k < i ==> assets[k].key in keys;
      FindAssetIs(assets, i);
    }
  }

  lemma SeenMore(assets: seq<Asset>, i: nat, key: UnitKey)
    requires i < |assets|
    ensures (exists k :: 0 <= k < i + 1 && assets[k].key == key)
            <==> key == assets[i].key || exists k :: 0 <= k < i && assets[k].key == key
  {
    if key == assets[i].key {
      assert 0 <= i < i + 1 && assets[i].key == key;
    }
  }

  method InspectOwned(files: Files, assets: seq<Asset>, receipt: Option<Receipt>,
                      wanted: seq<InspectedUnit>, desiredKeys: set<UnitKey>)
    returns (result: Result<seq<InspectedUnit>, string>)
    requires Inspected(files, assets, receipt, wanted, desiredKeys)
    requires forall key :: key in desiredKeys <==> FindAsset(assets, key).Some?
    ensures result.Ok? <==> forall key :: key in OwnedKeys(receipt) - desiredKeys ==> Readable(files, key)
    ensures result.Ok? ==> Inspected(files, assets, receipt, result.value, desiredKeys + OwnedKeys(receipt))
  {
    var units, keys := wanted, desiredKeys;
    var owned := OwnedKeys(receipt) - desiredKeys;
    while owned != {}
      invariant Inspected(files, assets, receipt, units, keys)
      invariant OwnedLeft(receipt, desiredKeys, keys, owned)
      invariant forall key :: key in OwnedKeys(receipt) - desiredKeys && key !in owned ==> Readable(files, key)
      decreases owned
    {
      var key :| key in owned;
      var current := ReadKey(files, key);
      if current.Err? {
        assert !Readable(files, key);
        return Err(current.error);
      }
      var u := InspectedUnit(key, None, current.value, Lookup(files, key.path), FindReceipt(receipt, key));
      InspectedMore(files, assets, receipt, units, keys, u);
      units, keys, owned := units + [u], keys + {key}, owned - {key};
    }
    assert keys == desiredKeys + OwnedKeys(receipt);
    result := Ok(units);
  }

  /** The owned keys no longer desired are seen, but for those left. */
  ghost predicate OwnedLeft(receipt: Option<Receipt>, desiredKeys: set<UnitKey>, keys: set<UnitKey>,
                            owned: set<UnitKey>)
  {
    && owned <= OwnedKeys(receipt) - desiredKeys
    && forall key :: key in keys <==> (key in desiredKeys || key in OwnedKeys(receipt)) && key !in owned
  }

  function OwnedKeys(receipt: Option<Receipt>): set<UnitKey> {
    if receipt.Some? then receipt.value.entries.Keys else {}
  }

  /** The receipt parses, the manifest names no unit twice, and every unit can be read. */
  ghost predicate Inspectable(files: Files, receiptPath: Path, manifest: Option<Manifest>) {
    var parsed := ParseReceipt(Lookup(files, receiptPath));
    && parsed.Ok? && (manifest.Some? || parsed.value.Some?)
    && ReadableAssets(files, AssetsOf(manifest))
    && forall key :: key in OwnedKeys(parsed.value) ==> Readable(files, key)
  }

  lemma AssetsAreReadable(files: Files, assets: seq<Asset>, key: UnitKey)
    requires ReadableAssets(files, assets) && FindAsset(assets, key).Some?
    ensures Readable(files, key)
  {
    FindAssetNone(assets, key);
  }

  /** Reads every unit the manifest wants or the receipt owns; a manifest is absent for uninstall. */
  method InspectInstallation(files: Files, receiptPath: Path, manifest: Option<Manifest>, pending: bool)
    returns (result: Result<Snapshot, string>)
    ensures result.Ok? <==> Inspectable(files, receiptPath, manifest)
    ensures result.Ok? ==> IsSnapshot(files, receiptPath, manifest, result.value) && result.value.pending == pending
    ensures result.Ok? ==> Covers(manifest, result.value.receipt, result.value.units)
  {
    var stored := Lookup(files, receiptPath);
    var parsed := ParseReceipt(stored);
    if parsed.Err? {
      return Err(parsed.error);
    }
    if manifest.None? && parsed.value.None? {
      return Err("Installation receipt does not exist.");
    }
    var wanted := InspectAssets(files, AssetsOf(manifest), parsed.value);
    if wanted.Err? {
      return Err(wanted.error);
    }
    var units := InspectOwned(files, AssetsOf(manifest), parsed.value, wanted.value.0, wanted.value.1);
    if units.Err? {
      return Err(units.error);
    }
    forall key | key in OwnedKeys(parsed.value) ensures Readable(files, key) {
      if key in wanted.value.1 {
        AssetsAreReadable(files, AssetsOf(manifest), key);
      }
    }
    result := Ok(Snapshot(pending, stored, parsed.value, manifest, units.value));
    InspectionCovers(files, receiptPath, manifest, result.value);
  }

  /** Every asset of the manifest is there to be installed, every owned unit with what the receipt says of it. */
  ghost predicate Covers(manifest: Option<Manifest>, receipt: Option<Receipt>, units: seq<InspectedUnit>) {
    && (forall u :: u in units && u.desired.Some? ==> manifest.Some? && u.desired.value in manifest.value.assets)
    && (manifest.Some? ==> forall a :: a in manifest.value.assets ==>
          exists u :: u in units && u.key == a.key && u.desired == Some(a))
    && (receipt.Some? ==> forall key :: key in receipt.value.entries ==>
          exists u :: u in units && u.key == key && u.receipt == Some(receipt.value.entries[key]))
  }

  lemma InspectionCovers(files: Files, receiptPath: Path, manifest: Option<Manifest>, snapshot: Snapshot)
    requires IsSnapshot(files, receiptPath, manifest, snapshot) && ReadableAssets(files, AssetsOf(manifest))
    ensures Covers(manifest, snapshot.receipt, snapshot.units)
  {
    var units, assets := snapshot.units, AssetsOf(manifest);
    forall u | u in units && u.desired.Some? ensures u.desired.value in assets {
      var i :| 0 <= i < |units| && units[i] == u;
      FindAssetNone(assets, u.key);
    }
    forall a | a in assets ensures exists u :: u in units && u.key == a.key && u.desired == Some(a) {
      var i :| 0 <= i < |assets| && assets[i] == a;
      FindAssetIs(assets, i);
      var k := ListedUnit(units, a.key);
      assert units[k] in units;
    }
    if snapshot.receipt.Some? {
      var entries := snapshot.receipt.value.entries;
      forall key | key in entries ensures exists u :: u in units && u.key == key && u.receipt == Some(entries[key]) {
        assert FindReceipt(snapshot.receipt, key).Some?;
        var k := ListedUnit(units, key);
        assert units[k] in units;
      }
    }
  }

  lemma ListedUnit(units: seq<InspectedUnit>, key: UnitKey) returns (k: nat)
    requires Listed(units, key)
    ensures k < |units| && units[k].key == key
  {
    k :| 0 <= k < |units| && units[k].key == key;
  }

  // ---------------------------------------------------------------- what a plan intends

  predicate KeepDesired(u: InspectedUnit, action: Action) {
    !action.Uninstall? && u.desired.Some?
  }

  /** The original state a receipt recorded; absent when the unit was never owned. */
  function PreviousState(receipt: Option<ReceiptEntry>): Option<Content> {
    if receipt.None? then None else receipt.value.previous
  }

  function NextState(u: InspectedUnit, action: Action): Option<Content> {
    if KeepDesired(u, action) then Some(u.desired.value.value) else PreviousState(u.receipt)
  }

  /** An install or update gives a wanted unit its asset; everything else goes back to what was there before. */
  lemma NextStateIs(u: InspectedUnit, action: Action)
    ensures NextState(u, action) ==
            match (action, u.desired, u.receipt)
            case (Install, Some(asset), _) => Some(asset.value)
            case (Update, Some(asset), _) => Some(asset.value)
            case (_, _, Some(entry)) => entry.previous
            case (_, _, None) => None
  {
  }

  function NextReceiptEntry(u: InspectedUnit): ReceiptEntry
    requires u.desired.Some?
  {
    ReceiptEntry(u.desired.value.source, Sha256(u.desired.value.value),
                 if u.receipt.Some? then u.receipt.value.previous else u.current)
  }

  function NextEntries(units: seq<InspectedUnit>, action: Action): map<UnitKey, ReceiptEntry> {
    if units == [] then map[]
    else
      var u := units[|units| - 1];
      var earlier := NextEntries(units[..|units| - 1], action);
      if KeepDesired(u, action) then earlier[u.key := NextReceiptEntry(u)] else earlier
  }

  function ClassifyConflict(u: InspectedUnit): Option<Conflict> {
    if u.receipt.None? then
      if u.current.Some? then Some(Conflict(u.key, UnownedExisting)) else None
    else if u.current.Some? && Sha256(u.current.value) == u.receipt.value.checksum then None
    else Some(Conflict(u.key, ModifiedOwned))
  }

  function Conflicts(units: seq<InspectedUnit>): seq<Conflict> {
    if units == [] then []
    else
      var last := ClassifyConflict(units[|units| - 1]);
      Conflicts(units[..|units| - 1]) + if last.Some? then [last.value] else []
  }

  /** The unit is not as the receipt left it: there without an entry, or not what its checksum was taken of. */
  ghost predicate Deviates(u: InspectedUnit) {
    match u.receipt
    case None => u.current.Some?
    case Some(entry) => u.current.None? || u.current.value != entry.checksum.preimage
  }

  /** Every deviation is reported with its reason, nothing else is, and no key twice. */
  ghost predicate ReportsDeviations(units: seq<InspectedUnit>, conflicts: seq<Conflict>) {
    && (forall i :: 0 <= i < |units| && Deviates(units[i]) ==> DeviationOf(units[i]) in conflicts)
    && (forall c :: c in conflicts ==> exists i :: 0 <= i < |units| && Deviates(units[i]) && c == DeviationOf(units[i]))
    && (DistinctUnits(units) ==> forall i, j :: 0 <= i < j < |conflicts| ==> conflicts[i].key != conflicts[j].key)
  }

  ghost function DeviationOf(u: InspectedUnit): Conflict {
    Conflict(u.key, match u.receipt case None => UnownedExisting case Some(_) => ModifiedOwned)
  }

  lemma {:induction false} ConflictsAreDeviations(units: seq<InspectedUnit>)
    ensures ReportsDeviations(units, Conflicts(units))
  {
    if units != [] {
      var n := |units| - 1;
      ConflictsAreDeviations(units[..n]);
      OneMoreDeviation(units, Conflicts(units[..n]));
    }
  }

  lemma OneMoreDeviation(units: seq<InspectedUnit>, earlier: seq<Conflict>)
    requires units != [] && ReportsDeviations(units[..|units| - 1], earlier)
    ensures var last := ClassifyConflict(units[|units| - 1]);
            ReportsDeviations(units, earlier + if last.Some? then [last.value] else [])
  {
    var n := |units| - 1;
    var init, u, last := units[..n], units[n], ClassifyConflict(units[n]);
    assert last == if Deviates(u) then Some(DeviationOf(u)) else None;
    var more := earlier + if last.Some? then [last.value] else [];
    forall i | 0 <= i < |units| && Deviates(units[i]) ensures DeviationOf(units[i]) in more {
      assert i < n ==> init[i] == units[i];
    }
    forall c | c in more ensures exists i :: 0 <= i < |units| && Deviates(units[i]) && c == DeviationOf(units[i]) {
      if c in earlier {
        var i :| 0 <= i < n && Deviates(init[i]) && c == DeviationOf(init[i]);
        assert units[i] == init[i];
      } else {
        assert c == DeviationOf(units[n]);
      }
    }
    if DistinctUnits(units) {
      forall c | c in earlier ensures c.key != u.key {
        var i :| 0 <= i < n && Deviates(init[i]) && c == DeviationOf(init[i]);
        assert units[i].key != units[n].key;
      }
    }
  }

  function Expect(container: Option<Content>): Expected {
    if container.Some? then Matching(Sha256(container.value)) else Missing
  }

  function Group(units: seq<InspectedUnit>, path: Path): seq<InspectedUnit> {
    if units == [] then []
    else
      var u := units[|units| - 1];
      Group(units[..|units| - 1], path) + if u.key.path == path then [u] else []
  }

  function ChangeOf(u: InspectedUnit, action: Action): Result<Change, string> {
    var state := NextState(u, action);
    if state.None? then Ok(Change(u.key.part, None))
    else if state.value.Document? then Ok(Change(u.key.part, Some(state.value.root)))
    else Err("Host configuration state is not a JSON value.")
  }

  function ChangesOf(group: seq<InspectedUnit>, action: Action): Result<seq<Change>, string> {
    if group == [] then Ok([])
    else
      var earlier := ChangesOf(group[..|group| - 1], action);
      var last := ChangeOf(group[|group| - 1], action);
      if earlier.Err? then earlier
      else if last.Err? then Err(last.error)
      else Ok(earlier.value + [last.value])
  }

  function RootOf(container: Option<Content>): Result<Option<Json>, string> {
    if container.None? then Ok(None)
    else if container.value.Document? then Ok(Some(container.value.root))
    else Err("Host configuration must be a JSON object.")
  }

  /** The content one containing file must end with. */
  ghost function Target(group: seq<InspectedUnit>, action: Action): Result<Option<Content>, string>
    requires group != []
  {
    if exists i :: 0 <= i < |group| && group[i].key.part.WholeFile? then
      if |group| == 1 then Ok(NextState(group[0], action))
      else Err("A file target cannot also contain host configuration units.")
    else
      var root, changes := RootOf(group[0].container), ChangesOf(group, action);
      if root.Err? then Err(root.error)
      else if changes.Err? then Err(changes.error)
      else if Base(root.value).Err? then Err(Base(root.value).error)
      else
        var written := WriteUnits(Base(root.value).value, changes.value);
        if written.Err? then Err(written.error) else Ok(Some(Document(written.value)))
  }

  ghost predicate Consistent(group: seq<InspectedUnit>) {
    forall i :: 0 <= i < |group| ==> group[i].container == group[0].container
  }

  ghost predicate IsMutation(m: Mutation, before: Option<Content>, after: Option<Content>) {
    && m.before == Expect(before)
    && Outcome(m) == after != before
    && (m.WriteFile? ==> m.checksum == Sha256(m.content))
  }

  /** One mutation for exactly the files whose target differs from what they hold. */
  ghost predicate IsContent(units: seq<InspectedUnit>, action: Action, content: seq<Mutation>) {
    && ValidPlan(content)
    && (forall i :: 0 <= i < |content| ==> Planned(units, action, content[i]))
    && (forall path :: Group(units, path) != [] ==> Covered(units, action, content, path))
  }

  ghost predicate Planned(units: seq<InspectedUnit>, action: Action, m: Mutation) {
    var group := Group(units, m.path);
    && group != [] && Plannable(group, action)
    && IsMutation(m, group[0].container, Target(group, action).value)
  }

  ghost predicate Covered(units: seq<InspectedUnit>, action: Action, content: seq<Mutation>, path: Path) {
    var group := Group(units, path);
    && group != [] && Plannable(group, action)
    && (Touches(content, path) || Target(group, action).value == group[0].container)
  }

  ghost predicate Plannable(group: seq<InspectedUnit>, action: Action)
    requires group != []
  {
    Consistent(group) && Target(group, action).Ok?
  }

  ghost predicate IsPlan(snapshot: Snapshot, receiptPath: Path, action: Action, plan: Plan) {
    && IsContent(snapshot.units, action, plan.content)
    && plan.conflicts == Conflicts(snapshot.units) && plan.approved == {}
    && var stored := NextStored(snapshot, action);
       if stored == snapshot.stored then plan.receipt == []
       else
         && |plan.receipt| == 1 && plan.receipt[0].path == receiptPath
         && IsMutation(plan.receipt[0], snapshot.stored, stored)
  }

  /** The receipt file after the plan: gone after an uninstall. */
  function NextStored(snapshot: Snapshot, action: Action): Option<Content> {
    if action.Uninstall? || snapshot.manifest.None? then None
    else Some(Ledger(Receipt(snapshot.manifest.value.checksum, NextEntries(snapshot.units, action))))
  }

  // ---------------------------------------------------------------- planning

  function MakeMutation(path: Path, before: Option<Content>, after: Option<Content>): Mutation {
    if after.Some? then WriteFile(path, Expect(before), after.value, Sha256(after.value))
    else RemoveFile(path, Expect(before))
  }

  /** The target content of one containing file. */
  method ContentFor(group: seq<InspectedUnit>, action: Action) returns (target: Result<Option<Content>, string>)
    requires group != []
    ensures target.Ok? <==> Plannable(group, action)
    ensures target.Ok? ==> target == Target(group, action)
  {
    var container := group[0].container;
    var files := 0;
    for i := 0 to |group|
      invariant forall k :: 0 <= k < i ==> group[k].container == container
      invariant files > 0 <==> exists k :: 0 <= k < i && group[k].key.part.WholeFile?
    {
      if group[i].container != container {
        return Err("Units for one path have inconsistent snapshots.");
      }
      if group[i].key.part.WholeFile? {
        files := files + 1;
      }
    }
    if files > 0 {
      if |group| != 1 {
        return Err("A file target cannot also contain host configuration units.");
      }
      return Ok(NextState(group[0], action));
    }
    var root, changes := RootOf(container), ChangesOf(group, action);
    if root.Err? {
      return Err(root.error);
    }
    if changes.Err? {
      return Err(changes.error);
    }
    var output := ApplyHostUnitStates(root.value, changes.value);
    target := if output.Ok? then Ok(Some(Document(output.value))) else Err(output.error);
  }

  method GroupByPath(units: seq<InspectedUnit>) returns (groups: map<Path, seq<InspectedUnit>>)
    ensures forall path :: path in groups <==> Group(units, path) != []
    ensures forall path :: path in groups ==> groups[path] == Group(units, path)
  {
    groups := map[];
    for i := 0 to |units|
      invariant forall path :: path in groups <==> Group(units[..i], path) != []
      invariant forall path :: path in groups ==> groups[path] == Group(units[..i], path)
    {
      assert units[..i + 1][..i] == units[..i];
      var path := units[i].key.path;
      groups := groups[path := (if path in groups then groups[path] else []) + [units[i]]];
    }
    assert units[..|units|] == units;
  }

  /** The mutations collected once only `paths` are left to visit. */
  ghost predicate ContentSoFar(units: seq<InspectedUnit>, action: Action, content: seq<Mutation>, paths: set<Path>) {
    && ValidPlan(content)
    && (forall i :: 0 <= i < |content| ==> content[i].path !in paths && Planned(units, action, content[i]))
    && (forall path :: Group(units, path) != [] && path !in paths ==> Covered(units, action, content, path))
  }

  lemma ContentStep(units: seq<InspectedUnit>, action: Action, content: seq<Mutation>, paths: set<Path>,
                    path: Path, m: Mutation)
    requires ContentSoFar(units, action, content, paths) && path in paths
    requires m.path == path && Planned(units, action, m)
    ensures ContentSoFar(units, action, content + [m], paths - {path})
  {
    var more := content + [m];
    assert more[|content|] == m;
    forall p | Touches(content, p) ensures Touches(more, p) {
      var i :| 0 <= i < |content| && content[i].path == p;
      assert more[i].path == p;
    }
    forall i, j | 0 <= i < j < |more| ensures more[i].path != more[j].path {
      assert content[i].path !in paths;
    }
    forall p | Group(units, p) != [] && p !in paths - {path} ensures Covered(units, action, more, p) {
      assert p != path ==> Covered(units, action, content, p);
    }
  }

  /** Groups entry-level changes into containing-file mutations. */
  method BuildContentMutations(units: seq<InspectedUnit>, action: Action)
    returns (result: Result<seq<Mutation>, string>)
    ensures result.Ok? ==> IsContent(units, action, result.value)
    ensures result.Err? <==> exists path :: Unplannable(units, action, path)
  {
    var groups := GroupByPath(units);
    var content: seq<Mutation> := [];
    var paths := groups.Keys;
    while paths != {}
      invariant paths <= groups.Keys && ContentSoFar(units, action, content, paths)
      decreases |paths|
    {
      var path :| path in paths;
      var group := groups[path];
      var target := ContentFor(group, action);
      if target.Err? {
        assert Unplannable(units, action, path);
        return Err(target.error);
      }
      if group[0].container != target.value {
        var m := MakeMutation(path, group[0].container, target.value);
        ContentStep(units, action, content, paths, path, m);
        content := content + [m];
      } else {
        assert Covered(units, action, content, path);
      }
      paths := paths - {path};
    }
    result := Ok(content);
  }

  /** Planning one file fails: mixed targets, a pointer into the wrong kind of value, or a foreign document. */
  ghost predicate Unplannable(units: seq<InspectedUnit>, action: Action, path: Path) {
    var group := Group(units, path);
    group != [] && !Plannable(group, action)
  }

  /** Nothing is pending, and the receipt and the manifest the action needs are there. */
  predicate Startable(snapshot: Snapshot, action: Action) {
    && !snapshot.pending
    && (action.Install? || snapshot.receipt.Some?)
    && (action.Uninstall? || snapshot.manifest.Some?)
  }

  /** Plans an install, update or uninstall from a snapshot. */
  method CreateInstallationPlan(snapshot: Snapshot, receiptPath: Path, action: Action)
    returns (result: Result<Plan, string>)
    ensures result.Ok? ==> IsPlan(snapshot, receiptPath, action, result.value)
    ensures result.Ok? ==> ReportsDeviations(snapshot.units, result.value.conflicts)
    ensures result.Ok? <==> Startable(snapshot, action) && forall path :: !Unplannable(snapshot.units, action, path)
  {
    if snapshot.pending {
      return Err("A pending installer transaction must be recovered first.");
    }
    if !action.Install? && snapshot.receipt.None? {
      return Err("Update and uninstall require a receipt.");
    }
    if !action.Uninstall? && snapshot.manifest.None? {
      return Err("Install and update require a manifest.");
    }
    var conflicts: seq<Conflict> := [];
    var nextEntries: map<UnitKey, ReceiptEntry> := map[];
    for i := 0 to |snapshot.units|
      invariant conflicts == Conflicts(snapshot.units[..i])
      invariant nextEntries == NextEntries(snapshot.units[..i], action)
    {
      assert snapshot.units[..i + 1][..i] == snapshot.units[..i];
      var u := snapshot.units[i];
      var conflict := ClassifyConflict(u);
      if conflict.Some? {
        conflicts := conflicts + [conflict.value];
      }
      if KeepDesired(u, action) {
        nextEntries := nextEntries[u.key := NextReceiptEntry(u)];
      }
    }
    assert snapshot.units[..|snapshot.units|] == snapshot.units;
    var content := BuildContentMutations(snapshot.units, action);
    if content.Err? {
      return Err(content.error);
    }
    var stored: Option<Content> := if action.Uninstall? then None
      else Some(Ledger(Receipt(snapshot.manifest.value.checksum, nextEntries)));
    var receipt := if stored == snapshot.stored then [] else [MakeMutation(receiptPath, snapshot.stored, stored)];
    ConflictsAreDeviations(snapshot.units);
    result := Ok(Plan(content.value, receipt, conflicts, {}));
  }

  // ---------------------------------------------------------------- authorization

  ghost predicate IsConflict(plan: Plan, key: UnitKey) {
    exists c :: c in plan.conflicts && c.key == key
  }

  ghost predicate Authorized(plan: Plan) {
    forall key :: IsConflict(plan, key) ==> key in plan.approved
  }

  /** Approves exactly these conflicts, whatever was approved before; an unknown one is refused. */
  method AuthorizePlan(plan: Plan, approvals: set<UnitKey>) returns (result: Option<Plan>)
    ensures result.Some? <==> forall key :: key in approvals ==> IsConflict(plan, key)
    ensures result.Some? ==> result.value == plan.(approved := approvals)
  {
    var available: set<UnitKey> := {};
    for i := 0 to |plan.conflicts|
      invariant forall key :: key in available <==> exists k :: 0 <= k < i && plan.conflicts[k].key == key
    {
      available := available + {plan.conflicts[i].key};
    }
    forall key ensures key in available <==> IsConflict(plan, key) {
      if key in available {
        var k :| 0 <= k < |plan.conflicts| && plan.conflicts[k].key == key;
        assert plan.conflicts[k] in plan.conflicts;
      }
    }
    result := if approvals <= available then Some(plan.(approved := approvals)) else None;
  }

  /** Whether every conflict has been approved. */
  method AssertPlanAuthorized(plan: Plan) returns (authorized: bool)
    ensures authorized <==> Authorized(plan)
  {
    for i := 0 to |plan.conflicts|
      invariant forall k :: 0 <= k < i ==> plan.conflicts[k].key in plan.approved
    {
      if plan.conflicts[i].key !in plan.approved {
        assert plan.conflicts[i] in plan.conflicts && IsConflict(plan, plan.conflicts[i].key);
        return false;
      }
    }
    authorized := true;
  }

  /** The state a unit has if nobody but the installer has touched it. */
  ghost function Recorded(receipt: Option<ReceiptEntry>): Option<Content> {
    match receipt
    case None => None
    case Some(entry) => Some(entry.checksum.preimage)
  }

  /** What an authorized plan overrides has been approved, unit by unit; everything else is as recorded. */
  lemma OnlyApprovedDeviations(files: Files, receiptPath: Path, manifest: Option<Manifest>, snapshot: Snapshot,
                               action: Action, plan: Plan, approvals: set<UnitKey>)
    requires IsSnapshot(files, receiptPath, manifest, snapshot) && IsPlan(snapshot, receiptPath, action, plan)
    requires Authorized(plan.(approved := approvals))
    ensures forall u :: u in snapshot.units && u.key !in approvals ==> ReadKey(files, u.key) == Ok(Recorded(u.receipt))
  {
    forall c | c in Conflicts(snapshot.units) ensures c.key in approvals {
      assert IsConflict(plan.(approved := approvals), c.key);
    }
    forall u | u in snapshot.units && u.key !in approvals ensures ReadKey(files, u.key) == Ok(Recorded(u.receipt)) {
      UnapprovedIsRecorded(snapshot.units, u, approvals);
    }
  }

  lemma UnapprovedIsRecorded(units: seq<InspectedUnit>, u: InspectedUnit, approvals: set<UnitKey>)
    requires u in units && u.key !in approvals && forall c :: c in Conflicts(units) ==> c.key in approvals
    ensures u.current == Recorded(u.receipt)
  {
    ConflictsAreDeviations(units);
    var i :| 0 <= i < |units| && units[i] == u;
    assert DeviationOf(u) !in Conflicts(units);
    assert !Deviates(units[i]);
  }

  /** Without conflicts each unit is absent and unowned, or as the receipt recorded it. */
  lemma NoConflictNoDeviation(files: Files, receiptPath: Path, manifest: Option<Manifest>, snapshot: Snapshot,
                              action: Action, plan: Plan)
    requires IsSnapshot(files, receiptPath, manifest, snapshot) && IsPlan(snapshot, receiptPath, action, plan)
    requires plan.conflicts == []
    ensures forall u :: u in snapshot.units ==> ReadKey(files, u.key) == Ok(Recorded(u.receipt))
  {
    OnlyApprovedDeviations(files, receiptPath, manifest, snapshot, action, plan, {});
  }
}
