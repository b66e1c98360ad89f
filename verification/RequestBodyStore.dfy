/**
 `resolve_request_body` on mutable dictionaries: the six layers are normalised, recorded as
 snapshots, stripped of overridden aliases and merged, all in place.  The methods are proved
 to compute `RequestBody.Effective`, and the snapshots are proved to stay what they were
 when recorded.
 */
module RequestBodyStore {
  import opened Options
  import opened JsonValues
  import opened MergeEvidence
  import opened JsonStore
  import opened RequestBody
  import opened Sequences

  /** One entry of a caller's mapping; nested dictionaries belong to the caller. */
  datatype CallerEntry = CallerEntry(key: RawKey, cell: Cell)

  /** The entries hold `values`, in dictionaries that all lie in `owned`. */
  ghost predicate EntriesView(raw: seq<CallerEntry>, values: seq<RawEntry>, owned: set<object>)
    reads owned
  {
    && |values| == |raw|
    && forall i :: 0 <= i < |raw| ==>
         && (raw[i].cell.Node? ==> raw[i].cell.dict in owned && raw[i].cell.dict.Repr <= owned)
         && ValidCell(raw[i].cell)
         && values[i] == RawEntry(raw[i].key, CellView(raw[i].cell))
  }

  class IgnoredList {
    var items: seq<Ignored>

    constructor ()
      ensures items == []
    {
      items := [];
    }
  }

  /** `_normalise_layer`: a fresh dictionary of the accepted entries, each deep-copied. */
  method NormaliseLayer(raw: seq<CallerEntry>, layerName: string, ignored: IgnoredList,
                        ghost values: seq<RawEntry>, ghost owned: set<object>)
      returns (safe: Dict)
    requires EntriesView(raw, values, owned) && ignored !in owned
    modifies ignored
    ensures safe.Valid() && fresh(safe.Repr) && safe.View() == Normalise(values)
    ensures ignored.items == old(ignored.items) + IgnoredFields(values, layerName)
  {
    safe := new Dict();
    for i := 0 to |raw|
      invariant safe.Valid() && fresh(safe.Repr) && safe.View() == Normalise(values[..i])
      invariant ignored.items == old(ignored.items) + IgnoredFields(values[..i], layerName)
    {
      assert values[..i + 1][..i] == values[..i] && values[..i + 1][i] == values[i];
      AcceptOrIgnore(raw[i], layerName, ignored, safe, Normalise(values[..i]), values[i].value);
    }
    assert values[..|raw|] == values;
  }

  /** One entry of the loop of `_normalise_layer`. */
  method AcceptOrIgnore(entry: CallerEntry, layerName: string, ignored: IgnoredList, safe: Dict,
                        ghost view: Json, ghost value: Json)
    requires safe.Valid() && safe.View() == view
    requires ValidCell(entry.cell) && CellView(entry.cell) == value && ignored !in safe.Repr
    modifies ignored, safe
    ensures safe.Valid() && fresh(safe.Repr - old(safe.Repr))
    ensures safe.View() == if Accepted(entry.key) then Object(view.fields[entry.key.name := value]) else view
    ensures ignored.items == old(ignored.items) + IgnoredFields([RawEntry(entry.key, value)], layerName)
  {
    assert IgnoredFields([], layerName) == [];
    assert [RawEntry(entry.key, value)][..0] == [];
    match entry.key {
      case NonString(printed) =>
        ignored.items := ignored.items + [Ignored(layerName, printed, NotAString)];
      case Name(name) =>
        if name in PROTECTED_FIELDS {
          ignored.items := ignored.items + [Ignored(layerName, name, PlatformControlled)];
        } else {
          safe.PutCopy(name, entry.cell, view, value);
        }
    }
  }

  /** `_remove_overridden_aliases`. */
  method RemoveOverriddenAliases(effective: Dict, incoming: Dict, groups: seq<AliasGroup>,
                                 ghost view: Json, ghost layer: Json)
    requires effective.Valid() && effective.View() == view
    requires incoming.Valid() && incoming.View() == layer && incoming.Repr !! effective.Repr
    modifies effective.Repr
    ensures effective.Valid() && effective.Repr == old(effective.Repr)
    ensures effective.View() == RemoveAliases(view, layer, groups)
  {
    for g := 0 to |groups|
      invariant effective.Valid() && effective.Repr == old(effective.Repr)
      invariant effective.View() == RemoveAliases(view, layer, groups[..g])
      invariant unchanged(incoming.Repr)
    {
      assert groups[..g + 1][..g] == groups[..g];
      var mentioned := MentionsAny(incoming, groups[g], layer);
      if mentioned {
        RemoveAll(effective, groups[g], RemoveAliases(view, layer, groups[..g]));
      }
    }
    assert groups[..|groups|] == groups;
  }

  /** `any(_path_exists(incoming, path) for path in aliases)`. */
  method MentionsAny(incoming: Dict, group: AliasGroup, ghost layer: Json) returns (mentioned: bool)
    requires incoming.Valid() && incoming.View() == layer
    ensures mentioned == Mentions(layer, group)
  {
    for i := 0 to |group|
      invariant forall j :: 0 <= j < i ==> !PathExists(layer, group[j])
    {
      var found := incoming.Contains(group[i]);
      if found {
        assert group[i] in group;
        return true;
      }
    }
    return false;
  }

  method RemoveAll(effective: Dict, group: AliasGroup, ghost view: Json)
    requires effective.Valid() && effective.View() == view
    modifies effective.Repr
    ensures effective.Valid() && effective.Repr == old(effective.Repr)
    ensures effective.View() == RemovePaths(view, group)
  {
    for i := 0 to |group|
      invariant effective.Valid() && effective.Repr == old(effective.Repr)
      invariant effective.View() == RemovePaths(view, group[..i])
    {
      assert group[i] in group;
      assert group[..i + 1][..i] == group[..i];
      effective.RemovePath(group[i], RemovePaths(view, group[..i]));
    }
    assert group[..|group|] == group;
  }

  /** A named layer as the caller passes it. */
  datatype Layer = Layer(name: string, raw: seq<CallerEntry>)

  datatype Resolution = Resolution(snapshots: seq<Dict>, effective: Dict, evidence: Evidence, ignored: IgnoredList)

  function AllIgnored(layers: seq<Layer>, values: seq<seq<RawEntry>>): seq<Ignored>
    requires |values| == |layers|
  {
    if layers == [] then []
    else
      var last := |layers| - 1;
      AllIgnored(layers[..last], values[..last]) + IgnoredFields(values[last], layers[last].name)
  }

  /** `logs[n]` is the evidence before layer `n` of `bodies` is merged. */
  ghost predicate EvidenceOf(logs: seq<Log>, bodies: seq<Json>, names: seq<string>, groups: seq<AliasGroup>) {
    && |logs| == |bodies| + 1 && |names| == |bodies|
    && logs[0] == Log(map[], [])
    && forall n :: 0 <= n < |bodies| ==>
         Documents(logs[n], logs[n + 1], BodyBefore(bodies[..n + 1], groups), bodies[n], [], names[n])
  }

  function Names(layers: seq<Layer>): (names: seq<string>)
    ensures |names| == |layers|
    ensures forall n :: 0 <= n < |layers| ==> names[n] == layers[n].name
  {
    if layers == [] then [] else Names(layers[..|layers| - 1]) + [layers[|layers| - 1].name]
  }

  /** The recorded snapshots hold `bodies`, in dictionaries that all lie in `owned`. */
  ghost predicate SnapshotsHold(snapshots: seq<Dict>, bodies: seq<Json>, owned: set<object>)
    reads owned
  {
    && |snapshots| == |bodies|
    && forall n :: 0 <= n < |snapshots| ==>
         && snapshots[n] in owned && snapshots[n].Repr <= owned
         && snapshots[n].Valid() && snapshots[n].View() == bodies[n]
  }

  lemma SnapshotsGrow(snapshots: seq<Dict>, snapshot: Dict, bodies: seq<Json>, body: Json, owned: set<object>)
    requires SnapshotsHold(snapshots, bodies, owned)
    requires snapshot.Valid() && snapshot.View() == body
    ensures SnapshotsHold(snapshots + [snapshot], bodies + [body], owned + snapshot.Repr)
  {
  }

  ghost predicate CallerHolds(layers: seq<Layer>, values: seq<seq<RawEntry>>, owned: set<object>)
    reads owned
  {
    && |values| == |layers|
    && forall n :: 0 <= n < |layers| ==> EntriesView(layers[n].raw, values[n], owned)
  }

  /**
   `resolve_request_body`.  `values` are the values of the callers' mappings, which lie in
   `foreign`.  Nothing the caller owns changes, every snapshot still holds its normalised
   layer at the end although the effective body was updated after it was recorded, and the
   evidence documents each merge in turn.
   */
  method ResolveRequestBody(layers: seq<Layer>, groups: seq<AliasGroup>,
                            ghost values: seq<seq<RawEntry>>, ghost foreign: set<object>)
      returns (r: Resolution, ghost logs: seq<Log>, ghost recorded: set<object>)
    requires CallerHolds(layers, values, foreign)
    ensures r.effective.Valid() && fresh(r.effective.Repr)
    ensures r.effective.View() == Effective(NormaliseAll(values), groups)
    ensures SnapshotsHold(r.snapshots, NormaliseAll(values), recorded)
    ensures fresh(recorded) && recorded !! r.effective.Repr
    ensures r.ignored.items == AllIgnored(layers, values)
    ensures EvidenceOf(logs, NormaliseAll(values), Names(layers), groups)
    ensures r.evidence.Snapshot() == logs[|layers|]
  {
    var effective, evidence, ignored := EmptyResolution(layers, values, groups);
    var snapshots: seq<Dict> := [];
    ghost var bodies: seq<Json> := [];
    recorded, logs := {}, [Log(map[], [])];
    for n := 0 to |layers|
      invariant CallerHolds(layers, values, foreign)
      invariant Consistent(n, layers, values, groups, effective, evidence, ignored, snapshots, recorded, bodies, logs)
      invariant fresh(effective.Repr) && fresh(evidence) && fresh(ignored) && fresh(recorded)
    {
      var snapshot := ResolveLayer(n, layers, values, foreign, groups, effective, evidence, ignored, snapshots, recorded,
                                   bodies, logs);
      snapshots := snapshots + [snapshot];
      recorded := recorded + snapshot.Repr;
      bodies := bodies + [Normalise(values[n])];
      logs := logs + [evidence.Snapshot()];
    }
    ResolvedAll(layers, values, groups, bodies, ignored.items, logs);
    r := Resolution(snapshots, effective, evidence, ignored);
  }

  /** Invariant of the loop of `resolve_request_body`, before layer `n`. */
  ghost predicate Consistent(n: nat, layers: seq<Layer>, values: seq<seq<RawEntry>>, groups: seq<AliasGroup>,
                             effective: Dict, evidence: Evidence, ignored: IgnoredList,
                             snapshots: seq<Dict>, recorded: set<object>, bodies: seq<Json>, logs: seq<Log>)
    requires |values| == |layers| && n <= |layers|
    reads effective, effective.Repr, evidence, ignored, recorded
  {
    && effective.Valid() && effective.View() == Effective(bodies, groups)
    && evidence !in effective.Repr && ignored !in effective.Repr
    && evidence !in recorded && ignored !in recorded && recorded !! effective.Repr
    && SnapshotsHold(snapshots, bodies, recorded)
    && Resolved(n, layers, values, groups, bodies, ignored.items, logs)
    && evidence.Snapshot() == logs[n]
  }

  lemma ResolvedAll(layers: seq<Layer>, values: seq<seq<RawEntry>>, groups: seq<AliasGroup>, bodies: seq<Json>,
                    items: seq<Ignored>, logs: seq<Log>)
    requires |values| == |layers| && Resolved(|layers|, layers, values, groups, bodies, items, logs)
    ensures bodies == NormaliseAll(values) && items == AllIgnored(layers, values)
    ensures EvidenceOf(logs, bodies, Names(layers), groups)
  {
    TakeAll(layers);
    TakeAll(values);
  }

  method EmptyResolution(layers: seq<Layer>, ghost values: seq<seq<RawEntry>>, groups: seq<AliasGroup>)
      returns (effective: Dict, evidence: Evidence, ignored: IgnoredList)
    requires |values| == |layers|
    ensures Consistent(0, layers, values, groups, effective, evidence, ignored, [], {}, [], [Log(map[], [])])
    ensures fresh(effective.Repr) && fresh(evidence) && fresh(ignored)
  {
    effective := new Dict();
    evidence := new Evidence();
    ignored := new IgnoredList();
  }

  /** One layer of that loop. */
  method ResolveLayer(n: nat, layers: seq<Layer>, ghost values: seq<seq<RawEntry>>, ghost foreign: set<object>,
                      groups: seq<AliasGroup>, effective: Dict, evidence: Evidence, ignored: IgnoredList,
                      ghost snapshots: seq<Dict>, ghost recorded: set<object>, ghost bodies: seq<Json>, ghost logs: seq<Log>)
      returns (snapshot: Dict)
    requires CallerHolds(layers, values, foreign) && ignored !in foreign && n < |layers|
    requires Consistent(n, layers, values, groups, effective, evidence, ignored, snapshots, recorded, bodies, logs)
    modifies effective.Repr, evidence, ignored
    ensures fresh(effective.Repr - old(effective.Repr)) && fresh(snapshot.Repr)
    ensures Consistent(n + 1, layers, values, groups, effective, evidence, ignored, snapshots + [snapshot],
                       recorded + snapshot.Repr, bodies + [Normalise(values[n])], logs + [evidence.Snapshot()])
  {
    ghost var items, body := ignored.items, Normalise(values[n]);
    snapshot := ApplyLayer(effective, layers[n], evidence, ignored, groups, bodies, values[n], foreign);
    ghost var next := evidence.Snapshot();
    assert SnapshotsHold(snapshots + [snapshot], bodies + [body], recorded + snapshot.Repr) by {
      assert SnapshotsHold(snapshots, bodies, recorded);
      SnapshotsGrow(snapshots, snapshot, bodies, body, recorded);
    }
    assert Resolved(n + 1, layers, values, groups, bodies + [body], ignored.items, logs + [next]) by {
      ResolvedStep(n, layers, values, groups, bodies, items, logs, next);
    }
    assert (logs + [next])[n + 1] == next;
  }

  /** What has been recorded after the first `n` layers. */
  ghost predicate Resolved(n: nat, layers: seq<Layer>, values: seq<seq<RawEntry>>, groups: seq<AliasGroup>,
                           bodies: seq<Json>, items: seq<Ignored>, logs: seq<Log>)
    requires |values| == |layers| && n <= |layers|
  {
    && bodies == NormaliseAll(values[..n])
    && items == AllIgnored(layers[..n], values[..n])
    && EvidenceOf(logs, bodies, Names(layers[..n]), groups)
  }

  lemma ResolvedStep(n: nat, layers: seq<Layer>, values: seq<seq<RawEntry>>, groups: seq<AliasGroup>,
                     bodies: seq<Json>, items: seq<Ignored>, logs: seq<Log>, next: Log)
    requires |values| == |layers| && n < |layers|
    requires Resolved(n, layers, values, groups, bodies, items, logs)
    requires var body := Normalise(values[n]);
             Documents(logs[n], next, BodyBefore(bodies + [body], groups), body, [], layers[n].name)
    ensures Resolved(n + 1, layers, values, groups, bodies + [Normalise(values[n])],
                     items + IgnoredFields(values[n], layers[n].name), logs + [next])
  {
    assert layers[..n + 1][..n] == layers[..n] && values[..n + 1][..n] == values[..n];
    EvidenceGrows(logs, next, bodies, Normalise(values[n]), Names(layers[..n]), layers[n].name, groups);
  }

  /** One layer of the loop of `resolve_request_body`. */
  method ApplyLayer(effective: Dict, layer: Layer, evidence: Evidence, ignored: IgnoredList, groups: seq<AliasGroup>,
                    ghost bodies: seq<Json>, ghost values: seq<RawEntry>, ghost foreign: set<object>)
      returns (snapshot: Dict)
    requires effective.Valid() && effective.View() == Effective(bodies, groups)
    requires EntriesView(layer.raw, values, foreign) && ignored !in foreign
    requires {evidence as object, ignored} !! effective.Repr
    modifies effective.Repr, evidence, ignored
    ensures effective.Valid() && fresh(effective.Repr - old(effective.Repr))
    ensures effective.View() == Effective(bodies + [Normalise(values)], groups)
    ensures snapshot.Valid() && fresh(snapshot.Repr) && snapshot.View() == Normalise(values)
    ensures snapshot.Repr !! effective.Repr
    ensures ignored.items == old(ignored.items) + IgnoredFields(values, layer.name)
    ensures Documents(old(evidence.Snapshot()), evidence.Snapshot(),
                      BodyBefore(bodies + [Normalise(values)], groups), Normalise(values), [], layer.name)
  {
    ghost var body, start := Normalise(values), Effective(bodies, groups);
    assert (bodies + [body])[..|bodies|] == bodies;
    var safe;
    safe, snapshot := RecordLayer(layer, ignored, values, foreign);
    MergeLayer(effective, safe, layer.name, evidence, groups, start, body);
  }

  /** The normalised layer and its snapshot, a copy that shares nothing with it. */
  method RecordLayer(layer: Layer, ignored: IgnoredList, ghost values: seq<RawEntry>, ghost foreign: set<object>)
      returns (safe: Dict, snapshot: Dict)
    requires EntriesView(layer.raw, values, foreign) && ignored !in foreign
    modifies ignored
    ensures safe.Valid() && fresh(safe.Repr) && safe.View() == Normalise(values)
    ensures snapshot.Valid() && fresh(snapshot.Repr) && snapshot.View() == Normalise(values)
    ensures safe.Repr !! snapshot.Repr
    ensures ignored.items == old(ignored.items) + IgnoredFields(values, layer.name)
  {
    safe := NormaliseLayer(layer.raw, layer.name, ignored, values, foreign);
    snapshot := safe.DeepCopy(Normalise(values));
  }

  /** Alias removal and merge of one normalised layer. */
  method MergeLayer(effective: Dict, safe: Dict, layerName: string, evidence: Evidence, groups: seq<AliasGroup>,
                    ghost start: Json, ghost body: Json)
    requires effective.Valid() && effective.View() == start
    requires safe.Valid() && safe.View() == body && safe.Repr !! effective.Repr
    requires evidence !in effective.Repr && evidence !in safe.Repr
    modifies effective.Repr, evidence
    ensures effective.Valid() && fresh(effective.Repr - old(effective.Repr))
    ensures effective.View() == Merge(RemoveAliases(start, body, groups), body)
    ensures Documents(old(evidence.Snapshot()), evidence.Snapshot(), RemoveAliases(start, body, groups), body, [],
                      layerName)
  {
    RemoveOverriddenAliases(effective, safe, groups, start, body);
    effective.DeepMerge(safe, layerName, evidence, [], RemoveAliases(start, body, groups), body);
  }

  lemma {:induction false} EvidenceGrows(logs: seq<Log>, next: Log, bodies: seq<Json>, body: Json, names: seq<string>, name: string,
                      groups: seq<AliasGroup>)
    requires EvidenceOf(logs, bodies, names, groups)
    requires Documents(logs[|bodies|], next, BodyBefore(bodies + [body], groups), body, [], name)
    ensures EvidenceOf(logs + [next], bodies + [body], names + [name], groups)
  {
    var longer := bodies + [body];
    forall n | 0 <= n < |longer|
      ensures Documents((logs + [next])[n], (logs + [next])[n + 1], BodyBefore(longer[..n + 1], groups), longer[n], [],
                        (names + [name])[n])
    {
      if n < |bodies| {
        assert longer[..n + 1] == bodies[..n + 1];
      } else {
        assert longer[..n + 1] == longer;
      }
    }
  }

  // ---------- What the evidence says ----------

  /** The last of the first `n` layers that assigned exactly `field`. */
  function LastAssigner(bodies: seq<Json>, names: seq<string>, groups: seq<AliasGroup>, field: Path, n: nat): Option<string>
    requires |names| == |bodies| && n <= |bodies|
  {
    if n == 0 then None
    else if Assigned(BodyBefore(bodies[..n], groups), bodies[n - 1], field) then Some(names[n - 1])
    else LastAssigner(bodies, names, groups, field, n - 1)
  }

  lemma {:induction false} ProvenanceIsLastAssigner(logs: seq<Log>, bodies: seq<Json>, names: seq<string>,
                                                    groups: seq<AliasGroup>, field: Path, n: nat)
    requires EvidenceOf(logs, bodies, names, groups) && n <= |bodies|
    ensures Source(logs[n].provenance, field) == LastAssigner(bodies, names, groups, field, n)
  {
    if n > 0 {
      ProvenanceIsLastAssigner(logs, bodies, names, groups, field, n - 1);
      var m := n - 1;
      DocumentsExactly(logs[m], logs[m + 1], BodyBefore(bodies[..m + 1], groups), bodies[m], names[m],
                       Override(field, None, ""));
    }
  }

  /**
   The recorded overrides are exactly the conflicts between a layer and the body it met, each
   with the last earlier layer that had assigned exactly that field.
   */
  lemma {:induction false} OverridesAreConflicts(logs: seq<Log>, bodies: seq<Json>, names: seq<string>,
                                                 groups: seq<AliasGroup>, o: Override, n: nat)
    requires EvidenceOf(logs, bodies, names, groups) && n <= |bodies|
    ensures o in logs[n].overridden <==> exists m :: 0 <= m < n && Overrides(bodies, names, groups, m, o)
  {
    if n > 0 {
      var m := n - 1;
      OverridesAreConflicts(logs, bodies, names, groups, o, m);
      ProvenanceIsLastAssigner(logs, bodies, names, groups, o.field, m);
      DocumentsExactly(logs[m], logs[m + 1], BodyBefore(bodies[..m + 1], groups), bodies[m], names[m], o);
      assert o in logs[n].overridden <==> o in logs[m].overridden || Overrides(bodies, names, groups, m, o);
      if k :| 0 <= k < n && Overrides(bodies, names, groups, k, o) {
        assert k < m || k == m;
      }
    }
  }

  /** Layer `m` overrides a field that `previousLayer` was the last to assign. */
  predicate Overrides(bodies: seq<Json>, names: seq<string>, groups: seq<AliasGroup>, m: nat, o: Override)
    requires |names| == |bodies| && m < |bodies|
  {
    && o.newLayer == names[m]
    && Conflict(BodyBefore(bodies[..m + 1], groups), bodies[m], o.field)
    && o.previousLayer == LastAssigner(bodies, names, groups, o.field, m)
  }

  // ---------- What the report of ignored fields says ----------

  /** Layer `n` has an entry that is rejected as the item says. */
  ghost predicate ReportedBy(layers: seq<Layer>, values: seq<seq<RawEntry>>, item: Ignored, n: int)
    requires |values| == |layers|
  {
    0 <= n < |layers| && item.layer == layers[n].name && Rejects(values[n], item.field, item.reason)
  }

  lemma ReportedByLast(layers: seq<Layer>, values: seq<seq<RawEntry>>, item: Ignored)
    requires |values| == |layers| > 0
    ensures var last := |layers| - 1;
      (exists n :: ReportedBy(layers, values, item, n))
        == ((exists n :: ReportedBy(layers[..last], values[..last], item, n)) || ReportedBy(layers, values, item, last))
  {
    var last := |layers| - 1;
    if n :| ReportedBy(layers, values, item, n) {
      assert n < last ==> ReportedBy(layers[..last], values[..last], item, n);
    }
    if n :| ReportedBy(layers[..last], values[..last], item, n) {
      assert ReportedBy(layers, values, item, n);
    }
  }

  /** Exactly the rejected entries of all layers are reported, each under the name of its layer. */
  lemma {:induction false} AllIgnoredExactly(layers: seq<Layer>, values: seq<seq<RawEntry>>, item: Ignored)
    requires |values| == |layers|
    ensures item in AllIgnored(layers, values) <==> exists n :: ReportedBy(layers, values, item, n)
  {
    if layers != [] {
      var last := |layers| - 1;
      AllIgnoredExactly(layers[..last], values[..last], item);
      IgnoredExactly(values[last], layers[last].name, item);
      ReportedByLast(layers, values, item);
    }
  }

  /** The report lists the layers in the order in which they are merged. */
  lemma {:induction false} AllIgnoredInOrder(layers: seq<Layer>, values: seq<seq<RawEntry>>, n: nat)
    requires |values| == |layers| && n < |layers|
    ensures AllIgnored(layers[..n], values[..n]) + IgnoredFields(values[n], layers[n].name) <= AllIgnored(layers, values)
  {
    var last := |layers| - 1;
    if n < last {
      AllIgnoredInOrder(layers[..last], values[..last], n);
      assert layers[..last][..n] == layers[..n] && values[..last][..n] == values[..n];
    }
  }

  // ---------- Resolving again ----------

  /** The evidence is determined by the layers: any two resolutions record the same. */
  lemma EvidenceIsDetermined(logs: seq<Log>, logs': seq<Log>, bodies: seq<Json>, names: seq<string>,
                             groups: seq<AliasGroup>, n: nat)
    requires EvidenceOf(logs, bodies, names, groups) && EvidenceOf(logs', bodies, names, groups) && n <= |bodies|
    ensures forall o :: o in logs[n].overridden <==> o in logs'[n].overridden
    ensures forall field :: Source(logs[n].provenance, field) == Source(logs'[n].provenance, field)
  {
    forall o
      ensures o in logs[n].overridden <==> o in logs'[n].overridden
    {
      OverridesAreConflicts(logs, bodies, names, groups, o, n);
      OverridesAreConflicts(logs', bodies, names, groups, o, n);
    }
    forall field
      ensures Source(logs[n].provenance, field) == Source(logs'[n].provenance, field)
    {
      ProvenanceIsLastAssigner(logs, bodies, names, groups, field, n);
      ProvenanceIsLastAssigner(logs', bodies, names, groups, field, n);
    }
  }

  lemma {:induction false} NothingIgnored(layers: seq<Layer>, values: seq<seq<RawEntry>>)
    requires |values| == |layers|
    requires forall n, name :: 0 <= n < |values| ==> IgnoredFields(values[n], name) == []
    ensures AllIgnored(layers, values) == []
  {
    if layers != [] {
      var last := |layers| - 1;
      NothingIgnored(layers[..last], values[..last]);
      assert IgnoredFields(values[last], layers[last].name) == [];
    }
  }

  /**
   Resolving the recorded snapshots again, in any iteration order, gives the same body, the same
   overrides and the same provenance after every layer, and ignores nothing.  `logs` and `logs'`
   are the evidence of the two resolutions.
   */
  lemma {:induction false} ResolvingSnapshotsReproduces(layers: seq<Layer>, again: seq<Layer>, values: seq<seq<RawEntry>>,
                                     snapshots: seq<seq<RawEntry>>, groups: seq<AliasGroup>, logs: seq<Log>, logs': seq<Log>)
    requires |values| == |layers| == |snapshots| == |again| && Names(again) == Names(layers)
    requires forall n :: 0 <= n < |values| ==> Iterates(snapshots[n], Normalise(values[n]))
    requires EvidenceOf(logs, NormaliseAll(values), Names(layers), groups)
    requires EvidenceOf(logs', NormaliseAll(snapshots), Names(again), groups)
    ensures Effective(NormaliseAll(snapshots), groups) == Effective(NormaliseAll(values), groups)
    ensures forall n, o :: 0 <= n <= |layers| ==> (o in logs[n].overridden <==> o in logs'[n].overridden)
    ensures forall n, field :: 0 <= n <= |layers| ==>
              Source(logs[n].provenance, field) == Source(logs'[n].provenance, field)
    ensures AllIgnored(again, snapshots) == []
  {
    RefoldReproduces(values, snapshots, groups);
    forall n | 0 <= n <= |layers|
      ensures forall o :: o in logs[n].overridden <==> o in logs'[n].overridden
      ensures forall field :: Source(logs[n].provenance, field) == Source(logs'[n].provenance, field)
    {
      EvidenceIsDetermined(logs, logs', NormaliseAll(values), Names(layers), groups, n);
    }
    NothingIgnored(again, snapshots);
  }
}
