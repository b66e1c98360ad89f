/**
 What the six layers of a request body resolve to (`resolve_request_body` in
 backend/app/infrastructure/providers/common.py), as a function of the layer values.
 `RequestBodyStore` proves that the in-place code computes it.
 */
module RequestBody {
  import opened JsonValues
  import Sequences

  /** Paths that mean the same option, e.g. ["max_tokens"] and ["options", "num_predict"]. */
  type AliasGroup = g: seq<Path> | forall path :: path in g ==> path != []

  const PROTECTED_FIELDS: set<string> := {
    "model", "messages", "input", "contents", "system", "systemInstruction", "stream", "tools", "response_format"
  }

  // ---------- Normalisation of one layer ----------

  /** A key of a raw layer; a non-string key is kept as it prints. */
  datatype RawKey = Name(name: string) | NonString(printed: string)

  /** One entry of a raw layer, in iteration order. */
  datatype RawEntry = RawEntry(key: RawKey, value: Json)

  datatype Reason = NotAString | PlatformControlled

  datatype Ignored = Ignored(layer: string, field: string, reason: Reason)

  predicate Accepted(key: RawKey) {
    key.Name? && key.name !in PROTECTED_FIELDS
  }

  function Normalise(raw: seq<RawEntry>): Json {
    if raw == [] then EMPTY
    else
      var front, last := Normalise(raw[..|raw| - 1]), raw[|raw| - 1];
      if Accepted(last.key) && front.Object? then Object(front.fields[last.key.name := last.value]) else front
  }

  function IgnoredFields(raw: seq<RawEntry>, layer: string): seq<Ignored> {
    if raw == [] then []
    else
      var last := raw[|raw| - 1];
      IgnoredFields(raw[..|raw| - 1], layer) +
      match last.key
      case NonString(printed) => [Ignored(layer, printed, NotAString)]
      case Name(name) => if name in PROTECTED_FIELDS then [Ignored(layer, name, PlatformControlled)] else []
  }

  /** The reason for which a raw key is rejected and the name it is reported under, if it is. */
  ghost predicate Rejected(key: RawKey, field: string, reason: Reason) {
    || (key == NonString(field) && reason == NotAString)
    || (key == Name(field) && field in PROTECTED_FIELDS && reason == PlatformControlled)
  }

  /** Some entry is rejected like that. */
  ghost predicate Rejects(raw: seq<RawEntry>, field: string, reason: Reason) {
    exists i :: 0 <= i < |raw| && Rejected(raw[i].key, field, reason)
  }

  lemma RejectsLast(raw: seq<RawEntry>, field: string, reason: Reason)
    requires raw != []
    ensures var front, last := raw[..|raw| - 1], raw[|raw| - 1];
      Rejects(raw, field, reason) == (Rejects(front, field, reason) || Rejected(last.key, field, reason))
  {
    var front := raw[..|raw| - 1];
    if i :| 0 <= i < |front| && Rejected(front[i].key, field, reason) {
      assert Rejected(raw[i].key, field, reason);
    }
    if i :| 0 <= i < |raw| && Rejected(raw[i].key, field, reason) {
      assert i < |front| ==> front[i] == raw[i];
    }
  }

  /** Exactly the rejected entries are reported, each under its layer with its reason. */
  lemma {:induction false} IgnoredExactly(raw: seq<RawEntry>, layer: string, item: Ignored)
    ensures item in IgnoredFields(raw, layer) <==> item.layer == layer && Rejects(raw, item.field, item.reason)
  {
    if raw != [] {
      IgnoredExactly(raw[..|raw| - 1], layer, item);
      RejectsLast(raw, item.field, item.reason);
    }
  }

  /** The report follows the order of the entries, and every entry is either kept or reported once. */
  lemma {:induction false} IgnoredInOrder(raw: seq<RawEntry>, more: seq<RawEntry>, layer: string)
    ensures IgnoredFields(raw + more, layer) == IgnoredFields(raw, layer) + IgnoredFields(more, layer)
    ensures forall entry :: |IgnoredFields([entry], layer)| == if Accepted(entry.key) then 0 else 1
  {
    forall entry: RawEntry
      ensures |IgnoredFields([entry], layer)| == if Accepted(entry.key) then 0 else 1
    {
      assert [entry][..0] == [];
    }
    if more == [] {
      assert raw + more == raw;
    } else {
      IgnoredInOrder(raw, more[..|more| - 1], layer);
      Sequences.LastMovesOut(raw, more);
      var own := IgnoredFields(more[..|more| - 1], layer);
      Sequences.Regroup(IgnoredFields(raw, layer), own, IgnoredFields(more, layer)[|own|..]);
    }
  }

  lemma {:induction false} NormaliseDropsProtected(raw: seq<RawEntry>)
    ensures Normalise(raw).Object? && Normalise(raw).fields.Keys !! PROTECTED_FIELDS
  {
    if raw != [] {
      NormaliseDropsProtected(raw[..|raw| - 1]);
    }
  }

  ghost predicate DistinctKeys(raw: seq<RawEntry>) {
    forall i, j :: 0 <= i < j < |raw| ==> raw[i].key != raw[j].key
  }

  /** Normalisation keeps exactly the accepted entries, with their values. */
  lemma {:induction false} AcceptedIsKept(raw: seq<RawEntry>, key: string, value: Json)
    requires DistinctKeys(raw)
    ensures Normalise(raw).Object?
    ensures key in Normalise(raw).fields && Normalise(raw).fields[key] == value
       <==> RawEntry(Name(key), value) in raw && key !in PROTECTED_FIELDS
  {
    if raw != [] {
      var front, last := raw[..|raw| - 1], raw[|raw| - 1];
      AcceptedIsKept(front, key, value);
      assert raw == front + [last];
      if last.key == Name(key) {
        forall i | 0 <= i < |front|
          ensures front[i].key != last.key
        {
          assert raw[i].key != raw[|raw| - 1].key;
        }
      }
    }
  }

  /** The entry list `raw` is an iteration of the object `body`. */
  ghost predicate Iterates(raw: seq<RawEntry>, body: Json) {
    && body.Object?
    && (forall i :: 0 <= i < |raw| ==>
          raw[i].key.Name? && raw[i].key.name in body.fields && raw[i].value == body.fields[raw[i].key.name])
    && (forall i, j :: 0 <= i < j < |raw| ==> raw[i].key != raw[j].key)
    && (forall key :: key in body.fields ==> exists i :: 0 <= i < |raw| && raw[i].key == Name(key))
  }

  lemma {:induction false} AcceptedAreNotIgnored(raw: seq<RawEntry>, layer: string)
    requires forall i :: 0 <= i < |raw| ==> Accepted(raw[i].key)
    ensures IgnoredFields(raw, layer) == []
  {
    if raw != [] {
      AcceptedAreNotIgnored(raw[..|raw| - 1], layer);
    }
  }

  /**
   A recorded snapshot is a fixed point: read back as a raw layer, in any iteration order, it
   normalises to itself and nothing is ignored.
   */
  lemma {:induction false} SnapshotIsFixedPoint(raw: seq<RawEntry>, again: seq<RawEntry>)
    requires Iterates(again, Normalise(raw))
    ensures Normalise(again) == Normalise(raw)
    ensures forall layer :: IgnoredFields(again, layer) == []
  {
    NormaliseDropsProtected(raw);
    var body := Normalise(raw);
    forall i | 0 <= i < |again|
      ensures Accepted(again[i].key)
    {
      assert again[i].key.name in body.fields;
    }
    forall layer {
      AcceptedAreNotIgnored(again, layer);
    }
    IterationIsRead(again, body);
  }

  ghost predicate Binds(fields: map<string, Json>, key: string, value: Json) {
    key in fields && fields[key] == value
  }

  lemma SameBindings(fields: map<string, Json>, other: map<string, Json>)
    requires forall key, value :: Binds(fields, key, value) <==> Binds(other, key, value)
    ensures fields == other
  {
    forall key
      ensures key in fields <==> key in other
      ensures key in fields ==> fields[key] == other[key]
    {
      if key in fields {
        assert Binds(fields, key, fields[key]);
      }
      if key in other {
        assert Binds(other, key, other[key]);
      }
    }
  }

  /** Reading an iteration of an unprotected object gives the object. */
  lemma IterationIsRead(raw: seq<RawEntry>, body: Json)
    requires Iterates(raw, body) && forall key :: key in body.fields ==> Accepted(Name(key))
    ensures Normalise(raw) == body
  {
    AcceptedIsKept(raw, "", Null);
    forall key, value
      ensures Binds(Normalise(raw).fields, key, value) <==> Binds(body.fields, key, value)
    {
      AcceptedIsKept(raw, key, value);
    }
    SameBindings(Normalise(raw).fields, body.fields);
  }

  function NormaliseAll(raws: seq<seq<RawEntry>>): (layers: seq<Json>)
    ensures |layers| == |raws|
    ensures forall n :: 0 <= n < |raws| ==> layers[n] == Normalise(raws[n])
  {
    if raws == [] then [] else NormaliseAll(raws[..|raws| - 1]) + [Normalise(raws[|raws| - 1])]
  }

  // ---------- Folding the layers ----------

  predicate Mentions(layer: Json, group: AliasGroup) {
    exists path :: path in group && PathExists(layer, path)
  }

  function RemovePaths(body: Json, group: AliasGroup): Json {
    if group == [] then body
    else
      var paths: AliasGroup := group[..|group| - 1];
      RemovePath(RemovePaths(body, paths), group[|group| - 1])
  }

  /** `_remove_overridden_aliases`. */
  function RemoveAliases(body: Json, layer: Json, groups: seq<AliasGroup>): Json {
    if groups == [] then body
    else
      var rest := RemoveAliases(body, layer, groups[..|groups| - 1]);
      var group := groups[|groups| - 1];
      if Mentions(layer, group) then RemovePaths(rest, group) else rest
  }

  /** The body that the last of `layers` is merged into. */
  function BodyBefore(layers: seq<Json>, groups: seq<AliasGroup>): Json
    requires layers != []
    decreases |layers|, 0
  {
    RemoveAliases(Effective(layers[..|layers| - 1], groups), layers[|layers| - 1], groups)
  }

  /** The effective request body of normalised layers. */
  function Effective(layers: seq<Json>, groups: seq<AliasGroup>): Json
    decreases |layers|, 1
  {
    if layers == [] then EMPTY
    else Merge(BodyBefore(layers, groups), layers[|layers| - 1])
  }

  lemma {:induction false} RemovePathsOnlyRemoves(body: Json, group: AliasGroup, path: Path)
    requires PathExists(RemovePaths(body, group), path)
    ensures PathExists(body, path) && path !in group
  {
    if group != [] {
      var paths: AliasGroup, last := group[..|group| - 1], group[|group| - 1];
      var rest := RemovePaths(body, paths);
      if Reaches(rest, last) {
        PruneAddsNothing(rest, last, path);
      }
      RemovedPathIsGone(rest, last);
      RemovePathsOnlyRemoves(body, paths, path);
      assert group == paths + [last];
    }
  }

  lemma {:induction false} RemoveAliasesOnlyRemoves(body: Json, layer: Json, groups: seq<AliasGroup>, path: Path)
    requires PathExists(RemoveAliases(body, layer, groups), path)
    ensures PathExists(body, path)
    ensures forall group :: group in groups && Mentions(layer, group) ==> path !in group
  {
    if groups != [] {
      var rest, last := groups[..|groups| - 1], groups[|groups| - 1];
      if Mentions(layer, last) {
        RemovePathsOnlyRemoves(RemoveAliases(body, layer, rest), last, path);
      }
      RemoveAliasesOnlyRemoves(body, layer, rest, path);
      assert groups == rest + [last];
    }
  }

  /** Some group that the layer mentions has an alias at or above `path`. */
  ghost predicate Displaces(layer: Json, groups: seq<AliasGroup>, path: Path) {
    exists group, alias, other :: group in groups && alias in group && other in group && PathExists(layer, other)
                                  && alias <= path
  }

  lemma {:induction false} PathRemovalExactly(body: Json, group: AliasGroup, path: Path, leaf: Json)
    ensures LeafAt(RemovePaths(body, group), path, leaf) <==>
            LeafAt(body, path, leaf) && !exists alias :: alias in group && alias <= path
  {
    if group != [] {
      var paths: AliasGroup, last := group[..|group| - 1], group[|group| - 1];
      PathRemovalExactly(body, paths, path, leaf);
      RemovalKeepsOtherLeaves(RemovePaths(body, paths), last, path, leaf);
      assert group == paths + [last];
      assert forall alias :: alias in group <==> alias in paths || alias == last;
    }
  }

  /**
   The leaves that alias removal takes are exactly those at or below an alias of a group that
   the layer mentions by whatever alias.
   */
  lemma {:induction false} AliasRemovalExactly(body: Json, layer: Json, groups: seq<AliasGroup>, path: Path, leaf: Json)
    ensures LeafAt(RemoveAliases(body, layer, groups), path, leaf) <==>
            LeafAt(body, path, leaf) && !Displaces(layer, groups, path)
  {
    if groups != [] {
      var rest, last := groups[..|groups| - 1], groups[|groups| - 1];
      AliasRemovalExactly(body, layer, rest, path, leaf);
      PathRemovalExactly(RemoveAliases(body, layer, rest), last, path, leaf);
      assert groups == rest + [last];
    }
  }

  /** Layer `n` sets the leaf, and no later layer displaces it or has a value in its place. */
  ghost predicate SetLast(layers: seq<Json>, groups: seq<AliasGroup>, path: Path, leaf: Json, n: int) {
    && 0 <= n < |layers| && LeafAt(layers[n], path, leaf)
    && forall m :: n < m < |layers| ==> !Displaces(layers[m], groups, path) && !Covers(layers[m], path)
  }

  /**
   The effective body in terms of the layers alone: a leaf is in it exactly when some layer sets
   it and every later one leaves it alone.
   */
  lemma {:induction false} EffectiveLeavesExactly(layers: seq<Json>, groups: seq<AliasGroup>, path: Path, leaf: Json)
    requires path != []
    ensures LeafAt(Effective(layers, groups), path, leaf) <==> exists n :: SetLast(layers, groups, path, leaf, n)
  {
    if layers != [] {
      var front, last := layers[..|layers| - 1], layers[|layers| - 1];
      EffectiveLeavesExactly(front, groups, path, leaf);
      AliasRemovalExactly(Effective(front, groups), last, groups, path, leaf);
      MergedLeavesExactly(BodyBefore(layers, groups), last, path, leaf);
      forall n | 0 <= n < |front|
        ensures SetLast(layers, groups, path, leaf, n) <==>
                SetLast(front, groups, path, leaf, n) && !Displaces(last, groups, path) && !Covers(last, path)
      {
        assert forall m :: n <= m < |front| ==> front[m] == layers[m];
      }
      if LeafAt(last, path, leaf) {
        assert SetLast(layers, groups, path, leaf, |layers| - 1);
      }
    }
  }

  /** `n` is the last layer that uses some member of `group`. */
  ghost predicate LastMention(layers: seq<Json>, group: AliasGroup, n: int) {
    && 0 <= n < |layers| && Mentions(layers[n], group)
    && forall m :: n < m < |layers| ==> !Mentions(layers[m], group)
  }

  /**
   Whatever alias of a group the effective body holds was set by the last layer that mentions
   the group: an earlier layer's alias never leaks through.
   */
  lemma {:induction false} AliasComesFromLastMention(layers: seq<Json>, groups: seq<AliasGroup>, group: AliasGroup,
                                                     path: Path)
    requires group in groups && path in group
    requires PathExists(Effective(layers, groups), path)
    ensures exists n :: LastMention(layers, group, n) && PathExists(layers[n], path)
  {
    var front, last := layers[..|layers| - 1], layers[|layers| - 1];
    MergeAddsNothing(BodyBefore(layers, groups), last, path);
    if PathExists(last, path) {
      assert LastMention(layers, group, |layers| - 1);
    } else {
      RemoveAliasesOnlyRemoves(Effective(front, groups), last, groups, path);
      AliasComesFromLastMention(front, groups, group, path);
      var n :| LastMention(front, group, n) && PathExists(front[n], path);
      assert LastMention(layers, group, n) by {
        forall m | n < m < |layers|
          ensures !Mentions(layers[m], group)
        {
          if m < |front| {
            assert front[m] == layers[m];
          }
        }
      }
    }
  }

  /** At most one alias of the group is in use. */
  ghost predicate OneAlias(body: Json, group: AliasGroup) {
    forall first, second :: first in group && second in group && PathExists(body, first) && PathExists(body, second) ==>
      first == second
  }

  /** If no single layer uses two aliases of a group, neither does the effective body. */
  lemma AtMostOneAlias(layers: seq<Json>, groups: seq<AliasGroup>, group: AliasGroup, first: Path, second: Path)
    requires group in groups && first in group && second in group
    requires PathExists(Effective(layers, groups), first) && PathExists(Effective(layers, groups), second)
    requires forall layer :: layer in layers && PathExists(layer, first) && PathExists(layer, second) ==>
                               first == second
    ensures first == second
  {
    AliasComesFromLastMention(layers, groups, group, first);
    AliasComesFromLastMention(layers, groups, group, second);
    var n :| LastMention(layers, group, n) && PathExists(layers[n], first);
    var m :| LastMention(layers, group, m) && PathExists(layers[m], second);
    assert n == m && layers[n] in layers;
  }

  /** Any two aliases inside the last layer both survive. */
  lemma TwoAliasesInOneLayerSurvive(layers: seq<Json>, groups: seq<AliasGroup>, first: Path, second: Path)
    requires layers != [] && PathExists(layers[|layers| - 1], first) && PathExists(layers[|layers| - 1], second)
    ensures PathExists(Effective(layers, groups), first) && PathExists(Effective(layers, groups), second)
  {
    IncomingPathSurvives(BodyBefore(layers, groups), layers[|layers| - 1], first);
    IncomingPathSurvives(BodyBefore(layers, groups), layers[|layers| - 1], second);
  }

  /** The body holds at most one alias of a group after every layer exactly when every layer does. */
  lemma OneAliasThroughout(layers: seq<Json>, groups: seq<AliasGroup>, group: AliasGroup)
    requires group in groups
    ensures (forall n :: 0 <= n <= |layers| ==> OneAlias(Effective(layers[..n], groups), group))
       <==> (forall n :: 0 <= n < |layers| ==> OneAlias(layers[n], group))
  {
    if forall n :: 0 <= n < |layers| ==> OneAlias(layers[n], group) {
      forall n | 0 <= n <= |layers|
        ensures OneAlias(Effective(layers[..n], groups), group)
      {
        forall first, second | first in group && second in group && PathExists(Effective(layers[..n], groups), first)
                               && PathExists(Effective(layers[..n], groups), second)
          ensures first == second
        {
          AtMostOneAlias(layers[..n], groups, group, first, second);
        }
      }
    }
    forall n | 0 <= n < |layers| && OneAlias(Effective(layers[..n + 1], groups), group)
      ensures OneAlias(layers[n], group)
    {
      var last := layers[n];
      forall first, second | first in group && second in group && PathExists(last, first) && PathExists(last, second)
        ensures first == second
      {
        TwoAliasesInOneLayerSurvive(layers[..n + 1], groups, first, second);
      }
    }
  }

  /** Every leaf of the last layer, the forced one, is in the effective body. */
  lemma ForcedLeafSurvives(layers: seq<Json>, groups: seq<AliasGroup>, path: Path, leaf: Json)
    requires layers != [] && LeafAt(layers[|layers| - 1], path, leaf)
    ensures LeafAt(Effective(layers, groups), path, leaf)
  {
    IncomingLeafSurvives(BodyBefore(layers, groups), layers[|layers| - 1], path, leaf);
  }

  /** Every unprotected leaf of the raw forced mapping is in the effective body. */
  lemma UnprotectedForcedLeafSurvives(raws: seq<seq<RawEntry>>, groups: seq<AliasGroup>, entry: RawEntry, path: Path,
                                      leaf: Json)
    requires raws != [] && DistinctKeys(raws[|raws| - 1])
    requires entry in raws[|raws| - 1] && entry.key.Name? && entry.key.name !in PROTECTED_FIELDS
    requires LeafAt(entry.value, path, leaf)
    ensures LeafAt(Effective(NormaliseAll(raws), groups), [entry.key.name] + path, leaf)
  {
    var name := entry.key.name;
    AcceptedIsKept(raws[|raws| - 1], name, entry.value);
    assert ([name] + path)[1..] == path;
    ForcedLeafSurvives(NormaliseAll(raws), groups, [name] + path, leaf);
  }

  /** A top-level key of the effective body is a top-level key of some layer. */
  lemma {:induction false} KeysComeFromLayers(layers: seq<Json>, groups: seq<AliasGroup>, key: string)
    requires PathExists(Effective(layers, groups), [key])
    ensures exists layer :: layer in layers && PathExists(layer, [key])
  {
    var front, last := layers[..|layers| - 1], layers[|layers| - 1];
    MergeAddsNothing(BodyBefore(layers, groups), last, [key]);
    if PathExists(last, [key]) {
      assert last in layers;
    } else {
      RemoveAliasesOnlyRemoves(Effective(front, groups), last, groups, [key]);
      KeysComeFromLayers(front, groups, key);
    }
  }

  /** No platform-controlled field reaches the effective body through any layer. */
  lemma NoProtectedField(raws: seq<seq<RawEntry>>, groups: seq<AliasGroup>, key: string)
    requires key in PROTECTED_FIELDS
    ensures !PathExists(Effective(NormaliseAll(raws), groups), [key])
  {
    var layers := NormaliseAll(raws);
    if PathExists(Effective(layers, groups), [key]) {
      KeysComeFromLayers(layers, groups, key);
      var layer :| layer in layers && PathExists(layer, [key]);
      var n :| 0 <= n < |layers| && layers[n] == layer;
      NormaliseDropsProtected(raws[n]);
    }
  }

  /**
   Resolving the recorded snapshots again reproduces every layer, hence the effective body, and
   ignores nothing.
   */
  lemma {:induction false} RefoldReproduces(raws: seq<seq<RawEntry>>, agains: seq<seq<RawEntry>>, groups: seq<AliasGroup>)
    requires |agains| == |raws|
    requires forall n :: 0 <= n < |raws| ==> Iterates(agains[n], Normalise(raws[n]))
    ensures NormaliseAll(agains) == NormaliseAll(raws)
    ensures Effective(NormaliseAll(agains), groups) == Effective(NormaliseAll(raws), groups)
    ensures forall n, layer :: 0 <= n < |agains| ==> IgnoredFields(agains[n], layer) == []
  {
    forall n | 0 <= n < |raws|
      ensures Normalise(agains[n]) == Normalise(raws[n])
      ensures forall layer :: IgnoredFields(agains[n], layer) == []
    {
      SnapshotIsFixedPoint(raws[n], agains[n]);
    }
  }
}
