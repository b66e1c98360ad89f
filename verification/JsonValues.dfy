/**
 JSON bodies as values, and the two transformations that request-body resolution performs
 on them (backend/app/infrastructure/providers/common.py): the right-biased deep merge and
 the removal of an alias path with pruning of the parents it empties.
 */
module JsonValues {
  import opened Options

  /** Values are compared by type: Python's `1 == True` and `1 == 1.0` are not modelled. */
  datatype Json =
    | Null
    | Bool(flag: bool)
    | Number(number: real)
    | Text(text: string)
    | List(items: seq<Json>)
    | Object(fields: map<string, Json>)

  type Path = seq<string>

  const EMPTY: Json := Object(map[])

  function Lookup(body: Json, path: Path): Option<Json> {
    if path == [] then Some(body)
    else if body.Object? && path[0] in body.fields then Lookup(body.fields[path[0]], path[1..])
    else None
  }

  /** `_path_exists`. */
  predicate PathExists(body: Json, path: Path) {
    Lookup(body, path).Some?
  }

  /** A non-object value of `body`. */
  predicate LeafAt(body: Json, path: Path, leaf: Json) {
    Lookup(body, path) == Some(leaf) && !leaf.Object?
  }

  lemma {:induction false} LookupConcat(body: Json, first: Path, second: Path)
    ensures Lookup(body, first + second) ==
            match Lookup(body, first) case None => None case Some(inner) => Lookup(inner, second)
    decreases first
  {
    if first == [] {
      assert first + second == second;
    } else {
      assert (first + second)[1..] == first[1..] + second;
      if body.Object? && first[0] in body.fields {
        LookupConcat(body.fields[first[0]], first[1..], second);
      }
    }
  }

  // ---------- Deep merge ----------

  /** Objects merge key by key; anything else is replaced by the incoming value. */
  function Merge(target: Json, incoming: Json): Json
    decreases incoming
  {
    if target.Object? && incoming.Object? then
      Object(map key | key in target.fields.Keys + incoming.fields.Keys ::
        if key !in incoming.fields then target.fields[key]
        else if key !in target.fields then incoming.fields[key]
        else Merge(target.fields[key], incoming.fields[key]))
    else incoming
  }

  /** Both bodies have a value at `path`, the values differ, and they are not both objects. */
  predicate Conflict(target: Json, incoming: Json, path: Path) {
    path != [] &&
    match (Lookup(target, path), Lookup(incoming, path))
    case (Some(before), Some(after)) => before != after && !(before.Object? && after.Object?)
    case _ => false
  }

  /** The merge stores a value of `incoming` at exactly these paths. */
  predicate Assigned(target: Json, incoming: Json, path: Path) {
    path != [] && PathExists(incoming, path) &&
    (match Lookup(target, path[..|path| - 1])
     case Some(parent) => parent.Object?
     case None => false) &&
    !(PathExists(target, path) && Lookup(target, path).value.Object? && Lookup(incoming, path).value.Object?)
  }

  lemma {:induction false} IncomingLeafSurvives(target: Json, incoming: Json, path: Path, leaf: Json)
    requires LeafAt(incoming, path, leaf)
    ensures LeafAt(Merge(target, incoming), path, leaf)
    decreases path
  {
    if path != [] && target.Object? && path[0] in target.fields {
      IncomingLeafSurvives(target.fields[path[0]], incoming.fields[path[0]], path[1..], leaf);
    }
  }

  /** `incoming` has a value at `path`, or one that is no object above it. */
  ghost predicate Covers(incoming: Json, path: Path) {
    exists n :: 0 <= n <= |path| && CoversAt(incoming, path, n)
  }

  predicate CoversAt(incoming: Json, path: Path, n: nat)
    requires n <= |path|
  {
    PathExists(incoming, path[..n]) && (n == |path| || !Lookup(incoming, path[..n]).value.Object?)
  }

  lemma CoversBelow(incoming: Json, path: Path)
    requires incoming.Object? && path != []
    ensures Covers(incoming, path) <==> path[0] in incoming.fields && Covers(incoming.fields[path[0]], path[1..])
  {
    if n :| 0 <= n <= |path| && CoversAt(incoming, path, n) {
      assert path[..n] != [] && path[..n][0] == path[0] && path[..n][1..] == path[1..][..n - 1];
      assert CoversAt(incoming.fields[path[0]], path[1..], n - 1);
    }
    if path[0] in incoming.fields && Covers(incoming.fields[path[0]], path[1..]) {
      var n :| 0 <= n <= |path[1..]| && CoversAt(incoming.fields[path[0]], path[1..], n);
      assert path[..n + 1][0] == path[0] && path[..n + 1][1..] == path[1..][..n];
      assert CoversAt(incoming, path, n + 1);
    }
  }

  /** A merge has the paths and leaves of the layer, and those of the target it does not cover. */
  lemma {:induction false} MergedLeavesExactly(target: Json, incoming: Json, path: Path, leaf: Json)
    ensures PathExists(Merge(target, incoming), path) <==>
            PathExists(incoming, path) || (PathExists(target, path) && !Covers(incoming, path))
    ensures LeafAt(Merge(target, incoming), path, leaf) <==>
            LeafAt(incoming, path, leaf) || (LeafAt(target, path, leaf) && !Covers(incoming, path))
    decreases path
  {
    if !incoming.Object? || path == [] {
      assert path[..0] == [];
      assert CoversAt(incoming, path, 0);
    } else {
      CoversBelow(incoming, path);
      if target.Object? && path[0] in target.fields && path[0] in incoming.fields {
        MergedLeavesExactly(target.fields[path[0]], incoming.fields[path[0]], path[1..], leaf);
      }
    }
  }

  /** Every path of the incoming layer is in the merged body. */
  lemma {:induction false} IncomingPathSurvives(target: Json, incoming: Json, path: Path)
    requires PathExists(incoming, path)
    ensures PathExists(Merge(target, incoming), path)
    decreases path
  {
    if path != [] && target.Object? && path[0] in target.fields {
      IncomingPathSurvives(target.fields[path[0]], incoming.fields[path[0]], path[1..]);
    }
  }

  lemma {:induction false} MergeAddsNothing(target: Json, incoming: Json, path: Path)
    requires PathExists(Merge(target, incoming), path)
    ensures PathExists(target, path) || PathExists(incoming, path)
    decreases path
  {
    if path != [] && target.Object? && incoming.Object?
       && path[0] in target.fields && path[0] in incoming.fields {
      MergeAddsNothing(target.fields[path[0]], incoming.fields[path[0]], path[1..]);
    }
  }

  /**
   A leaf of the target either survives the merge or lies at or below a path in conflict.
   */
  lemma {:induction false} ChangedLeafIsOverridden(target: Json, incoming: Json, path: Path, leaf: Json)
    requires target.Object? && incoming.Object?
    requires LeafAt(target, path, leaf) && !LeafAt(Merge(target, incoming), path, leaf)
    ensures exists n :: 0 < n <= |path| && Conflict(target, incoming, path[..n])
    decreases path
  {
    var key := path[0];
    assert key in incoming.fields;
    var before, after := target.fields[key], incoming.fields[key];
    if before.Object? && after.Object? {
      ChangedLeafIsOverridden(before, after, path[1..], leaf);
      var n :| 0 < n <= |path[1..]| && Conflict(before, after, path[1..][..n]);
      assert path[..n + 1] == [key] + path[1..][..n];
    } else {
      assert path[..1][1..] == [];
      assert Lookup(target, path[..1]) == Some(before) && Lookup(incoming, path[..1]) == Some(after);
      assert before != after;
      assert Conflict(target, incoming, path[..1]);
    }
  }

  /** At a path in conflict the incoming value replaces a different one. */
  lemma {:induction false} ConflictIsReplaced(target: Json, incoming: Json, path: Path)
    requires Conflict(target, incoming, path)
    ensures Lookup(Merge(target, incoming), path) == Lookup(incoming, path) != Lookup(target, path)
    decreases path
  {
    var key := path[0];
    if path[1..] == [] {
      assert Lookup(target, path) == Some(target.fields[key]);
      assert Lookup(incoming, path) == Some(incoming.fields[key]);
    } else {
      assert [key] + path[1..] == path;
      ConflictIsReplaced(target.fields[key], incoming.fields[key], path[1..]);
    }
  }

  // ---------- A merge in progress: only the keys in `keys` have been merged ----------

  function Part(incoming: Json, keys: set<string>): Json
    requires incoming.Object?
  {
    Object(map key | key in incoming.fields && key in keys :: incoming.fields[key])
  }

  lemma PartGrows(incoming: Json, done: set<string>, key: string)
    requires incoming.Object? && key in incoming.fields
    ensures Part(incoming, done + {key}) == Object(Part(incoming, done).fields[key := incoming.fields[key]])
  {
  }

  lemma PartOfAll(incoming: Json, keys: set<string>)
    requires incoming.Object? && incoming.fields.Keys <= keys
    ensures Part(incoming, keys) == incoming
  {
    assert Part(incoming, keys).fields == incoming.fields;
  }

  /** The value that a merge stores under `key`. */
  function MergedEntry(target: Json, incoming: Json, key: string): Json
    requires target.Object? && incoming.Object? && key in incoming.fields
  {
    if key in target.fields then Merge(target.fields[key], incoming.fields[key]) else incoming.fields[key]
  }

  lemma LookupUnder(body: Json, key: string, path: Path)
    ensures Lookup(body, [key] + path) ==
            if body.Object? && key in body.fields then Lookup(body.fields[key], path) else None
  {
    assert ([key] + path)[1..] == path;
  }

  lemma MergePart(target: Json, incoming: Json, done: set<string>, key: string)
    requires target.Object? && incoming.Object? && key in incoming.fields && key !in done
    ensures Merge(target, Part(incoming, done)).Object?
    ensures MergedEntry(Merge(target, Part(incoming, done)), incoming, key) == MergedEntry(target, incoming, key)
    ensures key in target.fields <==> key in Merge(target, Part(incoming, done)).fields
    ensures key in target.fields ==> Merge(target, Part(incoming, done)).fields[key] == target.fields[key]
    ensures Merge(target, Part(incoming, done + {key})) ==
            Object(Merge(target, Part(incoming, done)).fields
                     [key := MergedEntry(target, incoming, key)])
  {
  }

  lemma ConflictPart(target: Json, incoming: Json, done: set<string>, key: string, path: Path)
    requires target.Object? && incoming.Object? && key in incoming.fields && key !in done
    ensures Conflict(target, Part(incoming, done + {key}), path) <==>
            || Conflict(target, Part(incoming, done), path)
            || (path != [] && path[0] == key && key in target.fields &&
                if |path| == 1
                then target.fields[key] != incoming.fields[key]
                     && !(target.fields[key].Object? && incoming.fields[key].Object?)
                else Conflict(target.fields[key], incoming.fields[key], path[1..]))
    ensures Conflict(target, Part(incoming, done), path) ==> path[0] != key
  {
    if path != [] {
      assert path == [path[0]] + path[1..];
      LookupUnder(target, path[0], path[1..]);
      LookupUnder(Part(incoming, done), path[0], path[1..]);
      LookupUnder(Part(incoming, done + {key}), path[0], path[1..]);
    }
  }

  lemma AssignedPart(target: Json, incoming: Json, done: set<string>, key: string, path: Path)
    requires target.Object? && incoming.Object? && key in incoming.fields && key !in done
    ensures Assigned(target, Part(incoming, done + {key}), path) <==>
            || Assigned(target, Part(incoming, done), path)
            || (path != [] && path[0] == key &&
                if |path| == 1
                then !(key in target.fields && target.fields[key].Object? && incoming.fields[key].Object?)
                else key in target.fields && Assigned(target.fields[key], incoming.fields[key], path[1..]))
    ensures Assigned(target, Part(incoming, done), path) ==> path[0] != key
  {
    if path != [] {
      assert path == [path[0]] + path[1..];
      LookupUnder(target, path[0], path[1..]);
      LookupUnder(Part(incoming, done), path[0], path[1..]);
      LookupUnder(Part(incoming, done + {key}), path[0], path[1..]);
      if |path| > 1 {
        var inner := path[1..][..|path| - 2];
        assert path[..|path| - 1] == [path[0]] + inner;
        LookupUnder(target, path[0], inner);
      }
    }
  }

  // ---------- Removal of a path ----------

  /** Every proper prefix of `path` is an object, so the walk of `_remove_path` arrives. */
  predicate Reaches(body: Json, path: Path)
    requires path != []
  {
    body.Object? &&
    (|path| == 1 || (path[0] in body.fields && Reaches(body.fields[path[0]], path[1..])))
  }

  /** Drops the last key and then every ancestor on the path that is empty. */
  function Prune(body: Json, path: Path): (pruned: Json)
    requires path != [] && Reaches(body, path)
    ensures pruned.Object?
  {
    if |path| == 1 then Object(body.fields - {path[0]})
    else
      var child := Prune(body.fields[path[0]], path[1..]);
      if child.fields == map[] then Object(body.fields - {path[0]})
      else Object(body.fields[path[0] := child])
  }

  lemma PruneParent(body: Json, path: Path)
    requires |path| > 1 && body.Object? && path[0] in body.fields && Reaches(body.fields[path[0]], path[1..])
    ensures Reaches(body, path)
    ensures var child := Prune(body.fields[path[0]], path[1..]);
            Prune(body, path) == Object(if child.fields == map[] then body.fields - {path[0]}
                                        else body.fields[path[0] := child])
  {
  }

  function RemovePath(body: Json, path: Path): Json
    requires path != []
  {
    if Reaches(body, path) then Prune(body, path) else body
  }

  lemma {:induction false} ExistingPathIsReached(body: Json, path: Path)
    requires path != [] && PathExists(body, path)
    ensures Reaches(body, path)
    decreases path
  {
    if |path| > 1 {
      ExistingPathIsReached(body.fields[path[0]], path[1..]);
    }
  }

  lemma {:induction false} PruneRemoves(body: Json, path: Path)
    requires path != [] && Reaches(body, path)
    ensures !PathExists(Prune(body, path), path)
    decreases path
  {
    if |path| > 1 {
      PruneRemoves(body.fields[path[0]], path[1..]);
    }
  }

  lemma RemovedPathIsGone(body: Json, path: Path)
    requires path != []
    ensures !PathExists(RemovePath(body, path), path)
  {
    if Reaches(body, path) {
      PruneRemoves(body, path);
    } else if PathExists(body, path) {
      ExistingPathIsReached(body, path);
    }
  }

  lemma {:induction false} PruneAddsNothing(body: Json, path: Path, other: Path)
    requires path != [] && Reaches(body, path)
    requires PathExists(Prune(body, path), other)
    ensures PathExists(body, other)
    decreases path
  {
    if |path| > 1 && other != [] && other[0] == path[0] {
      PruneAddsNothing(body.fields[path[0]], path[1..], other[1..]);
    }
  }

  /**
   Removal with pruning touches no leaf outside the removed path: a leaf is found afterwards
   exactly when it was there before and is not at or below that path.
   */
  lemma {:induction false} RemovalKeepsOtherLeaves(body: Json, path: Path, other: Path, leaf: Json)
    requires path != []
    ensures LeafAt(RemovePath(body, path), other, leaf) <==> LeafAt(body, other, leaf) && !(path <= other)
    decreases path
  {
    if Reaches(body, path) && other != [] {
      if other[0] == path[0] {
        if |path| == 1 {
          assert path <= other;
        } else {
          RemovalKeepsOtherLeaves(body.fields[path[0]], path[1..], other[1..], leaf);
          assert path <= other <==> path[1..] <= other[1..];
        }
      }
    } else if LeafAt(body, other, leaf) && path <= other {
      assert other == path + other[|path|..];
      LookupConcat(body, path, other[|path|..]);
      ExistingPathIsReached(body, path);
    }
  }

  /** Neither path is at or below the other. */
  predicate Apart(path: Path, other: Path) {
    !(path <= other) && !(other <= path)
  }

  /** Removal leaves the value at every path beside the removed one as it was, absent or present. */
  lemma {:induction false} RemovalKeepsOtherValues(body: Json, path: Path, other: Path)
    requires path != [] && Apart(path, other)
    ensures Lookup(RemovePath(body, path), other) == Lookup(body, other)
    decreases path
  {
    if Reaches(body, path) && other[0] == path[0] && |path| > 1 {
      assert path <= other <==> path[1..] <= other[1..];
      assert other <= path <==> other[1..] <= path[1..];
      RemovalKeepsOtherValues(body.fields[path[0]], path[1..], other[1..]);
    } else if |path| == 1 {
      assert other[0] == path[0] ==> path <= other;
    }
  }

  /** Something at or below `at` is beside the removed path. */
  ghost predicate KeepsBeside(body: Json, path: Path, at: Path) {
    exists other :: at <= other && PathExists(body, other) && Apart(path, other)
  }

  lemma ApartBelow(key: string, path: Path, other: Path)
    ensures Apart([key] + path, [key] + other) <==> Apart(path, other)
  {
    assert ([key] + path)[1..] == path && ([key] + other)[1..] == other;
  }

  lemma BesideBelow(body: Json, path: Path, at: Path)
    requires path != [] && at != [] && body.Object? && path[0] == at[0] && path[0] in body.fields
    ensures KeepsBeside(body, path, at) <==> KeepsBeside(body.fields[path[0]], path[1..], at[1..])
  {
    var child := body.fields[path[0]];
    assert path == [path[0]] + path[1..];
    if other :| at <= other && PathExists(body, other) && Apart(path, other) {
      assert at[1..] <= other[1..] && PathExists(child, other[1..]) && other == [path[0]] + other[1..];
      ApartBelow(path[0], path[1..], other[1..]);
    }
    if other :| at[1..] <= other && PathExists(child, other) && Apart(path[1..], other) {
      var longer := [path[0]] + other;
      assert longer[1..] == other && at <= longer && PathExists(body, longer);
      ApartBelow(path[0], path[1..], other);
    }
  }

  /** What is left is empty exactly when nothing was beside the removed path. */
  lemma {:induction false} EmptyAfterRemoval(body: Json, path: Path)
    requires path != [] && Reaches(body, path)
    ensures Prune(body, path).fields != map[] <==> KeepsBeside(body, path, [])
    decreases path
  {
    var pruned := Prune(body, path).fields;
    if |path| > 1 {
      EmptyAfterRemoval(body.fields[path[0]], path[1..]);
      BesideBelow(body, path, [path[0]]);
      assert [path[0]][1..] == [];
    }
    if pruned != map[] {
      var key :| key in pruned;
      if key != path[0] {
        assert [key][1..] == [] && PathExists(body, [key]) && Apart(path, [key]);
      } else {
        var other :| [path[0]] <= other && PathExists(body, other) && Apart(path, other);
        assert [] <= other;
      }
    }
    if other :| [] <= other && PathExists(body, other) && Apart(path, other) {
      if other[0] == path[0] {
        assert |path| > 1 && [path[0]] <= other;
      } else {
        assert other[0] in pruned;
      }
    }
  }

  /** A parent on the removed path goes exactly when that leaves it empty. */
  lemma {:induction false} EmptiedParentsGo(body: Json, path: Path, at: Path)
    requires path != [] && Reaches(body, path) && at != [] && at < path
    ensures PathExists(RemovePath(body, path), at) <==> KeepsBeside(body, path, at)
    decreases path
  {
    var child := body.fields[path[0]];
    BesideBelow(body, path, at);
    EmptyAfterRemoval(child, path[1..]);
    if |at| == 1 {
      assert at[1..] == [] && Lookup(RemovePath(body, path), at).Some? == (path[0] in Prune(body, path).fields);
    } else {
      EmptiedParentsGo(child, path[1..], at[1..]);
      if other :| at[1..] <= other && PathExists(child, other) && Apart(path[1..], other) {
        assert [] <= other;
      }
    }
  }
}
