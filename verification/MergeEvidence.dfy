/**
 The evidence that `_deep_merge` leaves behind: where each value of the effective body came
 from, and which fields a layer overrode.  The source keys both by the dotted path; here they
 are keyed by the list of keys, and `DottedPathIsUnambiguous` says when that is the same.
 */
module MergeEvidence {
  import opened Options
  import opened JsonValues
  import opened Sequences

  datatype Override = Override(field: Path, previousLayer: Option<string>, newLayer: string)

  type Provenance = map<Path, string>

  function Source(provenance: Provenance, field: Path): Option<string> {
    if field in provenance then Some(provenance[field]) else None
  }

  /**
   `added` lists each conflict between `target` and `incoming` once, with the layer that had
   set exactly that field before.
   */
  ghost predicate Recorded(added: seq<Override>, target: Json, incoming: Json, prefix: Path, layer: string,
                           provenance: Provenance)
  {
    && (forall path :: Conflict(target, incoming, path) ==>
          Override(prefix + path, Source(provenance, prefix + path), layer) in added)
    && (forall n :: 0 <= n < |added| ==>
          && prefix <= added[n].field && Conflict(target, incoming, added[n].field[|prefix|..])
          && added[n].previousLayer == Source(provenance, added[n].field) && added[n].newLayer == layer)
    && (forall n, m :: 0 <= n < m < |added| ==> added[n].field != added[m].field)
  }

  /** Exactly the fields that the merge assigns now come from `layer`. */
  ghost predicate Stamped(before: Provenance, after: Provenance, target: Json, incoming: Json, prefix: Path,
                          layer: string)
  {
    forall field :: Source(after, field) ==
      if prefix <= field && Assigned(target, incoming, field[|prefix|..]) then Some(layer)
      else Source(before, field)
  }

  /** Conflicts below `key` are those of the two values there. */
  lemma ConflictUnderKey(target: Json, incoming: Json, key: string, path: Path)
    requires target.Object? && incoming.Object? && key in target.fields && key in incoming.fields
    requires target.fields[key].Object? && incoming.fields[key].Object?
    requires Conflict(target, Part(incoming, {key}), path)
    ensures path != [] && path[0] == key && Conflict(target.fields[key], incoming.fields[key], path[1..])
  {
    ConflictPart(target, incoming, {}, key, path);
    assert {} + {key} == {key};
  }

  lemma RecordedNested(added: seq<Override>, target: Json, incoming: Json, key: string, prefix: Path, layer: string,
                       before: Provenance)
    requires target.Object? && incoming.Object? && key in target.fields && key in incoming.fields
    requires target.fields[key].Object? && incoming.fields[key].Object?
    requires Recorded(added, target.fields[key], incoming.fields[key], prefix + [key], layer, before)
    ensures Recorded(added, target, Part(incoming, {key}), prefix, layer, before)
  {
    var only := Part(incoming, {key});
    forall path | Conflict(target, only, path)
      ensures Override(prefix + path, Source(before, prefix + path), layer) in added
    {
      ConflictUnderKey(target, incoming, key, path);
      assert prefix + path == (prefix + [key]) + path[1..];
    }
    forall n | 0 <= n < |added|
      ensures prefix <= added[n].field && Conflict(target, only, added[n].field[|prefix|..])
    {
      var inner := added[n].field[|prefix + [key]|..];
      assert added[n].field == prefix + ([key] + inner);
      assert added[n].field[|prefix|..] == [key] + inner;
    }
  }

  lemma StampedNested(target: Json, incoming: Json, key: string, prefix: Path, layer: string,
                      before: Provenance, after: Provenance)
    requires target.Object? && incoming.Object? && key in target.fields && key in incoming.fields
    requires target.fields[key].Object? && incoming.fields[key].Object?
    requires Stamped(before, after, target.fields[key], incoming.fields[key], prefix + [key], layer)
    ensures Stamped(before, after, target, Part(incoming, {key}), prefix, layer)
  {
    var only := Part(incoming, {key});
    forall field
      ensures Source(after, field) ==
              if prefix <= field && Assigned(target, only, field[|prefix|..]) then Some(layer) else Source(before, field)
    {
      if prefix <= field {
        var path := field[|prefix|..];
        AssignedPart(target, incoming, {}, key, path);
        assert {} + {key} == {key};
        if prefix + [key] <= field {
          assert path[0] == field[|prefix|] == key && path[1..] == field[|prefix + [key]|..];
          assert |path| == 1 ==> !Assigned(target.fields[key], incoming.fields[key], path[1..]);
        }
      }
    }
  }

  /** Evidence of the keys merged so far, extended by the evidence of one more key. */
  lemma {:induction false} RecordedStep(first: seq<Override>, second: seq<Override>, target: Json, incoming: Json, done: set<string>,
                     key: string, prefix: Path, layer: string,
                     start: Provenance, middle: Provenance, end: Provenance)
    requires target.Object? && incoming.Object? && key in incoming.fields && key !in done
    requires Recorded(first, target, Part(incoming, done), prefix, layer, start)
    requires Stamped(start, middle, target, Part(incoming, done), prefix, layer)
    requires var now := Merge(target, Part(incoming, done));
             && Recorded(second, now, Part(incoming, {key}), prefix, layer, middle)
             && Stamped(middle, end, now, Part(incoming, {key}), prefix, layer)
    ensures Recorded(first + second, target, Part(incoming, done + {key}), prefix, layer, start)
    ensures Stamped(start, end, target, Part(incoming, done + {key}), prefix, layer)
  {
    var now, more := Merge(target, Part(incoming, done)), Part(incoming, done + {key});
    MergePart(target, incoming, done, key);
    forall path
      ensures Conflict(target, more, path) <==>
              Conflict(target, Part(incoming, done), path) || Conflict(now, Part(incoming, {key}), path)
      ensures Assigned(target, more, path) <==>
              Assigned(target, Part(incoming, done), path) || Assigned(now, Part(incoming, {key}), path)
      ensures Conflict(target, Part(incoming, done), path) ==> path[0] != key
      ensures Assigned(target, Part(incoming, done), path) ==> path[0] != key
      ensures Conflict(now, Part(incoming, {key}), path) || Assigned(now, Part(incoming, {key}), path) ==> path[0] == key
    {
      assert {} + {key} == {key};
      ConflictPart(target, incoming, done, key, path);
      ConflictPart(now, incoming, {}, key, path);
      AssignedPart(target, incoming, done, key, path);
      AssignedPart(now, incoming, {}, key, path);
    }
    forall field | prefix <= field && Conflict(now, Part(incoming, {key}), field[|prefix|..])
      ensures Source(middle, field) == Source(start, field)
    {
    }
    RecordedUnion(first, second, target, more, now, incoming, done, key, prefix, layer, start, middle);
  }

  lemma RecordedUnion(first: seq<Override>, second: seq<Override>, target: Json, more: Json, now: Json, incoming: Json,
                      done: set<string>, key: string, prefix: Path, layer: string,
                      start: Provenance, middle: Provenance)
    requires incoming.Object?
    requires Recorded(first, target, Part(incoming, done), prefix, layer, start)
    requires Recorded(second, now, Part(incoming, {key}), prefix, layer, middle)
    requires forall path :: Conflict(target, more, path) <==>
               Conflict(target, Part(incoming, done), path) || Conflict(now, Part(incoming, {key}), path)
    requires forall path :: Conflict(target, Part(incoming, done), path) ==> path[0] != key
    requires forall path :: Conflict(now, Part(incoming, {key}), path) ==> path[0] == key
    requires forall field :: prefix <= field && Conflict(now, Part(incoming, {key}), field[|prefix|..]) ==>
               Source(middle, field) == Source(start, field)
    ensures Recorded(first + second, target, more, prefix, layer, start)
  {
    var all := first + second;
    forall path | Conflict(target, more, path)
      ensures Override(prefix + path, Source(start, prefix + path), layer) in all
    {
      assert (prefix + path)[|prefix|..] == path;
    }
    forall n | 0 <= n < |all|
      ensures && prefix <= all[n].field && Conflict(target, more, all[n].field[|prefix|..])
              && all[n].previousLayer == Source(start, all[n].field) && all[n].newLayer == layer
    {
      assert all[n] == if n < |first| then first[n] else second[n - |first|];
    }
    forall n, m | 0 <= n < m < |all|
      ensures all[n].field != all[m].field
    {
      if n < |first| <= m {
        assert all[n] == first[n] && all[m] == second[m - |first|];
        assert first[n].field[|prefix|..][0] != key && second[m - |first|].field[|prefix|..][0] == key;
      } else if n < |first| {
        assert all[n] == first[n] && all[m] == first[m];
      } else {
        assert all[n] == second[n - |first|] && all[m] == second[m - |first|];
      }
    }
  }

  // ---------- The two lists together ----------

  datatype Log = Log(provenance: Provenance, overridden: seq<Override>)

  /** What merging `incoming` into `target` under `prefix` appends to the evidence. */
  ghost predicate Documents(before: Log, after: Log, target: Json, incoming: Json, prefix: Path, layer: string) {
    && before.overridden <= after.overridden
    && Recorded(after.overridden[|before.overridden|..], target, incoming, prefix, layer, before.provenance)
    && Stamped(before.provenance, after.provenance, target, incoming, prefix, layer)
  }

  lemma DocumentsNested(before: Log, after: Log, target: Json, incoming: Json, key: string, prefix: Path, layer: string)
    requires target.Object? && incoming.Object? && key in target.fields && key in incoming.fields
    requires target.fields[key].Object? && incoming.fields[key].Object?
    requires Documents(before, after, target.fields[key], incoming.fields[key], prefix + [key], layer)
    ensures Documents(before, after, target, Part(incoming, {key}), prefix, layer)
  {
    RecordedNested(after.overridden[|before.overridden|..], target, incoming, key, prefix, layer, before.provenance);
    StampedNested(target, incoming, key, prefix, layer, before.provenance, after.provenance);
  }

  /** The evidence of one assignment. */
  function Assign(log: Log, target: Json, incoming: Json, key: string, prefix: Path, layer: string): Log
    requires target.Object? && incoming.Object? && key in incoming.fields
  {
    var field := prefix + [key];
    Log(log.provenance[field := layer],
        log.overridden + if key in target.fields && target.fields[key] != incoming.fields[key]
                         then [Override(field, Source(log.provenance, field), layer)] else [])
  }

  lemma DocumentsAssignment(log: Log, target: Json, incoming: Json, key: string, prefix: Path, layer: string)
    requires target.Object? && incoming.Object? && key in incoming.fields
    requires !(key in target.fields && target.fields[key].Object? && incoming.fields[key].Object?)
    ensures Documents(log, Assign(log, target, incoming, key, prefix, layer), target, Part(incoming, {key}), prefix, layer)
  {
    var only, before := Part(incoming, {key}), log.provenance;
    assert {} + {key} == {key};
    forall path
      ensures Conflict(target, only, path) <==>
              path == [key] && key in target.fields && target.fields[key] != incoming.fields[key]
      ensures Assigned(target, only, path) <==> path == [key]
    {
      ConflictPart(target, incoming, {}, key, path);
      AssignedPart(target, incoming, {}, key, path);
      if path != [] && path[0] == key && |path| == 1 {
        assert path == [key];
      }
    }
    forall field
      ensures Source(before[prefix + [key] := layer], field) ==
              if prefix <= field && Assigned(target, only, field[|prefix|..]) then Some(layer) else Source(before, field)
    {
      if prefix <= field {
        assert field == prefix + field[|prefix|..];
      }
    }
    assert (prefix + [key])[|prefix|..] == [key];
  }

  lemma {:induction false} DocumentsStep(start: Log, middle: Log, end: Log, target: Json, incoming: Json, done: set<string>,
                      key: string, prefix: Path, layer: string)
    requires target.Object? && incoming.Object? && key in incoming.fields && key !in done
    requires Documents(start, middle, target, Part(incoming, done), prefix, layer)
    requires Documents(middle, end, Merge(target, Part(incoming, done)), Part(incoming, {key}), prefix, layer)
    ensures Documents(start, end, target, Part(incoming, done + {key}), prefix, layer)
  {
    var first, second := middle.overridden[|start.overridden|..], end.overridden[|middle.overridden|..];
    RecordedStep(first, second, target, incoming, done, key, prefix, layer,
                 start.provenance, middle.provenance, end.provenance);
    assert middle.overridden == start.overridden + first && end.overridden == middle.overridden + second;
    Regroup(start.overridden, first, second);
    assert end.overridden[|start.overridden|..] == first + second;
  }

  /** A merge in progress: `body` and `log` after the keys in `done`. */
  ghost predicate MergedSoFar(start: Log, log: Log, target: Json, incoming: Json, done: set<string>, body: Json,
                              prefix: Path, layer: string) {
    && target.Object? && incoming.Object?
    && body == Merge(target, Part(incoming, done))
    && Documents(start, log, target, Part(incoming, done), prefix, layer)
  }

  lemma MergeStarts(log: Log, target: Json, incoming: Json, prefix: Path, layer: string)
    requires target.Object? && incoming.Object?
    ensures MergedSoFar(log, log, target, incoming, {}, target, prefix, layer)
  {
  }

  /** One more key, merged into the body reached so far. */
  lemma {:induction false} MergeAdvances(start: Log, middle: Log, end: Log, target: Json, incoming: Json, done: set<string>, key: string,
                      body: Json, prefix: Path, layer: string)
    requires MergedSoFar(start, middle, target, incoming, done, body, prefix, layer)
    requires key in incoming.fields && key !in done && body.Object?
    requires Documents(middle, end, body, Part(incoming, {key}), prefix, layer)
    ensures MergedSoFar(start, end, target, incoming, done + {key},
                        Object(body.fields[key := MergedEntry(body, incoming, key)]), prefix, layer)
  {
    MergePart(target, incoming, done, key);
    DocumentsStep(start, middle, end, target, incoming, done, key, prefix, layer);
  }

  lemma MergeEnds(start: Log, log: Log, target: Json, incoming: Json, done: set<string>, body: Json, prefix: Path,
                  layer: string)
    requires MergedSoFar(start, log, target, incoming, done, body, prefix, layer)
    requires done == incoming.fields.Keys
    ensures body == Merge(target, incoming) && Documents(start, log, target, incoming, prefix, layer)
  {
    PartOfAll(incoming, done);
  }

  /** Membership in the evidence after a top-level merge. */
  lemma DocumentsExactly(before: Log, after: Log, target: Json, incoming: Json, layer: string, o: Override)
    requires Documents(before, after, target, incoming, [], layer)
    ensures o in after.overridden <==>
            || o in before.overridden
            || (o.newLayer == layer && Conflict(target, incoming, o.field)
                && o.previousLayer == Source(before.provenance, o.field))
    ensures Source(after.provenance, o.field) ==
            if Assigned(target, incoming, o.field) then Some(layer) else Source(before.provenance, o.field)
  {
    var added := after.overridden[|before.overridden|..];
    assert after.overridden == before.overridden + added;
    assert [] + o.field == o.field && o.field[0..] == o.field;
    if o in added {
      var n :| 0 <= n < |added| && added[n] == o;
      assert added[n].field[0..] == added[n].field;
    }
  }

  // ---------- Dotted paths ----------

  /** The key under which the source records a field. */
  function Dotted(path: Path): string {
    if path == [] then ""
    else
      var prefix, key := Dotted(path[..|path| - 1]), path[|path| - 1];
      if prefix == "" then key else prefix + "." + key
  }

  predicate Plain(path: Path) {
    path != [] && path[0] != "" && forall key :: key in path ==> '.' !in key
  }

  lemma {:induction false} DottedOfPlain(path: Path)
    requires Plain(path)
    ensures Dotted(path) != ""
    ensures '.' in Dotted(path) <==> |path| > 1
    ensures |path| == 1 ==> Dotted(path) == path[0]
    ensures |path| > 1 ==> Plain(path[..|path| - 1])
                           && Dotted(path) == Dotted(path[..|path| - 1]) + "." + path[|path| - 1]
  {
    if |path| > 1 {
      var front := path[..|path| - 1];
      forall key | key in front
        ensures '.' !in key
      {
        assert key in path;
      }
      DottedOfPlain(front);
      assert Dotted(path)[|Dotted(front)|] == '.';
    } else {
      assert path[0] in path;
    }
  }

  lemma LastKeyIsDetermined(a: string, x: string, b: string, y: string)
    requires a + "." + x == b + "." + y && '.' !in x && '.' !in y
    ensures a == b && x == y
  {
    var s := a + "." + x;
    assert s[|a|] == '.' && s[|b|] == (b + "." + y)[|b|] == '.';
    assert a == s[..|a|] && x == s[|a| + 1..];
    assert b == (b + "." + y)[..|b|] && y == (b + "." + y)[|b| + 1..];
  }

  /** Dotted paths of keys without dots, the first one non-empty, identify the field. */
  lemma {:induction false} DottedPathIsUnambiguous(first: Path, second: Path)
    requires Plain(first) && Plain(second)
    requires Dotted(first) == Dotted(second)
    ensures first == second
  {
    DottedOfPlain(first);
    DottedOfPlain(second);
    if |first| > 1 {
      var front, rear := first[..|first| - 1], second[..|second| - 1];
      assert first[|first| - 1] in first && second[|second| - 1] in second;
      LastKeyIsDetermined(Dotted(front), first[|first| - 1], Dotted(rear), second[|second| - 1]);
      DottedPathIsUnambiguous(front, rear);
      assert first == front + [first[|first| - 1]] && second == rear + [second[|second| - 1]];
    }
  }
}
