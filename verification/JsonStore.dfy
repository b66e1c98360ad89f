/**
 JSON objects as mutable dictionaries on the heap, merged and pruned in place as in
 backend/app/infrastructure/providers/common.py.  `View` is the value of a dictionary;
 `Repr` are the dictionaries it owns, so that copies can be told from aliases.
 */
module JsonStore {
  import opened JsonValues
  import opened MergeEvidence

  /** An entry: a nested dictionary, or a value that nothing ever updates in place. */
  datatype Cell = Leaf(json: Json) | Node(dict: Dict)

  /** The evidence lists that a resolution appends to. */
  class Evidence {
    var provenance: Provenance
    var overridden: seq<Override>

    constructor ()
      ensures Snapshot() == Log(map[], [])
    {
      provenance, overridden := map[], [];
    }

    ghost function Snapshot(): Log
      reads this
    {
      Log(provenance, overridden)
    }
  }

  class Dict {
    var entries: map<string, Cell>
    ghost var Repr: set<object>

    ghost predicate Valid()
      reads this, Repr
      decreases Repr
    {
      && this in Repr
      && (forall key :: key in entries && entries[key].Leaf? ==> !entries[key].json.Object?)
      && (forall key :: key in entries && entries[key].Node? ==>
            var child := entries[key].dict;
            && child in Repr && child.Repr <= Repr && this !in child.Repr
            && child.Valid())
      && (forall key, other ::
            key in entries && other in entries && key != other && entries[key].Node? && entries[other].Node? ==>
              entries[key].dict.Repr !! entries[other].dict.Repr)
    }

    ghost function View(): Json
      requires Valid()
      reads this, Repr
      decreases Repr
    {
      Object(map key | key in entries ::
        if entries[key].Leaf? then entries[key].json else entries[key].dict.View())
    }

    constructor ()
      ensures Valid() && fresh(Repr) && entries == map[]
      ensures View() == EMPTY
    {
      entries := map[];
      Repr := {this};
    }

    /** Stores `value`, held by a cell that shares nothing with this dictionary. */
    method Put(key: string, cell: Cell, ghost view: Json, ghost value: Json)
      requires Valid() && View() == view
      requires ValidCell(cell) && CellRepr(cell) !! Repr && CellView(cell) == value
      modifies this
      ensures Valid() && Repr == old(Repr) + CellRepr(cell)
      ensures View() == Object(view.fields[key := value])
      ensures entries == old(entries)[key := cell]
    {
      ghost var cells, footprint := entries, Repr;
      ValidGivesCells(key);
      Repr := Repr + CellRepr(cell);
      entries := entries[key := cell];
      CellsGiveValid(cells, footprint, key, cell, view.fields, value);
    }

    lemma ValidGivesCells(key: string)
      requires Valid()
      ensures CellsHold(entries, View().fields, this, Repr, key)
    {
    }

    lemma CellsAreValid(cells: map<string, Cell>, footprint: set<object>, key: string, cell: Cell,
                        fields: map<string, Json>)
      requires this in footprint && CellsHold(cells, fields, this, footprint, key)
      requires entries == cells[key := cell] && Repr == footprint + CellRepr(cell)
      requires ValidCell(cell) && CellRepr(cell) !! footprint
      ensures Valid()
    {
    }

    lemma CellsGiveValid(cells: map<string, Cell>, footprint: set<object>, key: string, cell: Cell,
                         fields: map<string, Json>, value: Json)
      requires this in footprint && CellsHold(cells, fields, this, footprint, key) && cells.Keys == fields.Keys
      requires entries == cells[key := cell] && Repr == footprint + CellRepr(cell)
      requires ValidCell(cell) && CellRepr(cell) !! footprint && CellView(cell) == value
      ensures Valid() && View() == Object(fields[key := value])
    {
      CellsAreValid(cells, footprint, key, cell, fields);
      ViewFromCells(fields, key, value);
    }

    lemma ViewField(key: string)
      requires Valid() && key in entries
      ensures ValidCell(entries[key]) && CellRepr(entries[key]) < Repr
      ensures key in View().fields && View().fields[key] == CellView(entries[key])
    {
    }

    /** `deepcopy` of a dictionary. */
    method DeepCopy(ghost view: Json) returns (copy: Dict)
      requires Valid() && View() == view
      ensures copy.Valid() && fresh(copy.Repr) && copy.View() == view
      decreases Repr, 1
    {
      copy := new Dict();
      var todo := entries.Keys;
      ghost var done: set<string> := {};
      while todo != {}
        invariant done !! todo && done + todo == entries.Keys
        invariant copy.Valid() && fresh(copy.Repr)
        invariant copy.View() == Part(view, done)
        decreases todo
      {
        var key :| key in todo;
        CopyEntry(key, copy, view, done);
        todo, done := todo - {key}, done + {key};
      }
      assert Part(view, done).fields == view.fields;
    }

    method CopyEntry(key: string, copy: Dict, ghost view: Json, ghost done: set<string>)
      requires Valid() && key in entries && View() == view
      requires copy.Valid() && copy.Repr !! Repr && copy.View() == Part(view, done)
      modifies copy
      ensures copy.Valid() && fresh(copy.Repr - old(copy.Repr))
      ensures copy.View() == Part(view, done + {key})
      decreases Repr, 0
    {
      ViewField(key);
      PartGrows(view, done, key);
      var cell := CopyCell(entries[key], view.fields[key]);
      copy.Put(key, cell, Part(view, done), view.fields[key]);
    }

    /**
     `_deep_merge` of `incoming` into this dictionary, in place.  `view` and `layer` are the
     values of the two dictionaries.
     */
    method DeepMerge(incoming: Dict, layerName: string, evidence: Evidence, prefix: Path,
                     ghost view: Json, ghost layer: Json)
      requires Valid() && View() == view
      requires incoming.Valid() && incoming.View() == layer && incoming.Repr !! Repr
      requires evidence !in Repr && evidence !in incoming.Repr
      modifies Repr, evidence
      ensures Valid() && fresh(Repr - old(Repr))
      ensures View() == Merge(view, layer)
      ensures Documents(old(evidence.Snapshot()), evidence.Snapshot(), view, layer, prefix, layerName)
      decreases incoming.Repr, 2
    {
      var todo := incoming.entries.Keys;
      ghost var done: set<string>, start := {}, evidence.Snapshot();
      MergeStarts(start, view, layer, prefix, layerName);
      while todo != {}
        invariant done !! todo && done + todo == layer.fields.Keys
        invariant unchanged(incoming.Repr) && incoming.Repr !! Repr && evidence !in Repr
        invariant Valid() && fresh(Repr - old(Repr))
        invariant MergedSoFar(start, evidence.Snapshot(), view, layer, done, View(), prefix, layerName)
        decreases todo
      {
        var key :| key in todo;
        MergeKey(key, incoming, layerName, evidence, prefix, start, view, layer, done);
        todo, done := todo - {key}, done + {key};
      }
      MergeEnds(start, evidence.Snapshot(), view, layer, done, View(), prefix, layerName);
    }

    /** One iteration of the loop of `_deep_merge`. */
    method MergeKey(key: string, incoming: Dict, layerName: string, evidence: Evidence, prefix: Path,
                    ghost start: Log, ghost view: Json, ghost layer: Json, ghost done: set<string>)
      requires Valid() && MergedSoFar(start, evidence.Snapshot(), view, layer, done, View(), prefix, layerName)
      requires incoming.Valid() && incoming.View() == layer && incoming.Repr !! Repr
      requires key in layer.fields && key !in done
      requires evidence !in Repr && evidence !in incoming.Repr
      modifies Repr, evidence
      ensures Valid() && fresh(Repr - old(Repr))
      ensures MergedSoFar(start, evidence.Snapshot(), view, layer, done + {key}, View(), prefix, layerName)
      decreases incoming.Repr, 1
    {
      ghost var body, middle := View(), evidence.Snapshot();
      MergeEntry(key, incoming, layerName, evidence, prefix, body, layer);
      MergeAdvances(start, middle, evidence.Snapshot(), view, layer, done, key, body, prefix, layerName);
    }

    /** One key of the incoming layer. */
    method MergeEntry(key: string, incoming: Dict, layerName: string, evidence: Evidence, prefix: Path,
                      ghost view: Json, ghost layer: Json)
      requires Valid() && View() == view
      requires incoming.Valid() && incoming.View() == layer && incoming.Repr !! Repr
      requires key in incoming.entries
      requires evidence !in Repr && evidence !in incoming.Repr
      modifies Repr, evidence
      ensures Valid() && fresh(Repr - old(Repr))
      ensures View() == Object(view.fields[key := MergedEntry(view, layer, key)])
      ensures Documents(old(evidence.Snapshot()), evidence.Snapshot(), view, Part(layer, {key}), prefix, layerName)
      decreases incoming.Repr, 0
    {
      incoming.ViewField(key);
      var value := incoming.entries[key];
      if key in entries && entries[key].Node? && value.Node? {
        ghost var before := evidence.Snapshot();
        MergeNested(key, value.dict, layerName, evidence, prefix + [key], view, layer.fields[key]);
        DocumentsNested(before, evidence.Snapshot(), view, layer, key, prefix, layerName);
      } else {
        AssignEntry(key, value, layerName, evidence, prefix, view, layer);
      }
    }

    method AssignEntry(key: string, value: Cell, layerName: string, evidence: Evidence, prefix: Path,
                       ghost view: Json, ghost layer: Json)
      requires Valid() && View() == view && evidence !in Repr
      requires layer.Object? && key in layer.fields && evidence !in CellRepr(value)
      requires ValidCell(value) && CellView(value) == layer.fields[key] && CellRepr(value) !! Repr
      requires !(key in entries && entries[key].Node? && value.Node?)
      modifies this, evidence
      ensures Valid() && fresh(Repr - old(Repr))
      ensures View() == Object(view.fields[key := layer.fields[key]])
      ensures Documents(old(evidence.Snapshot()), evidence.Snapshot(), view, Part(layer, {key}), prefix, layerName)
      decreases CellRepr(value), 4
    {
      DocumentsAssignment(evidence.Snapshot(), view, layer, key, prefix, layerName);
      RecordAssignment(key, value, layerName, evidence, prefix, view, layer);
      PutCopy(key, value, view, layer.fields[key]);
    }

    method PutCopy(key: string, cell: Cell, ghost view: Json, ghost value: Json)
      requires Valid() && View() == view
      requires ValidCell(cell) && CellView(cell) == value
      modifies this
      ensures Valid() && fresh(Repr - old(Repr))
      ensures View() == Object(view.fields[key := value])
      decreases CellRepr(cell), 3
    {
      var copy := CopyCell(cell, value);
      Put(key, copy, view, value);
    }

    /** The recursive call, on an entry that is a dictionary on both sides. */
    method MergeNested(key: string, incoming: Dict, layerName: string, evidence: Evidence, field: Path,
                       ghost view: Json, ghost layer: Json)
      requires Valid() && View() == view && key in entries && entries[key].Node?
      requires incoming.Valid() && incoming.View() == layer && incoming.Repr !! Repr
      requires evidence !in Repr && evidence !in incoming.Repr
      modifies Repr, evidence
      ensures Valid() && fresh(Repr - old(Repr))
      ensures key in view.fields && view.fields[key].Object?
      ensures View() == Object(view.fields[key := Merge(view.fields[key], layer)])
      ensures Documents(old(evidence.Snapshot()), evidence.Snapshot(), view.fields[key], layer, field, layerName)
      decreases incoming.Repr, 3
    {
      ViewField(key);
      var child := entries[key].dict;
      child.DeepMerge(incoming, layerName, evidence, field, view.fields[key], layer);
      forall other | other in entries && other != key
        ensures ValidCell(entries[other]) && CellRepr(entries[other]) !! child.Repr
        ensures CellView(entries[other]) == view.fields[other]
      {
        assert old(ValidCell(entries[other]));
        assert CellRepr(entries[other]) !! old(child.Repr);
      }
      Adopt(key, view, Merge(view.fields[key], layer));
    }

    /** This dictionary holds `view`, but for the dictionary under `key`, which holds `child`. */
    ghost predicate HoldsExcept(view: Json, key: string, child: Json)
      reads this, Repr, if key in entries && entries[key].Node? then {entries[key].dict} + entries[key].dict.Repr else {}
    {
      && this in Repr && key in entries && entries[key].Node?
      && entries[key].dict in Repr && this !in entries[key].dict.Repr
      && entries[key].dict.Valid() && entries[key].dict.View() == child
      && view.Object? && view.fields.Keys == entries.Keys
      && (forall other :: other in entries && other != key ==>
            && (entries[other].Node? ==> entries[other].dict in Repr && entries[other].dict.Repr <= Repr)
            && ValidCell(entries[other]) && CellView(entries[other]) == view.fields[other]
            && this !in CellRepr(entries[other])
            && CellRepr(entries[other]) !! entries[key].dict.Repr)
      && (forall other, another ::
            other in entries && another in entries && other != another && other != key && another != key
            && entries[other].Node? && entries[another].Node? ==>
              entries[other].dict.Repr !! entries[another].dict.Repr)
    }

    /**
     All entries but the one under `key` hold what `view` says.  Nothing here depends on the
     dictionaries of `hole`, where the child under `key` lives.
     */
    ghost predicate HoldsBeside(view: Json, key: string, child: Dict, hole: set<object>)
      reads this, Repr - hole
    {
      && this in Repr && this !in hole && child in hole && hole <= Repr
      && key in entries && entries[key] == Node(child)
      && view.Object? && view.fields.Keys == entries.Keys
      && (forall other :: other in entries && other != key ==>
            match entries[other]
            case Leaf(json) => !json.Object? && json == view.fields[other]
            case Node(dict) =>
              && dict in Repr && dict !in hole && dict.Repr <= Repr && dict.Repr !! hole && this !in dict.Repr
              && dict.Valid() && dict.View() == view.fields[other])
      && (forall other, another ::
            other in entries && another in entries && other != another && other != key && another != key
            && entries[other].Node? && entries[another].Node? ==>
              entries[other].dict.Repr !! entries[another].dict.Repr)
    }

    /** The same, with the footprint. */
    ghost predicate Holds(view: Json, key: string, child: Dict, footprint: set<object>, hole: set<object>)
      reads this, footprint - hole
    {
      Repr == footprint && HoldsBeside(view, key, child, hole)
    }

    lemma ValidHoldsBeside(key: string, child: Dict)
      requires Valid() && key in entries && entries[key] == Node(child)
      ensures HoldsBeside(View(), key, child, child.Repr)
    {
    }

    lemma BesideIsExcept(view: Json, key: string, child: Dict, value: Json)
      requires child.Valid() && child.View() == value && HoldsBeside(view, key, child, child.Repr)
      ensures HoldsExcept(view, key, value)
    {
    }

    /** Brings the new dictionaries of a merged child into the footprint of its parent. */
    ghost method Adopt(key: string, view: Json, value: Json)
      requires HoldsExcept(view, key, value)
      modifies `Repr
      ensures Valid() && Repr == old(Repr) + old(entries[key].dict.Repr)
      ensures View() == Object(view.fields[key := value])
    {
      Repr := Repr + entries[key].dict.Repr;
      forall other | other in entries
        ensures ValidCell(entries[other])
        ensures CellView(entries[other]) == if other == key then value else view.fields[other]
      {
        assert old(ValidCell(entries[other]));
      }
      assert Valid();
      ViewFromCells(view.fields, key, value);
    }

    /** One step of the upward loop of `_remove_path`: an entry that became empty is dropped. */
    method DropIfEmpty(key: string, ghost view: Json, ghost child: Json)
      requires HoldsExcept(view, key, child) && entries[key].dict.Repr <= Repr
      modifies `entries
      ensures Valid()
      ensures View() == Object(if child.fields == map[] then view.fields - {key} else view.fields[key := child])
    {
      assert child.fields.Keys == entries[key].dict.entries.Keys;
      if entries[key].dict.entries == map[] {
        entries := entries - {key};
        forall other | other in entries
          ensures ValidCell(entries[other]) && CellView(entries[other]) == view.fields[other]
        {
          assert old(ValidCell(entries[other]));
        }
        assert Valid();
        assert View().fields == view.fields - {key};
      } else {
        assert Valid();
        ViewFromCells(view.fields, key, child);
      }
    }

    /** `current.pop(key, None)`. */
    method Pop(key: string, ghost view: Json)
      requires Valid() && View() == view
      modifies `entries
      ensures Valid() && View() == Object(view.fields - {key})
    {
      entries := entries - {key};
      forall other | other in entries
        ensures ValidCell(entries[other]) && CellView(entries[other]) == view.fields[other]
      {
        assert old(ValidCell(entries[other]));
      }
      assert Valid();
      assert View().fields == view.fields - {key};
    }

    /** `_path_exists`. */
    method Contains(path: Path) returns (found: bool)
      requires Valid()
      ensures found == PathExists(View(), path)
    {
      var current := Node(this);
      for i := 0 to |path|
        invariant ValidCell(current)
        invariant Lookup(View(), path) == Lookup(CellView(current), path[i..])
      {
        if current.Leaf? || path[i] !in current.dict.entries {
          return false;
        }
        current.dict.ViewField(path[i]);
        current := current.dict.entries[path[i]];
      }
      return true;
    }

    /** The downward loop of `_remove_path`. */
    method Descend(path: Path, ghost view: Json)
        returns (arrived: bool, ancestors: seq<Dict>, current: Dict, ghost views: seq<Json>)
      requires Valid() && View() == view && path != []
      ensures arrived == Reaches(view, path)
      ensures arrived ==> |ancestors| == |path| - 1 && Chain(ancestors + [current], path, views)
                          && (ancestors + [current])[0] == this && views[0] == view
                          && Reaches(views[|path| - 1], path[|path| - 1..])
    {
      current, ancestors, views := this, [], [view];
      for i := 0 to |path| - 1
        invariant |ancestors| == i
        invariant Chain(ancestors + [current], path, views)
        invariant (ancestors + [current])[0] == this && views[0] == view
        invariant Reaches(view, path) <==> Reaches(views[i], path[i..])
      {
        ghost var chain := ancestors + [current];
        assert chain[i] == current && current.Valid() && current.View() == views[i];
        assert path[i..][0] == path[i] && path[i..][1..] == path[i + 1..];
        if path[i] !in current.entries || current.entries[path[i]].Leaf? {
          current.NoChild(path[i], path[i..]);
          return false, ancestors, current, views;
        }
        current.ViewField(path[i]);
        ancestors := ancestors + [current];
        current := current.entries[path[i]].dict;
        views := views + [current.View()];
        LongerChain(chain, current, path, views[..i + 1]);
        assert ancestors + [current] == chain + [current];
      }
      arrived := true;
    }

    lemma NoChild(key: string, path: Path)
      requires Valid() && |path| > 1 && path[0] == key
      requires key !in entries || entries[key].Leaf?
      ensures !Reaches(View(), path)
    {
      if key in entries {
        ViewField(key);
      }
    }

    /** `_remove_path`: walk down, pop the last key, then drop the ancestors that became empty. */
    method RemovePath(path: Path, ghost view: Json)
      requires Valid() && View() == view && path != []
      modifies Repr
      ensures Valid() && Repr == old(Repr)
      ensures View() == JsonValues.RemovePath(view, path)
    {
      var arrived, ancestors, current, views := Descend(path, view);
      if !arrived {
        return;
      }
      var last := |path| - 1;
      assert (ancestors + [current])[last] == current && path[last..] == [path[last]];
      Climb(path, ancestors, current, views);
    }

    /** The removal itself, and the way back up. */
    method Climb(path: Path, ancestors: seq<Dict>, current: Dict, ghost views: seq<Json>)
      requires path != [] && |ancestors| == |path| - 1
      requires Chain(ancestors + [current], path, views) && (ancestors + [current])[0] == this
      requires Reaches(views[|path| - 1], path[|path| - 1..])
      modifies Repr
      ensures Valid() && Repr == old(Repr)
      ensures Reaches(views[0], path) && View() == Prune(views[0], path)
    {
      ghost var chain := ancestors + [current];
      ghost var reprs := Footprints(chain);
      var last := |path| - 1;
      ChainHolds(chain, path, views, reprs);
      assert chain[last] == current && current.Valid();
      current.Pop(path[last], views[last]);
      Rise(path, ancestors, chain, views, reprs);
    }

    /** The upward loop of `_remove_path`. */
    method Rise(path: Path, ancestors: seq<Dict>, ghost chain: seq<Dict>, ghost views: seq<Json>,
                ghost reprs: seq<set<object>>)
      requires |ancestors| + 1 == |path| == |chain| == |views| && chain[..|ancestors|] == ancestors && chain[0] == this
      requires Nested(chain, reprs)
      requires Linked(views, path)
      requires forall j :: 0 <= j < |ancestors| ==> chain[j].Holds(views[j], path[j], chain[j + 1], reprs[j], reprs[j + 1])
      requires Reaches(views[|ancestors|], path[|ancestors|..])
      requires chain[|ancestors|].Valid() && chain[|ancestors|].Repr == reprs[|ancestors|]
      requires chain[|ancestors|].View() == Prune(views[|ancestors|], path[|ancestors|..])
      modifies ancestors
      ensures Valid() && Repr == reprs[0]
      ensures Reaches(views[0], path) && View() == Prune(views[0], path)
    {
      var i := |ancestors|;
      while i > 0
        invariant 0 <= i <= |ancestors|
        invariant Reaches(views[i], path[i..])
        invariant chain[i].Valid() && chain[i].Repr == reprs[i] && chain[i].View() == Prune(views[i], path[i..])
        invariant forall j :: 0 <= j < i ==> chain[j].Holds(views[j], path[j], chain[j + 1], reprs[j], reprs[j + 1])
      {
        i := i - 1;
        assert path[i..][0] == path[i] && path[i..][1..] == path[i + 1..];
        ghost var child := Prune(views[i + 1], path[i + 1..]);
        PruneParent(views[i], path[i..]);
        chain[i].BesideIsExcept(views[i], path[i], chain[i + 1], child);
        ancestors[i].DropIfEmpty(path[i], views[i], child);
      }
      assert path[0..] == path;
    }

    lemma ViewFromCells(fields: map<string, Json>, key: string, value: Json)
      requires Valid() && key in entries && CellView(entries[key]) == value
      requires fields.Keys + {key} == entries.Keys
      requires forall other :: other in entries && other != key ==> CellView(entries[other]) == fields[other]
      ensures View() == Object(fields[key := value])
    {
      assert View().fields == fields[key := value];
    }

    /** The evidence part of an assignment; an override is one that replaces a different value. */
    method RecordAssignment(key: string, value: Cell, layerName: string, evidence: Evidence, prefix: Path,
                            ghost view: Json, ghost layer: Json)
      requires Valid() && View() == view
      requires layer.Object? && key in layer.fields
      requires ValidCell(value) && CellView(value) == layer.fields[key]
      requires !(key in entries && entries[key].Node? && value.Node?)
      modifies evidence
      ensures evidence.Snapshot() == Assign(old(evidence.Snapshot()), view, layer, key, prefix, layerName)
    {
      var field := prefix + [key];
      if key in entries {
        ViewField(key);
        if entries[key].Node? || value.Node? || entries[key].json != value.json {
          evidence.overridden := evidence.overridden + [Override(field, Source(evidence.provenance, field), layerName)];
        }
      }
      evidence.provenance := evidence.provenance[field := layerName];
    }
  }

  ghost function Footprints(dicts: seq<Dict>): (reprs: seq<set<object>>)
    reads set d: Dict | d in dicts
    ensures |reprs| == |dicts|
    ensures forall j :: 0 <= j < |dicts| ==> reprs[j] == dicts[j].Repr
  {
    if dicts == [] then [] else Footprints(dicts[..|dicts| - 1]) + [dicts[|dicts| - 1].Repr]
  }

  lemma LongerChain(dicts: seq<Dict>, next: Dict, path: Path, views: seq<Json>)
    requires Chain(dicts, path, views) && dicts != [] && |dicts| < |path|
    requires var last := |dicts| - 1;
             path[last] in dicts[last].entries && dicts[last].entries[path[last]] == Node(next)
    ensures next.Valid() && Chain(dicts + [next], path, views + [next.View()])
  {
    var last := |dicts| - 1;
    assert dicts[last].Valid();
    forall j | 0 <= j < |dicts|
      ensures next in dicts[j].Repr && next.Repr <= dicts[j].Repr && dicts[j] !in next.Repr
    {
    }
  }

  /** Nested dictionaries met on the way down `path`, and their values. */
  ghost predicate Chain(dicts: seq<Dict>, path: Path, views: seq<Json>)
    reads set d: Dict | d in dicts, set d: Dict, o: object | d in dicts && o in d.Repr :: o
  {
    && |dicts| == |views| <= |path|
    && (forall j :: 0 <= j < |dicts| ==> dicts[j].Valid() && dicts[j].View() == views[j])
    && (forall j :: 0 <= j < |dicts| - 1 ==>
          path[j] in dicts[j].entries && dicts[j].entries[path[j]] == Node(dicts[j + 1]))
    && (forall j, k :: 0 <= j < k < |dicts| ==>
          dicts[k] in dicts[j].Repr && dicts[k].Repr <= dicts[j].Repr && dicts[j] !in dicts[k].Repr)
  }

  /** Later dictionaries lie within the footprints of earlier ones. */
  ghost predicate Nested(dicts: seq<Dict>, reprs: seq<set<object>>) {
    && |reprs| == |dicts|
    && (forall j, k :: 0 <= j <= k < |dicts| ==> dicts[k] in reprs[j])
    && (forall j, k :: 0 <= j < k < |dicts| ==> reprs[k] <= reprs[j] && dicts[j] !in reprs[k])
  }

  /** Each view holds the next one under the key of the path. */
  ghost predicate Linked(views: seq<Json>, path: Path)
    requires |views| <= |path|
  {
    forall j :: 0 <= j < |views| - 1 ==>
      views[j].Object? && path[j] in views[j].fields && views[j].fields[path[j]] == views[j + 1]
  }

  lemma ChainHolds(dicts: seq<Dict>, path: Path, views: seq<Json>, reprs: seq<set<object>>)
    requires Chain(dicts, path, views) && dicts != [] && |reprs| == |dicts|
    requires forall j :: 0 <= j < |dicts| ==> reprs[j] == dicts[j].Repr
    ensures Nested(dicts, reprs) && Linked(views, path)
    ensures forall j :: 0 <= j < |dicts| - 1 ==> dicts[j].Holds(views[j], path[j], dicts[j + 1], reprs[j], reprs[j + 1])
  {
    forall j | 0 <= j < |dicts| - 1
      ensures dicts[j].Holds(views[j], path[j], dicts[j + 1], reprs[j], reprs[j + 1])
      ensures views[j].Object? && path[j] in views[j].fields && views[j].fields[path[j]] == views[j + 1]
    {
      dicts[j].ValidHoldsBeside(path[j], dicts[j + 1]);
      dicts[j].ViewField(path[j]);
    }
  }

  /** The cells but the one under `key` hold `fields`, apart from each other and from their owner. */
  ghost predicate CellsHold(cells: map<string, Cell>, fields: map<string, Json>, owner: Dict, footprint: set<object>,
                            key: string)
    reads footprint - {owner}
  {
    && (forall other :: other in cells && other != key ==>
          && other in fields
          && match cells[other]
             case Leaf(json) => !json.Object? && json == fields[other]
             case Node(dict) =>
               && dict in footprint && dict != owner && dict.Repr <= footprint && owner !in dict.Repr
               && dict.Valid() && dict.View() == fields[other])
    && (forall other, another ::
          other in cells && another in cells && other != another && other != key && another != key
          && cells[other].Node? && cells[another].Node? ==>
            && cells[other].dict in footprint - {owner} && cells[another].dict in footprint - {owner}
            && cells[other].dict.Repr !! cells[another].dict.Repr)
  }

  ghost predicate ValidCell(cell: Cell)
    reads if cell.Node? then {cell.dict} + cell.dict.Repr else {}
  {
    match cell
    case Leaf(json) => !json.Object?
    case Node(dict) => dict.Valid()
  }

  ghost function CellRepr(cell: Cell): set<object>
    reads if cell.Node? then {cell.dict} else {}
  {
    if cell.Node? then cell.dict.Repr else {}
  }

  ghost function CellView(cell: Cell): Json
    requires ValidCell(cell)
    reads if cell.Node? then {cell.dict} + cell.dict.Repr else {}
  {
    match cell
    case Leaf(json) => json
    case Node(dict) => dict.View()
  }

  /** `deepcopy` of any value. */
  method CopyCell(cell: Cell, ghost value: Json) returns (copy: Cell)
    requires ValidCell(cell) && CellView(cell) == value
    ensures ValidCell(copy) && fresh(CellRepr(copy)) && CellView(copy) == value
    decreases CellRepr(cell), 2
  {
    match cell {
      case Leaf(_) => copy := cell;
      case Node(dict) =>
        var nested := dict.DeepCopy(value);
        copy := Node(nested);
    }
  }
}
