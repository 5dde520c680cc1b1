/** The versions of a creative: a forest of briefs growing one row at a time, and the walk that
    must agree with the depth and root stored on the row (app/db/repo.py `save_brief`, `lineage`,
    `revision_no`). */
module Lineage {
  import opened Options

  datatype Status = Draft | Superseded | Approved

  /** `root` is optional because rows older than the column have none. */
  datatype Brief = Brief(id: nat, parent: Option<nat>, root: Option<nat>, version: int, status: Status)

  type Store = map<nat, Brief>

  /** The primary key. */
  ghost predicate Keyed(briefs: Store) {
    forall k :: k in briefs ==> briefs[k].id == k
  }

  function Saved(briefs: Store, id: nat, parent: Option<nat>): Store
    requires parent.Some? ==> parent.value in briefs
  {
    match parent
    case None => briefs[id := Brief(id, None, Some(id), 1, Draft)]
    case Some(p) =>
      var was := briefs[p];
      var root := if was.root.Some? then was.root.value else was.id;
      briefs[p := was.(status := Superseded)][id := Brief(id, Some(was.id), Some(root), was.version + 1, Draft)]
  }

  /** Ids from `id` upwards, until a root, a missing parent, or one already seen. */
  ghost function Up(briefs: Store, id: nat, seen: set<nat>): seq<nat>
    decreases briefs.Keys - seen
  {
    if id !in briefs || id in seen then []
    else match briefs[id].parent
      case None => [id]
      case Some(p) => [id] + Up(briefs, p, seen + {id})
  }

  function Reversed<T>(xs: seq<T>): (ys: seq<T>)
    ensures |ys| == |xs|
    ensures forall i :: 0 <= i < |xs| ==> ys[i] == xs[|xs| - 1 - i]
  {
    if xs == [] then [] else Reversed(xs[1..]) + [xs[0]]
  }

  /** lineage, as ids, root first. */
  ghost function Chain(briefs: Store, id: nat): seq<nat> {
    Reversed(Up(briefs, id, {}))
  }

  // ------------------------------------------------------------------ any store at all

  ghost predicate Linked(briefs: Store, up: seq<nat>) {
    && (forall i :: 0 <= i < |up| ==> up[i] in briefs)
    && (forall i :: 0 <= i < |up| - 1 ==> briefs[up[i]].parent == Some(up[i + 1]))
    && (forall i, j :: 0 <= i < j < |up| ==> up[i] != up[j])
  }

  /** On every store, cycles and dangling parents included, the walk ends with a chain of
      distinct briefs, each the parent of the next, that stops only where it has to. */
  lemma {:induction false} UpIsAChain(briefs: Store, id: nat, seen: set<nat>)
    ensures var up := Up(briefs, id, seen);
            && Linked(briefs, up)
            && (forall i :: 0 <= i < |up| ==> up[i] !in seen)
            && (id in briefs && id !in seen ==> up != [] && up[0] == id)
            && (up != [] ==> var top := briefs[up[|up| - 1]].parent;
                  top.Some? ==> top.value !in briefs || top.value in seen || top.value in up)
    decreases briefs.Keys - seen
  {
    if id in briefs && id !in seen && briefs[id].parent.Some? {
      var p := briefs[id].parent.value;
      UpIsAChain(briefs, p, seen + {id});
      var rest := Up(briefs, p, seen + {id});
      assert Up(briefs, id, seen) == [id] + rest;
    }
  }

  // ------------------------------------------------------------------ stores save_brief built

  ghost predicate GrownAt(briefs: Store, k: nat) {
    k in briefs ==>
      match briefs[k].parent
      case None => briefs[k].version == 1 && briefs[k].root == Some(k)
      case Some(p) => p in briefs && briefs[k].version == briefs[p].version + 1 > 1 && briefs[k].root == briefs[p].root
                      && briefs[k].root.Some?
  }

  ghost predicate Grown(briefs: Store) {
    && Keyed(briefs)
    && forall k: nat {:trigger GrownAt(briefs, k)} :: GrownAt(briefs, k)
  }

  datatype Save = Save(id: nat, parent: Option<nat>)

  /** uuid4 never repeats, and a parent is a row of the store. */
  predicate Possible(briefs: Store, s: Save) {
    s.id !in briefs && (s.parent.Some? ==> s.parent.value in briefs)
  }

  ghost function After(saves: seq<Save>): Store {
    if saves == [] then map[]
    else
      var before := After(saves[..|saves| - 1]);
      var s := saves[|saves| - 1];
      if Possible(before, s) then Saved(before, s.id, s.parent) else before
  }

  ghost predicate Positive(briefs: Store) {
    forall k :: k in briefs ==> briefs[k].version >= 1
  }

  lemma SaveGrows(briefs: Store, s: Save)
    requires Grown(briefs) && Positive(briefs) && Possible(briefs, s)
    ensures Grown(Saved(briefs, s.id, s.parent)) && Positive(Saved(briefs, s.id, s.parent))
  {
    var grown := Saved(briefs, s.id, s.parent);
    forall k: nat ensures GrownAt(grown, k) {
      assert GrownAt(briefs, k);
      if s.parent.Some? { assert GrownAt(briefs, s.parent.value); }
    }
  }

  lemma {:induction false} OnlySaves(saves: seq<Save>)
    ensures Grown(After(saves)) && Positive(After(saves))
  {
    if saves != [] {
      OnlySaves(saves[..|saves| - 1]);
      var s := saves[|saves| - 1];
      if Possible(After(saves[..|saves| - 1]), s) { SaveGrows(After(saves[..|saves| - 1]), s); }
    }
  }

  lemma {:induction false} UpIsAsDeepAsVersion(briefs: Store, id: nat, seen: set<nat>)
    requires Grown(briefs) && Positive(briefs) && id in briefs
    requires forall k :: k in seen && k in briefs ==> briefs[k].version > briefs[id].version
    ensures var up := Up(briefs, id, seen);
            && |up| == briefs[id].version
            && briefs[id].root == Some(up[|up| - 1])
            && (forall i :: 0 <= i < |up| ==> up[i] in briefs && briefs[up[i]].root == briefs[id].root
                                              && briefs[up[i]].version == briefs[id].version - i)
    decreases briefs[id].version
  {
    assert GrownAt(briefs, id);
    if briefs[id].parent.Some? {
      var p := briefs[id].parent.value;
      UpIsAsDeepAsVersion(briefs, p, seen + {id});
      assert Up(briefs, id, seen) == [id] + Up(briefs, p, seen + {id});
    }
  }

  lemma GrownLineage(briefs: Store, id: nat)
    requires Grown(briefs) && Positive(briefs) && id in briefs
    ensures var chain := Chain(briefs, id);
            && |chain| == briefs[id].version
            && chain[|chain| - 1] == id && briefs[id].root == Some(chain[0])
            && (forall i :: 0 <= i < |chain| ==> chain[i] in briefs && briefs[chain[i]].version == i + 1
                                                 && briefs[chain[i]].root == Some(chain[0]))
            && (forall i :: 0 < i < |chain| ==> briefs[chain[i]].parent == Some(chain[i - 1]))
  {
    UpIsAsDeepAsVersion(briefs, id, {});
    UpIsAChain(briefs, id, {});
    var up, chain := Up(briefs, id, {}), Chain(briefs, id);
    forall i | 0 < i < |chain| ensures briefs[chain[i]].parent == Some(chain[i - 1]) {
      assert chain[i] == up[|up| - 1 - i] && chain[i - 1] == up[|up| - i];
    }
  }

  /** In every store built by saving briefs, a brief's lineage is a parent-linked chain of exactly
      `version` briefs, beginning at its stored root and ending at itself, one version a step, all
      under one root. So revision_no is version - 1. */
  lemma LineageAgreesWithTheRow(saves: seq<Save>, id: nat)
    requires id in After(saves)
    ensures var briefs := After(saves);
            var chain := Chain(briefs, id);
            && |chain| == briefs[id].version
            && chain[|chain| - 1] == id && briefs[id].root == Some(chain[0])
            && (forall i :: 0 <= i < |chain| ==> chain[i] in briefs && briefs[chain[i]].version == i + 1
                                                 && briefs[chain[i]].root == Some(chain[0]))
            && (forall i :: 0 < i < |chain| ==> briefs[chain[i]].parent == Some(chain[i - 1]))
  {
    OnlySaves(saves);
    GrownLineage(After(saves), id);
  }

  lemma {:induction false} UpUnchanged(briefs: Store, s: Save, id: nat, seen: set<nat>)
    requires Grown(briefs) && Positive(briefs) && Possible(briefs, s) && id in briefs
    requires forall k :: k in seen && k in briefs ==> briefs[k].version > briefs[id].version
    ensures Up(Saved(briefs, s.id, s.parent), id, seen) == Up(briefs, id, seen)
    decreases briefs[id].version
  {
    assert GrownAt(briefs, id);
    if briefs[id].parent.Some? {
      UpUnchanged(briefs, s, briefs[id].parent.value, seen + {id});
    }
  }

  /** Saving a version extends its parent's lineage by itself and disturbs no other. */
  lemma SavingExtends(saves: seq<Save>, s: Save, id: nat)
    requires Possible(After(saves), s) && id in After(saves)
    ensures Chain(After(saves + [s]), id) == Chain(After(saves), id)
    ensures s.parent == Some(id) ==> Chain(After(saves + [s]), s.id) == Chain(After(saves), id) + [s.id]
  {
    var briefs := After(saves);
    OnlySaves(saves);
    assert (saves + [s])[..|saves|] == saves;
    var grown := Saved(briefs, s.id, s.parent);
    assert After(saves + [s]) == grown;
    UpUnchanged(briefs, s, id, {});
    if s.parent == Some(id) {
      SaveGrows(briefs, s);
      SeenAboveDoesNotMatter(grown, id, s.id);
      FirstStep(grown, s.id, id);
      assert Up(grown, s.id, {})[1..] == Up(briefs, id, {});
    }
  }

  lemma FirstStep(briefs: Store, id: nat, parent: nat)
    requires id in briefs && briefs[id].parent == Some(parent)
    ensures Up(briefs, id, {}) == [id] + Up(briefs, parent, {id})
  {
    assert {} + {id} == {id};
  }

  lemma {:induction false} SeenIrrelevant(briefs: Store, id: nat, seen: set<nat>, more: set<nat>)
    requires Grown(briefs) && Positive(briefs) && id in briefs
    requires forall k :: k in seen + more && k in briefs ==> briefs[k].version > briefs[id].version
    ensures Up(briefs, id, seen) == Up(briefs, id, more)
    decreases briefs[id].version
  {
    assert GrownAt(briefs, id);
    if briefs[id].parent.Some? {
      SeenIrrelevant(briefs, briefs[id].parent.value, seen + {id}, more + {id});
    }
  }

  lemma SeenAboveDoesNotMatter(briefs: Store, id: nat, child: nat)
    requires Grown(briefs) && Positive(briefs) && id in briefs && child in briefs
             && briefs[child].version > briefs[id].version
    ensures Up(briefs, id, {child}) == Up(briefs, id, {})
  {
    SeenIrrelevant(briefs, id, {child}, {});
  }

  /** Somebody's parent. */
  ghost predicate HasChild(briefs: Store, id: nat) {
    exists k :: k in briefs && briefs[k].parent == Some(id)
  }

  /** Saving adds one row and touches one. The new brief is a draft; its parent, when it names one, is
      superseded and otherwise as it was; every other row is untouched. */
  lemma SavedExactly(briefs: Store, s: Save)
    requires Keyed(briefs) && Possible(briefs, s)
    ensures var now := Saved(briefs, s.id, s.parent);
            && now.Keys == briefs.Keys + {s.id} && now[s.id].status == Draft && now[s.id].parent == s.parent
            && forall k :: k in briefs ==>
                 now[k] == if s.parent == Some(k) then briefs[k].(status := Superseded) else briefs[k]
  {
  }

  /** So where briefs are only saved a brief is superseded exactly when it has been revised, and a draft
      when not. */
  lemma {:induction false} SupersededExactlyIfRevised(saves: seq<Save>, id: nat)
    requires id in After(saves)
    ensures var briefs := After(saves);
            briefs[id].status == if HasChild(briefs, id) then Superseded else Draft
  {
    var n := |saves| - 1;
    var before, s := After(saves[..n]), saves[n];
    OnlySaves(saves[..n]);
    if !Possible(before, s) {
      SupersededExactlyIfRevised(saves[..n], id);
    } else {
      SavedExactly(before, s);
      var now := After(saves);
      if id in before { SupersededExactlyIfRevised(saves[..n], id); }
      else { NewBriefIsNobodysParent(before, id); }
      if HasChild(before, id) {
        var k :| k in before && before[k].parent == Some(id);
        assert now[k].parent == Some(id);
      }
      if s.parent == Some(id) { assert now[s.id].parent == Some(id); }
      if HasChild(now, id) {
        var k :| k in now && now[k].parent == Some(id);
        assert k == s.id || before[k].parent == Some(id);
      }
    }
  }

  lemma NewBriefIsNobodysParent(briefs: Store, id: nat)
    requires Grown(briefs) && id !in briefs
    ensures !HasChild(briefs, id)
  {
    forall k | k in briefs ensures briefs[k].parent != Some(id) { assert GrownAt(briefs, k); }
  }

  /** `rows` are the briefs those ids name, in order. */
  ghost predicate AreRows(briefs: Store, ids: seq<nat>, rows: seq<Brief>) {
    |rows| == |ids| && forall i :: 0 <= i < |ids| ==> ids[i] in briefs && rows[i] == briefs[ids[i]]
  }

  ghost function Rest(briefs: Store, cur: nat, going: bool, seen: set<nat>): seq<nat> {
    if going then Up(briefs, cur, seen) else []
  }

  lemma UpStep(briefs: Store, cur: nat, seen: set<nat>)
    requires cur in briefs && cur !in seen
    ensures var parent := briefs[cur].parent;
            Up(briefs, cur, seen)
            == [cur] + (if parent.Some? then Rest(briefs, parent.value, parent.value in briefs, seen + {cur}) else [])
  {
  }

  /** One row more on the way up. */
  lemma OneUp(briefs: Store, ids: seq<nat>, cur: nat, seen: set<nat>)
    requires cur in briefs && cur !in seen
    ensures var parent := briefs[cur].parent;
            ids + Rest(briefs, cur, true, seen)
            == ids + [cur]
               + (if parent.Some? then Rest(briefs, parent.value, parent.value in briefs, seen + {cur}) else [])
  {
    UpStep(briefs, cur, seen);
  }

  // ------------------------------------------------------------------ the table, in place

  class BriefTable {
    var briefs: Store

    constructor ()
      ensures briefs == map[]
    {
      briefs := map[];
    }

    method SaveBrief(id: nat, parent: Option<nat>) returns (brief: Brief)
      requires Keyed(briefs) && Possible(briefs, Save(id, parent))
      modifies this
      ensures briefs == Saved(old(briefs), id, parent) && Keyed(briefs)
      ensures brief == briefs[id]
    {
      if parent.Some? {
        var was := briefs[parent.value];
        briefs := briefs[parent.value := was.(status := Superseded)];
        var root := if was.root.Some? then was.root.value else was.id;
        brief := Brief(id, Some(was.id), Some(root), was.version + 1, Draft);
      } else {
        brief := Brief(id, None, Some(id), 1, Draft);
      }
      briefs := briefs[id := brief];
    }

    /** The loop of lineage: from the brief upwards. */
    method Climb(id: nat) returns (up: seq<Brief>)
      requires Keyed(briefs)
      ensures AreRows(briefs, Up(briefs, id, {}), up)
    {
      var rows := briefs;
      up := [];
      var seen: set<nat> := {};
      ghost var ids: seq<nat> := [];
      var cur := id;  // a row's key; one that is not in the table is db.get's None
      var going := id in rows;
      while going && rows[cur].id !in seen
        invariant going ==> cur in rows
        invariant AreRows(rows, ids, up)
        invariant Up(rows, id, {}) == ids + Rest(rows, cur, going, seen)
        decreases rows.Keys - seen, going
      {
        OneUp(rows, ids, cur, seen);
        var row := rows[cur];
        ids := ids + [cur];
        up := up + [row];
        seen := seen + {row.id};
        going := row.parent.Some? && row.parent.value in rows;
        if going { cur := row.parent.value; }
      }
    }

    method Lineage(id: nat) returns (chain: seq<Brief>)
      requires Keyed(briefs)
      ensures AreRows(briefs, Chain(briefs, id), chain)
    {
      var up := Climb(id);
      chain := Reversed(up);
    }

    /** How many change requests this creative has had. */
    method RevisionNo(id: nat) returns (n: nat)
      requires Keyed(briefs)
      ensures n == if |Chain(briefs, id)| == 0 then 0 else |Chain(briefs, id)| - 1
    {
      var chain := Lineage(id);
      n := if |chain| == 0 then 0 else |chain| - 1;
    }
  }
}
