/**
 * Specification vocabulary of the UsdStream controller: what a list of
 * mirrored nodes registers, which host objects it claims, and how its host
 * objects mirror the schema tree.
 */
module UsdStreamSpec {
  import opened Wrappers
  import opened UsdiSchema
  import opened UsdiSchemaFacts
  import opened UsdEnvironment
  import HierarchyWalk

  /** The schemas of `nodes`, in list order. */
  function Schemas(nodes: seq<UsdNode>): seq<Schema>
  {
    ForEach(nodes, (n: UsdNode) => n.nativeSchemaPtr)
  }

  /** The schemas UsdConstructTrees mirrors, in visit order: every master tree, then the tree of each root child. */
  function Visit(stage: Stage): seq<Schema>
  {
    PreOrderAll(stage.masters) + PreOrderAll(stage.root.children)
  }

  /** The host objects of `nodes`: the present entries of their host list, as a set. */
  ghost function HostsOf(nodes: seq<UsdNode>): set<ObjId>
  {
    set h | h in HierarchyWalk.Hosts(nodes) && h.Some? :: h.value
  }

  /** The lookup table the registration handler leaves after registering `nodes` in order. */
  function LutOf(nodes: seq<UsdNode>): map<string, UsdNode>
  {
    if nodes == [] then map[]
    else LutOf(nodes[..|nodes| - 1])[nodes[|nodes| - 1].PrimPath() := nodes[|nodes| - 1]]
  }

  /** Registering one more node adds or overwrites its prim path's entry. */
  lemma LutOfSnoc(nodes: seq<UsdNode>, e: UsdNode)
    ensures LutOf(nodes + [e]) == LutOf(nodes)[e.PrimPath() := e]
  {
    assert (nodes + [e])[..|nodes|] == nodes;
  }

  /** The components after loading `nodes` in order over `c`: each host's UsdIComponent points back at its node. */
  function Claim(c: map<ObjId, Option<UsdNode>>, nodes: seq<UsdNode>): map<ObjId, Option<UsdNode>>
  {
    if nodes == [] then c
    else
      var c1 := Claim(c, nodes[..|nodes| - 1]);
      var e := nodes[|nodes| - 1];
      if e.gameObject.Some? then c1[e.gameObject.value := Some(e)] else c1
  }

  /** No node occurs twice in `nodes`: each one is new to the nodes before it. */
  ghost predicate Distinct(nodes: seq<UsdNode>)
  {
    nodes != [] ==> Distinct(nodes[..|nodes| - 1]) && nodes[|nodes| - 1] !in nodes[..|nodes| - 1]
  }

  // ------------------------------------------------------------------ lemmas

  lemma SchemasAppend(a: seq<UsdNode>, b: seq<UsdNode>)
    ensures Schemas(a + b) == Schemas(a) + Schemas(b)
  {
    ForEachAppend(a, b, (n: UsdNode) => n.nativeSchemaPtr);
  }

  lemma HostsOfAppend(a: seq<UsdNode>, b: seq<UsdNode>)
    ensures HostsOf(a + b) == HostsOf(a) + HostsOf(b)
  {
    HierarchyWalk.HostsAppend(a, b);
  }

  lemma HookCallsAppend(h: Hook, a: seq<UsdNode>, b: seq<UsdNode>)
    ensures HookCalls(h, a + b) == HookCalls(h, a) + HookCalls(h, b)
  {
    var l, r := HookCalls(h, a + b), HookCalls(h, a) + HookCalls(h, b);
    assert |l| == |r|;
    forall i | 0 <= i < |l| ensures l[i] == r[i] {
      if i < |a| { assert (a + b)[i] == a[i]; } else { assert (a + b)[i] == b[i - |a|]; }
    }
  }

  /** Nodes new to `before` and nodes new to `before + a` together are new to `before`. */
  lemma NewAppend(before: seq<UsdNode>, a: seq<UsdNode>, b: seq<UsdNode>)
    requires forall n :: n in a ==> n !in before
    requires forall n :: n in b ==> n !in before + a
    ensures forall n :: n in a + b ==> n !in before
  {
  }

  /** A hook called over `nodes` is never called on a node outside it. */
  lemma {:induction false} HookCallsAbsent(h: Hook, nodes: seq<UsdNode>, n: UsdNode)
    requires n !in nodes
    ensures multiset(HookCalls(h, nodes))[NodeEvent(h, n)] == 0
  {
    if nodes != [] {
      var init := nodes[..|nodes| - 1];
      assert nodes == init + [nodes[|nodes| - 1]];
      HookCallsAbsent(h, init, n);
    }
  }

  /** A hook called over a list without repeats is called exactly once on each of its nodes. */
  lemma {:induction false} HookCallsOnce(h: Hook, nodes: seq<UsdNode>, n: UsdNode)
    requires Distinct(nodes) && n in nodes
    ensures multiset(HookCalls(h, nodes))[NodeEvent(h, n)] == 1
  {
    var init, last := nodes[..|nodes| - 1], nodes[|nodes| - 1];
    assert nodes == init + [last];
    if n == last {
      HookCallsAbsent(h, init, n);
    } else {
      HookCallsOnce(h, init, n);
    }
  }

  /**
   * The lookup table holds exactly the prim paths of the registered nodes,
   * and each path maps to the last node registered under it.
   */
  lemma {:induction false} LutOfLastWins(nodes: seq<UsdNode>, i: nat)
    requires i < |nodes|
    ensures nodes[i].PrimPath() in LutOf(nodes)
    ensures (forall j :: i < j < |nodes| ==> nodes[j].PrimPath() != nodes[i].PrimPath()) ==>
              LutOf(nodes)[nodes[i].PrimPath()] == nodes[i]
  {
    if i < |nodes| - 1 {
      LutOfLastWins(nodes[..|nodes| - 1], i);
    }
  }

  /** A prim path is in the lookup table exactly when some registered node has it. */
  lemma {:induction false} LutOfKeys(nodes: seq<UsdNode>, path: string)
    ensures path in LutOf(nodes) <==> exists i :: 0 <= i < |nodes| && nodes[i].PrimPath() == path
  {
    if nodes != [] {
      LutOfKeys(nodes[..|nodes| - 1], path);
      if path in LutOf(nodes) && path != nodes[|nodes| - 1].PrimPath() {
        var i :| 0 <= i < |nodes| - 1 && nodes[..|nodes| - 1][i].PrimPath() == path;
        assert nodes[i].PrimPath() == path;
      }
      if exists i :: 0 <= i < |nodes| && nodes[i].PrimPath() == path {
        var i :| 0 <= i < |nodes| && nodes[i].PrimPath() == path;
        if i < |nodes| - 1 {
          assert nodes[..|nodes| - 1][i].PrimPath() == path;
        }
      }
    }
  }

  /** The node a prim path maps to is the last registered one with that path. */
  lemma LutOfLast(nodes: seq<UsdNode>, path: string)
    ensures forall i :: (0 <= i < |nodes| && nodes[i].PrimPath() == path &&
                         forall j :: i < j < |nodes| ==> nodes[j].PrimPath() != path) ==>
              path in LutOf(nodes) && LutOf(nodes)[path] == nodes[i]
  {
    forall i | 0 <= i < |nodes| && nodes[i].PrimPath() == path &&
               (forall j :: i < j < |nodes| ==> nodes[j].PrimPath() != path)
      ensures path in LutOf(nodes) && LutOf(nodes)[path] == nodes[i]
    {
      LutOfLastWins(nodes, i);
    }
  }

  /** Every entry of the lookup table is a registered node under its own prim path. */
  lemma {:induction false} LutOfEntries(nodes: seq<UsdNode>, path: string)
    requires path in LutOf(nodes)
    ensures LutOf(nodes)[path] in nodes && LutOf(nodes)[path].PrimPath() == path
  {
    var last := nodes[|nodes| - 1];
    if path != last.PrimPath() {
      LutOfEntries(nodes[..|nodes| - 1], path);
    }
  }

  /** Loading `a` and then `b` claims what loading `a + b` claims. */
  lemma {:induction false} ClaimAppend(c: map<ObjId, Option<UsdNode>>, a: seq<UsdNode>, b: seq<UsdNode>)
    ensures Claim(Claim(c, a), b) == Claim(c, a + b)
    decreases |b|
  {
    if b == [] {
      assert a + b == a;
    } else {
      var b', e := b[..|b| - 1], b[|b| - 1];
      ClaimAppend(c, a, b');
      assert (a + b)[..|a + b| - 1] == a + b' && (a + b)[|a + b| - 1] == e;
    }
  }

  /**
   * After loading `nodes`, every host of a node carries a component pointing
   * back at a node of `nodes` hosted there, and every other object keeps its
   * component, or its lack of one.
   */
  lemma {:induction false} ClaimSpec(c: map<ObjId, Option<UsdNode>>, nodes: seq<UsdNode>, g: ObjId)
    ensures g in HostsOf(nodes) ==>
              && g in Claim(c, nodes) && Claim(c, nodes)[g].Some?
              && Claim(c, nodes)[g].value in nodes && Claim(c, nodes)[g].value.gameObject == Some(g)
    ensures g !in HostsOf(nodes) ==> (g in Claim(c, nodes) <==> g in c) && (g in c ==> Claim(c, nodes)[g] == c[g])
  {
    if nodes != [] {
      var init, e := nodes[..|nodes| - 1], nodes[|nodes| - 1];
      ClaimSpec(c, init, g);
      assert nodes == init + [e];
      HostsOfAppend(init, [e]);
      HostsOfSingle(e);
    }
  }

  /** A subtree's root claims its host, then the nodes of its children claim theirs. */
  lemma ClaimSubtree(c: map<ObjId, Option<UsdNode>>, e: UsdNode, kids: seq<UsdNode>)
    requires e.gameObject.Some?
    ensures Claim(c[e.gameObject.value := Some(e)], kids) == Claim(c, [e] + kids)
  {
    assert [e][..0] == [];
    ClaimAppend(c, [e], kids);
  }

  // ------------------------------------------------------------ the sweep

  /**
   * The deletion candidates of UsdConstructTrees among the lookup-table
   * entries at `keys`: the live host objects that carry a UsdIComponent.
   */
  ghost function CandidatesAt(lut: map<string, UsdNode>, keys: set<string>,
                              alive: seq<bool>, components: map<ObjId, Option<UsdNode>>): set<ObjId>
  {
    set k | k in keys && k in lut && IsCandidate(lut[k], alive, components) :: lut[k].gameObject.value
  }

  ghost function Candidates(lut: map<string, UsdNode>, alive: seq<bool>,
                            components: map<ObjId, Option<UsdNode>>): set<ObjId>
  {
    CandidatesAt(lut, lut.Keys, alive, components)
  }

  ghost predicate IsCandidate(n: UsdNode, alive: seq<bool>, components: map<ObjId, Option<UsdNode>>)
  {
    && n.gameObject.Some?
    && n.gameObject.value < |alive|
    && alive[n.gameObject.value] && n.gameObject.value in components
  }

  /** The components after the release loop nulls the `schema` field of every candidate's UsdIComponent. */
  function Released(c: map<ObjId, Option<UsdNode>>, cands: set<ObjId>): map<ObjId, Option<UsdNode>>
  {
    map g | g in c :: if g in cands then None else c[g]
  }

  /** Object `g` carries a UsdIComponent whose `schema` no node points back at. */
  predicate Unclaimed(c: map<ObjId, Option<UsdNode>>, g: ObjId)
  {
    g in c && c[g].None?
  }

  lemma ReleasedAdd(c: map<ObjId, Option<UsdNode>>, cands: set<ObjId>, g: ObjId)
    requires g in c
    ensures Released(c, cands + {g}) == Released(c, cands)[g := None]
  {
  }

  lemma ReleasedNothing(c: map<ObjId, Option<UsdNode>>)
    ensures Released(c, {}) == c
  {
  }

  /**
   * The sweep's verdict: once the candidates are released and `nodes` are
   * loaded, a candidate is left unclaimed exactly when no node of `nodes` is
   * hosted on it.
   */
  lemma SweepTargets(c: map<ObjId, Option<UsdNode>>, cands: set<ObjId>, nodes: seq<UsdNode>, g: ObjId)
    requires g in cands && g in c
    ensures Unclaimed(Claim(Released(c, cands), nodes), g) <==> g !in HostsOf(nodes)
  {
    ClaimSpec(Released(c, cands), nodes, g);
  }

  /** An empty lookup table has no deletion candidates. */
  /** With no candidates, the sweep destroys nothing. */
  lemma SweepNothing(walked: seq<bool>, alive: seq<bool>, cands: set<ObjId>, hosts: set<ObjId>)
    requires cands == {} && |alive| == |walked|
    requires forall g :: 0 <= g < |walked| ==> alive[g] == (walked[g] && !(g in cands && g !in hosts))
    ensures alive == walked
  {
  }

  lemma NoCandidates(alive: seq<bool>, components: map<ObjId, Option<UsdNode>>)
    ensures Candidates(map[], alive, components) == {}
  {
  }

  // --------------------------------------------------- variant selections

  /** The prim paths of the schemas of `stage`. */
  function PathsOf(stage: Stage): set<string>
  {
    set s | s in AllSchemas(stage) :: s.path
  }

  /** The prim paths among the stored variant selections that name a schema of `stage`. */
  function Resolved(vs: map<string, seq<int>>, stage: Stage): set<string>
  {
    set k | k in vs && k in PathsOf(stage)
  }

  /** Looking a path up in the schemas of `stage` finds one exactly when the path is one of theirs. */
  lemma FindByPathOf(stage: Stage, k: string)
    ensures FindByPath(AllSchemas(stage), k).Some? <==> k in PathsOf(stage)
  {
    var ss := AllSchemas(stage);
    if k in PathsOf(stage) {
      var s :| s in ss && s.path == k;
      var i :| 0 <= i < |ss| && ss[i] == s;
    }
  }

  /** The selections stored for the prim paths in `keys`. */
  function OverridesAt(vs: map<string, seq<int>>, keys: set<string>): (r: Selections)
    ensures forall p :: p in r <==> p.0 in keys && p.0 in vs && 0 <= p.1 < |vs[p.0]|
    ensures forall p :: p in r ==> r[p] == vs[p.0][p.1]
  {
    map k, i | k in keys && k in vs && 0 <= i < |vs[k]| :: (k, i) := vs[k][i]
  }

  /** The selections of one stored entry: (path, i) selects `sels[i]`. */
  function EntryOverrides(path: string, sels: seq<int>): (r: Selections)
    ensures forall p :: p in r <==> p.0 == path && 0 <= p.1 < |sels|
    ensures forall p :: p in r ==> r[p] == sels[p.1]
  {
    map i | 0 <= i < |sels| :: (path, i) := sels[i]
  }

  /** Applying `over` on top of `before` changes at least one selection. */
  ghost predicate Changes(before: Selections, over: Selections)
  {
    exists p :: p in over && (p !in before || before[p] != over[p])
  }

  lemma OverridesAtAdd(vs: map<string, seq<int>>, keys: set<string>, k: string)
    requires k in vs && k !in keys
    ensures OverridesAt(vs, keys + {k}) == OverridesAt(vs, keys) + EntryOverrides(k, vs[k])
  {
    var l, u := OverridesAt(vs, keys + {k}), OverridesAt(vs, keys) + EntryOverrides(k, vs[k]);
    OverridesAtAddKeys(vs, keys, k);
    forall p | p in l ensures l[p] == u[p] {
      if p.0 == k { assert p in EntryOverrides(k, vs[k]); }
    }
  }

  lemma OverridesAtAddKeys(vs: map<string, seq<int>>, keys: set<string>, k: string)
    requires k in vs && k !in keys
    ensures OverridesAt(vs, keys + {k}).Keys == (OverridesAt(vs, keys) + EntryOverrides(k, vs[k])).Keys
  {
    OverridesAtAddSub(vs, keys, k);
    OverridesAtAddSup(vs, keys, k);
  }

  lemma OverridesAtAddSub(vs: map<string, seq<int>>, keys: set<string>, k: string)
    requires k in vs && k !in keys
    ensures forall p :: p in OverridesAt(vs, keys + {k}) ==> p in OverridesAt(vs, keys) || p in EntryOverrides(k, vs[k])
  {
  }

  lemma OverridesAtAddSup(vs: map<string, seq<int>>, keys: set<string>, k: string)
    requires k in vs && k !in keys
    ensures forall p :: p in OverridesAt(vs, keys) || p in EntryOverrides(k, vs[k]) ==> p in OverridesAt(vs, keys + {k})
  {
  }

  /**
   * One more resolved entry applied after the entries at `keys`: the running
   * selections and the "something changed" answer are those of the entries
   * at `keys` plus `k`.
   */
  lemma ApplyEntry(before: Selections, vs: map<string, seq<int>>, keys: set<string>, k: string)
    requires k in vs && k !in keys
    ensures before + OverridesAt(vs, keys) + EntryOverrides(k, vs[k]) == before + OverridesAt(vs, keys + {k})
    ensures Changes(before, OverridesAt(vs, keys)) || Changes(before + OverridesAt(vs, keys), EntryOverrides(k, vs[k]))
            <==> Changes(before, OverridesAt(vs, keys + {k}))
  {
    var a, b := OverridesAt(vs, keys), EntryOverrides(k, vs[k]);
    OverridesAtAdd(vs, keys, k);
    assert a.Keys !! b.Keys;
    ChangesUnion(before, a, b);
    UnionAssoc(before, a, b);
  }

  /** No pair of an entry applied yet: the running selections are those before the entry. */
  lemma EntryStart(mid: Selections, path: string, sels: seq<int>)
    ensures mid + EntryOverrides(path, sels[..0]) == mid
    ensures !Changes(mid, EntryOverrides(path, sels[..0]))
  {
    assert EntryOverrides(path, sels[..0]) == map[];
  }

  /** Setting pair `p` on the running selections is adding it to the entry's overrides. */
  lemma SelectionSnoc(mid: Selections, o: Selections, p: (string, int), v: int)
    ensures (mid + o)[p := v] == mid + o[p := v]
  {
  }

  lemma ResolvedAll(done: set<string>, resolved: set<string>)
    requires resolved <= done
    ensures done * resolved == resolved
  {
  }

  /** The resolved keys among `done + {k}`. */
  lemma ResolvedStep(done: set<string>, resolved: set<string>, k: string)
    ensures (done + {k}) * resolved == done * resolved + {k} * resolved
  {
  }

  lemma UnionAssoc(x: Selections, y: Selections, z: Selections)
    ensures x + y + z == x + (y + z)
  {
    var l, r := x + y + z, x + (y + z);
    assert forall p :: p in l <==> p in r;
    forall p | p in l
      ensures l[p] == r[p]
    {
    }
  }

  lemma EntryOverridesSnoc(path: string, sels: seq<int>, i: nat)
    requires i < |sels|
    ensures EntryOverrides(path, sels[..i + 1]) == EntryOverrides(path, sels[..i])[(path, i) := sels[i]]
  {
  }

  /** Setting one more selection changes something exactly when it or an earlier one did. */
  lemma ChangesSnoc(before: Selections, over: Selections, p: (string, int), v: int)
    requires p !in over
    ensures Changes(before, over[p := v]) <==> Changes(before, over) || p !in before || before[p] != v
  {
    var o := over[p := v];
    if Changes(before, o) {
      var q :| q in o && (q !in before || before[q] != o[q]);
      if q != p { assert q in over && (q !in before || before[q] != over[q]); }
    }
    if Changes(before, over) {
      var q :| q in over && (q !in before || before[q] != over[q]);
      assert q in o && (q !in before || before[q] != o[q]);
    }
    if p !in before || before[p] != v {
      assert p in o && (p !in before || before[p] != o[p]);
    }
  }

  /** Over disjoint entries, checking against the running selections is checking against the original ones. */
  lemma ChangesUnion(before: Selections, a: Selections, b: Selections)
    requires a.Keys !! b.Keys
    ensures Changes(before, a + b) <==> Changes(before, a) || Changes(before + a, b)
  {
    if Changes(before, a + b) {
      var q :| q in a + b && (q !in before || before[q] != (a + b)[q]);
      if q in b { assert q !in a; assert q in b && (q !in before + a || (before + a)[q] != b[q]); }
      else { assert q in a && (q !in before || before[q] != a[q]); }
    }
    if Changes(before, a) {
      var q :| q in a && (q !in before || before[q] != a[q]);
      assert q in a + b && (q !in before || before[q] != (a + b)[q]);
    }
    if Changes(before + a, b) {
      var q :| q in b && (q !in before + a || (before + a)[q] != b[q]);
      assert q !in a;
      assert q in a + b && (q !in before || before[q] != (a + b)[q]);
    }
  }

  lemma CandidatesAtAdd(lut: map<string, UsdNode>, keys: set<string>, k: string,
                        alive: seq<bool>, components: map<ObjId, Option<UsdNode>>)
    requires k in lut
    ensures CandidatesAt(lut, keys + {k}, alive, components) ==
            CandidatesAt(lut, keys, alive, components) +
            (if IsCandidate(lut[k], alive, components) then {lut[k].gameObject.value} else {})
  {
  }

  lemma HostsOfSingle(e: UsdNode)
    ensures HostsOf([e]) == if e.gameObject.Some? then {e.gameObject.value} else {}
  {
    assert HierarchyWalk.Hosts([e]) == [e.gameObject];
  }

  /**
   * The selections of a freshly opened file once the stored entries are
   * applied: the stored pair wins for every index of every stored path that
   * names a schema of the stage composed from the authored selections; every
   * other pair keeps its authored value.
   */
  function LoadedSelections(c: Composition, vs: map<string, seq<int>>): (r: Selections)
    ensures forall p: (string, int) :: p in r <==> p in c.authored || (p.0 in Resolved(vs, c.compose(c.authored)) && 0 <= p.1 < |vs[p.0]|)
    ensures forall p: (string, int) :: p.0 in Resolved(vs, c.compose(c.authored)) && 0 <= p.1 < |vs[p.0]| ==> r[p] == vs[p.0][p.1]
    ensures forall p: (string, int) :: p in c.authored && !(p.0 in Resolved(vs, c.compose(c.authored)) && 0 <= p.1 < |vs[p.0]|) ==>
              r[p] == c.authored[p]
  {
    c.authored + OverridesAt(vs, Resolved(vs, c.compose(c.authored)))
  }

  /** The stage a load ends with: the file composed under its loaded selections. */
  function LoadedStage(c: Composition, vs: map<string, seq<int>>): Stage
  {
    c.compose(LoadedSelections(c, vs))
  }

  // ------------------------------------------------------------ traces

  /** The trace of UsdUnload: every node unloads, then the context is destroyed; nothing when not loaded. */
  function UnloadEvents(loaded: bool, nodes: seq<UsdNode>): seq<Event>
  {
    if loaded then HookCalls(OnUnload, nodes) + [ContextDestroy] else []
  }

  /** The trace of UsdPrepareSample under the force flag and the unchanged-time test. */
  function PrepareEvents(force: bool, sameTime: bool, nodes: seq<UsdNode>): seq<Event>
  {
    if force then [ContextNotifyForceUpdate] + HookCalls(PrepareSample, nodes)
    else if sameTime then []
    else HookCalls(PrepareSample, nodes)
  }

  /** The trace of UsdSyncDataBegin followed by UsdSyncDataEnd. */
  function SyncEvents(force: bool, sameTime: bool, nodes: seq<UsdNode>): seq<Event>
  {
    if !force && sameTime then []
    else HookCalls(SyncDataBegin, nodes) + (if sameTime then [] else HookCalls(SyncDataEnd, nodes))
  }

  /**
   * The frame gate: with no force pending and the time unchanged, no node
   * hook runs in either phase; otherwise every node prepares and begins its
   * sync, and sync-end runs on every node exactly when the time changed, so a
   * forced frame at an unchanged time skips it.
   */
  lemma FrameGate(force: bool, sameTime: bool, nodes: seq<UsdNode>)
    ensures !force && sameTime ==> PrepareEvents(force, sameTime, nodes) == [] && SyncEvents(force, sameTime, nodes) == []
    ensures force || !sameTime ==>
              PrepareEvents(force, sameTime, nodes)[|PrepareEvents(force, sameTime, nodes)| - |nodes|..] == HookCalls(PrepareSample, nodes)
    ensures force || !sameTime ==> SyncEvents(force, sameTime, nodes)[..|nodes|] == HookCalls(SyncDataBegin, nodes)
    ensures force || !sameTime ==>
              |SyncEvents(force, sameTime, nodes)| == (if sameTime then 1 else 2) * |nodes|
  {
    if force || !sameTime {
      var p := PrepareEvents(force, sameTime, nodes);
      var y := SyncEvents(force, sameTime, nodes);
      if force {
        assert p[1..] == HookCalls(PrepareSample, nodes);
      }
      assert y[..|nodes|] == HookCalls(SyncDataBegin, nodes);
    }
  }

  /**
   * The trace of a load after its file opened: the schema tree is rebuilt
   * when a selection changed, the import settings are handed over, every
   * node loads, and a forced frame follows (prepare, the backend's sample
   * update, then the sync pair).
   */
  function LoadEvents(rebuilt: bool, settings: ImportSettings, nodes: seq<UsdNode>, time: PlayTime, sameTime: bool): seq<Event>
  {
    (if rebuilt then [ContextRebuildSchemaTree] else []) + [ContextSetImportSettings(settings)] + HookCalls(OnLoad, nodes)
    + PrepareEvents(true, sameTime, nodes) + [ContextUpdateAllSamples(time)] + SyncEvents(true, sameTime, nodes)
  }

  // ------------------------------------------------ load steps, heap-free

  /** The steps of a load after its file opened, one trace. */
  lemma LoadTrace(l1: seq<Event>, l2: seq<Event>, l3: seq<Event>, rebuilt: bool,
                  settings: ImportSettings, nodes: seq<UsdNode>, time: PlayTime, sameTime: bool)
    requires l2 == l1 + (if rebuilt then [ContextRebuildSchemaTree] else []) + [ContextSetImportSettings(settings)]
    requires l3 == l2 + HookCalls(OnLoad, nodes) + PrepareEvents(true, sameTime, nodes) + [ContextUpdateAllSamples(time)]
                  + SyncEvents(true, sameTime, nodes)
    ensures l3 == l1 + LoadEvents(rebuilt, settings, nodes, time, sameTime)
  {
    var r := if rebuilt then [ContextRebuildSchemaTree] else [];
    var s, o := [ContextSetImportSettings(settings)], HookCalls(OnLoad, nodes);
    var p, u, y := PrepareEvents(true, sameTime, nodes), [ContextUpdateAllSamples(time)], SyncEvents(true, sameTime, nodes);
    calc {
      l3;
      l1 + r + s + o + p + u + y;
      { ConcatAssoc(l1, r, s); }
      l1 + (r + s) + o + p + u + y;
      { ConcatAssoc(l1, r + s, o); }
      l1 + (r + s + o) + p + u + y;
      { ConcatAssoc(l1, r + s + o, p); }
      l1 + (r + s + o + p) + u + y;
      { ConcatAssoc(l1, r + s + o + p, u); }
      l1 + (r + s + o + p + u) + y;
      { ConcatAssoc(l1, r + s + o + p + u, y); }
      l1 + (r + s + o + p + u + y);
    }
  }

  /** The forced frame that ends a load, step by step. */
  lemma FirstFrameTrace(l0: seq<Event>, l1: seq<Event>, l2: seq<Event>, l3: seq<Event>, l4: seq<Event>,
                        sameTime: bool, nodes: seq<UsdNode>, time: PlayTime)
    requires l1 == l0 + [ContextNotifyForceUpdate] + HookCalls(PrepareSample, nodes)
    requires l2 == l1 + [ContextUpdateAllSamples(time)]
    requires l3 == l2 + HookCalls(SyncDataBegin, nodes)
    requires sameTime ==> l4 == l3
    requires !sameTime ==> l4 == l3 + HookCalls(SyncDataEnd, nodes)
    ensures l4 == l0 + PrepareEvents(true, sameTime, nodes) + [ContextUpdateAllSamples(time)] + SyncEvents(true, sameTime, nodes)
  {
    var p, b, e := HookCalls(PrepareSample, nodes), HookCalls(SyncDataBegin, nodes), HookCalls(SyncDataEnd, nodes);
    var u := [ContextUpdateAllSamples(time)];
    ConcatAssoc(l0, [ContextNotifyForceUpdate], p);
    if sameTime {
      assert SyncEvents(true, sameTime, nodes) == b;
    } else {
      ConcatAssoc(l2, b, e);
    }
  }

  /** The nodes of the first `ci` subtrees of `cs`, then those of the next one. */
  lemma ChildrenStep(done: seq<UsdNode>, more: seq<UsdNode>, cs: seq<Schema>, ci: nat)
    requires ci < |cs|
    requires Schemas(done) == PreOrderAll(cs[..ci])
    requires Schemas(more) == PreOrder(cs[ci])
    ensures Schemas(done + more) == PreOrderAll(cs[..ci + 1])
  {
    SchemasAppend(done, more);
    PreOrderAllPrefix(cs, ci + 1);
  }

  /** A subtree's root node, then the nodes of all its child subtrees. */
  lemma SubtreeClose(e: UsdNode, kids: seq<UsdNode>, s: Schema)
    requires e.nativeSchemaPtr == s && Schemas(kids) == PreOrderAll(s.children)
    ensures Schemas([e] + kids) == PreOrder(s)
  {
    SchemasAppend([e], kids);
    assert Schemas([e]) == [s];
  }

  lemma ConcatAssoc<T>(a: seq<T>, b: seq<T>, c: seq<T>)
    ensures a + b + c == a + (b + c)
  {
  }

  lemma TraceStep(l0: seq<Event>, h: Hook, a: seq<UsdNode>, b: seq<UsdNode>)
    ensures l0 + HookCalls(h, a) + HookCalls(h, b) == l0 + HookCalls(h, a + b)
  {
    HookCallsAppend(h, a, b);
  }
}
