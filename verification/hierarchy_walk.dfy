/**
 * The host objects UsdConstructTree finds or creates, computed on the
 * hierarchy alone: `Place` is one UsdFindOrCreateNode, `Tree` the walk of one
 * subtree, `Forest` the walk of the first `k` child subtrees of a schema.
 * The lemmas state what the walk guarantees about the hierarchy it leaves:
 * every schema of the subtree is hosted by a live object named after it under
 * the host of its schema parent, the hierarchy only grows, and sibling names
 * stay unique.
 */
module HierarchyWalk {
  import opened Wrappers
  import opened UsdiSchema
  import opened UsdiSchemaFacts
  import opened UsdEnvironment

  /** The host objects of `nodes`, in list order. */
  function Hosts(nodes: seq<UsdNode>): seq<Option<ObjId>>
  {
    ForEach(nodes, (n: UsdNode) => n.gameObject)
  }

  /** No node of `nodes` has a host object. */
  ghost predicate Unhosted(nodes: seq<UsdNode>)
  {
    forall n :: n in nodes ==> n.gameObject.None?
  }

  /** The first live child of `parent` named `name`, or else a new live one appended under it. */
  function Place(sh: Shape, parent: ObjId, name: string): (ObjId, Shape)
  {
    match FirstChild(sh, parent, name, 0)
    case Some(g) => (g, sh)
    case None => (|sh.names|, Shape(sh.names + [name], sh.parents + [Some(parent)], sh.alive + [true]))
  }

  /** The hierarchy after mirroring the subtree of `s` under `parent`, and the hosts of its schemas in pre-order. */
  function Tree(sh: Shape, parent: ObjId, s: Schema): (Shape, seq<Option<ObjId>>)
    decreases s, 0
  {
    var (g, sh1) := Place(sh, parent, s.name);
    var (sh2, hs) := Forest(sh1, g, s.children, |s.children|);
    (sh2, [Some(g)] + hs)
  }

  /** The hierarchy after mirroring the first `k` subtrees of `cs`, one after the other, under `parent`, and their hosts. */
  function Forest(sh: Shape, parent: ObjId, cs: seq<Schema>, k: nat): (Shape, seq<Option<ObjId>>)
    requires k <= |cs|
    decreases cs, k
  {
    if k == 0 then (sh, [])
    else
      var (sh1, hs1) := Forest(sh, parent, cs, k - 1);
      var (sh2, hs2) := Tree(sh1, parent, cs[k - 1]);
      (sh2, hs1 + hs2)
  }

  /** The hierarchy only grew: old objects keep name, parent and liveness, new objects are live. */
  ghost predicate Grew(sh0: Shape, sh1: Shape)
  {
    && sh0.names <= sh1.names && sh0.parents <= sh1.parents && sh0.alive <= sh1.alive
    && (forall g :: |sh0.alive| <= g < |sh1.alive| ==> sh1.alive[g])
  }

  ghost predicate Unique(sh: Shape)
  {
    UniqueSiblingNames(sh.names, sh.parents, sh.alive)
  }

  /**
   * `hs` host the subtree of `s` under `parent` in `sh`: in pre-order, each
   * host is a live child, named after its schema, of the host of the
   * schema's parent (`parent` for `s` itself).
   */
  ghost predicate Mirrors(hs: seq<Option<ObjId>>, parent: ObjId, s: Schema, sh: Shape)
    decreases s, 0
  {
    && |hs| == |PreOrder(s)|
    && hs[0].Some?
    && IsChildNamed(hs[0].value, parent, s.name, sh.names, sh.parents, sh.alive)
    && MirrorsAll(hs[1..], hs[0].value, s.children, |s.children|, sh)
  }

  /** `hs` host the first `k` subtrees of `cs`, one after the other, each under `parent`. */
  ghost predicate MirrorsAll(hs: seq<Option<ObjId>>, parent: ObjId, cs: seq<Schema>, k: nat, sh: Shape)
    requires k <= |cs|
    decreases cs, k
  {
    && |hs| == |PreOrderAll(cs[..k])|
    && (k > 0 ==>
          var j := |hs| - |PreOrder(cs[k - 1])|;
          && 0 <= j
          && MirrorsAll(hs[..j], parent, cs, k - 1, sh)
          && Mirrors(hs[j..], parent, cs[k - 1], sh))
  }

  // ------------------------------------------------------------------ lemmas

  lemma HostsAppend(a: seq<UsdNode>, b: seq<UsdNode>)
    ensures Hosts(a + b) == Hosts(a) + Hosts(b)
  {
    var l, r := Hosts(a + b), Hosts(a) + Hosts(b);
    assert |l| == |r|;
    forall i | 0 <= i < |l| ensures l[i] == r[i] {
      if i < |a| { assert (a + b)[i] == a[i]; } else { assert (a + b)[i] == b[i - |a|]; }
    }
  }

  lemma UnhostedAppend(a: seq<UsdNode>, b: seq<UsdNode>)
    requires Unhosted(a) && Unhosted(b)
    ensures Unhosted(a + b)
  {
  }

  lemma GrewChain(sh0: Shape, sh1: Shape, sh2: Shape)
    requires Grew(sh0, sh1) && Grew(sh1, sh2)
    ensures Grew(sh0, sh2)
  {
  }

  /** Placing reuses or creates a live child of `parent` named `name`, only grows the hierarchy and keeps names unique. */
  lemma PlaceSpec(sh: Shape, parent: ObjId, name: string)
    requires sh.WellFormed()
    ensures Place(sh, parent, name).1.WellFormed()
    ensures Grew(sh, Place(sh, parent, name).1)
    ensures var (g, sh1) := Place(sh, parent, name);
            IsChildNamed(g, parent, name, sh1.names, sh1.parents, sh1.alive)
    ensures Unique(sh) ==> Unique(Place(sh, parent, name).1)
  {
    if FirstChild(sh, parent, name, 0).None? && Unique(sh) {
      UniqueAfterCreate(sh.names, sh.parents, sh.alive, name, parent);
    }
  }

  /** Mirrors of an earlier hierarchy still hold after the hierarchy grew. */
  lemma {:induction false} MirrorsGrow(hs: seq<Option<ObjId>>, parent: ObjId, s: Schema, sh0: Shape, sh1: Shape)
    requires Mirrors(hs, parent, s, sh0) && Grew(sh0, sh1)
    ensures Mirrors(hs, parent, s, sh1)
    decreases s, 0
  {
    var g := hs[0].value;
    assert IsChildNamed(g, parent, s.name, sh1.names, sh1.parents, sh1.alive) by {
      assert sh1.names[g] == sh0.names[g] && sh1.parents[g] == sh0.parents[g] && sh1.alive[g] == sh0.alive[g];
    }
    MirrorsAllGrow(hs[1..], g, s.children, |s.children|, sh0, sh1);
  }

  lemma {:induction false} MirrorsAllGrow(hs: seq<Option<ObjId>>, parent: ObjId, cs: seq<Schema>, k: nat, sh0: Shape, sh1: Shape)
    requires k <= |cs|
    requires MirrorsAll(hs, parent, cs, k, sh0) && Grew(sh0, sh1)
    ensures MirrorsAll(hs, parent, cs, k, sh1)
    decreases cs, k
  {
    if k > 0 {
      var j := |hs| - |PreOrder(cs[k - 1])|;
      MirrorsAllGrow(hs[..j], parent, cs, k - 1, sh0, sh1);
      MirrorsGrow(hs[j..], parent, cs[k - 1], sh0, sh1);
    }
  }

  /**
   * The walk of a subtree hosts every schema of it, in pre-order, on a live
   * object named after the schema under the host of its schema parent; it
   * only grows the hierarchy and keeps sibling names unique.
   */
  lemma {:induction false} TreeSpec(sh: Shape, parent: ObjId, s: Schema)
    requires sh.WellFormed()
    ensures var (sh2, hs) := Tree(sh, parent, s);
            && sh2.WellFormed() && Grew(sh, sh2) && (Unique(sh) ==> Unique(sh2))
            && Mirrors(hs, parent, s, sh2)
    decreases s, 0
  {
    var (g, sh1) := Place(sh, parent, s.name);
    PlaceSpec(sh, parent, s.name);
    var (sh2, hs) := Forest(sh1, g, s.children, |s.children|);
    ForestSpec(sh1, g, s.children, |s.children|);
    GrewChain(sh, sh1, sh2);
    assert IsChildNamed(g, parent, s.name, sh2.names, sh2.parents, sh2.alive) by {
      assert sh2.names[g] == sh1.names[g] && sh2.parents[g] == sh1.parents[g] && sh2.alive[g] == sh1.alive[g];
    }
    assert s.children[..|s.children|] == s.children;
    assert ([Some(g)] + hs)[1..] == hs;
  }

  lemma {:induction false} ForestSpec(sh: Shape, parent: ObjId, cs: seq<Schema>, k: nat)
    requires sh.WellFormed() && k <= |cs|
    ensures var (sh2, hs) := Forest(sh, parent, cs, k);
            && sh2.WellFormed() && Grew(sh, sh2) && (Unique(sh) ==> Unique(sh2))
            && MirrorsAll(hs, parent, cs, k, sh2)
    decreases cs, k
  {
    if k > 0 {
      var (sh1, hs1) := Forest(sh, parent, cs, k - 1);
      ForestSpec(sh, parent, cs, k - 1);
      var (sh2, hs2) := Tree(sh1, parent, cs[k - 1]);
      TreeSpec(sh1, parent, cs[k - 1]);
      GrewChain(sh, sh1, sh2);
      MirrorsAllGrow(hs1, parent, cs, k - 1, sh1, sh2);
      var hs := hs1 + hs2;
      PreOrderAllPrefix(cs, k);
      assert hs[..|hs1|] == hs1 && hs[|hs1|..] == hs2;
    } else {
      assert cs[..0] == [];
    }
  }

  /** One more subtree walked after the ones before it. */
  lemma ForestStep(sh0: Shape, parent: ObjId, cs: seq<Schema>, k: nat, done: seq<UsdNode>, more: seq<UsdNode>,
                   sh1: Shape, sh2: Shape)
    requires k < |cs|
    requires Forest(sh0, parent, cs, k) == (sh1, Hosts(done))
    requires Tree(sh1, parent, cs[k]) == (sh2, Hosts(more))
    ensures Forest(sh0, parent, cs, k + 1) == (sh2, Hosts(done + more))
  {
    HostsAppend(done, more);
  }

  /** A host placed for `s`, followed by the walk of its children, is the walk of the subtree. */
  lemma TreeClose(sh0: Shape, parent: ObjId, s: Schema, e: UsdNode, sh1: Shape, kids: seq<UsdNode>, sh2: Shape)
    requires e.gameObject.Some?
    requires Place(sh0, parent, s.name) == (e.gameObject.value, sh1)
    requires Forest(sh1, e.gameObject.value, s.children, |s.children|) == (sh2, Hosts(kids))
    ensures Tree(sh0, parent, s) == (sh2, Hosts([e] + kids))
  {
    HostsAppend([e], kids);
    assert Hosts([e]) == [e.gameObject];
  }
}
