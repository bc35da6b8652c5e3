/**
 * The native schema layer of usdi (Plugin/usdi/usdiSchema.h) as values: a schema
 * tree, the callback traversals eachChild, eachChildR, eachInstance and
 * eachAttribute, the master redirection of as<T>(), the inheritance depth that
 * DefSchemaTraits gives every schema type, and the variant-set lookups.
 *
 * A traversal is modelled by what its callback receives: given `body`, the
 * result is the sequence of the values `body` returned, in call order.
 */
module UsdiSchema {
  import opened Wrappers

  /** A schema type: the root class `Schema`, or a class declared with DefSchemaTraits over its super class. */
  datatype SchemaType = BaseSchema | Derived(super: SchemaType, usdTypeName: string)

  datatype Attribute = Attribute(name: string)

  datatype VariantSet = VariantSet(name: string, variants: seq<string>)

  /** One native schema: its name, prim path, dynamic type, master (for an instance) and the containers it iterates. */
  datatype Schema = Schema(
    name: string,
    path: string,
    schemaType: SchemaType,
    master: Option<Schema>,
    children: seq<Schema>,
    instances: seq<Schema>,
    attributes: seq<Attribute>,
    variantSets: seq<VariantSet>)

  // ---------------------------------------------------------------- traversals

  /** A range-for over `xs` calling `body` on each element. */
  function ForEach<T, B>(xs: seq<T>, body: T -> B): (r: seq<B>)
    ensures |r| == |xs|
    ensures forall i :: 0 <= i < |xs| ==> r[i] == body(xs[i])
  {
    if xs == [] then [] else ForEach(xs[..|xs| - 1], body) + [body(xs[|xs| - 1])]
  }

  /** Schema::eachChild: the body runs once per element of m_children, in vector order. */
  function EachChild<B>(s: Schema, body: Schema -> B): (r: seq<B>)
    ensures |r| == |s.children|
    ensures forall i :: 0 <= i < |s.children| ==> r[i] == body(s.children[i])
  {
    ForEach(s.children, body)
  }

  /** Schema::eachInstance: the body runs once per element of m_instances, in vector order. */
  function EachInstance<B>(s: Schema, body: Schema -> B): (r: seq<B>)
    ensures |r| == |s.instances|
    ensures forall i :: 0 <= i < |s.instances| ==> r[i] == body(s.instances[i])
  {
    ForEach(s.instances, body)
  }

  /** Schema::eachAttribute: the body runs once per element of m_attributes, in vector order. */
  function EachAttribute<B>(s: Schema, body: Attribute -> B): (r: seq<B>)
    ensures |r| == |s.attributes|
    ensures forall i :: 0 <= i < |s.attributes| ==> r[i] == body(s.attributes[i])
  {
    ForEach(s.attributes, body)
  }

  /** Schema::eachChildR: first eachChild(body), then eachChildR(body) on every child in order. */
  function EachChildR<B>(s: Schema, body: Schema -> B): seq<B>
    decreases s
  {
    EachChild(s, body) + EachChildRAll(s.children, body)
  }

  /** The second pass of eachChildR: the recursive traversal of each schema of `cs`, concatenated in order. */
  function EachChildRAll<B>(cs: seq<Schema>, body: Schema -> B): seq<B>
    decreases cs
  {
    if cs == [] then [] else EachChildRAll(cs[..|cs| - 1], body) + EachChildR(cs[|cs| - 1], body)
  }

  // ------------------------------------------------ reference tree definitions

  /** The subtree of `s` in pre-order, children in index order. */
  function PreOrder(s: Schema): seq<Schema>
    decreases s
  {
    [s] + PreOrderAll(s.children)
  }

  /** The pre-order subtrees of `cs`, concatenated in order. */
  function PreOrderAll(cs: seq<Schema>): seq<Schema>
    decreases cs
  {
    if cs == [] then [] else PreOrderAll(cs[..|cs| - 1]) + PreOrder(cs[|cs| - 1])
  }

  /** The strict descendants of `s`, each once, in pre-order. */
  function Descendants(s: Schema): seq<Schema>
  {
    PreOrderAll(s.children)
  }

  // ----------------------------------------------------------- as<T>, typing

  /** dynamic_cast succeeds: `t` is the type itself or one of its super classes. */
  predicate IsA(t: SchemaType, target: SchemaType)
  {
    t == target || (t.Derived? && IsA(t.super, target))
  }

  /** The schema that as<T>() casts: the master when there is one, otherwise the schema itself. */
  function CastSubject(s: Schema): Schema
  {
    if s.master.Some? then s.master.value else s
  }

  /** Schema::as<T>(): the cast of the master (or of the schema itself) to the schema type `target`. */
  function As(s: Schema, target: SchemaType): (r: Option<Schema>)
    ensures r.Some? <==> IsA(CastSubject(s).schemaType, target)
    ensures r.Some? ==> r.value == CastSubject(s)
  {
    var m := CastSubject(s);
    if IsA(m.schemaType, target) then Some(m) else None
  }

  /** _getInheritDepth: 0 for Schema, the super class's depth plus one for every DefSchemaTraits class. */
  function InheritDepth(t: SchemaType): nat
  {
    match t
    case BaseSchema => 0
    case Derived(super, _) => InheritDepth(super) + 1
  }

  /** SchemaHandler<SchemaType>: the registration record of one schema type. */
  datatype SchemaHandler = SchemaHandler(schemaType: SchemaType)
  {
    /** SchemaHandler::getInheritDepth forwards the depth of its schema type. */
    function GetInheritDepth(): (d: nat)
      ensures d == 0 <==> schemaType == BaseSchema
    {
      InheritDepth(schemaType)
    }
  }

  // --------------------------------------------------------- variant lookup

  /** The first index of `x` in `xs`, or -1 when `xs` does not hold it. */
  function IndexOf<T(==)>(xs: seq<T>, x: T): (r: int)
    ensures -1 <= r < |xs|
    ensures r == -1 <==> x !in xs
    ensures 0 <= r ==> xs[r] == x && x !in xs[..r]
  {
    if xs == [] then -1
    else if xs[0] == x then 0
    else
      var k := IndexOf(xs[1..], x);
      if k < 0 then -1 else k + 1
  }

  /** Schema::findVariantSet: the index of the first variant set called `name`, -1 if none is. */
  function FindVariantSet(s: Schema, name: string): (r: int)
    ensures -1 <= r < |s.variantSets|
    ensures r == -1 <==> forall i :: 0 <= i < |s.variantSets| ==> s.variantSets[i].name != name
    ensures 0 <= r ==> s.variantSets[r].name == name
    ensures 0 <= r ==> forall i :: 0 <= i < r ==> s.variantSets[i].name != name
  {
    var names := ForEach(s.variantSets, (v: VariantSet) => v.name);
    var r := IndexOf(names, name);
    assert forall i :: 0 <= i < |s.variantSets| ==> names[i] == s.variantSets[i].name;
    assert 0 <= r ==> forall i :: 0 <= i < r ==> names[..r][i] == names[i];
    r
  }

  /** Schema::findVariant: the index of variant `name` in variant set `setIndex`, -1 if the set or the variant is missing. */
  function FindVariant(s: Schema, setIndex: int, name: string): (r: int)
    ensures r == -1 <==> !(0 <= setIndex < |s.variantSets|) || name !in s.variantSets[setIndex].variants
    ensures 0 <= r ==> 0 <= setIndex < |s.variantSets| && r < |s.variantSets[setIndex].variants|
    ensures 0 <= r ==> s.variantSets[setIndex].variants[r] == name && name !in s.variantSets[setIndex].variants[..r]
  {
    if 0 <= setIndex < |s.variantSets| then IndexOf(s.variantSets[setIndex].variants, name) else -1
  }

  /** The first schema of `ss` whose prim path is `path`. */
  function FindByPath(ss: seq<Schema>, path: string): (r: Option<Schema>)
    ensures r.Some? <==> exists i :: 0 <= i < |ss| && ss[i].path == path
    ensures r.Some? ==> r.value in ss && r.value.path == path
  {
    var paths := ForEach(ss, (s: Schema) => s.path);
    var k := IndexOf(paths, path);
    if k < 0 then None else Some(ss[k])
  }
}

/** Properties of the traversals and of the typing in UsdiSchema. */
module UsdiSchemaFacts {
  import opened Wrappers
  import opened UsdiSchema

  lemma ForEachAppend<T, B>(a: seq<T>, b: seq<T>, body: T -> B)
    ensures ForEach(a + b, body) == ForEach(a, body) + ForEach(b, body)
  {
    var l, r := ForEach(a + b, body), ForEach(a, body) + ForEach(b, body);
    assert |l| == |r|;
    forall i | 0 <= i < |l| ensures l[i] == r[i] {
      if i < |a| { assert (a + b)[i] == a[i]; } else { assert (a + b)[i] == b[i - |a|]; }
    }
  }

  /** eachChildR calls the body on all direct children first, in index order, before any deeper schema. */
  lemma EachChildRChildrenFirst<B>(s: Schema, body: Schema -> B)
    ensures |s.children| <= |EachChildR(s, body)|
    ensures EachChildR(s, body)[..|s.children|] == EachChild(s, body)
    ensures EachChildR(s, body)[|s.children|..] == EachChildRAll(s.children, body)
  {
    var first := EachChild(s, body);
    assert EachChildR(s, body) == first + EachChildRAll(s.children, body);
    assert |first| == |s.children|;
  }

  lemma {:induction false} EachChildRAllCovers<B>(cs: seq<Schema>, body: Schema -> B)
    ensures multiset(ForEach(cs, body)) + multiset(EachChildRAll(cs, body))
         == multiset(ForEach(PreOrderAll(cs), body))
    decreases cs
  {
    if cs != [] {
      var init, c := cs[..|cs| - 1], cs[|cs| - 1];
      assert cs == init + [c];
      EachChildRAllCovers(init, body);
      EachChildRAllCovers(c.children, body);
      ForEachAppend(init, [c], body);
      ForEachAppend(PreOrderAll(init), PreOrder(c), body);
      ForEachAppend([c], PreOrderAll(c.children), body);
      assert PreOrder(c) == [c] + PreOrderAll(c.children);
      assert EachChildR(c, body) == ForEach(c.children, body) + EachChildRAll(c.children, body);
    }
  }

  /**
   * eachChildR reaches every strict descendant exactly once: the multiset of
   * the schemas it hands to the body is that of the pre-order descendants.
   */
  lemma EachChildRCoversDescendants<B>(s: Schema, body: Schema -> B)
    ensures multiset(EachChildR(s, body)) == multiset(ForEach(Descendants(s), body))
    ensures |EachChildR(s, body)| == |Descendants(s)|
  {
    EachChildRAllCovers(s.children, body);
    assert EachChildR(s, body) == ForEach(s.children, body) + EachChildRAll(s.children, body);
    assert |multiset(EachChildR(s, body))| == |EachChildR(s, body)|;
  }

  lemma {:induction false} PreOrderAllBounds(cs: seq<Schema>, x: Schema)
    requires x in PreOrderAll(cs)
    ensures |PreOrder(x)| <= |PreOrderAll(cs)|
    decreases cs
  {
    var init, c := cs[..|cs| - 1], cs[|cs| - 1];
    assert PreOrderAll(cs) == PreOrderAll(init) + ([c] + PreOrderAll(c.children));
    if x in PreOrderAll(init) {
      PreOrderAllBounds(init, x);
    } else if x != c {
      PreOrderAllBounds(c.children, x);
    }
  }

  /** The pre-order of the first `k` subtrees extends that of the first `k - 1` by the k-th subtree. */
  lemma PreOrderAllPrefix(cs: seq<Schema>, k: nat)
    requires 0 < k <= |cs|
    ensures PreOrderAll(cs[..k]) == PreOrderAll(cs[..k - 1]) + PreOrder(cs[k - 1])
  {
    assert cs[..k][..k - 1] == cs[..k - 1];
  }

  lemma ForEachIdentity(xs: seq<Schema>)
    ensures ForEach(xs, (x: Schema) => x) == xs
  {
  }

  /** eachChildR never hands the schema it was called on to the body. */
  lemma EachChildRSkipsSelf(s: Schema)
    ensures s !in EachChildR(s, (x: Schema) => x)
  {
    var id := (x: Schema) => x;
    EachChildRCoversDescendants(s, id);
    ForEachIdentity(Descendants(s));
    if s in EachChildR(s, id) {
      assert s in multiset(EachChildR(s, id));
      assert s in Descendants(s);
      PreOrderAllBounds(s.children, s);
      assert false;
    }
  }

  /**
   * The order of eachChildR is not pre-order: under root -> [a, b],
   * a -> [a1], a1 -> [a2], b -> [b1] it visits the children a, b first and
   * then the whole recursive visit of a (a1, a2) before that of b (b1),
   * where pre-order gives a, a1, a2, b, b1 (PreOrderExample).
   */
  lemma EachChildROrderExample()
    ensures EachChildR(ExampleRoot(), Id) ==
            [ExampleA(), ExampleB(), ExampleA1(), ExampleLeaf("a2"), ExampleLeaf("b1")]
  {
    var a2, a1, b1 := ExampleLeaf("a2"), ExampleA1(), ExampleLeaf("b1");
    var a, b := ExampleA(), ExampleB();
    ExampleBranches();
    assert [a, b][..1] == [a];
    assert EachChildRAll([a], Id) == [a1, a2];
    assert EachChildRAll([a, b], Id) == [a1, a2, b1];
  }

  lemma ExampleBranches()
    ensures EachChildR(ExampleA(), Id) == [ExampleA1(), ExampleLeaf("a2")]
    ensures EachChildR(ExampleB(), Id) == [ExampleLeaf("b1")]
  {
    var a2, a1, b1 := ExampleLeaf("a2"), ExampleA1(), ExampleLeaf("b1");
    assert EachChildR(a2, Id) == [];
    assert EachChildR(b1, Id) == [];
    assert EachChildRAll([a2], Id) == [];
    assert EachChildR(a1, Id) == [a2];
    assert EachChildRAll([a1], Id) == [a2];
    assert EachChildRAll([b1], Id) == [];
  }

  function Id(x: Schema): Schema { x }

  lemma PreOrderExample()
    ensures Descendants(ExampleRoot()) ==
            [ExampleA(), ExampleA1(), ExampleLeaf("a2"), ExampleB(), ExampleLeaf("b1")]
  {
    var a2, a1, b1 := ExampleLeaf("a2"), ExampleA1(), ExampleLeaf("b1");
    var a, b := ExampleA(), ExampleB();
    assert PreOrder(a2) == [a2];
    assert PreOrderAll([a2]) == [a2];
    assert PreOrder(a1) == [a1, a2];
    assert PreOrderAll([a1]) == [a1, a2];
    assert PreOrder(a) == [a, a1, a2];
    assert PreOrder(b1) == [b1];
    assert PreOrderAll([b1]) == [b1];
    assert PreOrder(b) == [b, b1];
    assert [a, b][..1] == [a];
    assert PreOrderAll([a]) == [a, a1, a2];
  }

  function ExampleA1(): Schema { ExampleNode("a1", [ExampleLeaf("a2")]) }
  function ExampleA(): Schema { ExampleNode("a", [ExampleA1()]) }
  function ExampleB(): Schema { ExampleNode("b", [ExampleLeaf("b1")]) }
  function ExampleRoot(): Schema { ExampleNode("root", [ExampleA(), ExampleB()]) }

  function ExampleLeaf(name: string): Schema
  {
    Schema(name, "/" + name, BaseSchema, None, [], [], [], [])
  }

  function ExampleNode(name: string, children: seq<Schema>): Schema
  {
    Schema(name, "/" + name, BaseSchema, None, children, [], [], [])
  }

  /** A successful dynamic_cast to a class also succeeds to every super class of it. */
  lemma {:induction false} IsATransitive(t: SchemaType, mid: SchemaType, target: SchemaType)
    requires IsA(t, mid) && IsA(mid, target)
    ensures IsA(t, target)
    decreases t
  {
    if t != mid {
      IsATransitive(t.super, mid, target);
    }
  }

  /** A class is deeper than every strict super class of it, which is what getInheritDepth is used to rank. */
  lemma {:induction false} InheritDepthOrdersSubclasses(t: SchemaType, target: SchemaType)
    requires IsA(t, target)
    ensures InheritDepth(target) <= InheritDepth(t)
    ensures InheritDepth(target) == InheritDepth(t) <==> t == target
    decreases t
  {
    if t != target {
      InheritDepthOrdersSubclasses(t.super, target);
    }
  }

  /** The handler of a strict subclass reports a greater inheritance depth than that of its super class. */
  lemma HandlerDepthRanksSubclasses(derived: SchemaHandler, base: SchemaHandler)
    requires IsA(derived.schemaType, base.schemaType) && derived != base
    ensures base.GetInheritDepth() < derived.GetInheritDepth()
  {
    InheritDepthOrdersSubclasses(derived.schemaType, base.schemaType);
  }

  /** An instance classifies by its master: its own type plays no part in as<T>(). */
  lemma InstanceClassifiesByMaster(inst: Schema, other: Schema, target: SchemaType)
    requires inst.master.Some? && other.master == inst.master
    ensures As(inst, target) == As(other, target)
    ensures As(inst, target).Some? <==> IsA(inst.master.value.schemaType, target)
  {
  }
}
