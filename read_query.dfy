/**
 * The read query of the REST API server: which properties of a resource a
 * request selects (whole categories, single properties, sub-resources), the
 * index of the schema's '/'-separated category paths that selection uses,
 * and the predicate and request the query hands to the cluster controller.
 *
 * The schema, the resource definition and its sub-resources are given as
 * values; what a sub-resource's own query does with a forwarded property is
 * not modelled, only the forwarded call itself is recorded.
 */
module ReadQuery {
  import opened Wrappers

  /** The time window of a metrics property (`TemporalInfo`). */
  datatype TemporalInfo = TemporalInfo(startTime: int, endTime: int, step: int)

  /** `PropertyIdImpl`: equal when name, category and temporal flag are. */
  datatype PropertyId = PropertyId(name: string, category: Option<string>, temporal: bool)

  /** A sub-resource definition, which carries a query of its own. */
  datatype ResourceRef = ResourceRef(typeName: string)

  /** The predicates a query builds (`EqualsPredicate`, `AndPredicate`) and the
      predicate a user supplies, whose meaning is given from outside. */
  datatype Predicate =
    | Equals(key: PropertyId, value: string)
    | And(operands: set<Predicate>)
    | UserDefined(id: nat)

  /** A call `addProperty(category, property, temporalInfo)` made on the query
      of sub-resource `subResource`. */
  datatype Forward = Forward(subResource: string, category: Option<string>, property: Option<string>,
                             temporalInfo: Option<TemporalInfo>)

  /** What `createRequest` builds: the selected property ids and the
      property-level temporal information. */
  datatype Request = Request(propertyIds: set<PropertyId>, temporalInfo: map<PropertyId, TemporalInfo>)

  // ----- '/'-separated paths -----

  function IndexOfSlash(s: string): (i: Option<nat>)
    ensures i.Some? ==> i.value < |s| && s[i.value] == '/' && forall k :: 0 <= k < i.value ==> s[k] != '/'
    ensures i.None? ==> forall k :: 0 <= k < |s| ==> s[k] != '/'
  {
    if s == [] then None
    else if s[0] == '/' then Some(0)
    else match IndexOfSlash(s[1..])
      case None => None
      case Some(i) => Some(i + 1)
  }

  /** The pieces between the '/'s, empty ones included: how a child is looked
      up by a '/'-separated name in the category index. */
  function Segments(s: string): (r: seq<string>)
    ensures |r| >= 1
    ensures forall k :: 0 <= k < |r| ==> '/' !in r[k]
    decreases |s|
  {
    match IndexOfSlash(s)
    case None => [s]
    case Some(i) => [s[..i]] + Segments(s[i + 1..])
  }

  function JoinSlash(segs: seq<string>): string
    requires |segs| >= 1
  {
    if |segs| == 1 then segs[0] else segs[0] + "/" + JoinSlash(segs[1..])
  }

  /** Splitting at every '/' loses nothing: joining the pieces gives the name back. */
  lemma {:induction false} SegmentsRoundTrip(s: string)
    ensures JoinSlash(Segments(s)) == s
    decreases |s|
  {
    match IndexOfSlash(s)
    case None =>
    case Some(i) =>
      var rest := Segments(s[i + 1..]);
      SegmentsRoundTrip(s[i + 1..]);
      var segs := [s[..i]] + rest;
      assert Segments(s) == segs;
      assert segs[0] == s[..i] && segs[1..] == rest;
      calc {
        JoinSlash(segs);
        s[..i] + "/" + JoinSlash(rest);
        s[..i] + "/" + s[i + 1..];
        { assert s == s[..i] + [s[i]] + s[i + 1..]; }
        s;
      }
  }

  function DropTrailingEmpty(segs: seq<string>): (r: seq<string>)
    ensures |r| <= |segs| && r == segs[..|r|]
    ensures r == [] || |r[|r| - 1]| > 0
  {
    if segs == [] || |segs[|segs| - 1]| > 0 then segs else DropTrailingEmpty(segs[..|segs| - 1])
  }

  /** Java's `s.split("/")`: the whole string when there is no '/', otherwise
      the pieces with the trailing empty ones removed. */
  function JavaSplit(s: string): seq<string> {
    if IndexOfSlash(s).None? then [s] else DropTrailingEmpty(Segments(s))
  }

  /** The last piece is empty exactly when the name is empty or ends with '/'. */
  lemma {:induction false} SegmentsLastIsTail(s: string, segs: seq<string>)
    requires segs == Segments(s)
    ensures |segs[|segs| - 1]| == 0 <==> (s == [] || s[|s| - 1] == '/')
    decreases |s|
  {
    match IndexOfSlash(s)
    case None =>
    case Some(i) =>
      var tail := s[i + 1..];
      var rest := Segments(tail);
      SegmentsLastIsTail(tail, rest);
      assert segs == [s[..i]] + rest;
      assert segs[|segs| - 1] == rest[|rest| - 1];
      if tail != [] {
        assert tail[|tail| - 1] == s[|s| - 1];
      }
  }

  /** A name that does not end with '/' is split the same both ways, so the
      index stores its properties exactly where a lookup by that name looks. */
  lemma SplitAgreesWithoutTrailingSlash(s: string)
    requires s == [] || s[|s| - 1] != '/'
    ensures JavaSplit(s) == Segments(s)
  {
    if IndexOfSlash(s).Some? {
      var segs := Segments(s);
      SegmentsLastIsTail(s, segs);
      assert DropTrailingEmpty(segs) == segs;
    }
  }

  // ----- the category index -----

  /** The index: a node per path of names from the root, holding the
      properties of the categories placed there. */
  type Tree = map<seq<string>, set<string>>

  /** The root is there and every node's parent is. */
  predicate PrefixClosed(tree: Tree) {
    && [] in tree
    && forall q, k :: q in tree && 0 <= k <= |q| ==> q[..k] in tree
  }

  /** The nodes along `path`, created empty where missing (`addChild`). */
  function EnsurePath(tree: Tree, path: seq<string>): (r: Tree)
    ensures forall q :: q in r <==> q in tree || IsPrefix(q, path)
    ensures forall q :: q in tree ==> r[q] == tree[q]
    ensures forall q :: q in r && q !in tree ==> r[q] == {}
  {
    if path == [] then (if [] in tree then tree else tree[[] := {}])
    else
      var t := EnsurePath(tree, path[..|path| - 1]);
      assert forall q :: IsPrefix(q, path) <==> q == path || IsPrefix(q, path[..|path| - 1]) by {
        forall q | IsPrefix(q, path) && q != path ensures IsPrefix(q, path[..|path| - 1]) {
          assert path[..|path| - 1][..|q|] == path[..|q|];
        }
        forall q | IsPrefix(q, path[..|path| - 1]) ensures IsPrefix(q, path) {
          assert path[..|path| - 1][..|q|] == path[..|q|];
        }
      }
      if path in t then t else t[path := {}]
  }

  predicate IsPrefix(q: seq<string>, path: seq<string>) {
    |q| <= |path| && path[..|q|] == q
  }

  /** In a closed index a node's path is all there already. */
  lemma EnsurePathUnchanged(tree: Tree, path: seq<string>)
    requires PrefixClosed(tree) && path in tree
    ensures EnsurePath(tree, path) == tree
  {
    assert path[..|path|] == path;
  }

  /** Where `buildAllPropertiesTree` puts a category: at the node its name
      already finds, else along the pieces of `split("/")`. */
  function PlaceOf(tree: Tree, category: string): seq<string> {
    if Segments(category) in tree then Segments(category) else JavaSplit(category)
  }

  /** One category added to the index. */
  function AddCategoryToTree(tree: Tree, category: string, props: set<string>): Tree {
    var path := PlaceOf(tree, category);
    var t := EnsurePath(tree, path);
    t[path := t[path] + props]
  }

  /** The index after the categories of `order`, in that order. */
  function BuildTree(tree: Tree, all: map<string, set<string>>, order: seq<string>): Tree
    requires forall i :: 0 <= i < |order| ==> order[i] in all
  {
    if order == [] then tree
    else
      var last := order[|order| - 1];
      AddCategoryToTree(BuildTree(tree, all, order[..|order| - 1]), last, all[last])
  }

  lemma EnsurePathKeepsClosed(tree: Tree, path: seq<string>)
    requires PrefixClosed(tree)
    ensures PrefixClosed(EnsurePath(tree, path)) && path in EnsurePath(tree, path)
  {
    var r := EnsurePath(tree, path);
    assert IsPrefix(path, path);
    forall q, k | q in r && 0 <= k <= |q| ensures q[..k] in r {
      if q !in tree {
        assert IsPrefix(q[..k], path);
      }
    }
  }

  /** Adding a category loses no node and no property, and adds only its own. */
  lemma AddCategoryToTreeGrows(tree: Tree, category: string, props: set<string>)
    ensures var r := AddCategoryToTree(tree, category, props);
      && PlaceOf(tree, category) in r && props <= r[PlaceOf(tree, category)]
      && (forall q :: q in tree ==> q in r && tree[q] <= r[q])
      && (forall q, x :: q in r && x in r[q] ==> x in props || (q in tree && x in tree[q]))
  {
  }

  /** Building keeps the index closed and never loses a node or a property. */
  lemma {:induction false} BuildTreeGrows(tree: Tree, all: map<string, set<string>>, order: seq<string>)
    requires forall i :: 0 <= i < |order| ==> order[i] in all
    requires PrefixClosed(tree)
    ensures var r := BuildTree(tree, all, order);
      && PrefixClosed(r)
      && (forall q :: q in tree ==> q in r && tree[q] <= r[q])
  {
    if order != [] {
      var init := order[..|order| - 1];
      BuildTreeGrows(tree, all, init);
      var t := BuildTree(tree, all, init);
      var c := order[|order| - 1];
      EnsurePathKeepsClosed(t, PlaceOf(t, c));
      AddCategoryToTreeGrows(t, c, all[c]);
    }
  }

  /** Every category's properties end up in the index, at the node its name
      finds or at the node of its `split("/")` pieces. */
  lemma {:induction false} BuildTreeHoldsEveryCategory(tree: Tree, all: map<string, set<string>>, order: seq<string>, i: nat)
    requires forall j :: 0 <= j < |order| ==> order[j] in all
    requires i < |order|
    ensures var r := BuildTree(tree, all, order);
      var c := order[i];
      || (Segments(c) in r && all[c] <= r[Segments(c)])
      || (JavaSplit(c) in r && all[c] <= r[JavaSplit(c)])
  {
    var init := order[..|order| - 1];
    var t := BuildTree(tree, all, init);
    var last := order[|order| - 1];
    AddCategoryToTreeGrows(t, last, all[last]);
    if i < |order| - 1 {
      BuildTreeHoldsEveryCategory(tree, all, init, i);
      assert init[i] == order[i];
    }
  }

  /** Nothing enters the index but the schema's own properties. */
  lemma {:induction false} BuildTreeOnlySchemaProperties(tree: Tree, all: map<string, set<string>>, order: seq<string>,
                                                         q: seq<string>, x: string)
    requires forall i :: 0 <= i < |order| ==> order[i] in all
    requires q in BuildTree(tree, all, order) && x in BuildTree(tree, all, order)[q]
    ensures (q in tree && x in tree[q]) || exists i :: 0 <= i < |order| && x in all[order[i]]
  {
    if order != [] {
      var init := order[..|order| - 1];
      var t := BuildTree(tree, all, init);
      var last := order[|order| - 1];
      AddCategoryToTreeGrows(t, last, all[last]);
      if x !in all[last] {
        BuildTreeOnlySchemaProperties(tree, all, init, q, x);
        if !(q in tree && x in tree[q]) {
          var i :| 0 <= i < |init| && x in all[init[i]];
          assert init[i] == order[i];
        }
      }
    }
  }

  lemma BuildTreeStep(tree: Tree, all: map<string, set<string>>, order: seq<string>, k: nat)
    requires forall i :: 0 <= i < |order| ==> order[i] in all
    requires k < |order|
    ensures BuildTree(tree, all, order[..k + 1])
      == AddCategoryToTree(BuildTree(tree, all, order[..k]), order[k], all[order[k]])
  {
    assert order[..k + 1][..k] == order[..k];
  }

  /** The index before any category is added: the root alone. */
  const RootOnly: Tree := map[[] := {}]

  // ----- selecting categories -----

  /** The name a descendant node is selected under: the category, then
      "/child" for each step down. */
  function CatName(base: string, rest: seq<string>): string
    decreases |rest|
  {
    if rest == [] then base else CatName(base + "/" + rest[0], rest[1..])
  }

  /** A batch of selections: (category name, properties) pairs. */
  type Entries = set<(string, set<string>)>

  function KeysOf(e: Entries): set<string> {
    set p | p in e :: p.0
  }

  function Gathered(e: Entries, k: string): set<string> {
    set p, x | p in e && p.0 == k && x in p.1 :: x
  }

  /** Each name of the batch gets its properties added to its selection set,
      which is created when absent; no other name changes. */
  function Merge(sel: map<string, set<string>>, e: Entries): map<string, set<string>> {
    map k | k in sel.Keys + KeysOf(e) :: (if k in sel then sel[k] else {}) + Gathered(e, k)
  }

  /** A batch selects exactly its own names, loses nothing already selected
      and leaves every other name as it was. */
  lemma MergeKeepsOthers(sel: map<string, set<string>>, e: Entries)
    ensures Merge(sel, e).Keys == sel.Keys + KeysOf(e)
    ensures forall k :: k in sel && k !in KeysOf(e) ==> Merge(sel, e)[k] == sel[k]
    ensures forall k :: k in sel ==> sel[k] <= Merge(sel, e)[k]
  {
  }

  /** Each name of the batch gets the temporal information `t` (null included). */
  function Stamp(m: map<string, Option<TemporalInfo>>, e: Entries, t: Option<TemporalInfo>): map<string, Option<TemporalInfo>> {
    m + map k | k in KeysOf(e) :: t
  }

  /** Two batches in a row are one batch. */
  lemma MergeTwice(sel: map<string, set<string>>, a: Entries, b: Entries)
    ensures Merge(Merge(sel, a), b) == Merge(sel, a + b)
  {
    var m := Merge(sel, a);
    var l, r := Merge(m, b), Merge(sel, a + b);
    KeysOfUnion(a, b);
    forall k | k in r ensures k in l && l[k] == r[k] {
      GatheredUnion(a, b, k);
      MergeAt(sel, a, k);
      MergeAt(m, b, k);
      MergeAt(sel, a + b, k);
    }
  }

  lemma MergeAt(sel: map<string, set<string>>, e: Entries, k: string)
    ensures k in Merge(sel, e) <==> k in sel || k in KeysOf(e)
    ensures k in Merge(sel, e) ==> Merge(sel, e)[k] == (if k in sel then sel[k] else {}) + Gathered(e, k)
  {
  }

  lemma KeysOfUnion(a: Entries, b: Entries)
    ensures KeysOf(a + b) == KeysOf(a) + KeysOf(b)
  {
  }

  lemma GatheredUnion(a: Entries, b: Entries, k: string)
    ensures Gathered(a + b, k) == Gathered(a, k) + Gathered(b, k)
  {
  }

  lemma StampTwice(m: map<string, Option<TemporalInfo>>, a: Entries, b: Entries, t: Option<TemporalInfo>)
    ensures Stamp(Stamp(m, a, t), b, t) == Stamp(m, a + b, t)
  {
    KeysOfUnion(a, b);
  }

  /** A batch adds every one of its properties under its name. */
  lemma MergeAddsEntries(sel: map<string, set<string>>, e: Entries)
    ensures forall p :: p in e ==> p.0 in Merge(sel, e) && p.1 <= Merge(sel, e)[p.0]
  {
    forall p | p in e ensures p.0 in Merge(sel, e) && p.1 <= Merge(sel, e)[p.0] {
      assert p.0 in KeysOf(e);
      forall x | x in p.1 ensures x in Gathered(e, p.0) {
      }
    }
  }

  predicate Descends(path: seq<string>, q: seq<string>) {
    |path| <= |q| && q[..|path|] == path
  }

  /** What `addCategory(node, category, t)` selects: every node of the
      subtree, under its "category/child/..." name. */
  function SubtreeEntries(tree: Tree, path: seq<string>, category: string): Entries {
    set q | q in tree && Descends(path, q) :: (CatName(category, q[|path|..]), tree[q])
  }

  function ChildrenOf(tree: Tree, path: seq<string>): set<seq<string>> {
    set q | q in tree && |q| == |path| + 1 && q[..|path|] == path
  }

  /** The subtrees of the children in `cs`, each under "category/child". */
  function ChildEntries(tree: Tree, path: seq<string>, category: string, cs: set<seq<string>>): Entries {
    set c, p | c in cs && |c| > |path| && p in SubtreeEntries(tree, c, category + "/" + c[|path|]) :: p
  }

  /** A node's selection is its own properties plus its children's subtrees. */
  lemma SubtreeSplits(tree: Tree, path: seq<string>, category: string)
    requires PrefixClosed(tree) && path in tree
    ensures SubtreeEntries(tree, path, category)
      == {(category, tree[path])} + ChildEntries(tree, path, category, ChildrenOf(tree, path))
  {
    var lhs := SubtreeEntries(tree, path, category);
    var rhs := {(category, tree[path])} + ChildEntries(tree, path, category, ChildrenOf(tree, path));
    forall p | p in lhs ensures p in rhs {
      var q :| q in tree && Descends(path, q) && p == (CatName(category, q[|path|..]), tree[q]);
      if q != path {
        assert |q| > |path|;
        var c := q[..|path| + 1];
        assert c in tree;
        assert c[..|path|] == path;
        assert c in ChildrenOf(tree, path);
        assert q[|path|..][1..] == q[|c|..];
        assert q[|path|..][0] == c[|path|];
        assert Descends(c, q);
        assert p in SubtreeEntries(tree, c, category + "/" + c[|path|]);
      } else {
        assert q[|path|..] == [];
      }
    }
    forall p | p in rhs ensures p in lhs {
      if p == (category, tree[path]) {
        assert path[|path|..] == [];
        assert Descends(path, path);
      } else {
        var c :| c in ChildrenOf(tree, path) && |c| > |path| && p in SubtreeEntries(tree, c, category + "/" + c[|path|]);
        var q :| q in tree && Descends(c, q) && p == (CatName(category + "/" + c[|path|], q[|c|..]), tree[q]);
        assert q[..|path|] == q[..|c|][..|path|];
        assert q[|path|..][1..] == q[|c|..];
        assert q[|path|..][0] == c[|path|];
        assert Descends(path, q);
      }
    }
  }

  lemma ChildEntriesAdd(tree: Tree, path: seq<string>, category: string, done: set<seq<string>>, c: seq<string>)
    requires |c| > |path|
    ensures ChildEntries(tree, path, category, done + {c})
      == ChildEntries(tree, path, category, done) + SubtreeEntries(tree, c, category + "/" + c[|path|])
  {
  }

  function Below(tree: Tree, path: seq<string>): set<seq<string>> {
    set q | q in tree && |q| > |path| && q[..|path|] == path
  }

  lemma ChildHasFewerBelow(tree: Tree, path: seq<string>, c: seq<string>)
    requires c in ChildrenOf(tree, path)
    ensures Below(tree, c) < Below(tree, path)
  {
    assert c in Below(tree, path);
    forall q | q in Below(tree, c) ensures q in Below(tree, path) {
      assert q[..|path|] == q[..|c|][..|path|];
    }
  }

  lemma OwnEntryMerges(sel: map<string, set<string>>, temporal: map<string, Option<TemporalInfo>>,
                       category: string, props: set<string>, t: Option<TemporalInfo>)
    ensures Merge(sel, {(category, props)}) == sel[category := (if category in sel then sel[category] else {}) + props]
    ensures Stamp(temporal, {(category, props)}, t) == temporal[category := t]
  {
    var e := {(category, props)};
    assert KeysOf(e) == {category};
    forall k | k in Merge(sel, e) ensures Merge(sel, e)[k] == sel[category := (if category in sel then sel[category] else {}) + props][k] {
      MergeAt(sel, e, k);
      assert Gathered(e, k) == if k == category then props else {};
    }
  }

  lemma MergeNothing(sel: map<string, set<string>>)
    ensures Merge(sel, {}) == sel
  {
    assert KeysOf({}) == {};
    forall k | k in sel ensures Merge(sel, {})[k] == sel[k] {
      MergeAt(sel, {}, k);
      assert Gathered({}, k) == {};
    }
  }

  lemma ChildAccumulates(tree: Tree, path: seq<string>, category: string,
                         sel: map<string, set<string>>, temporal: map<string, Option<TemporalInfo>>,
                         t: Option<TemporalInfo>, done: set<seq<string>>, c: seq<string>)
    requires c in ChildrenOf(tree, path)
    ensures var sub := SubtreeEntries(tree, c, category + "/" + c[|path|]);
      var before := ChildEntries(tree, path, category, done);
      && Merge(Merge(sel, before), sub) == Merge(sel, ChildEntries(tree, path, category, done + {c}))
      && Stamp(Stamp(temporal, before, t), sub, t) == Stamp(temporal, ChildEntries(tree, path, category, done + {c}), t)
  {
    var sub := SubtreeEntries(tree, c, category + "/" + c[|path|]);
    var before := ChildEntries(tree, path, category, done);
    ChildEntriesAdd(tree, path, category, done, c);
    MergeTwice(sel, before, sub);
    StampTwice(temporal, before, sub, t);
  }

  /** A selected category covers its whole subtree: every descendant node's
      properties are selected under its "category/child/..." name, with the
      category's temporal information. */
  lemma SubtreeSelectionCovers(tree: Tree, path: seq<string>, category: string,
                               sel: map<string, set<string>>, temporal: map<string, Option<TemporalInfo>>,
                               t: Option<TemporalInfo>, q: seq<string>)
    requires q in tree && Descends(path, q)
    ensures var name := CatName(category, q[|path|..]);
      var e := SubtreeEntries(tree, path, category);
      && name in Merge(sel, e) && tree[q] <= Merge(sel, e)[name]
      && name in Stamp(temporal, e, t) && Stamp(temporal, e, t)[name] == t
  {
    var e := SubtreeEntries(tree, path, category);
    var p := (CatName(category, q[|path|..]), tree[q]);
    assert p in e;
    assert p.0 in KeysOf(e);
    MergeAddsEntries(sel, e);
  }

  // ----- predicates -----

  /** What a predicate says about a resource, given by its property values;
      `user` gives the meaning of user predicates. */
  predicate Eval(p: Predicate, resource: map<PropertyId, string>, user: nat -> bool)
    decreases p
  {
    match p
    case Equals(key, value) => key in resource && resource[key] == value
    case And(ops) => forall o :: o in ops ==> Eval(o, resource, user)
    case UserDefined(id) => user(id)
  }

  /** The equality predicates on the resource's ids: one per id with a value
      whose type has a key property. */
  ghost function InternalPredicates(resourceIds: map<string, Option<string>>, keyPropertyIds: map<string, PropertyId>): set<Predicate> {
    set ty | ty in resourceIds && resourceIds[ty].Some? && ty in keyPropertyIds :: Equals(keyPropertyIds[ty], resourceIds[ty].value)
  }

  lemma SingletonHasOnlyIt<T>(s: set<T>, x: T)
    requires |s| == 1 && x in s
    ensures s == {x}
  {
    assert |s - {x}| == 0;
  }

  /** null for no predicate, the predicate itself for one, their conjunction for several. */
  ghost function Conjoin(ps: set<Predicate>): (r: Option<Predicate>)
    ensures |ps| == 1 ==> r.Some? && ps == {r.value}
  {
    if |ps| == 0 then None
    else if |ps| == 1 then
      var p :| p in ps;
      SingletonHasOnlyIt(ps, p);
      Some(p)
    else Some(And(ps))
  }

  /** The conjunction holds exactly when every one of the predicates holds. */
  lemma ConjoinMeansAll(ps: set<Predicate>, resource: map<PropertyId, string>, user: nat -> bool)
    ensures Conjoin(ps).Some? <==> ps != {}
    ensures Conjoin(ps).Some? ==>
      (Eval(Conjoin(ps).value, resource, user) <==> forall p :: p in ps ==> Eval(p, resource, user))
  {
  }

  /** The internal predicate exists when some id with a value has a key
      property, and it accepts a resource exactly when the resource holds
      each such key property with the id's value. */
  lemma InternalPredicateMeansIdsMatch(resourceIds: map<string, Option<string>>, keyPropertyIds: map<string, PropertyId>,
                                       resource: map<PropertyId, string>, user: nat -> bool)
    ensures var c := Conjoin(InternalPredicates(resourceIds, keyPropertyIds));
      && (c.None? <==> forall ty :: ty in resourceIds && resourceIds[ty].Some? ==> ty !in keyPropertyIds)
      && (c.Some? ==> (Eval(c.value, resource, user) <==>
            forall ty :: ty in resourceIds && resourceIds[ty].Some? && ty in keyPropertyIds ==>
              keyPropertyIds[ty] in resource && resource[keyPropertyIds[ty]] == resourceIds[ty].value))
  {
    var ps := InternalPredicates(resourceIds, keyPropertyIds);
    ConjoinMeansAll(ps, resource, user);
    forall ty | ty in resourceIds && resourceIds[ty].Some? && ty in keyPropertyIds
      ensures Equals(keyPropertyIds[ty], resourceIds[ty].value) in ps
    {
    }
  }

  /** `createPredicate`: the user predicate and the internal one, whichever exist. */
  function CombinePredicates(user: Option<Predicate>, internal: Option<Predicate>): (r: Option<Predicate>)
    ensures r.None? <==> user.None? && internal.None?
  {
    match internal
    case None => user
    case Some(i) => if user.None? then internal else Some(And({user.value, i}))
  }

  /** The combined predicate accepts a resource exactly when both parts that
      exist accept it. */
  lemma CombinedPredicateMeansBoth(user: Option<Predicate>, internal: Option<Predicate>,
                                   resource: map<PropertyId, string>, meaning: nat -> bool)
    requires user.Some? || internal.Some?
    ensures var r := CombinePredicates(user, internal);
      Eval(r.value, resource, meaning) <==>
        (user.None? || Eval(user.value, resource, meaning)) && (internal.None? || Eval(internal.value, resource, meaning))
  {
  }

  // ----- the request -----

  /** Whether a selected property asks for temporal data: its category has
      temporal information, or, failing that, the property itself has. */
  function HasTemporal(categoryTemporal: map<string, Option<TemporalInfo>>, propertyTemporal: map<PropertyId, TemporalInfo>,
                       group: string, property: string): bool
  {
    (group in categoryTemporal && categoryTemporal[group].Some?)
    || PropertyId(property, Some(group), true) in propertyTemporal
  }

  ghost function RequestIds(sel: map<string, set<string>>, categoryTemporal: map<string, Option<TemporalInfo>>,
                            propertyTemporal: map<PropertyId, TemporalInfo>): set<PropertyId>
  {
    set g, p | g in sel && p in sel[g] :: PropertyId(p, Some(g), HasTemporal(categoryTemporal, propertyTemporal, g, p))
  }

  /** The request has exactly one id per selected (category, property) pair,
      flagged temporal exactly when temporal data exists for it, and no other id. */
  lemma RequestIdsOnePerPair(sel: map<string, set<string>>, categoryTemporal: map<string, Option<TemporalInfo>>,
                             propertyTemporal: map<PropertyId, TemporalInfo>)
    ensures var ids := RequestIds(sel, categoryTemporal, propertyTemporal);
      && (forall g, p :: g in sel && p in sel[g] ==>
            && PropertyId(p, Some(g), HasTemporal(categoryTemporal, propertyTemporal, g, p)) in ids
            && PropertyId(p, Some(g), !HasTemporal(categoryTemporal, propertyTemporal, g, p)) !in ids)
      && (forall id :: id in ids ==> id.category.Some? && id.category.value in sel && id.name in sel[id.category.value])
  {
  }

  /** `setParentIdsOnSubResource`: a parent id without a value is read from
      the resource's key property, when the type has one and the resource
      holds it. */
  function ResolvedId(value: Option<string>, keyProperty: Option<PropertyId>, resource: map<PropertyId, string>): Option<string> {
    if value.Some? then value
    else if keyProperty.Some? && keyProperty.value in resource then Some(resource[keyProperty.value])
    else None
  }

  function KeyPropertyOf(keyPropertyIds: map<string, PropertyId>, ty: string): Option<PropertyId> {
    if ty in keyPropertyIds then Some(keyPropertyIds[ty]) else None
  }

  ghost function ParentIds(parentIds: map<string, Option<string>>, keyPropertyIds: map<string, PropertyId>,
                           resource: map<PropertyId, string>): map<string, string>
  {
    map ty | ty in parentIds && ResolvedId(parentIds[ty], KeyPropertyOf(keyPropertyIds, ty), resource).Some?
      :: ResolvedId(parentIds[ty], KeyPropertyOf(keyPropertyIds, ty), resource).value
  }

  /** A parent id is handed on when it is known, with its value; an unknown
      one exactly when its type has a key property the resource holds, with
      the resource's value of it; no other type is handed on. */
  lemma ParentIdsResolve(parentIds: map<string, Option<string>>, keyPropertyIds: map<string, PropertyId>,
                         resource: map<PropertyId, string>, ty: string)
    ensures ty in ParentIds(parentIds, keyPropertyIds, resource) ==> ty in parentIds
    ensures ty in parentIds && parentIds[ty].Some? ==>
      ty in ParentIds(parentIds, keyPropertyIds, resource)
      && ParentIds(parentIds, keyPropertyIds, resource)[ty] == parentIds[ty].value
    ensures ty in parentIds && parentIds[ty].None? ==>
      && (ty in ParentIds(parentIds, keyPropertyIds, resource) <==> ty in keyPropertyIds && keyPropertyIds[ty] in resource)
      && (ty in ParentIds(parentIds, keyPropertyIds, resource) ==>
            ParentIds(parentIds, keyPropertyIds, resource)[ty] == resource[keyPropertyIds[ty]])
  {
  }

  /** A string as Java's concatenation prints it: a null reads "null". */
  function OrNull(s: Option<string>): string {
    if s.Some? then s.value else "null"
  }

  /** The name `addCategory(category, name, t)` looks up: `category + '/' + name`,
      or the name alone when the category is null. */
  function CategoryPath(category: Option<string>, name: Option<string>): string
    requires category.Some? || name.Some?
  {
    if category.Some? then category.value + "/" + OrNull(name) else name.value
  }

  /** `addPropertyToSubResource` reads a null path as the property, with no property left. */
  function RoutedPath(path: Option<string>, property: Option<string>): string
    requires path.Some? || property.Some?
  {
    if path.Some? then path.value else property.value
  }

  function RoutedProperty(path: Option<string>, property: Option<string>): Option<string> {
    if path.Some? then property else None
  }

  /** The sub-resource a path names: its part before the first '/'. */
  function Head(full: string): string {
    Segments(full)[0]
  }

  /** The part after the first '/', handed on to the sub-resource's query; null when there is no '/'. */
  function Rest(full: string): Option<string> {
    match IndexOfSlash(full)
    case None => None
    case Some(i) => Some(full[i + 1..])
  }

  /** The routing loses nothing: the sub-resource name holds no '/', and
      it and the forwarded rest rebuild the path. */
  lemma HeadAndRestRebuildPath(full: string)
    ensures '/' !in Head(full)
    ensures Rest(full).None? ==> Head(full) == full
    ensures Rest(full).Some? ==> Head(full) + "/" + Rest(full).value == full
  {
    match IndexOfSlash(full)
    case None =>
    case Some(i) =>
      assert Segments(full)[0] == full[..i];
      assert full == full[..i] + [full[i]] + full[i + 1..];
  }

  /** Selecting a descendant under "category/child/..." names it by the
      category and the path below, joined with '/'. */
  lemma {:induction false} CatNameJoins(base: string, rest: seq<string>)
    requires rest != []
    ensures CatName(base, rest) == base + "/" + JoinSlash(rest)
    decreases |rest|
  {
    if |rest| > 1 {
      CatNameJoins(base + "/" + rest[0], rest[1..]);
    }
  }

  /** The entries of `m` whose keys are in `keys`. */
  function Restrict<K, V>(m: map<K, V>, keys: set<K>): map<K, V> {
    map k | k in m && k in keys :: m[k]
  }

  lemma RestrictGrows<K, V>(base: map<K, V>, m: map<K, V>, done: set<K>, k: K)
    requires k in m
    ensures (base + Restrict(m, done))[k := m[k]] == base + Restrict(m, done + {k})
  {
  }

  lemma RestrictAll<K, V>(m: map<K, V>, keys: set<K>)
    requires keys == m.Keys
    ensures Restrict(m, keys) == m
  {
  }

  // ----- the query -----

  class Query {
    /** The resource definition: its type, its ids (`null` where unknown)
        and its sub-resources. */
    const resourceType: string
    const resourceIds: map<string, Option<string>>
    const definitionSubResources: map<string, ResourceRef>
    /** The schema of the resource type: its categories and the key property
        of each resource type. */
    const allProperties: map<string, set<string>>
    const keyPropertyIds: map<string, PropertyId>

    var tree: Tree
    /** `m_mapQueryProperties` */
    var selection: map<string, set<string>>
    var propertyTemporal: map<PropertyId, TemporalInfo>
    var categoryTemporal: map<string, Option<TemporalInfo>>
    var subResources: map<string, ResourceRef>
    var userPredicate: Option<Predicate>
    /** The calls made on the sub-resources' queries, oldest first. */
    var forwarded: seq<Forward>

    predicate Valid()
      reads this
    {
      PrefixClosed(tree)
    }

    /** The query of a resource: nothing selected yet, and the index built
        from the schema's categories in `order`, the schema map's iteration
        order. */
    constructor (resourceType: string, resourceIds: map<string, Option<string>>,
                 definitionSubResources: map<string, ResourceRef>,
                 allProperties: map<string, set<string>>, keyPropertyIds: map<string, PropertyId>,
                 order: seq<string>)
      requires forall c :: c in allProperties <==> c in order
      ensures Valid()
      ensures this.resourceType == resourceType && this.resourceIds == resourceIds
      ensures this.definitionSubResources == definitionSubResources
      ensures this.allProperties == allProperties && this.keyPropertyIds == keyPropertyIds
      ensures tree == BuildTree(RootOnly, allProperties, order)
      ensures selection == map[] && propertyTemporal == map[] && categoryTemporal == map[]
      ensures subResources == map[] && userPredicate == None && forwarded == []
    {
      this.resourceType := resourceType;
      this.resourceIds := resourceIds;
      this.definitionSubResources := definitionSubResources;
      this.allProperties := allProperties;
      this.keyPropertyIds := keyPropertyIds;
      tree := RootOnly;
      selection := map[];
      propertyTemporal := map[];
      categoryTemporal := map[];
      subResources := map[];
      userPredicate := None;
      forwarded := [];
      new;
      assert forall q, k :: q in tree && 0 <= k <= |q| ==> q == [] && q[..k] == [];
      BuildAllPropertiesTree(order);
      BuildTreeGrows(RootOnly, allProperties, order);
    }

    /** `buildAllPropertiesTree`: each category's properties go to the node
        its name finds, else to the node of its `split("/")` pieces, created
        as needed. */
    method BuildAllPropertiesTree(order: seq<string>)
      requires Valid()
      requires forall i :: 0 <= i < |order| ==> order[i] in allProperties
      modifies this`tree
      ensures Valid()
      ensures tree == BuildTree(old(tree), allProperties, order)
    {
      var k := 0;
      while k < |order|
        invariant 0 <= k <= |order|
        invariant PrefixClosed(tree)
        invariant tree == BuildTree(old(tree), allProperties, order[..k])
      {
        var category := order[k];
        ghost var prev := tree;
        var path := Segments(category);
        if path !in tree {
          path := JavaSplit(category);
          WalkPath(path);
        } else {
          EnsurePathUnchanged(tree, path);
        }
        EnsurePathKeepsClosed(prev, path);
        tree := tree[path := tree[path] + allProperties[category]];
        BuildTreeStep(old(tree), allProperties, order, k);
        k := k + 1;
      }
      assert order[..k] == order;
    }

    /** Down from the root along `path`, a child created wherever one is missing. */
    method WalkPath(path: seq<string>)
      requires [] in tree
      modifies this`tree
      ensures tree == EnsurePath(old(tree), path)
    {
      var j := 0;
      while j < |path|
        invariant 0 <= j <= |path|
        invariant tree == EnsurePath(old(tree), path[..j])
      {
        assert path[..j + 1][..j] == path[..j];
        if path[..j + 1] !in tree {
          tree := tree[path[..j + 1] := {}];
        }
        j := j + 1;
      }
      assert path[..j] == path;
    }

    /** `addCategory(node, category, t)`: the node's properties are added to
        the category's selection set (created when absent), the category gets
        `t`, and each child follows as "category/child". */
    method AddCategoryNode(path: seq<string>, category: string, t: Option<TemporalInfo>)
      requires Valid() && path in tree
      modifies this`selection, this`categoryTemporal
      ensures selection == Merge(old(selection), SubtreeEntries(tree, path, category))
      ensures categoryTemporal == Stamp(old(categoryTemporal), SubtreeEntries(tree, path, category), t)
      decreases Below(tree, path), 1
    {
      var own: set<string> := if category in selection then selection[category] else {};
      selection := selection[category := own + tree[path]];
      categoryTemporal := categoryTemporal[category := t];
      OwnEntryMerges(old(selection), old(categoryTemporal), category, tree[path], t);
      AddChildren(path, category, t);
      SubtreeSplits(tree, path, category);
      MergeTwice(old(selection), {(category, tree[path])}, ChildEntries(tree, path, category, ChildrenOf(tree, path)));
      StampTwice(old(categoryTemporal), {(category, tree[path])}, ChildEntries(tree, path, category, ChildrenOf(tree, path)), t);
    }

    /** The loop of `addCategory(node, category, t)` over the node's children. */
    method AddChildren(path: seq<string>, category: string, t: Option<TemporalInfo>)
      requires Valid() && path in tree
      modifies this`selection, this`categoryTemporal
      ensures selection == Merge(old(selection), ChildEntries(tree, path, category, ChildrenOf(tree, path)))
      ensures categoryTemporal == Stamp(old(categoryTemporal), ChildEntries(tree, path, category, ChildrenOf(tree, path)), t)
      decreases Below(tree, path), 0
    {
      var children := ChildrenOf(tree, path);
      ghost var done: set<seq<string>> := {};
      ghost var all := children;
      assert ChildEntries(tree, path, category, {}) == {};
      MergeNothing(selection);
      while children != {}
        invariant children + done == all
        invariant selection == Merge(old(selection), ChildEntries(tree, path, category, done))
        invariant categoryTemporal == Stamp(old(categoryTemporal), ChildEntries(tree, path, category, done), t)
        decreases children
      {
        var c :| c in children;
        ChildHasFewerBelow(tree, path, c);
        AddCategoryNode(c, category + "/" + c[|path|], t);
        ChildAccumulates(tree, path, category, old(selection), old(categoryTemporal), t, done, c);
        children := children - {c};
        done := done + {c};
      }
    }

    /** `addCategory(category, name, t)`: selects the subtree found under
        "category/name" (or `name` when the category is null); false when the
        index has no such node, and then nothing changes. */
    method AddCategory(category: Option<string>, name: Option<string>, t: Option<TemporalInfo>) returns (found: bool)
      requires Valid()
      requires category.Some? || name.Some?
      modifies this`selection, this`categoryTemporal
      ensures var full := CategoryPath(category, name);
        && found == (Segments(full) in tree)
        && selection == (if found then Merge(old(selection), SubtreeEntries(tree, Segments(full), full)) else old(selection))
        && categoryTemporal ==
             (if found then Stamp(old(categoryTemporal), SubtreeEntries(tree, Segments(full), full), t) else old(categoryTemporal))
    {
      var full := CategoryPath(category, name);
      var path := Segments(full);
      if path !in tree {
        return false;
      }
      AddCategoryNode(path, full, t);
      found := true;
    }

    /** `addAllProperties(t)`: every schema category with all its properties
        (replacing what was selected under that name), `t` for every category
        when given, and every sub-resource not selected yet. */
    method AddAllProperties(t: Option<TemporalInfo>)
      modifies this`selection, this`categoryTemporal, this`subResources
      ensures selection == old(selection) + allProperties
      ensures categoryTemporal ==
        if t.None? then old(categoryTemporal) else old(categoryTemporal) + map c | c in allProperties :: t
      ensures subResources == definitionSubResources + old(subResources)
    {
      if t.None? {
        selection := selection + allProperties;
      } else {
        SelectAllCategories(t);
      }
      AddMissingSubResources();
    }

    /** The loop of `addAllProperties` when temporal information is given. */
    method SelectAllCategories(t: Option<TemporalInfo>)
      modifies this`selection, this`categoryTemporal
      ensures selection == old(selection) + allProperties
      ensures categoryTemporal == old(categoryTemporal) + map c | c in allProperties :: t
    {
      ghost var stamps := map c | c in allProperties :: t;
      var pending := allProperties.Keys;
      ghost var done := {};
      while pending != {}
        invariant pending + done == allProperties.Keys
        invariant selection == old(selection) + Restrict(allProperties, done)
        invariant categoryTemporal == old(categoryTemporal) + Restrict(stamps, done)
        decreases pending
      {
        var path :| path in pending;
        RestrictGrows(old(selection), allProperties, done, path);
        RestrictGrows(old(categoryTemporal), stamps, done, path);
        selection := selection[path := allProperties[path]];
        categoryTemporal := categoryTemporal[path := t];
        pending := pending - {path};
        done := done + {path};
      }
      RestrictAll(allProperties, done);
      RestrictAll(stamps, done);
    }

    /** Every sub-resource of the definition that is not selected yet. */
    method AddMissingSubResources()
      modifies this`subResources
      ensures subResources == definitionSubResources + old(subResources)
    {
      var names := definitionSubResources.Keys;
      while names != {}
        invariant names <= definitionSubResources.Keys
        invariant subResources.Keys == old(subResources).Keys + (definitionSubResources.Keys - names)
        invariant forall n :: n in subResources ==>
          subResources[n] == if n in old(subResources) then old(subResources)[n] else definitionSubResources[n]
        decreases names
      {
        var name :| name in names;
        if name !in subResources {
          subResources := subResources[name := definitionSubResources[name]];
        }
        names := names - {name};
      }
    }

    /** `addPropertyToSubResource`: the first piece of the path (the property,
        when the path is null) names the sub-resource, which is selected; the
        rest is handed to its query when there is a property or more of the
        path. False when no sub-resource has that name. */
    method AddPropertyToSubResource(path: Option<string>, property: Option<string>, t: Option<TemporalInfo>)
      returns (added: bool)
      requires path.Some? || property.Some?
      modifies this`subResources, this`forwarded
        ensures var full, prop := RoutedPath(path, property), RoutedProperty(path, property);
        var head := Head(full);
        && added == (head in definitionSubResources)
        && subResources == (if added then old(subResources)[head := definitionSubResources[head]] else old(subResources))
        && forwarded == (if added && (prop.Some? || full != head) then old(forwarded) + [Forward(head, Rest(full), prop, t)]
                         else old(forwarded))
    {
      var full, prop := RoutedPath(path, property), RoutedProperty(path, property);
      var i := IndexOfSlash(full);
      var head := if i.None? then full else full[..i.value];
      added := false;
      if head in definitionSubResources {
        subResources := subResources[head := definitionSubResources[head]];
        if prop.Some? || full != head {
          forwarded := forwarded + [Forward(head, if i.None? then None else Some(full[i.value + 1..]), prop, t)];
        }
        added := true;
      }
    }

    /** `addProperty(category, property, t)`: the wildcard, a property of a
        schema category, a category of the index, or a sub-resource, in that
        order. `false` stands for the exception thrown when none applies,
        which leaves the query unchanged. */
    method AddProperty(category: Option<string>, property: Option<string>, t: Option<TemporalInfo>) returns (ok: bool)
      requires Valid()
      requires category.Some? || property.Some?
      modifies this`selection, this`categoryTemporal, this`propertyTemporal, this`subResources, this`forwarded
      ensures Valid()
      ensures category.None? && property == Some("*") ==>
        ok && selection == old(selection) + allProperties && subResources == definitionSubResources + old(subResources)
        && categoryTemporal == (if t.None? then old(categoryTemporal) else old(categoryTemporal) + map c | c in allProperties :: t)
        && propertyTemporal == old(propertyTemporal) && forwarded == old(forwarded)
      ensures IsLocal(category, property) ==>
        var c, p := category.value, property.value;
        && ok
        && selection == old(selection)[c := (if c in old(selection) then old(selection)[c] else {}) + {p}]
        && propertyTemporal == (if t.Some? then old(propertyTemporal)[PropertyId(p, Some(c), true) := t.value] else old(propertyTemporal))
        && categoryTemporal == old(categoryTemporal) && subResources == old(subResources) && forwarded == old(forwarded)
      ensures !(category.None? && property == Some("*")) && !IsLocal(category, property) ==>
        var full := CategoryPath(category, property);
        if Segments(full) in tree then
          && ok
          && selection == Merge(old(selection), SubtreeEntries(tree, Segments(full), full))
          && categoryTemporal == Stamp(old(categoryTemporal), SubtreeEntries(tree, Segments(full), full), t)
          && propertyTemporal == old(propertyTemporal) && subResources == old(subResources) && forwarded == old(forwarded)
        else
          var routed, prop := RoutedPath(category, property), RoutedProperty(category, property);
          var head := Head(routed);
          && ok == (head in definitionSubResources)
          && selection == old(selection) && categoryTemporal == old(categoryTemporal) && propertyTemporal == old(propertyTemporal)
          && subResources == (if ok then old(subResources)[head := definitionSubResources[head]] else old(subResources))
          && forwarded == (if ok && (prop.Some? || routed != head) then old(forwarded) + [Forward(head, Rest(routed), prop, t)]
                           else old(forwarded))
      ensures !ok ==>
        && selection == old(selection) && categoryTemporal == old(categoryTemporal)
        && propertyTemporal == old(propertyTemporal) && subResources == old(subResources) && forwarded == old(forwarded)
    {
      ok := true;
      if category.None? && property == Some("*") {
        AddAllProperties(t);
      } else if IsLocal(category, property) {
        var c, p := category.value, property.value;
        var props: set<string> := if c in selection then selection[c] else {};
        selection := selection[c := props + {p}];
        if t.Some? {
          propertyTemporal := propertyTemporal[PropertyId(p, Some(c), true) := t.value];
        }
      } else {
        var found := AddCategory(category, property, t);
        if !found {
          ok := AddPropertyToSubResource(category, property, t);
        }
      }
    }

    /** The schema has the category and the category has the property. */
    predicate IsLocal(category: Option<string>, property: Option<string>)
      reads this
    {
      category.Some? && property.Some? && category.value in allProperties && property.value in allProperties[category.value]
    }

    /** `addProperty(PropertyId)`: the id's category and name, no temporal information. */
    method AddPropertyId(id: PropertyId) returns (ok: bool)
      requires Valid()
      modifies this`selection, this`categoryTemporal, this`propertyTemporal, this`subResources, this`forwarded
      ensures Valid()
      ensures id.category.None? && id.name == "*" ==>
        ok && selection == old(selection) + allProperties && subResources == definitionSubResources + old(subResources)
        && categoryTemporal == old(categoryTemporal) && propertyTemporal == old(propertyTemporal) && forwarded == old(forwarded)
      ensures IsLocal(id.category, Some(id.name)) ==>
        && ok && selection == old(selection)[id.category.value :=
          (if id.category.value in old(selection) then old(selection)[id.category.value] else {}) + {id.name}]
        && propertyTemporal == old(propertyTemporal) && categoryTemporal == old(categoryTemporal)
        && subResources == old(subResources) && forwarded == old(forwarded)
      ensures !(id.category.None? && id.name == "*") && !IsLocal(id.category, Some(id.name)) ==>
        var full := CategoryPath(id.category, Some(id.name));
        if Segments(full) in tree then
          && ok
          && selection == Merge(old(selection), SubtreeEntries(tree, Segments(full), full))
          && categoryTemporal == Stamp(old(categoryTemporal), SubtreeEntries(tree, Segments(full), full), None)
          && propertyTemporal == old(propertyTemporal) && subResources == old(subResources) && forwarded == old(forwarded)
        else
          var routed, prop := RoutedPath(id.category, Some(id.name)), RoutedProperty(id.category, Some(id.name));
          var head := Head(routed);
          && ok == (head in definitionSubResources)
          && selection == old(selection) && categoryTemporal == old(categoryTemporal) && propertyTemporal == old(propertyTemporal)
          && subResources == (if ok then old(subResources)[head := definitionSubResources[head]] else old(subResources))
          && forwarded == (if ok && (prop.Some? || routed != head) then old(forwarded) + [Forward(head, Rest(routed), prop, None)]
                           else old(forwarded))
      ensures !ok ==>
        && selection == old(selection) && categoryTemporal == old(categoryTemporal)
        && propertyTemporal == old(propertyTemporal) && subResources == old(subResources) && forwarded == old(forwarded)
    {
      ok := AddProperty(id.category, Some(id.name), None);
    }

    method SetUserPredicate(p: Option<Predicate>)
      modifies this`userPredicate
      ensures userPredicate == p
    {
      userPredicate := p;
    }

    /** `createInternalPredicate`: an equality on the key property of each
        resource id that has a value, combined. */
    method CreateInternalPredicate() returns (p: Option<Predicate>)
      ensures p == Conjoin(InternalPredicates(resourceIds, keyPropertyIds))
    {
      var preds: set<Predicate> := {};
      var pending := resourceIds.Keys;
      while pending != {}
        invariant pending <= resourceIds.Keys
        invariant preds == set ty | ty in resourceIds && ty !in pending && resourceIds[ty].Some? && ty in keyPropertyIds
                             :: Equals(keyPropertyIds[ty], resourceIds[ty].value)
        decreases pending
      {
        var ty :| ty in pending;
        if resourceIds[ty].Some? && ty in keyPropertyIds {
          preds := preds + {Equals(keyPropertyIds[ty], resourceIds[ty].value)};
        }
        pending := pending - {ty};
      }
      assert preds == InternalPredicates(resourceIds, keyPropertyIds);
      if |preds| == 1 {
        var only :| only in preds;
        SingletonHasOnlyIt(preds, only);
        p := Some(only);
      } else if |preds| > 1 {
        p := Some(And(preds));
      } else {
        p := None;
      }
    }

    /** `createPredicate` */
    method CreatePredicate() returns (p: Option<Predicate>)
      ensures p == CombinePredicates(userPredicate, Conjoin(InternalPredicates(resourceIds, keyPropertyIds)))
    {
      var internal := CreateInternalPredicate();
      p := CombinePredicates(userPredicate, internal);
    }

    /** `createRequest`: one id per selected (category, property) pair, with
        the property-level temporal information attached. */
    method CreateRequest() returns (r: Request)
      ensures r.propertyIds == RequestIds(selection, categoryTemporal, propertyTemporal)
      ensures r.temporalInfo == propertyTemporal
    {
      var ids: set<PropertyId> := {};
      var groups := selection.Keys;
      while groups != {}
        invariant groups <= selection.Keys
        invariant ids == set g, p | g in selection && g !in groups && p in selection[g]
                           :: PropertyId(p, Some(g), HasTemporal(categoryTemporal, propertyTemporal, g, p))
        decreases groups
      {
        var group :| group in groups;
        var props := selection[group];
        ghost var before := ids;
        while props != {}
          invariant props <= selection[group]
          invariant ids == before + set p | p in selection[group] && p !in props
                                      :: PropertyId(p, Some(group), HasTemporal(categoryTemporal, propertyTemporal, group, p))
          decreases props
        {
          var property :| property in props;
          var temporal: Option<TemporalInfo> := if group in categoryTemporal then categoryTemporal[group] else None;
          if temporal.None? {
            temporal := if PropertyId(property, Some(group), true) in propertyTemporal
                        then Some(propertyTemporal[PropertyId(property, Some(group), true)]) else None;
          }
          ids := ids + {PropertyId(property, Some(group), temporal.Some?)};
          props := props - {property};
        }
        groups := groups - {group};
      }
      r := Request(ids, propertyTemporal);
    }

    /** `setParentIdsOnSubResource`: the ids handed to a sub-resource for one
        resource of the result. */
    method SetParentIdsOnSubResource(resource: map<PropertyId, string>, typeKeys: map<string, PropertyId>)
      returns (ids: map<string, string>)
      ensures ids == ParentIds(resourceIds, typeKeys, resource)
    {
      ids := map[];
      var pending := resourceIds.Keys;
      while pending != {}
        invariant pending <= resourceIds.Keys
        invariant ids == map ty | ty in resourceIds && ty !in pending
                                  && ResolvedId(resourceIds[ty], KeyPropertyOf(typeKeys, ty), resource).Some?
                           :: ResolvedId(resourceIds[ty], KeyPropertyOf(typeKeys, ty), resource).value
        decreases pending
      {
        var ty :| ty in pending;
        var value := resourceIds[ty];
        if value.None? {
          value := if ty in typeKeys && typeKeys[ty] in resource then Some(resource[typeKeys[ty]]) else None;
        }
        if value.Some? {
          ids := ids[ty := value.value];
        }
        pending := pending - {ty};
      }
    }
  }
}
