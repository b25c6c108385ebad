/**
 Layer-tree assembly (`assembleLayerTree` in src/utils/feltUtils.js).

 `Tree` is the reference definition of the forest: the first remaining layer
 starts a node; if it is grouped, the node collects every layer of its group
 and the rest of the list is assembled without them. `AssembleLayerTree` is
 the source's single left-to-right pass with a map from group id to node, and
 is proved to compute `Tree`.
 */
module LayerTree {
  import opened Entities

  /** `{type: "layer", layer}` or `{type: "layerGroup", group, layers}`; `group` is `None` for `undefined`. */
  datatype TreeNode = LayerNode(layer: Layer) | GroupNode(group: Option<LayerGroup>, layers: seq<Layer>)

  /** `layerGroups.find((g) => g.id === id)`: the first group with that id, or `None`. */
  function FindGroup(groups: seq<LayerGroup>, id: string): Option<LayerGroup>
  {
    if groups == [] then None
    else if groups[0].id == id then Some(groups[0])
    else FindGroup(groups[1..], id)
  }

  /** The lookup never fails: it yields the first group with the id, and `None` exactly when there is none. */
  lemma {:induction false} FindGroupFirstMatch(groups: seq<LayerGroup>, id: string)
    ensures FindGroup(groups, id).None? <==> forall i :: 0 <= i < |groups| ==> groups[i].id != id
    ensures forall i :: 0 <= i < |groups| && groups[i].id == id && (forall j :: 0 <= j < i ==> groups[j].id != id)
              ==> FindGroup(groups, id) == Some(groups[i])
  {
    if groups != [] && groups[0].id != id {
      FindGroupFirstMatch(groups[1..], id);
      assert forall i :: 1 <= i < |groups| ==> groups[i] == groups[1..][i - 1];
    }
  }

  /** The layers of `ls` carrying group id `g`, in input order. */
  function Members(ls: seq<Layer>, g: string): (r: seq<Layer>)
  {
    if ls == [] then []
    else if InGroup(ls[0], g) then [ls[0]] + Members(ls[1..], g)
    else Members(ls[1..], g)
  }

  /** The layers of `ls` not carrying group id `g`, in input order. */
  function Others(ls: seq<Layer>, g: string): (r: seq<Layer>)
    ensures |r| <= |ls|
  {
    if ls == [] then []
    else if InGroup(ls[0], g) then Others(ls[1..], g)
    else [ls[0]] + Others(ls[1..], g)
  }

  /** The layers of `ls` without a group, in input order. */
  function Ungrouped(ls: seq<Layer>): seq<Layer>
  {
    if ls == [] then []
    else if Grouped(ls[0]) then Ungrouped(ls[1..])
    else [ls[0]] + Ungrouped(ls[1..])
  }

  /** The distinct truthy group ids that occur in `ls`. */
  function Keys(ls: seq<Layer>): set<string>
  {
    if ls == [] then {}
    else (if Grouped(ls[0]) then {GroupKey(ls[0])} else {}) + Keys(ls[1..])
  }

  /** The reference forest for `ls`. */
  function Tree(ls: seq<Layer>, groups: seq<LayerGroup>): (r: seq<TreeNode>)
    ensures |r| <= |ls|
    decreases |ls|
  {
    if ls == [] then []
    else if !Grouped(ls[0]) then [LayerNode(ls[0])] + Tree(ls[1..], groups)
    else
      var g := GroupKey(ls[0]);
      [GroupNode(FindGroup(groups, g), Members(ls, g))] + Tree(Others(ls[1..], g), groups)
  }

  /** `n` is a group node whose layers carry group id `g`. */
  predicate IsGroupNodeFor(n: TreeNode, g: string)
  {
    n.GroupNode? && |n.layers| > 0 && InGroup(n.layers[0], g)
  }

  /** `group.layers.push(layer)` on a group node. */
  function AppendLayer(n: TreeNode, l: Layer): TreeNode
    requires n.GroupNode?
  {
    n.(layers := n.layers + [l])
  }

  /** Every layer of the forest, top-level ones and group members, in forest order. */
  function Flatten(ns: seq<TreeNode>): seq<Layer>
  {
    if ns == [] then []
    else (if ns[0].LayerNode? then [ns[0].layer] else ns[0].layers) + Flatten(ns[1..])
  }

  /** The top-level layer nodes of the forest, in order. */
  function TopLayers(ns: seq<TreeNode>): seq<Layer>
  {
    if ns == [] then []
    else (if ns[0].LayerNode? then [ns[0].layer] else []) + TopLayers(ns[1..])
  }

  // ---------------------------------------------------------------------------
  // Facts about the filters

  lemma {:induction false} MembersSnoc(p: seq<Layer>, l: Layer, g: string)
    ensures Members(p + [l], g) == Members(p, g) + (if InGroup(l, g) then [l] else [])
  {
    if p == [] {
      assert (p + [l])[1..] == [];
    } else {
      assert (p + [l])[1..] == p[1..] + [l];
      MembersSnoc(p[1..], l, g);
    }
  }

  lemma {:induction false} OthersSnoc(p: seq<Layer>, l: Layer, g: string)
    ensures Others(p + [l], g) == Others(p, g) + (if InGroup(l, g) then [] else [l])
  {
    if p == [] {
      assert (p + [l])[1..] == [];
    } else {
      assert (p + [l])[1..] == p[1..] + [l];
      OthersSnoc(p[1..], l, g);
    }
  }

  lemma {:induction false} KeysSnoc(p: seq<Layer>, l: Layer)
    ensures Keys(p + [l]) == Keys(p) + (if Grouped(l) then {GroupKey(l)} else {})
  {
    if p == [] {
      assert (p + [l])[1..] == [];
    } else {
      assert (p + [l])[1..] == p[1..] + [l];
      KeysSnoc(p[1..], l);
    }
  }

  lemma {:induction false} KeysOthers(s: seq<Layer>, g: string)
    ensures Keys(Others(s, g)) == Keys(s) - {g}
  {
    if s != [] {
      KeysOthers(s[1..], g);
      if !InGroup(s[0], g) {
        var o := Others(s, g);
        assert o[0] == s[0] && o[1..] == Others(s[1..], g);
      }
    }
  }

  lemma {:induction false} MembersOthers(s: seq<Layer>, g: string, h: string)
    requires g != h
    ensures Members(Others(s, h), g) == Members(s, g)
  {
    if s != [] {
      MembersOthers(s[1..], g, h);
      if !InGroup(s[0], h) {
        var o := Others(s, h);
        assert o[0] == s[0] && o[1..] == Others(s[1..], h);
      }
    }
  }

  lemma {:induction false} UngroupedOthers(s: seq<Layer>, g: string)
    ensures Ungrouped(Others(s, g)) == Ungrouped(s)
  {
    if s != [] {
      UngroupedOthers(s[1..], g);
      if !InGroup(s[0], g) {
        var o := Others(s, g);
        assert o[0] == s[0] && o[1..] == Others(s[1..], g);
      }
    }
  }

  /** Splitting a list by one group id loses and duplicates nothing. */
  lemma {:induction false} MembersOthersPartition(s: seq<Layer>, g: string)
    ensures multiset(Members(s, g)) + multiset(Others(s, g)) == multiset(s)
  {
    if s != [] {
      MembersOthersPartition(s[1..], g);
      assert s == [s[0]] + s[1..];
      assert multiset(s) == multiset{s[0]} + multiset(s[1..]);
      if InGroup(s[0], g) {
        assert multiset(Members(s, g)) == multiset{s[0]} + multiset(Members(s[1..], g));
        assert Others(s, g) == Others(s[1..], g);
      } else {
        assert Members(s, g) == Members(s[1..], g);
        assert multiset(Others(s, g)) == multiset{s[0]} + multiset(Others(s[1..], g));
      }
    }
  }

  // ---------------------------------------------------------------------------
  // Structure of the reference forest

  /** A group node for `g` exists only when some layer carries `g`. */
  lemma {:induction false} GroupNodeKeyOccurs(ls: seq<Layer>, groups: seq<LayerGroup>, k: nat, g: string)
    requires k < |Tree(ls, groups)| && IsGroupNodeFor(Tree(ls, groups)[k], g)
    ensures g in Keys(ls)
    decreases |ls|
  {
    var t := Tree(ls, groups);
    if !Grouped(ls[0]) {
      assert k > 0;
      assert t[k] == Tree(ls[1..], groups)[k - 1];
      GroupNodeKeyOccurs(ls[1..], groups, k - 1, g);
    } else {
      var h := GroupKey(ls[0]);
      if k > 0 {
        assert t[k] == Tree(Others(ls[1..], h), groups)[k - 1];
        GroupNodeKeyOccurs(Others(ls[1..], h), groups, k - 1, g);
        KeysOthers(ls[1..], h);
      }
    }
  }

  /** The group of the first layer has its node at the front and nowhere else. */
  lemma NoLaterNodeForHead(ls: seq<Layer>, groups: seq<LayerGroup>, m: nat)
    requires ls != [] && Grouped(ls[0]) && 0 < m < |Tree(ls, groups)|
    ensures !IsGroupNodeFor(Tree(ls, groups)[m], GroupKey(ls[0]))
  {
    var h := GroupKey(ls[0]);
    var rest := Tree(Others(ls[1..], h), groups);
    assert Tree(ls, groups)[m] == rest[m - 1];
    if IsGroupNodeFor(rest[m - 1], h) {
      GroupNodeKeyOccurs(Others(ls[1..], h), groups, m - 1, h);
      KeysOthers(ls[1..], h);
      assert false;
    }
  }

  /** Every distinct truthy group id has a group node. */
  lemma {:induction false} GroupNodeExists(ls: seq<Layer>, groups: seq<LayerGroup>, g: string)
    requires g in Keys(ls)
    ensures exists k :: 0 <= k < |Tree(ls, groups)| && IsGroupNodeFor(Tree(ls, groups)[k], g)
    decreases |ls|
  {
    var t := Tree(ls, groups);
    if !Grouped(ls[0]) {
      GroupNodeExists(ls[1..], groups, g);
      var k :| 0 <= k < |Tree(ls[1..], groups)| && IsGroupNodeFor(Tree(ls[1..], groups)[k], g);
      assert t[k + 1] == Tree(ls[1..], groups)[k];
    } else {
      var h := GroupKey(ls[0]);
      if g == h {
        assert InGroup(ls[0], g);
        assert Members(ls, g)[0] == ls[0];
        assert IsGroupNodeFor(t[0], g);
      } else {
        KeysOthers(ls[1..], h);
        GroupNodeExists(Others(ls[1..], h), groups, g);
        var rest := Tree(Others(ls[1..], h), groups);
        var k :| 0 <= k < |rest| && IsGroupNodeFor(rest[k], g);
        assert t[k + 1] == rest[k];
      }
    }
  }

  /** There is at most one group node per group id: none after the first. */
  lemma {:induction false} GroupNodeUnique(ls: seq<Layer>, groups: seq<LayerGroup>, j: nat, k: nat, g: string)
    requires j < k < |Tree(ls, groups)| && IsGroupNodeFor(Tree(ls, groups)[j], g)
    ensures !IsGroupNodeFor(Tree(ls, groups)[k], g)
    decreases |ls|
  {
    var t := Tree(ls, groups);
    if !Grouped(ls[0]) {
      var rest := Tree(ls[1..], groups);
      assert t == [LayerNode(ls[0])] + rest;
      assert t[j] == rest[j - 1] && t[k] == rest[k - 1];
      GroupNodeUnique(ls[1..], groups, j - 1, k - 1, g);
    } else {
      var h := GroupKey(ls[0]);
      var rest := Tree(Others(ls[1..], h), groups);
      assert t == [GroupNode(FindGroup(groups, h), Members(ls, h))] + rest;
      if j == 0 {
        assert Members(ls, h)[0] == ls[0];
        NoLaterNodeForHead(ls, groups, k);
      } else {
        assert t[j] == rest[j - 1] && t[k] == rest[k - 1];
        GroupNodeUnique(Others(ls[1..], h), groups, j - 1, k - 1, g);
      }
    }
  }

  /** A group node holds the group found by id and every layer of that group, in input order. */
  lemma {:induction false} GroupNodeContents(ls: seq<Layer>, groups: seq<LayerGroup>, k: nat, g: string)
    requires k < |Tree(ls, groups)| && IsGroupNodeFor(Tree(ls, groups)[k], g)
    ensures Tree(ls, groups)[k] == GroupNode(FindGroup(groups, g), Members(ls, g))
    decreases |ls|
  {
    var t := Tree(ls, groups);
    if !Grouped(ls[0]) {
      assert t[k] == Tree(ls[1..], groups)[k - 1];
      GroupNodeContents(ls[1..], groups, k - 1, g);
    } else {
      var h := GroupKey(ls[0]);
      if k == 0 {
        assert Members(ls, h)[0] == ls[0];
      } else {
        var rest := Tree(Others(ls[1..], h), groups);
        assert t[k] == rest[k - 1];
        GroupNodeContents(Others(ls[1..], h), groups, k - 1, g);
        GroupNodeKeyOccurs(Others(ls[1..], h), groups, k - 1, g);
        KeysOthers(ls[1..], h);
        MembersOthers(ls[1..], g, h);
      }
    }
  }

  /** Every input layer occurs exactly once in the forest, at top level or in one group node. */
  lemma {:induction false} TreePartition(ls: seq<Layer>, groups: seq<LayerGroup>)
    ensures multiset(Flatten(Tree(ls, groups))) == multiset(ls)
    decreases |ls|
  {
    if ls != [] {
      var t := Tree(ls, groups);
      assert ls == [ls[0]] + ls[1..];
      if !Grouped(ls[0]) {
        assert t[1..] == Tree(ls[1..], groups);
        TreePartition(ls[1..], groups);
      } else {
        var h := GroupKey(ls[0]);
        assert t[1..] == Tree(Others(ls[1..], h), groups);
        TreePartition(Others(ls[1..], h), groups);
        MembersOthersPartition(ls[1..], h);
      }
    }
  }

  /** The top-level layer nodes are exactly the ungrouped layers, in input order. */
  lemma {:induction false} TopLayersAreUngrouped(ls: seq<Layer>, groups: seq<LayerGroup>)
    ensures TopLayers(Tree(ls, groups)) == Ungrouped(ls)
    decreases |ls|
  {
    if ls != [] {
      var t := Tree(ls, groups);
      if !Grouped(ls[0]) {
        assert t[1..] == Tree(ls[1..], groups);
        TopLayersAreUngrouped(ls[1..], groups);
      } else {
        var h := GroupKey(ls[0]);
        assert t[1..] == Tree(Others(ls[1..], h), groups);
        TopLayersAreUngrouped(Others(ls[1..], h), groups);
        UngroupedOthers(ls[1..], h);
      }
    }
  }

  /** One node per ungrouped layer plus one per distinct truthy group id. */
  lemma {:induction false} TreeLength(ls: seq<Layer>, groups: seq<LayerGroup>)
    ensures |Tree(ls, groups)| == |Ungrouped(ls)| + |Keys(ls)| <= |ls|
    decreases |ls|
  {
    if ls != [] {
      if !Grouped(ls[0]) {
        TreeLength(ls[1..], groups);
      } else {
        var h := GroupKey(ls[0]);
        TreeLength(Others(ls[1..], h), groups);
        UngroupedOthers(ls[1..], h);
        KeysOthers(ls[1..], h);
        assert Keys(ls) == Keys(ls[1..]) + {h};
        assert Keys(ls) == (Keys(ls[1..]) - {h}) + {h};
      }
    }
  }

  // ---------------------------------------------------------------------------
  // One more layer at the end of the input: the three cases of the loop body

  /** An ungrouped layer appends a layer node at its position. */
  lemma {:induction false} TreeSnocUngrouped(p: seq<Layer>, l: Layer, groups: seq<LayerGroup>)
    requires !Grouped(l)
    ensures Tree(p + [l], groups) == Tree(p, groups) + [LayerNode(l)]
    decreases |p|
  {
    if p == [] {
      assert (p + [l])[1..] == [];
    } else {
      assert (p + [l])[0] == p[0];
      assert (p + [l])[1..] == p[1..] + [l];
      if !Grouped(p[0]) {
        TreeSnocUngrouped(p[1..], l, groups);
      } else {
        var h := GroupKey(p[0]);
        MembersSnoc(p, l, h);
        OthersSnoc(p[1..], l, h);
        TreeSnocUngrouped(Others(p[1..], h), l, groups);
        var head := GroupNode(FindGroup(groups, h), Members(p, h));
        var q := p + [l];
        assert q[0] == p[0] && Grouped(q[0]) && GroupKey(q[0]) == h;
        assert Members(q, h) == Members(p, h);
        assert Others(q[1..], h) == Others(p[1..], h) + [l];
        assert Tree(q, groups) == [head] + Tree(Others(q[1..], h), groups);
        assert Tree(p + [l], groups) == [head] + (Tree(Others(p[1..], h), groups) + [LayerNode(l)]);
        assert Tree(p, groups) == [head] + Tree(Others(p[1..], h), groups);
      }
    }
  }

  /** The first layer of a group appends one group node holding just that layer. */
  lemma {:induction false} TreeSnocNewGroup(p: seq<Layer>, l: Layer, groups: seq<LayerGroup>)
    requires Grouped(l) && GroupKey(l) !in Keys(p)
    ensures Tree(p + [l], groups) == Tree(p, groups) + [GroupNode(FindGroup(groups, GroupKey(l)), [l])]
    decreases |p|
  {
    var g := GroupKey(l);
    if p == [] {
      assert (p + [l])[1..] == [];
      assert Members([l], g) == [l];
      assert Others([], g) == [];
    } else {
      assert (p + [l])[0] == p[0];
      assert (p + [l])[1..] == p[1..] + [l];
      if !Grouped(p[0]) {
        TreeSnocNewGroup(p[1..], l, groups);
      } else {
        var h := GroupKey(p[0]);
        assert h != g;
        MembersSnoc(p, l, h);
        OthersSnoc(p[1..], l, h);
        KeysOthers(p[1..], h);
        TreeSnocNewGroup(Others(p[1..], h), l, groups);
        var head := GroupNode(FindGroup(groups, h), Members(p, h));
        var node := GroupNode(FindGroup(groups, g), [l]);
        var q := p + [l];
        assert q[0] == p[0] && Grouped(q[0]) && GroupKey(q[0]) == h;
        assert Members(q, h) == Members(p, h);
        assert Others(q[1..], h) == Others(p[1..], h) + [l];
        assert Tree(q, groups) == [head] + Tree(Others(q[1..], h), groups);
        assert Tree(p + [l], groups) == [head] + (Tree(Others(p[1..], h), groups) + [node]);
        assert Tree(p, groups) == [head] + Tree(Others(p[1..], h), groups);
      }
    }
  }

  /** A later layer of an already seen group joins that group's node and adds nothing at top level. */
  lemma {:induction false} TreeSnocSeenGroup(p: seq<Layer>, l: Layer, groups: seq<LayerGroup>, k: nat)
    requires Grouped(l)
    requires k < |Tree(p, groups)| && IsGroupNodeFor(Tree(p, groups)[k], GroupKey(l))
    ensures Tree(p + [l], groups) == Tree(p, groups)[k := AppendLayer(Tree(p, groups)[k], l)]
    decreases |p|
  {
    var g := GroupKey(l);
    var t := Tree(p, groups);
    assert (p + [l])[0] == p[0];
    assert (p + [l])[1..] == p[1..] + [l];
    if !Grouped(p[0]) {
      assert t[k] == Tree(p[1..], groups)[k - 1];
      TreeSnocSeenGroup(p[1..], l, groups, k - 1);
    } else {
      var h := GroupKey(p[0]);
      var rest := Tree(Others(p[1..], h), groups);
      MembersSnoc(p, l, h);
      OthersSnoc(p[1..], l, h);
      if h == g {
        var head' := GroupNode(FindGroup(groups, h), Members(p, h) + [l]);
        var q := p + [l];
        assert q[0] == p[0] && Grouped(q[0]) && GroupKey(q[0]) == h;
        assert Members(q, h) == Members(p, h) + [l];
        assert Others(q[1..], h) == Others(p[1..], h);
        assert Tree(p + [l], groups) == [head'] + rest;
        if k > 0 {
          assert t[k] == rest[k - 1];
          GroupNodeKeyOccurs(Others(p[1..], h), groups, k - 1, g);
          KeysOthers(p[1..], h);
          assert false;
        }
      } else {
        assert k > 0 by {
          assert Members(p, h)[0] == p[0];
        }
        assert t[k] == rest[k - 1];
        TreeSnocSeenGroup(Others(p[1..], h), l, groups, k - 1);
        var head := GroupNode(FindGroup(groups, h), Members(p, h));
        var q := p + [l];
        assert q[0] == p[0] && Grouped(q[0]) && GroupKey(q[0]) == h;
        assert Members(q, h) == Members(p, h);
        assert Others(q[1..], h) == Others(p[1..], h) + [l];
        assert Tree(q, groups) == [head] + rest[k - 1 := AppendLayer(rest[k - 1], l)];
        assert t == [head] + rest;
      }
    }
  }

  /** The group node sits where its first member was; later members join it instead of the top level. */
  lemma OrderExample(a: Layer, b: Layer, c: Layer, d: Layer, g: string, groups: seq<LayerGroup>)
    requires !Grouped(a) && !Grouped(c) && InGroup(b, g) && InGroup(d, g)
    ensures Tree([a, b, c, d], groups) == [LayerNode(a), GroupNode(FindGroup(groups, g), [b, d]), LayerNode(c)]
  {
    assert [a, b, c, d][1..] == [b, c, d];
    assert [b, c, d][1..] == [c, d];
    assert [c, d][1..] == [d];
    assert Members([d], g) == [d] by { assert [d][1..] == []; }
    assert Members([c, d], g) == [d];
    assert Members([b, c, d], g) == [b, d];
    assert Others([c, d], g) == [c];
    assert Tree([c], groups) == [LayerNode(c)];
  }

  // ---------------------------------------------------------------------------
  // The source's algorithm

  /** `groupsById` maps each group id to the position of that group's node in `result`. */
  predicate IndexesGroups(groupsById: map<string, nat>, result: seq<TreeNode>)
  {
    forall g :: g in groupsById ==> groupsById[g] < |result| && IsGroupNodeFor(result[groupsById[g]], g)
  }

  /** The loop invariant after the prefix `p` of the layers. */
  predicate Assembled(p: seq<Layer>, groups: seq<LayerGroup>, groupsById: map<string, nat>, result: seq<TreeNode>)
  {
    result == Tree(p, groups) && groupsById.Keys == Keys(p) && IndexesGroups(groupsById, result)
  }

  lemma StepUngrouped(p: seq<Layer>, l: Layer, groups: seq<LayerGroup>, groupsById: map<string, nat>, result: seq<TreeNode>)
    requires Assembled(p, groups, groupsById, result) && !Grouped(l)
    ensures Assembled(p + [l], groups, groupsById, result + [LayerNode(l)])
  {
    KeysSnoc(p, l);
    TreeSnocUngrouped(p, l, groups);
    var r := result + [LayerNode(l)];
    forall g | g in groupsById ensures groupsById[g] < |r| && IsGroupNodeFor(r[groupsById[g]], g) {
      assert r[groupsById[g]] == result[groupsById[g]];
    }
  }

  lemma StepNewGroup(p: seq<Layer>, l: Layer, groups: seq<LayerGroup>, groupsById: map<string, nat>, result: seq<TreeNode>)
    requires Assembled(p, groups, groupsById, result) && Grouped(l) && GroupKey(l) !in groupsById
    ensures Assembled(p + [l], groups, groupsById[GroupKey(l) := |result|],
                      result + [GroupNode(FindGroup(groups, GroupKey(l)), [l])])
  {
    KeysSnoc(p, l);
    TreeSnocNewGroup(p, l, groups);
    var m := groupsById[GroupKey(l) := |result|];
    var r := result + [GroupNode(FindGroup(groups, GroupKey(l)), [l])];
    forall g | g in m ensures m[g] < |r| && IsGroupNodeFor(r[m[g]], g) {
      if g != GroupKey(l) {
        assert r[m[g]] == result[groupsById[g]];
      }
    }
  }

  lemma StepSeenGroup(p: seq<Layer>, l: Layer, groups: seq<LayerGroup>, groupsById: map<string, nat>, result: seq<TreeNode>)
    requires Assembled(p, groups, groupsById, result) && Grouped(l) && GroupKey(l) in groupsById
    ensures var k := groupsById[GroupKey(l)];
            Assembled(p + [l], groups, groupsById, result[k := AppendLayer(result[k], l)])
  {
    var k := groupsById[GroupKey(l)];
    KeysSnoc(p, l);
    TreeSnocSeenGroup(p, l, groups, k);
    var r := result[k := AppendLayer(result[k], l)];
    forall g | g in groupsById ensures groupsById[g] < |r| && IsGroupNodeFor(r[groupsById[g]], g) {
      if groupsById[g] == k {
        assert r[k].layers[0] == result[k].layers[0];
      } else {
        assert r[groupsById[g]] == result[groupsById[g]];
      }
    }
  }

  /**
   One pass over `layers`: an ungrouped layer is pushed as a layer node; the
   first layer of a group pushes a new group node, remembered in `groupsById`
   by its position in `result`; a later layer of that group is pushed into the
   remembered node's `layers`.
   */
  method AssembleLayerTree(layers: seq<Layer>, layerGroups: seq<LayerGroup>) returns (result: seq<TreeNode>)
    ensures result == Tree(layers, layerGroups)
  {
    var groupsById: map<string, nat> := map[];
    result := [];
    for i := 0 to |layers|
      invariant Assembled(layers[..i], layerGroups, groupsById, result)
    {
      var layer := layers[i];
      assert layers[..i + 1] == layers[..i] + [layer];
      if !Grouped(layer) {
        StepUngrouped(layers[..i], layer, layerGroups, groupsById, result);
        result := result + [LayerNode(layer)];
      } else if GroupKey(layer) !in groupsById {
        StepNewGroup(layers[..i], layer, layerGroups, groupsById, result);
        var node := GroupNode(FindGroup(layerGroups, GroupKey(layer)), [layer]);
        groupsById := groupsById[GroupKey(layer) := |result|];
        result := result + [node];
      } else {
        StepSeenGroup(layers[..i], layer, layerGroups, groupsById, result);
        var k := groupsById[GroupKey(layer)];
        result := result[k := AppendLayer(result[k], layer)];
      }
    }
    assert layers[..|layers|] == layers;
  }
}
