// driver/layers/doc.go, pages.go and controller.go: the tree of keys, the open layer and its pages,
// and the changes that a client or a press makes to them.
module Layers {
  import opened Bits
  import opened Sizes
  import opened Pages

  const MAX_CHILDREN := 20
  const MAX_DEPTH := 4
  const MAX_NODES := 200

  datatype Fields = Fields(icon: nat, status: string, count: int, iconRef: string, iconText: string, iconEmoji: string)

  datatype Node = Node(id: string, fields: Fields, children: seq<Node>)

  type Keys = seq<Option<Node>>

  // ---- Finding nodes ----

  function FindChild(nodes: seq<Node>, id: string): (i: nat)
    ensures i <= |nodes| && (i < |nodes| ==> nodes[i].id == id)
    ensures forall j :: 0 <= j < i ==> nodes[j].id != id
  {
    if nodes == [] || nodes[0].id == id then 0 else 1 + FindChild(nodes[1..], id)
  }

  function FindKey(keys: Keys, id: string): (i: nat)
    ensures i <= |keys| && (i < |keys| ==> keys[i].Some? && keys[i].value.id == id)
    ensures forall j :: 0 <= j < i ==> keys[j].None? || keys[j].value.id != id
  {
    if keys == [] || (keys[0].Some? && keys[0].value.id == id) then 0 else 1 + FindKey(keys[1..], id)
  }

  function NodeIn(n: Node, path: seq<string>): Option<Node>
    decreases |path|
  {
    if path == [] then Some(n)
    else
      var i := FindChild(n.children, path[0]);
      if i < |n.children| then NodeIn(n.children[i], path[1..]) else None
  }

  /** `nodeAt`: the node at a path of ids, from a top-level key down. */
  function NodeAt(keys: Keys, path: seq<string>): Option<Node> {
    if path == [] then None
    else
      var i := FindKey(keys, path[0]);
      if i < |keys| then NodeIn(keys[i].value, path[1..]) else None
  }

  /** The path names a node with children, a layer the pad can show. */
  predicate Alive(keys: Keys, path: seq<string>) {
    NodeAt(keys, path).Some? && NodeAt(keys, path).value.children != []
  }

  lemma {:induction false} NodeInSplit(n: Node, a: seq<string>, b: seq<string>)
    ensures NodeIn(n, a + b) == match NodeIn(n, a) case Some(m) => NodeIn(m, b) case None => None
    decreases |a|
  {
    if a == [] {
      assert a + b == b;
    } else {
      assert (a + b)[1..] == a[1..] + b;
      var i := FindChild(n.children, a[0]);
      if i < |n.children| {
        NodeInSplit(n.children[i], a[1..], b);
      }
    }
  }

  lemma NodeAtSplit(keys: Keys, a: seq<string>, b: seq<string>)
    requires a != []
    ensures NodeAt(keys, a + b) == match NodeAt(keys, a) case Some(m) => NodeIn(m, b) case None => None
  {
    assert (a + b)[1..] == a[1..] + b;
    var i := FindKey(keys, a[0]);
    if i < |keys| {
      NodeInSplit(keys[i].value, a[1..], b);
    }
  }

  /** Every layer above an open one is open too. */
  lemma AliveAbove(keys: Keys, path: seq<string>, m: nat)
    requires 0 < m <= |path| && Alive(keys, path)
    ensures Alive(keys, path[..m])
  {
    assert path == path[..m] + path[m..];
    NodeAtSplit(keys, path[..m], path[m..]);
  }

  // ---- The rules of a document ----

  /** What `validate` asks of one node; the forms of texts and paths are not part of the model. */
  predicate FieldsOk(id: string, f: Fields) {
    && id != "" && f.status in {"", "RUNNING", "DONE", "ERROR", "WARN"} && f.count >= 0
    && (f.iconEmoji != "" ==> f.iconRef == "") && !(f.iconEmoji == "" && f.iconRef != "" && f.iconText != "")
  }

  ghost predicate DistinctIds(nodes: seq<Node>) {
    forall i, j :: 0 <= i < j < |nodes| ==> nodes[i].id != nodes[j].id
  }

  /** All under `n`, a node on level `depth`, keep the rules; the count of nodes is apart. */
  ghost predicate WellFormed(n: Node, depth: nat)
    decreases n
  {
    && |n.children| <= MAX_CHILDREN && (n.children != [] ==> depth < MAX_DEPTH) && DistinctIds(n.children)
    && forall i :: 0 <= i < |n.children| ==>
         FieldsOk(n.children[i].id, n.children[i].fields) && WellFormed(n.children[i], depth + 1)
  }

  function Size(n: Node): nat
    decreases n, 1
  {
    1 + SizeAll(n.children)
  }

  function SizeAll(nodes: seq<Node>): nat
    decreases nodes, 0
  {
    if nodes == [] then 0 else Size(nodes[0]) + SizeAll(nodes[1..])
  }

  function SizeKeys(keys: Keys): nat {
    if keys == [] then 0 else (if keys[0].Some? then Size(keys[0].value) else 0) + SizeKeys(keys[1..])
  }

  lemma {:induction false} SizeAllSplit(a: seq<Node>, b: seq<Node>)
    ensures SizeAll(a + b) == SizeAll(a) + SizeAll(b)
    decreases |a|
  {
    if a == [] {
      assert a + b == b;
    } else {
      assert (a + b)[1..] == a[1..] + b;
      SizeAllSplit(a[1..], b);
    }
  }

  lemma SizeAllNext(nodes: seq<Node>, j: nat)
    requires j < |nodes|
    ensures SizeAll(nodes[..j + 1]) == SizeAll(nodes[..j]) + Size(nodes[j])
    ensures SizeAll(nodes[..j + 1]) <= SizeAll(nodes)
  {
    assert nodes[..j + 1] == nodes[..j] + [nodes[j]] && nodes == nodes[..j + 1] + nodes[j + 1..];
    SizeAllSplit(nodes[..j], [nodes[j]]);
    SizeAllSplit(nodes[..j + 1], nodes[j + 1..]);
    assert SizeAll([nodes[j]]) == Size(nodes[j]) + SizeAll([]);
  }

  lemma {:induction false} SizeKeysSplit(a: Keys, b: Keys)
    ensures SizeKeys(a + b) == SizeKeys(a) + SizeKeys(b)
    decreases |a|
  {
    if a == [] {
      assert a + b == b;
    } else {
      assert (a + b)[1..] == a[1..] + b;
      SizeKeysSplit(a[1..], b);
    }
  }

  lemma SizeKeysNext(keys: Keys, j: nat)
    requires j < |keys|
    ensures SizeKeys(keys[..j + 1]) == SizeKeys(keys[..j]) + if keys[j].Some? then Size(keys[j].value) else 0
    ensures SizeKeys(keys[..j + 1]) <= SizeKeys(keys)
  {
    assert keys[..j + 1] == keys[..j] + [keys[j]] && keys == keys[..j + 1] + keys[j + 1..];
    SizeKeysSplit(keys[..j], [keys[j]]);
    SizeKeysSplit(keys[..j + 1], keys[j + 1..]);
    assert SizeKeys([keys[j]]) == (if keys[j].Some? then Size(keys[j].value) else 0) + SizeKeys([]);
  }

  lemma SizeIs(n: Node)
    ensures Size(n) == 1 + SizeAll(n.children) && SizeAll([]) == 0 && SizeAll(n.children[..0]) == 0
  {
  }

  /** `validateChildren`: checks all under `n`, and counts `n` and them on top of `nodes`. */
  method ValidateChildren(n: Node, depth: nat, nodes: nat) returns (ok: bool, total: nat)
    ensures ok <==> WellFormed(n, depth) && nodes + Size(n) <= MAX_NODES
    ensures ok ==> total == nodes + Size(n)
    decreases n
  {
    hide Size, SizeAll, FieldsOk;
    SizeIs(n);
    total := nodes + 1;
    if total > MAX_NODES {
      return false, total;
    }
    if n.children == [] {
      return true, total;
    }
    if depth >= MAX_DEPTH || |n.children| > MAX_CHILDREN {
      return false, total;
    }
    var seen: set<string> := {};
    for j := 0 to |n.children|
      invariant total == nodes + 1 + SizeAll(n.children[..j]) <= MAX_NODES
      invariant DistinctIds(n.children[..j]) && forall i :: 0 <= i < j ==> n.children[i].id in seen
      invariant forall x :: x in seen ==> exists i :: 0 <= i < j && n.children[i].id == x
      invariant forall i :: 0 <= i < j ==>
                  FieldsOk(n.children[i].id, n.children[i].fields) && WellFormed(n.children[i], depth + 1)
    {
      var c := n.children[j];
      SizeAllNext(n.children, j);
      if !FieldsOk(c.id, c.fields) || c.id in seen {
        return false, total;
      }
      seen := seen + {c.id};
      ok, total := ValidateChildren(c, depth + 1, total);
      if !ok {
        return;
      }
    }
    assert n.children[..|n.children|] == n.children;
    ok := true;
  }

  /** The part of `Validate` that checks the keys and all under them. */
  method ValidateKeys(keys: Keys) returns (ok: bool)
    ensures ok <==> TreeOk(keys)
  {
    if |keys| > KEY_COUNT {
      return false;
    }
    var seen: set<string>, total := {}, 0;
    for j := 0 to |keys|
      invariant total == SizeKeys(keys[..j]) <= MAX_NODES
      invariant forall i, k :: 0 <= i < k < j && keys[i].Some? && keys[k].Some? ==> keys[i].value.id != keys[k].value.id
      invariant forall i :: 0 <= i < j && keys[i].Some? ==> keys[i].value.id in seen
      invariant forall x :: x in seen ==> exists i :: 0 <= i < j && keys[i].Some? && keys[i].value.id == x
      invariant forall i :: 0 <= i < j && keys[i].Some? ==>
                  FieldsOk(keys[i].value.id, keys[i].value.fields) && WellFormed(keys[i].value, 1)
    {
      SizeKeysNext(keys, j);
      if keys[j].Some? {
        var k := keys[j].value;
        if !FieldsOk(k.id, k.fields) || k.id in seen {
          return false;
        }
        seen := seen + {k.id};
        ok, total := ValidateChildren(k, 1, total);
        if !ok {
          return;
        }
      }
    }
    assert keys[..|keys|] == keys;
    ok := true;
  }

  /** The part of `Validate` that checks the open path and its pages. */
  method ValidateNav(keys: Keys, nav: Nav) returns (ok: bool)
    ensures ok <==> NavOk(keys, nav)
  {
    if nav.active == [] {
      return nav.page == 0 && nav.parents == [];
    }
    if |nav.parents| != |nav.active| - 1 {
      return false;
    }
    for d := 1 to |nav.active| + 1
      invariant forall k :: 0 < k < d ==> OnPage(keys, nav.active[..k], PageAt(nav, k))
    {
      if !OnPage(keys, nav.active[..d], PageAt(nav, d)) {
        return false;
      }
    }
    return true;
  }

  ghost predicate TreeOk(keys: Keys) {
    && |keys| <= KEY_COUNT && SizeKeys(keys) <= MAX_NODES
    && (forall i :: 0 <= i < |keys| && keys[i].Some? ==>
          FieldsOk(keys[i].value.id, keys[i].value.fields) && WellFormed(keys[i].value, 1))
    && forall i, j :: 0 <= i < j < |keys| && keys[i].Some? && keys[j].Some? ==> keys[i].value.id != keys[j].value.id
  }

  /** Where the pad is: the open layer, its page, and the page each layer above it showed. */
  datatype Nav = Nav(active: seq<string>, page: int, parents: seq<int>)

  const TOP := Nav([], 0, [])

  /** The page of the layer `depth` levels down the open path. */
  function PageAt(nav: Nav, depth: nat): int
    requires 0 < depth <= |nav.active| && |nav.parents| == |nav.active| - 1
  {
    if depth < |nav.active| then nav.parents[depth - 1] else nav.page
  }

  predicate OnPage(keys: Keys, path: seq<string>, page: int) {
    Alive(keys, path) && 0 <= page < PageCount(|NodeAt(keys, path).value.children|)
  }

  /** The open path ends on a node with children, and every layer on it shows a page it has. */
  ghost predicate NavOk(keys: Keys, nav: Nav) {
    if nav.active == [] then nav == TOP
    else
      && |nav.parents| == |nav.active| - 1
      && forall d :: 0 < d <= |nav.active| ==> OnPage(keys, nav.active[..d], PageAt(nav, d))
  }

  /** How much of the path is left when layers that are gone or empty are closed from the end. */
  function LiveDepth(keys: Keys, path: seq<string>): (m: nat)
    ensures m <= |path|
  {
    if path == [] || Alive(keys, path) then |path| else LiveDepth(keys, path[..|path| - 1])
  }

  /** That is the longest prefix whose node still has children. */
  lemma {:induction false} LiveDepthIsLongest(keys: Keys, path: seq<string>, d: nat)
    requires 0 < d <= |path|
    ensures Alive(keys, path[..d]) <==> d <= LiveDepth(keys, path)
  {
    if Alive(keys, path) {
      AliveAbove(keys, path, d);
    } else {
      var init := path[..|path| - 1];
      if d < |path| {
        assert init[..d] == path[..d];
        LiveDepthIsLongest(keys, init, d);
      } else {
        assert path[..d] == path;
      }
    }
  }

  function Closed(nav: Nav): Nav
    requires nav.active != []
  {
    var n := |nav.parents|;
    var rest := nav.active[..|nav.active| - 1];
    if rest == [] then TOP
    else Nav(rest, if n > 0 then nav.parents[n - 1] else 0, if n > 0 then nav.parents[..n - 1] else [])
  }

  /** The page the layer at `path` shows after a change: the page it showed, kept within the layer. */
  function ClampAt(keys: Keys, path: seq<string>, page: int): int
    requires Alive(keys, path)
  {
    Clamp(page, |NodeAt(keys, path).value.children|)
  }

  /** Every layer that is still open shows the page it showed before, kept within the layer. */
  ghost predicate PagesKept(keys: Keys, before: Nav, after: Nav) {
    && |before.parents| == |before.active| - 1 && |after.parents| == |after.active| - 1
       && |after.active| <= |before.active|
    && forall d :: 0 < d <= |after.active| ==>
         Alive(keys, after.active[..d]) && PageAt(after, d) == ClampAt(keys, after.active[..d], PageAt(before, d))
  }

  class Doc {
    var keys: Keys
    var active: seq<string>
    var page: int
    var parentPages: seq<int>

    constructor (keys: Keys, nav: Nav)
      ensures this.keys == keys && View() == nav
    {
      this.keys, active, page, parentPages := keys, nav.active, nav.page, nav.parents;
    }

    function View(): Nav
      reads this
    {
      Nav(active, page, parentPages)
    }

    ghost predicate Valid()
      reads this
    {
      TreeOk(keys) && NavOk(keys, View())
    }

    /** `up`: closes the open layer and shows the one it was opened from, on the page it showed then. */
    method Up()
      requires active != []
      modifies this`active, this`page, this`parentPages
      ensures View() == Closed(old(View()))
    {
      active := active[..|active| - 1];
      page := 0;
      var n := |parentPages|;
      if n > 0 {
        page := parentPages[n - 1];
        parentPages := parentPages[..n - 1];
      }
      if active == [] {
        active, page, parentPages := [], 0, [];
      }
    }

    /** Closes layers from the end until one still has children. */
    method CloseDead()
      modifies this`active, this`page, this`parentPages
      ensures active == old(active)[..LiveDepth(keys, old(active))]
      ensures active != [] ==> Alive(keys, active)
      ensures active != [] && |old(parentPages)| == |old(active)| - 1 ==>
                parentPages == old(parentPages)[..|active| - 1] && page == PageAt(old(View()), |active|)
    {
      hide NodeAt, Alive;
      while active != []
        invariant |active| <= |old(active)| && active == old(active)[..|active|]
        invariant LiveDepth(keys, active) == LiveDepth(keys, old(active))
        invariant active != [] && |old(parentPages)| == |old(active)| - 1 ==>
                    parentPages == old(parentPages)[..|active| - 1] && page == PageAt(old(View()), |active|)
        decreases |active|
      {
        if Alive(keys, active) {
          break;
        }
        Up();
      }
    }

    /** One page for each layer above the open one. */
    method PadParents()
      requires active != []
      modifies this`parentPages
      ensures |parentPages| == |active| - 1
      ensures |old(parentPages)| >= |active| - 1 ==> parentPages == old(parentPages)[..|active| - 1]
    {
      while |parentPages| < |active| - 1
        invariant |old(parentPages)| >= |active| - 1 ==> parentPages == old(parentPages)
      {
        parentPages := parentPages + [0];
      }
      parentPages := parentPages[..|active| - 1];
    }

    method ClampParents()
      requires |parentPages| == |active| - 1 && forall d :: 0 < d <= |active| ==> Alive(keys, active[..d])
      modifies this`parentPages
      ensures |parentPages| == |active| - 1
      ensures forall j :: 0 <= j < |active| - 1 ==>
                parentPages[j] == ClampAt(keys, active[..j + 1], old(parentPages)[j])
    {
      for i := 0 to |parentPages|
        invariant |parentPages| == |active| - 1
        invariant forall j :: 0 <= j < |active| - 1 ==>
                    parentPages[j] == if j < i then ClampAt(keys, active[..j + 1], old(parentPages)[j])
                        else old(parentPages)[j]
      {
        parentPages := parentPages[i := Clamp(parentPages[i], |NodeAt(keys, active[..i + 1]).value.children|)];
      }
    }

    /** `settle`: whatever was left of the path, the result is a place the pad can show. */
    method Settle()
      modifies this`active, this`page, this`parentPages
      ensures NavOk(keys, View()) && active == old(active)[..LiveDepth(keys, old(active))]
      ensures active != [] && |old(parentPages)| == |old(active)| - 1 ==> PagesKept(keys, old(View()), View())
    {
      hide NodeAt, LiveDepth;
      CloseDead();
      if active == [] {
        active, page, parentPages := [], 0, [];
        return;
      }
      forall d | 0 < d <= |active| ensures Alive(keys, active[..d]) {
        AliveAbove(keys, active, d);
      }
      PadParents();
      ClampParents();
      page := Clamp(page, |NodeAt(keys, active).value.children|);
      assert active[..|active|] == active;
    }
  }

  // ---- Changes to the tree ----

  /** `applyRemove` below `n`: without the child `id` of the node at `path`, or nothing when it is not there. */
  function RemoveIn(n: Node, path: seq<string>, id: string): Option<Node>
    decreases |path|
  {
    if path == [] then
      var i := FindChild(n.children, id);
      if i < |n.children| then Some(n.(children := n.children[..i] + n.children[i + 1..])) else None
    else
      var j := FindChild(n.children, path[0]);
      if j == |n.children| then None
      else
        match RemoveIn(n.children[j], path[1..], id)
        case None => None
        case Some(c) => Some(n.(children := n.children[j := c]))
  }

  /** `applyRemove`: a removal by the path to the parent, empty for a top-level key. */
  function RemoveAt(keys: Keys, path: seq<string>, id: string): Option<Keys> {
    if path == [] then
      var i := FindKey(keys, id);
      if i < |keys| then Some(keys[i := None]) else None
    else
      var i := FindKey(keys, path[0]);
      if i == |keys| then None
      else
        match RemoveIn(keys[i].value, path[1..], id)
        case None => None
        case Some(k) => Some(keys[i := Some(k)])
  }

  lemma SizeAllReplace(nodes: seq<Node>, j: nat, c: Node)
    requires j < |nodes|
    ensures SizeAll(nodes[j := c]) == SizeAll(nodes) - Size(nodes[j]) + Size(c)
    ensures SizeAll(nodes[..j] + nodes[j + 1..]) == SizeAll(nodes) - Size(nodes[j])
  {
    hide Size;
    assert nodes == nodes[..j] + ([nodes[j]] + nodes[j + 1..]) && nodes[j := c] == nodes[..j] + ([c] + nodes[j + 1..]);
    SizeAllSplit(nodes[..j], [nodes[j]] + nodes[j + 1..]);
    SizeAllSplit(nodes[..j], [c] + nodes[j + 1..]);
    SizeAllSplit(nodes[..j], nodes[j + 1..]);
    assert ([nodes[j]] + nodes[j + 1..])[1..] == nodes[j + 1..] && ([c] + nodes[j + 1..])[1..] == nodes[j + 1..];
  }

  lemma SizeKeysReplace(keys: Keys, j: nat, k: Option<Node>)
    requires j < |keys|
    ensures SizeKeys(keys[j := k]) == SizeKeys(keys) - (if keys[j].Some? then Size(keys[j].value) else 0)
                                                     + (if k.Some? then Size(k.value) else 0)
  {
    hide Size;
    assert keys == keys[..j] + ([keys[j]] + keys[j + 1..]) && keys[j := k] == keys[..j] + ([k] + keys[j + 1..]);
    SizeKeysSplit(keys[..j], [keys[j]] + keys[j + 1..]);
    SizeKeysSplit(keys[..j], [k] + keys[j + 1..]);
    assert ([keys[j]] + keys[j + 1..])[1..] == keys[j + 1..] && ([k] + keys[j + 1..])[1..] == keys[j + 1..];
  }

  lemma WithoutKeepsIds(nodes: seq<Node>, i: nat)
    requires i < |nodes| && DistinctIds(nodes)
    ensures DistinctIds(nodes[..i] + nodes[i + 1..])
  {
  }

  /** A removal keeps the rules below `n`, and makes the tree no larger. */
  lemma {:induction false} RemoveInKeepsRules(n: Node, path: seq<string>, id: string, depth: nat)
    requires WellFormed(n, depth) && RemoveIn(n, path, id).Some?
    ensures var m := RemoveIn(n, path, id).value;
            WellFormed(m, depth) && m.id == n.id && m.fields == n.fields && Size(m) < Size(n)
    decreases |path|
  {
    hide FieldsOk, Size, SizeAll;
    var m := RemoveIn(n, path, id).value;
    SizeIs(n);
    SizeIs(m);
    if path == [] {
      var i := FindChild(n.children, id);
      WithoutKeepsIds(n.children, i);
      SizeAllReplace(n.children, i, n.children[i]);
      SizePositive(n.children[i]);
    } else {
      var j := FindChild(n.children, path[0]);
      RemoveInKeepsRules(n.children[j], path[1..], id, depth + 1);
      SizeAllReplace(n.children, j, m.children[j]);
    }
  }

  lemma SizePositive(n: Node)
    ensures Size(n) > 0
  {
  }

  /** Every removal leaves a tree that passes `Validate`. */
  lemma RemoveKeepsRules(keys: Keys, path: seq<string>, id: string)
    requires TreeOk(keys) && RemoveAt(keys, path, id).Some?
    ensures TreeOk(RemoveAt(keys, path, id).value) && |RemoveAt(keys, path, id).value| == |keys|
  {
    hide FieldsOk, WellFormed, Size;
    if path == [] {
      SizeKeysReplace(keys, FindKey(keys, id), None);
    } else {
      var i := FindKey(keys, path[0]);
      var k := RemoveIn(keys[i].value, path[1..], id).value;
      RemoveInKeepsRules(keys[i].value, path[1..], id, 1);
      SizeKeysReplace(keys, i, Some(k));
    }
  }

  /** `applyUpdate` below `n`: the child keeps its place and its own children, or comes last. */
  function UpdateIn(n: Node, path: seq<string>, id: string, f: Fields): Option<Node>
    decreases |path|
  {
    if path == [] then
      var i := FindChild(n.children, id);
      Some(n.(children := if i < |n.children| then n.children[i := Node(id, f, n.children[i].children)]
                          else n.children + [Node(id, f, [])]))
    else
      var j := FindChild(n.children, path[0]);
      if j == |n.children| then None
      else
        match UpdateIn(n.children[j], path[1..], id, f)
        case None => None
        case Some(c) => Some(n.(children := n.children[j := c]))
  }

  /** The slot a top-level update takes: the one it names if free, its own, or the first free one. */
  function TargetSlot(keys: Keys, id: string, slot: Option<int>): Option<nat> {
    var cur := FindKey(keys, id);
    if slot.Some? then
      if 0 <= slot.value < |keys| && (keys[slot.value].None? || keys[slot.value].value.id == id) then Some(slot.value)
          else None
    else if cur < |keys| then Some(cur)
    else if FreeSlot(keys) < |keys| then Some(FreeSlot(keys)) else None
  }

  function FreeSlot(keys: Keys): (i: nat)
    ensures i <= |keys| && (i < |keys| ==> keys[i].None?) && forall j :: 0 <= j < i ==> keys[j].Some?
  {
    if keys == [] || keys[0].None? then 0 else 1 + FreeSlot(keys[1..])
  }

  /** `applyUpdate`: an upsert of one key or child with its full values, or nothing when it cannot apply. */
  function UpdateAt(keys: Keys, path: seq<string>, id: string, slot: Option<int>, f: Fields): Option<Keys> {
    if id == "" || (path != [] && slot.Some?) then None
    else if path != [] then
      var i := FindKey(keys, path[0]);
      if i == |keys| then None
      else
        match UpdateIn(keys[i].value, path[1..], id, f)
        case None => None
        case Some(k) => Some(keys[i := Some(k)])
    else
      match TargetSlot(keys, id, slot)
      case None => None
      case Some(t) =>
        var cur := FindKey(keys, id);
        var children := if cur < |keys| then keys[cur].value.children else [];
        Some((if cur < |keys| then keys[cur := None] else keys)[t := Some(Node(id, f, children))])
  }

  lemma {:induction false} UpdateInIsSeen(n: Node, path: seq<string>, id: string, f: Fields)
    requires UpdateIn(n, path, id, f).Some?
    ensures var m := UpdateIn(n, path, id, f).value;
            && m.id == n.id && NodeIn(m, path + [id]).Some?
            && NodeIn(m, path + [id]).value ==
                 Node(id, f, match NodeIn(n, path + [id]) case Some(c) => c.children case None => [])
    decreases |path|
  {
    var m := UpdateIn(n, path, id, f).value;
    if path == [] {
      var i := FindChild(n.children, id);
      FindsAt(m.children, i);
      assert (path + [id])[1..] == [];
    } else {
      assert (path + [id])[1..] == path[1..] + [id];
      var j := FindChild(n.children, path[0]);
      UpdateInIsSeen(n.children[j], path[1..], id, f);
      FindsAt(m.children, j);
    }
  }

  /** The first node with an id is where the search stops. */
  lemma FindsAt(nodes: seq<Node>, i: nat)
    requires i < |nodes| && forall j :: 0 <= j < i ==> nodes[j].id != nodes[i].id
    ensures FindChild(nodes, nodes[i].id) == i
  {
  }

  lemma FindsKeyAt(keys: Keys, i: nat)
    requires i < |keys| && keys[i].Some? && forall j :: 0 <= j < i ==>
               keys[j].None? || keys[j].value.id != keys[i].value.id
    ensures FindKey(keys, keys[i].value.id) == i
  {
  }

  /** After an update, the path of the node leads to its new values and its old children. */
  lemma UpdateIsSeen(keys: Keys, path: seq<string>, id: string, slot: Option<int>, f: Fields)
    requires TreeOk(keys) && UpdateAt(keys, path, id, slot, f).Some?
    ensures NodeAt(UpdateAt(keys, path, id, slot, f).value, path + [id])
         == Some(Node(id, f, match NodeAt(keys, path + [id]) case Some(c) => c.children case None => []))
  {
    hide FieldsOk, WellFormed, SizeKeys;
    var after := UpdateAt(keys, path, id, slot, f).value;
    if path == [] {
      var t, cur := TargetSlot(keys, id, slot).value, FindKey(keys, id);
      assert forall j :: 0 <= j < |keys| && keys[j].Some? && keys[j].value.id == id ==> j == cur;
      FindsKeyAt(after, t);
      assert (path + [id])[1..] == [] && (path + [id])[0] == id;
    } else {
      assert (path + [id])[1..] == path[1..] + [id];
      var i := FindKey(keys, path[0]);
      UpdateInIsSeen(keys[i].value, path[1..], id, f);
      FindsKeyAt(after, i);
    }
  }

  /** What keeps a new child out: its node is full, or as deep as nodes go. */
  predicate HasPlace(parent: Node, depth: nat) {
    |parent.children| < MAX_CHILDREN && depth < MAX_DEPTH
  }

  lemma {:induction false} UpdateInRules(n: Node, path: seq<string>, id: string, f: Fields, depth: nat)
    requires WellFormed(n, depth) && UpdateIn(n, path, id, f).Some?
    ensures NodeIn(n, path).Some?
    ensures var m, known := UpdateIn(n, path, id, f).value, NodeIn(n, path + [id]).Some?;
            && m.id == n.id && m.fields == n.fields && Size(m) == Size(n) + (if known then 0 else 1)
            && (WellFormed(m, depth) <==> FieldsOk(id, f) && (known || HasPlace(NodeIn(n, path).value, depth + |path|)))
    decreases |path|
  {
    hide FieldsOk, Size, SizeAll;
    var c, m := n.children, UpdateIn(n, path, id, f).value;
    SizeIs(n);
    SizeIs(m);
    if path == [] {
      UpdateHereRules(n, id, f, depth);
      assert (path + [id])[1..] == [];
    } else {
      assert (path + [id])[1..] == path[1..] + [id];
      var j := FindChild(c, path[0]);
      UpdateInRules(c[j], path[1..], id, f, depth + 1);
      SizeAllReplace(c, j, m.children[j]);
      assert WellFormed(m, depth) <==> WellFormed(m.children[j], depth + 1);
    }
  }

  lemma UpdateHereRules(n: Node, id: string, f: Fields, depth: nat)
    requires WellFormed(n, depth)
    ensures var m, known := UpdateIn(n, [], id, f).value, FindChild(n.children, id) < |n.children|;
            && Size(m) == Size(n) + (if known then 0 else 1)
            && (WellFormed(m, depth) <==> FieldsOk(id, f) && (known || HasPlace(n, depth)))
  {
    hide FieldsOk, Size, SizeAll;
    var c, i := n.children, FindChild(n.children, id);
    var m := UpdateIn(n, [], id, f).value;
    SizeIs(n);
    SizeIs(m);
    SizeIs(m.children[i]);
    if i < |c| {
      SizeIs(c[i]);
      SizeAllReplace(c, i, m.children[i]);
      assert WellFormed(m.children[i], depth + 1);
    } else {
      SizeAllSplit(c, [m.children[i]]);
      SizeAllOne(m.children[i]);
      assert m.children[i] == Node(id, f, []);
      assert WellFormed(m.children[i], depth + 1);
    }
  }

  lemma SizeAllOne(n: Node)
    ensures SizeAll([n]) == Size(n)
  {
    assert [n][1..] == [];
  }

  /** A valid tree takes an update exactly when the values are in order and the node is there already, or
      there is room for one more: below its node, and in the 200 nodes of the whole tree. */
  lemma UpdateRules(keys: Keys, path: seq<string>, id: string, slot: Option<int>, f: Fields)
    requires TreeOk(keys) && UpdateAt(keys, path, id, slot, f).Some?
    ensures path != [] ==> NodeAt(keys, path).Some?
    ensures var next, known := UpdateAt(keys, path, id, slot, f).value, NodeAt(keys, path + [id]).Some?;
            && SizeKeys(next) == SizeKeys(keys) + (if known then 0 else 1)
            && (TreeOk(next) <==>
                  FieldsOk(id, f) && (known || (SizeKeys(keys) < MAX_NODES
                                                && (path == [] || HasPlace(NodeAt(keys, path).value, |path|)))))
  {
    hide FieldsOk, Size, WellFormed;
    if path == [] {
      UpdateKeyRules(keys, id, slot, f);
    } else {
      assert (path + [id])[1..] == path[1..] + [id];
      var i := FindKey(keys, path[0]);
      var m := UpdateIn(keys[i].value, path[1..], id, f).value;
      UpdateInRules(keys[i].value, path[1..], id, f, 1);
      SizeKeysReplace(keys, i, Some(m));
      ReplacedKey(keys, i, m);
    }
  }

  /** A key that is replaced by one of the same id and values keeps the rules when it does itself. */
  lemma ReplacedKey(keys: Keys, i: nat, m: Node)
    requires TreeOk(keys) && i < |keys| && keys[i].Some? && m.id == keys[i].value.id && m.fields == keys[i].value.fields
    ensures TreeOk(keys[i := Some(m)]) <==> WellFormed(m, 1) && SizeKeys(keys[i := Some(m)]) <= MAX_NODES
  {
    hide FieldsOk, Size, WellFormed, SizeKeys;
    var next := keys[i := Some(m)];
    assert next[i] == Some(m);
  }

  lemma UpdateKeySize(keys: Keys, id: string, slot: Option<int>, f: Fields)
    requires UpdateAt(keys, [], id, slot, f).Some? && TreeOk(keys)
    ensures var next := UpdateAt(keys, [], id, slot, f).value;
            SizeKeys(next) == SizeKeys(keys) + if FindKey(keys, id) < |keys| then 0 else 1
  {
    hide FieldsOk, Size, SizeKeys, WellFormed;
    var t, cur := TargetSlot(keys, id, slot).value, FindKey(keys, id);
    var next := UpdateAt(keys, [], id, slot, f).value;
    var emptied := if cur < |keys| then keys[cur := None] else keys;
    assert keys[t].Some? && keys[t].value.id == id ==> t == cur;
    if cur < |keys| {
      SizeKeysReplace(keys, cur, None);
      SizeIs(keys[cur].value);
    }
    SizeKeysReplace(emptied, t, next[t]);
    SizeIs(next[t].value);
  }

  lemma UpdateKeyRules(keys: Keys, id: string, slot: Option<int>, f: Fields)
    requires TreeOk(keys) && UpdateAt(keys, [], id, slot, f).Some?
    ensures var next, known := UpdateAt(keys, [], id, slot, f).value, FindKey(keys, id) < |keys|;
            && (known <==> NodeAt(keys, [id]).Some?)
            && SizeKeys(next) == SizeKeys(keys) + (if known then 0 else 1)
            && (TreeOk(next) <==> FieldsOk(id, f) && (known || SizeKeys(keys) < MAX_NODES))
  {
    hide FieldsOk, Size, SizeKeys;
    UpdateKeySize(keys, id, slot, f);
    var t, cur := TargetSlot(keys, id, slot).value, FindKey(keys, id);
    var next := UpdateAt(keys, [], id, slot, f).value;
    assert next[t] == Some(Node(id, f, if cur < |keys| then keys[cur].value.children else []));
    assert WellFormed(next[t].value, 1);
    forall j | 0 <= j < |next| && j != t && next[j].Some?
      ensures next[j] == keys[j] && next[j].value.id != id
    {
      assert j != cur;
    }
  }

  // ---- What a change leaves alone ----

  /** The path leads neither to the changed node or below it, nor to a node above it. */
  predicate Apart(p: seq<string>, path: seq<string>, id: string) {
    !(p <= path) && !(path + [id] <= p)
  }

  lemma ApartBelow(p: seq<string>, path: seq<string>, id: string)
    requires Apart(p, path, id)
    ensures p != [] && (path == [] ==> p[0] != id)
    ensures path != [] && p[0] == path[0] ==> Apart(p[1..], path[1..], id)
  {
  }

  /** Two lists in which a search for `id` ends at the same node, or at none. */
  predicate SameSearch(a: seq<Node>, b: seq<Node>, id: string) {
    var i, j := FindChild(a, id), FindChild(b, id);
    (i < |a| <==> j < |b|) && (i < |a| && j < |b| ==> a[i] == b[j])
  }

  /** Nodes of other ids do not stop a search. */
  lemma SearchGoesOn(a: seq<Node>, x: seq<Node>, y: seq<Node>, rest: seq<Node>, id: string)
    requires (forall i :: 0 <= i < |x| ==> x[i].id != id) && forall i :: 0 <= i < |y| ==> y[i].id != id
    ensures SameSearch(a + x + rest, a + y + rest, id)
  {
    FindPast(a, x, rest, id);
    FindPast(a, y, rest, id);
  }

  lemma SameKeySearch(a: Keys, b: Keys, id: string)
    requires |a| == |b|
    requires forall i :: 0 <= i < |a| ==> ((a[i].Some? && a[i].value.id == id) <==> (b[i].Some? && b[i].value.id == id))
    ensures FindKey(a, id) == FindKey(b, id)
  {
  }

  lemma {:induction false} FindPast(a: seq<Node>, mid: seq<Node>, rest: seq<Node>, id: string)
    requires forall i :: 0 <= i < |mid| ==> mid[i].id != id
    ensures FindChild(a + mid + rest, id) == if FindChild(a, id) < |a| then FindChild(a, id)
            else |a| + |mid| + FindChild(rest, id)
  {
    if a != [] {
      assert (a + mid + rest)[1..] == a[1..] + mid + rest;
      FindPast(a[1..], mid, rest, id);
    } else if mid != [] {
      assert (a + mid + rest)[1..] == a + mid[1..] + rest;
      FindPast(a, mid[1..], rest, id);
    } else {
      assert a + mid + rest == rest;
    }
  }

  lemma SameSearchSameNode(n: Node, m: Node, p: seq<string>)
    requires p != [] && SameSearch(m.children, n.children, p[0])
    ensures NodeIn(m, p) == NodeIn(n, p)
  {
  }

  /** A child that is replaced by one of the same id does not matter to the paths through the others. */
  lemma ReplacedHere(n: Node, j: nat, x: Node, p: seq<string>)
    requires j < |n.children| && x.id == n.children[j].id && p != [] && p[0] != x.id
    ensures NodeIn(n.(children := n.children[j := x]), p) == NodeIn(n, p)
  {
    hide NodeIn, SameSearch;
    var c, m := n.children, n.(children := n.children[j := x]);
    assert c == c[..j] + [c[j]] + c[j + 1..] && m.children == c[..j] + [x] + c[j + 1..];
    SearchGoesOn(c[..j], [x], [c[j]], c[j + 1..], p[0]);
    SameSearchSameNode(n, m, p);
  }

  /** The update of a child of this very node. */
  lemma UpdateHere(n: Node, id: string, f: Fields, p: seq<string>)
    requires p != [] && p[0] != id
    ensures NodeIn(UpdateIn(n, [], id, f).value, p) == NodeIn(n, p)
  {
    hide NodeIn, SameSearch;
    var c, i := n.children, FindChild(n.children, id);
    if i < |c| {
      ReplacedHere(n, i, Node(id, f, c[i].children), p);
    } else {
      var x := Node(id, f, []);
      assert c + [x] + [] == c + [x] && c + [] + [] == c;
      SearchGoesOn(c, [x], [], [], p[0]);
      SameSearchSameNode(n, n.(children := c + [x]), p);
    }
  }

  lemma {:induction false} UpdateInElsewhere(n: Node, path: seq<string>, id: string, f: Fields, p: seq<string>)
    requires UpdateIn(n, path, id, f).Some? && Apart(p, path, id)
    ensures NodeIn(UpdateIn(n, path, id, f).value, p) == NodeIn(n, p)
    decreases |path|
  {
    hide Apart;
    ApartBelow(p, path, id);
    if path == [] {
      UpdateHere(n, id, f, p);
      return;
    }
    var j := FindChild(n.children, path[0]);
    UpdateInIsSeen(n.children[j], path[1..], id, f);
    var x := UpdateIn(n.children[j], path[1..], id, f).value;
    if p[0] == path[0] {
      UpdateInElsewhere(n.children[j], path[1..], id, f, p[1..]);
      FindsAt(n.children[j := x], j);
    } else {
      ReplacedHere(n, j, x, p);
    }
  }

  lemma SameKeyNode(a: Keys, b: Keys, p: seq<string>)
    requires p != [] && |a| == |b| && FindKey(a, p[0]) == FindKey(b, p[0])
    requires FindKey(a, p[0]) < |a| ==> a[FindKey(a, p[0])] == b[FindKey(a, p[0])]
    ensures NodeAt(a, p) == NodeAt(b, p)
  {
  }

  /** An update changes no node but the one named and those above it. */
  lemma UpdateElsewhere(keys: Keys, path: seq<string>, id: string, slot: Option<int>, f: Fields, p: seq<string>)
    requires UpdateAt(keys, path, id, slot, f).Some? && Apart(p, path, id)
    ensures NodeAt(UpdateAt(keys, path, id, slot, f).value, p) == NodeAt(keys, p)
  {
    hide NodeIn, UpdateIn, Apart;
    ApartBelow(p, path, id);
    var after := UpdateAt(keys, path, id, slot, f).value;
    if path != [] {
      var i := FindKey(keys, path[0]);
      UpdateInIsSeen(keys[i].value, path[1..], id, f);
      if p[0] == path[0] {
        UpdateInElsewhere(keys[i].value, path[1..], id, f, p[1..]);
        FindsKeyAt(after, i);
        return;
      }
    }
    SameKeySearch(after, keys, p[0]);
    SameKeyNode(after, keys, p);
  }

  lemma {:induction false} UpdateInGrows(n: Node, path: seq<string>, id: string, f: Fields, p: seq<string>)
    requires UpdateIn(n, path, id, f).Some? && NodeIn(n, p).Some?
    ensures var m := UpdateIn(n, path, id, f).value;
            NodeIn(m, p).Some? && |NodeIn(m, p).value.children| >= |NodeIn(n, p).value.children|
    decreases |path|
  {
    if p == [] {
      return;
    }
    var j := FindChild(n.children, p[0]);
    var m := UpdateIn(n, path, id, f).value;
    if path == [] {
      if p[0] == id {
        FindsAt(m.children, j);
      } else {
        UpdateHere(n, id, f, p);
      }
      return;
    }
    var i := FindChild(n.children, path[0]);
    UpdateInIsSeen(n.children[i], path[1..], id, f);
    if p[0] == path[0] {
      UpdateInGrows(n.children[i], path[1..], id, f, p[1..]);
      FindsAt(m.children, i);
    } else {
      ReplacedHere(n, i, m.children[i], p);
    }
  }

  /** An update takes no layer away and makes none smaller. */
  lemma UpdateGrows(keys: Keys, path: seq<string>, id: string, slot: Option<int>, f: Fields, p: seq<string>)
    requires TreeOk(keys) && UpdateAt(keys, path, id, slot, f).Some? && NodeAt(keys, p).Some?
    ensures var after := UpdateAt(keys, path, id, slot, f).value;
            NodeAt(after, p).Some? && |NodeAt(after, p).value.children| >= |NodeAt(keys, p).value.children|
  {
    hide UpdateIn, FieldsOk, WellFormed, SizeKeys;
    var after := UpdateAt(keys, path, id, slot, f).value;
    if path == [] && p[0] == id {
      UpdateIsSeen(keys, path, id, slot, f);
      assert [id][1..] == [] && path + [id] == [id];
      FindsKeyAt(after, FindKey(after, id));
      var i, k := FindKey(after, id), FindKey(keys, id);
      assert NodeAt(after, [id]) == Some(after[i].value) && NodeAt(keys, [id]) == Some(keys[k].value);
    } else if path != [] && p[0] == path[0] {
      var i := FindKey(keys, path[0]);
      UpdateInIsSeen(keys[i].value, path[1..], id, f);
      UpdateInGrows(keys[i].value, path[1..], id, f, p[1..]);
      FindsKeyAt(after, i);
    } else {
      if path != [] {
        UpdateInIsSeen(keys[FindKey(keys, path[0])].value, path[1..], id, f);
      }
      SameKeySearch(after, keys, p[0]);
    }
  }

  /** An update leaves the pad where it is. */
  lemma UpdateKeepsNav(keys: Keys, path: seq<string>, id: string, slot: Option<int>, f: Fields, nav: Nav)
    requires TreeOk(keys) && NavOk(keys, nav) && UpdateAt(keys, path, id, slot, f).Some?
    ensures NavOk(UpdateAt(keys, path, id, slot, f).value, nav)
  {
    hide TreeOk, UpdateAt, NodeAt;
    var after := UpdateAt(keys, path, id, slot, f).value;
    if nav.active != [] {
      forall d | 0 < d <= |nav.active|
        ensures OnPage(after, nav.active[..d], PageAt(nav, d))
      {
        var p := nav.active[..d];
        assert OnPage(keys, p, PageAt(nav, d));
        UpdateGrows(keys, path, id, slot, f, p);
        PageCountIsLeast(|NodeAt(keys, p).value.children|, PageCount(|NodeAt(after, p).value.children|));
      }
    }
  }

  lemma {:induction false} RemoveInElsewhere(n: Node, path: seq<string>, id: string, p: seq<string>)
    requires RemoveIn(n, path, id).Some? && Apart(p, path, id)
    ensures NodeIn(RemoveIn(n, path, id).value, p) == NodeIn(n, p)
    decreases |path|
  {
    hide Apart;
    ApartBelow(p, path, id);
    if path == [] {
      var c, i := n.children, FindChild(n.children, id);
      var m := RemoveIn(n, path, id).value;
      assert c == c[..i] + [c[i]] + c[i + 1..] && m.children == c[..i] + [] + c[i + 1..];
      SearchGoesOn(c[..i], [], [c[i]], c[i + 1..], p[0]);
      SameSearchSameNode(n, m, p);
      return;
    }
    var j := FindChild(n.children, path[0]);
    RemoveInKeepsId(n.children[j], path[1..], id);
    var x := RemoveIn(n.children[j], path[1..], id).value;
    if p[0] == path[0] {
      RemoveInElsewhere(n.children[j], path[1..], id, p[1..]);
      FindsAt(n.children[j := x], j);
    } else {
      ReplacedHere(n, j, x, p);
    }
  }

  lemma RemoveInKeepsId(n: Node, path: seq<string>, id: string)
    requires RemoveIn(n, path, id).Some?
    ensures RemoveIn(n, path, id).value.id == n.id
  {
  }

  /** A removal changes no node but those above it. */
  lemma RemoveElsewhere(keys: Keys, path: seq<string>, id: string, p: seq<string>)
    requires RemoveAt(keys, path, id).Some? && Apart(p, path, id)
    ensures NodeAt(RemoveAt(keys, path, id).value, p) == NodeAt(keys, p)
  {
    ApartBelow(p, path, id);
    var after := RemoveAt(keys, path, id).value;
    if path != [] {
      var i := FindKey(keys, path[0]);
      RemoveInKeepsId(keys[i].value, path[1..], id);
      if p[0] == path[0] {
        RemoveInElsewhere(keys[i].value, path[1..], id, p[1..]);
        FindsKeyAt(after, i);
        return;
      }
    }
    SameKeySearch(after, keys, p[0]);
  }

  lemma {:induction false} RemoveInIsGone(n: Node, path: seq<string>, id: string, depth: nat)
    requires RemoveIn(n, path, id).Some? && WellFormed(n, depth)
    ensures NodeIn(RemoveIn(n, path, id).value, path + [id]) == None
    decreases |path|
  {
    var c, m := n.children, RemoveIn(n, path, id).value.children;
    if path == [] {
      var i := FindChild(c, id);
      assert forall j :: 0 <= j < |m| ==> m[j] == c[if j < i then j else j + 1];
    } else {
      assert (path + [id])[1..] == path[1..] + [id];
      var j := FindChild(c, path[0]);
      RemoveInKeepsId(c[j], path[1..], id);
      FindsAt(m, j);
      RemoveInIsGone(c[j], path[1..], id, depth + 1);
    }
  }

  /** After a removal from a valid tree, nothing is at the path of what was removed. */
  lemma RemoveIsGone(keys: Keys, path: seq<string>, id: string)
    requires TreeOk(keys) && RemoveAt(keys, path, id).Some?
    ensures NodeAt(RemoveAt(keys, path, id).value, path + [id]) == None
  {
    var after := RemoveAt(keys, path, id).value;
    if path == [] {
      assert FindKey(after, id) == |after|;
    } else {
      assert (path + [id])[1..] == path[1..] + [id];
      var i := FindKey(keys, path[0]);
      RemoveInKeepsId(keys[i].value, path[1..], id);
      FindsKeyAt(after, i);
      RemoveInIsGone(keys[i].value, path[1..], id, 1);
    }
  }

  // ---- The keys that a change of the top layer touches ----

  predicate Holds(keys: Keys, j: int, id: string) {
    0 <= j < |keys| && keys[j].Some? && keys[j].value.id == id
  }

  predicate Open(keys: Keys, j: int, id: string) {
    0 <= j < |keys| && (keys[j].None? || keys[j].value.id == id)
  }

  /** Where a top-level update goes: to the key it names, else to the key it has, else to the lowest free one. */
  ghost predicate Goes(keys: Keys, id: string, slot: Option<int>, t: int) {
    if slot.Some? then t == slot.value
    else
      || Holds(keys, t, id)
      || ((forall j :: !Holds(keys, j, id)) && forall k :: 0 <= k < t && k < |keys| ==> keys[k].Some?)
  }

  lemma TargetIs(keys: Keys, id: string, slot: Option<int>)
    requires TreeOk(keys)
    ensures TargetSlot(keys, id, slot).Some? <==> exists t :: Open(keys, t, id) && Goes(keys, id, slot, t)
    ensures forall t :: Open(keys, t, id) && Goes(keys, id, slot, t) ==> TargetSlot(keys, id, slot) == Some(t)
  {
    hide WellFormed, FieldsOk, SizeKeys;
    var cur, free := FindKey(keys, id), FreeSlot(keys);
    assert cur < |keys| ==> Holds(keys, cur, id);
    assert Open(keys, free, id) || free == |keys|;
    if TargetSlot(keys, id, slot).Some? {
      var t := TargetSlot(keys, id, slot).value;
      assert Open(keys, t, id) && Goes(keys, id, slot, t);
    }
  }

  lemma UpdateAtTarget(keys: Keys, id: string, slot: Option<int>, f: Fields, t: nat)
    requires TreeOk(keys) && id != "" && TargetSlot(keys, id, slot) == Some(t) && t < |keys|
    ensures var after := UpdateAt(keys, [], id, slot, f);
            && after.Some? && |after.value| == |keys| && Holds(after.value, t, id)
            && forall j :: 0 <= j < |keys| && j != t ==>
                 after.value[j] == if Holds(keys, j, id) then None else keys[j]
  {
    hide WellFormed, FieldsOk, SizeKeys, TargetSlot;
  }

  /** A top-level update takes the key it goes to when that one is free or its own, and leaves the other nodes. */
  lemma UpdateTakesKey(keys: Keys, id: string, slot: Option<int>, f: Fields)
    requires TreeOk(keys) && id != ""
    ensures var after := UpdateAt(keys, [], id, slot, f);
            && (after.Some? <==> exists t :: Open(keys, t, id) && Goes(keys, id, slot, t))
            && forall t :: Open(keys, t, id) && Goes(keys, id, slot, t) ==>
                 && |after.value| == |keys| && Holds(after.value, t, id)
                 && forall j :: 0 <= j < |keys| && j != t ==>
                      after.value[j] == if Holds(keys, j, id) then None else keys[j]
  {
    hide TreeOk, TargetSlot, UpdateAt, Goes, Open;
    TargetIs(keys, id, slot);
    forall t | Open(keys, t, id) && Goes(keys, id, slot, t)
      ensures var after := UpdateAt(keys, [], id, slot, f);
              && after.Some? && |after.value| == |keys| && Holds(after.value, t, id)
              && forall j :: 0 <= j < |keys| && j != t ==>
                   after.value[j] == if Holds(keys, j, id) then None else keys[j]
    {
      OpenIsKey(keys, t, id);
      UpdateAtTarget(keys, id, slot, f, t);
    }
    if TargetSlot(keys, id, slot).None? {
      NoTarget(keys, id, slot, f);
    }
  }

  lemma OpenIsKey(keys: Keys, t: int, id: string)
    requires Open(keys, t, id)
    ensures 0 <= t < |keys|
  {
  }

  lemma NoTarget(keys: Keys, id: string, slot: Option<int>, f: Fields)
    requires TargetSlot(keys, id, slot).None?
    ensures UpdateAt(keys, [], id, slot, f).None?
  {
  }

  /** A top-level removal empties the key that shows the node, and no other. */
  lemma RemoveEmptiesKey(keys: Keys, id: string)
    requires TreeOk(keys)
    ensures var after := RemoveAt(keys, [], id);
            && (after.Some? <==> exists j :: Holds(keys, j, id))
            && (after.Some? ==> |after.value| == |keys|
                                && forall j :: 0 <= j < |keys| ==>
                                     after.value[j] == if Holds(keys, j, id) then None else keys[j])
  {
    hide WellFormed, FieldsOk, SizeKeys;
    var i := FindKey(keys, id);
    assert i < |keys| ==> Holds(keys, i, id);
  }

  // ---- Presses ----

  /** Where a press on `key` leads; nothing when it changes nothing. */
  function Press(keys: Keys, nav: Nav, key: nat): Option<Nav> {
    if key >= KEY_COUNT then None
    else if nav.active == [] then
      if key < |keys| && keys[key].Some? && keys[key].value.children != [] then Some(Nav([keys[key].value.id], 0, []))
          else None
    else if NodeAt(keys, nav.active).None? || nav.page < 0 then None
    else
      var children := NodeAt(keys, nav.active).value.children;
      match RoleOf(|children|, nav.page, key)
      case Child(c) =>
        if c >= |children| || children[c].children == [] then None
        else Some(Nav(nav.active + [children[c].id], 0, nav.parents + [nav.page]))
      case Up => Some(Closed(nav))
      case Left => Some(nav.(page := nav.page - 1))
      case Right => Some(nav.(page := nav.page + 1))
      case Blank => None
  }

  lemma NodeAtChild(keys: Keys, path: seq<string>, c: nat)
    requires TreeOk(keys) && path != [] && NodeAt(keys, path).Some? && c < |NodeAt(keys, path).value.children|
    ensures var n := NodeAt(keys, path).value;
            DistinctIds(n.children) && NodeAt(keys, path + [n.children[c].id]) == Some(n.children[c])
  {
    var n := NodeAt(keys, path).value;
    NodeAtIsWellFormed(keys, path);
    NodeAtSplit(keys, path, [n.children[c].id]);
    FindsAt(n.children, c);
    assert [n.children[c].id][1..] == [];
  }

  lemma {:induction false} NodeInIsWellFormed(n: Node, path: seq<string>, depth: nat)
    requires WellFormed(n, depth) && NodeIn(n, path).Some?
    ensures WellFormed(NodeIn(n, path).value, depth + |path|)
    decreases |path|
  {
    if path != [] {
      NodeInIsWellFormed(n.children[FindChild(n.children, path[0])], path[1..], depth + 1);
    }
  }

  lemma NodeAtIsWellFormed(keys: Keys, path: seq<string>)
    requires TreeOk(keys) && path != [] && NodeAt(keys, path).Some?
    ensures WellFormed(NodeAt(keys, path).value, |path|)
  {
    NodeInIsWellFormed(keys[FindKey(keys, path[0])].value, path[1..], 1);
  }

  lemma TopKeyFound(keys: Keys, key: nat)
    requires TreeOk(keys) && key < |keys| && keys[key].Some?
    ensures NodeAt(keys, [keys[key].value.id]) == keys[key]
  {
  }

  /** Every press leads from a place the pad can show to another. */
  lemma PressKeepsNav(keys: Keys, nav: Nav, key: nat)
    requires TreeOk(keys) && NavOk(keys, nav) && Press(keys, nav, key).Some?
    ensures NavOk(keys, Press(keys, nav, key).value)
  {
    hide TreeOk, WellFormed, RoleOf, PageCount, NodeAt;
    var next := Press(keys, nav, key).value;
    if nav.active == [] {
      TopKeyFound(keys, key);
      assert next.active[..1] == next.active;
      FirstPage(|keys[key].value.children|);
    } else {
      assert nav.active[..|nav.active|] == nav.active;
      assert OnPage(keys, nav.active, nav.page);
      var children := NodeAt(keys, nav.active).value.children;
      RolesLead(|children|, nav.page, key);
      match RoleOf(|children|, nav.page, key)
      case Child(c) =>
        NodeAtChild(keys, nav.active, c);
        FirstPage(|children[c].children|);
        forall d | 0 < d <= |next.active| ensures OnPage(keys, next.active[..d], PageAt(next, d)) {
          if d <= |nav.active| {
            assert next.active[..d] == nav.active[..d];
            assert OnPage(keys, nav.active[..d], PageAt(nav, d));
          } else {
            assert next.active[..d] == next.active;
          }
        }
      case Up =>
        if next != TOP {
          forall d | 0 < d <= |next.active| ensures OnPage(keys, next.active[..d], PageAt(next, d)) {
            assert next.active[..d] == nav.active[..d];
            assert OnPage(keys, nav.active[..d], PageAt(nav, d));
          }
        }
      case Left => SamePath(keys, nav, next);
      case Right => SamePath(keys, nav, next);
      case Blank =>
    }
  }

  /** The key shows the node `id`: a key of the top layer, or a child of the open layer. */
  predicate KeyShows(keys: Keys, nav: Nav, key: nat, id: string) {
    if nav.active == [] then key < |keys| && keys[key].Some? && keys[key].value.id == id
    else
      NodeAt(keys, nav.active).Some?
      && var children := NodeAt(keys, nav.active).value.children;
         exists c :: 0 <= c < |children| && children[c].id == id && HomeOf(|children|, c) == (nav.page, key)
  }

  /** The key shows a node with children, and `next` is that layer on its first page. */
  ghost predicate Opens(keys: Keys, nav: Nav, key: nat, next: Nav) {
    && next.active != [] && next.active[..|next.active| - 1] == nav.active && next.page == 0
    && next.parents == (if nav.active == [] then [] else nav.parents + [nav.page])
    && KeyShows(keys, nav, key, next.active[|next.active| - 1]) && Alive(keys, next.active)
  }

  /** An arrow: key 5 turns to the page after, key 3 to the page before. */
  ghost predicate Turns(keys: Keys, nav: Nav, key: nat, next: Nav) {
    && nav.active != [] && next == nav.(page := next.page) && OnPage(keys, next.active, next.page)
    && ((key == 5 && next.page == nav.page + 1) || (key == 3 && next.page == nav.page - 1))
  }

  /** Key 3 on a first page: the layer above, on the page it showed. */
  ghost predicate GoesUp(nav: Nav, key: nat, next: Nav) {
    && nav.active != [] && key == 3 && nav.page == 0
    && (if |nav.active| == 1 then next == TOP
        else next.active == nav.active[..|nav.active| - 1] && next.parents + [next.page] == nav.parents)
  }

  /** A press opens, turns or goes up exactly as the key shows, and changes nothing otherwise. */
  ghost predicate Leads(keys: Keys, nav: Nav, key: nat, next: Nav) {
    Opens(keys, nav, key, next) || Turns(keys, nav, key, next) || GoesUp(nav, key, next)
  }

  lemma PressIff(keys: Keys, nav: Nav, key: nat, next: Nav)
    requires TreeOk(keys) && NavOk(keys, nav)
    ensures Press(keys, nav, key) == Some(next) <==> Leads(keys, nav, key, next)
  {
    hide TreeOk, NodeAt, RoleOf, PageCount, HomeOf;
    if nav.active == [] {
      PressOnTop(keys, key, next);
    } else {
      assert nav.active[..|nav.active|] == nav.active;
      assert OnPage(keys, nav.active, PageAt(nav, |nav.active|));
      PressInLayer(keys, nav, key, next);
    }
  }

  lemma PressLeads(keys: Keys, nav: Nav, key: nat)
    requires TreeOk(keys) && NavOk(keys, nav)
    ensures forall next :: Press(keys, nav, key) == Some(next) <==> Leads(keys, nav, key, next)
  {
    hide TreeOk, Press, Leads, NavOk;
    forall next ensures Press(keys, nav, key) == Some(next) <==> Leads(keys, nav, key, next) {
      PressIff(keys, nav, key, next);
    }
  }

  lemma PressOnTop(keys: Keys, key: nat, next: Nav)
    requires TreeOk(keys)
    ensures Press(keys, TOP, key) == Some(next) <==> Leads(keys, TOP, key, next)
  {
    hide NodeAt;
    if key < |keys| && keys[key].Some? {
      TopKeyFound(keys, key);
      var id := keys[key].value.id;
      if Leads(keys, TOP, key, next) {
        assert next.active == next.active[..0] + [id];
      }
      assert [id][..0] == [];
    }
  }

  lemma PressInLayer(keys: Keys, nav: Nav, key: nat, next: Nav)
    requires TreeOk(keys) && nav.active != [] && |nav.parents| == |nav.active| - 1
             && OnPage(keys, nav.active, nav.page)
    ensures Press(keys, nav, key) == Some(next) <==> Leads(keys, nav, key, next)
  {
    hide TreeOk, NodeAt, PageCount, HomeOf, RoleOf;
    var children := NodeAt(keys, nav.active).value.children;
    if key >= KEY_COUNT {
      NoKey(keys, nav, key, next);
      return;
    }
    RolesAre(|children|, nav.page, key);
    UpIff(nav, key, next);
    match RoleOf(|children|, nav.page, key)
    case Child(c) => ChildPressed(keys, nav, key, c, next);
    case _ => NotOpened(keys, nav, key, next);
  }

  /** Each role, by what it is for. */
  lemma RolesAre(n: nat, page: nat, key: nat)
    requires page < PageCount(n) && key < KEY_COUNT
    ensures RoleOf(n, page, key) == Left <==> key == 3 && page > 0
    ensures RoleOf(n, page, key) == Up <==> key == 3 && page == 0
    ensures RoleOf(n, page, key) == Right <==> key == 5 && page + 1 < PageCount(n)
    ensures forall c :: 0 <= c < n ==> (RoleOf(n, page, key) == Child(c) <==> HomeOf(n, c) == (page, key))
    ensures RoleOf(n, page, key).Child? ==> RoleOf(n, page, key).child < n
  {
    forall c | 0 <= c < n ensures RoleOf(n, page, key) == Child(c) <==> HomeOf(n, c) == (page, key) {
      ChildHasOneHome(n, c, page, key);
    }
  }

  lemma NoKey(keys: Keys, nav: Nav, key: nat, next: Nav)
    requires nav.active != [] && NodeAt(keys, nav.active).Some? && key >= KEY_COUNT
    ensures !Leads(keys, nav, key, next)
  {
    hide NodeAt;
  }

  lemma UpIff(nav: Nav, key: nat, next: Nav)
    requires nav.active != [] && |nav.parents| == |nav.active| - 1
    ensures GoesUp(nav, key, next) <==> key == 3 && nav.page == 0 && next == Closed(nav)
  {
    if GoesUp(nav, key, next) && |nav.active| > 1 {
      assert next.parents == (next.parents + [next.page])[..|nav.parents| - 1];
    }
  }

  lemma ChildPressed(keys: Keys, nav: Nav, key: nat, c: nat, next: Nav)
    requires TreeOk(keys) && nav.active != [] && OnPage(keys, nav.active, nav.page) && key < KEY_COUNT
    requires var children := NodeAt(keys, nav.active).value.children;
             c < |children| && RoleOf(|children|, nav.page, key) == Child(c)
    ensures Press(keys, nav, key) == Some(next) <==> Leads(keys, nav, key, next)
  {
    hide TreeOk, NodeAt, PageCount, HomeOf, RoleOf;
    var children := NodeAt(keys, nav.active).value.children;
    RolesAre(|children|, nav.page, key);
    NodeAtChild(keys, nav.active, c);
    if Opens(keys, nav, key, next) {
      assert next.active == nav.active + [children[c].id];
    }
    if Press(keys, nav, key) == Some(next) {
      assert next.active[..|next.active| - 1] == nav.active;
    }
  }

  lemma NotOpened(keys: Keys, nav: Nav, key: nat, next: Nav)
    requires nav.active != [] && |nav.parents| == |nav.active| - 1 && OnPage(keys, nav.active, nav.page)
    requires key < KEY_COUNT && !RoleOf(|NodeAt(keys, nav.active).value.children|, nav.page, key).Child?
    ensures Press(keys, nav, key) == Some(next) <==> Leads(keys, nav, key, next)
  {
    hide NodeAt, PageCount, HomeOf, RoleOf;
    RolesAre(|NodeAt(keys, nav.active).value.children|, nav.page, key);
    UpIff(nav, key, next);
  }

  // ---- The places that presses reach ----

  /** Where some presses lead, one after the other. */
  function After(keys: Keys, nav: Nav, presses: seq<nat>): Nav {
    if presses == [] then nav
    else
      var n := After(keys, nav, presses[..|presses| - 1]);
      match Press(keys, n, presses[|presses| - 1]) case Some(next) => next case None => n
  }

  /** The layer `d` levels down shows, on the page kept for it, the key that opens the next layer. */
  ghost predicate ShowsNext(keys: Keys, nav: Nav, d: nat)
    requires 0 < d < |nav.active| && |nav.parents| == |nav.active| - 1
  {
    exists key: nat :: KeyShows(keys, Nav(nav.active[..d], PageAt(nav, d), []), key, nav.active[d])
  }

  ghost predicate Threaded(keys: Keys, nav: Nav) {
    nav.active != [] ==>
      |nav.parents| == |nav.active| - 1 && forall d :: 0 < d < |nav.active| ==> ShowsNext(keys, nav, d)
  }

  /** Two places with the same path and pages down to a layer agree on what it shows. */
  lemma SameUpTo(keys: Keys, a: Nav, b: Nav, d: nat)
    requires 0 < d < |a.active| && d < |b.active| && |a.parents| == |a.active| - 1 && |b.parents| == |b.active| - 1
    requires a.active[..d + 1] == b.active[..d + 1] && PageAt(a, d) == PageAt(b, d) && ShowsNext(keys, a, d)
    ensures ShowsNext(keys, b, d)
  {
    hide KeyShows;
    assert a.active[..d] == a.active[..d + 1][..d] && b.active[..d] == b.active[..d + 1][..d];
    assert a.active[d] == a.active[..d + 1][d] && b.active[d] == b.active[..d + 1][d];
    var key: nat :| KeyShows(keys, Nav(a.active[..d], PageAt(a, d), []), key, a.active[d]);
    assert KeyShows(keys, Nav(b.active[..d], PageAt(b, d), []), key, b.active[d]);
  }

  lemma {:induction false} PressesKeep(keys: Keys, presses: seq<nat>)
    requires TreeOk(keys)
    ensures NavOk(keys, After(keys, TOP, presses)) && Threaded(keys, After(keys, TOP, presses))
    decreases |presses|
  {
    hide TreeOk, NodeAt, Press, KeyShows;
    if presses != [] {
      var n := After(keys, TOP, presses[..|presses| - 1]);
      PressesKeep(keys, presses[..|presses| - 1]);
      var key := presses[|presses| - 1];
      if Press(keys, n, key).Some? {
        PressKeepsNav(keys, n, key);
        PressIff(keys, n, key, Press(keys, n, key).value);
        LeadsKeepsThread(keys, n, key, Press(keys, n, key).value);
      }
    }
  }

  lemma LeadsKeepsThread(keys: Keys, nav: Nav, key: nat, next: Nav)
    requires NavOk(keys, nav) && NavOk(keys, next) && Threaded(keys, nav) && Leads(keys, nav, key, next)
    ensures Threaded(keys, next)
  {
    hide NodeAt, KeyShows, Alive, OnPage, ShowsNext;
    forall d | 0 < d < |next.active| ensures ShowsNext(keys, next, d) {
      if d < |nav.active| {
        assert next.active[..d + 1] == nav.active[..d + 1];
        SameUpTo(keys, nav, next, d);
      } else {
        OpenedShows(keys, nav, key, next);
      }
    }
  }

  lemma OpenedShows(keys: Keys, nav: Nav, key: nat, next: Nav)
    requires NavOk(keys, next) && nav.active != [] && |nav.active| == |next.active| - 1 && Opens(keys, nav, key, next)
    ensures ShowsNext(keys, next, |nav.active|)
  {
    hide NodeAt, KeyShows, Alive, OnPage;
    SamePlaceShows(keys, nav, key, next.active[|nav.active|]);
    assert next.active[..|nav.active|] == nav.active && PageAt(next, |nav.active|) == nav.page;
  }

  lemma SamePlaceShows(keys: Keys, nav: Nav, key: nat, id: string)
    requires KeyShows(keys, nav, key, id)
    ensures KeyShows(keys, Nav(nav.active, nav.page, []), key, id)
  {
    hide NodeAt, HomeOf;
    if nav.active != [] {
      var children := NodeAt(keys, nav.active).value.children;
      var c :| 0 <= c < |children| && children[c].id == id && HomeOf(|children|, c) == (nav.page, key);
    }
  }

  /** The place from which the last press leads to `nav`, and that press. */
  lemma StepBack(keys: Keys, nav: Nav) returns (before: Nav, key: nat)
    requires TreeOk(keys) && NavOk(keys, nav) && nav != TOP && Threaded(keys, nav)
    ensures NavOk(keys, before) && Threaded(keys, before) && Press(keys, before, key) == Some(nav)
    ensures |before.active| < |nav.active| || (before.active == nav.active && 0 <= before.page < nav.page)
  {
    hide TreeOk, NodeAt, Press, KeyShows, Alive;
    assert nav.active[..|nav.active|] == nav.active;
    assert OnPage(keys, nav.active, PageAt(nav, |nav.active|));
    if nav.page > 0 {
      before, key := nav.(page := nav.page - 1), 5;
      SamePath(keys, nav, before);
      forall d | 0 < d < |before.active| ensures ShowsNext(keys, before, d) {
        SameUpTo(keys, nav, before, d);
      }
      PressIff(keys, before, key, nav);
    } else if |nav.active| == 1 {
      before := TOP;
      assert nav.active == [nav.active[0]] && nav.active[..0] == [];
      key := KeyOfTop(keys, nav);
      PressIff(keys, before, key, nav);
    } else {
      before := Closed(nav);
      ClosedIsPlace(keys, nav);
      var d := |nav.active| - 1;
      assert ShowsNext(keys, nav, d);
      key :| KeyShows(keys, Nav(nav.active[..d], PageAt(nav, d), []), key, nav.active[d]);
      SamePlaceShown(keys, before, key, nav.active[d]);
      assert nav.parents == nav.parents[..|nav.parents| - 1] + [nav.parents[|nav.parents| - 1]];
      PressIff(keys, before, key, nav);
    }
  }

  lemma SamePlaceShown(keys: Keys, nav: Nav, key: nat, id: string)
    requires KeyShows(keys, Nav(nav.active, nav.page, []), key, id)
    ensures KeyShows(keys, nav, key, id)
  {
    hide NodeAt, HomeOf;
    if nav.active != [] {
      var children := NodeAt(keys, nav.active).value.children;
      var c :| 0 <= c < |children| && children[c].id == id && HomeOf(|children|, c) == (nav.page, key);
    }
  }

  lemma KeyOfTop(keys: Keys, nav: Nav) returns (key: nat)
    requires |nav.active| == 1 && Alive(keys, nav.active)
    ensures KeyShows(keys, TOP, key, nav.active[0])
  {
    key := FindKey(keys, nav.active[0]);
  }

  /** Going up from a place that the pad can show ends on another one. */
  lemma ClosedIsPlace(keys: Keys, nav: Nav)
    requires NavOk(keys, nav) && |nav.active| > 1 && Threaded(keys, nav)
    ensures NavOk(keys, Closed(nav)) && Threaded(keys, Closed(nav))
    ensures Closed(nav) == Nav(nav.active[..|nav.active| - 1], nav.parents[|nav.parents| - 1],
                               nav.parents[..|nav.parents| - 1])
  {
    hide NodeAt, KeyShows, OnPage, ShowsNext;
    var up := Closed(nav);
    forall d | 0 < d <= |up.active| ensures OnPage(keys, up.active[..d], PageAt(up, d)) {
      assert up.active[..d] == nav.active[..d] && PageAt(up, d) == PageAt(nav, d);
    }
    forall d | 0 < d < |up.active| ensures ShowsNext(keys, up, d) {
      assert up.active[..d + 1] == nav.active[..d + 1] && PageAt(up, d) == PageAt(nav, d);
      SameUpTo(keys, nav, up, d);
    }
  }

  lemma {:induction false} Reach(keys: Keys, nav: Nav) returns (presses: seq<nat>)
    requires TreeOk(keys) && NavOk(keys, nav) && Threaded(keys, nav)
    ensures After(keys, TOP, presses) == nav
    decreases |nav.active|, nav.page
  {
    hide TreeOk, NodeAt, Press, Threaded;
    if nav == TOP {
      presses := [];
    } else {
      assert nav.active != [] && nav.page >= 0 by {
        NavPage(keys, nav);
      }
      var before, key := StepBack(keys, nav);
      var rest := Reach(keys, before);
      presses := rest + [key];
      assert presses[..|presses| - 1] == rest;
    }
  }

  lemma NavPage(keys: Keys, nav: Nav)
    requires NavOk(keys, nav) && nav != TOP
    ensures nav.active != [] && nav.page >= 0
  {
    assert OnPage(keys, nav.active[..|nav.active|], PageAt(nav, |nav.active|));
  }

  /** Presses reach from the top exactly the places the pad can show whose layers above show the way to them. */
  lemma ReachedIff(keys: Keys, nav: Nav)
    requires TreeOk(keys)
    ensures (exists presses :: After(keys, TOP, presses) == nav) <==> NavOk(keys, nav) && Threaded(keys, nav)
  {
    hide TreeOk, NavOk, Threaded, After;
    if exists presses :: After(keys, TOP, presses) == nav {
      var presses :| After(keys, TOP, presses) == nav;
      PressesKeep(keys, presses);
    }
    if NavOk(keys, nav) && Threaded(keys, nav) {
      var presses := Reach(keys, nav);
    }
  }

  lemma FirstPage(n: nat)
    ensures PageCount(n) > 0
  {
  }

  lemma SamePath(keys: Keys, nav: Nav, next: Nav)
    requires NavOk(keys, nav) && nav.active != [] && next == nav.(page := next.page)
             && OnPage(keys, nav.active, next.page)
    ensures NavOk(keys, next)
  {
    assert nav.active[..|nav.active|] == nav.active;
    forall d | 0 < d <= |next.active| ensures OnPage(keys, next.active[..d], PageAt(next, d)) {
      assert OnPage(keys, nav.active[..d], PageAt(nav, d));
    }
  }

  /** Opening a layer and going up comes back to the same layer, page and parent pages. */
  lemma OpenThenUp(keys: Keys, nav: Nav, key: nat)
    requires TreeOk(keys) && NavOk(keys, nav) && Press(keys, nav, key).Some?
    requires |Press(keys, nav, key).value.active| == |nav.active| + 1
    ensures Press(keys, Press(keys, nav, key).value, UP_KEY) == Some(nav)
  {
    var next := Press(keys, nav, key).value;
    PressKeepsNav(keys, nav, key);
    assert next.active[..|next.active|] == next.active;
    assert OnPage(keys, next.active, next.page);
    assert next.active[..|next.active| - 1] == nav.active;
    if nav.active != [] {
      assert next.parents[..|next.parents| - 1] == nav.parents;
    }
  }

  /** The right arrow and then the left arrow come back to the same page, and so do left and right. */
  lemma RightThenLeft(keys: Keys, nav: Nav)
    requires TreeOk(keys) && NavOk(keys, nav) && nav.active != []
    ensures Press(keys, nav, RIGHT_KEY) == Some(nav.(page := nav.page + 1)) ==>
              Press(keys, nav.(page := nav.page + 1), LEFT_KEY) == Some(nav)
    ensures Press(keys, nav, LEFT_KEY) == Some(nav.(page := nav.page - 1)) ==>
              Press(keys, nav.(page := nav.page - 1), RIGHT_KEY) == Some(nav)
  {
    assert nav.active[..|nav.active|] == nav.active;
    assert OnPage(keys, nav.active, PageAt(nav, |nav.active|));
  }

  // ---- The controller ----

  /** One change that a client or a press asks for. */
  datatype Change =
    | Update(path: seq<string>, id: string, slot: Option<int>, fields: Fields)
    | Remove(path: seq<string>, id: string)
    | PressOn(key: nat)

  datatype Result = Done | Unchanged | Refused

  class Controller {
    var doc: Doc

    ghost predicate Valid()
      reads this, doc
    {
      doc.Valid() && |doc.keys| == KEY_COUNT
    }

    constructor ()
      ensures Valid() && fresh(doc)
    {
      doc := new Doc(seq(KEY_COUNT, _ => None), TOP);
      new;
      SizeOfNone(doc.keys);
    }

    /** `mutate`: settles a changed copy, and swaps it in when it passes the rules. */
    method Commit(next: Doc) returns (r: Result)
      requires |next.keys| == KEY_COUNT
      modifies this, next
      ensures r == Done || r == Refused
      ensures r == Refused ==> doc == old(doc)
      ensures r == Done ==> doc == next && next.Valid()
      ensures next.keys == old(next.keys)
      ensures TreeOk(next.keys) <==> r == Done
      ensures next.active == old(next.active)[..LiveDepth(next.keys, old(next.active))]
      ensures next.active != [] && |old(next.parentPages)| == |old(next.active)| - 1 ==>
                PagesKept(next.keys, old(next.View()), next.View())
    {
      next.Settle();
      var ok := ValidateKeys(next.keys);
      if !ok {
        return Refused;
      }
      ok := ValidateNav(next.keys, next.View());
      doc := next;
      r := Done;
    }

    /** Any change leaves a valid document, and one that is not Done leaves it as it was. */
    method Apply(c: Change) returns (r: Result)
      requires Valid()
      modifies this
      ensures Valid() && (r != Done ==> doc == old(doc)) && (doc == old(doc) || fresh(doc))
      ensures c.Remove? ==> r == if RemoveAt(old(doc.keys), c.path, c.id).Some? then Done else Unchanged
      ensures c.Remove? && r == Done ==>
                && doc.keys == RemoveAt(old(doc.keys), c.path, c.id).value
                && doc.active == old(doc.active)[..LiveDepth(doc.keys, old(doc.active))]
                && (doc.active != [] ==> PagesKept(doc.keys, old(doc.View()), doc.View()))
      ensures c.PressOn? ==> r == if Press(old(doc.keys), old(doc.View()), c.key).Some? then Done else Unchanged
      ensures c.PressOn? && r == Done ==>
                doc.keys == old(doc.keys) && doc.View() == Press(old(doc.keys), old(doc.View()), c.key).value
      ensures c.PressOn? && r == Done ==> Leads(old(doc.keys), old(doc.View()), c.key, doc.View())
      ensures c.PressOn? && r == Unchanged ==> forall next :: !Leads(doc.keys, doc.View(), c.key, next)
      ensures c.Update? ==> var keys := UpdateAt(old(doc.keys), c.path, c.id, c.slot, c.fields);
                            r == if keys.Some? && TreeOk(keys.value) then Done else Refused
      ensures c.Update? && r == Done ==>
                && doc.keys == UpdateAt(old(doc.keys), c.path, c.id, c.slot, c.fields).value
                && doc.View() == old(doc.View())
    {
      hide TreeOk, Press, UpdateAt, RemoveAt, NodeAt, Leads;
      match c
      case Update(path, id, slot, f) =>
        var keys := UpdateAt(doc.keys, path, id, slot, f);
        if keys.None? {
          return Refused;
        }
        UpdateKeepsCount(doc.keys, path, id, slot, f);
        UpdateKeepsNav(doc.keys, path, id, slot, f, doc.View());
        SettledStays(keys.value, doc.View());
        var next := new Doc(keys.value, doc.View());
        ghost var was := doc.View();
        r := Commit(next);
        if r == Done {
          assert next.active[..|next.active|] == next.active;
          SamePages(next.keys, was, next.View());
        }
      case Remove(path, id) =>
        var keys := RemoveAt(doc.keys, path, id);
        if keys.None? {
          return Unchanged;
        }
        RemoveKeepsRules(doc.keys, path, id);
        var next := new Doc(keys.value, doc.View());
        r := Commit(next);
      case PressOn(key) =>
        var nav := Press(doc.keys, doc.View(), key);
        PressLeads(doc.keys, doc.View(), key);
        if nav.None? {
          return Unchanged;
        }
        PressKeepsNav(doc.keys, doc.View(), key);
        SettledStays(doc.keys, nav.value);
        var next := new Doc(doc.keys, nav.value);
        r := Commit(next);
        assert next.active[..|next.active|] == next.active;
        SamePages(next.keys, nav.value, next.View());
    }
  }

  lemma {:induction false} SizeOfNone(keys: Keys)
    requires forall i :: 0 <= i < |keys| ==> keys[i].None?
    ensures SizeKeys(keys) == 0
  {
    if keys != [] {
      SizeOfNone(keys[1..]);
    }
  }

  lemma UpdateKeepsCount(keys: Keys, path: seq<string>, id: string, slot: Option<int>, f: Fields)
    requires UpdateAt(keys, path, id, slot, f).Some?
    ensures |UpdateAt(keys, path, id, slot, f).value| == |keys|
  {
  }

  /** A place the pad can show is left as it is by `settle`. */
  lemma SettledStays(keys: Keys, nav: Nav)
    requires NavOk(keys, nav)
    ensures LiveDepth(keys, nav.active) == |nav.active|
    ensures nav.active != [] ==> forall d :: 0 < d <= |nav.active| ==>
              OnPage(keys, nav.active[..d], PageAt(nav, d))
                  && ClampAt(keys, nav.active[..d], PageAt(nav, d)) == PageAt(nav, d)
  {
    if nav.active != [] {
      assert nav.active[..|nav.active|] == nav.active;
      assert OnPage(keys, nav.active[..|nav.active|], PageAt(nav, |nav.active|));
    }
  }

  lemma SamePages(keys: Keys, a: Nav, b: Nav)
    requires NavOk(keys, a) && NavOk(keys, b) && a.active == b.active
    requires a.active != [] ==> PagesKept(keys, a, b)
    ensures a == b
  {
    SettledStays(keys, a);
    if a.active != [] {
      assert PageAt(a, |a.active|) == PageAt(b, |a.active|);
      forall i | 0 <= i < |a.parents| ensures a.parents[i] == b.parents[i] {
        assert PageAt(a, i + 1) == PageAt(b, i + 1);
      }
    }
  }
}
