// driver/layers/controller.go `desired` and driver/layers/frames.go `neededFrames`: what each key shows
// in each place of the tree, and the list of every frame that any place can ask for.
module Preload {
  import opened Bits
  import opened Sizes
  import opened Pages
  import opened Layers
  import Frames

  const COLOR_UP := 0x2104

  /** The key colors of the statuses; `None` is black. */
  function StatusColor(status: string): nat {
    if status == "RUNNING" then 0x3AFF else if status == "DONE" then 0x16C9
    else if status == "ERROR" then 0xF800 else if status == "WARN" then 0xFFE0 else 0
  }

  predicate HasContent(n: Node) {
    var f := n.fields;
    f.status != "" || f.icon != 0 || f.count != 0 || f.iconRef != "" || f.iconText != "" || f.iconEmoji != ""
        || n.children != []
  }

  const BLANK_VIEW := Frames.View(Frames.Blank, 0, 0, "", "", "", false, 0)

  function NodeView(n: Node): Frames.View {
    var f := n.fields;
    Frames.View(Frames.Key, StatusColor(f.status), f.icon, f.iconRef, f.iconText, f.iconEmoji, false, if f.count > 0
        then f.count else 0)
  }

  function ArrowView(icon: string): Frames.View {
    Frames.View(Frames.Shift, COLOR_UP, 0, icon, "", "", false, 0)
  }

  /** `desired`: what `key` must show on `page` of the layer at `path`. */
  function DesiredAt(keys: Keys, path: seq<string>, page: nat, key: nat): Frames.View {
    if path == [] then
      if key < |keys| && keys[key].Some? && HasContent(keys[key].value)
      then NodeView(keys[key].value).(round := keys[key].value.fields.iconEmoji != "")
      else BLANK_VIEW
    else if NodeAt(keys, path).None? then BLANK_VIEW
    else
      var children := NodeAt(keys, path).value.children;
      match RoleOf(|children|, page, key)
      case Child(c) => if c < |children| then NodeView(children[c]) else BLANK_VIEW
      case Up => ArrowView("shift.png")
      case Left => ArrowView("left.png")
      case Right => ArrowView("right.png")
      case Blank => BLANK_VIEW
  }

  function Desired(keys: Keys, path: seq<string>, page: nat): (r: seq<Frames.View>)
    ensures |r| == KEY_COUNT && forall key :: 0 <= key < KEY_COUNT ==> r[key] == DesiredAt(keys, path, page, key)
  {
    seq(KEY_COUNT, key requires 0 <= key < KEY_COUNT => DesiredAt(keys, path, page, key))
  }

  function FrameAt(keys: Keys, path: seq<string>, page: nat, key: nat): Frames.FrameKey {
    Frames.FrameKeyOf(DesiredAt(keys, path, page, key))
  }

  /** A place of the tree the pad can show: the top layer, or a page of a layer. */
  predicate Place(keys: Keys, path: seq<string>, page: nat) {
    if path == [] then page == 0 else OnPage(keys, path, page)
  }

  /** Every navigation state is at such a place. */
  lemma NavIsPlace(keys: Keys, nav: Nav)
    requires NavOk(keys, nav)
    ensures nav.page >= 0 && Place(keys, nav.active, nav.page)
  {
    if nav.active != [] {
      assert nav.active[..|nav.active|] == nav.active;
      assert OnPage(keys, nav.active[..|nav.active|], PageAt(nav, |nav.active|));
    }
  }

  /** Whatever a valid document shows can be drawn: a file has no words and no emoji beside it. */
  lemma DesiredIsProper(keys: Keys, path: seq<string>, page: nat)
    requires TreeOk(keys)
    ensures Frames.AllProper(Desired(keys, path, page))
  {
    hide NodeAt, RoleOf;
    forall key: nat | key < KEY_COUNT ensures Frames.Proper(DesiredAt(keys, path, page, key)) {
      if path != [] && NodeAt(keys, path).Some? {
        NodeAtIsWellFormed(keys, path);
      }
    }
  }

  /** A view loses no field of its node: nodes that differ in one have different views, and so in color by status. */
  lemma ViewSaysFields(a: Node, b: Node)
    requires FieldsOk(a.id, a.fields) && FieldsOk(b.id, b.fields)
    ensures NodeView(a) == NodeView(b) <==> a.fields == b.fields
    ensures NodeView(a).color == NodeView(b).color <==> a.fields.status == b.fields.status
  {
  }

  /** On the top layer a key is blank exactly when it has no node, or one with no value of its own and no children; an
      emoji is drawn on the round there. */
  lemma TopIsSeen(keys: Keys, key: nat)
    ensures var w := DesiredAt(keys, [], 0, key);
            if key >= |keys| || keys[key].None? then w == BLANK_VIEW
            else
              var n := keys[key].value;
              if n.fields == Fields(0, "", 0, "", "", "") && n.children == [] then w == BLANK_VIEW
              else w == NodeView(n).(round := n.fields.iconEmoji != "") && w.kind == Frames.Key
  {
  }

  /** In a layer each key shows the child that is at home there. */
  lemma ChildIsSeen(keys: Keys, nav: Nav, key: nat, id: string)
    requires TreeOk(keys) && NavOk(keys, nav) && nav.active != [] && key < KEY_COUNT && KeyShows(keys, nav, key, id)
    ensures nav.page >= 0 && NodeAt(keys, nav.active + [id]).Some?
    ensures DesiredAt(keys, nav.active, nav.page, key) == NodeView(NodeAt(keys, nav.active + [id]).value)
  {
    hide TreeOk, NodeAt, HomeOf, RoleOf, PageCount;
    NavIsPlace(keys, nav);
    var children := NodeAt(keys, nav.active).value.children;
    var c :| 0 <= c < |children| && children[c].id == id && HomeOf(|children|, c) == (nav.page, key);
    RolesAre(|children|, nav.page, key);
    NodeAtChild(keys, nav.active, c);
  }

  /** A key shows an arrow exactly when a press on it leads where the arrow points. */
  lemma ArrowsLead(keys: Keys, nav: Nav, key: nat)
    requires TreeOk(keys) && NavOk(keys, nav) && nav.active != [] && key < KEY_COUNT
    ensures nav.page >= 0
    ensures var w := DesiredAt(keys, nav.active, nav.page, key);
            && (w == ArrowView("left.png") <==> Press(keys, nav, key) == Some(nav.(page := nav.page - 1)))
            && (w == ArrowView("right.png") <==> Press(keys, nav, key) == Some(nav.(page := nav.page + 1)))
            && (w == ArrowView("shift.png") <==> Press(keys, nav, key) == Some(Closed(nav)))
  {
    hide TreeOk, NodeAt, HomeOf, RoleOf, PageCount;
    NavIsPlace(keys, nav);
    var children := NodeAt(keys, nav.active).value.children;
    RolesAre(|children|, nav.page, key);
    assert "left.png"[0] == 'l' && "right.png"[0] == 'r' && "shift.png"[0] == 's';
  }

  // ---- Every layer of the tree, breadth first ----

  function SizeAt(keys: Keys, path: seq<string>): nat {
    match NodeAt(keys, path) case None => 0 case Some(n) => Size(n)
  }

  function Weight(keys: Keys, layers: seq<seq<string>>): nat {
    if layers == [] then 0 else Weight(keys, layers[..|layers| - 1]) + SizeAt(keys, layers[|layers| - 1])
  }

  lemma {:induction false} WeightSplit(keys: Keys, a: seq<seq<string>>, b: seq<seq<string>>)
    ensures Weight(keys, a + b) == Weight(keys, a) + Weight(keys, b)
    decreases |b|
  {
    if b == [] {
      assert a + b == a;
    } else {
      assert (a + b)[..|a + b| - 1] == a + b[..|b| - 1];
      WeightSplit(keys, a, b[..|b| - 1]);
    }
  }

  function Above(p: seq<string>): seq<string>
    requires p != []
  {
    p[..|p| - 1]
  }

  /** The place of a layer's key among the keys, or among the children of the layer above it. */
  function Rank(keys: Keys, p: seq<string>): nat
    requires p != []
  {
    if |p| == 1 then FindKey(keys, p[0])
    else match NodeAt(keys, Above(p)) case None => 0 case Some(n) => FindChild(n.children, p[|p| - 1])
  }

  /** Layers of one parent, in the order of its children. */
  ghost predicate Ranked(keys: Keys, layers: seq<seq<string>>) {
    && (forall i :: 0 <= i < |layers| ==> layers[i] != [])
    && forall i, j :: 0 <= i < j < |layers| ==> Rank(keys, layers[i]) < Rank(keys, layers[j])
  }

  /** `p` comes before `q`: its parent does, or they have the same and its key does. */
  ghost predicate Before(keys: Keys, layers: seq<seq<string>>, p: seq<string>, q: seq<string>)
    requires p != [] && q != []
  {
    || (Above(p) == Above(q) && Rank(keys, p) < Rank(keys, q))
    || exists a, b :: 0 <= a < b < |layers| && layers[a] == Above(p) && layers[b] == Above(q)
  }

  /** Each layer once, the higher ones first, and those on one level as their parents stand. */
  ghost predicate BreadthFirst(keys: Keys, layers: seq<seq<string>>) {
    && (forall i :: 0 <= i < |layers| ==> layers[i] != [])
    && (forall i, j :: 0 <= i < j < |layers| ==> layers[i] != layers[j] && |layers[i]| <= |layers[j]|)
    && forall i, j :: 0 <= i < j < |layers| && |layers[i]| == |layers[j]| ==> Before(keys, layers, layers[i], layers[j])
  }

  lemma RankOfChild(keys: Keys, path: seq<string>, i: nat)
    requires TreeOk(keys) && Alive(keys, path) && path != [] && i < |NodeAt(keys, path).value.children|
    ensures Rank(keys, path + [NodeAt(keys, path).value.children[i].id]) == i
  {
    hide TreeOk, NodeAt;
    var children := NodeAt(keys, path).value.children;
    NodeAtChild(keys, path, i);
    FindsAt(children, i);
    assert Above(path + [children[i].id]) == path;
  }

  /** The layers that the first `i` children of the node at `path` give. */
  ghost predicate BelowUpTo(path: seq<string>, children: seq<Node>, below: seq<seq<string>>, i: nat) {
    i <= |children| &&
    forall p :: p in below <==> exists j :: 0 <= j < i && p == path + [children[j].id] && children[j].children != []
  }

  ghost predicate RankedUpTo(keys: Keys, below: seq<seq<string>>, i: nat) {
    Ranked(keys, below) && forall j :: 0 <= j < |below| ==> Rank(keys, below[j]) < i
  }

  lemma BelowStep(path: seq<string>, children: seq<Node>, below: seq<seq<string>>, i: nat)
    requires i < |children| && BelowUpTo(path, children, below, i)
    ensures BelowUpTo(path, children, if children[i].children == [] then below
              else below + [path + [children[i].id]], i + 1)
  {
  }

  lemma RankedStep(keys: Keys, below: seq<seq<string>>, p: seq<string>, i: nat)
    requires RankedUpTo(keys, below, i) && p != [] && Rank(keys, p) == i
    ensures RankedUpTo(keys, below, i + 1) && RankedUpTo(keys, below + [p], i + 1)
  {
    hide Rank;
  }

  lemma WeightOne(keys: Keys, p: seq<string>)
    ensures Weight(keys, [p]) == SizeAt(keys, p) && Weight(keys, []) == 0 && RankedUpTo(keys, [], 0)
  {
    assert [p][..0] == [];
  }

  /** The layers right below the one at `path`. */
  method LayersBelow(keys: Keys, path: seq<string>) returns (below: seq<seq<string>>)
    requires TreeOk(keys) && Alive(keys, path)
    ensures forall p :: p in below <==> |p| == |path| + 1 && p[..|path|] == path && Alive(keys, p)
    ensures Weight(keys, below) < SizeAt(keys, path) && Ranked(keys, below)
  {
    var children := NodeAt(keys, path).value.children;
    below := [];
    assert path != [] && children[..0] == [];
    WeightOne(keys, path);
    for i := 0 to |children|
      invariant BelowUpTo(path, children, below, i) && RankedUpTo(keys, below, i)
      invariant Weight(keys, below) <= SizeAll(children[..i])
    {
      hide BelowUpTo, RankedUpTo, NodeAt, TreeOk, Weight, SizeAll, Size, Rank;
      var p := path + [children[i].id];
      NodeAtChild(keys, path, i);
      SizeAllNext(children, i);
      RankOfChild(keys, path, i);
      BelowStep(path, children, below, i);
      RankedStep(keys, below, p, i);
      if children[i].children != [] {
        WeightSplit(keys, below, [p]);
        WeightOne(keys, p);
        below := below + [p];
      }
    }
    assert children[..|children|] == children;
    forall p ensures p in below <==> |p| == |path| + 1 && p[..|path|] == path && Alive(keys, p) {
      ChildPath(keys, path, p);
    }
  }

  lemma ChildPath(keys: Keys, path: seq<string>, p: seq<string>)
    requires TreeOk(keys) && Alive(keys, path)
    ensures var children := NodeAt(keys, path).value.children;
            (exists j :: 0 <= j < |children| && p == path + [children[j].id] && children[j].children != [])
            <==> |p| == |path| + 1 && p[..|path|] == path && Alive(keys, p)
  {
    var children := NodeAt(keys, path).value.children;
    forall j | 0 <= j < |children| ensures NodeAt(keys, path + [children[j].id]) == Some(children[j]) {
      NodeAtChild(keys, path, j);
    }
    if |p| == |path| + 1 && p[..|path|] == path && Alive(keys, p) {
      assert p == path + [p[|path|]];
      NodeAtSplit(keys, path, [p[|path|]]);
      var j := FindChild(children, p[|path|]);
    }
  }

  /** The layers of the top-level keys. */
  method TopLayers(keys: Keys) returns (layers: seq<seq<string>>)
    requires TreeOk(keys)
    ensures forall p :: p in layers <==> |p| == 1 && Alive(keys, p)
    ensures Ranked(keys, layers)
  {
    layers := [];
    for i := 0 to |keys|
      invariant Ranked(keys, layers) && forall j :: 0 <= j < |layers| ==> Rank(keys, layers[j]) < i
      invariant forall p :: p in layers <==>
                  exists j :: 0 <= j < i && keys[j].Some? && keys[j].value.children != [] && p == [keys[j].value.id]
    {
      if keys[i].Some? && keys[i].value.children != [] {
        FindsKeyAt(keys, i);
        layers := layers + [[keys[i].value.id]];
      }
    }
    forall p ensures p in layers <==> |p| == 1 && Alive(keys, p) {
      if p in layers {
        var j :| 0 <= j < |keys| && keys[j].Some? && keys[j].value.children != [] && p == [keys[j].value.id];
        TopKeyFound(keys, j);
      }
      if |p| == 1 && Alive(keys, p) {
        var j := FindKey(keys, p[0]);
        TopKeyFound(keys, j);
        assert p == [keys[j].value.id];
      }
    }
  }

  /** The layers right below the first `i` are on the list, and every other one is a top layer. */
  ghost predicate DoneUpTo(keys: Keys, layers: seq<seq<string>>, i: nat) {
    && i <= |layers| && (forall p :: p in layers ==> p != [] && Alive(keys, p))
    && (forall p :: |p| == 1 && Alive(keys, p) ==> p in layers)
    && (forall p :: |p| > 1 && Alive(keys, p) && Above(p) in layers[..i] ==> p in layers)
    && forall p :: p in layers && |p| > 1 ==> Above(p) in layers[..i]
  }

  /** Every node with children, breadth first. */
  method AllLayers(keys: Keys) returns (layers: seq<seq<string>>)
    requires TreeOk(keys)
    ensures BreadthFirst(keys, layers) && forall p :: p in layers <==> p != [] && Alive(keys, p)
  {
    hide Alive, Weight, SizeAt, TreeOk, BreadthFirst, Ranked, DoneUpTo;
    layers := TopLayers(keys);
    TopIsFirst(keys, layers);
    var i := 0;
    while i < |layers|
      invariant DoneUpTo(keys, layers, i) && BreadthFirst(keys, layers) && i <= |layers|
      decreases Weight(keys, layers[i..])
    {
      NextIsAlive(keys, layers, i);
      var below := LayersBelow(keys, layers[i]);
      WeightStep(keys, layers, i, below);
      BelowComesLast(keys, layers, i, below);
      OneMoreDone(keys, layers, i, below);
      layers, i := layers + below, i + 1;
    }
    AllDone(keys, layers);
  }

  lemma NextIsAlive(keys: Keys, layers: seq<seq<string>>, i: nat)
    requires DoneUpTo(keys, layers, i) && i < |layers|
    ensures layers[i] != [] && Alive(keys, layers[i])
  {
    assert layers[i] in layers;
  }

  lemma OneMoreDone(keys: Keys, layers: seq<seq<string>>, i: nat, below: seq<seq<string>>)
    requires DoneUpTo(keys, layers, i) && i < |layers|
    requires forall p :: p in below <==> |p| == |layers[i]| + 1 && p[..|layers[i]|] == layers[i] && Alive(keys, p)
    ensures DoneUpTo(keys, layers + below, i + 1)
  {
    hide Alive;
    assert (layers + below)[..i + 1] == layers[..i] + [layers[i]];
    assert layers[i] in layers;
  }

  lemma AllDone(keys: Keys, layers: seq<seq<string>>)
    requires DoneUpTo(keys, layers, |layers|)
    ensures forall p :: p in layers <==> p != [] && Alive(keys, p)
  {
    hide Alive;
    assert layers[..|layers|] == layers;
    forall p | p != [] && Alive(keys, p)
      ensures p in layers
    {
      Reached(keys, layers, p);
    }
  }

  lemma TopIsFirst(keys: Keys, layers: seq<seq<string>>)
    requires Ranked(keys, layers)
    requires forall p :: |p| == 1 && Alive(keys, p) <==> p in layers
    ensures BreadthFirst(keys, layers) && DoneUpTo(keys, layers, 0)
  {
    hide Alive, Rank;
    forall i, j | 0 <= i < j < |layers|
      ensures layers[i] != layers[j] && |layers[i]| == |layers[j]| && Before(keys, layers, layers[i], layers[j])
    {
      assert layers[i] in layers && layers[j] in layers;
      assert Above(layers[i]) == Above(layers[j]);
    }
  }

  /** The layers below the next one come after all that the list has. */
  lemma BelowComesLast(keys: Keys, layers: seq<seq<string>>, i: nat, below: seq<seq<string>>)
    requires i < |layers| && BreadthFirst(keys, layers) && Ranked(keys, below) && DoneUpTo(keys, layers, i)
    requires forall p :: p in below ==> |p| == |layers[i]| + 1 && p[..|layers[i]|] == layers[i]
    ensures BreadthFirst(keys, layers + below)
  {
    hide Before, Rank, Alive, DoneUpTo;
    var all := layers + below;
    assert forall a :: 0 <= a < |below| ==> below[a] in below;
    forall a, b | 0 <= a < b < |all|
      ensures all[a] != [] && all[b] != [] && all[a] != all[b] && |all[a]| <= |all[b]|
      ensures |all[a]| == |all[b]| ==> Before(keys, all, all[a], all[b])
    {
      if a >= |layers| {
        Siblings(keys, all, below[a - |layers|], below[b - |layers|]);
      } else {
        if b >= |layers| {
          OldComesFirst(keys, layers, i, a, below[b - |layers|]);
        }
        StillBefore(keys, layers, below, all[a], all[b]);
      }
    }
  }

  lemma Siblings(keys: Keys, all: seq<seq<string>>, p: seq<string>, q: seq<string>)
    requires p != [] && q != [] && Above(p) == Above(q) && Rank(keys, p) < Rank(keys, q)
    ensures Before(keys, all, p, q)
  {
  }

  lemma OldComesFirst(keys: Keys, layers: seq<seq<string>>, i: nat, k: nat, q: seq<string>)
    requires i < |layers| && k < |layers| && BreadthFirst(keys, layers) && q != [] && Above(q) == layers[i]
    requires DoneUpTo(keys, layers, i)
    ensures var p := layers[k]; p != [] && |p| <= |q| && p != q && (|p| == |q| ==> Before(keys, layers, p, q))
  {
    hide Rank, Alive;
    var p := layers[k];
    assert p in layers;
    if |p| > 1 {
      var a :| 0 <= a < i && layers[a] == Above(p);
      assert layers[a] != layers[i];
    }
  }

  lemma StillBefore(keys: Keys, layers: seq<seq<string>>, below: seq<seq<string>>, p: seq<string>, q: seq<string>)
    requires p != [] && q != [] && (|p| == |q| ==> Before(keys, layers, p, q))
    ensures |p| == |q| ==> Before(keys, layers + below, p, q)
  {
    if |p| == |q| && !(Above(p) == Above(q) && Rank(keys, p) < Rank(keys, q)) {
      var a, b :| 0 <= a < b < |layers| && layers[a] == Above(p) && layers[b] == Above(q);
      assert (layers + below)[a] == Above(p) && (layers + below)[b] == Above(q);
    }
  }

  /** A layer is heavier than all the layers right below it, so the list of layers still to do gets lighter. */
  lemma WeightStep(keys: Keys, layers: seq<seq<string>>, i: nat, below: seq<seq<string>>)
    requires i < |layers| && Weight(keys, below) < SizeAt(keys, layers[i])
    ensures Weight(keys, (layers + below)[i + 1..]) < Weight(keys, layers[i..])
  {
    WeightSplit(keys, [layers[i]], layers[i + 1..]);
    WeightSplit(keys, layers[i + 1..], below);
    assert layers[i..] == [layers[i]] + layers[i + 1..] && (layers + below)[i + 1..] == layers[i + 1..] + below;
    assert Weight(keys, [layers[i]]) == SizeAt(keys, layers[i]) + Weight(keys, []);
  }

  lemma {:induction false} Reached(keys: Keys, layers: seq<seq<string>>, p: seq<string>)
    requires forall p :: |p| == 1 && Alive(keys, p) ==> p in layers
    requires forall p :: |p| > 1 && Alive(keys, p) && p[..|p| - 1] in layers ==> p in layers
    requires p != [] && Alive(keys, p)
    ensures p in layers
    decreases |p|
  {
    if |p| > 1 {
      AliveAbove(keys, p, |p| - 1);
      Reached(keys, layers, p[..|p| - 1]);
    }
  }

  // ---- The list of frames ----

  ghost predicate NoRepeats(list: seq<Frames.FrameKey>) {
    forall i, j :: 0 <= i < j < |list| ==> list[i] != list[j]
  }

  /** Every frame of one place is on the list. */
  ghost predicate Covers(list: seq<Frames.FrameKey>, keys: Keys, path: seq<string>, page: nat) {
    forall key :: 0 <= key < KEY_COUNT ==> FrameAt(keys, path, page, key) in list
  }

  /** The frame is one that some place of the tree shows on some key. */
  ghost predicate Asked(keys: Keys, k: Frames.FrameKey) {
    exists path, page: nat, key: nat :: Place(keys, path, page) && key < KEY_COUNT
        && k == FrameAt(keys, path, page, key)
  }

  /** Only frames that some place shows are on the list, and each once. */
  ghost predicate Exact(list: seq<Frames.FrameKey>, keys: Keys) {
    NoRepeats(list) && forall k :: k in list ==> Asked(keys, k)
  }

  /** A layer, or the top one at the empty path, and one of its pages. */
  datatype Spot = Spot(path: seq<string>, page: nat)

  ghost predicate ShownAt(keys: Keys, s: Spot, k: Frames.FrameKey) {
    exists key: nat :: key < KEY_COUNT && k == FrameAt(keys, s.path, s.page, key)
  }

  ghost predicate ShownBy(keys: Keys, spots: seq<Spot>, n: nat, k: Frames.FrameKey) {
    exists i :: 0 <= i < n <= |spots| && ShownAt(keys, spots[i], k)
  }

  /** Place by place: up to a cut the list has exactly the frames of the first places, and the last cut is its end. */
  ghost predicate Staged(list: seq<Frames.FrameKey>, keys: Keys, spots: seq<Spot>, cuts: seq<nat>) {
    && |cuts| == |spots| && (if spots == [] then list == [] else cuts[|cuts| - 1] == |list|)
    && forall m :: 0 <= m < |spots| ==>
         cuts[m] <= |list| && forall k :: k in list[..cuts[m]] <==> ShownBy(keys, spots, m + 1, k)
  }

  /** The top layer comes first, then page by page the layers in their order. */
  ghost predicate Turn(layers: seq<seq<string>>, a: Spot, b: Spot) {
    && b.path != []
    && (a.path == [] || a.page < b.page
        || (a.page == b.page && exists x, y :: 0 <= x < y < |layers| && layers[x] == a.path && layers[y] == b.path))
  }

  ghost predicate InTurn(layers: seq<seq<string>>, spots: seq<Spot>) {
    forall i, j :: 0 <= i < j < |spots| ==> Turn(layers, spots[i], spots[j])
  }

  /** All spots come before layer `i` on this page. */
  ghost predicate UpToLayer(layers: seq<seq<string>>, spots: seq<Spot>, page: nat, i: nat) {
    forall s :: s in spots ==>
      s.path == [] || s.page < page || (s.page == page && exists x :: 0 <= x < i && x < |layers| && layers[x] == s.path)
  }

  lemma StagedNext(list: seq<Frames.FrameKey>, more: seq<Frames.FrameKey>, keys: Keys, spots: seq<Spot>,
                   cuts: seq<nat>, s: Spot)
    requires Staged(list, keys, spots, cuts) && list <= more
    requires forall k :: k in more <==> k in list || ShownAt(keys, s, k)
    ensures Staged(more, keys, spots + [s], cuts + [|more|])
  {
    hide ShownAt;
    var all := spots + [s];
    forall m | 0 <= m < |spots| ensures forall k :: k in more[..cuts[m]] <==> ShownBy(keys, all, m + 1, k) {
      assert more[..cuts[m]] == list[..cuts[m]];
      SameShown(keys, spots, s, m + 1);
    }
    assert more[..|more|] == more;
    forall k ensures k in more <==> ShownBy(keys, all, |all|, k) {
      SameShown(keys, spots, s, |spots|);
      LastShown(keys, spots, s, k);
      assert spots != [] ==> list[..|list|] == list;
    }
  }

  lemma SameShown(keys: Keys, spots: seq<Spot>, s: Spot, n: nat)
    requires n <= |spots|
    ensures forall k :: ShownBy(keys, spots + [s], n, k) <==> ShownBy(keys, spots, n, k)
  {
    hide ShownAt;
    assert forall i :: 0 <= i < n ==> (spots + [s])[i] == spots[i];
  }

  lemma LastShown(keys: Keys, spots: seq<Spot>, s: Spot, k: Frames.FrameKey)
    ensures ShownBy(keys, spots + [s], |spots| + 1, k)
       <==> ShownBy(keys, spots + [s], |spots|, k) || ShownAt(keys, s, k)
  {
    hide ShownAt;
    assert (spots + [s])[|spots|] == s;
  }

  lemma TurnNext(layers: seq<seq<string>>, spots: seq<Spot>, page: nat, i: nat)
    requires i < |layers| && layers[i] != [] && InTurn(layers, spots) && UpToLayer(layers, spots, page, i)
    ensures InTurn(layers, spots + [Spot(layers[i], page)])
    ensures UpToLayer(layers, spots + [Spot(layers[i], page)], page, i + 1)
  {
    var s := Spot(layers[i], page);
    forall j | 0 <= j < |spots| ensures Turn(layers, spots[j], s) {
      assert spots[j] in spots;
    }
  }

  lemma LayerSkipped(layers: seq<seq<string>>, spots: seq<Spot>, page: nat, i: nat)
    requires UpToLayer(layers, spots, page, i)
    ensures UpToLayer(layers, spots, page, i + 1) && UpToLayer(layers, spots, page + 1, 0)
  {
  }

  /** The list so far, the places whose frames it has, in their turn, and where each of them ends. */
  ghost predicate SoFar(list: seq<Frames.FrameKey>, keys: Keys, layers: seq<seq<string>>, spots: seq<Spot>,
                        cuts: seq<nat>)
  {
    && Exact(list, keys) && Staged(list, keys, spots, cuts) && InTurn(layers, spots)
    && forall s :: s in spots ==> Place(keys, s.path, s.page)
  }

  /** Adds the frames of one place that are not on the list. */
  method AddPlace(list: seq<Frames.FrameKey>, keys: Keys, path: seq<string>, page: nat)
      returns (more: seq<Frames.FrameKey>)
    requires Exact(list, keys) && Place(keys, path, page)
    ensures list <= more && Exact(more, keys) && Covers(more, keys, path, page)
    ensures forall k :: k in more <==> k in list || ShownAt(keys, Spot(path, page), k)
  {
    hide DesiredAt, Place, Frames.FrameKeyOf;
    more := list;
    for key := 0 to KEY_COUNT
      invariant list <= more && Exact(more, keys)
      invariant forall k :: 0 <= k < key ==> FrameAt(keys, path, page, k) in more
      invariant forall k :: k in more ==> k in list || ShownAt(keys, Spot(path, page), k)
    {
      var k := Frames.FrameKeyOf(DesiredAt(keys, path, page, key));
      assert Asked(keys, FrameAt(keys, path, page, key));
      assert ShownAt(keys, Spot(path, page), FrameAt(keys, path, page, key));
      if k !in more {
        more := more + [k];
      }
    }
    forall k | k in list ensures k in more {
      var i :| 0 <= i < |list| && list[i] == k;
      assert more[i] == k;
    }
  }

  /** The frames of page `page` of every layer that has it. */
  method AddPage(list: seq<Frames.FrameKey>, keys: Keys, layers: seq<seq<string>>, page: nat,
                 ghost spots: seq<Spot>, ghost cuts: seq<nat>)
    returns (more: seq<Frames.FrameKey>, found: bool, ghost spots': seq<Spot>, ghost cuts': seq<nat>)
    requires SoFar(list, keys, layers, spots, cuts) && UpToLayer(layers, spots, page, 0)
    requires forall p :: p in layers ==> p != [] && Alive(keys, p)
    ensures SoFar(more, keys, layers, spots', cuts') && UpToLayer(layers, spots', page + 1, 0)
    ensures list <= more && spots <= spots'
    ensures forall p :: p in layers && OnPage(keys, p, page) ==> Spot(p, page) in spots'
    ensures found <==> exists p :: p in layers && OnPage(keys, p, page)
  {
    hide NodeAt, Exact, Covers, Staged, InTurn, UpToLayer;
    more, found, spots', cuts' := list, false, spots, cuts;
    for i := 0 to |layers|
      invariant list <= more && spots <= spots'
      invariant SoFar(more, keys, layers, spots', cuts') && UpToLayer(layers, spots', page, i)
      invariant forall j :: 0 <= j < i && OnPage(keys, layers[j], page) ==> Spot(layers[j], page) in spots'
      invariant found <==> exists j :: 0 <= j < i && OnPage(keys, layers[j], page)
    {
      assert layers[i] in layers;
      LayerSkipped(layers, spots', page, i);
      if page >= PageCount(|NodeAt(keys, layers[i]).value.children|) {
        continue;
      }
      found := true;
      ghost var before := more;
      more := AddPlace(more, keys, layers[i], page);
      StagedNext(before, more, keys, spots', cuts', Spot(layers[i], page));
      TurnNext(layers, spots', page, i);
      spots', cuts' := spots' + [Spot(layers[i], page)], cuts' + [|more|];
    }
    LayerSkipped(layers, spots', page, |layers|);
  }

  /** Every frame of a place is on the list once the place has had its turn. */
  lemma SpotIsCovered(list: seq<Frames.FrameKey>, keys: Keys, spots: seq<Spot>, cuts: seq<nat>, s: Spot)
    requires Staged(list, keys, spots, cuts) && s in spots
    ensures Covers(list, keys, s.path, s.page)
  {
    hide FrameAt;
    var i :| 0 <= i < |spots| && spots[i] == s;
    forall key: nat | key < KEY_COUNT ensures FrameAt(keys, s.path, s.page, key) in list {
      assert ShownAt(keys, s, FrameAt(keys, s.path, s.page, key));
      assert ShownBy(keys, spots, |spots|, FrameAt(keys, s.path, s.page, key));
      assert list[..|list|] == list;
    }
  }

  /** `neededFrames`: every frame that any place of the tree can ask for, and no other, each once. The frames of the top
      layer come first, then those of the first pages, breadth first, then those of the second pages, and so on. */
  method NeededFrames(keys: Keys) returns (list: seq<Frames.FrameKey>, ghost layers: seq<seq<string>>,
                                           ghost spots: seq<Spot>, ghost cuts: seq<nat>)
    requires TreeOk(keys)
    ensures Exact(list, keys)
    ensures forall path, page: nat :: Place(keys, path, page) ==> Covers(list, keys, path, page)
    ensures BreadthFirst(keys, layers) && InTurn(layers, spots) && Staged(list, keys, spots, cuts)
    ensures forall s: Spot :: s in spots <==> Place(keys, s.path, s.page)
  {
    hide TreeOk, Exact, Covers, NodeAt, Staged, InTurn, UpToLayer, BreadthFirst, OnPage;
    NothingIsExact(keys);
    list := AddPlace([], keys, [], 0);
    var paths := AllLayers(keys);
    layers, spots, cuts := paths, [Spot([], 0)], [|list|];
    TopIsStaged(list, keys, layers);
    var page := 0;
    while true
      invariant SoFar(list, keys, layers, spots, cuts) && UpToLayer(layers, spots, page, 0) && Spot([], 0) in spots
      invariant forall p, q: nat :: q < page && p != [] && OnPage(keys, p, q) ==> Spot(p, q) in spots
      invariant page == 0 || exists p :: p in layers && OnPage(keys, p, page - 1)
      decreases MAX_CHILDREN - page
    {
      var found;
      ghost var before := spots;
      list, found, spots, cuts := AddPage(list, keys, paths, page, spots, cuts);
      LayersOnPage(keys, layers, page);
      assert forall s :: s in before ==> s in spots;
      if !found {
        NoFurtherPage(keys, layers, page);
        AllCovered(list, keys, spots, cuts);
        return;
      }
      PagesAreFew(keys, layers, page);
      page := page + 1;
    }
  }

  lemma TopIsStaged(list: seq<Frames.FrameKey>, keys: Keys, layers: seq<seq<string>>)
    requires Exact(list, keys) && forall k :: k in list <==> ShownAt(keys, Spot([], 0), k)
    ensures SoFar(list, keys, layers, [Spot([], 0)], [|list|]) && UpToLayer(layers, [Spot([], 0)], 0, 0)
  {
    hide Exact, ShownAt;
    StagedNext([], list, keys, [], [], Spot([], 0));
    assert [] + [Spot([], 0)] == [Spot([], 0)] && [] + [|list|] == [|list|];
  }

  lemma LayersOnPage(keys: Keys, layers: seq<seq<string>>, page: nat)
    requires forall p :: p in layers <==> p != [] && Alive(keys, p)
    ensures forall p :: p != [] && OnPage(keys, p, page) ==> p in layers
  {
  }

  lemma AllCovered(list: seq<Frames.FrameKey>, keys: Keys, spots: seq<Spot>, cuts: seq<nat>)
    requires Staged(list, keys, spots, cuts) && Spot([], 0) in spots
    requires forall p, q: nat :: p != [] && OnPage(keys, p, q) ==> Spot(p, q) in spots
    ensures forall path, page: nat :: Place(keys, path, page) ==> Covers(list, keys, path, page)
    ensures forall path, page: nat :: Place(keys, path, page) ==> Spot(path, page) in spots
  {
    hide Staged, Covers, OnPage;
    forall path, page: nat | Place(keys, path, page) ensures Covers(list, keys, path, page)
        && Spot(path, page) in spots {
      assert Spot(path, page) in spots;
      SpotIsCovered(list, keys, spots, cuts, Spot(path, page));
    }
  }

  lemma NothingIsExact(keys: Keys)
    ensures Exact([], keys)
  {
  }

  lemma NoFurtherPage(keys: Keys, layers: seq<seq<string>>, page: nat)
    requires forall p :: p in layers <==> p != [] && Alive(keys, p)
    requires !exists p :: p in layers && OnPage(keys, p, page)
    ensures forall p, q: nat :: p != [] && OnPage(keys, p, q) ==> q < page
  {
  }

  lemma PagesAreFew(keys: Keys, layers: seq<seq<string>>, page: nat)
    requires TreeOk(keys) && (forall p :: p in layers ==> p != []) && exists p :: p in layers && OnPage(keys, p, page)
    ensures page < MAX_CHILDREN
  {
    var p :| p in layers && OnPage(keys, p, page);
    NodeAtIsWellFormed(keys, p);
  }

  /** Once every needed frame is in the table, a flush of any place stores nothing. */
  method FlushAfterPreload(c: Frames.Controller, keys: Keys, nav: Nav, needed: seq<Frames.FrameKey>)
      returns (stores: nat)
    requires c.Valid() && NavOk(keys, nav)
    requires forall path, page: nat :: Place(keys, path, page) ==> Covers(needed, keys, path, page)
    requires forall k :: k in needed ==> k in c.table.slotOf
    modifies c, c.table, c.table.keyOf, c.table.used, c.board.slots, c.board`refused
    ensures c.Valid() && stores == 0 && unchanged(c.board.slots)
  {
    hide DesiredAt, Frames.FrameKeyOf;
    NavIsPlace(keys, nav);
    var want := Desired(keys, nav.active, nav.page);
    forall i | 0 <= i < KEY_COUNT ensures Frames.FrameKeyOf(want[i]) in c.table.slotOf {
      assert Covers(needed, keys, nav.active, nav.page);
      assert FrameAt(keys, nav.active, nav.page, i) in needed;
    }
    var show;
    show, stores := c.FlushFrames(want);
  }
}
