// driver/layers/controller.go behind inbox/src/render.js: the renderer's messages, applied to the daemon's tree.
module Delivery {
  import opened Bits
  import opened Sizes
  import opened Renderer
  import Layers

  /** The change that a message of the plugin `top` asks for; `slot` is the key it wants. */
  function ChangeOf(top: string, slot: Option<int>, m: Message): Layers.Change {
    match m
    case SetTop(f) => Layers.Update([], top, slot, f)
    case SetChild(id, f) => Layers.Update([top], id, None, f)
    case RemoveChild(id) => Layers.Remove([top], id)
  }

  /** The tree after the change; one that the tree refuses leaves it as it was. */
  ghost function After(keys: Layers.Keys, c: Layers.Change): Layers.Keys {
    match c
    case Update(path, id, slot, f) =>
      var next := Layers.UpdateAt(keys, path, id, slot, f);
      if next.Some? && Layers.TreeOk(next.value) then next.value else keys
    case Remove(path, id) =>
      var next := Layers.RemoveAt(keys, path, id);
      if next.Some? then next.value else keys
    case PressOn(_) => keys
  }

  /** The key has a place: its own, or the one it asks for, or any free one. */
  predicate Home(keys: Layers.Keys, top: string, slot: Option<int>) {
    Layers.TargetSlot(keys, top, slot).Some?
  }

  function ChildrenOf(keys: Layers.Keys, top: string): seq<Layers.Node> {
    var i := Layers.FindKey(keys, top);
    if i < |keys| then keys[i].value.children else []
  }

  /** How many nodes are not the key `top` or below it. */
  function Outside(keys: Layers.Keys, top: string): int {
    Layers.SizeKeys(keys) - if Layers.FindKey(keys, top) < |keys| then 1 + Layers.SizeAll(ChildrenOf(keys, top)) else 0
  }

  /** How many nodes are below the children of `top`. The renderer puts none there. */
  function Deep(keys: Layers.Keys, top: string): int {
    Layers.SizeAll(ChildrenOf(keys, top)) - |ChildrenOf(keys, top)|
  }

  /** A list of `n` children fits in the tree. */
  predicate Room(keys: Layers.Keys, top: string, n: nat) {
    Outside(keys, top) + 1 + n + Deep(keys, top) <= Layers.MAX_NODES
  }

  lemma {:induction false} DeepIsNat(nodes: seq<Layers.Node>)
    ensures Layers.SizeAll(nodes) >= |nodes|
  {
    if nodes != [] {
      DeepIsNat(nodes[1..]);
    }
  }

  /** What no message does: take the key's place or give it one, touch the rest of the tree, or put nodes below
      children. A key without a place keeps its own values. */
  ghost predicate Steady(keys: Layers.Keys, next: Layers.Keys, top: string, slot: Option<int>) {
    && (Home(keys, top, slot) <==> Home(next, top, slot))
    && (!Home(keys, top, slot) ==> PadOf(next, top).top == PadOf(keys, top).top)
    && Outside(next, top) == Outside(keys, top) && Deep(next, top) <= Deep(keys, top)
  }

  /** The key has these values, or can get them: it has a place, they are in order, and it or a node is free. */
  predicate Stands(keys: Layers.Keys, top: string, slot: Option<int>, f: Fields) {
    || PadOf(keys, top).top == Some(f)
    || (Home(keys, top, slot) && Layers.FieldsOk(top, f)
        && (Layers.FindKey(keys, top) < |keys| || Layers.SizeKeys(keys) < Layers.MAX_NODES))
  }

  /** A key is replaced by one of the same id and values, no deeper below its children. */
  lemma ReplacedIsSteady(keys: Layers.Keys, top: string, slot: Option<int>, m: Layers.Node)
    requires Layers.FindKey(keys, top) < |keys| && m.id == top
             && m.fields == keys[Layers.FindKey(keys, top)].value.fields
    requires Layers.SizeAll(m.children) - |m.children| <= Deep(keys, top)
    ensures var next := keys[Layers.FindKey(keys, top) := Some(m)];
            && Steady(keys, next, top, slot) && ChildrenOf(next, top) == m.children
            && PadOf(next, top).top == PadOf(keys, top).top && Layers.FindKey(next, top) < |next|
  {
    hide Layers.SizeKeys, Layers.SizeAll;
    var i := Layers.FindKey(keys, top);
    Layers.FindsKeyAt(keys[i := Some(m)], i);
    Layers.SizeKeysReplace(keys, i, Some(m));
  }

  /** The key's own update keeps its children, and leaves it where its next one goes. */
  lemma TopAfter(keys: Layers.Keys, top: string, slot: Option<int>, f: Fields)
    requires Layers.TreeOk(keys) && Layers.UpdateAt(keys, [], top, slot, f).Some?
    ensures var next := Layers.UpdateAt(keys, [], top, slot, f).value;
            Layers.FindKey(next, top) < |next| && ChildrenOf(next, top) == ChildrenOf(keys, top)
                && Home(next, top, slot)
  {
    hide Layers.SizeKeys, Layers.WellFormed, Layers.FieldsOk;
    var next := Layers.UpdateAt(keys, [], top, slot, f).value;
    var t, cur := Layers.TargetSlot(keys, top, slot).value, Layers.FindKey(keys, top);
    forall j | 0 <= j < t
      ensures next[j].None? || next[j].value.id != top
    {
      if keys[j].Some? && keys[j].value.id == top {
        assert j == cur;
      }
    }
    Layers.FindsKeyAt(next, t);
  }

  /** The key's own message keeps its children, and arrives when it stands. */
  lemma SetTopStep(keys: Layers.Keys, top: string, slot: Option<int>, f: Fields)
    requires Layers.TreeOk(keys) && top != ""
    ensures var next := After(keys, ChangeOf(top, slot, SetTop(f)));
            && Layers.TreeOk(next) && Steady(keys, next, top, slot) && ChildrenOf(next, top) == ChildrenOf(keys, top)
            && (Stands(keys, top, slot, f) ==>
                  Stands(next, top, slot, f) && PadOf(next, top) == Apply(PadOf(keys, top), SetTop(f)))
  {
    hide Layers.TreeOk, Layers.SizeKeys, Layers.SizeAll, Layers.FieldsOk, Layers.TargetSlot, PadOf;
    var next := Layers.UpdateAt(keys, [], top, slot, f);
    if next.Some? {
      UpdateIsSetTop(keys, top, slot, f);
      Layers.UpdateKeyRules(keys, top, slot, f);
      TopAfter(keys, top, slot, f);
      NoChildren();
    }
  }

  lemma NoChildren()
    ensures Layers.SizeAll([]) == 0
  {
  }

  /** A child's message arrives when the list has a place for it, and fits in the tree at length `n`. */
  lemma SetChildStep(keys: Layers.Keys, top: string, slot: Option<int>, id: string, f: Fields, n: nat)
    requires Layers.TreeOk(keys) && top != "" && n <= MAX_CHILDREN
    ensures var pad, next := PadOf(keys, top), After(keys, ChangeOf(top, slot, SetChild(id, f)));
            && Layers.TreeOk(next) && Steady(keys, next, top, slot) && Deep(next, top) == Deep(keys, top)
            && PadOf(next, top).top == pad.top && (Layers.FindKey(next, top) < |next| || next == keys)
            && (Layers.FieldsOk(id, f) && Within(pad, SetChild(id, f), n) && Room(keys, top, n) ==>
                  PadOf(next, top) == Apply(pad, SetChild(id, f)))
  {
    hide Layers.TreeOk, Layers.SizeKeys, Layers.SizeAll, Find, Layers.UpdateIn, Layers.FindKey;
    var i := Layers.FindKey(keys, top);
    if i < |keys| && id != "" {
      var k := keys[i].value;
      assert [top][1..] == [];
      UpdateInHere(k, id, f);
      UpdateIsSetChild(keys, top, id, f);
      ChildIsTaken(keys, top, id, f);
      SetGrows(k, id, f);
      ReplacedIsSteady(keys, top, slot, Layers.UpdateIn(k, [], id, f).value);
    }
  }

  lemma SetGrows(n: Layers.Node, id: string, f: Fields)
    ensures var m := Layers.UpdateIn(n, [], id, f).value;
            m.id == n.id && m.fields == n.fields
            && Layers.SizeAll(m.children) - |m.children| == Layers.SizeAll(n.children) - |n.children|
  {
    var i := Layers.FindChild(n.children, id);
    if i < |n.children| {
      Layers.SizeAllReplace(n.children, i, Layers.Node(id, f, n.children[i].children));
    } else {
      Layers.SizeAllSplit(n.children, [Layers.Node(id, f, [])]);
      Layers.SizeAllOne(Layers.Node(id, f, []));
    }
  }

  /** A list of nodes without the first one of an id. */
  function Without(nodes: seq<Layers.Node>, id: string): seq<Layers.Node> {
    var i := Layers.FindChild(nodes, id);
    if i < |nodes| then nodes[..i] + nodes[i + 1..] else nodes
  }

  /** A removal always arrives. */
  lemma RemoveStep(keys: Layers.Keys, top: string, slot: Option<int>, id: string, f: Fields)
    requires Layers.TreeOk(keys) && top != ""
    ensures var next := After(keys, ChangeOf(top, slot, RemoveChild(id)));
            && Layers.TreeOk(next) && Steady(keys, next, top, slot)
            && ChildrenOf(next, top) == Without(ChildrenOf(keys, top), id)
            && PadOf(next, top) == Apply(PadOf(keys, top), RemoveChild(id))
            && (Stands(keys, top, slot, f) ==> Stands(next, top, slot, f))
  {
    hide Layers.TreeOk, Layers.SizeKeys, Layers.SizeAll, Apply, Layers.RemoveIn, Layers.FindKey, Layers.FieldsOk,
         Layers.TargetSlot;
    RemoveIsRemoveChild(keys, top, id);
    var next := Layers.RemoveAt(keys, [top], id);
    assert [top][1..] == [];
    NoneWithout(id);
    if Layers.FindKey(keys, top) < |keys| {
      var k := keys[Layers.FindKey(keys, top)].value;
      RemoveShrinks(k, id);
      if next.Some? {
        Layers.RemoveKeepsRules(keys, [top], id);
        ReplacedIsSteady(keys, top, slot, Layers.RemoveIn(k, [], id).value);
      }
    }
  }

  lemma NoneWithout(id: string)
    ensures Without([], id) == []
  {
  }

  lemma RemoveShrinks(n: Layers.Node, id: string)
    ensures var m := Layers.RemoveIn(n, [], id);
            if m.None? then Without(n.children, id) == n.children
            else
              && m.value.id == n.id && m.value.fields == n.fields && m.value.children == Without(n.children, id)
              && Layers.SizeAll(m.value.children) - |m.value.children| <= Layers.SizeAll(n.children) - |n.children|
  {
    var i := Layers.FindChild(n.children, id);
    if i < |n.children| {
      Layers.SizeAllReplace(n.children, i, n.children[i]);
      Layers.SizePositive(n.children[i]);
    }
  }

  /** A message that draws, and makes no list longer than `n`, arrives in a tree that has room for such a list. */
  lemma MessageStep(keys: Layers.Keys, top: string, slot: Option<int>, m: Message, f: Fields, n: nat)
    requires Layers.TreeOk(keys) && top != "" && n <= MAX_CHILDREN && (m.SetChild? || m == SetTop(f))
    ensures var next := After(keys, ChangeOf(top, slot, m));
            && Layers.TreeOk(next) && Steady(keys, next, top, slot) && Deep(next, top) == Deep(keys, top)
            && (Stands(keys, top, slot, f) ==> Stands(next, top, slot, f))
            && (Stands(keys, top, slot, f) && MessageFits(m, top) && Within(PadOf(keys, top), m, n)
                && Room(keys, top, n) ==>
                  PadOf(next, top) == Apply(PadOf(keys, top), m))
  {
    hide Layers.TreeOk, Home, Apply, After, PadOf, Within, Layers.FieldsOk, Layers.SizeKeys, Layers.SizeAll,
         Layers.FindKey;
    match m
    case SetTop(_) => SetTopStep(keys, top, slot, f);
    case SetChild(id, g) => SetChildStep(keys, top, slot, id, g, n);
  }

  // ---- What a plan takes away ----

  /** The nodes that are left when those of some ids go. */
  function Left(nodes: seq<Layers.Node>, gone: set<string>): seq<Layers.Node> {
    if nodes == [] then [] else (if nodes[0].id in gone then [] else [nodes[0]]) + Left(nodes[1..], gone)
  }

  function Removed(out: seq<Message>): set<string> {
    set i | 0 <= i < |out| && out[i].RemoveChild? :: out[i].id
  }

  lemma {:induction false} LeftWithout(nodes: seq<Layers.Node>, gone: set<string>, id: string)
    requires Layers.DistinctIds(nodes)
    ensures Without(Left(nodes, gone), id) == Left(nodes, gone + {id})
  {
    hide Without;
    NoneWithout(id);
    if nodes != [] {
      var n, rest := nodes[0], nodes[1..];
      LeftWithout(rest, gone, id);
      WithoutFirst(n, Left(rest, gone), id);
      assert [] + Left(rest, gone) == Left(rest, gone) && [] + Left(rest, gone + {id}) == Left(rest, gone + {id});
      if n.id == id {
        LeftSame(rest, gone, id);
      }
    }
  }

  lemma WithoutFirst(n: Layers.Node, rest: seq<Layers.Node>, id: string)
    ensures Without([n] + rest, id) == if n.id == id then rest else [n] + Without(rest, id)
  {
    hide Layers.FindChild;
    var all, i := [n] + rest, Layers.FindChild(rest, id);
    FindFirst(n, rest, id);
    if n.id == id {
      assert all[..0] + all[1..] == rest;
    } else if i < |rest| {
      CutBehind(n, rest, i);
    }
  }

  lemma CutBehind(n: Layers.Node, rest: seq<Layers.Node>, i: nat)
    requires i < |rest|
    ensures ([n] + rest)[..i + 1] + ([n] + rest)[i + 2..] == [n] + (rest[..i] + rest[i + 1..])
  {
    assert ([n] + rest)[..i + 1] == [n] + rest[..i] && ([n] + rest)[i + 2..] == rest[i + 1..];
  }

  lemma FindFirst(n: Layers.Node, rest: seq<Layers.Node>, id: string)
    ensures Layers.FindChild([n] + rest, id) == if n.id == id then 0 else 1 + Layers.FindChild(rest, id)
  {
    assert ([n] + rest)[1..] == rest;
  }

  lemma {:induction false} LeftHas(nodes: seq<Layers.Node>, gone: set<string>)
    ensures forall n :: n in Left(nodes, gone) <==> n in nodes && n.id !in gone
  {
    if nodes != [] {
      LeftHas(nodes[1..], gone);
      assert forall n :: n in nodes <==> n == nodes[0] || n in nodes[1..];
    }
  }

  lemma {:induction false} LeftSame(nodes: seq<Layers.Node>, gone: set<string>, id: string)
    requires forall i :: 0 <= i < |nodes| ==> nodes[i].id != id
    ensures Left(nodes, gone + {id}) == Left(nodes, gone)
  {
    if nodes != [] {
      LeftSame(nodes[1..], gone, id);
    }
  }

  /** How many nodes are below the nodes of some ids. */
  function DeepIn(nodes: seq<Layers.Node>, ids: seq<string>): int {
    if nodes == [] then 0
    else (if nodes[0].id in ids then Layers.Size(nodes[0]) - 1 else 0) + DeepIn(nodes[1..], ids)
  }

  lemma {:induction false} LeftIsDeep(nodes: seq<Layers.Node>, gone: set<string>, ids: seq<string>)
    requires forall i :: 0 <= i < |nodes| ==> (nodes[i].id in gone <==> nodes[i].id !in ids)
    ensures Layers.SizeAll(Left(nodes, gone)) - |Left(nodes, gone)| == DeepIn(nodes, ids)
  {
    hide Layers.Size, Layers.SizeAll;
    NoChildren();
    if nodes != [] {
      LeftIsDeep(nodes[1..], gone, ids);
      Layers.SizeAllOne(nodes[0]);
      Layers.SizeAllSplit([nodes[0]], Left(nodes[1..], gone));
      assert [] + Left(nodes[1..], gone) == Left(nodes[1..], gone);
    }
  }

  // ---- A plan through the controller ----

  /** The messages make no list longer than `n`, their values are in order, and the tree has room for the list. */
  ghost predicate Welcome(keys: Layers.Keys, top: string, slot: Option<int>, out: seq<Message>, f: Fields, n: nat) {
    && n <= MAX_CHILDREN && AllAccepted(PadOf(keys, top), out, n) && AllFit(out, top)
    && Stands(keys, top, slot, f) && Room(keys, top, n)
  }

  lemma {:induction false} AcceptedRest(pad: Pad, a: seq<Message>, b: seq<Message>, n: nat)
    requires AllAccepted(pad, a + b, n)
    ensures AllAccepted(ApplyAll(pad, a), b, n) && ApplyAll(ApplyAll(pad, a), b) == ApplyAll(pad, a + b)
    decreases |b|
  {
    if b == [] {
      assert a + b == a;
    } else {
      assert (a + b)[..|a + b| - 1] == a + b[..|b| - 1];
      AcceptedRest(pad, a, b[..|b| - 1], n);
    }
  }

  /** The tree after all the messages. */
  ghost function AfterAll(keys: Layers.Keys, top: string, slot: Option<int>, out: seq<Message>): Layers.Keys {
    if out == [] then keys
    else After(AfterAll(keys, top, slot, out[..|out| - 1]), ChangeOf(top, slot, out[|out| - 1]))
  }

  lemma {:induction false} AfterJoin(keys: Layers.Keys, top: string, slot: Option<int>, a: seq<Message>,
      b: seq<Message>)
    ensures AfterAll(keys, top, slot, a + b) == AfterAll(AfterAll(keys, top, slot, a), top, slot, b)
    decreases |b|
  {
    if b == [] {
      assert a + b == a;
    } else {
      assert (a + b)[..|a + b| - 1] == a + b[..|b| - 1];
      AfterJoin(keys, top, slot, a, b[..|b| - 1]);
    }
  }

  /** One message as a change of the document. Only a removal can close an open layer. */
  method Send(ctl: Layers.Controller, top: string, slot: Option<int>, m: Message)
    requires ctl.Valid()
    modifies ctl
    ensures ctl.Valid() && ctl.doc.keys == After(old(ctl.doc.keys), ChangeOf(top, slot, m))
    ensures !m.RemoveChild? ==> ctl.doc.View() == old(ctl.doc.View())
  {
    hide Layers.TreeOk, Layers.NavOk, Layers.UpdateAt, Layers.RemoveAt, Layers.PagesKept;
    var _ := ctl.Apply(ChangeOf(top, slot, m));
  }

  /** The messages of a plan, one after the other. Without removals no layer closes, and no page turns. */
  method Deliver(ctl: Layers.Controller, top: string, slot: Option<int>, out: seq<Message>)
    requires ctl.Valid()
    modifies ctl
    ensures ctl.Valid() && ctl.doc.keys == AfterAll(old(ctl.doc.keys), top, slot, out)
    ensures NoneGoes(out) ==> ctl.doc.View() == old(ctl.doc.View())
  {
    hide After, ChangeOf, Layers.TreeOk, Layers.NavOk;
    assert out[..0] == [];
    for i := 0 to |out|
      invariant ctl.Valid() && ctl.doc.keys == AfterAll(old(ctl.doc.keys), top, slot, out[..i])
      invariant NoneGoes(out) ==> ctl.doc.View() == old(ctl.doc.View())
    {
      Send(ctl, top, slot, out[i]);
      assert out[..i + 1][..i] == out[..i];
    }
    assert out[..|out|] == out;
  }

  /** Welcome messages have on the tree the effect they have on the pad. No message of the plugin touches another
      key, or takes from it the place of its own. */
  lemma {:induction false} DrawsArrive(keys: Layers.Keys, top: string, slot: Option<int>, out: seq<Message>,
      f: Fields, n: nat)
    requires Layers.TreeOk(keys) && top != "" && Draws(out, f) && n <= MAX_CHILDREN
    ensures var next := AfterAll(keys, top, slot, out);
            && Layers.TreeOk(next) && Steady(keys, next, top, slot) && Deep(next, top) == Deep(keys, top)
            && (Stands(keys, top, slot, f) ==> Stands(next, top, slot, f))
            && (Welcome(keys, top, slot, out, f, n) ==> PadOf(next, top) == ApplyAll(PadOf(keys, top), out))
  {
    hide Layers.TreeOk, Home, Outside, Deep, After, Apply, PadOf, Within, Stands;
    if out != [] {
      var last := |out| - 1;
      DrawsArrive(keys, top, slot, out[..last], f, n);
      MessageStep(AfterAll(keys, top, slot, out[..last]), top, slot, out[last], f, n);
    }
  }

  /** Messages that clear leave the children that they do not name. */
  lemma {:induction false} ClearsArrive(keys: Layers.Keys, top: string, slot: Option<int>, out: seq<Message>, f: Fields)
    requires Layers.TreeOk(keys) && top != "" && Clears(out, f)
    ensures var next := AfterAll(keys, top, slot, out);
            && Layers.TreeOk(next) && Steady(keys, next, top, slot)
            && ChildrenOf(next, top) == Left(ChildrenOf(keys, top), Removed(out))
            && (Stands(keys, top, slot, f) ==>
                  Stands(next, top, slot, f) && PadOf(next, top) == ApplyAll(PadOf(keys, top), out))
  {
    hide Layers.TreeOk, Home, Outside, Deep, After, Apply, PadOf, Stands, Left, ChildrenOf, Removed, Layers.DistinctIds;
    NoneLeft(keys, top);
    if out != [] {
      var last := |out| - 1;
      assert out[..last + 1] == out;
      ClearsArrive(keys, top, slot, out[..last], f);
      RemovedNext(out, last);
      var now := AfterAll(keys, top, slot, out[..last]);
      if out[last].RemoveChild? {
        RemoveStep(now, top, slot, out[last].id, f);
        LeftWithout(ChildrenOf(keys, top), Removed(out[..last]), out[last].id);
      } else {
        SetTopStep(now, top, slot, f);
      }
    }
  }

  lemma NoneLeft(keys: Layers.Keys, top: string)
    requires Layers.TreeOk(keys)
    ensures Removed([]) == {} && Left(ChildrenOf(keys, top), {}) == ChildrenOf(keys, top)
    ensures Layers.DistinctIds(ChildrenOf(keys, top))
  {
    AllLeft(ChildrenOf(keys, top));
    var i := Layers.FindKey(keys, top);
    assert i < |keys| ==> Layers.WellFormed(keys[i].value, 1);
  }

  lemma {:induction false} AllLeft(nodes: seq<Layers.Node>)
    ensures Left(nodes, {}) == nodes
  {
    if nodes != [] {
      AllLeft(nodes[1..]);
    }
  }

  lemma RemovedNext(out: seq<Message>, i: nat)
    requires i < |out|
    ensures Removed(out[..i + 1])
         == if out[i].RemoveChild? then Removed(out[..i]) + {out[i].id} else Removed(out[..i])
  {
    assert forall k :: 0 <= k < i ==> out[..i + 1][k] == out[k] && out[..i][k] == out[k];
    assert out[..i + 1][i] == out[i];
  }

  /** The pad knows which children are left, whether or not the key gets its values. */
  lemma {:induction false} ClearedPad(nodes: seq<Layers.Node>, pad: Pad, out: seq<Message>, f: Fields)
    requires Layers.DistinctIds(nodes) && pad.kids == KidsOf(nodes) && Clears(out, f)
    ensures ApplyAll(pad, out).kids == KidsOf(Left(nodes, Removed(out)))
  {
    hide KidsOf, Left, Removed, Layers.DistinctIds;
    if out == [] {
      AllLeft(nodes);
      assert Removed([]) == {} by { RemovedNone(); }
    } else {
      var n := |out| - 1;
      assert out[..n + 1] == out;
      ClearedPad(nodes, pad, out[..n], f);
      RemovedNext(out, n);
      if out[n].RemoveChild? {
        LeftWithout(nodes, Removed(out[..n]), out[n].id);
        WithoutKid(Left(nodes, Removed(out[..n])), out[n].id);
      }
    }
  }

  lemma RemovedNone()
    ensures Removed([]) == {}
  {
  }

  lemma WithoutKid(nodes: seq<Layers.Node>, id: string)
    ensures var kids, i := KidsOf(nodes), Find(KidsOf(nodes), id);
            KidsOf(Without(nodes, id)) == if i < |kids| then kids[..i] + kids[i + 1..] else kids
  {
    SameFind(nodes, id);
  }

  /** The key with its children, as the rows and the list want it. */
  function WantedPad(p: Plugin, list: seq<string>, rows: seq<Row>): Pad
    reads p
  {
    Pad(Some(p.topOf(rows)), Children(list, p.FieldsFor(rows)))
  }

  /** What a caller can check before: the key has a place or the wanted values already, all values are in order, and
      with `below` nodes under the children that stay the list fits in the tree. */
  ghost predicate Possible(keys: Layers.Keys, slot: Option<int>, p: Plugin, list: seq<string>, rows: seq<Row>,
                           below: int)
    reads p
  {
    && (Home(keys, p.id, slot) || PadOf(keys, p.id).top == Some(p.topOf(rows))) && p.ListLegal(list, rows)
    && Outside(keys, p.id) + 1 + |list| + below <= Layers.MAX_NODES
  }

  lemma PossibleStands(keys: Layers.Keys, slot: Option<int>, p: Plugin, list: seq<string>, rows: seq<Row>, below: int)
    requires Possible(keys, slot, p, list, rows, below) && (Layers.FindKey(keys, p.id) == |keys| ==> below >= 0)
    ensures Stands(keys, p.id, slot, p.topOf(rows))
  {
    hide Plugin.HasFields;
  }

  /** A list that stands on a valid tree has values in order, and room. */
  lemma ListIsLegal(keys: Layers.Keys, p: Plugin, list: seq<string>, rows: seq<Row>)
    requires Layers.TreeOk(keys) && PadOf(keys, p.id) == WantedPad(p, list, rows)
    ensures p.ListFits(list, rows) && Room(keys, p.id, |list|)
  {
    hide Layers.FieldsOk, RowOf;
    var i := Layers.FindKey(keys, p.id);
    var kids := KidsOf(keys[i].value.children);
    assert kids == Children(list, p.FieldsFor(rows)) && Layers.WellFormed(keys[i].value, 1);
    forall j | 0 <= j < |list|
      ensures p.Fits(list[j], rows)
    {
      assert kids[j] == Kid(list[j], p.FieldsFor(rows)(list[j]));
    }
  }

  /** A closed plan, through the document: the pad shows the wanted list exactly when that is possible. */
  method ShowClosed(p: Plugin, ctl: Layers.Controller, slot: Option<int>, rows: seq<Row>)
      returns (out: seq<Message>)
    requires ctl.Valid() && p.id != "" && p.Agrees(PadOf(ctl.doc.keys, p.id)) && Distinct(Channels(rows))
    modifies ctl, p
    ensures ctl.Valid() && Steady(old(ctl.doc.keys), ctl.doc.keys, p.id, slot) && p.shown == Wanted(rows) && p.known
    ensures var below := DeepIn(ChildrenOf(old(ctl.doc.keys), p.id), old(p.Staying(rows)));
            p.ShowsRows(PadOf(ctl.doc.keys, p.id), rows) <==>
              Possible(old(ctl.doc.keys), slot, p, Wanted(rows), rows, below)
    ensures p.Agrees(WantedPad(p, Wanted(rows), rows)) && (old(p.UpToDate(rows)) ==> out == [] && p.UpToDate(rows))
    ensures p.id !in old(p.leftovers + p.shown) + Wanted(rows) ==> p.UpToDate(rows)
  {
    hide AllAccepted, AllFit, ApplyAll, PadOf, Wanted, Home, Outside, Deep, DeepIn, Layers.TreeOk, Layers.NavOk,
         Children,
      Clears, OnlyDraws, Stands, Plugin.ListFits, Plugin.ListLegal, Plugin.ShowsRows, AfterAll;
    ghost var keys, staying := ctl.doc.keys, p.Staying(rows);
    ghost var cut;
    out, cut := p.PlanClosed(rows, PadOf(keys, p.id));
    WantedDistinct(rows);
    Deliver(ctl, p.id, slot, out);
    ClosedArrives(keys, p, slot, out, cut, staying, rows, ctl.doc.keys);
    p.ShowsRowsIff(PadOf(ctl.doc.keys, p.id), rows);
  }

  /** What a closed plan makes of the tree, from its two halves. */
  lemma ClosedArrives(keys: Layers.Keys, p: Plugin, slot: Option<int>, out: seq<Message>, cut: nat,
                      staying: seq<string>,
                      rows: seq<Row>, next: Layers.Keys)
    requires Layers.TreeOk(keys) && Layers.TreeOk(next) && p.id != "" && next == AfterAll(keys, p.id, slot, out)
    requires cut <= |out| && Clears(out[..cut], p.topOf(rows)) && OnlyDraws([], out[cut..])
    requires Ids(ApplyAll(PadOf(keys, p.id), out[..cut]).kids) == staying && |Wanted(rows)| <= MAX_CHILDREN
    requires AllAccepted(PadOf(keys, p.id), out, |Wanted(rows)|)
             && (p.ListFits(Wanted(rows), rows) ==> AllFit(out, p.id))
    requires ApplyAll(PadOf(keys, p.id), out) == WantedPad(p, Wanted(rows), rows) && Distinct(Channels(rows))
    ensures Steady(keys, next, p.id, slot)
    ensures PadOf(next, p.id) == WantedPad(p, Wanted(rows), rows) <==>
              Possible(keys, slot, p, Wanted(rows), rows, DeepIn(ChildrenOf(keys, p.id), staying))
  {
    hide AllAccepted, ApplyAll, PadOf, Wanted, Home, Outside, Deep, DeepIn, Layers.TreeOk, Children, Clears, Stands,
      Plugin.ListFits, Plugin.ListLegal, ChildrenOf, Left, Removed, AfterAll, Ids;
    var f, pad, a, b := p.topOf(rows), PadOf(keys, p.id), out[..cut], out[cut..];
    assert out == a + b;
    ClearsArrive(keys, p.id, slot, a, f);
    var cleared := AfterAll(keys, p.id, slot, a);
    StayingIsDeep(keys, p.id, a, f, cleared, staying);
    AfterJoin(keys, p.id, slot, a, b);
    AcceptedRest(pad, a, b, |Wanted(rows)|);
    DrawsArrive(cleared, p.id, slot, b, f, |Wanted(rows)|);
    var below := DeepIn(ChildrenOf(keys, p.id), staying);
    p.ListLegalIff(Wanted(rows), rows);
    if Possible(keys, slot, p, Wanted(rows), rows, below) {
      PossibleStands(keys, slot, p, Wanted(rows), rows, below);
    }
    if PadOf(next, p.id) == WantedPad(p, Wanted(rows), rows) {
      ListIsLegal(next, p, Wanted(rows), rows);
    }
  }

  /** The nodes left below are those under the channels that stay. */
  lemma StayingIsDeep(keys: Layers.Keys, top: string, out: seq<Message>, f: Fields, next: Layers.Keys,
      staying: seq<string>)
    requires Layers.TreeOk(keys) && Clears(out, f) && Ids(ApplyAll(PadOf(keys, top), out).kids) == staying
    requires ChildrenOf(next, top) == Left(ChildrenOf(keys, top), Removed(out))
    ensures Deep(next, top) == DeepIn(ChildrenOf(keys, top), staying)
    ensures Layers.FindKey(keys, top) == |keys| ==> DeepIn(ChildrenOf(keys, top), staying) == 0
  {
    hide Layers.TreeOk, ApplyAll, Removed, Clears, Layers.SizeAll;
    var nodes := ChildrenOf(keys, top);
    NoneLeft(keys, top);
    ClearedPad(nodes, PadOf(keys, top), out, f);
    LeftNames(nodes, Removed(out));
    LeftIsDeep(nodes, Removed(out), staying);
  }

  lemma LeftNames(nodes: seq<Layers.Node>, gone: set<string>)
    requires Layers.DistinctIds(nodes)
    ensures var ids := Ids(KidsOf(Left(nodes, gone)));
            forall i :: 0 <= i < |nodes| ==> (nodes[i].id in gone <==> nodes[i].id !in ids)
  {
    LeftHas(nodes, gone);
    var left := Left(nodes, gone);
    var ids := Ids(KidsOf(left));
    assert |ids| == |left| && forall j :: 0 <= j < |left| ==> left[j] in left && ids[j] == left[j].id;
    forall i | 0 <= i < |nodes|
      ensures nodes[i].id in gone <==> nodes[i].id !in ids
    {
      if nodes[i].id !in gone {
        assert nodes[i] in left;
        var j :| 0 <= j < |left| && left[j] == nodes[i];
        assert ids[j] in ids;
      }
    }
  }

  lemma DrawsTakeNone(out: seq<Message>, f: Fields)
    ensures Draws(out, f) ==> NoneGoes(out)
  {
  }

  lemma NothingDeep(keys: Layers.Keys, top: string)
    ensures Layers.FindKey(keys, top) == |keys| ==> Deep(keys, top) == 0
  {
  }

  /** An open plan, through the document: no layer closes and no page turns, and on a pad whose children are known
      the longer list stands exactly when that is possible. */
  method ShowOpen(p: Plugin, ctl: Layers.Controller, slot: Option<int>, rows: seq<Row>)
      returns (out: seq<Message>)
    requires ctl.Valid() && p.id != "" && p.Agrees(PadOf(ctl.doc.keys, p.id)) && Distinct(Channels(rows))
    modifies ctl, p
    ensures ctl.Valid() && Steady(old(ctl.doc.keys), ctl.doc.keys, p.id, slot)
    ensures ctl.doc.View() == old(ctl.doc.View())
    ensures p.shown == Extend(old(p.shown), Wanted(rows)) && old(p.shown) <= p.shown && p.known == old(p.known)
    ensures p.known ==>
              && p.Agrees(WantedPad(p, p.shown, rows))
              && (p.ShowsList(PadOf(ctl.doc.keys, p.id), p.shown, rows) <==>
                    Possible(old(ctl.doc.keys), slot, p, p.shown, rows, Deep(old(ctl.doc.keys), p.id)))
  {
    hide AllAccepted, AllFit, ApplyAll, PadOf, Wanted, Extend, Home, Outside, Deep, Layers.TreeOk, Layers.NavOk,
         Children, Draws, Stands, Plugin.ListFits, Plugin.ListLegal, Plugin.ShowsList;
    ghost var keys := ctl.doc.keys;
    out := p.PlanOpen(rows, PadOf(keys, p.id));
    DrawsTakeNone(out, p.topOf(rows));
    Deliver(ctl, p.id, slot, out);
    DrawsArrive(keys, p.id, slot, out, p.topOf(rows), |p.shown|);
    NothingDeep(keys, p.id);
    p.ListLegalIff(p.shown, rows);
    p.ShowsListIff(PadOf(ctl.doc.keys, p.id), p.shown, rows);
    if p.known && Possible(keys, slot, p, p.shown, rows, Deep(keys, p.id)) {
      PossibleStands(keys, slot, p, p.shown, rows, Deep(keys, p.id));
    }
    if PadOf(ctl.doc.keys, p.id) == WantedPad(p, p.shown, rows) {
      ListIsLegal(ctl.doc.keys, p, p.shown, rows);
    }
  }

  // ---- A full tree ----

  const PLAIN := Layers.Fields(0, "", 0, "", "", "")

  function Name(i: nat): (r: string)
    ensures |r| == i + 1
  {
    seq(i + 1, _ => 'x')
  }

  /** `n` children with names of their own, each with the same children. */
  function RowOfNodes(n: nat, under: seq<Layers.Node>): (r: seq<Layers.Node>)
    ensures |r| == n && forall i :: 0 <= i < n ==> r[i] == Layers.Node(Name(i), PLAIN, under)
  {
    seq(n, i requires 0 <= i < n => Layers.Node(Name(i), PLAIN, under))
  }

  /** The key `a` without children, and under `b` all the other 198 nodes. */
  function FullTree(): (keys: Layers.Keys)
    ensures |keys| == KEY_COUNT
  {
    [Some(Layers.Node("a", PLAIN, [])), Some(Layers.Node("b", PLAIN, RowOfNodes(18, RowOfNodes(10, []))))]
    + seq(KEY_COUNT - 2, _ => None)
  }

  lemma {:induction false} RowSize(n: nat, under: seq<Layers.Node>)
    ensures Layers.SizeAll(RowOfNodes(n, under)) == n * (1 + Layers.SizeAll(under))
  {
    hide Layers.Size, Layers.SizeAll, Name;
    Layers.SizeIs(Layers.Node("", PLAIN, under));
    if n > 0 {
      var init, last := RowOfNodes(n - 1, under), RowOfNodes(n, under)[n - 1];
      Layers.SizeIs(last);
      assert RowOfNodes(n, under) == init + [last];
      RowSize(n - 1, under);
      Layers.SizeAllSplit(init, [last]);
      Layers.SizeAllOne(last);
    }
  }

  lemma RowIsWellFormed(n: nat, under: seq<Layers.Node>, parent: Layers.Node, depth: nat)
    requires parent.children == RowOfNodes(n, under) && n <= Layers.MAX_CHILDREN && depth < Layers.MAX_DEPTH
    requires forall c: Layers.Node :: c.children == under ==> Layers.WellFormed(c, depth + 1)
    ensures Layers.WellFormed(parent, depth)
  {
  }

  /** A valid tree of exactly 200 nodes. */
  lemma FullTreeIsFull()
    ensures Layers.TreeOk(FullTree()) && Layers.SizeKeys(FullTree()) == Layers.MAX_NODES
    ensures PadOf(FullTree(), "a") == Pad(Some(PLAIN), []) && Outside(FullTree(), "a") == 199
            && Deep(FullTree(), "a") == 0
  {
    hide Layers.WellFormed, Layers.SizeAll;
    var keys := FullTree();
    var b, rest := keys[1].value, keys[2..];
    FullRows(b);
    RowSize(10, []);
    RowSize(18, RowOfNodes(10, []));
    Layers.SizeIs(keys[0].value);
    Layers.SizeIs(b);
    Layers.SizeOfNone(rest);
    assert keys[1..] == [Some(b)] + rest && keys[1..][1..] == rest;
    Layers.FindsKeyAt(keys, 0);
    assert forall i :: 2 <= i < |keys| ==> keys[i] == None;
  }

  /** The pad of the renderer would take any child there, and the tree takes none. */
  lemma FullTreeRefuses(id: string, f: Fields)
    requires Layers.FieldsOk(id, f)
    ensures var keys, next := FullTree(), Layers.UpdateAt(FullTree(), ["a"], id, None, f);
            Layers.TreeOk(keys) && Accepts(PadOf(keys, "a"), SetChild(id, f)) && next.Some?
                && !Layers.TreeOk(next.value)
  {
    hide FullTree, Layers.TreeOk, Layers.UpdateAt, PadOf, Layers.SizeKeys;
    FullTreeIsFull();
    UpdateIsSetChild(FullTree(), "a", id, f);
    ChildIsTaken(FullTree(), "a", id, f);
  }

  lemma FullRows(b: Layers.Node)
    requires b.children == RowOfNodes(18, RowOfNodes(10, []))
    ensures Layers.WellFormed(b, 1) && Layers.WellFormed(Layers.Node("a", PLAIN, []), 1)
  {
    var leaves := RowOfNodes(10, []);
    forall c: Layers.Node | c.children == leaves
      ensures Layers.WellFormed(c, 2)
    {
      RowIsWellFormed(10, [], c, 2);
    }
    RowIsWellFormed(18, leaves, b, 1);
  }

  /** The renderer believes what a full tree refuses: the channel `c` is on record as shown, the pad shows no child,
      and the next plan for the same row sends nothing. */
  method FullTreeHidesChannel() returns (p: Plugin, ctl: Layers.Controller, again: seq<Message>)
    ensures ctl.Valid() && p.known && p.shown == ["c"] && PadOf(ctl.doc.keys, "a").kids == []
    ensures p.id == "a" && p.UpToDate([Row("c", 1, 1, "")]) && again == []
  {
    hide FullTree, Layers.TreeOk, Layers.NavOk, PadOf, Wanted, Deep, Outside, Home, Room, Children, Layers.PagesKept,
      Layers.WellFormed, Ids, Distinct, Apply, ApplyAll, Find, RowOf;
    var rows := [Row("c", 1, 1, "")];
    OneRow(rows);
    FullTreeIsFull();
    NoKids();
    p := new Plugin("a", _ => PLAIN, (_, _) => PLAIN);
    ctl := FullController();
    p.Reset([], PadOf(ctl.doc.keys, "a"));
    var _ := ShowClosed(p, ctl, None, rows);
    NothingShown(ctl.doc.keys);
    ghost var cut;
    again, cut := p.PlanClosed(rows, WantedPad(p, Wanted(rows), rows));
  }

  /** A daemon that shows the top layer of the full tree. */
  method FullController() returns (ctl: Layers.Controller)
    ensures fresh(ctl) && ctl.Valid() && ctl.doc.keys == FullTree()
  {
    hide FullTree, Layers.TreeOk;
    FullTreeIsFull();
    ctl := new Layers.Controller();
    ctl.doc := new Layers.Doc(FullTree(), Layers.TOP);
  }

  lemma NoKids()
    ensures Ids([]) == [] && Distinct([])
  {
  }

  lemma OneRow(rows: seq<Row>)
    requires |rows| == 1
    ensures Distinct(Channels(rows)) && Wanted(rows) == [rows[0].channel]
  {
  }

  /** While 199 nodes are elsewhere, the key `a` has no children. */
  lemma NothingShown(keys: Layers.Keys)
    requires Layers.TreeOk(keys) && Outside(keys, "a") == 199
    ensures PadOf(keys, "a").kids == []
  {
    DeepIsNat(ChildrenOf(keys, "a"));
  }
}
