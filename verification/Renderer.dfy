// inbox/src/render.js: the renderer that turns wanted channels into messages and suppresses what it
// sent before, and the pad's list of children that the messages change (driver/layers/controller.go).
module Renderer {
  import opened Bits
  import Layers

  const MAX_CHILDREN := 20

  /** What a key shows; the renderer compares it as JSON text. */
  type Fields = Layers.Fields

  /** A row of the store: one channel with unseen messages. */
  datatype Row = Row(channel: string, newestId: nat, count: nat, session: string)

  datatype Node = Top(fields: Fields) | Child(fields: Fields)

  datatype Message = SetTop(fields: Fields) | SetChild(id: string, fields: Fields) | RemoveChild(id: string)

  // ---- The pad ----

  datatype Kid = Kid(id: string, fields: Fields)

  /** The key of one plugin on the pad, and its children in order. */
  datatype Pad = Pad(top: Option<Fields>, kids: seq<Kid>)

  function Find(kids: seq<Kid>, id: string): (i: nat)
    ensures i <= |kids| && (i < |kids| ==> kids[i].id == id)
    ensures forall j :: 0 <= j < i ==> kids[j].id != id
  {
    if kids == [] || kids[0].id == id then 0 else 1 + Find(kids[1..], id)
  }

  /** The message makes no list of children longer than `n`, and a child has its key. */
  predicate Within(pad: Pad, m: Message, n: nat) {
    m.SetChild? ==> pad.top.Some? && (Find(pad.kids, m.id) < |pad.kids| || |pad.kids| < n)
  }

  /** A key takes the message: a child needs its key, and a new one a place among at most 20. */
  predicate Accepts(pad: Pad, m: Message) {
    Within(pad, m, MAX_CHILDREN)
  }

  /** `applyUpdate` and `applyRemove`: in place, or at the end, and the children after a removed one move up. */
  function Apply(pad: Pad, m: Message): Pad {
    if !Accepts(pad, m) then pad
    else
      match m
      case SetTop(f) => pad.(top := Some(f))
      case SetChild(id, f) =>
        var i := Find(pad.kids, id);
        pad.(kids := if i < |pad.kids| then pad.kids[i := Kid(id, f)] else pad.kids + [Kid(id, f)])
      case RemoveChild(id) =>
        var i := Find(pad.kids, id);
        pad.(kids := if i < |pad.kids| then pad.kids[..i] + pad.kids[i + 1..] else pad.kids)
  }

  function ApplyAll(pad: Pad, out: seq<Message>): Pad {
    if out == [] then pad else Apply(ApplyAll(pad, out[..|out| - 1]), out[|out| - 1])
  }

  /** Every message is accepted, and none makes the list longer than `n`. */
  ghost predicate AllAccepted(pad: Pad, out: seq<Message>, n: nat) {
    out == [] || (AllAccepted(pad, out[..|out| - 1], n) && Within(ApplyAll(pad, out[..|out| - 1]), out[|out| - 1], n))
  }

  /** The message's values are ones that the tree takes. */
  predicate MessageFits(m: Message, top: string) {
    match m
    case SetTop(f) => Layers.FieldsOk(top, f)
    case SetChild(id, f) => Layers.FieldsOk(id, f)
    case RemoveChild(_) => true
  }

  /** No message takes a child away. */
  predicate NoneGoes(out: seq<Message>) {
    forall i :: 0 <= i < |out| ==> !out[i].RemoveChild?
  }

  /** The messages give the key these values, and take children away. */
  predicate Clears(out: seq<Message>, f: Fields) {
    forall i :: 0 <= i < |out| ==> out[i].RemoveChild? || out[i] == SetTop(f)
  }

  /** The messages give the key these values, and draw children. */
  predicate Draws(out: seq<Message>, f: Fields) {
    forall i :: 0 <= i < |out| ==> out[i].SetChild? || out[i] == SetTop(f)
  }

  ghost predicate AllFit(out: seq<Message>, top: string) {
    forall i :: 0 <= i < |out| ==> MessageFits(out[i], top)
  }

  lemma ApplyOne(pad: Pad, out: seq<Message>, m: Message, n: nat)
    ensures ApplyAll(pad, out + [m]) == Apply(ApplyAll(pad, out), m)
    ensures AllAccepted(pad, out + [m], n) <==> AllAccepted(pad, out, n) && Within(ApplyAll(pad, out), m, n)
  {
  }

  /** The list of channels the pad shows. */
  function Ids(kids: seq<Kid>): (r: seq<string>)
    ensures |r| == |kids| && forall i :: 0 <= i < |kids| ==> r[i] == kids[i].id
  {
    seq(|kids|, i requires 0 <= i < |kids| => kids[i].id)
  }

  /** The later messages only draw children. */
  predicate OnlyDraws(out: seq<Message>, more: seq<Message>) {
    out <= more && forall i :: |out| <= i < |more| ==> more[i].SetChild?
  }

  /** The later messages only take children away. */
  predicate OnlyDrops(out: seq<Message>, more: seq<Message>) {
    out <= more && forall i :: |out| <= i < |more| ==> more[i].RemoveChild?
  }

  lemma NothingMore(out: seq<Message>)
    ensures OnlyDraws(out, out) && OnlyDrops(out, out)
  {
  }

  lemma DrawsOn(out: seq<Message>, more: seq<Message>, last: seq<Message>)
    requires OnlyDraws(out, more) && OnlyDraws(more, last)
    ensures OnlyDraws(out, last)
  {
  }

  lemma DropsOn(out: seq<Message>, more: seq<Message>, last: seq<Message>)
    requires OnlyDrops(out, more) && OnlyDrops(more, last)
    ensures OnlyDrops(out, last)
  {
  }

  ghost predicate Distinct(s: seq<string>) {
    forall i, j :: 0 <= i < j < |s| ==> s[i] != s[j]
  }

  /** Every child the renderer thinks it sent is on the pad with those fields. */
  ghost predicate SentShows(sent: map<string, Node>, kids: seq<Kid>) {
    forall c :: c in sent && sent[c].Child? ==> ShowsAs(kids, c, sent[c].fields)
  }

  /** The list that a filter by membership leaves, in order. */
  function Stay(s: seq<string>, wanted: seq<string>): seq<string> {
    if s == [] then []
    else Stay(s[..|s| - 1], wanted) + if s[|s| - 1] in wanted then [s[|s| - 1]] else []
  }

  /** How long two lists are the same. */
  function Common(a: seq<string>, b: seq<string>): (n: nat)
    ensures n <= |a| && n <= |b|
  {
    if a == [] || b == [] || a[0] != b[0] then 0 else 1 + Common(a[1..], b[1..])
  }

  lemma {:induction false} CommonIs(a: seq<string>, b: seq<string>)
    ensures var n := Common(a, b);
            a[..n] == b[..n] && (n < |a| && n < |b| ==> a[n] != b[n])
  {
    if a != [] && b != [] && a[0] == b[0] {
      CommonIs(a[1..], b[1..]);
      var n := Common(a[1..], b[1..]);
      assert a[..n + 1] == [a[0]] + a[1..][..n] && b[..n + 1] == [b[0]] + b[1..][..n];
    }
  }

  /** `x` stands in `s` before a place of `y`. */
  ghost predicate Precedes(s: seq<string>, x: string, y: string) {
    exists i, j :: 0 <= i < j < |s| && s[i] == x && s[j] == y
  }

  /** What stays is what is wanted, in the order it had. */
  lemma {:induction false} StayIs(s: seq<string>, wanted: seq<string>)
    ensures forall x :: x in Stay(s, wanted) <==> x in s && x in wanted
    ensures forall a, b :: 0 <= a < b < |Stay(s, wanted)| ==> Precedes(s, Stay(s, wanted)[a], Stay(s, wanted)[b])
  {
    if s != [] {
      var n := |s| - 1;
      var init, r := Stay(s[..n], wanted), Stay(s, wanted);
      StayIs(s[..n], wanted);
      assert s == s[..n] + [s[n]];
      forall a, b | 0 <= a < b < |r| ensures Precedes(s, r[a], r[b]) {
        if b < |init| {
          assert r[a] == init[a] && r[b] == init[b] && Precedes(s[..n], init[a], init[b]);
          var i, j :| 0 <= i < j < n && s[..n][i] == r[a] && s[..n][j] == r[b];
          assert s[i] == r[a] && s[j] == r[b];
        } else {
          assert r[a] in s[..n];
          var i :| 0 <= i < n && s[i] == r[a];
          assert s[n] == r[b];
        }
      }
    }
  }

  lemma FindSplit(kids: seq<Kid>, a: seq<string>, x: string, b: seq<string>)
    requires Ids(kids) == a + [x] + b && Distinct(a + [x] + b)
    ensures Find(kids, x) == |a|
    ensures Ids(kids[..|a|] + kids[|a| + 1..]) == a + b && Distinct(a + b)
  {
    assert (a + [x] + b)[|a|] == x;
    FindIs(kids, |a|);
    assert forall j :: 0 <= j < |a| ==> (a + b)[j] == (a + [x] + b)[j];
    assert forall j :: |a| <= j < |a + b| ==> (a + b)[j] == (a + [x] + b)[j + 1];
  }

  /** Removing one of several distinct children leaves the others as they are. */
  lemma RemoveFrom(pad: Pad, a: seq<string>, x: string, b: seq<string>)
    requires Ids(pad.kids) == a + [x] + b && Distinct(a + [x] + b)
    ensures Ids(Apply(pad, RemoveChild(x)).kids) == a + b && Distinct(a + b)
    ensures forall c :: c != x && Find(pad.kids, c) < |pad.kids| ==>
              var kids := Apply(pad, RemoveChild(x)).kids;
              Find(kids, c) < |kids| && kids[Find(kids, c)] == pad.kids[Find(pad.kids, c)]
  {
    hide Find, Ids, Distinct;
    FindSplit(pad.kids, a, x, b);
    var kids, i := Apply(pad, RemoveChild(x)).kids, |a|;
    forall c | c != x && Find(pad.kids, c) < |pad.kids|
      ensures Find(kids, c) < |kids| && kids[Find(kids, c)] == pad.kids[Find(pad.kids, c)]
    {
      var j := Find(pad.kids, c);
      var k := if j < i then j else j - 1;
      assert kids[k] == pad.kids[j];
      FindIs(kids, k);
    }
  }

  lemma FindIs(kids: seq<Kid>, k: nat)
    requires k < |kids| && Distinct(Ids(kids))
    ensures Find(kids, kids[k].id) == k
  {
  }

  /** The pad shows channel `c` with fields `f`. */
  ghost predicate ShowsAs(kids: seq<Kid>, c: string, f: Fields) {
    Find(kids, c) < |kids| && kids[Find(kids, c)].fields == f
  }

  lemma FindNone(kids: seq<Kid>, c: string)
    ensures Find(kids, c) == |kids| <==> c !in Ids(kids)
  {
  }

  /** What a child's message does to the list and to every child. */
  lemma SetFacts(pad: Pad, c: string, f: Fields)
    requires Distinct(Ids(pad.kids)) && Accepts(pad, SetChild(c, f))
    ensures var next := Apply(pad, SetChild(c, f));
            && next.top == pad.top && Distinct(Ids(next.kids)) && ShowsAs(next.kids, c, f)
            && Ids(next.kids) == (if c in Ids(pad.kids) then Ids(pad.kids) else Ids(pad.kids) + [c])
            && forall d, g :: d != c && ShowsAs(pad.kids, d, g) ==> ShowsAs(next.kids, d, g)
  {
    var next := Apply(pad, SetChild(c, f));
    var i := Find(pad.kids, c);
    FindNone(pad.kids, c);
    assert Ids(next.kids) == if c in Ids(pad.kids) then Ids(pad.kids) else Ids(pad.kids) + [c];
    assert Distinct(Ids(next.kids));
    FindIs(next.kids, i);
    forall d, g | d != c && ShowsAs(pad.kids, d, g) ensures ShowsAs(next.kids, d, g) {
      assert next.kids[Find(pad.kids, d)] == pad.kids[Find(pad.kids, d)];
      FindIs(next.kids, Find(pad.kids, d));
    }
  }

  /** What a removal does, wherever the child stands, and when it is not there. */
  lemma RemoveFacts(pad: Pad, x: string)
    requires Distinct(Ids(pad.kids))
    ensures var next := Apply(pad, RemoveChild(x));
            && next.top == pad.top && Distinct(Ids(next.kids)) && |next.kids| <= |pad.kids|
            && (forall y :: y in Ids(next.kids) <==> y in Ids(pad.kids) && y != x)
            && forall d, g :: d != x && ShowsAs(pad.kids, d, g) ==> ShowsAs(next.kids, d, g)
  {
    var ids := Ids(pad.kids);
    var i := Find(pad.kids, x);
    FindNone(pad.kids, x);
    if i < |ids| {
      assert ids == ids[..i] + [x] + ids[i + 1..];
      RemoveFrom(pad, ids[..i], x, ids[i + 1..]);
    }
  }

  function Channels(rows: seq<Row>): (r: seq<string>)
    ensures |r| == |rows| && forall i :: 0 <= i < |rows| ==> r[i] == rows[i].channel
  {
    seq(|rows|, i requires 0 <= i < |rows| => rows[i].channel)
  }

  /** `rows.get`: the row of a channel that has unseen messages now. */
  function RowOf(rows: seq<Row>, c: string): Option<Row> {
    if rows == [] then None else if rows[|rows| - 1].channel == c then Some(rows[|rows| - 1])
        else RowOf(rows[..|rows| - 1], c)
  }

  /** A channel has a row exactly when one of the rows is its, and then that one is found. */
  lemma {:induction false} RowOfIff(rows: seq<Row>, c: string)
    ensures RowOf(rows, c).Some? <==> exists i :: 0 <= i < |rows| && rows[i].channel == c
    ensures RowOf(rows, c).Some? ==> RowOf(rows, c).value in rows && RowOf(rows, c).value.channel == c
  {
    if rows != [] {
      var n := |rows| - 1;
      RowOfIff(rows[..n], c);
      assert forall i :: 0 <= i < n ==> rows[..n][i] == rows[i];
      assert forall r :: r in rows[..n] ==> r in rows;
    }
  }

  /** When no two rows have one channel, each row is the row of its channel. */
  lemma {:induction false} OwnRow(rows: seq<Row>, i: nat)
    requires Distinct(Channels(rows)) && i < |rows|
    ensures RowOf(rows, rows[i].channel) == Some(rows[i])
  {
    var n := |rows| - 1;
    if i < n {
      assert Channels(rows)[i] != Channels(rows)[n];
      assert Channels(rows[..n]) == Channels(rows)[..n];
      OwnRow(rows[..n], i);
    }
  }

  /** The channels that show: the first 20 rows in the plugin's order. */
  function Wanted(rows: seq<Row>): seq<string> {
    Channels(rows)[..if |rows| < MAX_CHILDREN then |rows| else MAX_CHILDREN]
  }

  /** The list with what is already in `shown` first, and as many of `more` behind it as fit. */
  function Extend(shown: seq<string>, more: seq<string>): seq<string> {
    if more == [] then shown
    else
      var base := Extend(shown, more[..|more| - 1]);
      var c := more[|more| - 1];
      if |base| >= MAX_CHILDREN || c in base then base else base + [c]
  }

  /** The children that show `list`, in its order. */
  function Children(list: seq<string>, f: string -> Fields): seq<Kid> {
    seq(|list|, i requires 0 <= i < |list| => Kid(list[i], f(list[i])))
  }

  class Plugin {
    const id: string
    const topOf: seq<Row> -> Fields
    const childOf: (string, Option<Row>) -> Fields
    var sent: map<string, Node>
    var shown: seq<string>
    var known: bool
    var leftovers: seq<string>

    constructor (id: string, topOf: seq<Row> -> Fields, childOf: (string, Option<Row>) -> Fields)
      ensures this.id == id && this.topOf == topOf && this.childOf == childOf
      ensures sent == map[] && shown == [] && !known && leftovers == []
    {
      this.id, this.topOf, this.childOf := id, topOf, childOf;
      sent, shown, known, leftovers := map[], [], false, [];
    }

    /** The values on record for the key itself are the ones it has. */
    ghost predicate TopRight(top: Option<Fields>)
      reads this
    {
      id in sent && sent[id].Top? ==> top == Some(sent[id].fields)
    }

    /** The record agrees with the pad. Until the children on the pad are known, it only bounds them. */
    ghost predicate Agrees(pad: Pad)
      reads this
    {
      && |shown| <= MAX_CHILDREN && Distinct(shown) && Distinct(Ids(pad.kids))
      && TopRight(pad.top)
      && if known then Ids(pad.kids) == shown && SentShows(sent, pad.kids)
         else (forall c :: c in sent && sent[c].Child? ==> c in shown)
              && (forall c :: c in Ids(pad.kids) ==> c in leftovers || c in shown)
    }

    /** `reset`, on every connect: the pad may hold children of an earlier daemon. */
    method Reset(channels: seq<string>, ghost pad: Pad)
      requires Distinct(Ids(pad.kids)) && forall c :: c in Ids(pad.kids) ==> c in channels
      modifies this
      ensures Agrees(pad) && !known && shown == [] && leftovers == channels
    {
      sent, shown, known, leftovers := map[], [], false, channels;
    }

    /** `set`: sends the node unless the last values sent for that key are the same. */
    method Set(out: seq<Message>, key: string, node: Node, m: Message) returns (more: seq<Message>)
      modifies this`sent
      ensures if key in old(sent) && old(sent)[key] == node then more == out && sent == old(sent)
              else more == out + [m] && sent == old(sent)[key := node]
    {
      if key in sent && sent[key] == node {
        return out;
      }
      sent := sent[key := node];
      more := out + [m];
    }

    /** The pad takes the next message for `c`, and `sent` describes the pad. */
    ghost predicate Ready(pad: Pad, out: seq<Message>, c: string, n: nat)
      reads this
    {
      OnTrack(pad, out, n) && n <= MAX_CHILDREN
      && (c in Ids(ApplyAll(pad, out).kids) || |ApplyAll(pad, out).kids| < n)
    }

    /** `setChild`: afterwards a pad that was ready shows the channel with these fields. */
    method DrawChild(out: seq<Message>, c: string, f: Fields, ghost pad: Pad, ghost n: nat)
        returns (more: seq<Message>)
      modifies this`sent
      ensures sent == old(sent)[c := Child(f)]
      ensures more == if c in old(sent) && old(sent)[c] == Child(f) then out else out + [SetChild(c, f)]
      ensures OnlyDraws(out, more) && forall g :: Draws(out, g) ==> Draws(more, g)
      ensures AllFit(out, id) && Layers.FieldsOk(c, f) ==> AllFit(more, id)
      ensures old(Ready(pad, out, c, n)) ==>
                var now, next := ApplyAll(pad, out), ApplyAll(pad, more);
                && OnTrack(pad, more, n) && next.top == now.top && ShowsAs(next.kids, c, f)
                && Ids(next.kids) == (if c in Ids(now.kids) then Ids(now.kids) else Ids(now.kids) + [c])
                && forall d, g :: d != c && ShowsAs(now.kids, d, g) ==> ShowsAs(next.kids, d, g)
      ensures Distinct(Ids(ApplyAll(pad, out).kids)) ==>
                var now, next := ApplyAll(pad, out), ApplyAll(pad, more);
                next.top == now.top && Distinct(Ids(next.kids)) && forall x :: x in Ids(next.kids) ==>
                    x in Ids(now.kids) || x == c
    {
      hide Find, Apply, ApplyAll, AllAccepted, Ids, Distinct;
      ghost var now := ApplyAll(pad, out);
      FindNone(now.kids, c);
      if Distinct(Ids(now.kids)) && Accepts(now, SetChild(c, f)) {
        SetFacts(now, c, f);
      }
      ApplyOne(pad, out, SetChild(c, f), n);
      more := Set(out, c, Child(f), SetChild(c, f));
      RefusedChangesNothing(now, SetChild(c, f));
    }

    /** `removeChild`: afterwards the pad does not show the channel, and nothing is on record for it. */
    method DropChild(out: seq<Message>, c: string, ghost pad: Pad, ghost n: nat) returns (more: seq<Message>)
      requires AllAccepted(pad, out, n) && Distinct(Ids(ApplyAll(pad, out).kids))
      modifies this`sent
      ensures more == out + [RemoveChild(c)] && sent == old(sent) - {c} && AllAccepted(pad, more, n)
      ensures (AllFit(out, id) ==> AllFit(more, id)) && OnlyDrops(out, more)
      ensures ApplyAll(pad, more) == Apply(ApplyAll(pad, out), RemoveChild(c))
    {
      ApplyOne(pad, out, RemoveChild(c), n);
      sent := sent - {c};
      more := out + [RemoveChild(c)];
    }

    /** The messages so far were all taken, and left a pad that `sent` describes. */
    ghost predicate OnTrack(pad: Pad, out: seq<Message>, n: nat)
      reads this
    {
      var now := ApplyAll(pad, out);
      && AllAccepted(pad, out, n) && now.top.Some? && TopRight(now.top)
      && Distinct(Ids(now.kids)) && SentShows(sent, now.kids)
    }

    /** The values of the key itself are still on record, unless a channel of `gone` has its name. */
    predicate KeepsTop(before: map<string, Node>, gone: seq<string>)
      reads this`sent
    {
      id in before && id !in gone ==> id in sent && sent[id] == before[id]
    }

    method SendTop(f: Fields, ghost pad: Pad, ghost n: nat) returns (out: seq<Message>)
      requires TopRight(pad.top)
      modifies this`sent
      ensures ApplyAll(pad, out) == pad.(top := Some(f)) && AllAccepted(pad, out, n) && TopRight(Some(f))
      ensures (out == [] || out == [SetTop(f)]) && Draws(out, f) && (Layers.FieldsOk(id, f) ==> AllFit(out, id))
      ensures forall c :: c in sent && sent[c].Child? ==> c in old(sent) && sent[c] == old(sent)[c]
      ensures sent == old(sent)[id := Top(f)] && (sent == old(sent) ==> out == [])
    {
      ApplyOne(pad, [], SetTop(f), n);
      out := Set([], id, Top(f), SetTop(f));
    }

    /** The first closed plan after a connect: every child the pad may hold goes. */
    method DropEverything(out: seq<Message>, ghost pad: Pad, ghost n: nat)
        returns (more: seq<Message>)
      requires var now := ApplyAll(pad, out);
               && AllAccepted(pad, out, n) && now.top.Some? && TopRight(now.top) && Distinct(Ids(now.kids))
               && (forall c :: c in sent && sent[c].Child? ==> c in shown)
               && (forall c :: c in Ids(now.kids) ==> c in leftovers || c in shown)
      modifies this
      ensures (AllFit(out, id) ==> AllFit(more, id)) && OnlyDrops(out, more)
      ensures OnTrack(pad, more, n) && ApplyAll(pad, more).kids == []
              && ApplyAll(pad, more).top == ApplyAll(pad, out).top
      ensures known && shown == [] && leftovers == [] && KeepsTop(old(sent), old(leftovers + shown))
    {
      hide Find, Apply, ApplyAll, AllAccepted, AllFit, OnlyDrops, Ids, Distinct, SentShows, ShowsAs;
      more := out;
      NothingMore(out);
      var done: set<string> := {};
      var gone := leftovers + shown;
      for i := 0 to |gone|
        invariant (AllFit(out, id) ==> AllFit(more, id)) && OnlyDrops(out, more)
        invariant shown == old(shown) && leftovers == old(leftovers) && KeepsTop(old(sent), gone)
        invariant var now := ApplyAll(pad, more);
                  AllAccepted(pad, more, n) && now.top == ApplyAll(pad, out).top && TopRight(now.top)
                      && Distinct(Ids(now.kids))
        invariant forall c :: c in sent && sent[c].Child? ==> c in shown && c !in done
        invariant forall c :: c in Ids(ApplyAll(pad, more).kids) ==> (c in leftovers || c in shown) && c !in done
        invariant forall j :: 0 <= j < i ==> gone[j] in done
      {
        if gone[i] in done {
          continue;
        }
        RemoveFacts(ApplyAll(pad, more), gone[i]);
        ghost var before := more;
        more := DropChild(more, gone[i], pad, n);
        DropsOn(out, before, more);
        done := done + {gone[i]};
      }
      NothingLeft(ApplyAll(pad, more).kids, gone, done, leftovers, shown);
      assert SentShows(sent, ApplyAll(pad, more).kids) by {
        NoChildSent(sent, gone, done, leftovers, shown, ApplyAll(pad, more).kids);
      }
      shown, leftovers, known := [], [], true;
    }

    /** Closed: the channels that are not wanted go, the others keep their order. */
    method DropUnwanted(out: seq<Message>, wanted: seq<string>, ghost pad: Pad, ghost n: nat)
        returns (more: seq<Message>)
      requires OnTrack(pad, out, n) && Ids(ApplyAll(pad, out).kids) == shown
      modifies this`sent
      ensures (AllFit(out, id) ==> AllFit(more, id)) && OnlyDrops(out, more)
      ensures OnTrack(pad, more, n) && ApplyAll(pad, more).top == ApplyAll(pad, out).top
      ensures Ids(ApplyAll(pad, more).kids) == Stay(shown, wanted)
      ensures KeepsTop(old(sent), shown) && (shown == wanted ==> more == out && sent == old(sent))
    {
      hide Find, Apply, ApplyAll, AllAccepted, AllFit, OnlyDrops, Ids, Distinct, ShowsAs, SentShows, Stay;
      more := out;
      NothingMore(out);
      StayStart(shown, wanted);
      for i := 0 to |shown|
        invariant (AllFit(out, id) ==> AllFit(more, id)) && OnlyDrops(out, more)
        invariant OnTrack(pad, more, n) && ApplyAll(pad, more).top == ApplyAll(pad, out).top
        invariant Ids(ApplyAll(pad, more).kids) == Stay(shown[..i], wanted) + shown[i..]
        invariant KeepsTop(old(sent), shown) && (shown == wanted ==> more == out && sent == old(sent))
      {
        StayStep(shown, i, wanted);
        if shown[i] !in wanted {
          assert shown != wanted;
          KeepsSent(sent, ApplyAll(pad, more), Stay(shown[..i], wanted), shown[i], shown[i + 1..]);
          ghost var before := more;
          more := DropChild(more, shown[i], pad, n);
          DropsOn(out, before, more);
        }
      }
      assert shown[..|shown|] == shown;
    }

    /** Closed: from the first channel out of its wanted place on, all go, to come back in order. */
    method DropMoved(out: seq<Message>, stay: seq<string>, same: nat, ghost pad: Pad, ghost n: nat)
        returns (more: seq<Message>)
      requires OnTrack(pad, out, n) && Ids(ApplyAll(pad, out).kids) == stay && same <= |stay|
      modifies this`sent
      ensures (AllFit(out, id) ==> AllFit(more, id)) && OnlyDrops(out, more)
      ensures OnTrack(pad, more, n) && ApplyAll(pad, more).top == ApplyAll(pad, out).top
      ensures Ids(ApplyAll(pad, more).kids) == stay[..same]
      ensures KeepsTop(old(sent), stay) && (same == |stay| ==> more == out && sent == old(sent))
    {
      hide Find, Apply, ApplyAll, AllAccepted, AllFit, OnlyDrops, Ids, Distinct, ShowsAs, SentShows;
      more := out;
      NothingMore(out);
      assert stay == stay[..same] + stay[same..];
      for i := same to |stay|
        invariant (AllFit(out, id) ==> AllFit(more, id)) && OnlyDrops(out, more)
        invariant OnTrack(pad, more, n) && ApplyAll(pad, more).top == ApplyAll(pad, out).top
        invariant Ids(ApplyAll(pad, more).kids) == stay[..same] + stay[i..]
        invariant KeepsTop(old(sent), stay) && (same == |stay| ==> more == out && sent == old(sent))
      {
        assert stay[i..] == [stay[i]] + stay[i + 1..];
        KeepsSent(sent, ApplyAll(pad, more), stay[..same], stay[i], stay[i + 1..]);
        ghost var before := more;
        more := DropChild(more, stay[i], pad, n);
        DropsOn(out, before, more);
      }
    }

    /** Closed: all goes that is not wanted or not in its wanted place. The first `same` wanted channels are left. */
    method DropMisplaced(out: seq<Message>, wanted: seq<string>, ghost pad: Pad, ghost n: nat)
        returns (more: seq<Message>, same: nat)
      requires OnTrack(pad, out, n) && Ids(ApplyAll(pad, out).kids) == shown
      modifies this`sent
      ensures (AllFit(out, id) ==> AllFit(more, id)) && OnlyDrops(out, more)
      ensures OnTrack(pad, more, n) && ApplyAll(pad, more).top == ApplyAll(pad, out).top
      ensures same == Common(Stay(shown, wanted), wanted) && Ids(ApplyAll(pad, more).kids) == wanted[..same]
      ensures KeepsTop(old(sent), shown) && (shown == wanted ==> more == out && sent == old(sent))
    {
      hide OnTrack, AllFit, OnlyDrops, ApplyAll, Ids, Stay;
      var stay := Stay(shown, wanted);
      StayFrom(shown, wanted);
      StayAll(shown);
      more := DropUnwanted(out, wanted, pad, n);
      ghost var before := more;
      same := 0;
      while same < |stay| && same < |wanted| && stay[same] == wanted[same]
        invariant same <= |stay| && same <= |wanted| && stay[..same] == wanted[..same]
        invariant stay == wanted ==> stay[same..] == wanted[same..]
        invariant Common(stay, wanted) == same + Common(stay[same..], wanted[same..])
      {
        same := same + 1;
      }
      more := DropMoved(more, stay, same, pad, n);
      DropsOn(out, before, more);
    }

    /** The channel has a name, and fields that the tree takes. */
    predicate Fits(c: string, rows: seq<Row>) {
      Layers.FieldsOk(c, childOf(c, RowOf(rows, c)))
    }

    /** The values of the key and of every channel of the list are ones that the tree takes. */
    predicate ListFits(list: seq<string>, rows: seq<Row>) {
      Layers.FieldsOk(id, topOf(rows)) && forall i :: 0 <= i < |list| ==> Fits(list[i], rows)
    }

    /** The first `n` channels of the list are on record with the fields they have for these rows. */
    ghost predicate OnRecord(list: seq<string>, n: nat, rows: seq<Row>)
      reads this`sent
    {
      forall i :: 0 <= i < n <= |list| ==>
        list[i] in sent && sent[list[i]] == Child(childOf(list[i], RowOf(rows, list[i])))
    }

    /** All that a closed plan for these rows would send is on record, in its place. */
    ghost predicate UpToDate(rows: seq<Row>)
      reads this
    {
      known && shown == Wanted(rows) && id in sent && sent[id] == Top(topOf(rows)) && OnRecord(shown, |shown|, rows)
    }

    /** Draws every channel of `list`, of which the pad has the first `same`. */
    method DrawAll(out: seq<Message>, list: seq<string>, same: nat, rows: seq<Row>, ghost pad: Pad, ghost n: nat)
        returns (more: seq<Message>)
      requires OnTrack(pad, out, n) && same <= |list| == n <= MAX_CHILDREN && Distinct(list)
      requires Ids(ApplyAll(pad, out).kids) == list[..same]
      modifies this`sent
      ensures AllFit(out, id) && ListFits(list, rows) ==> AllFit(more, id)
      ensures OnTrack(pad, more, n) && ApplyAll(pad, more).top == ApplyAll(pad, out).top
      ensures Ids(ApplyAll(pad, more).kids) == list && OnlyDraws(out, more)
      ensures forall i :: 0 <= i < |list| ==>
                ShowsAs(ApplyAll(pad, more).kids, list[i], childOf(list[i], RowOf(rows, list[i])))
      ensures KeepsTop(old(sent), list) && OnRecord(list, |list|, rows)
              && (old(OnRecord(list, |list|, rows)) ==> more == out && sent == old(sent))
    {
      hide Find, Apply, ApplyAll, AllAccepted, Accepts, Ids, ShowsAs, SentShows, RowOf, OnlyDraws, AllFit, Draws,
        Layers.FieldsOk, Plugin.OnTrack;
      more := out;
      NothingMore(out);
      for j := 0 to |list|
        invariant AllFit(out, id) && ListFits(list, rows) ==> AllFit(more, id)
        invariant OnTrack(pad, more, n) && ApplyAll(pad, more).top == ApplyAll(pad, out).top
        invariant Ids(ApplyAll(pad, more).kids) == list[..if j < same then same else j] && OnlyDraws(out, more)
        invariant forall i :: 0 <= i < j ==>
                    ShowsAs(ApplyAll(pad, more).kids, list[i], childOf(list[i], RowOf(rows, list[i])))
        invariant KeepsTop(old(sent), list) && OnRecord(list, j, rows)
                  && (old(OnRecord(list, |list|, rows)) ==> more == out && sent == old(sent))
      {
        assert j < same ==> list[j] == list[..same][j];
        assert list[..j + 1] == list[..j] + [list[j]];
        ghost var before := more;
        more := DrawChild(more, list[j], childOf(list[j], RowOf(rows, list[j])), pad, n);
        DrawsOn(out, before, more);
      }
    }

    /** The fields a channel shows for these rows. */
    function FieldsFor(rows: seq<Row>): string -> Fields {
      c => childOf(c, RowOf(rows, c))
    }

    /** The channels that a closed plan leaves where they are. */
    function Staying(rows: seq<Row>): seq<string>
      reads this
    {
      Wanted(rows)[..if known then Common(Stay(shown, Wanted(rows)), Wanted(rows)) else 0]
    }

    /** The key and its children, without the functions of the renderer: child `i` is the channel of row `i`, with
        the fields of that row, for the first 20 rows. */
    ghost predicate ShowsRows(pad: Pad, rows: seq<Row>) {
      && pad.top == Some(topOf(rows)) && |pad.kids| == (if |rows| < 20 then |rows| else 20)
      && forall i :: 0 <= i < |pad.kids| ==>
           pad.kids[i] == Kid(rows[i].channel, childOf(rows[i].channel, Some(rows[i])))
    }

    /** These are the fields of channel `c`: those of its row, or without one those of a channel at zero. */
    ghost predicate HasFields(c: string, f: Fields, rows: seq<Row>) {
      && (forall i :: 0 <= i < |rows| && rows[i].channel == c ==> f == childOf(c, Some(rows[i])))
      && ((forall i :: 0 <= i < |rows| ==> rows[i].channel != c) ==> f == childOf(c, None))
    }

    /** The key shows the channels of the list in order, each with its fields. */
    ghost predicate ShowsList(pad: Pad, list: seq<string>, rows: seq<Row>) {
      && pad.top == Some(topOf(rows)) && |pad.kids| == |list|
      && forall i :: 0 <= i < |list| ==> pad.kids[i].id == list[i] && HasFields(list[i], pad.kids[i].fields, rows)
    }

    /** The values of the key and of every channel of the list are ones that the tree takes. */
    ghost predicate ListLegal(list: seq<string>, rows: seq<Row>) {
      && Layers.FieldsOk(id, topOf(rows))
      && forall i, f :: 0 <= i < |list| && HasFields(list[i], f, rows) ==> Layers.FieldsOk(list[i], f)
    }

    lemma ListLegalIff(list: seq<string>, rows: seq<Row>)
      requires Distinct(Channels(rows))
      ensures ListLegal(list, rows) <==> ListFits(list, rows)
    {
      hide RowOf, HasFields, Distinct, Layers.FieldsOk;
      forall i, f | 0 <= i < |list|
        ensures HasFields(list[i], f, rows) <==> f == childOf(list[i], RowOf(rows, list[i]))
      {
        HasFieldsIff(list[i], f, rows);
      }
    }

    lemma HasFieldsIff(c: string, f: Fields, rows: seq<Row>)
      requires Distinct(Channels(rows))
      ensures HasFields(c, f, rows) <==> f == childOf(c, RowOf(rows, c))
    {
      hide RowOf, Distinct;
      RowOfIff(rows, c);
      forall i | 0 <= i < |rows| && rows[i].channel == c ensures RowOf(rows, c) == Some(rows[i]) {
        OwnRow(rows, i);
      }
    }

    lemma ShowsListIff(pad: Pad, list: seq<string>, rows: seq<Row>)
      requires Distinct(Channels(rows))
      ensures ShowsList(pad, list, rows) <==> pad == Pad(Some(topOf(rows)), Children(list, FieldsFor(rows)))
    {
      hide RowOf, HasFields, Distinct;
      forall i | 0 <= i < |list| && i < |pad.kids|
        ensures HasFields(list[i], pad.kids[i].fields, rows) <==> pad.kids[i].fields == childOf(list[i],
                  RowOf(rows, list[i]))
      {
        HasFieldsIff(list[i], pad.kids[i].fields, rows);
      }
      var all := Children(list, FieldsFor(rows));
      if ShowsList(pad, list, rows) {
        assert pad.kids == all;
      }
    }

    lemma ShowsRowsIff(pad: Pad, rows: seq<Row>)
      requires Distinct(Channels(rows))
      ensures ShowsRows(pad, rows) <==> pad == Pad(Some(topOf(rows)), Children(Wanted(rows), FieldsFor(rows)))
    {
      hide RowOf, Distinct;
      forall i | 0 <= i < |rows| ensures RowOf(rows, rows[i].channel) == Some(rows[i]) {
        OwnRow(rows, i);
      }
      var all := Children(Wanted(rows), FieldsFor(rows));
      if ShowsRows(pad, rows) {
        assert pad.kids == all;
      }
    }

    /** `plan` while another layer is open: nobody sees the children, so they go, move, and come. The first `cut`
        messages only take away, and the others only draw. */
    method PlanClosed(rows: seq<Row>, ghost pad: Pad) returns (out: seq<Message>, ghost cut: nat)
      requires Agrees(pad) && Distinct(Channels(rows))
      modifies this
      ensures Agrees(ApplyAll(pad, out)) && known && shown == Wanted(rows)
      ensures ApplyAll(pad, out) == Pad(Some(topOf(rows)), Children(Wanted(rows), FieldsFor(rows)))
      ensures ShowsRows(ApplyAll(pad, out), rows)
      ensures AllAccepted(pad, out, |Wanted(rows)|) && (ListFits(Wanted(rows), rows) ==> AllFit(out, id))
      ensures cut <= |out| && Clears(out[..cut], topOf(rows)) && OnlyDraws([], out[cut..])
      ensures Ids(ApplyAll(pad, out[..cut]).kids) == old(Staying(rows))
      ensures old(UpToDate(rows)) ==> out == [] && UpToDate(rows)
      ensures id !in old(leftovers + shown) + Wanted(rows) ==> UpToDate(rows)
    {
      hide Find, Apply, ApplyAll, AllAccepted, AllFit, OnlyDrops, OnlyDraws, Clears, Ids, ShowsAs, Fits, Wanted,
           Common, Stay, ShowsRows, Channels, Distinct;
      var wanted := Wanted(rows);
      WantedDistinct(rows);
      var same;
      out, same := Clear(rows, wanted, pad);
      ghost var cleared := out;
      out := DrawAll(out, wanted, same, rows, pad, |wanted|);
      cut := |cleared|;
      JustDraws(cleared, out);
      shown := wanted;
      KidsAre(ApplyAll(pad, out).kids, wanted, FieldsFor(rows));
      ShowsRowsIff(ApplyAll(pad, out), rows);
    }

    /** The first half: the key's own values, and all goes that is not wanted where it is. */
    method Clear(rows: seq<Row>, wanted: seq<string>, ghost pad: Pad) returns (out: seq<Message>, same: nat)
      requires Agrees(pad)
      modifies this
      ensures known && OnTrack(pad, out, |wanted|) && Clears(out, topOf(rows))
              && (Layers.FieldsOk(id, topOf(rows)) ==> AllFit(out, id))
      ensures same == old(if known then Common(Stay(shown, wanted), wanted) else 0) && same <= |wanted|
      ensures ApplyAll(pad, out).top == Some(topOf(rows)) && Ids(ApplyAll(pad, out).kids) == wanted[..same]
      ensures id !in old(leftovers + shown) ==> id in sent && sent[id] == Top(topOf(rows))
      ensures old(known && shown == wanted && id in sent && sent[id] == Top(topOf(rows))) ==>
                out == [] && sent == old(sent)
    {
      hide Find, Apply, ApplyAll, AllAccepted, AllFit, OnlyDrops, OnlyDraws, Clears, Ids, ShowsAs, Common, Stay,
           Distinct;
      out := SendTop(topOf(rows), pad, |wanted|);
      ghost var top := out;
      NothingMore(top);
      if !known {
        out := DropEverything(out, pad, |wanted|);
        EmptyIds();
        NothingStays(wanted);
      }
      ghost var before := out;
      out, same := DropMisplaced(out, wanted, pad, |wanted|);
      DropsOn(top, before, out);
      JustClears(top, out, topOf(rows));
    }

    /** Everything the open plan keeps, the stronger part on a pad whose children are known.
        `goal` is the list it ends with. */
    ghost predicate OpenState(pad: Pad, out: seq<Message>, n: nat, rows: seq<Row>, goal: seq<string>)
      reads this
    {
      && n <= |shown| && shown <= goal && |goal| <= MAX_CHILDREN && Loose(pad, out) && Draws(out, topOf(rows))
      && (ListFits(goal, rows) ==> AllFit(out, id))
      && (known ==>
            && OnTrack(pad, out, |goal|) && Ids(ApplyAll(pad, out).kids) == shown
            && ApplyAll(pad, out).top == Some(topOf(rows)) && DrawnUpTo(ApplyAll(pad, out).kids, n, rows))
    }

    /** Open: every child is drawn again where it is. */
    method Redraw(out: seq<Message>, rows: seq<Row>, ghost pad: Pad, ghost goal: seq<string>)
        returns (more: seq<Message>)
      requires OpenState(pad, out, 0, rows, goal)
      modifies this`sent
      ensures OpenState(pad, more, |shown|, rows, goal)
    {
      hide Find, Apply, ApplyAll, AllAccepted, AllFit, OnlyDraws, Draws, Ids, ShowsAs, SentShows;
      more := out;
      for i := 0 to |shown|
        invariant OpenState(pad, more, i, rows, goal)
      {
        assert shown[i] == goal[i];
        more := DrawChild(more, shown[i], childOf(shown[i], RowOf(rows, shown[i])), pad, |goal|);
      }
    }

    /** Open: wanted channels that are not shown come at the end, while there is a place. */
    method AddNew(out: seq<Message>, wanted: seq<string>, rows: seq<Row>, ghost pad: Pad)
        returns (more: seq<Message>)
      requires OpenState(pad, out, |shown|, rows, Extend(shown, wanted)) && Distinct(shown)
      modifies this`sent, this`shown
      ensures Distinct(shown) && shown == Extend(old(shown), wanted)
      ensures OpenState(pad, more, |shown|, rows, shown)
    {
      hide Find, Apply, ApplyAll, AllAccepted, AllFit, OnlyDraws, Draws, Extend, Ids, ShowsAs, SentShows;
      more := out;
      ghost var goal := Extend(shown, wanted);
      ExtendNext(shown, [], 0);
      assert wanted[..0] == [];
      for j := 0 to |wanted|
        invariant shown == Extend(old(shown), wanted[..j]) && Distinct(shown)
        invariant OpenState(pad, more, |shown|, rows, goal)
      {
        ExtendNext(old(shown), wanted, j);
        if |shown| >= MAX_CHILDREN {
          FullStays(old(shown), wanted, j);
          return;
        }
        if wanted[j] in shown {
          continue;
        }
        ExtendGrows(old(shown), wanted, j + 1);
        assert goal[|shown|] == wanted[j];
        more := DrawChild(more, wanted[j], childOf(wanted[j], RowOf(rows, wanted[j])), pad, |goal|);
        shown := shown + [wanted[j]];
      }
      assert wanted[..|wanted|] == wanted;
    }

    /** `plan` while the layer is open: no key moves or goes, and a new one goes at the end. */
    method PlanOpen(rows: seq<Row>, ghost pad: Pad) returns (out: seq<Message>)
      requires Agrees(pad) && Distinct(Channels(rows))
      modifies this
      ensures Agrees(ApplyAll(pad, out)) && known == old(known)
      ensures shown == Extend(old(shown), Wanted(rows)) && old(shown) <= shown
      ensures known ==> AllAccepted(pad, out, |shown|)
      ensures known ==> ApplyAll(pad, out) == Pad(Some(topOf(rows)), Children(shown, FieldsFor(rows)))
      ensures known ==> ShowsList(ApplyAll(pad, out), shown, rows)
      ensures Draws(out, topOf(rows)) && (ListFits(shown, rows) ==> AllFit(out, id))
    {
      hide Find, Apply, ApplyAll, AllAccepted, AllFit, OnlyDraws, Draws, Ids, ShowsAs, Wanted, Fits, ShowsList;
      ghost var goal := Extend(shown, Wanted(rows));
      assert Wanted(rows)[..0] == [];
      ExtendGrows(shown, Wanted(rows), 0);
      out := SendTop(topOf(rows), pad, |goal|);
      out := Redraw(out, rows, pad, goal);
      out := AddNew(out, Wanted(rows), rows, pad);
      if known {
        KidsAre(ApplyAll(pad, out).kids, shown, FieldsFor(rows));
        ShowsListIff(ApplyAll(pad, out), shown, rows);
      }
    }

    /** What is kept on a pad whose children are not known. */
    ghost predicate Loose(pad: Pad, out: seq<Message>)
      reads this
    {
      var now := ApplyAll(pad, out);
      && Distinct(Ids(now.kids)) && TopRight(now.top)
      && (!known ==> (forall c :: c in sent && sent[c].Child? ==> c in shown)
                     && forall c :: c in Ids(now.kids) ==> c in leftovers || c in shown)
    }

    ghost predicate DrawnUpTo(kids: seq<Kid>, n: nat, rows: seq<Row>)
      reads this
    {
      forall i :: 0 <= i < n <= |shown| ==> ShowsAs(kids, shown[i], childOf(shown[i], RowOf(rows, shown[i])))
    }
  }

  lemma JustDraws(out: seq<Message>, more: seq<Message>)
    requires OnlyDraws(out, more)
    ensures |out| <= |more| && more[..|out|] == out && OnlyDraws([], more[|out|..])
  {
  }

  lemma JustClears(top: seq<Message>, out: seq<Message>, f: Fields)
    requires (top == [] || top == [SetTop(f)]) && OnlyDrops(top, out)
    ensures Clears(out, f)
  {
  }

  lemma NothingStays(wanted: seq<string>)
    ensures Common(Stay([], wanted), wanted) == 0
  {
  }

  lemma EmptyIds()
    ensures Ids([]) == []
  {
  }

  lemma {:induction false} FullStays(shown: seq<string>, more: seq<string>, j: nat)
    requires j <= |more| && |Extend(shown, more[..j])| >= MAX_CHILDREN
    ensures Extend(shown, more) == Extend(shown, more[..j])
    decreases |more|
  {
    if j < |more| {
      var init := more[..|more| - 1];
      assert init[..j] == more[..j];
      FullStays(shown, init, j);
    } else {
      assert more[..j] == more;
    }
  }

  /** An extended list has what it had, then channels of `more` in their order, up to one place in `more`: the end of
      it, or where the list is full. */
  ghost predicate Extends(r: seq<string>, shown: seq<string>, more: seq<string>, k: nat) {
    && shown <= r && k <= |more| && (k < |more| ==> |r| >= 20)
    && (forall x :: x in r <==> x in shown || x in more[..k])
    && (forall i :: |shown| <= i < |r| ==> r[i] !in r[..i])
    && forall i, j :: |shown| <= i < j < |r| ==> Precedes(more, r[i], r[j])
  }

  lemma {:induction false} ExtendIs(shown: seq<string>, more: seq<string>) returns (k: nat)
    ensures Extends(Extend(shown, more), shown, more, k)
  {
    hide Extends;
    if more == [] {
      k := 0;
      ExtendsNothing(shown);
    } else {
      k := ExtendIs(shown, more[..|more| - 1]);
      var base := Extend(shown, more[..|more| - 1]);
      if |base| >= MAX_CHILDREN {
        ExtendsFull(base, shown, more, k);
      } else {
        k := ExtendsOne(base, shown, more, k);
      }
    }
  }

  lemma ExtendsNothing(shown: seq<string>)
    ensures Extends(shown, shown, [], 0)
  {
  }

  lemma ExtendsFull(base: seq<string>, shown: seq<string>, more: seq<string>, k: nat)
    requires more != [] && Extends(base, shown, more[..|more| - 1], k) && |base| >= 20
    ensures Extends(base, shown, more, k)
  {
    hide Precedes;
    assert more[..|more| - 1][..k] == more[..k];
    EarlierPrecedes(base, shown, more, k);
  }

  lemma ExtendsOne(base: seq<string>, shown: seq<string>, more: seq<string>, k: nat) returns (m: nat)
    requires more != [] && Extends(base, shown, more[..|more| - 1], k) && |base| < 20
    ensures var c := more[|more| - 1]; Extends(if c in base then base else base + [c], shown, more, m)
  {
    hide Precedes;
    m := |more|;
    assert more[..k][..k] == more[..k] && more[..m] == more == more[..k] + [more[k]];
    EarlierPrecedes(base, shown, more, k);
    LastPrecedes(base, shown, more);
    if more[k] !in base {
      var r := base + [more[k]];
      forall i, j | |shown| <= i < j < |r| ensures Precedes(more, r[i], r[j]) {
        assert j == |base| ==> base[i] !in base[..i];
      }
    }
  }

  lemma EarlierPrecedes(base: seq<string>, shown: seq<string>, more: seq<string>, k: nat)
    requires more != [] && Extends(base, shown, more[..|more| - 1], k)
    ensures forall i, j :: |shown| <= i < j < |base| ==> Precedes(more, base[i], base[j])
  {
    var init := more[..|more| - 1];
    forall i, j | |shown| <= i < j < |base| ensures Precedes(more, base[i], base[j]) {
      assert Precedes(init, base[i], base[j]);
      var a, b :| 0 <= a < b < |init| && init[a] == base[i] && init[b] == base[j];
      assert more[a] == base[i] && more[b] == base[j];
    }
  }

  lemma LastPrecedes(base: seq<string>, shown: seq<string>, more: seq<string>)
    requires more != [] && Extends(base, shown, more[..|more| - 1], |more| - 1)
    ensures forall i :: |shown| <= i < |base| ==> Precedes(more, base[i], more[|more| - 1])
  {
    var n := |more| - 1;
    forall i | |shown| <= i < |base| ensures Precedes(more, base[i], more[n]) {
      assert base[..i][..|shown|] == shown;
      assert forall a :: 0 <= a < |shown| ==> shown[a] == base[..i][a];
      assert base[i] in more[..n][..n];
      var a :| 0 <= a < n && more[..n][a] == base[i];
      assert more[a] == base[i];
    }
  }

  lemma ExtendNext(shown: seq<string>, more: seq<string>, j: nat)
    ensures Extend(shown, []) == shown
    ensures j < |more| ==>
              var base := Extend(shown, more[..j]);
              Extend(shown, more[..j + 1]) == if |base| >= MAX_CHILDREN || more[j] in base then base
                  else base + [more[j]]
  {
    assert j < |more| ==> more[..j + 1][..j] == more[..j];
  }

  lemma {:induction false} ExtendGrows(shown: seq<string>, more: seq<string>, j: nat)
    requires j <= |more| && |shown| <= MAX_CHILDREN
    ensures shown <= Extend(shown, more[..j]) <= Extend(shown, more) && |Extend(shown, more)| <= MAX_CHILDREN
    decreases |more|
  {
    if more != [] {
      var init := more[..|more| - 1];
      ExtendGrows(shown, init, if j < |more| then j else |init|);
      assert j < |more| ==> init[..j] == more[..j];
      assert j == |more| ==> more[..j] == more && init[..|init|] == init;
    }
  }

  lemma RefusedChangesNothing(pad: Pad, m: Message)
    ensures !Accepts(pad, m) ==> Apply(pad, m) == pad
  {
  }

  /** A list of distinct channels, each shown with its fields, is the whole list of children. */
  lemma KidsAre(kids: seq<Kid>, list: seq<string>, f: string -> Fields)
    requires Ids(kids) == list && Distinct(list) && forall i :: 0 <= i < |list| ==> ShowsAs(kids, list[i], f(list[i]))
    ensures kids == Children(list, f)
  {
  }

  lemma {:induction false} WantedDistinct(rows: seq<Row>)
    requires Distinct(Channels(rows))
    ensures Distinct(Wanted(rows)) && |Wanted(rows)| <= MAX_CHILDREN
  {
  }

  lemma StayStart(s: seq<string>, wanted: seq<string>)
    ensures s == Stay(s[..0], wanted) + s[0..]
  {
  }

  lemma {:induction false} StayAll(s: seq<string>)
    ensures Stay(s, s) == s
  {
    StayPrefix(s, |s|);
    assert s[..|s|] == s;
  }

  lemma {:induction false} StayPrefix(s: seq<string>, i: nat)
    requires i <= |s|
    ensures Stay(s[..i], s) == s[..i]
  {
    if i > 0 {
      StayPrefix(s, i - 1);
      StayStep(s, i - 1, s);
    }
  }

  /** What stays was there. */
  lemma {:induction false} StayFrom(s: seq<string>, wanted: seq<string>)
    ensures forall x :: x in Stay(s, wanted) ==> x in s
  {
    if s != [] {
      StayFrom(s[..|s| - 1], wanted);
    }
  }

  lemma StayStep(s: seq<string>, i: nat, wanted: seq<string>)
    requires i < |s|
    ensures Stay(s[..i + 1], wanted) == Stay(s[..i], wanted) + if s[i] in wanted then [s[i]] else []
    ensures Stay(s[..i], wanted) + s[i..] == Stay(s[..i], wanted) + [s[i]] + s[i + 1..]
  {
    assert s[..i + 1][..i] == s[..i];
  }

  lemma KeepsSent(sent: map<string, Node>, pad: Pad, a: seq<string>, x: string, b: seq<string>)
    requires Ids(pad.kids) == a + [x] + b && Distinct(Ids(pad.kids)) && SentShows(sent, pad.kids)
    ensures var next := Apply(pad, RemoveChild(x));
            && next.top == pad.top && Ids(next.kids) == a + b && Distinct(Ids(next.kids))
            && SentShows(sent - {x}, next.kids)
  {
    RemoveFrom(pad, a, x, b);
    RemoveFacts(pad, x);
  }

  lemma NothingLeft(kids: seq<Kid>, gone: seq<string>, done: set<string>, leftovers: seq<string>, shown: seq<string>)
    requires gone == leftovers + shown && forall j :: 0 <= j < |gone| ==> gone[j] in done
    requires forall c :: c in Ids(kids) ==> (c in leftovers || c in shown) && c !in done
    ensures kids == []
  {
    assert kids != [] ==> Ids(kids)[0] in Ids(kids);
    forall c | c in leftovers || c in shown
      ensures c in done
    {
      assert c in gone;
    }
  }

  lemma NoChildSent(sent: map<string, Node>, gone: seq<string>, done: set<string>, leftovers: seq<string>,
      shown: seq<string>,
                    kids: seq<Kid>)
    requires gone == leftovers + shown && forall j :: 0 <= j < |gone| ==> gone[j] in done
    requires forall c :: c in sent && sent[c].Child? ==> c in shown && c !in done
    ensures SentShows(sent, kids)
  {
    forall c | c in shown
      ensures c in done
    {
      assert c in gone;
    }
  }

  // ---- The pad is a part of the daemon's tree ----

  function KidsOf(nodes: seq<Layers.Node>): (r: seq<Kid>)
    ensures |r| == |nodes| && forall i :: 0 <= i < |nodes| ==> r[i] == Kid(nodes[i].id, nodes[i].fields)
  {
    seq(|nodes|, i requires 0 <= i < |nodes| => Kid(nodes[i].id, nodes[i].fields))
  }

  /** The key `id` of the tree with its children, as the renderer sees it. */
  function PadOf(keys: Layers.Keys, id: string): Pad {
    var i := Layers.FindKey(keys, id);
    if i < |keys| then Pad(Some(keys[i].value.fields), KidsOf(keys[i].value.children)) else Pad(None, [])
  }

  lemma SameFind(nodes: seq<Layers.Node>, id: string)
    ensures Find(KidsOf(nodes), id) == Layers.FindChild(nodes, id)
  {
  }

  lemma SetKid(n: Layers.Node, id: string, f: Fields)
    ensures var kids, m := KidsOf(n.children), Layers.UpdateIn(n, [], id, f).value;
            && m.id == n.id && m.fields == n.fields
            && KidsOf(m.children) == if Find(kids, id) < |kids| then kids[Find(kids, id) := Kid(id, f)]
               else kids + [Kid(id, f)]
  {
    SameFind(n.children, id);
  }

  lemma PadOfReplaced(keys: Layers.Keys, top: string, m: Layers.Node)
    requires Layers.FindKey(keys, top) < |keys| && m.id == top
    ensures PadOf(keys[Layers.FindKey(keys, top) := Some(m)], top) == Pad(Some(m.fields), KidsOf(m.children))
  {
    Layers.FindsKeyAt(keys[Layers.FindKey(keys, top) := Some(m)], Layers.FindKey(keys, top));
  }

  /** A child's update through `applyUpdate` is `Apply` on the pad. */
  lemma UpdateIsSetChild(keys: Layers.Keys, top: string, id: string, f: Fields)
    requires id != "" && top != ""
    ensures var pad, next := PadOf(keys, top), Layers.UpdateAt(keys, [top], id, None, f);
            && (next.Some? <==> pad.top.Some?)
            && (Accepts(pad, SetChild(id, f)) ==> PadOf(next.value, top) == Apply(pad, SetChild(id, f)))
  {
    hide Find, Layers.UpdateIn, KidsOf;
    assert [top][1..] == [];
    var i := Layers.FindKey(keys, top);
    if i < |keys| {
      SetKid(keys[i].value, id, f);
      UpdateInHere(keys[i].value, id, f);
      PadOfReplaced(keys, top, Layers.UpdateIn(keys[i].value, [], id, f).value);
    }
  }

  lemma UpdateInHere(n: Layers.Node, id: string, f: Fields)
    ensures Layers.UpdateIn(n, [], id, f).Some?
  {
  }

  /** The tree takes a child exactly when its values are in order and the child is there already, or its key has
      a place and the tree has fewer than 200 nodes. */
  lemma ChildIsTaken(keys: Layers.Keys, top: string, id: string, f: Fields)
    requires Layers.TreeOk(keys) && Layers.UpdateAt(keys, [top], id, None, f).Some?
    ensures var kids, next := PadOf(keys, top).kids, Layers.UpdateAt(keys, [top], id, None, f).value;
            Layers.TreeOk(next) <==>
              && Layers.FieldsOk(id, f)
              && (Find(kids, id) < |kids| || (|kids| < MAX_CHILDREN && Layers.SizeKeys(keys) < Layers.MAX_NODES))
  {
    hide Layers.SizeKeys, Layers.FieldsOk, Layers.TreeOk, Find, Layers.FindChild, Layers.UpdateAt, Layers.NodeIn;
    Layers.UpdateRules(keys, [top], id, None, f);
    ChildAt(keys, top, id);
    SameFind(Layers.NodeAt(keys, [top]).value.children, id);
  }

  /** The node of the key, and whether it has the child. */
  lemma ChildAt(keys: Layers.Keys, top: string, id: string)
    requires Layers.NodeAt(keys, [top]).Some?
    ensures var n, i := Layers.NodeAt(keys, [top]).value, Layers.FindKey(keys, top);
            i < |keys| && n == keys[i].value && PadOf(keys, top) == Pad(Some(n.fields), KidsOf(n.children))
    ensures var c := Layers.NodeAt(keys, [top]).value.children;
            Layers.NodeAt(keys, [top] + [id]).Some? <==> Layers.FindChild(c, id) < |c|
  {
    hide Layers.FindKey, Layers.FindChild;
    assert ([top] + [id])[1..] == [id] && [top][1..] == [];
    ChildIn(Layers.NodeAt(keys, [top]).value, id);
  }

  lemma ChildIn(n: Layers.Node, id: string)
    ensures Layers.NodeIn(n, [id]).Some? <==> Layers.FindChild(n.children, id) < |n.children|
  {
    assert [id][1..] == [];
  }

  lemma DropKid(n: Layers.Node, id: string)
    ensures var kids, m := KidsOf(n.children), Layers.RemoveIn(n, [], id);
            && (m.Some? <==> Find(kids, id) < |kids|)
            && (m.Some? ==>
                  && m.value.id == n.id && m.value.fields == n.fields
                  && KidsOf(m.value.children) == kids[..Find(kids, id)] + kids[Find(kids, id) + 1..])
  {
    SameFind(n.children, id);
  }

  /** A child's removal through `applyRemove` is `Apply`. */
  lemma RemoveIsRemoveChild(keys: Layers.Keys, top: string, id: string)
    requires top != ""
    ensures var pad, next := PadOf(keys, top), Layers.RemoveAt(keys, [top], id);
            PadOf(if next.Some? then next.value else keys, top) == Apply(pad, RemoveChild(id))
  {
    hide Find, Layers.RemoveIn, KidsOf;
    assert [top][1..] == [];
    var i := Layers.FindKey(keys, top);
    if i < |keys| {
      DropKid(keys[i].value, id);
      var m := Layers.RemoveIn(keys[i].value, [], id);
      if m.Some? {
        PadOfReplaced(keys, top, m.value);
      }
    } else {
      assert Find([], id) == 0;
    }
  }

  /** The key's own update, where the daemon takes it, is `Apply`. */
  lemma UpdateIsSetTop(keys: Layers.Keys, top: string, slot: Option<int>, f: Fields)
    requires Layers.TreeOk(keys) && Layers.UpdateAt(keys, [], top, slot, f).Some?
    ensures PadOf(Layers.UpdateAt(keys, [], top, slot, f).value, top) == Apply(PadOf(keys, top), SetTop(f))
  {
    var next := Layers.UpdateAt(keys, [], top, slot, f).value;
    var t, cur := Layers.TargetSlot(keys, top, slot).value, Layers.FindKey(keys, top);
    forall j | 0 <= j < t ensures next[j].None? || next[j].value.id != top {
      if keys[j].Some? && keys[j].value.id == top {
        assert j == cur;
      }
    }
    Layers.FindsKeyAt(next, t);
  }
}
