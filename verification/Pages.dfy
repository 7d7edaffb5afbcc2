// driver/layers/pages.go: which child each key of a page shows, and how many pages a layer has.
module Pages {
  import opened Bits
  import opened Sizes

  const ONE_PAGE := 5
  const PER_PAGE := 4
  const UP_KEY := 3
  const LEFT_KEY := 3
  const RIGHT_KEY := 5

  datatype PageKey = Blank | Child(child: nat) | Up | Left | Right

  function PageCount(n: nat): nat {
    if n <= ONE_PAGE then 1 else (n - 1 + PER_PAGE - 1) / PER_PAGE
  }

  function Clamp(page: int, n: nat): int {
    var low := if page > PageCount(n) - 1 then PageCount(n) - 1 else page;
    if low < 0 then 0 else low
  }

  /** A page is clamped to the nearest one that the layer has. */
  lemma ClampIsNearest(page: int, n: nat, other: int)
    requires 0 <= other < PageCount(n)
    ensures 0 <= Clamp(page, n) < PageCount(n)
    ensures if page <= other then page <= Clamp(page, n) <= other else other <= Clamp(page, n) <= page
  {
  }

  /** The order in which the keys of a page take children. */
  const CHILD_KEYS: seq<nat> := [0, 1, 2, 4, 5]

  /** The place of `key` in that order, past the end for a key that takes none. */
  function PlaceOf(key: nat): nat {
    if key < 3 then key else if key == 4 then 3 else if key == 5 then 4 else 5
  }

  /** What `key` does on `page` of a layer with `n` children. */
  function RoleOf(n: nat, page: nat, key: nat): PageKey {
    if key == UP_KEY then if page > 0 then Left else Up
    else if key == RIGHT_KEY && page + 1 < PageCount(n) then Right
    else if PlaceOf(key) < ONE_PAGE && page * PER_PAGE + PlaceOf(key) < n then Child(page * PER_PAGE + PlaceOf(key))
    else Blank
  }

  /** `pageLayout`: no key is given a role twice, except that the left arrow takes the up key. */
  method PageLayout(n: nat, page: nat) returns (out: array<PageKey>)
    ensures fresh(out) && out.Length == KEY_COUNT
    ensures forall key :: 0 <= key < KEY_COUNT ==> out[key] == RoleOf(n, page, key)
  {
    out := new PageKey[KEY_COUNT](_ => Blank);
    var pages := PageCount(n);
    out[UP_KEY] := Up;
    if page > 0 {
      out[LEFT_KEY] := Left;
    }
    var keys := ONE_PAGE;
    if page + 1 < pages {
      out[RIGHT_KEY] := Right;
      keys := PER_PAGE;
    }
    var first := page * PER_PAGE;
    for j := 0 to keys
      invariant forall key :: 0 <= key < KEY_COUNT ==>
                  out[key] == if PlaceOf(key) < j || key == UP_KEY || (key == RIGHT_KEY && keys == PER_PAGE)
                              then RoleOf(n, page, key) else Blank
    {
      if first + j >= n {
        break;
      }
      assert out[CHILD_KEYS[j]] == Blank;
      out[CHILD_KEYS[j]] := Child(first + j);
    }
  }

  /** The page and the key that show child `c`. */
  function HomeOf(n: nat, c: nat): (nat, nat)
    requires c < n
  {
    if c / PER_PAGE < PageCount(n) then (c / PER_PAGE, CHILD_KEYS[c % PER_PAGE]) else (PageCount(n) - 1, RIGHT_KEY)
  }

  /** The children of a page stand on its keys in order, from child 4 times the page on. */
  lemma ChildrenInOrder(n: nat, page: nat, key: nat, later: nat)
    requires page < PageCount(n) && key < later < KEY_COUNT && RoleOf(n, page, later).Child?
    ensures RoleOf(n, page, key).Child? ==> RoleOf(n, page, key).child < RoleOf(n, page, later).child
    ensures RoleOf(n, page, 0) == Child(4 * page)
  {
  }

  /** Every child is on one key of one page, and on no other. */
  lemma ChildHasOneHome(n: nat, c: nat, page: nat, key: nat)
    requires c < n && page < PageCount(n) && key < KEY_COUNT
    ensures HomeOf(n, c).0 < PageCount(n)
    ensures RoleOf(n, page, key) == Child(c) <==> (page, key) == HomeOf(n, c)
  {
  }

  /** A page shows only children that exist, and both arrows lead to a page. */
  lemma RolesLead(n: nat, page: nat, key: nat)
    requires page < PageCount(n) && key < KEY_COUNT
    ensures RoleOf(n, page, key).Child? ==> RoleOf(n, page, key).child < n
    ensures RoleOf(n, page, key) == Right ==> page + 1 < PageCount(n)
    ensures RoleOf(n, page, key) == Left ==> page > 0
  {
  }

  /** `p` pages hold 4 * (p - 1) + 5 children, and PageCount is the least that hold `n`. */
  lemma PageCountIsLeast(n: nat, p: nat)
    requires p > 0
    ensures PageCount(n) <= p <==> n <= 4 * (p - 1) + 5
  {
  }
}
