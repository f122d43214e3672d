/** The conversation scanner: from unread badges to the clickable chat
    rows that own them. */
module Scanner {
  import opened Wrappers
  import opened Driver
  import opened Selectors

  /** How many parent links the script fallback climbs. */
  const WalkDepth: nat := 10

  /** The script's acceptance test for a chat row. */
  predicate IsChatRow(n: Node) {
    n.testId == Some("cell-frame-container")
    || n.role == Some("listitem") || n.role == Some("row") || n.role == Some("option")
  }

  /** The script fallback of `find_new_messages`: climb at most `depth`
      parent links from `el`, returning the first ancestor that is a chat
      row, and null at the root or when the depth runs out. */
  function AncestorWalk(dom: map<Handle, Node>, el: Handle, depth: nat): Option<Handle>
    requires Closed(dom) && el in dom
    decreases depth
  {
    if depth == 0 then None
    else match dom[el].parent
      case None => None
      case Some(p) => if IsChatRow(dom[p]) then Some(p) else AncestorWalk(dom, p, depth - 1)
  }

  /** The ancestor `k` parent links above `el`, if the root is not reached first. */
  function Ancestor(dom: map<Handle, Node>, el: Handle, k: nat): (r: Option<Handle>)
    requires Closed(dom) && el in dom
    ensures r.Some? ==> r.value in dom
    decreases k
  {
    if k == 0 then Some(el)
    else match dom[el].parent
      case None => None
      case Some(p) => Ancestor(dom, p, k - 1)
  }

  /** The ancestor `k` levels up exists and is a chat row. */
  ghost predicate RowAt(dom: map<Handle, Node>, el: Handle, k: nat)
    requires Closed(dom) && el in dom
  {
    Ancestor(dom, el, k).Some? && IsChatRow(dom[Ancestor(dom, el, k).value])
  }

  /** Level `k` (1..depth) holds the nearest chat-row ancestor. */
  ghost predicate NearestRow(dom: map<Handle, Node>, el: Handle, depth: nat, k: nat)
    requires Closed(dom) && el in dom
  {
    1 <= k <= depth && RowAt(dom, el, k) && forall j :: 1 <= j < k ==> !RowAt(dom, el, j)
  }

  /** The walk returns null exactly when none of the first `depth`
      ancestors (up to the root) is a chat row. */
  lemma {:induction false} WalkNothing(dom: map<Handle, Node>, el: Handle, depth: nat)
    requires Closed(dom) && el in dom
    ensures AncestorWalk(dom, el, depth) == None
        <==> forall k :: 1 <= k <= depth ==> !RowAt(dom, el, k)
    decreases depth
  {
    if depth > 0 {
      match dom[el].parent
      case None =>
        forall k | 1 <= k <= depth ensures !RowAt(dom, el, k) {
          assert Ancestor(dom, el, k) == None;
        }
      case Some(p) =>
        assert Ancestor(dom, el, 1) == Some(p) by {
          assert Ancestor(dom, p, 0) == Some(p);
        }
        if !IsChatRow(dom[p]) {
          WalkNothing(dom, p, depth - 1);
          forall k | 2 <= k <= depth ensures RowAt(dom, el, k) == RowAt(dom, p, k - 1) {
            assert Ancestor(dom, el, k) == Ancestor(dom, p, k - 1);
          }
          if forall k :: 1 <= k <= depth - 1 ==> !RowAt(dom, p, k) {
            forall k | 1 <= k <= depth ensures !RowAt(dom, el, k) {
              if k >= 2 {
                assert RowAt(dom, el, k) == RowAt(dom, p, k - 1);
              }
            }
          } else {
            var k :| 1 <= k <= depth - 1 && RowAt(dom, p, k);
            assert RowAt(dom, el, k + 1);
          }
        } else {
          assert RowAt(dom, el, 1);
        }
    }
  }

  /** The walk returns `r` exactly when `r` is the nearest chat-row
      ancestor at most `depth` levels up. */
  lemma {:induction false} WalkNearest(dom: map<Handle, Node>, el: Handle, depth: nat, r: Handle)
    requires Closed(dom) && el in dom
    ensures AncestorWalk(dom, el, depth) == Some(r)
        <==> exists k :: NearestRow(dom, el, depth, k) && Ancestor(dom, el, k) == Some(r)
    decreases depth
  {
    if depth > 0 {
      match dom[el].parent
      case None =>
        forall k | 1 <= k <= depth ensures Ancestor(dom, el, k) == None {
        }
      case Some(p) =>
        assert Ancestor(dom, el, 1) == Some(p) by {
          assert Ancestor(dom, p, 0) == Some(p);
        }
        forall k | 2 <= k <= depth
          ensures Ancestor(dom, el, k) == Ancestor(dom, p, k - 1)
          ensures RowAt(dom, el, k) == RowAt(dom, p, k - 1)
        {
        }
        if IsChatRow(dom[p]) {
          assert NearestRow(dom, el, depth, 1);
          if k :| 1 <= k && NearestRow(dom, el, depth, k) && Ancestor(dom, el, k) == Some(r) {
            assert k == 1;
          }
        } else {
          WalkNearest(dom, p, depth - 1, r);
          if k :| 1 <= k && NearestRow(dom, p, depth - 1, k) && Ancestor(dom, p, k) == Some(r) {
            assert NearestRow(dom, el, depth, k + 1) by {
              forall j | 1 <= j < k + 1 ensures !RowAt(dom, el, j) {
                if j >= 2 {
                  assert !RowAt(dom, p, j - 1);
                }
              }
            }
            assert Ancestor(dom, el, k + 1) == Some(r);
          }
          if k :| 1 <= k && NearestRow(dom, el, depth, k) && Ancestor(dom, el, k) == Some(r) {
            assert k >= 2;
            assert NearestRow(dom, p, depth - 1, k - 1) by {
              forall j | 1 <= j < k - 1 ensures !RowAt(dom, p, j) {
                assert !RowAt(dom, el, j + 1);
              }
            }
            assert Ancestor(dom, p, k - 1) == Some(r);
          }
        }
    }
  }

  /** The chat row owning one badge: the three ancestor selectors first,
      then the script walk; a badge whose row cannot be found, or whose
      lookup raises, gives nothing. A badge that is no longer in the DOM
      makes the script raise. */
  function RowOf(p: Page, badge: Handle): Option<Handle>
    requires Closed(p.dom)
  {
    match FirstElement(p, Within(badge), ChatRowKeys)
    case Returned(Some(row)) => Some(row)
    case Returned(None) => if badge in p.dom then AncestorWalk(p.dom, badge, WalkDepth) else None
    case Raised(_) => None
  }

  /** The rows of the badges that have one, in badge order. */
  function Rows(p: Page, badges: seq<Handle>): seq<Handle>
    requires Closed(p.dom)
  {
    if badges == [] then []
    else
      var row := RowOf(p, badges[|badges| - 1]);
      Rows(p, badges[..|badges| - 1]) + (if row.Some? then [row.value] else [])
  }

  /** One more badge adds its row, if it has one, at the end. */
  lemma RowsSnoc(p: Page, badges: seq<Handle>, i: nat)
    requires Closed(p.dom) && i < |badges|
    ensures Rows(p, badges[..i + 1]) == Rows(p, badges[..i])
      + (if RowOf(p, badges[i]).Some? then [RowOf(p, badges[i]).value] else [])
  {
    assert badges[..i + 1][..i] == badges[..i];
  }

  /** Rows of earlier badges come before rows of later badges. */
  lemma {:induction false} RowsConcat(p: Page, a: seq<Handle>, b: seq<Handle>)
    requires Closed(p.dom)
    ensures Rows(p, a + b) == Rows(p, a) + Rows(p, b)
  {
    if b == [] {
      assert a + b == a;
    } else {
      assert (a + b)[..|a + b| - 1] == a + b[..|b| - 1];
      RowsConcat(p, a, b[..|b| - 1]);
    }
  }

  /** A row is reported exactly when some badge resolves to it; no more
      rows than badges. */
  lemma {:induction false} RowsMembers(p: Page, badges: seq<Handle>)
    requires Closed(p.dom)
    ensures |Rows(p, badges)| <= |badges|
    ensures forall r :: (r in Rows(p, badges)
        <==> exists i :: 0 <= i < |badges| && RowOf(p, badges[i]) == Some(r))
  {
    if badges != [] {
      RowsMembers(p, badges[..|badges| - 1]);
    }
    forall r ensures r in Rows(p, badges)
        <==> exists i :: 0 <= i < |badges| && RowOf(p, badges[i]) == Some(r)
    {
      if r in Rows(p, badges) {
        RowsFrom(p, badges, r);
      }
      if i :| 0 <= i < |badges| && RowOf(p, badges[i]) == Some(r) {
        RowsHas(p, badges, i);
      }
    }
  }

  /** Every reported row is the row of some badge. */
  lemma {:induction false} RowsFrom(p: Page, badges: seq<Handle>, r: Handle)
    requires Closed(p.dom) && r in Rows(p, badges)
    ensures exists i :: 0 <= i < |badges| && RowOf(p, badges[i]) == Some(r)
  {
    var n := |badges| - 1;
    var init := badges[..n];
    if r in Rows(p, init) {
      RowsFrom(p, init, r);
      var i :| 0 <= i < |init| && RowOf(p, init[i]) == Some(r);
      assert badges[i] == init[i];
    } else {
      assert RowOf(p, badges[n]) == Some(r);
    }
  }

  /** The row of every badge that has one is reported. */
  lemma RowsHas(p: Page, badges: seq<Handle>, i: nat)
    requires Closed(p.dom) && i < |badges| && RowOf(p, badges[i]).Some?
    ensures RowOf(p, badges[i]).value in Rows(p, badges)
  {
    var rest := badges[i + 1..];
    assert badges == badges[..i + 1] + rest;
    RowsConcat(p, badges[..i + 1], rest);
    RowsSnoc(p, badges, i);
  }

  /** `find_new_messages` as a value: any error while finding the badges
      gives no rows. */
  function NewMessages(p: Page): seq<Handle>
    requires Closed(p.dom)
  {
    match FirstElements(p, Document, UnreadBadgeKeys)
    case Returned(badges) => Rows(p, badges)
    case Raised(_) => []
  }

  /** Scanning never raises: an error the fallback lets through while
      looking for the unread badges, a lost browser connection included, is
      dropped and the scan finds no chat. */
  lemma ScanSwallowsErrors(p: Page, e: Error)
    requires Closed(p.dom)
    requires p.findElements(Document, Selector(UnreadBadge)) == Raised(e) && !Swallowed(e)
    ensures FirstElements(p, Document, UnreadBadgeKeys) == Raised(e)
    ensures NewMessages(p) == []
  {
    var attempts := ElementsAttempts(p, Document, UnreadBadgeKeys);
    assert attempts[0] == Fatal(e);
  }

  /** `find_new_messages`: resolve the badges, then the row of each badge,
      appending the rows found in badge order. */
  method FindNewMessages(p: Page) returns (chatRows: seq<Handle>)
    requires Closed(p.dom)
    ensures chatRows == NewMessages(p)
  {
    var found := TryFindElements(p, Document, UnreadBadgeKeys);
    if found.Raised? || found.value == [] {
      return [];
    }
    var badges := found.value;
    chatRows := [];
    var i := 0;
    while i < |badges|
      invariant 0 <= i <= |badges|
      invariant chatRows == Rows(p, badges[..i])
    {
      var badge := badges[i];
      var row := TryFindElement(p, Within(badge), ChatRowKeys);
      var owner: Option<Handle> := None;
      if row.Returned? && row.value.Some? {
        owner := row.value;
      } else if row.Returned? && badge in p.dom {
        owner := AncestorWalk(p.dom, badge, WalkDepth);
      }
      assert owner == RowOf(p, badge);
      RowsSnoc(p, badges, i);
      if owner.Some? {
        chatRows := chatRows + [owner.value];
      }
      i := i + 1;
    }
    assert badges[..i] == badges;
  }
}
