/**
 The part of the persisted preferences that the preferences service reads and
 writes, and the dotted-key updates it sends to the preferences store.
 */
module Prefs {
  import opened GoStrings

  /** The `behavior` section: last window geometry. */
  datatype Behavior = Behavior(
    windowWidth: int,
    windowHeight: int,
    windowMaximised: bool,
    windowPosX: int,
    windowPosY: int)

  /** The `general` section, restricted to the fields the service consults. */
  datatype General = General(language: GoString, scanSize: int)

  datatype Preferences = Preferences(behavior: Behavior, general: General)

  type Positive = x: int | 0 < x witness 1

  /** The application's size constants. Their values are not part of this
      model; all that is used is that they are positive. */
  datatype Consts = Consts(
    minWindowWidth: Positive,
    minWindowHeight: Positive,
    defaultWindowWidth: Positive,
    defaultWindowHeight: Positive,
    defaultScanSize: Positive)

  /** One entry of an update request, keyed by a dotted path such as
      "behavior.windowWidth". */
  datatype Assignment =
    | WindowWidth(width: int)
    | WindowHeight(height: int)
    | WindowMaximised(maximised: bool)
    | WindowPosX(x: int)
    | WindowPosY(y: int)
  {
    /** The dotted key the service sends for this entry. */
    function Key(): GoString {
      match this
      case WindowWidth(_) => Ascii("behavior.windowWidth")
      case WindowHeight(_) => Ascii("behavior.windowHeight")
      case WindowMaximised(_) => Ascii("behavior.windowMaximised")
      case WindowPosX(_) => Ascii("behavior.windowPosX")
      case WindowPosY(_) => Ascii("behavior.windowPosY")
    }

    /** Both entries write the same field. */
    predicate SameField(other: Assignment) {
      && (WindowWidth? <==> other.WindowWidth?)
      && (WindowHeight? <==> other.WindowHeight?)
      && (WindowMaximised? <==> other.WindowMaximised?)
      && (WindowPosX? <==> other.WindowPosX?)
      && (WindowPosY? <==> other.WindowPosY?)
    }
  }

  /** The dotted key names the field: two entries share a key exactly when
      they write the same field. */
  lemma KeyIdentifiesField(a: Assignment, b: Assignment)
    ensures a.Key() == b.Key() <==> a.SameField(b)
  {
    // the two position keys have equal length and differ only in their last byte
    if (a.WindowPosX? && b.WindowPosY?) || (a.WindowPosY? && b.WindowPosX?) {
      assert a.Key()[18] != b.Key()[18];
    }
  }

  /** Writes the one field named by `a`. */
  function Assign(p: Preferences, a: Assignment): (r: Preferences)
    ensures r.general == p.general
    ensures a.WindowWidth? ==> r.behavior.windowWidth == a.width
    ensures a.WindowHeight? ==> r.behavior.windowHeight == a.height
    ensures a.WindowMaximised? ==> r.behavior.windowMaximised == a.maximised
    ensures a.WindowPosX? ==> r.behavior.windowPosX == a.x
    ensures a.WindowPosY? ==> r.behavior.windowPosY == a.y
    ensures !a.WindowWidth? ==> r.behavior.windowWidth == p.behavior.windowWidth
    ensures !a.WindowHeight? ==> r.behavior.windowHeight == p.behavior.windowHeight
    ensures !a.WindowMaximised? ==> r.behavior.windowMaximised == p.behavior.windowMaximised
    ensures !a.WindowPosX? ==> r.behavior.windowPosX == p.behavior.windowPosX
    ensures !a.WindowPosY? ==> r.behavior.windowPosY == p.behavior.windowPosY
  {
    var b := p.behavior;
    var b' := match a
      case WindowWidth(w) => b.(windowWidth := w)
      case WindowHeight(h) => b.(windowHeight := h)
      case WindowMaximised(m) => b.(windowMaximised := m)
      case WindowPosX(x) => b.(windowPosX := x)
      case WindowPosY(y) => b.(windowPosY := y);
    p.(behavior := b')
  }

  /** Applies an update request entry by entry; the empty request is the
      service not calling the store at all. */
  function Apply(p: Preferences, u: seq<Assignment>): (r: Preferences)
    ensures r.general == p.general
    decreases |u|
  {
    if |u| == 0 then p else Apply(Assign(p, u[0]), u[1..])
  }

  lemma ApplyOne(p: Preferences, a: Assignment)
    ensures Apply(p, [a]) == Assign(p, a)
  {
    assert [a][1..] == [];
  }

  lemma ApplyTwo(p: Preferences, a: Assignment, b: Assignment)
    ensures Apply(p, [a, b]) == Assign(Assign(p, a), b)
  {
    assert [a, b][1..] == [b];
    ApplyOne(Assign(p, a), b);
  }

  lemma ApplyThree(p: Preferences, a: Assignment, b: Assignment, c: Assignment)
    ensures Apply(p, [a, b, c]) == Assign(Assign(Assign(p, a), b), c)
  {
    assert [a, b, c][1..] == [b, c];
    ApplyTwo(Assign(p, a), b, c);
  }

  /** A request is a Go map, so no key occurs twice in it. By
      KeyIdentifiesField this is: no two entries write the same field. */
  predicate DistinctKeys(u: seq<Assignment>) {
    forall i, j :: 0 <= i < j < |u| ==> !u[i].SameField(u[j])
  }

  /** Entries with different keys touch different fields, so the unspecified
      iteration order of the request map does not affect the result. */
  lemma AssignCommutes(p: Preferences, a: Assignment, b: Assignment)
    requires !a.SameField(b)
    ensures Assign(Assign(p, a), b) == Assign(Assign(p, b), a)
  {
  }

  /** Swapping two adjacent entries of a request leaves its effect unchanged. */
  lemma {:induction false} ApplySwapAdjacent(p: Preferences, u: seq<Assignment>, i: nat)
    requires i + 1 < |u|
    requires !u[i].SameField(u[i + 1])
    ensures Apply(p, u[..i] + [u[i + 1], u[i]] + u[i + 2..]) == Apply(p, u)
    decreases i
  {
    var v := u[..i] + [u[i + 1], u[i]] + u[i + 2..];
    if i == 0 {
      AssignCommutes(p, u[0], u[1]);
      assert v[1..][1..] == u[2..] == u[1..][1..];
    } else {
      assert v[0] == u[0];
      assert v[1..] == u[1..][..i - 1] + [u[1..][i], u[1..][i - 1]] + u[1..][i + 1..];
      ApplySwapAdjacent(Assign(p, u[0]), u[1..], i - 1);
    }
  }

  /** `v` with entries i - 1 and i swapped. */
  function SwapBefore(v: seq<Assignment>, i: nat): (w: seq<Assignment>)
    requires 0 < i < |v|
    ensures |w| == |v|
    ensures w[i - 1] == v[i] && w[i] == v[i - 1]
    ensures forall j :: 0 <= j < |v| && j != i - 1 && j != i ==> w[j] == v[j]
  {
    v[..i - 1] + [v[i], v[i - 1]] + v[i + 1..]
  }

  /** Moving entry i - 1 of the swapped request to the front is moving entry
      i of the original one. */
  lemma MoveAfterSwap(v: seq<Assignment>, i: nat)
    requires 0 < i < |v|
    ensures var w := SwapBefore(v, i);
            [w[i - 1]] + w[..i - 1] + w[i..] == [v[i]] + v[..i] + v[i + 1..]
  {
    var w := SwapBefore(v, i);
    assert w[..i - 1] == v[..i - 1];
    assert w[i..] == [v[i - 1]] + v[i + 1..];
    assert v[..i] == v[..i - 1] + [v[i - 1]];
  }

  /** An entry whose key no other entry shares can be moved to the front. */
  lemma {:induction false} ApplyMoveToFront(p: Preferences, v: seq<Assignment>, i: nat)
    requires i < |v|
    requires forall j :: 0 <= j < |v| && j != i ==> !v[j].SameField(v[i])
    ensures Apply(p, [v[i]] + v[..i] + v[i + 1..]) == Apply(p, v)
    decreases i
  {
    if i > 0 {
      var w := SwapBefore(v, i);
      ApplySwapAdjacent(p, v, i - 1);
      assert v[..i - 1] + [v[i - 1 + 1], v[i - 1]] + v[i - 1 + 2..] == w;
      forall j | 0 <= j < |w| && j != i - 1
        ensures !w[j].SameField(w[i - 1])
      {
        if j == i {
          assert w[j] == v[i - 1];
        } else {
          assert w[j] == v[j];
        }
      }
      ApplyMoveToFront(p, w, i - 1);
      MoveAfterSwap(v, i);
    } else {
      assert [v[0]] + v[..0] + v[1..] == v;
    }
  }

  /** Dropping one entry of a request keeps its keys distinct, and the
      dropped entry's key occurs nowhere else. */
  lemma DistinctKeysRemove(v: seq<Assignment>, i: nat)
    requires DistinctKeys(v) && i < |v|
    ensures forall j :: 0 <= j < |v| && j != i ==> !v[j].SameField(v[i])
    ensures DistinctKeys(v[..i] + v[i + 1..])
  {
    var rest := v[..i] + v[i + 1..];
    forall j, k | 0 <= j < k < |rest|
      ensures !rest[j].SameField(rest[k])
    {
      var j' := if j < i then j else j + 1;
      var k' := if k < i then k else k + 1;
      assert rest[j] == v[j'] && rest[k] == v[k'];
    }
  }

  lemma MultisetRemoveHead(u: seq<Assignment>, v: seq<Assignment>, i: nat)
    requires |u| > 0 && i < |v| && v[i] == u[0]
    requires multiset(u) == multiset(v)
    ensures multiset(u[1..]) == multiset(v[..i] + v[i + 1..])
  {
    var rest := v[..i] + v[i + 1..];
    assert v == v[..i] + [v[i]] + v[i + 1..];
    assert multiset(v) == multiset(rest) + multiset{u[0]};
    assert u == [u[0]] + u[1..];
    assert multiset(u) == multiset(u[1..]) + multiset{u[0]};
    assert multiset(u[1..]) == multiset(u) - multiset{u[0]};
    assert multiset(rest) == multiset(v) - multiset{u[0]};
  }

  /** After reordering, the entry moved to the front shares its key with
      no other entry. */
  lemma ReorderedHeadUnique(u: seq<Assignment>, v: seq<Assignment>, i: nat)
    requires DistinctKeys(u) && i < |u| && 0 < |v| && u[i] == v[0]
    requires multiset(v[1..]) == multiset(u[..i] + u[i + 1..])
    ensures forall k :: 1 <= k < |v| ==> !v[0].SameField(v[k])
  {
    var rest := u[..i] + u[i + 1..];
    DistinctKeysRemove(u, i);
    forall k | 1 <= k < |v|
      ensures !v[0].SameField(v[k])
    {
      assert v[k] == v[1..][k - 1];
      assert v[k] in multiset(rest);
      var m :| 0 <= m < |rest| && rest[m] == v[k];
      var m' := if m < i then m else m + 1;
      assert u[m'] == v[k] && m' != i;
    }
  }

  /** A head that shares no key, followed by a tail with distinct keys. */
  lemma DistinctKeysCons(v: seq<Assignment>)
    requires 0 < |v| && DistinctKeys(v[1..])
    requires forall k :: 1 <= k < |v| ==> !v[0].SameField(v[k])
    ensures DistinctKeys(v)
  {
    forall j, k | 0 <= j < k < |v|
      ensures !v[j].SameField(v[k])
    {
      if j > 0 {
        assert v[j] == v[1..][j - 1] && v[k] == v[1..][k - 1];
      }
    }
  }

  /** Reordering a request keeps its keys distinct. */
  lemma {:induction false} DistinctKeysPermutation(u: seq<Assignment>, v: seq<Assignment>)
    requires DistinctKeys(u)
    requires multiset(u) == multiset(v)
    ensures DistinctKeys(v)
    decreases |v|
  {
    if |v| > 0 {
      assert v[0] in multiset(u);
      var i :| 0 <= i < |u| && u[i] == v[0];
      DistinctKeysRemove(u, i);
      MultisetRemoveHead(v, u, i);
      DistinctKeysPermutation(u[..i] + u[i + 1..], v[1..]);
      ReorderedHeadUnique(u, v, i);
      DistinctKeysCons(v);
    }
  }

  /** Two orderings of the same request have the same effect: the order in
      which a Go map hands its entries to the store does not matter. */
  lemma {:induction false} ApplyOrderIrrelevant(p: Preferences, u: seq<Assignment>, v: seq<Assignment>)
    requires DistinctKeys(u)
    requires multiset(u) == multiset(v)
    ensures Apply(p, u) == Apply(p, v)
    decreases |u|
  {
    DistinctKeysPermutation(u, v);
    if |u| == 0 {
      assert |multiset(v)| == 0;
    } else {
      assert u[0] in multiset(v);
      var i :| 0 <= i < |v| && v[i] == u[0];
      var rest := v[..i] + v[i + 1..];
      DistinctKeysRemove(v, i);
      ApplyMoveToFront(p, v, i);
      MultisetRemoveHead(u, v, i);
      DistinctKeysRemove(u, 0);
      assert u[..0] + u[1..] == u[1..];
      ApplyOrderIrrelevant(Assign(p, u[0]), u[1..], rest);
      assert ([v[i]] + v[..i] + v[i + 1..])[1..] == rest;
    }
  }
}
