/**
 The font list the preferences service offers: the system's font files
 reduced to one entry per visible family, sorted by family name.
 */
module FontList {
  import opened GoStrings

  /** One font file reported by the system font finder. */
  datatype Font = Font(family: GoString, filename: GoString)

  /** One entry of the list handed to the frontend. */
  datatype FontItem = FontItem(name: GoString, path: GoString)

  function ItemOf(f: Font): FontItem {
    FontItem(f.family, f.filename)
  }

  /** Families that are listed: non-empty and not hidden (leading '.'). */
  predicate Listed(family: GoString)
    ensures Listed(family) <==> |family| > 0 && !HasPrefix(family, [Dot])
  {
    |family| > 0 && family[0] != Dot
  }

  /** Font `i` is the first listed font of its family. */
  predicate IsFirstOccurrence(fonts: seq<Font>, i: int) {
    && 0 <= i < |fonts|
    && Listed(fonts[i].family)
    && forall j :: 0 <= j < i ==> fonts[j].family != fonts[i].family
  }

  /** `item` is the entry for the first listed font of some family. */
  ghost predicate FromFirstOccurrence(fonts: seq<Font>, item: FontItem) {
    exists i :: IsFirstOccurrence(fonts, i) && item == ItemOf(fonts[i])
  }

  predicate DistinctNames(items: seq<FontItem>) {
    forall i, j :: 0 <= i < j < |items| ==> items[i].name != items[j].name
  }

  predicate StrictlySorted(items: seq<FontItem>) {
    forall i, j :: 0 <= i < j < |items| ==> Less(items[i].name, items[j].name)
  }

  /** `items` is a correct font list for `fonts`: strictly sorted by name,
      made of first occurrences only, and missing none of them. */
  ghost predicate IsFontList(fonts: seq<Font>, items: seq<FontItem>) {
    && StrictlySorted(items)
    && (forall k :: 0 <= k < |items| ==> FromFirstOccurrence(fonts, items[k]))
    && (forall i :: IsFirstOccurrence(fonts, i) ==> ItemOf(fonts[i]) in items)
  }

  /** The finder loop: keeps a font when its family is listed and has not
      been seen before, in the finder's order. */
  method CollectFonts(fonts: seq<Font>) returns (list: seq<FontItem>)
    ensures DistinctNames(list)
    ensures forall k :: 0 <= k < |list| ==> FromFirstOccurrence(fonts, list[k])
    ensures forall i :: IsFirstOccurrence(fonts, i) ==> ItemOf(fonts[i]) in list
  {
    var seen: set<GoString> := {};
    list := [];
    ghost var origin: seq<nat> := [];
    var n := 0;
    while n < |fonts|
      invariant n <= |fonts|
      invariant forall k :: 0 <= k < |list| ==> list[k].name in seen
      invariant forall i :: 0 <= i < n && Listed(fonts[i].family) ==> fonts[i].family in seen
      invariant forall a :: a in seen ==> exists i :: 0 <= i < n && fonts[i].family == a
      invariant DistinctNames(list)
      invariant |origin| == |list|
      invariant forall k :: 0 <= k < |list| ==>
                  origin[k] < n && IsFirstOccurrence(fonts, origin[k]) && list[k] == ItemOf(fonts[origin[k]])
      invariant forall i :: 0 <= i < n && IsFirstOccurrence(fonts, i) ==> ItemOf(fonts[i]) in list
    {
      var font := fonts[n];
      if Listed(font.family) && font.family !in seen {
        forall j | 0 <= j < n
          ensures fonts[j].family != font.family
        {
          if Listed(fonts[j].family) {
            assert fonts[j].family in seen;
          }
        }
        assert IsFirstOccurrence(fonts, n);
        seen := seen + {font.family};
        list := list + [ItemOf(font)];
        origin := origin + [n];
      } else if Listed(font.family) {
        var i :| 0 <= i < n && fonts[i].family == font.family;
        assert !IsFirstOccurrence(fonts, n);
      }
      n := n + 1;
    }
    forall k | 0 <= k < |list|
      ensures FromFirstOccurrence(fonts, list[k])
    {
      assert IsFirstOccurrence(fonts, origin[k]) && list[k] == ItemOf(fonts[origin[k]]);
    }
  }

  /** Inserts `x` into a list sorted by name. */
  function Insert(x: FontItem, s: seq<FontItem>): (r: seq<FontItem>)
    ensures multiset(r) == multiset(s) + multiset{x}
  {
    if |s| == 0 then [x]
    else if Less(x.name, s[0].name) then [x] + s
    else assert s == [s[0]] + s[1..]; [s[0]] + Insert(x, s[1..])
  }

  /** Insertion sort by name, standing for sort.Slice with `<` on names. */
  function SortByName(s: seq<FontItem>): (r: seq<FontItem>)
    ensures multiset(r) == multiset(s)
  {
    if |s| == 0 then [] else assert s == [s[0]] + s[1..]; Insert(s[0], SortByName(s[1..]))
  }

  lemma {:induction false} InsertSorted(x: FontItem, s: seq<FontItem>)
    requires StrictlySorted(s)
    requires forall k :: 0 <= k < |s| ==> s[k].name != x.name
    ensures StrictlySorted(Insert(x, s))
  {
    if |s| == 0 {
    } else if Less(x.name, s[0].name) {
      var r := [x] + s;
      forall i, j | 0 <= i < j < |r|
        ensures Less(r[i].name, r[j].name)
      {
        if i == 0 && j > 1 {
          LessTransitive(x.name, s[0].name, s[j - 1].name);
        }
      }
    } else {
      LessTotal(x.name, s[0].name);
      InsertSorted(x, s[1..]);
      var t := Insert(x, s[1..]);
      var r := [s[0]] + t;
      forall j | 0 <= j < |t|
        ensures Less(s[0].name, t[j].name)
      {
        assert t[j] in multiset(t);
        if t[j] != x {
          assert t[j] in multiset(s[1..]);
          var m :| 0 <= m < |s[1..]| && s[1..][m] == t[j];
          assert s[m + 1] == t[j];
        }
      }
      assert r == Insert(x, s);
    }
  }

  lemma {:induction false} SortByNameSorted(s: seq<FontItem>)
    requires DistinctNames(s)
    ensures StrictlySorted(SortByName(s))
  {
    if |s| > 0 {
      var t := SortByName(s[1..]);
      SortByNameSorted(s[1..]);
      forall k | 0 <= k < |t|
        ensures t[k].name != s[0].name
      {
        assert t[k] in multiset(t);
        assert t[k] in multiset(s[1..]);
        var m :| 0 <= m < |s[1..]| && s[1..][m] == t[k];
        assert s[m + 1] == t[k];
      }
      InsertSorted(s[0], t);
    }
  }

  /** GetFontList: filter and deduplicate in finder order, then sort. */
  method GetFontList(fonts: seq<Font>) returns (items: seq<FontItem>)
    ensures IsFontList(fonts, items)
    ensures forall k :: 0 <= k < |items| ==> |items[k].name| > 0 && items[k].name[0] != Dot
  {
    var list := CollectFonts(fonts);
    items := SortByName(list);
    SortByNameSorted(list);
    forall k | 0 <= k < |items|
      ensures FromFirstOccurrence(fonts, items[k])
    {
      assert items[k] in multiset(list);
      var m :| 0 <= m < |list| && list[m] == items[k];
    }
    forall i | IsFirstOccurrence(fonts, i)
      ensures ItemOf(fonts[i]) in items
    {
      assert ItemOf(fonts[i]) in multiset(list);
    }
    forall k | 0 <= k < |items|
      ensures |items[k].name| > 0 && items[k].name[0] != Dot
    {
      var i :| IsFirstOccurrence(fonts, i) && items[k] == ItemOf(fonts[i]);
      assert items[k].name[..1] == [items[k].name[0]];
    }
  }

  /** The first item of a non-empty list is one of its items. Stated without a
      precondition so that a branch where it leads to a contradiction needs no
      checked step. */
  lemma HeadIn(s: seq<FontItem>)
    ensures |s| > 0 ==> s[0] in s
  {
  }

  /** Two lists strictly sorted by name with the same entries are equal. */
  lemma {:induction false} SortedSameEntriesEqual(a: seq<FontItem>, b: seq<FontItem>)
    requires StrictlySorted(a) && StrictlySorted(b)
    requires forall x :: x in a <==> x in b
    ensures a == b
    decreases |a|
  {
    if |a| > 0 && |b| > 0 {
      assert b[0] in b && a[0] in a;
      var i :| 0 <= i < |a| && a[i] == b[0];
      var j :| 0 <= j < |b| && b[j] == a[0];
      if i > 0 {
        if j > 0 {
          LessTransitive(a[0].name, a[i].name, b[j].name);
        }
        LessIrreflexive(a[0].name);
      }
      assert a[0] == b[0];
      forall x
        ensures x in a[1..] <==> x in b[1..]
      {
        if x in a[1..] {
          var m :| 0 <= m < |a[1..]| && a[1..][m] == x;
          assert a[m + 1] == x;
          assert Less(a[0].name, x.name);
          LessIrreflexive(x.name);
          assert x in a;
          var n :| 0 <= n < |b| && b[n] == x;
          assert n != 0;
          assert b[1..][n - 1] == x;
        }
        if x in b[1..] {
          var m :| 0 <= m < |b[1..]| && b[1..][m] == x;
          assert b[m + 1] == x;
          assert Less(b[0].name, x.name);
          LessIrreflexive(x.name);
          assert x in b;
          var n :| 0 <= n < |a| && a[n] == x;
          assert n != 0;
          assert a[1..][n - 1] == x;
        }
      }
      SortedSameEntriesEqual(a[1..], b[1..]);
    } else {
      HeadIn(a);
      HeadIn(b);
    }
  }

  /** The font list is determined by the finder's output: the unstable sort
      cannot make two runs differ, because names are unique. */
  lemma FontListUnique(fonts: seq<Font>, a: seq<FontItem>, b: seq<FontItem>)
    requires IsFontList(fonts, a) && IsFontList(fonts, b)
    ensures a == b
  {
    forall x
      ensures x in a <==> x in b
    {
      if x in a {
        var k :| 0 <= k < |a| && a[k] == x;
        var i :| IsFirstOccurrence(fonts, i) && a[k] == ItemOf(fonts[i]);
      }
      if x in b {
        var k :| 0 <= k < |b| && b[k] == x;
        var i :| IsFirstOccurrence(fonts, i) && b[k] == ItemOf(fonts[i]);
      }
    }
    SortedSameEntriesEqual(a, b);
  }
}
