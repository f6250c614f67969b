/** Flag/enum projection (sdl2hl/enumtools.py).

    Native flag words are 32-bit, so a flag value is a `bv32`. An enumeration
    is the sequence of its members in iteration order; a member is a (name,
    value) pair. */
module EnumTools {

  datatype Member = Member(name: string, value: bv32)

  /** An enumeration as Python's IntEnum presents it: no two members share a
      value (a repeated value would be an alias, which iteration skips). */
  ghost predicate DistinctValues(e: seq<Member>)
  {
    forall i, j :: 0 <= i < |e| && 0 <= j < |e| && i != j ==> e[i].value != e[j].value
  }

  /** The value has exactly one bit set. */
  predicate SingleBit(v: bv32)
  {
    v != 0 && v & (v - 1) == 0
  }

  /** A flag enumeration: the values are distinct, and every member other
      than a zero-valued "none" member is a single bit. These are the
      enumerations for which a mask decomposes back into the flags it was
      built from. */
  ghost predicate FlagEnum(e: seq<Member>)
  {
    && DistinctValues(e)
    && forall i :: 0 <= i < |e| && e[i].value != 0 ==> SingleBit(e[i].value)
  }

  /** Every bit of v is set in m. */
  predicate Covers(m: bv32, v: bv32)
  {
    v | m == m
  }

  /** The test get_items applies to each member: `item & mask` is non-zero. */
  predicate Overlaps(v: bv32, mask: bv32)
  {
    v & mask != 0
  }

  // Single facts about 32-bit words, kept apart from the quantified proofs.

  lemma CoverGrows(m: bv32, v: bv32, w: bv32)
    requires Covers(m, v)
    ensures Covers(m | w, v) && Covers(m | w, w)
  {
  }

  lemma OrCovered(m: bv32, x: bv32, y: bv32)
    requires Covers(m, x) && Covers(m, y)
    ensures Covers(m, x | y)
  {
  }

  lemma OrOverlap(x: bv32, v: bv32, b: bv32)
    requires Overlaps(x | v, b) && !Overlaps(v, b)
    ensures Overlaps(x, b)
  {
  }

  lemma ZeroOverlapsNothing(b: bv32)
    ensures !Overlaps(0, b)
  {
  }

  lemma MutualCover(x: bv32, y: bv32)
    requires Covers(y, x) && Covers(x, y)
    ensures x == y
  {
  }

  lemma OverlapWiden(v: bv32, m1: bv32, m2: bv32)
    requires Overlaps(v, m1) && Covers(m2, m1)
    ensures Overlaps(v, m2)
  {
  }

  lemma CoveredOverlaps(v: bv32, mask: bv32)
    requires v != 0 && Covers(mask, v)
    ensures Overlaps(v, mask)
  {
  }

  lemma OverlapThroughCover(x: bv32, c: bv32, m: bv32)
    requires Overlaps(x, c) && Covers(m, x)
    ensures Overlaps(c, m)
  {
  }

  lemma ZeroCovered(m: bv32)
    ensures Covers(m, 0)
  {
  }

  lemma ComplementDisjoint(x: bv32, v: bv32)
    requires Covers(!v, x)
    ensures !Overlaps(x, v)
  {
  }

  lemma DistinctSingleBits(v: bv32, w: bv32)
    requires SingleBit(v) && SingleBit(w) && v != w
    ensures Covers(!w, v)
  {
  }

  /** get_mask: `reduce(lambda x, y: x | y, items, 0)`, a left fold of
      bitwise OR starting from 0. */
  function GetMask(items: seq<Member>): bv32
  {
    if items == [] then 0
    else GetMask(items[..|items| - 1]) | items[|items| - 1].value
  }

  /** The mask covers the bits of the item at index i. */
  lemma {:induction false} GetMaskCoversAt(items: seq<Member>, i: nat)
    requires i < |items|
    ensures Covers(GetMask(items), items[i].value)
  {
    var init, last := items[..|items| - 1], items[|items| - 1].value;
    if i < |init| {
      GetMaskCoversAt(init, i);
      assert items[i] == init[i];
      CoverGrows(GetMask(init), items[i].value, last);
    } else {
      CoverGrows(GetMask(init), GetMask(init), last);
    }
  }

  /** The mask of no items is 0, and the mask covers every item's bits. */
  lemma GetMaskCovers(items: seq<Member>)
    ensures items == [] ==> GetMask(items) == 0
    ensures forall i :: 0 <= i < |items| ==> Covers(GetMask(items), items[i].value)
  {
    forall i | 0 <= i < |items| ensures Covers(GetMask(items), items[i].value) {
      GetMaskCoversAt(items, i);
    }
  }

  /** The mask is the least one covering every item: no bit appears in it
      that no item contributes. */
  lemma {:induction false} GetMaskLeast(items: seq<Member>, m: bv32)
    requires forall i :: 0 <= i < |items| ==> Covers(m, items[i].value)
    ensures Covers(m, GetMask(items))
  {
    if items != [] {
      var init := items[..|items| - 1];
      assert forall i :: 0 <= i < |init| ==> init[i] == items[i];
      GetMaskLeast(init, m);
      OrCovered(m, GetMask(init), items[|items| - 1].value);
    }
  }

  /** Finds an item overlapping a bit pattern that the mask overlaps. */
  lemma {:induction false} OverlappingItem(items: seq<Member>, b: bv32) returns (i: nat)
    requires items != []
    requires Overlaps(GetMask(items), b)
    ensures i < |items| && Overlaps(items[i].value, b)
  {
    var last := |items| - 1;
    var init, v := items[..last], items[last].value;
    if Overlaps(v, b) {
      i := last;
    } else {
      var x := GetMask(init);
      assert GetMask(items) == x | v;
      OrOverlap(x, v, b);
      assert Overlaps(GetMask(init), b);
      assert init != [];
      i := OverlappingItem(init, b);
      assert items[i] == init[i];
    }
  }

  /** Any bit pattern the mask overlaps is overlapped by some item. */
  lemma GetMaskOverlap(items: seq<Member>, b: bv32)
    requires Overlaps(GetMask(items), b)
    ensures exists i :: 0 <= i < |items| && Overlaps(items[i].value, b)
  {
    if items == [] {
      ZeroOverlapsNothing(b);
      assert false;
    }
    var i := OverlappingItem(items, b);
  }

  /** The mask depends only on which items occur, not on their order or on
      repetitions. */
  lemma GetMaskSameItems(a: seq<Member>, b: seq<Member>)
    requires forall x :: x in a <==> x in b
    ensures GetMask(a) == GetMask(b)
  {
    var ma, mb := GetMask(a), GetMask(b);
    GetMaskCovers(a);
    GetMaskCovers(b);
    forall i | 0 <= i < |b| ensures Covers(ma, b[i].value) {
      assert b[i] in a;
      var j :| 0 <= j < |a| && a[j] == b[i];
    }
    GetMaskLeast(b, ma);
    forall i | 0 <= i < |a| ensures Covers(mb, a[i].value) {
      assert a[i] in b;
      var j :| 0 <= j < |b| && b[j] == a[i];
    }
    GetMaskLeast(a, mb);
    MutualCover(ma, mb);
  }

  /** The result get_items promises: the members, not blacklisted, whose value
      shares at least one bit with the mask. */
  ghost function Items(e: seq<Member>, mask: bv32, blacklist: set<Member>): set<Member>
  {
    set m | m in e && m !in blacklist && Overlaps(m.value, mask)
  }

  /** get_items: walks the enumeration, adding each member that is not
      blacklisted and overlaps the mask. */
  method GetItems(e: seq<Member>, mask: bv32, blacklist: set<Member> := {})
    returns (items: set<Member>)
    ensures items == Items(e, mask, blacklist)
    ensures forall m :: m in items <==> m in e && m !in blacklist && Overlaps(m.value, mask)
  {
    items := {};
    for k := 0 to |e|
      invariant items == Items(e[..k], mask, blacklist)
    {
      var item := e[k];
      if item !in blacklist && Overlaps(item.value, mask) {
        items := items + {item};
      }
      assert e[..k + 1] == e[..k] + [item];
      ItemsSnoc(e[..k], item, mask, blacklist);
    }
    assert e[..|e|] == e;
  }

  /** Walking one more member adds it exactly when it passes the test. */
  lemma ItemsSnoc(e: seq<Member>, x: Member, mask: bv32, blacklist: set<Member>)
    ensures Items(e + [x], mask, blacklist)
         == Items(e, mask, blacklist) + (if x !in blacklist && Overlaps(x.value, mask) then {x} else {})
  {
    forall m ensures m in Items(e + [x], mask, blacklist) <==>
                     m in Items(e, mask, blacklist) || (m == x && x !in blacklist && Overlaps(x.value, mask))
    {
      assert m in e + [x] <==> m in e || m == x;
    }
  }

  /** A member whose value is 0 is never returned, and mask 0 gives nothing. */
  lemma ItemsNeverZero(e: seq<Member>, mask: bv32, blacklist: set<Member>)
    ensures forall m :: m in Items(e, mask, blacklist) ==> m.value != 0
    ensures Items(e, 0, blacklist) == {}
  {
  }

  /** More mask bits can only add members. */
  lemma ItemsMonotone(e: seq<Member>, m1: bv32, m2: bv32, blacklist: set<Member>)
    requires Covers(m2, m1)
    ensures Items(e, m1, blacklist) <= Items(e, m2, blacklist)
  {
    forall m | m in Items(e, m1, blacklist) ensures m in Items(e, m2, blacklist) {
      OverlapWiden(m.value, m1, m2);
    }
  }

  /** A selected non-zero member of a flag enumeration overlaps the
      selection's mask. */
  lemma SelectedOverlaps(e: seq<Member>, s: seq<Member>, m: Member)
    requires FlagEnum(e)
    requires m in e && m in s && m.value != 0
    ensures Overlaps(m.value, GetMask(s))
  {
    var i :| 0 <= i < |e| && e[i] == m;
    var k :| 0 <= k < |s| && s[k] == m;
    assert SingleBit(e[i].value);
    GetMaskCovers(s);
    assert Covers(GetMask(s), s[k].value);
    CoveredOverlaps(m.value, GetMask(s));
  }

  /** An unselected member of a flag enumeration does not overlap the
      selection's mask. */
  lemma UnselectedDisjoint(e: seq<Member>, s: seq<Member>, m: Member)
    requires FlagEnum(e)
    requires forall x :: x in s ==> x in e
    requires m in e && m !in s
    ensures !Overlaps(m.value, GetMask(s))
  {
    if m.value == 0 {
      ZeroOverlapsNothing(GetMask(s));
    } else {
      var i :| 0 <= i < |e| && e[i] == m;
      forall k | 0 <= k < |s| ensures Covers(!m.value, s[k].value) {
        assert s[k] in e;
        var j :| 0 <= j < |e| && e[j] == s[k];
        if s[k].value == 0 {
          ZeroCovered(!m.value);
        } else {
          assert j != i;
          DistinctSingleBits(s[k].value, m.value);
        }
      }
      GetMaskLeast(s, !m.value);
      ComplementDisjoint(GetMask(s), m.value);
    }
  }

  /** Round trip: for a flag enumeration, splitting the mask of any
      selection of its members gives back exactly the selection's non-zero
      members, minus the blacklist; the zero member is never given back,
      even when selected. A selection of non-zero members comes back
      whole. */
  lemma GetItemsOfGetMask(e: seq<Member>, s: seq<Member>, blacklist: set<Member>)
    requires FlagEnum(e)
    requires forall x :: x in s ==> x in e
    ensures Items(e, GetMask(s), blacklist) == (set x | x in s && x.value != 0) - blacklist
    ensures (forall x :: x in s ==> x.value != 0) ==> Items(e, GetMask(s), blacklist) == (set x | x in s) - blacklist
  {
    forall m | m in e && m !in s ensures !Overlaps(m.value, GetMask(s)) {
      UnselectedDisjoint(e, s, m);
    }
    forall m | m in s && m.value != 0 ensures Overlaps(m.value, GetMask(s)) {
      SelectedOverlaps(e, s, m);
    }
  }

  /** Without the flag-enumeration hypothesis the round trip can fail: a
      member that shares a bit with any selected member (a composite such as
      "either control key") is given back too, although it was not
      selected. */
  lemma CompositeReported(e: seq<Member>, s: seq<Member>, c: Member, blacklist: set<Member>)
    requires c in e && c !in blacklist
    requires exists x :: x in s && Overlaps(x.value, c.value)
    ensures c in Items(e, GetMask(s), blacklist)
  {
    var x :| x in s && Overlaps(x.value, c.value);
    var k :| 0 <= k < |s| && s[k] == x;
    GetMaskCoversAt(s, k);
    OverlapThroughCover(x.value, c.value, GetMask(s));
  }
}
