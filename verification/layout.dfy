/**
  C struct layout under natural alignment, as the x86-64 ABI lays out structs
  made of fixed-width unsigned integers and arrays of them: every member starts
  at the first multiple of its own width at or after the end of the previous
  member, and the struct's size is the end of its last member rounded up to the
  width of its widest member.
 */
module Layout {
  import opened Wrappers

  /** Byte widths of uint8_t, uint16_t, uint32_t and uint64_t. */
  predicate IsScalarWidth(w: nat) {
    w == 1 || w == 2 || w == 4 || w == 8
  }

  /**
    One struct member: a scalar (`count == 1`) or an array of `count` scalars,
    each `width` bytes wide, starting `offset` bytes into the struct.
   */
  datatype Slot<N> = Slot(name: N, offset: nat, width: nat, count: nat) {

    /** One past the member's last byte. */
    function End(): nat {
      offset + width * count
    }
  }

  /** The first multiple of `a` that is not below `off`. */
  function AlignUp(off: nat, a: nat): (r: nat)
    requires a > 0
    ensures r % a == 0
    ensures off <= r < off + a
  {
    if off % a == 0 then off
    else
      var r := off + (a - off % a);
      ModUnique(r, off / a + 1, 0, a);
      r
  }

  /** Euclidean division has a unique remainder. */
  lemma ModUnique(x: int, q: int, m: int, a: int)
    requires a > 0 && 0 <= m < a && x == q * a + m
    ensures x % a == m
  {
    var q' := x / a;
    var m' := x % a;
    var d := q - q';
    assert d * a == m' - m by {
      assert q * a - q' * a == (q - q') * a;
    }
    if d >= 1 {
      MulAtLeast(d, a);
    } else if d <= -1 {
      assert (-d) * a == -(d * a);
      MulAtLeast(-d, a);
    }
  }

  lemma MulAtLeast(d: int, a: int)
    requires d >= 1 && a > 0
    ensures d * a >= a
  {
    assert d * a == (d - 1) * a + a;
    assert (d - 1) * a >= 0;
  }

  /**
    `t` lists a struct's members in declaration order with the offsets natural
    alignment gives them, `align` is the width of its widest member and `size`
    is `sizeof` of the struct.
   */
  ghost predicate NaturalLayout<N>(t: seq<Slot<N>>, align: nat, size: nat) {
    && |t| > 0
    && (forall i :: 0 <= i < |t| ==> IsScalarWidth(t[i].width) && t[i].count > 0 && t[i].width <= align)
    && (exists i :: 0 <= i < |t| && t[i].width == align)
    && t[0].offset == 0
    && (forall i :: 0 < i < |t| ==> t[i].offset == AlignUp(t[i - 1].End(), t[i].width))
    && size == AlignUp(t[|t| - 1].End(), align)
  }

  /** No two members share a name. */
  ghost predicate DistinctNames<N>(t: seq<Slot<N>>) {
    forall i, j :: 0 <= i < j < |t| ==> t[i].name != t[j].name
  }

  /** Every member starts at a multiple of its own width. */
  lemma LayoutAligned<N>(t: seq<Slot<N>>, align: nat, size: nat)
    requires NaturalLayout(t, align, size)
    ensures forall i :: 0 <= i < |t| ==> t[i].offset % t[i].width == 0
  {
    forall i | 0 <= i < |t|
      ensures t[i].offset % t[i].width == 0
    {
      if i > 0 {
        assert t[i].offset == AlignUp(t[i - 1].End(), t[i].width);
      }
    }
  }

  /** A member ends no later than any later member starts. */
  lemma {:induction false} LayoutOrdered<N>(t: seq<Slot<N>>, align: nat, size: nat)
    requires NaturalLayout(t, align, size)
    ensures forall i, j :: 0 <= i < j < |t| ==> t[i].End() <= t[j].offset
  {
    forall i, j | 0 <= i < j < |t|
      ensures t[i].End() <= t[j].offset
    {
      OrderedFrom(t, align, size, i, j);
    }
  }

  lemma {:induction false} OrderedFrom<N>(t: seq<Slot<N>>, align: nat, size: nat, i: nat, j: nat)
    requires NaturalLayout(t, align, size)
    requires i < j < |t|
    ensures t[i].End() <= t[j].offset
    decreases j - i
  {
    assert t[j].offset == AlignUp(t[j - 1].End(), t[j].width);
    if i < j - 1 {
      OrderedFrom(t, align, size, i, j - 1);
      assert t[j - 1].offset <= t[j - 1].End();
    }
  }

  /** Members occupy pairwise disjoint byte ranges. */
  lemma LayoutDisjoint<N>(t: seq<Slot<N>>, align: nat, size: nat)
    requires NaturalLayout(t, align, size)
    ensures forall i, j :: 0 <= i < |t| && 0 <= j < |t| && i != j ==>
      t[i].End() <= t[j].offset || t[j].End() <= t[i].offset
  {
    LayoutOrdered(t, align, size);
  }

  /** Every member lies inside the struct. */
  lemma LayoutInBounds<N>(t: seq<Slot<N>>, align: nat, size: nat)
    requires NaturalLayout(t, align, size)
    ensures forall i :: 0 <= i < |t| ==> t[i].End() <= size
  {
    LayoutOrdered(t, align, size);
    var last := |t| - 1;
    forall i | 0 <= i < |t|
      ensures t[i].End() <= size
    {
      if i < last {
        assert t[i].End() <= t[last].offset <= t[last].End();
      }
    }
  }

  /** The member called `n`, if the struct has one (the first such, in declaration order). */
  function Lookup<N(==)>(t: seq<Slot<N>>, n: N): (r: Option<Slot<N>>)
    ensures r.Some? ==> r.value.name == n
  {
    if |t| == 0 then None
    else if t[0].name == n then Some(t[0])
    else Lookup(t[1..], n)
  }

  /** A member that is found is one of the struct's members; `k` is its position. */
  lemma {:induction false} LookupIndex<N>(t: seq<Slot<N>>, n: N) returns (k: nat)
    requires Lookup(t, n).Some?
    ensures k < |t| && t[k] == Lookup(t, n).value
  {
    if t[0].name == n {
      k := 0;
    } else {
      var k' := LookupIndex(t[1..], n);
      k := k' + 1;
    }
  }

  /** Nothing is found exactly when no member has the name. */
  lemma {:induction false} LookupAbsent<N>(t: seq<Slot<N>>, n: N)
    ensures Lookup(t, n).None? <==> forall i :: 0 <= i < |t| ==> t[i].name != n
  {
    if |t| > 0 && t[0].name != n {
      LookupAbsent(t[1..], n);
      assert forall i :: 1 <= i < |t| ==> t[i] == t[1..][i - 1];
    }
  }

  /** With distinct names, the member found for `t[k].name` is `t[k]` itself. */
  lemma {:induction false} LookupAt<N>(t: seq<Slot<N>>, k: nat)
    requires k < |t|
    requires DistinctNames(t)
    ensures Lookup(t, t[k].name) == Some(t[k])
    decreases k
  {
    if k > 0 {
      assert t[0].name != t[k].name;
      assert t[1..][k - 1] == t[k];
      LookupAt(t[1..], k - 1);
    }
  }
}
