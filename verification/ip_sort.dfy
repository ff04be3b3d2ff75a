/**
  `sorted(ips, key=lambda d: d['base_addr'])` (amdgpu_ips.py:48): a stable
  ascending sort of the collected entries by their base-address string,
  written as an insertion sort that places each entry before the first
  later entry whose address is not smaller.
 */
module IpSort {
  import opened PyText
  import opened IpDiscovery

  /** `e` inserted into `s` just before the first entry whose address is at least `e`'s. */
  function Insert(e: Entry, s: seq<Entry>): (r: seq<Entry>)
    ensures |r| == |s| + 1
  {
    if |s| == 0 then [e]
    else if StrLe(e.baseAddr, s[0].baseAddr) then [e] + s
    else [s[0]] + Insert(e, s[1..])
  }

  /** The entries of `s` in ascending order of base address, equal addresses keeping their order. */
  function SortByAddress(s: seq<Entry>): (r: seq<Entry>)
    ensures |r| == |s|
  {
    if |s| == 0 then [] else Insert(s[0], SortByAddress(s[1..]))
  }

  /** Every entry's address is at most every later entry's address. */
  predicate SortedByAddress(s: seq<Entry>) {
    forall i, j :: 0 <= i < j < |s| ==> StrLe(s[i].baseAddr, s[j].baseAddr)
  }

  /** The entries of `s` whose address is `a`, in order. */
  function WithAddress(s: seq<Entry>, a: string): seq<Entry> {
    if |s| == 0 then []
    else (if s[0].baseAddr == a then [s[0]] else []) + WithAddress(s[1..], a)
  }

  lemma {:induction false} InsertPermutes(e: Entry, s: seq<Entry>)
    ensures multiset(Insert(e, s)) == multiset(s) + multiset{e}
  {
    if |s| > 0 && !StrLe(e.baseAddr, s[0].baseAddr) {
      InsertPermutes(e, s[1..]);
      assert s == [s[0]] + s[1..];
    }
  }

  /** The sort output is a permutation of its input. */
  lemma {:induction false} SortPermutes(s: seq<Entry>)
    ensures multiset(SortByAddress(s)) == multiset(s)
  {
    if |s| > 0 {
      SortPermutes(s[1..]);
      InsertPermutes(s[0], SortByAddress(s[1..]));
      assert s == [s[0]] + s[1..];
    }
  }

  lemma {:induction false} InsertSorted(e: Entry, s: seq<Entry>)
    requires SortedByAddress(s)
    ensures SortedByAddress(Insert(e, s))
  {
    if |s| > 0 {
      if StrLe(e.baseAddr, s[0].baseAddr) {
        var r := [e] + s;
        forall i, j | 0 <= i < j < |r|
          ensures StrLe(r[i].baseAddr, r[j].baseAddr)
        {
          if i == 0 && j > 1 {
            StrLeTransitive(e.baseAddr, s[0].baseAddr, s[j - 1].baseAddr);
          }
        }
      } else {
        StrLeTotal(e.baseAddr, s[0].baseAddr);
        var t := Insert(e, s[1..]);
        InsertSorted(e, s[1..]);
        InsertPermutes(e, s[1..]);
        var r := [s[0]] + t;
        forall i, j | 0 <= i < j < |r|
          ensures StrLe(r[i].baseAddr, r[j].baseAddr)
        {
          if i == 0 {
            assert r[j] in multiset(t);
            if r[j] != e {
              assert r[j] in s[1..];
            }
          }
        }
      }
    }
  }

  /** The sort output is in ascending order of address. */
  lemma {:induction false} SortSorted(s: seq<Entry>)
    ensures SortedByAddress(SortByAddress(s))
  {
    if |s| > 0 {
      SortSorted(s[1..]);
      InsertSorted(s[0], SortByAddress(s[1..]));
    }
  }

  lemma {:induction false} WithAddressConcat(s: seq<Entry>, t: seq<Entry>, a: string)
    ensures WithAddress(s + t, a) == WithAddress(s, a) + WithAddress(t, a)
  {
    if |s| > 0 {
      WithAddressConcat(s[1..], t, a);
      assert (s + t)[1..] == s[1..] + t;
    } else {
      assert s + t == t;
    }
  }

  /**
    Inserting `e` puts it ahead of every entry with its address, since every
    entry it passes has a strictly smaller address.
   */
  lemma {:induction false} InsertStable(e: Entry, s: seq<Entry>, a: string)
    ensures WithAddress(Insert(e, s), a) == WithAddress([e], a) + WithAddress(s, a)
  {
    if |s| == 0 {
    } else if StrLe(e.baseAddr, s[0].baseAddr) {
      WithAddressConcat([e], s, a);
    } else {
      InsertStable(e, s[1..], a);
      WithAddressConcat([s[0]], Insert(e, s[1..]), a);
      WithAddressConcat([s[0]], s[1..], a);
      assert s == [s[0]] + s[1..];
      if e.baseAddr == a && s[0].baseAddr == a {
        StrLeReflexive(a);
      }
    }
  }

  /** The sort is stable: entries with equal addresses keep their relative order. */
  lemma {:induction false} SortStable(s: seq<Entry>, a: string)
    ensures WithAddress(SortByAddress(s), a) == WithAddress(s, a)
  {
    if |s| > 0 {
      SortStable(s[1..], a);
      InsertStable(s[0], SortByAddress(s[1..]), a);
      WithAddressConcat([s[0]], s[1..], a);
      assert s == [s[0]] + s[1..];
    }
  }
}
