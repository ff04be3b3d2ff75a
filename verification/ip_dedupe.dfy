/**
  The `-u` rule of `enumerate_ips` (amdgpu_ips.py:43): each candidate entry
  is appended to the list unless `-u` was given and an entry already in the
  list has the same name and version.
 */
module IpDedupe {
  import opened IpDiscovery

  /** The pair the `-u` rule compares. */
  function Key(e: Entry): (string, string) {
    (e.name, e.version)
  }

  /** Some entry of `s` has key `k`: the `any(...)` of amdgpu_ips.py:43. */
  predicate HasKey(s: seq<Entry>, k: (string, string)) {
    exists i :: 0 <= i < |s| && Key(s[i]) == k
  }

  /** No two entries of `s` share a key. */
  predicate DistinctKeys(s: seq<Entry>) {
    forall i, j :: 0 <= i < j < |s| ==> Key(s[i]) != Key(s[j])
  }

  /**
    The list `ips` after every candidate has been offered in turn: the last
    candidate is appended when no entry kept so far has its key, or always
    when `-u` is off.
   */
  function Collect(cands: seq<Entry>, unique: bool): (r: seq<Entry>)
    ensures !unique ==> r == cands
    ensures |r| <= |cands|
  {
    if |cands| == 0 then []
    else
      var ips := Collect(cands[..|cands| - 1], unique);
      var c := cands[|cands| - 1];
      assert cands == cands[..|cands| - 1] + [c];
      if !HasKey(ips, Key(c)) || !unique then ips + [c] else ips
  }

  /** Candidate `i` is the first candidate with its key. */
  predicate IsFirst(cands: seq<Entry>, i: nat)
    requires i < |cands|
  {
    forall j :: 0 <= j < i ==> Key(cands[j]) != Key(cands[i])
  }

  /** Reference: the candidates that are the first of their key, in candidate order. */
  function FirstOccurrences(cands: seq<Entry>): seq<Entry> {
    if |cands| == 0 then []
    else
      var n := |cands| - 1;
      FirstOccurrences(cands[..n]) + (if IsFirst(cands, n) then [cands[n]] else [])
  }

  lemma HasKeyAppend(s: seq<Entry>, x: Entry, k: (string, string))
    ensures HasKey(s + [x], k) <==> HasKey(s, k) || Key(x) == k
  {
    if HasKey(s, k) {
      var i :| 0 <= i < |s| && Key(s[i]) == k;
      assert (s + [x])[i] == s[i];
    }
    if Key(x) == k {
      assert (s + [x])[|s|] == x;
    }
  }

  /** A prefix of the candidates has key `k` exactly when the list kept from it does. */
  lemma {:induction false} CollectKeys(cands: seq<Entry>, k: (string, string))
    ensures HasKey(Collect(cands, true), k) <==> HasKey(cands, k)
  {
    if |cands| > 0 {
      var n := |cands| - 1;
      var p, x := cands[..n], cands[n];
      assert cands == p + [x];
      CollectKeys(p, k);
      CollectKeys(p, Key(x));
      HasKeyAppend(p, x, k);
      HasKeyAppend(Collect(p, true), x, k);
    }
  }

  /** With `-u`, the kept list is exactly the first candidate of every key, in order. */
  lemma {:induction false} CollectFirsts(cands: seq<Entry>)
    ensures Collect(cands, true) == FirstOccurrences(cands)
  {
    if |cands| > 0 {
      var n := |cands| - 1;
      var p, x := cands[..n], cands[n];
      CollectFirsts(p);
      CollectKeys(p, Key(x));
      if HasKey(p, Key(x)) {
        var j :| 0 <= j < |p| && Key(p[j]) == Key(x);
        assert Key(cands[j]) == Key(cands[n]);
      } else {
        forall j | 0 <= j < n
          ensures Key(cands[j]) != Key(cands[n])
        {
          assert cands[j] == p[j];
        }
      }
    }
  }

  /** With `-u`, no two kept entries share a name and version. */
  lemma {:induction false} CollectDistinct(cands: seq<Entry>)
    ensures DistinctKeys(Collect(cands, true))
  {
    if |cands| > 0 {
      var n := |cands| - 1;
      var p, x := cands[..n], cands[n];
      CollectDistinct(p);
      var ips := Collect(p, true);
      if !HasKey(ips, Key(x)) {
        var r := ips + [x];
        forall i, j | 0 <= i < j < |r|
          ensures Key(r[i]) != Key(r[j])
        {
          if j == |ips| {
            assert r[i] == ips[i];
          } else {
            assert r[i] == ips[i] && r[j] == ips[j];
          }
        }
      }
    }
  }

  /** Some entry is kept exactly when there was some candidate, with or without `-u`. */
  lemma CollectNonEmpty(cands: seq<Entry>, unique: bool)
    ensures |Collect(cands, unique)| > 0 <==> |cands| > 0
  {
    if |cands| > 0 && unique {
      CollectKeys(cands, Key(cands[0]));
      assert Key(cands[0]) == Key(cands[0]);
    }
  }

  /**
    The reference keeps every candidate that is the first of its key and
    nothing else: in particular the base address kept for a key is that of
    its first candidate.
   */
  lemma {:induction false} FirstOccurrencesMembers(cands: seq<Entry>)
    ensures forall i :: 0 <= i < |cands| && IsFirst(cands, i) ==> cands[i] in FirstOccurrences(cands)
    ensures forall e :: e in FirstOccurrences(cands) ==>
      exists i :: 0 <= i < |cands| && cands[i] == e && IsFirst(cands, i)
  {
    if |cands| > 0 {
      var n := |cands| - 1;
      var p := cands[..n];
      FirstOccurrencesMembers(p);
      forall i | 0 <= i < n
        ensures IsFirst(cands, i) <==> IsFirst(p, i)
      {
        assert forall j :: 0 <= j <= i ==> p[j] == cands[j];
      }
      forall e | e in FirstOccurrences(cands)
        ensures exists i :: 0 <= i < |cands| && cands[i] == e && IsFirst(cands, i)
      {
        if e in FirstOccurrences(p) {
          var i :| 0 <= i < |p| && p[i] == e && IsFirst(p, i);
          assert cands[i] == e && IsFirst(cands, i);
        } else {
          assert cands[n] == e && IsFirst(cands, n);
        }
      }
    }
  }
}
