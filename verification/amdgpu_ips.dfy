/**
  `enumerate_ips` of amdgpu_ips.py end to end, with the sysfs tree as input:
  choose the card, gather the candidate entries, apply the `-u` rule, size
  the name and version columns, sort by base address and format one line
  per entry (amdgpu_ips.py:20-49).
 */
module AmdgpuIps {
  import opened Wrappers
  import opened PyText
  import opened IpDiscovery
  import opened IpDedupe
  import opened IpSort

  /** `max(len(x) for x in s)`; Python raises ValueError on an empty `s`, hence the precondition. */
  function MaxLen(s: seq<string>): (m: nat)
    requires |s| > 0
    ensures forall i :: 0 <= i < |s| ==> |s[i]| <= m
    ensures exists i :: 0 <= i < |s| && |s[i]| == m
  {
    if |s| == 1 then |s[0]|
    else
      var rest := MaxLen(s[1..]);
      assert forall i :: 1 <= i < |s| ==> s[i] == s[1..][i - 1];
      if |s[0]| < rest then rest else |s[0]|
  }

  /** The names of the entries, in order. */
  function Names(ips: seq<Entry>): (r: seq<string>)
    ensures |r| == |ips| && forall i :: 0 <= i < |ips| ==> r[i] == ips[i].name
  {
    seq(|ips|, i requires 0 <= i < |ips| => ips[i].name)
  }

  /** The versions of the entries, in order. */
  function Versions(ips: seq<Entry>): (r: seq<string>)
    ensures |r| == |ips| && forall i :: 0 <= i < |ips| ==> r[i] == ips[i].version
  {
    seq(|ips|, i requires 0 <= i < |ips| => ips[i].version)
  }

  /** The f-string of amdgpu_ips.py:49: name right-aligned, version left-aligned, then the address. */
  function Line(e: Entry, nameWidth: nat, versionWidth: nat): string {
    PadLeft(e.name, nameWidth) + " " + PadRight(e.version, versionWidth) + " " + e.baseAddr
  }

  /**
    When the widths fit the entry, its line is the name ending at column
    `nameWidth`, a space, the version starting at column `nameWidth + 1`
    padded with spaces to `versionWidth`, a space, and the address from
    column `nameWidth + versionWidth + 2` on.
   */
  lemma LineColumns(e: Entry, nameWidth: nat, versionWidth: nat)
    requires |e.name| <= nameWidth && |e.version| <= versionWidth
    ensures var l := Line(e, nameWidth, versionWidth);
      && |l| == nameWidth + versionWidth + 2 + |e.baseAddr|
      && (forall k :: 0 <= k < nameWidth - |e.name| ==> l[k] == ' ')
      && l[nameWidth - |e.name|..nameWidth] == e.name
      && l[nameWidth] == ' '
      && l[nameWidth + 1..nameWidth + 1 + |e.version|] == e.version
      && (forall k :: nameWidth + 1 + |e.version| <= k <= nameWidth + 1 + versionWidth ==> l[k] == ' ')
      && l[nameWidth + versionWidth + 2..] == e.baseAddr
  {
    var name := PadLeft(e.name, nameWidth);
    var version := PadRight(e.version, versionWidth);
    assert |name| == nameWidth && |version| == versionWidth;
    var l := name + " " + version + " " + e.baseAddr;
    assert Line(e, nameWidth, versionWidth) == l;
    ThreeFields(name, version, e.baseAddr);
    assert l[..nameWidth] == name;
    NameColumn(l, e.name, nameWidth);
    assert l[nameWidth + 1..nameWidth + 1 + versionWidth] == version;
    assert l[nameWidth + 1 + versionWidth] == ' ';
    VersionColumn(l, nameWidth + 1, e.version, versionWidth);
  }

  /** A line that starts with `s` padded on the left to `w` has `s` ending at column `w`. */
  lemma NameColumn(l: string, s: string, w: nat)
    requires |s| <= w <= |l| && l[..w] == PadLeft(s, w)
    ensures forall k :: 0 <= k < w - |s| ==> l[k] == ' '
    ensures l[w - |s|..w] == s
  {
    var name := PadLeft(s, w);
    forall k | 0 <= k < w - |s|
      ensures l[k] == ' '
    {
      assert l[k] == l[..w][k];
    }
    assert l[w - |s|..w] == name[w - |s|..];
  }

  /** A line holding `s` padded on the right to `w` from column `at` on has `s` at `at` and spaces after it. */
  lemma VersionColumn(l: string, at: nat, s: string, w: nat)
    requires |s| <= w && at + w < |l| && l[at..at + w] == PadRight(s, w) && l[at + w] == ' '
    ensures l[at..at + |s|] == s
    ensures forall k :: at + |s| <= k <= at + w ==> l[k] == ' '
  {
    var version := PadRight(s, w);
    assert l[at..at + |s|] == l[at..at + w][..|s|];
    forall k | at + |s| <= k < at + w
      ensures l[k] == ' '
    {
      assert l[k] == l[at..at + w][k - at];
    }
  }

  /** Where the parts of `a + " " + b + " " + c` sit. */
  lemma ThreeFields(a: string, b: string, c: string)
    ensures var l := a + " " + b + " " + c;
      && |l| == |a| + |b| + 2 + |c|
      && l[..|a|] == a
      && l[|a|] == ' '
      && l[|a| + 1..|a| + 1 + |b|] == b
      && (forall k :: 0 <= k < |b| ==> l[|a| + 1 + k] == b[k])
      && l[|a| + 1 + |b|] == ' '
      && l[|a| + |b| + 2..] == c
  {
    var l := a + " " + b + " " + c;
    assert l == (a + " ") + (b + " " + c);
    assert l[|a| + 1..] == b + " " + c;
    assert (b + " " + c)[..|b|] == b;
    assert (b + " " + c)[|b| + 1..] == c;
  }

  /** The printed lines for a non-empty collected list (amdgpu_ips.py:45-49). */
  function Listing(ips: seq<Entry>): (r: Result<seq<string>, Error>)
    ensures r.Success? <==> |ips| > 0
    ensures r.Failure? ==> r.error == NoIps
    ensures r.Success? ==> |r.value| == |ips|
  {
    if |ips| == 0 then Failure(NoIps)
    else
      var nameWidth := MaxLen(Names(ips));
      var versionWidth := MaxLen(Versions(ips));
      var sorted := SortByAddress(ips);
      Success(seq(|sorted|, i requires 0 <= i < |sorted| => Line(sorted[i], nameWidth, versionWidth)))
  }

  /**
    The listing is the sorted entries, one line each, formatted with the
    widths of the longest name and the longest version; every entry fits
    those widths, so by `LineColumns` every name ends in the same column and
    every version and address starts in the same column.
   */
  lemma ListingColumns(ips: seq<Entry>)
    requires |ips| > 0
    ensures var lines := Listing(ips).value;
      var sorted := SortByAddress(ips);
      var w := MaxLen(Names(ips));
      var v := MaxLen(Versions(ips));
      && (exists i :: 0 <= i < |ips| && |ips[i].name| == w)
      && (exists i :: 0 <= i < |ips| && |ips[i].version| == v)
      && |lines| == |sorted|
      && forall i :: 0 <= i < |lines| ==>
        |sorted[i].name| <= w && |sorted[i].version| <= v && lines[i] == Line(sorted[i], w, v)
  {
    var sorted := SortByAddress(ips);
    var names, versions := Names(ips), Versions(ips);
    SortPermutes(ips);
    forall i | 0 <= i < |sorted|
      ensures |sorted[i].name| <= MaxLen(names) && |sorted[i].version| <= MaxLen(versions)
    {
      assert sorted[i] in multiset(ips);
      var j :| 0 <= j < |ips| && ips[j] == sorted[i];
      assert names[j] == sorted[i].name && versions[j] == sorted[i].version;
    }
    var k :| 0 <= k < |ips| && |names[k]| == MaxLen(names);
    var m :| 0 <= m < |ips| && |versions[m]| == MaxLen(versions);
    assert |ips[k].name| == MaxLen(names) && |ips[m].version| == MaxLen(versions);
  }

  /**
    `enumerate_ips` with the sysfs tree as input: `cards` is the glob result,
    `discovery` maps a card that has `device/ip_discovery/die` to the
    directories under `die/0`, or to `None` when `die/0` does not exist, and
    `unique` is `-u`.
   */
  function EnumerateIps(cards: seq<string>, index: int, discovery: map<string, Option<seq<IpDir>>>, unique: bool): (r: Result<seq<string>, Error>)
  {
    var card :- DetectCard(cards, index);
    if card !in discovery then Failure(DiscoveryUnsupported)
    else if discovery[card].None? then Failure(NoDieZero)
    else
      var cands :- Candidates(discovery[card].value);
      Listing(Collect(cands, unique))
  }

  /**
    The listing is printed exactly when the card exists, has IP discovery
    with a `die/0`, every version file it reads has a line, and some linked
    IP has a base address line; it then has one line per collected entry,
    which without `-u` is one per base-address line. A chosen card without
    `die` stops with the "not supported" message, and one with `die` but
    without `die/0` stops in `next`.
   */
  lemma EnumerateOutcome(cards: seq<string>, index: int, discovery: map<string, Option<seq<IpDir>>>, unique: bool)
    ensures var r := EnumerateIps(cards, index, discovery, unique);
      r.Success? <==>
        && -|cards| <= index < |cards|
        && DetectCard(cards, index).value in discovery
        && discovery[DetectCard(cards, index).value].Some?
        && Readable(discovery[DetectCard(cards, index).value].value)
        && LinkedAddrLines(discovery[DetectCard(cards, index).value].value) > 0
    ensures var r := EnumerateIps(cards, index, discovery, unique);
      r.Success? && !unique ==> |r.value| == LinkedAddrLines(discovery[DetectCard(cards, index).value].value)
    ensures var r := EnumerateIps(cards, index, discovery, unique);
      DetectCard(cards, index).Success? ==>
        && (r == Failure(DiscoveryUnsupported) <==> DetectCard(cards, index).value !in discovery)
        && (r == Failure(NoDieZero) <==>
              DetectCard(cards, index).value in discovery && discovery[DetectCard(cards, index).value].None?)
  {
    var c := DetectCard(cards, index);
    if c.Success? && c.value in discovery && discovery[c.value].Some? {
      var dirs := discovery[c.value].value;
      CandidatesSpec(dirs);
      if Candidates(dirs).Success? {
        CollectNonEmpty(Candidates(dirs).value, unique);
      }
    }
  }
}
