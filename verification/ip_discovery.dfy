/**
  What `enumerate_ips` in amdgpu_ips.py gathers before any de-duplication:
  the card chosen by `--gpu` (`detect_card`, amdgpu_ips.py:13-18) and one
  entry per `base_addr` line of every instance of every symbolic-link IP
  directory (amdgpu_ips.py:29-42). The sysfs reads are taken as input: a
  directory listing becomes a sequence and a file becomes the sequence of its
  lines, as `readlines()` returns them.
 */
module IpDiscovery {
  import opened Wrappers
  import opened PyText

  /** One instance directory of an IP block: the lines of its `major`, `minor`, `revision` and `base_addr` files. */
  datatype Instance = Instance(major: seq<string>, minor: seq<string>, revision: seq<string>, baseAddr: seq<string>)

  /** One entry of `ip_discovery/die/0`: its name, whether it is a symbolic link, and its instance directories. */
  datatype IpDir = IpDir(name: string, isLink: bool, instances: seq<Instance>)

  /** One collected IP, the dictionary with keys `name`, `version` and `base_addr`. */
  datatype Entry = Entry(name: string, version: string, baseAddr: string)

  /** The ways the script stops without printing a listing. */
  datatype Error =
    | NoCardFound           // "No card found!" (amdgpu_ips.py:17)
    | CardIndexOutOfRange   // IndexError of `cards[index]` for an index below `-len(cards)`
    | DiscoveryUnsupported  // "GPU IP discovery not supported! Old kernel?" (amdgpu_ips.py:25)
    | NoDieZero             // StopIteration of `next(os.walk(...))` when `die` exists but `die/0` does not (amdgpu_ips.py:27)
    | EmptyVersionFile      // IndexError of `[...][0]` on an empty major, minor or revision file
    | NoIps                 // ValueError of `max()` over no IPs (amdgpu_ips.py:45)

  /**
    `detect_card`: the card at `index` in the globbed list, with Python's
    negative indexing; the guard rejects an empty list and an index past the
    end, and an index below `-len(cards)` slips past the guard but fails when
    indexing.
   */
  function DetectCard(cards: seq<string>, index: int): (r: Result<string, Error>)
    ensures r.Success? <==> -|cards| <= index < |cards|
    ensures r == Failure(NoCardFound) <==> |cards| == 0 || index >= |cards|
    ensures 0 <= index < |cards| ==> r == Success(cards[index])
    ensures -|cards| <= index < 0 ==> r == Success(cards[|cards| + index])
  {
    if |cards| == 0 || |cards| - 1 < index then Failure(NoCardFound)
    else if index < -|cards| then Failure(CardIndexOutOfRange)
    else if index < 0 then Success(cards[|cards| + index])
    else Success(cards[index])
  }

  /** The stripped first line of a file, as `[x.strip() for x in lines][0]`. */
  function FirstLine(lines: seq<string>): (r: Result<string, Error>)
    ensures r.Success? <==> |lines| > 0
    ensures r.Success? ==> Trimmed(r.value)
  {
    if |lines| == 0 then Failure(EmptyVersionFile) else Success(Strip(lines[0]))
  }

  /** The version string `major.minor.revision` of an instance (amdgpu_ips.py:35-38). */
  function Version(i: Instance): (r: Result<string, Error>)
    ensures r.Success? <==> |i.major| > 0 && |i.minor| > 0 && |i.revision| > 0
    ensures r.Failure? ==> r.error == EmptyVersionFile
  {
    var major :- FirstLine(i.major);
    var minor :- FirstLine(i.minor);
    var revision :- FirstLine(i.revision);
    Success(major + "." + minor + "." + revision)
  }

  /** `s.split(".")`. */
  function Fields(s: string): (r: seq<string>)
    ensures |r| > 0
  {
    if |s| == 0 then [""]
    else
      var rest := Fields(s[1..]);
      if s[0] == '.' then [""] + rest else [[s[0]] + rest[0]] + rest[1..]
  }

  /** A string without a dot is a single field. */
  lemma {:induction false} FieldsNoDot(a: string)
    requires '.' !in a
    ensures Fields(a) == [a]
  {
    if |a| > 0 {
      FieldsNoDot(a[1..]);
      assert [a[0]] + a[1..] == a;
    }
  }

  /** A dot after a dot-free prefix separates that prefix as the first field. */
  lemma {:induction false} FieldsJoin(a: string, b: string)
    requires '.' !in a
    ensures Fields(a + "." + b) == [a] + Fields(b)
  {
    if |a| == 0 {
      assert a + "." + b == ['.'] + b;
      assert (['.'] + b)[1..] == b;
    } else {
      assert (a + "." + b)[1..] == a[1..] + "." + b;
      FieldsJoin(a[1..], b);
      assert [a[0]] + a[1..] == a;
    }
  }

  /**
    The version string splits back into the three stripped first lines
    whenever none of them holds a dot.
   */
  lemma VersionFields(i: Instance)
    requires Version(i).Success?
    requires '.' !in Strip(i.major[0]) && '.' !in Strip(i.minor[0]) && '.' !in Strip(i.revision[0])
    ensures Fields(Version(i).value) == [Strip(i.major[0]), Strip(i.minor[0]), Strip(i.revision[0])]
  {
    var a, b, c := Strip(i.major[0]), Strip(i.minor[0]), Strip(i.revision[0]);
    assert Version(i).value == a + "." + (b + "." + c);
    FieldsJoin(a, b + "." + c);
    FieldsJoin(b, c);
    FieldsNoDot(c);
  }

  /** The entries of one instance: one per line of its `base_addr` file (amdgpu_ips.py:39-42). */
  function InstanceEntries(name: string, i: Instance): (r: Result<seq<Entry>, Error>)
    ensures r.Success? <==> Version(i).Success?
    ensures r.Success? ==> |r.value| == |i.baseAddr|
    ensures r.Success? ==> forall k :: 0 <= k < |r.value| ==>
      r.value[k] == Entry(name, Version(i).value, Strip(i.baseAddr[k]))
  {
    var version :- Version(i);
    Success(seq(|i.baseAddr|, k requires 0 <= k < |i.baseAddr| => Entry(name, version, Strip(i.baseAddr[k]))))
  }

  /** The entries of the instances of one IP directory, in listing order. */
  function InstancesEntries(name: string, insts: seq<Instance>): Result<seq<Entry>, Error> {
    if |insts| == 0 then Success([])
    else
      var here :- InstanceEntries(name, insts[0]);
      var rest :- InstancesEntries(name, insts[1..]);
      Success(here + rest)
  }

  /** The entries of one IP directory; a directory that is not a link contributes none (amdgpu_ips.py:32). */
  function DirEntries(d: IpDir): Result<seq<Entry>, Error> {
    if d.isLink then InstancesEntries(d.name, d.instances) else Success([])
  }

  /** Every entry `enumerate_ips` would append without `-u`, in the order it appends them. */
  function Candidates(dirs: seq<IpDir>): Result<seq<Entry>, Error> {
    if |dirs| == 0 then Success([])
    else
      var here :- DirEntries(dirs[0]);
      var rest :- Candidates(dirs[1..]);
      Success(here + rest)
  }

  /** Every version file of every instance of every linked directory has a first line. */
  predicate Readable(dirs: seq<IpDir>) {
    forall j, k :: 0 <= j < |dirs| && dirs[j].isLink && 0 <= k < |dirs[j].instances| ==>
      Version(dirs[j].instances[k]).Success?
  }

  /** The number of `base_addr` lines over all instances of `insts`. */
  function AddrLines(insts: seq<Instance>): nat {
    if |insts| == 0 then 0 else |insts[0].baseAddr| + AddrLines(insts[1..])
  }

  /** The number of `base_addr` lines over the linked directories of `dirs`. */
  function LinkedAddrLines(dirs: seq<IpDir>): nat {
    if |dirs| == 0 then 0
    else (if dirs[0].isLink then AddrLines(dirs[0].instances) else 0) + LinkedAddrLines(dirs[1..])
  }

  /** The names of the linked directories of `dirs`. */
  function LinkedNames(dirs: seq<IpDir>): set<string> {
    set j | 0 <= j < |dirs| && dirs[j].isLink :: dirs[j].name
  }

  /** `e` is the entry that some `base_addr` line of instance `i` of directory `name` yields. */
  predicate FromLine(e: Entry, name: string, i: Instance) {
    Version(i).Success? && exists m :: 0 <= m < |i.baseAddr| && e == Entry(name, Version(i).value, Strip(i.baseAddr[m]))
  }

  /** `k` indexes an instance of the linked directory at index `j`. */
  predicate LinkedInstance(dirs: seq<IpDir>, j: int, k: int) {
    0 <= j < |dirs| && dirs[j].isLink && 0 <= k < |dirs[j].instances|
  }

  /** Every entry of a directory's instances comes from a `base_addr` line of one of them. */
  lemma {:induction false} InstancesEntriesFromLines(name: string, insts: seq<Instance>)
    ensures InstancesEntries(name, insts).Success? ==>
      forall e :: e in InstancesEntries(name, insts).value ==>
        exists k :: 0 <= k < |insts| && FromLine(e, name, insts[k])
  {
    if |insts| > 0 && InstancesEntries(name, insts).Success? {
      InstancesEntriesFromLines(name, insts[1..]);
      var here := InstanceEntries(name, insts[0]).value;
      var rest := InstancesEntries(name, insts[1..]).value;
      forall e | e in InstancesEntries(name, insts).value
        ensures exists k :: 0 <= k < |insts| && FromLine(e, name, insts[k])
      {
        if e in here {
          var m :| 0 <= m < |here| && here[m] == e;
          assert FromLine(e, name, insts[0]);
        } else {
          assert e in rest;
          var k :| 0 <= k < |insts[1..]| && FromLine(e, name, insts[1..][k]);
          assert FromLine(e, name, insts[k + 1]);
        }
      }
    }
  }

  /**
    Gathering over one more instance appends that instance's entries after
    the ones gathered so far, as the loop over `ip_instances` does
    (amdgpu_ips.py:34-43); the failure is the first one met.
   */
  lemma {:induction false} InstancesEntriesAppend(name: string, insts: seq<Instance>, i: Instance)
    ensures InstancesEntries(name, insts + [i]).Success? <==>
      InstancesEntries(name, insts).Success? && InstanceEntries(name, i).Success?
    ensures InstancesEntries(name, insts + [i]).Success? ==>
      InstancesEntries(name, insts + [i]).value == InstancesEntries(name, insts).value + InstanceEntries(name, i).value
  {
    if |insts| == 0 {
      assert insts + [i] == [i];
      assert [i][1..] == [];
    } else {
      assert (insts + [i])[0] == insts[0];
      assert (insts + [i])[1..] == insts[1..] + [i];
      InstancesEntriesAppend(name, insts[1..], i);
      var r0 := InstanceEntries(name, insts[0]);
      if r0.Success? && InstancesEntries(name, insts[1..] + [i]).Success? {
        var rest := InstancesEntries(name, insts[1..]).value;
        assert r0.value + (rest + InstanceEntries(name, i).value) == (r0.value + rest) + InstanceEntries(name, i).value;
      }
    }
  }

  /** Gathering over a single directory gives that directory's entries. */
  lemma CandidatesSingle(d: IpDir)
    ensures Candidates([d]).Success? <==> DirEntries(d).Success?
    ensures Candidates([d]).Success? ==> Candidates([d]).value == DirEntries(d).value
  {
    assert [d][1..] == [];
    assert Candidates([d][1..]) == Success([]);
  }

  /**
    Gathering over one more IP directory appends that directory's entries
    after the ones gathered so far, as the loop over `dirs` does
    (amdgpu_ips.py:30-43); the failure is the first one met.
   */
  lemma {:induction false} CandidatesAppend(dirs: seq<IpDir>, d: IpDir)
    ensures Candidates(dirs + [d]).Success? <==> Candidates(dirs).Success? && DirEntries(d).Success?
    ensures Candidates(dirs + [d]).Success? ==>
      Candidates(dirs + [d]).value == Candidates(dirs).value + DirEntries(d).value
  {
    if |dirs| == 0 {
      assert dirs + [d] == [d];
      CandidatesSingle(d);
    } else {
      CandidatesAppend(dirs[1..], d);
      assert (dirs + [d])[0] == dirs[0];
      assert (dirs + [d])[1..] == dirs[1..] + [d];
      var r0 := DirEntries(dirs[0]);
      if r0.Failure? {
        assert Candidates(dirs + [d]) == Failure(r0.error);
        assert Candidates(dirs) == Failure(r0.error);
      } else {
        CandidatesCons(dirs + [d]);
        CandidatesCons(dirs);
        var a, b, e := Candidates(dirs[1..] + [d]), Candidates(dirs[1..]), DirEntries(d);
        if b.Success? && e.Success? {
          assert a.Success? && a.value == b.value + e.value;
          assert Candidates(dirs + [d]).value == r0.value + a.value;
          assert Candidates(dirs).value == r0.value + b.value;
          ConcatAssoc(r0.value, b.value, e.value);
        }
      }
    }
  }

  /** Concatenation of entry lists is associative. */
  lemma ConcatAssoc(a: seq<Entry>, b: seq<Entry>, c: seq<Entry>)
    ensures a + (b + c) == (a + b) + c
  {
  }

  /** When the first directory's entries exist, gathering is those entries followed by the rest's. */
  lemma CandidatesCons(dirs: seq<IpDir>)
    requires |dirs| > 0 && DirEntries(dirs[0]).Success?
    ensures Candidates(dirs).Success? <==> Candidates(dirs[1..]).Success?
    ensures Candidates(dirs).Success? ==> Candidates(dirs).value == DirEntries(dirs[0]).value + Candidates(dirs[1..]).value
  {
  }

  /** Every `base_addr` line of instance `i` of directory `name` yields its entry in `es`. */
  predicate YieldsLines(es: seq<Entry>, name: string, i: Instance) {
    Version(i).Success? &&
    forall m :: 0 <= m < |i.baseAddr| ==> Entry(name, Version(i).value, Strip(i.baseAddr[m])) in es
  }

  /** Every `base_addr` line of a directory's instances yields its entry. */
  lemma {:induction false} InstancesEntriesCoverLines(name: string, insts: seq<Instance>)
    ensures InstancesEntries(name, insts).Success? ==>
      forall k :: 0 <= k < |insts| ==> YieldsLines(InstancesEntries(name, insts).value, name, insts[k])
  {
    if |insts| > 0 && InstancesEntries(name, insts).Success? {
      var r0 := InstanceEntries(name, insts[0]);
      var r1 := InstancesEntries(name, insts[1..]);
      assert r0.Success? && r1.Success?;
      InstancesEntriesCoverLines(name, insts[1..]);
      var here, rest := r0.value, r1.value;
      assert InstancesEntries(name, insts).value == here + rest;
      forall k | 0 <= k < |insts|
        ensures YieldsLines(here + rest, name, insts[k])
      {
        if k == 0 {
          forall m | 0 <= m < |insts[0].baseAddr|
            ensures Entry(name, Version(insts[0]).value, Strip(insts[0].baseAddr[m])) in here + rest
          {
            assert here[m] in here + rest;
          }
        } else {
          assert insts[1..][k - 1] == insts[k];
          assert YieldsLines(rest, name, insts[k]);
        }
      }
    }
  }

  /**
    The instances of a directory yield entries exactly when every one has a
    version; there is then one entry per `base_addr` line, every entry comes
    from such a line, and every such line yields its entry.
   */
  lemma {:induction false} InstancesEntriesSpec(name: string, insts: seq<Instance>)
    ensures InstancesEntries(name, insts).Success? <==> forall k :: 0 <= k < |insts| ==> Version(insts[k]).Success?
    ensures InstancesEntries(name, insts).Failure? ==> InstancesEntries(name, insts).error == EmptyVersionFile
    ensures InstancesEntries(name, insts).Success? ==>
      && |InstancesEntries(name, insts).value| == AddrLines(insts)
      && forall e :: e in InstancesEntries(name, insts).value ==> e.name == name
    ensures InstancesEntries(name, insts).Success? ==>
      forall e :: e in InstancesEntries(name, insts).value ==>
        exists k :: 0 <= k < |insts| && FromLine(e, name, insts[k])
    ensures InstancesEntries(name, insts).Success? ==>
      forall k :: 0 <= k < |insts| ==> YieldsLines(InstancesEntries(name, insts).value, name, insts[k])
  {
    if |insts| > 0 {
      InstancesEntriesSpec(name, insts[1..]);
      assert forall k :: 1 <= k < |insts| ==> insts[k] == insts[1..][k - 1];
    }
    InstancesEntriesFromLines(name, insts);
    InstancesEntriesCoverLines(name, insts);
  }

  /** Every candidate comes from a `base_addr` line of an instance of a linked directory. */
  lemma {:induction false} CandidatesFromLines(dirs: seq<IpDir>)
    ensures Candidates(dirs).Success? ==>
      forall e :: e in Candidates(dirs).value ==>
        exists j, k :: LinkedInstance(dirs, j, k) && FromLine(e, dirs[j].name, dirs[j].instances[k])
  {
    if |dirs| > 0 && Candidates(dirs).Success? {
      CandidatesFromLines(dirs[1..]);
      InstancesEntriesFromLines(dirs[0].name, dirs[0].instances);
      var here := DirEntries(dirs[0]).value;
      var rest := Candidates(dirs[1..]).value;
      forall e | e in Candidates(dirs).value
        ensures exists j, k :: LinkedInstance(dirs, j, k) && FromLine(e, dirs[j].name, dirs[j].instances[k])
      {
        if e in here {
          var k :| 0 <= k < |dirs[0].instances| && FromLine(e, dirs[0].name, dirs[0].instances[k]);
          assert LinkedInstance(dirs, 0, k);
        } else {
          assert e in rest;
          var j, k :| LinkedInstance(dirs[1..], j, k) && FromLine(e, dirs[1..][j].name, dirs[1..][j].instances[k]);
          assert dirs[j + 1] == dirs[1..][j];
          assert LinkedInstance(dirs, j + 1, k);
        }
      }
    }
  }

  /** Every `base_addr` line of an instance of a linked directory yields its entry among the candidates. */
  lemma {:induction false} CandidatesCoverLines(dirs: seq<IpDir>)
    ensures Candidates(dirs).Success? ==>
      forall j, k :: LinkedInstance(dirs, j, k) ==>
        YieldsLines(Candidates(dirs).value, dirs[j].name, dirs[j].instances[k])
  {
    if |dirs| > 0 && Candidates(dirs).Success? {
      var r0 := DirEntries(dirs[0]);
      var r1 := Candidates(dirs[1..]);
      assert r0.Success? && r1.Success?;
      CandidatesCoverLines(dirs[1..]);
      InstancesEntriesCoverLines(dirs[0].name, dirs[0].instances);
      var here, rest := r0.value, r1.value;
      assert Candidates(dirs).value == here + rest;
      forall j, k | LinkedInstance(dirs, j, k)
        ensures YieldsLines(here + rest, dirs[j].name, dirs[j].instances[k])
      {
        if j == 0 {
          assert YieldsLines(here, dirs[0].name, dirs[0].instances[k]);
        } else {
          assert dirs[1..][j - 1] == dirs[j];
          assert LinkedInstance(dirs[1..], j - 1, k);
          assert YieldsLines(rest, dirs[j].name, dirs[j].instances[k]);
        }
      }
    }
  }

  /**
    Gathering succeeds exactly when every version file it opens has a line;
    it then yields one entry per `base_addr` line of the linked directories,
    every entry comes from such a line of a linked directory, and every such
    line yields its entry.
   */
  lemma {:induction false} CandidatesSpec(dirs: seq<IpDir>)
    ensures Candidates(dirs).Success? <==> Readable(dirs)
    ensures Candidates(dirs).Failure? ==> Candidates(dirs).error == EmptyVersionFile
    ensures Candidates(dirs).Success? ==>
      && |Candidates(dirs).value| == LinkedAddrLines(dirs)
      && forall e :: e in Candidates(dirs).value ==> e.name in LinkedNames(dirs)
    ensures Candidates(dirs).Success? ==>
      forall e :: e in Candidates(dirs).value ==>
        exists j, k :: LinkedInstance(dirs, j, k) && FromLine(e, dirs[j].name, dirs[j].instances[k])
    ensures Candidates(dirs).Success? ==>
      forall j, k :: LinkedInstance(dirs, j, k) ==>
        YieldsLines(Candidates(dirs).value, dirs[j].name, dirs[j].instances[k])
  {
    if |dirs| > 0 {
      CandidatesSpec(dirs[1..]);
      InstancesEntriesSpec(dirs[0].name, dirs[0].instances);
      assert forall j :: 1 <= j < |dirs| ==> dirs[j] == dirs[1..][j - 1];
      assert LinkedNames(dirs[1..]) <= LinkedNames(dirs);
      if dirs[0].isLink {
        assert dirs[0].name in LinkedNames(dirs);
      }
    }
    CandidatesFromLines(dirs);
    CandidatesCoverLines(dirs);
  }
}
