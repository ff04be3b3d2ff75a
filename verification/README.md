# amdgpu-tools core, modelled in Dafny

This project models the two pieces of logic in amdgpu-tools.

**The `gpu_metrics` reader of `metrics.c`.** The kernel exposes a binary table.
Every version of it starts with a common header: a `uint16_t` structure size,
then a `uint8_t` format revision and a `uint8_t` content revision. The program
reads the file into a working buffer of `void *` elements, one per byte of the
largest known layout, so 152 elements and 1216 bytes on x86-64. It
prints the revision pair. On exactly (1, 3), (2, 2) or (2, 3) it casts the
buffer to `gpu_metrics_v1_3`, `gpu_metrics_v2_2` or `gpu_metrics_v2_3`.
It then prints the socket power as stored. On the two APU layouts it also
prints the CPU and SoC powers divided by 1000.

- `Bytes` holds the little-endian reading and writing of fixed-width unsigned
  integers.
- `Layout` holds C's natural-alignment rule for a struct of scalars and
  scalar arrays. It covers member lookup by name.
- `GpuMetrics` holds the three structs as member tables with offsets. It proves
  those offsets are the ones the alignment rule gives: each member's offset,
  each struct's `sizeof` and distinct member names. It also holds the concrete
  offsets the reader uses and how v2.3 extends v2.2.
- `MetricsDecoder` holds the header sniff, the exact-pair dispatch, member
  reads through a layout and the report of one polling pass. It proves round
  trips: a producer writes the power members and the report gives them back.

**`enumerate_ips` of `amdgpu_ips.py`.** It picks the card chosen by `--gpu`.
For every instance of every symbolic-link IP directory under
`ip_discovery/die/0`, it collects one entry per line of `base_addr`. Each entry
carries the `major.minor.revision` version from the stripped first lines of
three files. With `-u` it keeps only the first entry of each (name, version).
It sorts stably by base address and prints aligned columns.

- `PyText` holds `str.strip()`, string `<=`, and the `>`/`<` format alignments.
- `IpDiscovery` holds `detect_card` and the collection of candidate entries.
  The sysfs tree is an input value.
- `IpDedupe` holds the `-u` rule.
- `IpSort` holds the stable sort.
- `AmdgpuIps` holds column widths, line formatting and the whole enumeration.

The reader has no error values, and the model keeps it that way:

- An unknown revision pair prints only the revision line (metrics.c:230-264
  has no other branch), so `ReportOf` returns a report with no layout and no
  power lines.
- The code never checks lengths: `buf` has 152 `void *` elements
  (metrics.c:213), so every layout fits in it. `ReportOf` requires only the
  bytes it can read, the first 152.
- `average_gfx_power` is never printed (metrics.c:250-262), so it is not in
  the report. Its offset is still proved.

## Model

| member | source | states |
|---|---|---|
| GpuMetrics.TableIsNatural | metrics.c:17-209 | Each layout table is its struct laid out by natural alignment. The first member is at 0, and each member sits at the next multiple of its width after the previous one. `Size` is the end of the last member rounded up to 8, which is the struct's `sizeof`. No member name occurs twice. |
| GpuMetrics.V1_3IsNatural | metrics.c:24-94 | The v1.3 table satisfies the natural-alignment rule, with `sizeof` 120 and distinct names. |
| GpuMetrics.V2_2IsNatural | metrics.c:98-149 | The v2.2 table satisfies the natural-alignment rule, with `sizeof` 128 and distinct names. |
| GpuMetrics.V2_3IsNatural | metrics.c:152-209 | The v2.3 table satisfies the natural-alignment rule, with `sizeof` 152 and distinct names. |
| GpuMetrics.V1_3Positions | metrics.c:24-94 | `V1_3Position` inverts the v1.3 table: it maps every member's name back to its index. |
| GpuMetrics.V2_3Positions | metrics.c:152-209 | `V2_3Position` inverts the v2.3 table: it maps every member's name back to its index. |
| GpuMetrics.V1_3Names | metrics.c:24-94 | No two v1.3 members share a name. |
| GpuMetrics.V2_2Names | metrics.c:98-149 | No two v2.2 members share a name. |
| GpuMetrics.V2_3Names | metrics.c:152-209 | No two v2.3 members share a name. |
| GpuMetrics.TableSound | metrics.c:24-209 | In every layout, each member starts at a multiple of its width. No two members overlap. Every member ends within the struct's `sizeof`. |
| GpuMetrics.SlotBounds | metrics.c:213 | Every member found by name is a non-empty run of 1-, 2-, 4- or 8-byte scalars. It ends within its struct, and so within the first 152 bytes of the working buffer, the largest struct's size. |
| GpuMetrics.FieldAt | metrics.c:24-209 | Looking up the name of a layout's k-th member finds exactly that member. |
| GpuMetrics.HeaderLeads | metrics.c:17-25 | In every layout the common header occupies bytes 0-1 (structure size), 2 (format revision) and 3 (content revision). |
| GpuMetrics.V1_3PowerOffsets | metrics.c:41-45 | In v1.3, `average_socket_power` is the uint16_t at 22. `energy_accumulator` is the uint64_t at 24. `system_clock_counter` is the uint64_t at 32. |
| GpuMetrics.V1_3StatusOffsets | metrics.c:66-80 | In v1.3, `throttle_status` is the uint32_t at 68. `temperature_hbm` is four uint16_t from 88. |
| GpuMetrics.V1_3TailOffsets | metrics.c:83-93 | In v1.3, `firmware_timestamp` is the uint64_t at 96. `indep_throttle_status` is the uint64_t at 112. |
| GpuMetrics.V2_2PowerOffsets | metrics.c:115-118 | In v2.2, the socket, CPU, SoC and GFX powers are the uint16_t values at 40, 42, 44 and 46. |
| GpuMetrics.V2_2CoreOffsets | metrics.c:104-136 | In v2.2, `temperature_core` is eight uint16_t from 8. `system_clock_counter` is the uint64_t at 32. `current_coreclk` is eight uint16_t from 88. |
| GpuMetrics.V2_2StatusOffsets | metrics.c:140-148 | In v2.2, `throttle_status` is the uint32_t at 108 and `fan_pwm` the uint16_t at 112. `indep_throttle_status` is the uint64_t at 120, after padding. |
| GpuMetrics.V2_3GfxOffsets | metrics.c:205 | In v2.3, `average_temperature_gfx` is the uint16_t at 128, the first byte past v2.2's `sizeof`. |
| GpuMetrics.V2_3Offsets | metrics.c:207-208 | In v2.3, `average_temperature_core` is eight uint16_t from 132. `average_temperature_l3` is two uint16_t from 148. |
| GpuMetrics.V2_3ExtendsV2_2 | metrics.c:98-209 | v2.3's first 33 members are v2.2's members at the same offsets. Every member only v2.3 has lies at or past 128. So every v2.2 name finds the same slot in both layouts. |
| GpuMetrics.V1_3LacksCoreTemperature | metrics.c:24-94 | v1.3 has no `temperature_core` member. |
| GpuMetrics.V1_3LacksCpuPower | metrics.c:24-94 | v1.3 has no `average_cpu_power` member. |
| GpuMetrics.V2_2LacksHbmTemperature | metrics.c:98-149 | v2.2 has no `temperature_hbm` member. |
| GpuMetrics.V2_2LacksGfxTemperature | metrics.c:98-149 | v2.2 has no `average_temperature_gfx` member. |
| GpuMetrics.V2_3LacksHbmTemperature | metrics.c:152-209 | v2.3 has no `temperature_hbm` member. |
| Bytes.ReadLE | metrics.c:237-262 | A read of `n` little-endian bytes, as the casts read a member on x86-64, is below 256^n. `ReadEncode` and `EncodeRead` make it the inverse of `EncodeLE`. |
| Bytes.EncodeLE | metrics.c:237-262 | The little-endian encoding of a value into `n` bytes is exactly `n` bytes long. |
| Bytes.ReadEncode | metrics.c:237-262 | Decoding the little-endian encoding of a value that fits in `n` bytes gives the value back. |
| Bytes.EncodeRead | metrics.c:237-262 | Re-encoding what an `n`-byte read decoded gives back exactly the bytes that were read. |
| Bytes.ReadLocal | metrics.c:237-262 | A read depends only on the bytes it covers. |
| Bytes.ReadAt | metrics.c:237-262 | Reading at an offset equals reading the slice that starts there. |
| Bytes.ReadOverwriteSame | metrics.c:237-262 | Writing a fitting value's encoding over a range and reading that range back gives the value. |
| Bytes.ReadOverwriteOther | metrics.c:237-262 | Writing over one range leaves any read of a disjoint range unchanged. |
| Layout.AlignUp | metrics.c:24-209 | The aligned offset is the first multiple of the alignment that is not below the offset. |
| Layout.Lookup | metrics.c:237-262 | A member found by a name has that name. |
| Layout.LayoutAligned | metrics.c:24-209 | Under natural alignment, every member starts at a multiple of its own width. |
| Layout.LayoutOrdered | metrics.c:24-209 | Under natural alignment, a member ends no later than any later member starts. |
| Layout.LayoutDisjoint | metrics.c:24-209 | Under natural alignment, no two members share a byte. |
| Layout.LayoutInBounds | metrics.c:24-209 | Under natural alignment, every member ends within `sizeof` of the struct. |
| Layout.LookupAbsent | metrics.c:237-262 | Finding no member by a name happens exactly when no member of the struct has that name. |
| Layout.LookupAt | metrics.c:237-262 | With distinct names, looking up the k-th member's name finds the k-th member. |
| MetricsDecoder.Sniff | metrics.c:17-21 | The header read through the header struct: the structure size is the little-endian uint16_t of bytes 0-1. The revisions are bytes 2 and 3. Each fits its C type. |
| MetricsDecoder.SniffEncode | metrics.c:17-21 | Sniffing an encoded header returns that header, whatever bytes follow it. |
| MetricsDecoder.EncodeSniff | metrics.c:17-21 | Re-encoding a sniffed header reproduces the buffer's first four bytes. |
| MetricsDecoder.DispatchExact | metrics.c:232-264 | A layout is selected exactly when the pair equals that layout's revision pair: (1,3), (2,2) or (2,3). No layout is selected exactly when the pair matches none. |
| MetricsDecoder.ElementOffset | metrics.c:80 | Element `index` of an array member lies wholly within the member. |
| MetricsDecoder.ReadField | metrics.c:237-262 | A member element is read exactly when the layout has the member and the index is below its count. The value then fits the member's width. |
| MetricsDecoder.ReadWriteSame | metrics.c:24-209 | A value written into a member element reads back unchanged. |
| MetricsDecoder.ReadWriteOther | metrics.c:24-209 | Writing one member element leaves every other element of every member of that layout as it was. |
| MetricsDecoder.SlotsDisjoint | metrics.c:24-209 | Two differently named members of one layout occupy disjoint bytes. |
| MetricsDecoder.ElementsDisjoint | metrics.c:80 | Distinct elements of one array member occupy disjoint bytes. |
| MetricsDecoder.SharedFieldsAgree | metrics.c:248-262 | Any v2.2 member reads the same from a buffer whether it is taken as v2.2 or as v2.3. |
| MetricsDecoder.HeaderThroughTable | metrics.c:214-237 | Reading the header members through any layout gives the values the header sniff gives. |
| MetricsDecoder.CrossVariantAbsence | metrics.c:24-209 | Reading a member the layout lacks gives nothing rather than whatever bytes lie there: `temperature_core` and `average_cpu_power` in v1.3, `temperature_hbm` and `average_temperature_gfx` in v2.2, `temperature_hbm` in v2.3. |
| MetricsDecoder.V1_3PowerBytes | metrics.c:237-239 | The v1.3 socket power is the uint16_t at byte 22 of the buffer. |
| MetricsDecoder.V2_2PowerBytes | metrics.c:248-252 | The v2.2 socket, CPU and SoC powers are the uint16_t values at bytes 40, 42 and 44. |
| MetricsDecoder.ApuPowerBytes | metrics.c:248-262 | In both v2.2 and v2.3, the socket, CPU and SoC powers are the uint16_t values at bytes 40, 42 and 44. |
| MetricsDecoder.ReportOf | metrics.c:230-264 | One pass reports bytes 2 and 3 as the revision pair and the layout the exact pair selects. v1.3 gives the socket power at 22 with divisor 1. v2.2 and v2.3 give socket/CPU/SoC at 40/42/44 with divisors 1/1000/1000. An unknown pair gives no power lines. |
| MetricsDecoder.ApuPowerSlots | metrics.c:115-117 | In both APU layouts the three power members are single uint16_t values. |
| MetricsDecoder.ApuWriteRead | metrics.c:248-262 | Writing the three APU power members keeps bytes 2 and 3. It puts the values at bytes 40, 42 and 44. |
| MetricsDecoder.RevisionsKept | metrics.c:17-21 | Writing any single-element member other than the two revisions leaves bytes 2 and 3 alone. |
| MetricsDecoder.ApuReportRoundTrip | metrics.c:243-263 | Take a v2.x buffer whose header names its layout and write socket, CPU and SoC powers into it. Its report is that layout with exactly those raw values, the last two to be divided by 1000. |
| MetricsDecoder.DiscreteReportRoundTrip | metrics.c:232-240 | Take a buffer whose header says (1,3) and write a socket power into it. Its report is v1.3 with exactly that raw value, undivided. |
| PyText.LeadingSpaces | amdgpu_ips.py:35-39 | The length of the whitespace run that starts the string: all of it is whitespace and the next character is not. |
| PyText.TrailingSpaces | amdgpu_ips.py:35-39 | The length of the whitespace run that ends the string: all of it is whitespace and the character before it is not. |
| PyText.Strip | amdgpu_ips.py:35-39 | `strip()` gives a string no longer than its input that neither starts nor ends with whitespace. |
| PyText.StripDecompose | amdgpu_ips.py:35-39 | Every string is whitespace, then its stripped form, then whitespace. |
| PyText.StripUnique | amdgpu_ips.py:35-39 | Conversely, stripping whitespace wrapped around a string without edge whitespace gives that string back. |
| PyText.StripIdempotent | amdgpu_ips.py:35-39 | Stripping twice is stripping once. |
| PyText.StrLeReflexive | amdgpu_ips.py:48 | Python string `<=` is reflexive. |
| PyText.StrLeTotal | amdgpu_ips.py:48 | Any two strings are ordered one way or the other by `<=`. |
| PyText.StrLeTransitive | amdgpu_ips.py:48 | String `<=` is transitive. |
| PyText.StrLeAntisymmetric | amdgpu_ips.py:48 | Two strings each `<=` the other are equal. |
| PyText.PadLeft | amdgpu_ips.py:49 | `{s:>w}` has length max(w, len s), ends with `s`, and is spaces before it. |
| PyText.PadRight | amdgpu_ips.py:49 | `{s:<w}` has length max(w, len s), starts with `s`, and is spaces after it. |
| IpDiscovery.DetectCard | amdgpu_ips.py:13-18 | A card is returned exactly when -len ≤ index < len, using Python's negative indexing. "No card found" happens exactly for an empty list or an index past the end. An index below -len fails on indexing instead. |
| IpDiscovery.FirstLine | amdgpu_ips.py:35-37 | The stripped first line exists exactly when the file has a line. It has no edge whitespace. |
| IpDiscovery.Version | amdgpu_ips.py:35-38 | An instance has a version exactly when its major, minor and revision files each have a line. Otherwise the failure is the empty-file `IndexError`. |
| IpDiscovery.Fields | amdgpu_ips.py:38 | Splitting on `.` yields at least one field. |
| IpDiscovery.FieldsNoDot | amdgpu_ips.py:38 | A string without a dot splits into itself alone. |
| IpDiscovery.FieldsJoin | amdgpu_ips.py:38 | Joining a dot-free string to another with `.` splits back into the first string followed by the fields of the second. |
| IpDiscovery.VersionFields | amdgpu_ips.py:35-38 | A version splits on `.` back into the three stripped first lines whenever none of them holds a dot. |
| IpDiscovery.InstanceEntries | amdgpu_ips.py:39-42 | An instance yields entries exactly when it has a version. There is then one entry per `base_addr` line, in order, with the directory's name, the version and the stripped line. |
| IpDiscovery.InstancesEntriesSpec | amdgpu_ips.py:33-42 | The instances of a directory yield entries exactly when all have versions; otherwise the failure is the empty-file error. There is then one entry per `base_addr` line over all instances. Every entry is (directory name, instance version, stripped line) for some instance and some line of its `base_addr`. Every such line's entry is among them. |
| IpDiscovery.CandidatesSpec | amdgpu_ips.py:29-42 | Gathering succeeds exactly when every version file it opens has a line; otherwise the failure is the empty-file error. Non-link directories are skipped. It yields one entry per `base_addr` line of the linked directories. Every entry is (name, version, stripped line) of some instance of a linked directory. Every such line's entry is among them. |
| IpDiscovery.InstancesEntriesAppend | amdgpu_ips.py:34-43 | Gathering over one more instance succeeds exactly when the earlier gathering and that instance both succeed. Its entries are then appended after the earlier ones, so with `InstanceEntries` the list is fixed entry by entry, in loop order. |
| IpDiscovery.CandidatesAppend | amdgpu_ips.py:30-43 | Gathering over one more directory succeeds exactly when the earlier gathering and that directory both succeed. Its entries are then appended after the earlier ones, so the candidates are fixed entry by entry, in the order the loops append them. |
| IpDiscovery.InstancesEntriesFromLines | amdgpu_ips.py:39-42 | Every entry gathered from a directory's instances is the entry of one `base_addr` line of one of them. |
| IpDiscovery.InstancesEntriesCoverLines | amdgpu_ips.py:33-42 | Every `base_addr` line of every instance of a directory yields its entry in what is gathered. |
| IpDiscovery.CandidatesFromLines | amdgpu_ips.py:29-42 | Every candidate is the entry of one `base_addr` line of an instance of a linked directory. |
| IpDiscovery.CandidatesCoverLines | amdgpu_ips.py:29-42 | Every `base_addr` line of every instance of every linked directory yields its entry among the candidates. |
| IpDedupe.Collect | amdgpu_ips.py:43 | Without `-u` every candidate is kept, in order. With or without it, no more entries are kept than were offered. |
| IpDedupe.HasKeyAppend | amdgpu_ips.py:43 | A list extended by one entry has a (name, version) key exactly when the list had it or the new entry has it. |
| IpDedupe.CollectKeys | amdgpu_ips.py:43 | With `-u`, a (name, version) pair is kept exactly when some candidate has it. |
| IpDedupe.CollectFirsts | amdgpu_ips.py:43 | With `-u`, the kept list equals the reference: the first candidate of every (name, version), in candidate order. |
| IpDedupe.CollectDistinct | amdgpu_ips.py:43 | With `-u`, no two kept entries share a name and version. |
| IpDedupe.CollectNonEmpty | amdgpu_ips.py:43 | Something is kept exactly when there was some candidate, with or without `-u`. |
| IpDedupe.FirstOccurrencesMembers | amdgpu_ips.py:43 | The reference keeps every candidate that is the first of its key and nothing else. So the base address kept for a key is its first candidate's. |
| IpSort.Insert | amdgpu_ips.py:48 | Insertion adds exactly one entry. |
| IpSort.SortByAddress | amdgpu_ips.py:48 | Sorting keeps the number of entries. |
| IpSort.InsertPermutes | amdgpu_ips.py:48 | Insertion adds the entry to the multiset of entries. |
| IpSort.SortPermutes | amdgpu_ips.py:48 | The sorted list is a permutation of the collected list. |
| IpSort.InsertSorted | amdgpu_ips.py:48 | Inserting into a list sorted by address keeps it sorted. |
| IpSort.SortSorted | amdgpu_ips.py:48 | The sorted list is in ascending order of base address under Python's string `<=`. |
| IpSort.WithAddressConcat | amdgpu_ips.py:48 | Selecting the entries with one address distributes over concatenation. |
| IpSort.InsertStable | amdgpu_ips.py:48 | An inserted entry goes ahead of every entry with its address. |
| IpSort.SortStable | amdgpu_ips.py:48 | The sort is stable: for every address, the entries with that address keep their relative order. |
| AmdgpuIps.MaxLen | amdgpu_ips.py:45-46 | `max(len(x) for x in s)` bounds every length and is attained by some element. |
| AmdgpuIps.NameColumn | amdgpu_ips.py:49 | A line that starts with a name right-aligned to width `w` has spaces before the name and the name ending at column `w`. |
| AmdgpuIps.VersionColumn | amdgpu_ips.py:49 | A line holding a version left-aligned to width `w` from some column has the version at that column and spaces after it through the following separator. |
| AmdgpuIps.LineColumns | amdgpu_ips.py:49 | When the widths fit an entry, its line has three parts. The name is right-aligned to end at column `nameWidth`. The version starts at `nameWidth + 1` and is padded with spaces to `versionWidth`. The address starts at `nameWidth + versionWidth + 2`. |
| AmdgpuIps.Listing | amdgpu_ips.py:45-49 | A listing exists exactly when some entry was collected; else `max()` raises, the `NoIps` failure. It has one line per entry. |
| AmdgpuIps.ListingColumns | amdgpu_ips.py:45-49 | The widths are attained by some entry. The listing is the address-sorted entries, one line each, each fitting those widths, so all columns line up. |
| AmdgpuIps.EnumerateOutcome | amdgpu_ips.py:20-49 | A listing is printed exactly when four things hold: the index picks a card, the card has `die/0` under IP discovery, every version file read has a line, and some linked IP has a `base_addr` line. Without `-u` it has one line per such `base_addr` line. For a chosen card, "not supported" happens exactly when it has no `die`, and the `next` failure exactly when it has `die` but no `die/0`. |

## Left out

- The polling loop of `main` is not modelled: opening the file, `fread`, `rewind`, `usleep`, the screen-clearing escape and `fclose`. One pass over a buffer that has already been read is modelled instead, as `ReportOf`.
- The inverted `fread` test (metrics.c:223), which fails on a successful read, is not modelled. It belongs to the I/O loop.
- The `#error` line (metrics.c:218) is a build-time stop and is not modelled.
- `printf` formatting is not modelled. A power line carries its raw value and divisor. `PowerReading.Watts` gives the exact quotient, not the `%.2f` rounding of a single-precision float.
- The layouts are laid out for x86-64 with little-endian byte order. Other ABIs are not modelled. The working buffer declares `MAX(sizeof …)` elements of `void *` (metrics.c:213), 1216 bytes, but the casts read only its first 152 bytes. The model's buffer is those bytes; the remaining 1064 are never read and are not modelled.
- libdrm and the kernel header the structs mirror are not part of this model. The struct text in metrics.c is taken as given.
- Argument parsing, `glob`, `os.walk`, `os.path.exists`, `open` and `print` of amdgpu_ips.py are not modelled. The directory tree is an input value: a map from card path to its IP directories, each with its instance directories' file lines. A card is absent from the map when it has no `die` directory, and maps to `None` when it has `die` but no `die/0`. There the source's `next(os.walk(...))` raises an uncaught `StopIteration` (amdgpu_ips.py:27), modelled as the `NoDieZero` failure.
- Glob and directory-listing order is whatever the inputs say. Python's `glob` and `os.walk` do not promise an order.
- File-open errors (a missing `major`, `base_addr`, ...) are not modelled. An empty version file is modelled, as `EmptyVersionFile`.
- The default-action condition at amdgpu_ips.py:52-53 is not modelled: `enumerate_ips` always runs.
- MetricsDecoder.Dispatch: has no contract of its own. `DispatchExact` states which revision pairs select which layout, in both directions.
- IpDiscovery.Candidates: has no contract of its own. `CandidatesSpec`, `CandidatesAppend`, `CandidatesFromLines` and `CandidatesCoverLines` state what it gathers and in what order.
- AmdgpuIps.Line: has no contract of its own. `LineColumns` states where the name, version and address sit in the line.
- EnumerateIps: has no contract of its own. What it does is stated by `EnumerateOutcome`, `ListingColumns`, `CollectFirsts`, `SortSorted` and `SortStable` about its parts.
- ReportOf: that the report ignores `structure_size` and every byte other than 2, 3 and the power members follows from its `ensures`, which mention only those bytes. It is not stated as a separate lemma.
