/** The web monitor: reading limits back from the cgroup tree, and CPU sampling. */
module Monitor {
  import opened CText
  import opened Cgroups

  // ------------------------------------------------------------ limit readers

  const LIMIT_BUFFER := 255 // getline into char buffer[256]

  function FirstLine(s: string): (r: string) {
    if s == "" || s[0] == '\n' then "" else [s[0]] + FirstLine(s[1..])
  }

  const V1_NO_LIMIT: uint64 := 0x7fff_ffff_ffff_f000 // the largest count of 4096-byte pages

  /** What the kernel shows for a knob that nobody has written. */
  function Default(knob: Knob): (s: string) {
    match knob
    case CpuMax => "max" + " " + PrintInt(DEFAULT_PERIOD_US)
    case CfsQuota => PrintInt(-1)
    case CfsPeriod => PrintInt(DEFAULT_PERIOD_US)
    case CpuShares => PrintInt(1024)
    case MemoryMax => "max"
    case SwapMax => "max"
    case MemoryLimit => PrintInt(V1_NO_LIMIT)
    case MemswLimit => PrintInt(V1_NO_LIMIT)
  }

  function KnobText(t: Tree, d: Dir, knob: Knob): (r: Option<string>) {
    if (d, knob) in t.knobs then Some(t.knobs[(d, knob)])
    else if d in t.dirs then Some(Default(knob))
    else None
  }

  /** `read_cgroup_limit`: 0 when there is no file, no limit or no number. */
  function ReadLimit(text: Option<string>): (v: uint64) {
    if text.None? then 0
    else
      var line := FirstLine(text.value);
      var buffer := if |line| <= LIMIT_BUFFER then line else line[..LIMIT_BUFFER];
      var (n, rest) := Strtoul(buffer);
      if buffer == "max" then 0 else if rest == "" || rest[0] == ' ' then n else 0
  }

  /** `std::stoul`: throws without a digit or beyond the range. */
  function Stoul(s: string): (r: Option<uint64>) {
    match ScanNumber(s)
    case None => None
    case Some((v, _)) => if -ULONG_MAX <= v <= ULONG_MAX then Some(Strtoul(s).0) else None
  }

  datatype CpuReading = Reading(quota: uint64, period: uint64) | Throws

  function FindSpace(s: string, i: nat := 0): (r: Option<nat>)
    requires i <= |s|
    ensures r.Some? ==> i <= r.value < |s|
    decreases |s| - i
  {
    if i == |s| then None else if s[i] == ' ' then Some(i) else FindSpace(s, i + 1)
  }

  function ReadCpuMax(text: Option<string>): (r: CpuReading) {
    if text.None? then Reading(0, 100000)
    else
      var line := FirstLine(text.value);
      var space := FindSpace(line);
      if line == "max" || space.None? then Reading(0, 100000)
      else
        var quota, period := Stoul(line[..space.value]), Stoul(line[space.value + 1..]);
        if quota.Some? && period.Some? then Reading(quota.value, period.value) else Throws
  }

  /** The limit reader of `getContainerListJSON`. */
  function ReadCpu(v: Version, t: Tree, id: string): (r: CpuReading) {
    if v.V2? then ReadCpuMax(KnobText(t, Dir(Unified, id), CpuMax))
    else
      var d := if Dir(CpuCpuacct, id) in t.dirs then Dir(CpuCpuacct, id) else Dir(Cpu, id);
      var period := ReadLimit(KnobText(t, d, CfsPeriod));
      Reading(ReadLimit(KnobText(t, d, CfsQuota)), if period > 0 then period else 100000)
  }

  function ReadMemory(v: Version, t: Tree, id: string): (limit: uint64) {
    ReadLimit(if v.V2? then KnobText(t, Dir(Unified, id), MemoryMax) else KnobText(t, Dir(Memory, id), MemoryLimit))
  }

  lemma {:induction false} FirstLineOf(s: string)
    requires '\n' !in s
    ensures FirstLine(s) == s
  {
    if s != "" {
      FirstLineOf(s[1..]);
    }
  }

  lemma {:induction false} FirstLineUpTo(a: string, b: string)
    requires '\n' !in a
    ensures FirstLine(a + ("\n" + b)) == a
  {
    if a == "" {
      assert a + ("\n" + b) == "\n" + b;
    } else {
      assert (a + ("\n" + b))[1..] == a[1..] + ("\n" + b);
      FirstLineUpTo(a[1..], b);
    }
  }

  /** The readers see only the first line of a knob. */
  lemma FirstLineDecides(a: string, b: string)
    requires '\n' !in a
    ensures ReadLimit(Some(a + ("\n" + b))) == ReadLimit(Some(a))
    ensures ReadCpuMax(Some(a + ("\n" + b))) == ReadCpuMax(Some(a))
  {
    FirstLineUpTo(a, b);
    FirstLineOf(a);
  }

  lemma {:induction false} FindSpaceOf(a: string, b: string, i: nat)
    requires i <= |a| && ' ' !in a
    ensures FindSpace(a + " " + b, i) == Some(|a|)
    decreases |a| - i
  {
    if i < |a| {
      FindSpaceOf(a, b, i + 1);
    }
  }

  lemma StoulPrinted(n: uint64)
    ensures Stoul(PrintInt(n)) == Some(n)
    ensures Strtoul(PrintInt(n)) == (n, "")
  {
    hide PrintInt, ScanNumber;
    ScanPrinted(n, "");
    assert PrintInt(n) + "" == PrintInt(n);
  }

  lemma ReadPrintedLimit(n: uint64)
    requires |PrintInt(n)| <= LIMIT_BUFFER
    ensures ReadLimit(Some(PrintInt(n))) == n
  {
    FirstLineOf(PrintInt(n));
    StoulPrinted(n);
    assert PrintInt(n)[0] != 'm';
  }

  lemma ReadPrintedCpuMax(q: uint64, p: uint64)
    ensures ReadCpuMax(Some(PrintInt(q) + " " + PrintInt(p))) == Reading(q, p)
  {
    hide Stoul, ScanNumber, PrintInt;
    var line := PrintInt(q) + " " + PrintInt(p);
    FirstLineOf(line);
    FindSpaceOf(PrintInt(q), PrintInt(p), 0);
    StoulPrinted(q);
    StoulPrinted(p);
    assert line[..|PrintInt(q)|] == PrintInt(q);
    assert line[|PrintInt(q)| + 1..] == PrintInt(p);
    assert line[0] != 'm';
  }

  lemma UlongShort(n: uint64)
    ensures |PrintInt(n)| <= 20
  {
    assert Pow10(10) == 10_000_000_000;
    assert Pow10(15) == 1_000_000_000_000_000;
    assert Pow10(20) == 100_000_000_000_000_000_000;
    PrintedLength(n, 20);
  }

  /** The kernel takes every limit written for the container. */
  ghost predicate Writable(v: Version, id: string, k: Kernel) {
    forall f <- k.writeDenied :: f.0 !in DirsOf(v, id)
  }

  /** After SetLimits, a knob of the CPU items holds its own text. */
  lemma CpuStored(v: Version, t: Tree, id: string, limits: Limits, k: Kernel, i: nat)
    requires CpuDir(v, t, id) in t.dirs && Writable(v, id, k)
    requires limits.cpu.shares > 0 || limits.cpu.quotaUs > 0
    requires i < |CpuItems(v, limits.cpu)|
    ensures var item := CpuItems(v, limits.cpu)[i];
      KnobText(SetLimits(v, t, id, limits, k), CpuDir(v, t, id), item.0) == Some(item.1)
  {
    hide CpuItems, MemoryItems, WriteAll;
    ItemsDistinct(v, limits);
    var d, items := CpuDir(v, t, id), CpuItems(v, limits.cpu);
    WriteAllStores(t, d, items, k, i);
    WriteAllOther(WriteAll(t, d, items, k), MemoryDir(v, id), MemoryItems(v, limits.memory), k, (d, items[i].0));
  }

  /** Writer and reader agree: after creation the monitor reads the very quota and
      period the limits stand for, the same in both layouts and from the directory the
      writer chose. */
  lemma CpuReadBack(v: Version, t: Tree, id: string, limits: Limits, k: Kernel)
    requires limits.cpu.shares > 0 || limits.cpu.quotaUs > 0
    requires CreateCgroup(v, t, id, limits, k).1 && Writable(v, id, k)
    ensures ReadCpu(v, CreateCgroup(v, t, id, limits, k).0, id) == Reading(Quota(limits.cpu), Period(limits.cpu))
  {
    hide MakeDirs, Quota, PrintInt, SetLimits, ReadLimit, ReadCpuMax;
    var t0 := MakeDirs(v, t, id, k).0;
    var q, p := Quota(limits.cpu), Period(limits.cpu);
    QuotaPositive(limits.cpu);
    MakeDirsFrame(v, t, id, k);
    SetLimitsFrame(v, t0, id, limits, k);
    CpuStored(v, t0, id, limits, k, 0);
    if v.V2? {
      ReadPrintedCpuMax(q, p);
    } else {
      CpuStored(v, t0, id, limits, k, 1);
      UlongShort(q);
      UlongShort(p);
      ReadPrintedLimit(q);
      ReadPrintedLimit(p);
    }
  }

  /** What that is: an explicit quota as it stands, over the period given or 100000; without
      one, the shares' part of the period, at least 1000, as long as the product fits. */
  lemma CpuReadsExactly(v: Version, t: Tree, id: string, limits: Limits, k: Kernel)
    requires CreateCgroup(v, t, id, limits, k).1 && Writable(v, id, k)
    ensures var r, c := ReadCpu(v, CreateCgroup(v, t, id, limits, k).0, id), limits.cpu;
      var p := if c.periodUs > 0 then c.periodUs else 100000;
      && (c.quotaUs > 0 ==> r == Reading(c.quotaUs, p))
      && (c.quotaUs <= 0 && c.shares > 0 && c.shares * p <= INT_MAX ==>
           r == Reading(if c.shares * p / 1024 < 1000 then 1000 else c.shares * p / 1024, p))
  {
    hide CreateCgroup, ReadCpu, Quota, Period;
    QuotaMeans(limits.cpu);
    if CpuSet(limits) {
      CpuReadBack(v, t, id, limits, k);
    }
  }

  /** The v1 shares are stored next to the quota. */
  lemma SharesStored(t: Tree, id: string, limits: Limits, k: Kernel)
    requires limits.cpu.shares > 0
    requires CreateCgroup(V1, t, id, limits, k).1 && Writable(V1, id, k)
    ensures var t1 := CreateCgroup(V1, t, id, limits, k).0;
      KnobText(t1, V1CpuDir(t1, id), CpuShares) == Some(PrintInt(limits.cpu.shares))
  {
    hide MakeDirs, Quota, PrintInt, SetLimits;
    var t0 := MakeDirs(V1, t, id, k).0;
    QuotaPositive(limits.cpu);
    MakeDirsFrame(V1, t, id, k);
    SetLimitsFrame(V1, t0, id, limits, k);
    CpuStored(V1, t0, id, limits, k, 2);
  }

  /** The memory limit reads back too, and a swap limit is stored beside it. */
  lemma MemoryReadBack(v: Version, t: Tree, id: string, limits: Limits, k: Kernel)
    requires limits.memory.limitBytes > 0
    requires CreateCgroup(v, t, id, limits, k).1 && Writable(v, id, k)
    ensures ReadMemory(v, CreateCgroup(v, t, id, limits, k).0, id) == limits.memory.limitBytes
    ensures limits.memory.swapLimitBytes > 0 ==>
      KnobText(CreateCgroup(v, t, id, limits, k).0, MemoryDir(v, id), if v.V2? then SwapMax else MemswLimit)
        == Some(PrintNat(limits.memory.swapLimitBytes))
  {
    hide MakeDirs, Quota, PrintNat, ReadLimit, CpuItems;
    var t0 := MakeDirs(v, t, id, k).0;
    MakeDirsFrame(v, t, id, k);
    ItemsDistinct(v, limits);
    var items := CpuItems(v, limits.cpu);
    var t1 := if limits.cpu.shares > 0 || limits.cpu.quotaUs > 0 then WriteAll(t0, CpuDir(v, t0, id), items, k) else t0;
    WriteAllFrame(t0, CpuDir(v, t0, id), items, k);
    WriteAllStores(t1, MemoryDir(v, id), MemoryItems(v, limits.memory), k, 0);
    if limits.memory.swapLimitBytes > 0 {
      WriteAllStores(t1, MemoryDir(v, id), MemoryItems(v, limits.memory), k, 1);
    }
    UlongShort(limits.memory.limitBytes);
    ReadPrintedLimit(limits.memory.limitBytes);
  }

  /** A two-word line makes the reader throw exactly when one of its words is no number
      in range. */
  lemma TwoWordsThrowIff(a: string, b: string)
    requires ' ' !in a && '\n' !in a && '\n' !in b
    ensures ReadCpuMax(Some(a + " " + b)) == Throws <==> Stoul(a).None? || Stoul(b).None?
  {
    hide Stoul;
    var line := a + " " + b;
    FirstLineOf(line);
    FindSpaceOf(a, b, 0);
    assert line[..|a|] == a;
    assert line[|a| + 1..] == b;
    assert line[|a|] == ' ' && ' ' !in "max";
  }

  lemma {:induction false} NoSpaceFound(line: string, i: nat)
    requires i <= |line| && ' ' !in line
    ensures FindSpace(line, i).None?
    decreases |line| - i
  {
    if i < |line| {
      NoSpaceFound(line, i + 1);
    }
  }

  /** A line of one word sets no limit. */
  lemma OneWordReads(line: string)
    requires ' ' !in line && '\n' !in line
    ensures ReadCpuMax(Some(line)) == Reading(0, 100000)
  {
    FirstLineOf(line);
    NoSpaceFound(line, 0);
  }

  /** A printed number is taken exactly when it fits an `unsigned long` in size. */
  lemma StoulIff(n: int)
    ensures Stoul(PrintInt(n)).Some? <==> -ULONG_MAX <= n <= ULONG_MAX
    ensures -ULONG_MAX <= n <= ULONG_MAX ==>
      Stoul(PrintInt(n)) == Some(if n >= 0 then n else n + ULONG_MAX + 1)
  {
    hide PrintInt, ScanNumber;
    ScanPrinted(n, "");
    assert PrintInt(n) + "" == PrintInt(n);
  }

  /** A number beyond the range reads as the largest. */
  lemma ReadLimitBeyond(n: int)
    requires (n < -ULONG_MAX || n > ULONG_MAX) && |PrintInt(n)| <= LIMIT_BUFFER
    ensures ReadLimit(Some(PrintInt(n))) == ULONG_MAX
  {
    hide PrintInt, ScanNumber;
    FirstLineOf(PrintInt(n));
    ScanPrinted(n, "");
    assert PrintInt(n) + "" == PrintInt(n) && PrintInt(n)[0] != 'm';
  }

  /** No more than the buffer holds is read. */
  lemma ReadLimitLong(line: string)
    requires '\n' !in line && |line| > LIMIT_BUFFER
    ensures ReadLimit(Some(line)) == ReadLimit(Some(line[..LIMIT_BUFFER]))
  {
    hide Strtoul;
    FirstLineOf(line);
    FirstLineOf(line[..LIMIT_BUFFER]);
  }

  /** Only a space may follow a number. */
  lemma ReadLimitTail(n: uint64, tail: string)
    requires tail != "" && !IsDigit(tail[0]) && '\n' !in tail && |tail| <= 200
    ensures ReadLimit(Some(PrintInt(n) + tail)) == if tail[0] == ' ' then n else 0
  {
    hide PrintInt, ScanNumber;
    var text := PrintInt(n) + tail;
    UlongShort(n);
    FirstLineOf(text);
    ScanPrinted(n, tail);
    assert text[0] == PrintInt(n)[0] != 'm';
  }

  /** Where there is no cgroup there is no limit. */
  lemma MissingReads(v: Version, t: Tree, id: string)
    requires WellFormed(t) && t.dirs !! DirsOf(v, id)
    ensures ReadCpu(v, t, id) == Reading(0, 100000) && ReadMemory(v, t, id) == 0
  {
  }

  lemma LetterIsNoNumber(s: string)
    requires s != "" && !IsSpace(s[0]) && !IsDigit(s[0]) && s[0] != '-' && s[0] != '+'
    ensures Stoul(s).None?
  {
  }

  /** So does the unset v2 limit, which the kernel shows as the word "max" and a period. */
  lemma UnsetCpuMaxThrows(period: string)
    requires '\n' !in period
    ensures ReadCpuMax(Some("max" + " " + period)) == Throws
  {
    hide ReadCpuMax, Stoul;
    var word := "max";
    LetterIsNoNumber(word);
    TwoWordsThrowIff(word, period);
  }

  lemma NegativePrint(n: int)
    requires n < 0
    ensures |PrintInt(n)| == 1 + |PrintInt(-n)| && PrintInt(n)[0] == '-'
  {
  }

  /** The reader takes a printed `long` for itself exactly when it is not negative; a
      negative one turns into a huge number. */
  lemma ReadLimitIff(n: int64)
    ensures ReadLimit(Some(PrintInt(n))) == if n >= 0 then n else n + ULONG_MAX + 1
    ensures ReadLimit(Some(PrintInt(n))) == n <==> n >= 0
  {
    hide PrintInt, ScanNumber;
    var text := PrintInt(n);
    var size: int := if n >= 0 then n else -(n as int);
    UlongShort(size);
    if n < 0 {
      NegativePrint(n);
    }
    FirstLineOf(text);
    ScanPrinted(n, "");
    assert text + "" == text && text[0] != 'm';
  }

  // ------------------------------------------------- what an unset limit reads as

  /** A knob of a new container whose limit is unset shows the kernel's default. */
  lemma UnsetShowsDefault(v: Version, t: Tree, id: string, limits: Limits, k: Kernel, knob: Knob)
    requires WellFormed(t) && t.dirs !! DirsOf(v, id) && CreateCgroup(v, t, id, limits, k).1
    requires if IsMemoryKnob(knob) then limits.memory.limitBytes == 0 else !CpuSet(limits)
    ensures var t1 := CreateCgroup(v, t, id, limits, k).0;
      KnobText(t1, if IsMemoryKnob(knob) then MemoryDir(v, id) else CpuDir(v, t1, id), knob) == Some(Default(knob))
  {
    hide MakeDirs, CpuItems, MemoryItems, WriteAll, PrintInt, Default;
    var t0 := MakeDirs(v, t, id, k).0;
    MakeDirsFrame(v, t, id, k);
    MakeDirsExact(v, t, id, k);
    SetLimitsFrame(v, t0, id, limits, k);
    ItemKnobs(v, limits);
    var f := (if IsMemoryKnob(knob) then MemoryDir(v, id) else CpuDir(v, t0, id), knob);
    assert f.0 in DirsOf(v, id) && f !in t0.knobs;
    if IsMemoryKnob(knob) {
      WriteAllOther(t0, CpuDir(v, t0, id), CpuItems(v, limits.cpu), k, f);
    } else {
      WriteAllOther(t0, MemoryDir(v, id), MemoryItems(v, limits.memory), k, f);
    }
  }

  /** What the monitor reads for a new container, for every limit: the quota and period
      the limits stand for when they are set, and nothing sensible when they are not. The
      unset v2 line makes it throw, the unset v1 quota reads as the largest number. */
  lemma CpuReadsAs(v: Version, t: Tree, id: string, limits: Limits, k: Kernel)
    requires WellFormed(t) && t.dirs !! DirsOf(v, id)
    requires CreateCgroup(v, t, id, limits, k).1 && Writable(v, id, k)
    ensures ReadCpu(v, CreateCgroup(v, t, id, limits, k).0, id) ==
      if CpuSet(limits) then Reading(Quota(limits.cpu), Period(limits.cpu))
      else if v.V2? then Throws else Reading(ULONG_MAX, DEFAULT_PERIOD_US)
  {
    hide CreateCgroup, Quota, Period, PrintInt, ReadLimit, ReadCpuMax, KnobText;
    if CpuSet(limits) {
      CpuReadBack(v, t, id, limits, k);
    } else if v.V2? {
      UnsetShowsDefault(v, t, id, limits, k, CpuMax);
      UnsetCpuMaxThrows(PrintInt(DEFAULT_PERIOD_US));
    } else {
      UnsetShowsDefault(v, t, id, limits, k, CfsQuota);
      UnsetShowsDefault(v, t, id, limits, k, CfsPeriod);
      ReadLimitIff(-1);
      ReadLimitIff(DEFAULT_PERIOD_US);
    }
  }

  /** The same for memory: without a limit v2 reads 0 and v1 the kernel's largest limit. */
  lemma MemoryReadsAs(v: Version, t: Tree, id: string, limits: Limits, k: Kernel)
    requires WellFormed(t) && t.dirs !! DirsOf(v, id)
    requires CreateCgroup(v, t, id, limits, k).1 && Writable(v, id, k)
    ensures ReadMemory(v, CreateCgroup(v, t, id, limits, k).0, id) ==
      if limits.memory.limitBytes > 0 then limits.memory.limitBytes else if v.V2? then 0 else V1_NO_LIMIT
  {
    hide CreateCgroup, PrintInt, ReadLimit, KnobText;
    if limits.memory.limitBytes > 0 {
      MemoryReadBack(v, t, id, limits, k);
    } else {
      UnsetShowsDefault(v, t, id, limits, k, if v.V2? then MemoryMax else MemoryLimit);
      ReadMax();
      ReadLimitIff(V1_NO_LIMIT);
    }
  }

  lemma ReadMax()
    ensures ReadLimit(Some("max")) == 0
  {
    FirstLineOf("max");
  }

  // ---------------------------------------------------------------- sampling

  /** One container in one poll. */
  datatype Sample = Sample(id: string, running: bool, usage: uint64, quota: uint64, period: uint64)

  /** The two static maps of the last readings. */
  datatype Last = Last(cpu: map<string, uint64>, time: map<string, int64>)

  /** `unsigned long` difference. */
  function Diff(a: uint64, b: uint64): (d: uint64) { (a - b) % (ULONG_MAX + 1) }

  function Clamp(x: real): (r: real)
    ensures 0.0 <= r <= 100.0
  {
    if x > 100.0 then 100.0 else if x < 0.0 then 0.0 else x
  }

  function Percent(m: Last, s: Sample, now: int64): (r: real)
    ensures 0.0 <= r <= 100.0
  {
    if !s.running || s.id !in m.cpu || s.id !in m.time then 0.0
    else
      var used, elapsed := Diff(s.usage, m.cpu[s.id]), now as int - m.time[s.id] as int;
      if elapsed <= 0 || used == 0 then 0.0
      else
        var ratio := used as real / 1000000000.0 / elapsed as real;
        if s.quota > 0 && s.period > 0
        then Clamp(100.0 * (ratio / (s.quota as real / s.period as real)))
        else Clamp(100.0 * ratio)
  }

  /** The CPUs a container may use: its quota over its period, or one without a quota. */
  function Cores(s: Sample): (c: real)
    ensures c > 0.0
  {
    if s.quota > 0 && s.period > 0
    then RatioAtLeastOne(s.quota as real, s.period as real); s.quota as real / s.period as real
    else 1.0
  }

  /** The CPU time, in nanoseconds, allowed over the seconds elapsed. */
  function Allowed(s: Sample, elapsed: int): (ns: real) { Cores(s) * elapsed as real * 1000000000.0 }

  /** The share is the CPU time used over the CPU time allowed, at most 100 percent. */
  lemma PercentOfAllowed(m: Last, s: Sample, now: int64)
    requires s.running && s.id in m.cpu && s.id in m.time
    requires now as int > m.time[s.id] as int && Diff(s.usage, m.cpu[s.id]) > 0
    ensures var elapsed, used := now as int - m.time[s.id] as int, Diff(s.usage, m.cpu[s.id]) as real;
      && Allowed(s, elapsed) > 0.0
      && Percent(m, s, now) == if used >= Allowed(s, elapsed) then 100.0 else 100.0 * (used / Allowed(s, elapsed))
  {
    hide Percent, Clamp, Cores;
    var elapsed, used := now as int - m.time[s.id] as int, Diff(s.usage, m.cpu[s.id]) as real;
    PercentIsRatio(m, s, now);
    ShareAlgebra(used, elapsed as real, Cores(s));
  }

  /** The monitor shows no share exactly for a container that does not run, at its first
      reading, when no time has passed, and when no CPU time was used. */
  lemma PercentZeroIff(m: Last, s: Sample, now: int64)
    ensures Percent(m, s, now) == 0.0 <==>
      || !s.running || s.id !in m.cpu || s.id !in m.time
      || now <= m.time[s.id] || s.usage == m.cpu[s.id]
  {
    hide Allowed, Clamp;
    if s.running && s.id in m.cpu && s.id in m.time {
      DiffWraps(s.usage, m.cpu[s.id]);
      if now > m.time[s.id] && s.usage != m.cpu[s.id] {
        hide Percent;
        PercentOfAllowed(m, s, now);
        var used := Diff(s.usage, m.cpu[s.id]) as real;
        RatioAtLeastOne(used, Allowed(s, now as int - m.time[s.id] as int));
      }
    }
  }

  /** A counter that went back counts as having wrapped around. */
  lemma DiffWraps(a: uint64, b: uint64)
    ensures Diff(a, b) == if a >= b then a - b else a + (ULONG_MAX - b) + 1
    ensures Diff(a, b) == 0 <==> a == b
  {
  }

  /** So the monitor shows next to nothing for a v1 container without a quota, however
      busy it is, up to 1024 CPUs and a period of a second. */
  lemma UnlimitedShowsNothing(m: Last, s: Sample, now: int64)
    requires s.running && s.id in m.cpu && s.id in m.time && s.quota == ULONG_MAX && 0 < s.period <= 1000000
    requires now as int > m.time[s.id] as int && Diff(s.usage, m.cpu[s.id]) > 0
    requires Diff(s.usage, m.cpu[s.id]) as real <= 1024.0 * ((now as int - m.time[s.id] as int) as real * 1000000000.0)
    ensures Percent(m, s, now) < 0.000001
  {
    hide Percent, Cores, Allowed;
    PercentOfAllowed(m, s, now);
    var elapsed, used := now as int - m.time[s.id] as int, Diff(s.usage, m.cpu[s.id]) as real;
    HugeCores(s);
    AllowedIs(s, elapsed);
    TinyRatio(used, elapsed as real, Cores(s), Allowed(s, elapsed));
  }

  lemma AllowedIs(s: Sample, elapsed: int)
    ensures Allowed(s, elapsed) == Cores(s) * elapsed as real * 1000000000.0
  {
  }

  lemma ScaleBound(c: real, x: real, y: real)
    requires c >= 0.0 && x <= y
    ensures c * x <= c * y && x * c <= y * c
  {
  }

  lemma RatioBound(x: real, y: real, k: real)
    requires y > 0.0 && x <= k * y
    ensures x / y <= k
  {
    var r := x / y;
    assert (r - k) * y == x - k * y;
    assert r > k ==> (r - k) * y > 0.0;
  }

  lemma HugeCores(s: Sample)
    requires s.quota == ULONG_MAX && 0 < s.period <= 1000000
    ensures Cores(s) >= 10000000000000.0
  {
    HugeRatio(s.quota as real, s.period as real);
  }

  lemma HugeRatio(q: real, p: real)
    requires q >= 10000000000000000000.0 && 0.0 < p <= 1000000.0
    ensures q / p >= 10000000000000.0
  {
    var r := q / p;
    assert r * p == q;
    if r < 10000000000000.0 {
      ScaleBound(p, r, 10000000000000.0);
      ScaleBound(10000000000000.0, p, 1000000.0);
    }
  }

  lemma TinyRatio(used: real, t: real, cores: real, w: real)
    requires 0.0 < used <= 1024.0 * (t * 1000000000.0) && t > 0.0 && cores >= 10000000000000.0
    requires w == cores * t * 1000000000.0
    ensures w > used && 100.0 * (used / w) < 0.000001
  {
    ScaleBound(t, 10000000000000.0, cores);
    RatioBound(used, w, 0.000000001);
  }

  lemma PercentIsRatio(m: Last, s: Sample, now: int64)
    requires s.running && s.id in m.cpu && s.id in m.time
    requires now as int > m.time[s.id] as int && Diff(s.usage, m.cpu[s.id]) > 0
    ensures var elapsed, used := now as int - m.time[s.id] as int, Diff(s.usage, m.cpu[s.id]) as real;
      Percent(m, s, now) == Clamp(100.0 * (used / 1000000000.0 / elapsed as real / Cores(s)))
  {
  }

  lemma ShareAlgebra(used: real, t: real, cores: real)
    requires used > 0.0 && t > 0.0 && cores > 0.0
    ensures var w := cores * t * 1000000000.0;
      w > 0.0 && Clamp(100.0 * (used / 1000000000.0 / t / cores)) == if used >= w then 100.0 else 100.0 * (used / w)
  {
    DivDivDiv(used, 1000000000.0, t, cores);
    var w := cores * t * 1000000000.0;
    var r := used / 1000000000.0 / t / cores;
    assert r == used / w;
    RatioAtLeastOne(used, w);
    ClampRatio(r);
  }

  lemma ClampRatio(r: real)
    requires r > 0.0
    ensures Clamp(100.0 * r) == if r >= 1.0 then 100.0 else 100.0 * r
  {
  }

  lemma DivDivDiv(x: real, a: real, b: real, c: real)
    requires a > 0.0 && b > 0.0 && c > 0.0
    ensures c * b * a > 0.0 && x / a / b / c == x / (c * b * a)
  {
    var y := x / a / b / c;
    assert y * c == x / a / b;
    assert y * c * b == x / a;
    assert y * c * b * a == x;
    assert c * b > 0.0;
    assert y * (c * b * a) == x;
  }

  lemma RatioAtLeastOne(x: real, y: real)
    requires x > 0.0 && y > 0.0
    ensures x / y > 0.0 && (x / y >= 1.0 <==> x >= y)
  {
    var r := x / y;
    assert r * y == x;
  }

  function Observe(m: Last, s: Sample, now: int64): (r: Last) {
    if s.running then Last(m.cpu[s.id := s.usage], m.time[s.id := now])
    else Last(m.cpu - {s.id}, m.time - {s.id})
  }

  function Poll(m: Last, ss: seq<Sample>, now: int64): (r: Last) {
    if ss == [] then m else Observe(Poll(m, ss[..|ss| - 1], now), ss[|ss| - 1], now)
  }

  class Sampler {
    var prevCpu: map<string, uint64>
    var prevTime: map<string, int64>

    constructor ()
      ensures prevCpu == map[] && prevTime == map[]
    {
      prevCpu, prevTime := map[], map[];
    }

    /** One container's turn: its CPU share since the last reading, then the new reading. */
    method Visit(s: Sample, now: int64) returns (percent: real)
      modifies this
      ensures Last(prevCpu, prevTime) == Observe(old(Last(prevCpu, prevTime)), s, now)
      ensures percent == Percent(old(Last(prevCpu, prevTime)), s, now)
    {
      percent := 0.0;
      if !s.running {
        prevCpu, prevTime := prevCpu - {s.id}, prevTime - {s.id};
        return;
      }
      if s.id in prevCpu && s.id in prevTime {
        var used, elapsed := Diff(s.usage, prevCpu[s.id]), now as int - prevTime[s.id] as int;
        if elapsed > 0 && used > 0 {
          var ratio := used as real / 1000000000.0 / elapsed as real;
          if s.quota > 0 && s.period > 0 {
            percent := 100.0 * (ratio / (s.quota as real / s.period as real));
          } else {
            percent := 100.0 * ratio;
          }
          percent := Clamp(percent);
        }
      }
      prevCpu, prevTime := prevCpu[s.id := s.usage], prevTime[s.id := now];
    }

    /** The sampling loop of `getContainerListJSON`. */
    method Sweep(ss: seq<Sample>, now: int64) returns (percents: seq<real>)
      modifies this
      ensures Last(prevCpu, prevTime) == Poll(old(Last(prevCpu, prevTime)), ss, now)
      ensures |percents| == |ss|
      ensures forall i :: 0 <= i < |ss| ==>
        percents[i] == Percent(Poll(old(Last(prevCpu, prevTime)), ss[..i], now), ss[i], now)
    {
      hide Percent, Observe;
      percents := [];
      var i := 0;
      while i < |ss|
        invariant 0 <= i <= |ss| && |percents| == i
        invariant Last(prevCpu, prevTime) == Poll(old(Last(prevCpu, prevTime)), ss[..i], now)
        invariant forall j :: 0 <= j < i ==>
          percents[j] == Percent(Poll(old(Last(prevCpu, prevTime)), ss[..j], now), ss[j], now)
      {
        var percent := Visit(ss[i], now);
        percents := percents + [percent];
        assert ss[..i + 1][..i] == ss[..i];
        i := i + 1;
      }
      assert ss[..|ss|] == ss;
    }
  }

  /** A list of polls, each with its samples and its time. */
  type Polls = seq<(seq<Sample>, int64)>

  function PollAll(m: Last, ps: Polls): (r: Last)
    decreases |ps|
  {
    if ps == [] then m else PollAll(Poll(m, ps[0].0, ps[0].1), ps[1..])
  }

  lemma {:induction false} PollKeys(m: Last, ss: seq<Sample>, now: int64)
    requires m.cpu.Keys == m.time.Keys
    ensures Poll(m, ss, now).cpu.Keys == Poll(m, ss, now).time.Keys
  {
    if ss != [] {
      PollKeys(m, ss[..|ss| - 1], now);
    }
  }

  /** Over every sequence of polls the two maps cover the same containers. */
  lemma {:induction false} PollAllKeys(m: Last, ps: Polls)
    requires m.cpu.Keys == m.time.Keys
    ensures PollAll(m, ps).cpu.Keys == PollAll(m, ps).time.Keys
    decreases |ps|
  {
    if ps != [] {
      PollKeys(m, ps[0].0, ps[0].1);
      PollAllKeys(Poll(m, ps[0].0, ps[0].1), ps[1..]);
    }
  }

  /** The container has exactly one sample in the poll, at this position, and runs. */
  ghost predicate RunsAt(ss: seq<Sample>, id: string, i: nat) {
    && i < |ss| && ss[i].id == id && ss[i].running
    && forall j :: 0 <= j < |ss| && j != i ==> ss[j].id != id
  }

  lemma {:induction false} PollOthers(m: Last, ss: seq<Sample>, now: int64, id: string)
    requires forall j :: 0 <= j < |ss| ==> ss[j].id != id
    ensures var r := Poll(m, ss, now);
      && (id in r.cpu <==> id in m.cpu) && (id in m.cpu ==> r.cpu[id] == m.cpu[id])
      && (id in r.time <==> id in m.time) && (id in m.time ==> r.time[id] == m.time[id])
  {
    if ss != [] {
      PollOthers(m, ss[..|ss| - 1], now, id);
    }
  }

  /** A poll leaves the container's own reading behind. */
  lemma {:induction false} PollRecords(m: Last, ss: seq<Sample>, now: int64, id: string, i: nat)
    requires RunsAt(ss, id, i)
    ensures var r := Poll(m, ss, now);
      id in r.cpu && r.cpu[id] == ss[i].usage && id in r.time && r.time[id] == now
  {
    if i < |ss| - 1 {
      PollRecords(m, ss[..|ss| - 1], now, id, i);
    }
  }

  /** And forgets a container that does not run. */
  lemma {:induction false} PollForgets(m: Last, ss: seq<Sample>, now: int64, id: string, i: nat)
    requires i < |ss| && ss[i].id == id && !ss[i].running
    requires forall j :: i < j < |ss| ==> ss[j].id != id
    ensures id !in Poll(m, ss, now).cpu && id !in Poll(m, ss, now).time
  {
    if i < |ss| - 1 {
      PollForgets(m, ss[..|ss| - 1], now, id, i);
    }
  }

  /** The container's sample positions over the polls, and the usage differences the
      monitor forms for it. */
  ghost predicate RunsThrough(ps: Polls, id: string, at: seq<nat>) {
    |at| == |ps| && forall k :: 0 <= k < |ps| ==> RunsAt(ps[k].0, id, at[k])
  }

  function TotalDiff(m: Last, ps: Polls, id: string, at: seq<nat>): (d: nat)
    requires |at| == |ps| && forall k :: 0 <= k < |ps| ==> at[k] < |ps[k].0|
    decreases |ps|
  {
    if ps == [] then 0
    else
      var seen := Poll(m, ps[0].0[..at[0]], ps[0].1);
      (if id in seen.cpu && id in seen.time then Diff(ps[0].0[at[0]].usage, seen.cpu[id]) else 0)
      + TotalDiff(Poll(m, ps[0].0, ps[0].1), ps[1..], id, at[1..])
  }

  function Usage(ps: Polls, at: seq<nat>, k: nat): (u: uint64)
    requires k < |at| == |ps| && at[k] < |ps[k].0|
  {
    ps[k].0[at[k]].usage
  }

  /** While a container keeps running and its counter does not go back, the differences
      over consecutive polls add up to the last reading minus the first. */
  lemma {:induction false} DifferencesTelescope(m: Last, ps: Polls, id: string, at: seq<nat>)
    requires RunsThrough(ps, id, at) && |ps| > 0 && id in m.cpu && id in m.time
    requires m.cpu[id] <= Usage(ps, at, 0)
    requires forall k :: 0 < k < |ps| ==> Usage(ps, at, k - 1) <= Usage(ps, at, k)
    ensures TotalDiff(m, ps, id, at) == Usage(ps, at, |ps| - 1) - m.cpu[id]
    decreases |ps|
  {
    hide Poll;
    var (ss, now) := ps[0];
    assert RunsAt(ss, id, at[0]);
    PollOthers(m, ss[..at[0]], now, id);
    PollRecords(m, ss, now, id, at[0]);
    var m1 := Poll(m, ss, now);
    if |ps| == 1 {
      assert TotalDiff(m1, ps[1..], id, at[1..]) == 0;
    } else {
      forall k | 0 < k < |ps[1..]|
        ensures Usage(ps[1..], at[1..], k - 1) <= Usage(ps[1..], at[1..], k)
      {
        assert Usage(ps, at, k) <= Usage(ps, at, k + 1);
      }
      assert Usage(ps[1..], at[1..], 0) == Usage(ps, at, 1);
      DifferencesTelescope(m1, ps[1..], id, at[1..]);
    }
  }
}
