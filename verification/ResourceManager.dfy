/** The resource manager as the object the program keeps: it changes the cgroup tree
    step by step. Each method is tied to its specification in `Cgroups`. */
module ResourceManagers {
  import opened CText
  import C = Cgroups

  class ResourceManager {
    const version: C.Version
    var initialized: bool
    var tree: C.Tree

    constructor (version: C.Version, tree: C.Tree)
      ensures this.version == version && this.tree == tree && initialized
    {
      this.version, this.tree, initialized := version, tree, true;
    }

    method MakeDir(d: C.Dir, k: C.Kernel) returns (ok: bool)
      modifies this`tree
      ensures (tree, ok) == C.Mkdir(old(tree), d, k)
    {
      if d in tree.dirs {
        return true;
      }
      if d in k.mkdirDenied {
        return false;
      }
      tree := tree.(dirs := tree.dirs + {d});
      return true;
    }

    method RemoveDir(d: C.Dir, k: C.Kernel)
      modifies this`tree
      ensures tree == C.Rmdir(old(tree), d, k)
    {
      if d in tree.dirs && d !in k.rmdirDenied {
        tree := C.Without(tree, {d});
      }
    }

    method WriteKnob(d: C.Dir, knob: C.Knob, text: string, k: C.Kernel) returns (ok: bool)
      modifies this`tree
      ensures (tree, ok) == C.Write(old(tree), d, knob, text, k)
    {
      ok := d in tree.dirs && (d, knob) !in k.writeDenied;
      if ok {
        tree := tree.(knobs := tree.knobs[(d, knob) := text]);
      }
    }

    /** The quota and period that `set_cpu_limits` settles on. */
    method EffectiveCpu(c: C.CpuLimits) returns (quota: int32, period: int32)
      ensures quota == C.Quota(c) && period == C.Period(c)
    {
      quota := c.quotaUs;
      period := if c.periodUs > 0 then c.periodUs else C.DEFAULT_PERIOD_US;
      if quota <= 0 && c.shares > 0 {
        quota := C.TruncDiv(Wrap32(c.shares * period), 1024);
        if quota < C.MIN_QUOTA_US {
          quota := C.MIN_QUOTA_US;
        }
      }
    }

    /** `set_cpu_limits`. */
    method SetCpuLimits(id: string, c: C.CpuLimits, k: C.Kernel) returns (ok: bool)
      modifies this`tree
      ensures tree == C.WriteAll(old(tree), C.CpuDir(version, old(tree), id), C.CpuItems(version, c), k)
      ensures ok <==> C.Accepts(old(tree), C.CpuDir(version, old(tree), id), C.CpuItems(version, c), k)
    {
      hide PrintInt, C.Quota, C.Period, C.Write;
      var quota, period := EffectiveCpu(c);
      if version.V2? {
        var text := if quota > 0 then PrintInt(quota) + " " + PrintInt(period) else "max";
        C.WriteAllCons(tree, C.Dir(C.Unified, id), (C.CpuMax, text), [], k);
        assert C.CpuItems(version, c) == [(C.CpuMax, text)] + [];
        ok := WriteKnob(C.Dir(C.Unified, id), C.CpuMax, text, k);
        return;
      }
      var d := C.Dir(C.CpuCpuacct, id);
      if d !in tree.dirs {
        d := C.Dir(C.Cpu, id);
      }
      ghost var q, p := (C.CfsQuota, PrintInt(quota)), (C.CfsPeriod, PrintInt(period));
      ghost var s := (C.CpuShares, PrintInt(c.shares));
      ghost var tail := if c.shares > 0 then [s] + [] else [];
      assert C.CpuItems(version, c) == if quota > 0 then [q] + ([p] + tail) else tail;
      if quota > 0 {
        C.WriteAllCons(tree, d, q, [p] + tail, k);
        ok := WriteKnob(d, C.CfsQuota, PrintInt(quota), k);
        if !ok {
          return;
        }
        C.WriteAllCons(tree, d, p, tail, k);
        ok := WriteKnob(d, C.CfsPeriod, PrintInt(period), k);
        if !ok {
          return;
        }
      }
      ok := true;
      if c.shares > 0 {
        C.WriteAllCons(tree, d, s, [], k);
        ok := WriteKnob(d, C.CpuShares, PrintInt(c.shares), k);
      }
    }

    /** `set_memory_limits`. */
    method SetMemoryLimits(id: string, m: C.MemoryLimits, k: C.Kernel) returns (ok: bool)
      modifies this`tree
      ensures tree == C.WriteAll(old(tree), C.MemoryDir(version, id), C.MemoryItems(version, m), k)
      ensures ok <==> C.Accepts(old(tree), C.MemoryDir(version, id), C.MemoryItems(version, m), k)
    {
      hide PrintNat, C.Write;
      var d := C.Dir(if version.V2? then C.Unified else C.Memory, id);
      var limit := if version.V2? then C.MemoryMax else C.MemoryLimit;
      var swap := if version.V2? then C.SwapMax else C.MemswLimit;
      var text := if m.limitBytes > 0 then PrintNat(m.limitBytes) else "max";
      ghost var tail := if m.swapLimitBytes > 0 then [(swap, PrintNat(m.swapLimitBytes))] + [] else [];
      ok := true;
      if version.V2? || m.limitBytes > 0 {
        assert C.MemoryItems(version, m) == [(limit, text)] + tail;
        C.WriteAllCons(tree, d, (limit, text), tail, k);
        ok := WriteKnob(d, limit, text, k);
        if !ok {
          return;
        }
      } else {
        assert C.MemoryItems(version, m) == tail;
      }
      if m.swapLimitBytes > 0 {
        C.WriteAllCons(tree, d, (swap, PrintNat(m.swapLimitBytes)), [], k);
        ok := WriteKnob(d, swap, PrintNat(m.swapLimitBytes), k);
      }
    }

    /** `resource_manager_create_cgroup`. */
    method CreateCgroup(id: string, limits: C.Limits, k: C.Kernel) returns (ok: bool)
      modifies this`tree
      ensures if initialized then (tree, ok) == C.CreateCgroup(version, old(tree), id, limits, k)
              else tree == old(tree) && !ok
    {
      if !initialized {
        return false;
      }
      ok := MakeDirs(id, k);
      if !ok {
        return;
      }
      if limits.cpu.shares > 0 || limits.cpu.quotaUs > 0 {
        var _ := SetCpuLimits(id, limits.cpu, k);
      }
      if limits.memory.limitBytes > 0 {
        var _ := SetMemoryLimits(id, limits.memory, k);
      }
    }

    method MakeDirs(id: string, k: C.Kernel) returns (ok: bool)
      modifies this`tree
      ensures (tree, ok) == C.MakeDirs(version, old(tree), id, k)
    {
      if version.V2? {
        ok := MakeDir(C.Dir(C.Unified, id), k);
        return;
      }
      var joint := MakeDir(C.Dir(C.CpuCpuacct, id), k);
      if !joint {
        ok := MakeDir(C.Dir(C.Cpu, id), k);
        if !ok {
          return;
        }
        var _ := MakeDir(C.Dir(C.Cpuacct, id), k);
      }
      ok := MakeDir(C.Dir(C.Memory, id), k);
    }

    /** `resource_manager_destroy_cgroup`. */
    method DestroyCgroup(id: string, k: C.Kernel)
      modifies this`tree
      ensures tree == if initialized then C.DestroyCgroup(version, old(tree), id, k) else old(tree)
    {
      if !initialized {
        return;
      }
      if version.V2? {
        RemoveDir(C.Dir(C.Unified, id), k);
        return;
      }
      RemoveDir(C.Dir(C.CpuCpuacct, id), k);
      RemoveDir(C.Dir(C.Cpu, id), k);
      RemoveDir(C.Dir(C.Cpuacct, id), k);
      RemoveDir(C.Dir(C.Memory, id), k);
    }
  }
}
