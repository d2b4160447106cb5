/** The names under which the fields of a report stand in the document. */
module ReportKeys {
  import opened Decimal
  import opened Json
  import opened Report

  /** The value that an object has under a key. */
  function Field(ms: seq<Member>, key: string): Option<Value> {
    if ms == [] then None else if ms[0].key == key then Some(ms[0].value) else Field(ms[1..], key)
  }

  ghost predicate DistinctKeys(ms: seq<Member>) {
    forall i, j :: 0 <= i < j < |ms| ==> ms[i].key != ms[j].key
  }

  lemma {:induction false} FieldAt(ms: seq<Member>, i: nat)
    requires DistinctKeys(ms) && i < |ms|
    ensures Field(ms, ms[i].key) == Some(ms[i].value)
  {
    if i > 0 {
      assert ms[1..][i - 1] == ms[i];
      FieldAt(ms[1..], i - 1);
    }
  }

  lemma {:induction false} NotFound(ms: seq<Member>, key: string)
    requires forall i :: 0 <= i < |ms| ==> ms[i].key != key
    ensures Field(ms, key) == None
  {
    if ms != [] {
      NotFound(ms[1..], key);
    }
  }

  lemma MetaKeysDistinct(duration: int, sys: SystemInfo)
    ensures DistinctKeys(MetaMembers(duration, sys))
  {
    hide Signed;
  }

  lemma MetaFields(duration: int, sys: SystemInfo)
    ensures var ms := MetaMembers(duration, sys);
      && Field(ms, "hwbench_version") == Some(String("1.0.0"))
      && Field(ms, "device_name") == Some(String(sys.deviceName))
      && Field(ms, "hostname") == Some(String(sys.hostname))
      && Field(ms, "timestamp") == Some(String(sys.timestamp))
      && Field(ms, "duration_per_module_sec") == Some(Number(Signed(duration)))
  {
    hide Signed;
    var ms := MetaMembers(duration, sys);
    MetaKeysDistinct(duration, sys);
    FieldAt(ms, 0);
    FieldAt(ms, 1);
    FieldAt(ms, 2);
    FieldAt(ms, 3);
    FieldAt(ms, 4);
  }

  lemma SystemKeysDistinct(sys: SystemInfo)
    ensures DistinctKeys(SystemMembers(sys))
  {
    hide Signed;
  }

  lemma SystemFields(sys: SystemInfo)
    ensures var ms := SystemMembers(sys);
      && Field(ms, "os_name") == Some(String(sys.osName))
      && Field(ms, "os_version") == Some(String(sys.osVersion))
      && Field(ms, "kernel_version") == Some(String(sys.kernelVersion))
      && Field(ms, "architecture") == Some(String(sys.architecture))
      && Field(ms, "cpu_model") == Some(String(sys.cpuModel))
      && Field(ms, "cpu_freq_mhz") == Some(Number(sys.cpuFreqMhz))
      && Field(ms, "cpu_physical_cores") == Some(Number(Signed(sys.cpuPhysicalCores)))
      && Field(ms, "cpu_logical_cores") == Some(Number(Signed(sys.cpuLogicalCores)))
      && Field(ms, "ram_total_mb") == Some(Number(Signed(sys.ramTotalMb)))
      && Field(ms, "ram_available_mb") == Some(Number(Signed(sys.ramAvailableMb)))
      && Field(ms, "disk_model") == Some(String(sys.diskModel))
      && Field(ms, "disk_type") == Some(String(sys.diskType))
      && Field(ms, "filesystem_type") == Some(String(sys.filesystemType))
      && Field(ms, "storage_path_used") == Some(String(sys.storagePathUsed))
      && Field(ms, "storage_is_tmpfs") == Some(Bool(sys.storageIsTmpfs))
  {
    hide Signed;
    var ms := SystemMembers(sys);
    SystemKeysDistinct(sys);
    FieldAt(ms, 0);
    FieldAt(ms, 1);
    FieldAt(ms, 2);
    FieldAt(ms, 3);
    FieldAt(ms, 4);
    FieldAt(ms, 5);
    FieldAt(ms, 6);
    FieldAt(ms, 7);
    FieldAt(ms, 8);
    FieldAt(ms, 9);
    FieldAt(ms, 10);
    FieldAt(ms, 11);
    FieldAt(ms, 12);
    FieldAt(ms, 13);
    FieldAt(ms, 14);
  }

  lemma CpuSingleKeysDistinct(r: CpuSingleResult)
    ensures DistinctKeys(CpuSingleMembers(r))
  {
  }

  lemma CpuSingleFields(r: CpuSingleResult)
    ensures var ms := CpuSingleMembers(r);
      && Field(ms, "dependent_chain_ips") == Some(Number(r.depChainIps))
      && Field(ms, "independent_throughput_ips") == Some(Number(r.indepThroughputIps))
      && Field(ms, "memory_bound_ips") == Some(Number(r.memoryBoundIps))
      && Field(ms, "duration_sec") == Some(Number(r.durationSec))
  {
    var ms := CpuSingleMembers(r);
    CpuSingleKeysDistinct(r);
    FieldAt(ms, 0);
    FieldAt(ms, 1);
    FieldAt(ms, 2);
    FieldAt(ms, 3);
  }

  lemma CpuMultiKeysDistinct(r: CpuMultiResult)
    ensures DistinctKeys(CpuMultiMembers(r))
  {
    hide Signed;
  }

  lemma CpuMultiFields(r: CpuMultiResult)
    ensures var ms := CpuMultiMembers(r);
      && Field(ms, "dependent_chain_ips") == Some(Number(r.depChainIps))
      && Field(ms, "independent_throughput_ips") == Some(Number(r.indepThroughputIps))
      && Field(ms, "memory_bound_ips") == Some(Number(r.memoryBoundIps))
      && Field(ms, "dep_scaling") == Some(Number(r.depScaling))
      && Field(ms, "thr_scaling") == Some(Number(r.thrScaling))
      && Field(ms, "mem_scaling") == Some(Number(r.memScaling))
      && Field(ms, "thr_efficiency_percent") == Some(Number(r.thrEfficiencyPercent))
      && Field(ms, "duration_sec") == Some(Number(r.durationSec))
      && Field(ms, "threads_used") == Some(Number(Signed(r.threadsUsed)))
  {
    hide Signed;
    var ms := CpuMultiMembers(r);
    CpuMultiKeysDistinct(r);
    FieldAt(ms, 0);
    FieldAt(ms, 1);
    FieldAt(ms, 2);
    FieldAt(ms, 3);
    FieldAt(ms, 4);
    FieldAt(ms, 5);
    FieldAt(ms, 6);
    FieldAt(ms, 7);
    FieldAt(ms, 8);
  }

  lemma MemoryKeysDistinct(r: MemoryResult)
    ensures DistinctKeys(MemoryMembers(r))
  {
    hide Signed;
  }

  lemma MemoryFields(r: MemoryResult)
    ensures var ms := MemoryMembers(r);
      && Field(ms, "sequential_write_gbps") == Some(Number(r.sequentialWriteGbps))
      && Field(ms, "sequential_read_gbps") == Some(Number(r.sequentialReadGbps))
      && Field(ms, "memcpy_gbps") == Some(Number(r.memcpyGbps))
      && Field(ms, "latency_ns") == Some(Number(r.latencyNs))
      && Field(ms, "buffer_size_mb") == Some(Number(Signed(r.bufferSizeMb)))
  {
    hide Signed;
    var ms := MemoryMembers(r);
    MemoryKeysDistinct(r);
    FieldAt(ms, 0);
    FieldAt(ms, 1);
    FieldAt(ms, 2);
    FieldAt(ms, 3);
    FieldAt(ms, 4);
  }

  lemma StorageKeysDistinct(r: StorageResult)
    ensures DistinctKeys(StorageMembers(r))
  {
  }

  lemma StorageFields(r: StorageResult)
    requires !r.skipped
    ensures var ms := StorageMembers(r);
      && Field(ms, "sequential_write_mbps") == Some(Number(r.sequentialWriteMbps))
      && Field(ms, "sequential_read_mbps") == Some(Number(r.sequentialReadMbps))
      && Field(ms, "random_4k_write_iops") == Some((if r.isTmpfs then Null else Number(r.random4kWriteIops)))
      && Field(ms, "random_4k_read_iops") == Some((if r.isTmpfs then Null else Number(r.random4kReadIops)))
      && Field(ms, "file_create_per_sec") == Some(Number(r.fileCreatePerSec))
      && Field(ms, "storage_path") == Some(String(r.storagePath))
      && Field(ms, "is_tmpfs") == Some(Bool(r.isTmpfs))
      && Field(ms, "skipped") == None
  {
    var ms := StorageMembers(r);
    StorageKeysDistinct(r);
    FieldAt(ms, 0);
    FieldAt(ms, 1);
    FieldAt(ms, 2);
    FieldAt(ms, 3);
    FieldAt(ms, 4);
    FieldAt(ms, 5);
    FieldAt(ms, 6);
    NotFound(ms, "skipped");
  }

  lemma CompressionKeysDistinct(r: CompressionResult)
    ensures DistinctKeys(CompressionMembers(r))
  {
  }

  lemma CompressionFields(r: CompressionResult)
    requires !r.skipped
    ensures var ms := CompressionMembers(r);
      && Field(ms, "compress_mbps") == Some(Number(r.compressMbps))
      && Field(ms, "decompress_mbps") == Some(Number(r.decompressMbps))
      && Field(ms, "compression_ratio") == Some(Number(r.compressionRatio))
      && Field(ms, "input_size_mb") == Some(Number(r.inputSizeMb))
      && Field(ms, "skipped") == None
  {
    var ms := CompressionMembers(r);
    CompressionKeysDistinct(r);
    FieldAt(ms, 0);
    FieldAt(ms, 1);
    FieldAt(ms, 2);
    FieldAt(ms, 3);
    NotFound(ms, "skipped");
  }

  lemma HashingKeysDistinct(r: HashingResult)
    ensures DistinctKeys(HashingMembers(r))
  {
  }

  lemma HashingFields(r: HashingResult)
    ensures var ms := HashingMembers(r);
      && Field(ms, "hashes_per_sec") == Some(Number(r.hashesPerSec))
      && Field(ms, "throughput_mbps") == Some(Number(r.throughputMbps))
  {
    var ms := HashingMembers(r);
    HashingKeysDistinct(r);
    FieldAt(ms, 0);
    FieldAt(ms, 1);
  }

  lemma FloatKeysDistinct(r: FloatResult)
    ensures DistinctKeys(FloatMembers(r))
  {
  }

  lemma FloatFields(r: FloatResult)
    ensures var ms := FloatMembers(r);
      && Field(ms, "flop_estimate_per_sec") == Some(Number(r.flopEstimatePerSec))
      && Field(ms, "iterations_per_sec") == Some(Number(r.iterationsPerSec))
      && Field(ms, "duration_sec") == Some(Number(r.durationSec))
  {
    var ms := FloatMembers(r);
    FloatKeysDistinct(r);
    FieldAt(ms, 0);
    FieldAt(ms, 1);
    FieldAt(ms, 2);
  }

  lemma ThreadKeysDistinct(r: ThreadBenchResult)
    ensures DistinctKeys(ThreadMembers(r))
  {
  }

  lemma ThreadFields(r: ThreadBenchResult)
    ensures var ms := ThreadMembers(r);
      && Field(ms, "thread_create_latency_us") == Some(Number(r.threadCreateLatencyUs))
      && Field(ms, "mutex_ops_per_sec") == Some(Number(r.mutexOpsPerSec))
      && Field(ms, "condvar_msgs_per_sec") == Some(Number(r.condvarMsgsPerSec))
  {
    var ms := ThreadMembers(r);
    ThreadKeysDistinct(r);
    FieldAt(ms, 0);
    FieldAt(ms, 1);
    FieldAt(ms, 2);
  }

  lemma FsMetaKeysDistinct(r: FsMetaResult)
    ensures DistinctKeys(FsMetaMembers(r))
  {
  }

  lemma FsMetaFields(r: FsMetaResult)
    ensures var ms := FsMetaMembers(r);
      && Field(ms, "create_per_sec") == Some(Number(r.createPerSec))
      && Field(ms, "stat_per_sec") == Some(Number(r.statPerSec))
      && Field(ms, "delete_per_sec") == Some(Number(r.deletePerSec))
  {
    var ms := FsMetaMembers(r);
    FsMetaKeysDistinct(r);
    FieldAt(ms, 0);
    FieldAt(ms, 1);
    FieldAt(ms, 2);
  }

  lemma PythonKeysDistinct(r: PythonResult)
    ensures DistinctKeys(PythonMembers(r))
  {
  }

  lemma PythonFields(r: PythonResult)
    requires !r.skipped
    ensures var ms := PythonMembers(r);
      && Field(ms, "python_version") == Some(String(r.pythonVersion))
      && Field(ms, "startup_time_ms") == Some(Number(r.startupTimeMs))
      && Field(ms, "single_core_iterations_per_sec") == Some(Number(r.singleCoreIps))
      && Field(ms, "multi_core_iterations_per_sec") == Some(Number(r.multiCoreIps))
      && Field(ms, "multi_core_scaling_factor") == Some(Number(r.multiCoreScaling))
      && Field(ms, "skipped") == None
  {
    var ms := PythonMembers(r);
    PythonKeysDistinct(r);
    FieldAt(ms, 0);
    FieldAt(ms, 1);
    FieldAt(ms, 2);
    FieldAt(ms, 3);
    FieldAt(ms, 4);
    NotFound(ms, "skipped");
  }

  lemma ResultKeysDistinct(r: Report)
    ensures DistinctKeys(ResultMembers(r))
  {
    hide CpuSingleMembers, CpuMultiMembers, MemoryMembers, StorageMembers, CompressionMembers,
      HashingMembers, FloatMembers, ThreadMembers, FsMetaMembers, PythonMembers;
  }

  lemma ResultFields(r: Report)
    ensures var ms := ResultMembers(r);
      && Field(ms, "cpu_single") == Some(Object(CpuSingleMembers(r.cs)))
      && Field(ms, "cpu_multi") == Some(Object(CpuMultiMembers(r.cm)))
      && Field(ms, "memory") == Some(Object(MemoryMembers(r.mem)))
      && Field(ms, "storage") == Some(Object(StorageMembers(r.stor)))
      && Field(ms, "compression") == Some(Object(CompressionMembers(r.comp)))
      && Field(ms, "hashing") == Some(Object(HashingMembers(r.hash)))
      && Field(ms, "floating_point") == Some(Object(FloatMembers(r.fp)))
      && Field(ms, "thread_bench") == Some(Object(ThreadMembers(r.thr)))
      && Field(ms, "fs_metadata") == Some(Object(FsMetaMembers(r.fsmeta)))
      && Field(ms, "python") == Some(Object(PythonMembers(r.py)))
  {
    hide CpuSingleMembers, CpuMultiMembers, MemoryMembers, StorageMembers, CompressionMembers,
      HashingMembers, FloatMembers, ThreadMembers, FsMetaMembers, PythonMembers;
    var ms := ResultMembers(r);
    ResultKeysDistinct(r);
    FieldAt(ms, 0);
    FieldAt(ms, 1);
    FieldAt(ms, 2);
    FieldAt(ms, 3);
    FieldAt(ms, 4);
    FieldAt(ms, 5);
    FieldAt(ms, 6);
    FieldAt(ms, 7);
    FieldAt(ms, 8);
    FieldAt(ms, 9);
  }

  lemma ReportKeysDistinct(r: Report)
    ensures DistinctKeys(ReportMembers(r))
  {
    hide MetaMembers, SystemMembers, ResultMembers;
  }

  lemma ReportFields(r: Report)
    ensures var ms := ReportMembers(r);
      && Field(ms, "meta") == Some(Object(MetaMembers(r.durationSec, r.sys)))
      && Field(ms, "system") == Some(Object(SystemMembers(r.sys)))
      && Field(ms, "results") == Some(Object(ResultMembers(r)))
  {
    hide MetaMembers, SystemMembers, ResultMembers;
    var ms := ReportMembers(r);
    ReportKeysDistinct(r);
    FieldAt(ms, 0);
    FieldAt(ms, 1);
    FieldAt(ms, 2);
  }

  /** A skipped module has nothing but the flag. */
  lemma SkippedFields(stor: StorageResult, comp: CompressionResult, py: PythonResult)
    ensures stor.skipped ==> StorageMembers(stor) == [Member("skipped", Bool(true))]
    ensures comp.skipped ==> CompressionMembers(comp) == [Member("skipped", Bool(true))]
    ensures py.skipped ==> PythonMembers(py) == [Member("skipped", Bool(true))]
  {
  }
}
