/** The results that benchmark/src/json_writer.c writes, and the JSON object they become.  Strings are strings of bytes;
    a `double` is represented by the text that `%.6g` gives for it. */
module Report {
  import opened Decimal
  import opened Json

  type DoubleText = string

  datatype SystemInfo = SystemInfo(
    deviceName: string, hostname: string, timestamp: string,
    osName: string, osVersion: string, kernelVersion: string, architecture: string, cpuModel: string,
    cpuFreqMhz: DoubleText, cpuPhysicalCores: int, cpuLogicalCores: int, ramTotalMb: int, ramAvailableMb: int,
    diskModel: string, diskType: string, filesystemType: string, storagePathUsed: string, storageIsTmpfs: bool)

  datatype CpuSingleResult = CpuSingleResult(
    depChainIps: DoubleText, indepThroughputIps: DoubleText, memoryBoundIps: DoubleText, durationSec: DoubleText)

  datatype CpuMultiResult = CpuMultiResult(
    depChainIps: DoubleText, indepThroughputIps: DoubleText, memoryBoundIps: DoubleText,
    depScaling: DoubleText, thrScaling: DoubleText, memScaling: DoubleText, thrEfficiencyPercent: DoubleText,
    durationSec: DoubleText, threadsUsed: int)

  datatype MemoryResult = MemoryResult(
    sequentialWriteGbps: DoubleText, sequentialReadGbps: DoubleText, memcpyGbps: DoubleText, latencyNs: DoubleText,
    bufferSizeMb: int)

  datatype StorageResult = StorageResult(
    sequentialWriteMbps: DoubleText, sequentialReadMbps: DoubleText,
    random4kWriteIops: DoubleText, random4kReadIops: DoubleText, fileCreatePerSec: DoubleText,
    storagePath: string, isTmpfs: bool, skipped: bool)

  datatype CompressionResult = CompressionResult(
    compressMbps: DoubleText, decompressMbps: DoubleText, compressionRatio: DoubleText, inputSizeMb: DoubleText,
    skipped: bool)

  datatype HashingResult = HashingResult(hashesPerSec: DoubleText, throughputMbps: DoubleText)

  datatype FloatResult = FloatResult(
    flopEstimatePerSec: DoubleText, iterationsPerSec: DoubleText, durationSec: DoubleText)

  datatype ThreadBenchResult = ThreadBenchResult(
    threadCreateLatencyUs: DoubleText, mutexOpsPerSec: DoubleText, condvarMsgsPerSec: DoubleText)

  datatype FsMetaResult = FsMetaResult(createPerSec: DoubleText, statPerSec: DoubleText, deletePerSec: DoubleText)

  datatype PythonResult = PythonResult(
    pythonVersion: string, startupTimeMs: DoubleText, singleCoreIps: DoubleText, multiCoreIps: DoubleText,
    multiCoreScaling: DoubleText, skipped: bool)

  datatype Report = Report(
    durationSec: int, sys: SystemInfo, cs: CpuSingleResult, cm: CpuMultiResult, mem: MemoryResult,
    stor: StorageResult, comp: CompressionResult, hash: HashingResult, fp: FloatResult, thr: ThreadBenchResult,
    fsmeta: FsMetaResult, py: PythonResult)

  const HWBENCH_VERSION := "1.0.0"

  function Chars(key: string, s: string): Member { Member(key, String(s)) }

  function Double(key: string, d: DoubleText): Member { Member(key, Number(d)) }

  function Integer(key: string, n: int): Member { Member(key, Number(Signed(n))) }

  function Flag(key: string, b: bool): Member { Member(key, Bool(b)) }

  function MetaMembers(duration: int, sys: SystemInfo): seq<Member> {
    [Chars("hwbench_version", HWBENCH_VERSION), Chars("device_name", sys.deviceName), Chars("hostname", sys.hostname),
     Chars("timestamp", sys.timestamp), Integer("duration_per_module_sec", duration)]
  }

  function SystemMembers(sys: SystemInfo): seq<Member> {
    [Chars("os_name", sys.osName), Chars("os_version", sys.osVersion), Chars("kernel_version", sys.kernelVersion),
     Chars("architecture", sys.architecture), Chars("cpu_model", sys.cpuModel), Double("cpu_freq_mhz", sys.cpuFreqMhz),
     Integer("cpu_physical_cores", sys.cpuPhysicalCores), Integer("cpu_logical_cores", sys.cpuLogicalCores),
     Integer("ram_total_mb", sys.ramTotalMb), Integer("ram_available_mb", sys.ramAvailableMb),
     Chars("disk_model", sys.diskModel), Chars("disk_type", sys.diskType), Chars("filesystem_type", sys.filesystemType),
     Chars("storage_path_used", sys.storagePathUsed), Flag("storage_is_tmpfs", sys.storageIsTmpfs)]
  }

  function CpuSingleMembers(r: CpuSingleResult): seq<Member> {
    [Double("dependent_chain_ips", r.depChainIps), Double("independent_throughput_ips", r.indepThroughputIps),
     Double("memory_bound_ips", r.memoryBoundIps), Double("duration_sec", r.durationSec)]
  }

  function CpuMultiMembers(r: CpuMultiResult): seq<Member> {
    [Double("dependent_chain_ips", r.depChainIps), Double("independent_throughput_ips", r.indepThroughputIps),
     Double("memory_bound_ips", r.memoryBoundIps), Double("dep_scaling", r.depScaling),
     Double("thr_scaling", r.thrScaling), Double("mem_scaling", r.memScaling),
     Double("thr_efficiency_percent", r.thrEfficiencyPercent), Double("duration_sec", r.durationSec),
     Integer("threads_used", r.threadsUsed)]
  }

  function MemoryMembers(r: MemoryResult): seq<Member> {
    [Double("sequential_write_gbps", r.sequentialWriteGbps), Double("sequential_read_gbps", r.sequentialReadGbps),
     Double("memcpy_gbps", r.memcpyGbps), Double("latency_ns", r.latencyNs), Integer("buffer_size_mb", r.bufferSizeMb)]
  }

  /** A skipped module leaves nothing but the fact; random access is null on a file system in memory. */
  function StorageMembers(r: StorageResult): seq<Member> {
    if r.skipped then [Flag("skipped", true)]
    else
      [Double("sequential_write_mbps", r.sequentialWriteMbps), Double("sequential_read_mbps", r.sequentialReadMbps),
       if r.isTmpfs then Member("random_4k_write_iops", Null) else Double("random_4k_write_iops", r.random4kWriteIops),
       if r.isTmpfs then Member("random_4k_read_iops", Null) else Double("random_4k_read_iops", r.random4kReadIops),
       Double("file_create_per_sec", r.fileCreatePerSec), Chars("storage_path", r.storagePath),
       Flag("is_tmpfs", r.isTmpfs)]
  }

  function CompressionMembers(r: CompressionResult): seq<Member> {
    if r.skipped then [Flag("skipped", true)]
    else
      [Double("compress_mbps", r.compressMbps), Double("decompress_mbps", r.decompressMbps),
       Double("compression_ratio", r.compressionRatio), Double("input_size_mb", r.inputSizeMb)]
  }

  function HashingMembers(r: HashingResult): seq<Member> {
    [Double("hashes_per_sec", r.hashesPerSec), Double("throughput_mbps", r.throughputMbps)]
  }

  function FloatMembers(r: FloatResult): seq<Member> {
    [Double("flop_estimate_per_sec", r.flopEstimatePerSec), Double("iterations_per_sec", r.iterationsPerSec),
     Double("duration_sec", r.durationSec)]
  }

  function ThreadMembers(r: ThreadBenchResult): seq<Member> {
    [Double("thread_create_latency_us", r.threadCreateLatencyUs), Double("mutex_ops_per_sec", r.mutexOpsPerSec),
     Double("condvar_msgs_per_sec", r.condvarMsgsPerSec)]
  }

  function FsMetaMembers(r: FsMetaResult): seq<Member> {
    [Double("create_per_sec", r.createPerSec), Double("stat_per_sec", r.statPerSec),
     Double("delete_per_sec", r.deletePerSec)]
  }

  function PythonMembers(r: PythonResult): seq<Member> {
    if r.skipped then [Flag("skipped", true)]
    else
      [Chars("python_version", r.pythonVersion), Double("startup_time_ms", r.startupTimeMs),
       Double("single_core_iterations_per_sec", r.singleCoreIps),
       Double("multi_core_iterations_per_sec", r.multiCoreIps),
       Double("multi_core_scaling_factor", r.multiCoreScaling)]
  }

  function ResultMembers(r: Report): seq<Member> {
    [Member("cpu_single", Object(CpuSingleMembers(r.cs))), Member("cpu_multi", Object(CpuMultiMembers(r.cm))),
     Member("memory", Object(MemoryMembers(r.mem))), Member("storage", Object(StorageMembers(r.stor))),
     Member("compression", Object(CompressionMembers(r.comp))), Member("hashing", Object(HashingMembers(r.hash))),
     Member("floating_point", Object(FloatMembers(r.fp))), Member("thread_bench", Object(ThreadMembers(r.thr))),
     Member("fs_metadata", Object(FsMetaMembers(r.fsmeta))), Member("python", Object(PythonMembers(r.py)))]
  }

  /** The document. */
  function ReportMembers(r: Report): seq<Member> {
    [Member("meta", Object(MetaMembers(r.durationSec, r.sys))), Member("system", Object(SystemMembers(r.sys))),
     Member("results", Object(ResultMembers(r)))]
  }
}
