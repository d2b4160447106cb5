/** Reading a written document back to the fields of the report. */
module ReportReader {
  import opened Decimal
  import opened Json
  import opened JsonFile
  import opened Report
  import opened ReportKeys
  import opened Utf8

  // ---- Integers ----

  lemma {:induction false} DigitsComplete(s: string)
    requires AllDigits(s)
    ensures CompletesNumber(Int, s)
  {
    if s != "" {
      DigitsComplete(s[1..]);
    }
  }

  /** What `%d` prints is a JSON number. */
  lemma SignedIsNumber(n: int)
    ensures IsNumber(Signed(n))
  {
    var m: nat := if n < 0 then -n else n;
    var s := Unsigned(m);
    UnsignedValue(m);
    assert IsDigit(s[0]);
    DigitsComplete(s[1..]);
    if s[0] == '0' {
      assert s == "0" && s[1..] == "";
    }
    assert CompletesNumber(Start, s) && CompletesNumber(Minus, s);
    assert ("-" + s)[1..] == s;
  }

  /** The integer that a decimal lexeme stands for. */
  function ReadSigned(s: string): int {
    if s != "" && s[0] == '-' && AllDigits(s[1..]) then -(ToNumber(s[1..]) as int)
    else if AllDigits(s) then ToNumber(s)
    else 0
  }

  lemma SignedRead(n: int)
    ensures ReadSigned(Signed(n)) == n
  {
    hide Unsigned;
    var m: nat := if n < 0 then -n else n;
    var s := Unsigned(m);
    UnsignedValue(m);
    if n < 0 {
      assert ("-" + s)[1..] == s;
    } else {
      assert IsDigit(s[0]);
    }
  }

  // ---- Fields by name ----

  function TextOf(ms: seq<Member>, key: string): string {
    match Field(ms, key)
    case Some(String(s)) => s
    case _ => ""
  }

  /** The text of a number; `null` has none. */
  function NumberOf(ms: seq<Member>, key: string): string {
    match Field(ms, key)
    case Some(Number(l)) => l
    case _ => ""
  }

  function IntegerOf(ms: seq<Member>, key: string): int {
    ReadSigned(NumberOf(ms, key))
  }

  function FlagOf(ms: seq<Member>, key: string): bool {
    Field(ms, key) == Some(Bool(true))
  }

  function ObjectOf(ms: seq<Member>, key: string): seq<Member> {
    match Field(ms, key)
    case Some(Object(members)) => members
    case _ => []
  }

  // ---- Sections ----

  function ReadSystem(meta: seq<Member>, ms: seq<Member>): SystemInfo {
    SystemInfo(
      TextOf(meta, "device_name"),
      TextOf(meta, "hostname"),
      TextOf(meta, "timestamp"),
      TextOf(ms, "os_name"),
      TextOf(ms, "os_version"),
      TextOf(ms, "kernel_version"),
      TextOf(ms, "architecture"),
      TextOf(ms, "cpu_model"),
      NumberOf(ms, "cpu_freq_mhz"),
      IntegerOf(ms, "cpu_physical_cores"),
      IntegerOf(ms, "cpu_logical_cores"),
      IntegerOf(ms, "ram_total_mb"),
      IntegerOf(ms, "ram_available_mb"),
      TextOf(ms, "disk_model"),
      TextOf(ms, "disk_type"),
      TextOf(ms, "filesystem_type"),
      TextOf(ms, "storage_path_used"),
      FlagOf(ms, "storage_is_tmpfs"))
  }

  function ReadCpuSingle(ms: seq<Member>): CpuSingleResult {
    CpuSingleResult(
      NumberOf(ms, "dependent_chain_ips"),
      NumberOf(ms, "independent_throughput_ips"),
      NumberOf(ms, "memory_bound_ips"),
      NumberOf(ms, "duration_sec"))
  }

  function ReadCpuMulti(ms: seq<Member>): CpuMultiResult {
    CpuMultiResult(
      NumberOf(ms, "dependent_chain_ips"),
      NumberOf(ms, "independent_throughput_ips"),
      NumberOf(ms, "memory_bound_ips"),
      NumberOf(ms, "dep_scaling"),
      NumberOf(ms, "thr_scaling"),
      NumberOf(ms, "mem_scaling"),
      NumberOf(ms, "thr_efficiency_percent"),
      NumberOf(ms, "duration_sec"),
      IntegerOf(ms, "threads_used"))
  }

  function ReadMemory(ms: seq<Member>): MemoryResult {
    MemoryResult(
      NumberOf(ms, "sequential_write_gbps"),
      NumberOf(ms, "sequential_read_gbps"),
      NumberOf(ms, "memcpy_gbps"),
      NumberOf(ms, "latency_ns"),
      IntegerOf(ms, "buffer_size_mb"))
  }

  function ReadStorage(ms: seq<Member>): StorageResult {
    if FlagOf(ms, "skipped") then NO_STORAGE
    else
      StorageResult(
        NumberOf(ms, "sequential_write_mbps"),
        NumberOf(ms, "sequential_read_mbps"),
        NumberOf(ms, "random_4k_write_iops"),
        NumberOf(ms, "random_4k_read_iops"),
        NumberOf(ms, "file_create_per_sec"),
        TextOf(ms, "storage_path"),
        FlagOf(ms, "is_tmpfs"),
        false)
  }

  function ReadCompression(ms: seq<Member>): CompressionResult {
    if FlagOf(ms, "skipped") then NO_COMPRESSION
    else
      CompressionResult(
        NumberOf(ms, "compress_mbps"),
        NumberOf(ms, "decompress_mbps"),
        NumberOf(ms, "compression_ratio"),
        NumberOf(ms, "input_size_mb"),
        false)
  }

  function ReadHashing(ms: seq<Member>): HashingResult {
    HashingResult(
      NumberOf(ms, "hashes_per_sec"),
      NumberOf(ms, "throughput_mbps"))
  }

  function ReadFloat(ms: seq<Member>): FloatResult {
    FloatResult(
      NumberOf(ms, "flop_estimate_per_sec"),
      NumberOf(ms, "iterations_per_sec"),
      NumberOf(ms, "duration_sec"))
  }

  function ReadThread(ms: seq<Member>): ThreadBenchResult {
    ThreadBenchResult(
      NumberOf(ms, "thread_create_latency_us"),
      NumberOf(ms, "mutex_ops_per_sec"),
      NumberOf(ms, "condvar_msgs_per_sec"))
  }

  function ReadFsMeta(ms: seq<Member>): FsMetaResult {
    FsMetaResult(
      NumberOf(ms, "create_per_sec"),
      NumberOf(ms, "stat_per_sec"),
      NumberOf(ms, "delete_per_sec"))
  }

  function ReadPython(ms: seq<Member>): PythonResult {
    if FlagOf(ms, "skipped") then NO_PYTHON
    else
      PythonResult(
        TextOf(ms, "python_version"),
        NumberOf(ms, "startup_time_ms"),
        NumberOf(ms, "single_core_iterations_per_sec"),
        NumberOf(ms, "multi_core_iterations_per_sec"),
        NumberOf(ms, "multi_core_scaling_factor"),
        false)
  }

  function ReadReport(ms: seq<Member>): Report {
    var meta, results := ObjectOf(ms, "meta"), ObjectOf(ms, "results");
    Report(
      IntegerOf(meta, "duration_per_module_sec"),
      ReadSystem(meta, ObjectOf(ms, "system")),
      ReadCpuSingle(ObjectOf(results, "cpu_single")),
      ReadCpuMulti(ObjectOf(results, "cpu_multi")),
      ReadMemory(ObjectOf(results, "memory")),
      ReadStorage(ObjectOf(results, "storage")),
      ReadCompression(ObjectOf(results, "compression")),
      ReadHashing(ObjectOf(results, "hashing")),
      ReadFloat(ObjectOf(results, "floating_point")),
      ReadThread(ObjectOf(results, "thread_bench")),
      ReadFsMeta(ObjectOf(results, "fs_metadata")),
      ReadPython(ObjectOf(results, "python")))
  }

  // ---- What a report keeps of its fields when it is written ----

  const NO_STORAGE := StorageResult("", "", "", "", "", "", false, true)
  const NO_COMPRESSION := CompressionResult("", "", "", "", true)
  const NO_PYTHON := PythonResult("", "", "", "", "", true)

  function WrittenStorage(r: StorageResult): StorageResult {
    if r.skipped then NO_STORAGE
    else if r.isTmpfs then r.(random4kWriteIops := "", random4kReadIops := "")
    else r
  }

  /** The report without the fields of skipped modules and without random access on tmpfs. */
  function Written(r: Report): Report {
    r.(stor := WrittenStorage(r.stor),
       comp := if r.comp.skipped then NO_COMPRESSION else r.comp,
       py := if r.py.skipped then NO_PYTHON else r.py)
  }

  lemma SystemRead(duration: int, sys: SystemInfo)
    ensures ReadSystem(MetaMembers(duration, sys), SystemMembers(sys)) == sys
    ensures IntegerOf(MetaMembers(duration, sys), "duration_per_module_sec") == duration
  {
    hide Field, MetaMembers, SystemMembers, ReadSigned, Signed;
    MetaFields(duration, sys);
    SystemFields(sys);
    SignedRead(duration);
    SignedRead(sys.cpuPhysicalCores);
    SignedRead(sys.cpuLogicalCores);
    SignedRead(sys.ramTotalMb);
    SignedRead(sys.ramAvailableMb);
  }

  lemma CpuAndMemoryRead(cs: CpuSingleResult, cm: CpuMultiResult, mem: MemoryResult)
    ensures ReadCpuSingle(CpuSingleMembers(cs)) == cs
    ensures ReadCpuMulti(CpuMultiMembers(cm)) == cm
    ensures ReadMemory(MemoryMembers(mem)) == mem
  {
    hide Field, CpuSingleMembers, CpuMultiMembers, MemoryMembers, ReadSigned, Signed;
    CpuSingleFields(cs);
    CpuMultiFields(cm);
    SignedRead(cm.threadsUsed);
    MemoryFields(mem);
    SignedRead(mem.bufferSizeMb);
  }

  lemma StorageRead(stor: StorageResult)
    ensures ReadStorage(StorageMembers(stor)) == WrittenStorage(stor)
  {
    if stor.skipped {
      assert Field(StorageMembers(stor), "skipped") == Some(Bool(true));
    } else {
      hide Field, StorageMembers;
      StorageFields(stor);
    }
  }

  lemma CompressionRead(comp: CompressionResult)
    ensures ReadCompression(CompressionMembers(comp)) == if comp.skipped then NO_COMPRESSION else comp
  {
    if comp.skipped {
      assert Field(CompressionMembers(comp), "skipped") == Some(Bool(true));
    } else {
      hide Field, CompressionMembers;
      CompressionFields(comp);
    }
  }

  lemma PythonRead(py: PythonResult)
    ensures ReadPython(PythonMembers(py)) == if py.skipped then NO_PYTHON else py
  {
    if py.skipped {
      assert Field(PythonMembers(py), "skipped") == Some(Bool(true));
    } else {
      hide Field, PythonMembers;
      PythonFields(py);
    }
  }

  lemma OthersRead(hash: HashingResult, fp: FloatResult, thr: ThreadBenchResult, fsmeta: FsMetaResult)
    ensures ReadHashing(HashingMembers(hash)) == hash
    ensures ReadFloat(FloatMembers(fp)) == fp
    ensures ReadThread(ThreadMembers(thr)) == thr
    ensures ReadFsMeta(FsMetaMembers(fsmeta)) == fsmeta
  {
    hide Field, HashingMembers, FloatMembers, ThreadMembers, FsMetaMembers;
    HashingFields(hash);
    FloatFields(fp);
    ThreadFields(thr);
    FsMetaFields(fsmeta);
  }

  /** The members of the document, looked up by name, give back every field that is written. */
  lemma ReportRead(r: Report)
    ensures ReadReport(ReportMembers(r)) == Written(r)
  {
    hide Field, ReportMembers, ResultMembers, IntegerOf, ReadSystem, MetaMembers, SystemMembers,
      ReadCpuSingle, CpuSingleMembers, ReadCpuMulti, CpuMultiMembers, ReadMemory, MemoryMembers,
      ReadStorage, StorageMembers, WrittenStorage, ReadCompression, CompressionMembers,
      ReadHashing, HashingMembers, ReadFloat, FloatMembers, ReadThread, ThreadMembers, ReadFsMeta, FsMetaMembers,
      ReadPython, PythonMembers;
    ReportFields(r);
    ResultFields(r);
    SystemRead(r.durationSec, r.sys);
    CpuAndMemoryRead(r.cs, r.cm, r.mem);
    StorageRead(r.stor);
    CompressionRead(r.comp);
    OthersRead(r.hash, r.fp, r.thr, r.fsmeta);
    PythonRead(r.py);
  }

  lemma SkippableMembers(stor: StorageResult, comp: CompressionResult, py: PythonResult)
    ensures StorageMembers(WrittenStorage(stor)) == StorageMembers(stor)
    ensures CompressionMembers(if comp.skipped then NO_COMPRESSION else comp) == CompressionMembers(comp)
    ensures PythonMembers(if py.skipped then NO_PYTHON else py) == PythonMembers(py)
  {
  }

  /** Nothing else is written. */
  lemma MembersOfWritten(r: Report)
    ensures ReportMembers(Written(r)) == ReportMembers(r)
  {
    hide WrittenStorage, StorageMembers, CompressionMembers, PythonMembers, MetaMembers, SystemMembers,
      CpuSingleMembers, CpuMultiMembers, MemoryMembers, HashingMembers, FloatMembers, ThreadMembers, FsMetaMembers;
    SkippableMembers(r.stor, r.comp, r.py);
  }

  // ---- The document ----

  /** Every number and string of the document, keys included, can be written. */
  predicate Writable(r: Report) {
    Printable(Object(ReportMembers(r))) && WellFormed(Object(ReportMembers(r)))
  }

  /** Whatever was skipped and whatever the storage is: the written file is a JSON text in UTF-8 for exactly the members
      of the report, with nothing left over, if and only if every number in it is one that JSON knows (`%.6g` may give
      `inf` or `nan`) and every string is well-formed UTF-8 free of quotation marks, backslashes and control characters
      (`json_str` escapes none of them). */
  lemma WrittenDocumentReadBack(r: Report)
    ensures ReadFile(DocumentText(ReportMembers(r))) == Some(Object(ReportMembers(r))) <==> Writable(r)
  {
    hide ReportMembers;
    FileReadIff(ReportMembers(r));
  }

  /** Two documents are equal exactly when the reports agree on every field that is written. */
  lemma SameDocumentIffSameFields(r: Report, s: Report)
    requires Writable(r) && Writable(s)
    ensures DocumentText(ReportMembers(r)) == DocumentText(ReportMembers(s)) <==> Written(r) == Written(s)
  {
    hide ReportMembers, Written, ReadReport, DocumentText;
    WrittenDocumentReadBack(r);
    WrittenDocumentReadBack(s);
    ReportRead(r);
    ReportRead(s);
    MembersOfWritten(r);
    MembersOfWritten(s);
  }

  // ---- Where it fails ----

  lemma PartFits(ms: seq<Member>, i: nat)
    requires i < |ms|
    ensures Printable(Object(ms)) ==> IsPlain(ms[i].key) && Printable(ms[i].value)
    ensures WellFormed(Object(ms)) ==> IsUtf8(ms[i].key) && WellFormed(ms[i].value)
  {
    hide IsPlain, IsUtf8;
    assert ms[i] in ms;
  }

  lemma DeviceNamePlace(r: Report)
    ensures |ReportMembers(r)| == 3 && ReportMembers(r)[0].value == Object(MetaMembers(r.durationSec, r.sys))
    ensures |MetaMembers(r.durationSec, r.sys)| == 5
    ensures MetaMembers(r.durationSec, r.sys)[1].value == String(r.sys.deviceName)
  {
    hide SystemMembers, ResultMembers, Signed;
  }

  lemma DeviceNameFits(r: Report)
    requires Writable(r)
    ensures IsPlain(r.sys.deviceName) && IsUtf8(r.sys.deviceName)
  {
    hide IsPlain, IsUtf8, ReportMembers, MetaMembers;
    DeviceNamePlace(r);
    PartFits(ReportMembers(r), 0);
    PartFits(MetaMembers(r.durationSec, r.sys), 1);
  }

  lemma CreateRatePlace(r: Report)
    ensures |ReportMembers(r)| == 3 && ReportMembers(r)[2].value == Object(ResultMembers(r))
    ensures |ResultMembers(r)| == 10 && ResultMembers(r)[8].value == Object(FsMetaMembers(r.fsmeta))
    ensures |FsMetaMembers(r.fsmeta)| == 3 && FsMetaMembers(r.fsmeta)[0].value == Number(r.fsmeta.createPerSec)
  {
    hide MetaMembers, SystemMembers, CpuSingleMembers, CpuMultiMembers, MemoryMembers, StorageMembers,
      CompressionMembers, HashingMembers, FloatMembers, ThreadMembers, PythonMembers;
  }

  lemma CreateRateFits(r: Report)
    requires Writable(r)
    ensures IsNumber(r.fsmeta.createPerSec)
  {
    hide IsPlain, IsUtf8, IsNumber, ReportMembers, ResultMembers, FsMetaMembers;
    CreateRatePlace(r);
    PartFits(ReportMembers(r), 2);
    PartFits(ResultMembers(r), 8);
    PartFits(FsMetaMembers(r.fsmeta), 0);
  }

  /** A quotation mark in the device name, which comes from the command line. */
  lemma QuotationMarkBreaks(r: Report)
    requires r.sys.deviceName == "a\"b"
    ensures ReadFile(DocumentText(ReportMembers(r))) != Some(Object(ReportMembers(r)))
  {
    hide Writable, ReadFile, DocumentText, ReportMembers;
    WrittenDocumentReadBack(r);
    assert r.sys.deviceName[1] == '"';
    if Writable(r) {
      DeviceNameFits(r);
    }
  }

  /** A device name that ends inside a character of two bytes, as one that was cut at the size of its buffer can. */
  lemma CutCharacterBreaks(r: Report)
    requires r.sys.deviceName == "a\U{C3}"
    ensures ReadFile(DocumentText(ReportMembers(r))) != Some(Object(ReportMembers(r)))
  {
    hide Writable, ReadFile, DocumentText, ReportMembers;
    WrittenDocumentReadBack(r);
    RunFour(Ready, 'a', '\U{C3}', ' ', ' ');
    if Writable(r) {
      DeviceNameFits(r);
    }
  }

  /** A rate over a time too short for the clock: the quotient is infinite and `%.6g` prints `inf`. */
  lemma InfinityBreaks(r: Report)
    requires r.fsmeta.createPerSec == "inf"
    ensures ReadFile(DocumentText(ReportMembers(r))) != Some(Object(ReportMembers(r)))
  {
    hide Writable, ReadFile, DocumentText, ReportMembers;
    WrittenDocumentReadBack(r);
    StuckStays("inf"[1..]);
    if Writable(r) {
      CreateRateFits(r);
    }
  }
}
