/** `write_json` and its helpers, of benchmark/src/json_writer.c: the document is written piece by piece into a string
    buffer. */
module JsonWriter {
  import opened Decimal
  import opened Json
  import opened Report
  import opened StringBuffer

  // ---- Members of the object being written ----

  /** The members written so far, ready for another one. */
  function OpenedText(ms: seq<Member>): string {
    if ms == [] then "" else MembersText(INNER, ms) + ",\n"
  }

  lemma {:induction false} MembersSnoc(ms: seq<Member>, m: Member)
    ensures MembersText(INNER, ms + [m]) == OpenedText(ms) + MemberText(INNER, m)
  {
    hide MemberText;
    if ms == [] {
      assert ms + [m] == [m];
    } else {
      assert (ms + [m])[1..] == ms[1..] + [m];
      MembersSnoc(ms[1..], m);
    }
  }

  /** `sb` ends in the members `ms`, after `base`. */
  ghost predicate Written(sb: SB, base: string, ms: seq<Member>)
    reads sb, sb.buf
  {
    sb.Valid() && ms != [] && sb.Contents() == base + MembersText(INNER, ms)
  }

  /** Moreover another member may follow. */
  ghost predicate Opened(sb: SB, base: string, ms: seq<Member>)
    reads sb, sb.buf
  {
    sb.Valid() && sb.Contents() == base + OpenedText(ms)
  }

  /** `sb_append` of a line that opens an object. */
  method Begin(sb: SB, line: string) returns (ghost base: string)
    requires sb.Valid()
    modifies sb.Repr
    ensures Opened(sb, base, []) && fresh(sb.Repr - old(sb.Repr))
    ensures base == old(sb.Contents()) + line
  {
    hide MembersText;
    sb.Append(line);
    base := sb.Contents();
  }

  /** `sb_append` of the lines that close it. */
  method End(sb: SB, lines: string, ghost base: string, ghost ms: seq<Member>)
    requires Written(sb, base, ms)
    modifies sb.Repr
    ensures sb.Valid() && fresh(sb.Repr - old(sb.Repr))
    ensures sb.Contents() == base + MembersText(INNER, ms) + lines
  {
    hide MembersText;
    sb.Append(lines);
  }

  method Comma(sb: SB, ghost base: string, ghost ms: seq<Member>)
    requires Written(sb, base, ms)
    modifies sb.Repr
    ensures Opened(sb, base, ms) && fresh(sb.Repr - old(sb.Repr))
  {
    hide MembersText;
    sb.Append(",\n");
  }

  /** `sb_printf` of one member. */
  method Line(sb: SB, text: string, ghost base: string, ghost ms: seq<Member>, ghost m: Member)
    requires Opened(sb, base, ms) && text == MemberText(INNER, m)
    modifies sb.Repr
    ensures Written(sb, base, ms + [m]) && fresh(sb.Repr - old(sb.Repr))
  {
    hide MembersText, MemberText, OpenedText;
    sb.Printf(StringBuffer.Text(text));
    MembersSnoc(ms, m);
  }

  /** The text of a member that is not an object, as the format strings spell it. */
  lemma LineOf(m: Member)
    requires !m.value.Object?
    ensures MemberText(INNER, m) ==
      match m.value
      case Null => "    \"" + m.key + "\": null"
      case Bool(b) => "    \"" + m.key + "\": " + (if b then "true" else "false")
      case Number(l) => "    \"" + m.key + "\": " + l
      case String(s) => "    \"" + m.key + "\": \"" + s + "\""
      case Object(_) => ""
  {
    assert INNER + "\"" == "    \"";
    if m.value.String? {
      assert "\": " + "\"" == "\": \"";
    }
  }

  /** A null pointer is written as the empty string. */
  method JsonStr(sb: SB, key: string, val: Option<string>, ghost base: string, ghost ms: seq<Member>)
    returns (ghost ms': seq<Member>)
    requires Opened(sb, base, ms)
    modifies sb.Repr
    ensures Written(sb, base, ms') && fresh(sb.Repr - old(sb.Repr))
    ensures ms' == ms + [Chars(key, if val.Some? then val.value else "")]
  {
    hide MembersText, OpenedText, MemberText, Signed;
    var s := if val.Some? then val.value else "";
    LineOf(Chars(key, s));
    ms' := ms + [Chars(key, s)];
    Line(sb, "    \"" + key + "\": \"" + s + "\"", base, ms, Chars(key, s));
  }

  method JsonDbl(sb: SB, key: string, val: DoubleText, ghost base: string, ghost ms: seq<Member>)
    returns (ghost ms': seq<Member>)
    requires Opened(sb, base, ms)
    modifies sb.Repr
    ensures Written(sb, base, ms') && ms' == ms + [Double(key, val)] && fresh(sb.Repr - old(sb.Repr))
  {
    hide MembersText, OpenedText, MemberText, Signed;
    LineOf(Double(key, val));
    ms' := ms + [Double(key, val)];
    Line(sb, "    \"" + key + "\": " + val, base, ms, Double(key, val));
  }

  /** `json_int` and `json_long`. */
  method JsonInt(sb: SB, key: string, val: int, ghost base: string, ghost ms: seq<Member>)
    returns (ghost ms': seq<Member>)
    requires Opened(sb, base, ms)
    modifies sb.Repr
    ensures Written(sb, base, ms') && ms' == ms + [Integer(key, val)] && fresh(sb.Repr - old(sb.Repr))
  {
    hide MembersText, OpenedText, MemberText, Signed;
    LineOf(Integer(key, val));
    ms' := ms + [Integer(key, val)];
    Line(sb, "    \"" + key + "\": " + Signed(val), base, ms, Integer(key, val));
  }

  method JsonBool(sb: SB, key: string, val: bool, ghost base: string, ghost ms: seq<Member>)
    returns (ghost ms': seq<Member>)
    requires Opened(sb, base, ms)
    modifies sb.Repr
    ensures Written(sb, base, ms') && ms' == ms + [Flag(key, val)] && fresh(sb.Repr - old(sb.Repr))
  {
    hide MembersText, OpenedText, MemberText, Signed;
    LineOf(Flag(key, val));
    ms' := ms + [Flag(key, val)];
    Line(sb, "    \"" + key + "\": " + (if val then "true" else "false"), base, ms, Flag(key, val));
  }

  method JsonNull(sb: SB, key: string, ghost base: string, ghost ms: seq<Member>)
    returns (ghost ms': seq<Member>)
    requires Opened(sb, base, ms)
    modifies sb.Repr
    ensures Written(sb, base, ms') && ms' == ms + [Member(key, Null)] && fresh(sb.Repr - old(sb.Repr))
  {
    hide MembersText, OpenedText, MemberText, Signed;
    LineOf(Member(key, Null));
    ms' := ms + [Member(key, Null)];
    Line(sb, "    \"" + key + "\": null", base, ms, Member(key, Null));
  }

  // ---- Members with a comma behind them ----

  method StrComma(sb: SB, key: string, val: string, ghost base: string, ghost ms: seq<Member>)
    returns (ghost ms': seq<Member>)
    requires Opened(sb, base, ms)
    modifies sb.Repr
    ensures Opened(sb, base, ms') && ms' == ms + [Chars(key, val)] && fresh(sb.Repr - old(sb.Repr))
  {
    hide Opened, Written;
    ms' := JsonStr(sb, key, Some(val), base, ms);
    Comma(sb, base, ms');
  }

  method DblComma(sb: SB, key: string, val: DoubleText, ghost base: string, ghost ms: seq<Member>)
    returns (ghost ms': seq<Member>)
    requires Opened(sb, base, ms)
    modifies sb.Repr
    ensures Opened(sb, base, ms') && ms' == ms + [Double(key, val)] && fresh(sb.Repr - old(sb.Repr))
  {
    hide Opened, Written;
    ms' := JsonDbl(sb, key, val, base, ms);
    Comma(sb, base, ms');
  }

  method IntComma(sb: SB, key: string, val: int, ghost base: string, ghost ms: seq<Member>)
    returns (ghost ms': seq<Member>)
    requires Opened(sb, base, ms)
    modifies sb.Repr
    ensures Opened(sb, base, ms') && ms' == ms + [Integer(key, val)] && fresh(sb.Repr - old(sb.Repr))
  {
    hide Opened, Written;
    ms' := JsonInt(sb, key, val, base, ms);
    Comma(sb, base, ms');
  }

  method NullComma(sb: SB, key: string, ghost base: string, ghost ms: seq<Member>)
    returns (ghost ms': seq<Member>)
    requires Opened(sb, base, ms)
    modifies sb.Repr
    ensures Opened(sb, base, ms') && ms' == ms + [Member(key, Null)] && fresh(sb.Repr - old(sb.Repr))
  {
    hide Opened, Written;
    ms' := JsonNull(sb, key, base, ms);
    Comma(sb, base, ms');
  }

  // ---- The sections ----

  /** An object with the line that opens it and the lines that close it. */
  function Block(opening: string, ms: seq<Member>, closing: string): string {
    opening + MembersText(INNER, ms) + closing
  }

  method WriteMeta(sb: SB, duration: int, r: SystemInfo)
    requires sb.Valid()
    modifies sb.Repr
    ensures sb.Valid() && fresh(sb.Repr - old(sb.Repr))
    ensures sb.Contents() == old(sb.Contents()) + Block("  \"meta\": {\n", MetaMembers(duration, r), "\n  },\n")
  {
    hide Written, Opened, MembersText, SB.Valid, SB.Contents, Chars, Double, Integer, Flag;
    ghost var base := Begin(sb, "  \"meta\": {\n");
    ghost var ms := [];
    ms := StrComma(sb, "hwbench_version", HWBENCH_VERSION, base, ms);
    ms := StrComma(sb, "device_name", r.deviceName, base, ms);
    ms := StrComma(sb, "hostname", r.hostname, base, ms);
    ms := StrComma(sb, "timestamp", r.timestamp, base, ms);
    ms := JsonInt(sb, "duration_per_module_sec", duration, base, ms);
    assert ms == MetaMembers(duration, r);
    End(sb, "\n  },\n", base, ms);
  }

  method WriteSystemSoftware(sb: SB, r: SystemInfo, ghost base: string, ghost before: seq<Member>)
    returns (ghost ms: seq<Member>)
    requires Opened(sb, base, before)
    modifies sb.Repr
    ensures Opened(sb, base, ms) && fresh(sb.Repr - old(sb.Repr))
    ensures ms == before + SystemMembers(r)[..5]
  {
    hide Written, Opened, MembersText, SB.Valid, SB.Contents, Chars, Double, Integer, Flag;
    ms := before;
    ms := StrComma(sb, "os_name", r.osName, base, ms);
    ms := StrComma(sb, "os_version", r.osVersion, base, ms);
    ms := StrComma(sb, "kernel_version", r.kernelVersion, base, ms);
    ms := StrComma(sb, "architecture", r.architecture, base, ms);
    ms := StrComma(sb, "cpu_model", r.cpuModel, base, ms);
  }

  method WriteSystemHardware(sb: SB, r: SystemInfo, ghost base: string, ghost before: seq<Member>)
    returns (ghost ms: seq<Member>)
    requires Opened(sb, base, before)
    modifies sb.Repr
    ensures Opened(sb, base, ms) && fresh(sb.Repr - old(sb.Repr))
    ensures ms == before + SystemMembers(r)[5..10]
  {
    hide Written, Opened, MembersText, SB.Valid, SB.Contents, Chars, Double, Integer, Flag;
    ms := before;
    ms := DblComma(sb, "cpu_freq_mhz", r.cpuFreqMhz, base, ms);
    ms := IntComma(sb, "cpu_physical_cores", r.cpuPhysicalCores, base, ms);
    ms := IntComma(sb, "cpu_logical_cores", r.cpuLogicalCores, base, ms);
    ms := IntComma(sb, "ram_total_mb", r.ramTotalMb, base, ms);
    ms := IntComma(sb, "ram_available_mb", r.ramAvailableMb, base, ms);
  }

  method WriteSystemStorage(sb: SB, r: SystemInfo, ghost base: string, ghost before: seq<Member>)
    returns (ghost ms: seq<Member>)
    requires Opened(sb, base, before)
    modifies sb.Repr
    ensures Written(sb, base, ms) && fresh(sb.Repr - old(sb.Repr))
    ensures ms == before + SystemMembers(r)[10..]
  {
    hide Written, Opened, MembersText, SB.Valid, SB.Contents, Chars, Double, Integer, Flag;
    ms := before;
    ms := StrComma(sb, "disk_model", r.diskModel, base, ms);
    ms := StrComma(sb, "disk_type", r.diskType, base, ms);
    ms := StrComma(sb, "filesystem_type", r.filesystemType, base, ms);
    ms := StrComma(sb, "storage_path_used", r.storagePathUsed, base, ms);
    ms := JsonBool(sb, "storage_is_tmpfs", r.storageIsTmpfs, base, ms);
  }

  method WriteSystem(sb: SB, r: SystemInfo)
    requires sb.Valid()
    modifies sb.Repr
    ensures sb.Valid() && fresh(sb.Repr - old(sb.Repr))
    ensures sb.Contents() == old(sb.Contents()) + Block("  \"system\": {\n", SystemMembers(r), "\n  },\n")
  {
    hide Written, Opened, MembersText, SB.Valid, SB.Contents, Chars, Double, Integer, Flag;
    ghost var base := Begin(sb, "  \"system\": {\n");
    ghost var ms := [];
    ms := WriteSystemSoftware(sb, r, base, ms);
    ms := WriteSystemHardware(sb, r, base, ms);
    ms := WriteSystemStorage(sb, r, base, ms);
    assert ms == SystemMembers(r);
    End(sb, "\n  },\n", base, ms);
  }

  /** A section of the results, and the comma after all but the last. */
  lemma SectionText(opening: string, m: Member, closing: string)
    requires m.value.Object? && opening == "    \"" + m.key + "\": {\n"
    ensures Block(opening, m.value.members, "\n    }" + closing) == MemberText(INNER, m) + closing
  {
    hide MembersText;
    var body := MembersText(INNER, m.value.members);
    assert INNER + "\"" == "    \"" && ": " + "{\n" == ": {\n";
    assert "\n" + INNER + "}" == "\n    }";
    assert MemberText(INNER, m) == opening + body + "\n    }";
  }

  lemma SectionAdded(sections: seq<Member>, opening: string, m: Member)
    requires m.value.Object? && opening == "    \"" + m.key + "\": {\n"
    ensures OpenedText(sections) + Block(opening, m.value.members, "\n    },\n") == OpenedText(sections + [m])
  {
    SectionText(opening, m, ",\n");
    MembersSnoc(sections, m);
    hide MembersText, MemberText, Block;
    assert "\n    }" + ",\n" == "\n    },\n";
  }

  lemma LastSectionAdded(sections: seq<Member>, opening: string, m: Member)
    requires m.value.Object? && opening == "    \"" + m.key + "\": {\n"
    ensures OpenedText(sections) + Block(opening, m.value.members, "\n    }\n")
         == MembersText(INNER, sections + [m]) + "\n"
  {
    SectionText(opening, m, "\n");
    MembersSnoc(sections, m);
    hide MembersText, MemberText, Block, OpenedText;
    assert "\n    }" + "\n" == "\n    }\n";
  }

  method BeginSection(sb: SB, opening: string, ghost outer: string, ghost before: seq<Member>)
    returns (ghost base: string)
    requires Opened(sb, outer, before)
    modifies sb.Repr
    ensures Opened(sb, base, []) && fresh(sb.Repr - old(sb.Repr))
    ensures base == outer + OpenedText(before) + opening
  {
    base := Begin(sb, opening);
  }

  method EndSection(sb: SB, ghost outer: string, ghost before: seq<Member>, ghost m: Member, ghost base: string)
    returns (ghost sections: seq<Member>)
    requires m.value.Object? && Written(sb, base, m.value.members)
    requires base == outer + OpenedText(before) + ("    \"" + m.key + "\": {\n")
    modifies sb.Repr
    ensures sections == before + [m] && Opened(sb, outer, sections) && fresh(sb.Repr - old(sb.Repr))
  {
    hide MembersText, OpenedText;
    End(sb, "\n    },\n", base, m.value.members);
    SectionAdded(before, "    \"" + m.key + "\": {\n", m);
    sections := before + [m];
  }

  method EndLastSection(sb: SB, ghost outer: string, ghost before: seq<Member>, ghost m: Member, ghost base: string)
    returns (ghost sections: seq<Member>)
    requires m.value.Object? && Written(sb, base, m.value.members)
    requires base == outer + OpenedText(before) + ("    \"" + m.key + "\": {\n")
    modifies sb.Repr
    ensures sections == before + [m] && sb.Valid() && fresh(sb.Repr - old(sb.Repr))
    ensures sb.Contents() == outer + MembersText(INNER, sections) + "\n"
  {
    hide MembersText, OpenedText;
    End(sb, "\n    }\n", base, m.value.members);
    var opening := "    \"" + m.key + "\": {\n";
    LastSectionAdded(before, opening, m);
    assert sb.Contents() == outer + (OpenedText(before) + Block(opening, m.value.members, "\n    }\n"));
    sections := before + [m];
  }

  method WriteCpuSingle(sb: SB, r: CpuSingleResult, ghost outer: string, ghost before: seq<Member>)
    returns (ghost sections: seq<Member>)
    requires Opened(sb, outer, before)
    modifies sb.Repr
    ensures Opened(sb, outer, sections) && fresh(sb.Repr - old(sb.Repr))
    ensures sections == before + [Member("cpu_single", Object(CpuSingleMembers(r)))]
  {
    hide Written, Opened, MembersText, SB.Valid, SB.Contents, Chars, Double, Integer, Flag;
    ghost var base := BeginSection(sb, "    \"cpu_single\": {\n", outer, before);
    ghost var ms := [];
    ms := DblComma(sb, "dependent_chain_ips", r.depChainIps, base, ms);
    ms := DblComma(sb, "independent_throughput_ips", r.indepThroughputIps, base, ms);
    ms := DblComma(sb, "memory_bound_ips", r.memoryBoundIps, base, ms);
    ms := JsonDbl(sb, "duration_sec", r.durationSec, base, ms);
    assert ms == CpuSingleMembers(r);
    sections := EndSection(sb, outer, before, Member("cpu_single", Object(ms)), base);
  }

  method WriteCpuMultiRates(sb: SB, r: CpuMultiResult, ghost base: string, ghost before: seq<Member>)
    returns (ghost ms: seq<Member>)
    requires Opened(sb, base, before)
    modifies sb.Repr
    ensures Opened(sb, base, ms) && fresh(sb.Repr - old(sb.Repr))
    ensures ms == before + CpuMultiMembers(r)[..5]
  {
    hide Written, Opened, MembersText, SB.Valid, SB.Contents, Chars, Double, Integer, Flag;
    ms := before;
    ms := DblComma(sb, "dependent_chain_ips", r.depChainIps, base, ms);
    ms := DblComma(sb, "independent_throughput_ips", r.indepThroughputIps, base, ms);
    ms := DblComma(sb, "memory_bound_ips", r.memoryBoundIps, base, ms);
    ms := DblComma(sb, "dep_scaling", r.depScaling, base, ms);
    ms := DblComma(sb, "thr_scaling", r.thrScaling, base, ms);
  }

  method WriteCpuMultiScaling(sb: SB, r: CpuMultiResult, ghost base: string, ghost before: seq<Member>)
    returns (ghost ms: seq<Member>)
    requires Opened(sb, base, before)
    modifies sb.Repr
    ensures Written(sb, base, ms) && fresh(sb.Repr - old(sb.Repr))
    ensures ms == before + CpuMultiMembers(r)[5..]
  {
    hide Written, Opened, MembersText, SB.Valid, SB.Contents, Chars, Double, Integer, Flag;
    ms := before;
    ms := DblComma(sb, "mem_scaling", r.memScaling, base, ms);
    ms := DblComma(sb, "thr_efficiency_percent", r.thrEfficiencyPercent, base, ms);
    ms := DblComma(sb, "duration_sec", r.durationSec, base, ms);
    ms := JsonInt(sb, "threads_used", r.threadsUsed, base, ms);
  }

  method WriteCpuMulti(sb: SB, r: CpuMultiResult, ghost outer: string, ghost before: seq<Member>)
    returns (ghost sections: seq<Member>)
    requires Opened(sb, outer, before)
    modifies sb.Repr
    ensures Opened(sb, outer, sections) && fresh(sb.Repr - old(sb.Repr))
    ensures sections == before + [Member("cpu_multi", Object(CpuMultiMembers(r)))]
  {
    hide Written, Opened, MembersText, SB.Valid, SB.Contents, Chars, Double, Integer, Flag;
    ghost var base := BeginSection(sb, "    \"cpu_multi\": {\n", outer, before);
    ghost var ms := [];
    ms := WriteCpuMultiRates(sb, r, base, ms);
    ms := WriteCpuMultiScaling(sb, r, base, ms);
    assert ms == CpuMultiMembers(r);
    sections := EndSection(sb, outer, before, Member("cpu_multi", Object(ms)), base);
  }

  method WriteMemory(sb: SB, r: MemoryResult, ghost outer: string, ghost before: seq<Member>)
    returns (ghost sections: seq<Member>)
    requires Opened(sb, outer, before)
    modifies sb.Repr
    ensures Opened(sb, outer, sections) && fresh(sb.Repr - old(sb.Repr))
    ensures sections == before + [Member("memory", Object(MemoryMembers(r)))]
  {
    hide Written, Opened, MembersText, SB.Valid, SB.Contents, Chars, Double, Integer, Flag;
    ghost var base := BeginSection(sb, "    \"memory\": {\n", outer, before);
    ghost var ms := [];
    ms := DblComma(sb, "sequential_write_gbps", r.sequentialWriteGbps, base, ms);
    ms := DblComma(sb, "sequential_read_gbps", r.sequentialReadGbps, base, ms);
    ms := DblComma(sb, "memcpy_gbps", r.memcpyGbps, base, ms);
    ms := DblComma(sb, "latency_ns", r.latencyNs, base, ms);
    ms := JsonInt(sb, "buffer_size_mb", r.bufferSizeMb, base, ms);
    assert ms == MemoryMembers(r);
    sections := EndSection(sb, outer, before, Member("memory", Object(ms)), base);
  }

  /** Random access on a file system in memory says nothing about a disk and is written as null. */
  method WriteRandomAccess(sb: SB, r: StorageResult, ghost base: string, ghost before: seq<Member>)
    returns (ghost ms: seq<Member>)
    requires Opened(sb, base, before) && !r.skipped
    modifies sb.Repr
    ensures Opened(sb, base, ms) && fresh(sb.Repr - old(sb.Repr))
    ensures ms == before + StorageMembers(r)[2..4]
  {
    hide Written, Opened, MembersText, SB.Valid, SB.Contents, Chars, Double, Integer, Flag;
    ms := before;
    if r.isTmpfs {
      ms := NullComma(sb, "random_4k_write_iops", base, ms);
      ms := NullComma(sb, "random_4k_read_iops", base, ms);
    } else {
      ms := DblComma(sb, "random_4k_write_iops", r.random4kWriteIops, base, ms);
      ms := DblComma(sb, "random_4k_read_iops", r.random4kReadIops, base, ms);
    }
  }

  method WriteStorageFigures(sb: SB, r: StorageResult, ghost base: string) returns (ghost ms: seq<Member>)
    requires Opened(sb, base, []) && !r.skipped
    modifies sb.Repr
    ensures Written(sb, base, ms) && fresh(sb.Repr - old(sb.Repr))
    ensures ms == StorageMembers(r)
  {
    hide Written, Opened, MembersText, SB.Valid, SB.Contents, Chars, Double, Integer, Flag;
    ms := [];
    ms := DblComma(sb, "sequential_write_mbps", r.sequentialWriteMbps, base, ms);
    ms := DblComma(sb, "sequential_read_mbps", r.sequentialReadMbps, base, ms);
    ms := WriteRandomAccess(sb, r, base, ms);
    ms := DblComma(sb, "file_create_per_sec", r.fileCreatePerSec, base, ms);
    ms := StrComma(sb, "storage_path", r.storagePath, base, ms);
    ms := JsonBool(sb, "is_tmpfs", r.isTmpfs, base, ms);
    assert ms == StorageMembers(r);
  }

  method WriteStorage(sb: SB, r: StorageResult, ghost outer: string, ghost before: seq<Member>)
    returns (ghost sections: seq<Member>)
    requires Opened(sb, outer, before)
    modifies sb.Repr
    ensures Opened(sb, outer, sections) && fresh(sb.Repr - old(sb.Repr))
    ensures sections == before + [Member("storage", Object(StorageMembers(r)))]
  {
    hide Written, Opened, MembersText, SB.Valid, SB.Contents, Chars, Double, Integer, Flag;
    ghost var base := BeginSection(sb, "    \"storage\": {\n", outer, before);
    ghost var ms := [];
    if r.skipped {
      ms := JsonBool(sb, "skipped", true, base, ms);
    } else {
      ms := WriteStorageFigures(sb, r, base);
    }
    assert ms == StorageMembers(r);
    sections := EndSection(sb, outer, before, Member("storage", Object(ms)), base);
  }

  method WriteCompression(sb: SB, r: CompressionResult, ghost outer: string, ghost before: seq<Member>)
    returns (ghost sections: seq<Member>)
    requires Opened(sb, outer, before)
    modifies sb.Repr
    ensures Opened(sb, outer, sections) && fresh(sb.Repr - old(sb.Repr))
    ensures sections == before + [Member("compression", Object(CompressionMembers(r)))]
  {
    hide Written, Opened, MembersText, SB.Valid, SB.Contents, Chars, Double, Integer, Flag;
    ghost var base := BeginSection(sb, "    \"compression\": {\n", outer, before);
    ghost var ms := [];
    if r.skipped {
      ms := JsonBool(sb, "skipped", true, base, ms);
      assert ms == CompressionMembers(r);
    } else {
      ms := DblComma(sb, "compress_mbps", r.compressMbps, base, ms);
      ms := DblComma(sb, "decompress_mbps", r.decompressMbps, base, ms);
      ms := DblComma(sb, "compression_ratio", r.compressionRatio, base, ms);
      ms := JsonDbl(sb, "input_size_mb", r.inputSizeMb, base, ms);
      assert ms == CompressionMembers(r);
    }
    sections := EndSection(sb, outer, before, Member("compression", Object(ms)), base);
  }

  method WriteHashing(sb: SB, r: HashingResult, ghost outer: string, ghost before: seq<Member>)
    returns (ghost sections: seq<Member>)
    requires Opened(sb, outer, before)
    modifies sb.Repr
    ensures Opened(sb, outer, sections) && fresh(sb.Repr - old(sb.Repr))
    ensures sections == before + [Member("hashing", Object(HashingMembers(r)))]
  {
    hide Written, Opened, MembersText, SB.Valid, SB.Contents, Chars, Double, Integer, Flag;
    ghost var base := BeginSection(sb, "    \"hashing\": {\n", outer, before);
    ghost var ms := [];
    ms := DblComma(sb, "hashes_per_sec", r.hashesPerSec, base, ms);
    ms := JsonDbl(sb, "throughput_mbps", r.throughputMbps, base, ms);
    assert ms == HashingMembers(r);
    sections := EndSection(sb, outer, before, Member("hashing", Object(ms)), base);
  }

  method WriteFloat(sb: SB, r: FloatResult, ghost outer: string, ghost before: seq<Member>)
    returns (ghost sections: seq<Member>)
    requires Opened(sb, outer, before)
    modifies sb.Repr
    ensures Opened(sb, outer, sections) && fresh(sb.Repr - old(sb.Repr))
    ensures sections == before + [Member("floating_point", Object(FloatMembers(r)))]
  {
    hide Written, Opened, MembersText, SB.Valid, SB.Contents, Chars, Double, Integer, Flag;
    ghost var base := BeginSection(sb, "    \"floating_point\": {\n", outer, before);
    ghost var ms := [];
    ms := DblComma(sb, "flop_estimate_per_sec", r.flopEstimatePerSec, base, ms);
    ms := DblComma(sb, "iterations_per_sec", r.iterationsPerSec, base, ms);
    ms := JsonDbl(sb, "duration_sec", r.durationSec, base, ms);
    assert ms == FloatMembers(r);
    sections := EndSection(sb, outer, before, Member("floating_point", Object(ms)), base);
  }

  method WriteThread(sb: SB, r: ThreadBenchResult, ghost outer: string, ghost before: seq<Member>)
    returns (ghost sections: seq<Member>)
    requires Opened(sb, outer, before)
    modifies sb.Repr
    ensures Opened(sb, outer, sections) && fresh(sb.Repr - old(sb.Repr))
    ensures sections == before + [Member("thread_bench", Object(ThreadMembers(r)))]
  {
    hide Written, Opened, MembersText, SB.Valid, SB.Contents, Chars, Double, Integer, Flag;
    ghost var base := BeginSection(sb, "    \"thread_bench\": {\n", outer, before);
    ghost var ms := [];
    ms := DblComma(sb, "thread_create_latency_us", r.threadCreateLatencyUs, base, ms);
    ms := DblComma(sb, "mutex_ops_per_sec", r.mutexOpsPerSec, base, ms);
    ms := JsonDbl(sb, "condvar_msgs_per_sec", r.condvarMsgsPerSec, base, ms);
    assert ms == ThreadMembers(r);
    sections := EndSection(sb, outer, before, Member("thread_bench", Object(ms)), base);
  }

  method WriteFsMeta(sb: SB, r: FsMetaResult, ghost outer: string, ghost before: seq<Member>)
    returns (ghost sections: seq<Member>)
    requires Opened(sb, outer, before)
    modifies sb.Repr
    ensures Opened(sb, outer, sections) && fresh(sb.Repr - old(sb.Repr))
    ensures sections == before + [Member("fs_metadata", Object(FsMetaMembers(r)))]
  {
    hide Written, Opened, MembersText, SB.Valid, SB.Contents, Chars, Double, Integer, Flag;
    ghost var base := BeginSection(sb, "    \"fs_metadata\": {\n", outer, before);
    ghost var ms := [];
    ms := DblComma(sb, "create_per_sec", r.createPerSec, base, ms);
    ms := DblComma(sb, "stat_per_sec", r.statPerSec, base, ms);
    ms := JsonDbl(sb, "delete_per_sec", r.deletePerSec, base, ms);
    assert ms == FsMetaMembers(r);
    sections := EndSection(sb, outer, before, Member("fs_metadata", Object(ms)), base);
  }

  method WritePython(sb: SB, r: PythonResult, ghost outer: string, ghost before: seq<Member>)
    returns (ghost sections: seq<Member>)
    requires Opened(sb, outer, before)
    modifies sb.Repr
    ensures sb.Valid() && sb.Contents() == outer + MembersText(INNER, sections) + "\n"
    ensures fresh(sb.Repr - old(sb.Repr))
    ensures sections == before + [Member("python", Object(PythonMembers(r)))]
  {
    hide Written, Opened, MembersText, SB.Valid, SB.Contents, Chars, Double, Integer, Flag;
    ghost var base := BeginSection(sb, "    \"python\": {\n", outer, before);
    ghost var ms := [];
    if r.skipped {
      ms := JsonBool(sb, "skipped", true, base, ms);
      assert ms == PythonMembers(r);
    } else {
      ms := StrComma(sb, "python_version", r.pythonVersion, base, ms);
      ms := DblComma(sb, "startup_time_ms", r.startupTimeMs, base, ms);
      ms := DblComma(sb, "single_core_iterations_per_sec", r.singleCoreIps, base, ms);
      ms := DblComma(sb, "multi_core_iterations_per_sec", r.multiCoreIps, base, ms);
      ms := JsonDbl(sb, "multi_core_scaling_factor", r.multiCoreScaling, base, ms);
      assert ms == PythonMembers(r);
    }
    sections := EndLastSection(sb, outer, before, Member("python", Object(ms)), base);
  }

  method WriteFirstResults(sb: SB, r: Report, ghost outer: string) returns (ghost sections: seq<Member>)
    requires Opened(sb, outer, [])
    modifies sb.Repr
    ensures Opened(sb, outer, sections) && fresh(sb.Repr - old(sb.Repr))
    ensures sections == ResultMembers(r)[..3]
  {
    hide Opened, MembersText, SB.Valid, SB.Contents;
    sections := [];
    sections := WriteCpuSingle(sb, r.cs, outer, sections);
    sections := WriteCpuMulti(sb, r.cm, outer, sections);
    sections := WriteMemory(sb, r.mem, outer, sections);
    assert sections == ResultMembers(r)[..3];
  }

  method WriteMiddleResults(sb: SB, r: Report, ghost outer: string, ghost before: seq<Member>)
    returns (ghost sections: seq<Member>)
    requires Opened(sb, outer, before) && before == ResultMembers(r)[..3]
    modifies sb.Repr
    ensures Opened(sb, outer, sections) && fresh(sb.Repr - old(sb.Repr))
    ensures sections == ResultMembers(r)[..6]
  {
    hide Opened, MembersText, SB.Valid, SB.Contents;
    sections := before;
    sections := WriteStorage(sb, r.stor, outer, sections);
    sections := WriteCompression(sb, r.comp, outer, sections);
    sections := WriteHashing(sb, r.hash, outer, sections);
    assert sections == ResultMembers(r)[..6];
  }

  /** The results, after the line that opens them. */
  method WriteResults(sb: SB, r: Report, ghost outer: string)
    requires Opened(sb, outer, [])
    modifies sb.Repr
    ensures sb.Valid() && fresh(sb.Repr - old(sb.Repr))
    ensures sb.Contents() == outer + MembersText(INNER, ResultMembers(r)) + "\n"
  {
    hide Opened, MembersText, SB.Valid, SB.Contents;
    ghost var sections := WriteFirstResults(sb, r, outer);
    sections := WriteMiddleResults(sb, r, outer, sections);
    sections := WriteFloat(sb, r.fp, outer, sections);
    sections := WriteThread(sb, r.thr, outer, sections);
    sections := WriteFsMeta(sb, r.fsmeta, outer, sections);
    sections := WritePython(sb, r.py, outer, sections);
    assert sections == ResultMembers(r);
  }

  // ---- The document ----

  /** A member of the document that is an object, as the pieces spell it. */
  lemma OuterMember(opening: string, m: Member)
    requires m.value.Object? && opening == "  \"" + m.key + "\": {\n"
    ensures MemberText("  ", m) == opening + MembersText(INNER, m.value.members) + "\n  }"
    ensures MemberText("  ", m) + ",\n" == Block(opening, m.value.members, "\n  },\n")
    ensures MemberText("  ", m) + "\n}\n" == opening + MembersText(INNER, m.value.members) + "\n" + "  }\n}\n"
  {
    hide MembersText;
    assert "  " + "\"" == "  \"" && ": " + "{\n" == ": {\n";
    assert "\n" + "  " + "}" == "\n  }";
    assert "\n  }" + ",\n" == "\n  },\n" && "\n  }" + "\n}\n" == "\n" + "  }\n}\n";
  }

  lemma ThreeMembers(a: Member, b: Member, c: Member)
    ensures MembersText("  ", [a, b, c])
         == MemberText("  ", a) + ",\n" + (MemberText("  ", b) + ",\n" + MemberText("  ", c))
  {
    hide MemberText;
    assert [a, b, c][1..] == [b, c] && [b, c][1..] == [c];
    assert MembersText("  ", [b, c]) == MemberText("  ", b) + ",\n" + MembersText("  ", [c]);
  }

  lemma Regroup(open: string, a: string, b: string, c: string, comma: string, close: string,
                w: string, x: string, y: string, z: string)
    requires c + close == w + x + y + z
    ensures open + (a + comma + (b + comma + c)) + close == open + (a + comma) + (b + comma) + w + x + y + z
  {
    assert open + (a + comma + (b + comma + c)) + close == open + (a + comma) + (b + comma) + (c + close);
  }

  /** The pieces of the document put together. */
  lemma DocumentPieces(a: Member, b: Member, c: Member)
    requires a.value.Object? && b.value.Object? && c.value.Object?
    requires a.key == "meta" && b.key == "system" && c.key == "results"
    ensures DocumentText([a, b, c])
         == "{\n" + Block("  \"meta\": {\n", a.value.members, "\n  },\n")
            + Block("  \"system\": {\n", b.value.members, "\n  },\n")
            + "  \"results\": {\n" + MembersText(INNER, c.value.members) + "\n" + "  }\n}\n"
  {
    hide MembersText, MemberText, Block;
    ThreeMembers(a, b, c);
    OuterMember("  \"meta\": {\n", a);
    OuterMember("  \"system\": {\n", b);
    OuterMember("  \"results\": {\n", c);
    Regroup("{\n", MemberText("  ", a), MemberText("  ", b), MemberText("  ", c), ",\n", "\n}\n",
            "  \"results\": {\n", MembersText(INNER, c.value.members), "\n", "  }\n}\n");
  }

  /** All the pieces, in the order in which they are appended. */
  method WriteDocument(sb: SB, r: Report)
    requires sb.Valid() && sb.Contents() == ""
    modifies sb.Repr
    ensures sb.Valid() && fresh(sb.Repr - old(sb.Repr))
    ensures sb.Contents() ==
      "{\n" + Block("  \"meta\": {\n", MetaMembers(r.durationSec, r.sys), "\n  },\n")
      + Block("  \"system\": {\n", SystemMembers(r.sys), "\n  },\n")
      + "  \"results\": {\n" + MembersText(INNER, ResultMembers(r)) + "\n" + "  }\n}\n"
  {
    hide MembersText, Block, SB.Valid, SB.Contents, Opened, MetaMembers, SystemMembers, ResultMembers;
    sb.Append("{\n");
    WriteMeta(sb, r.durationSec, r.sys);
    WriteSystem(sb, r.sys);
    ghost var outer := Begin(sb, "  \"results\": {\n");
    WriteResults(sb, r, outer);
    sb.Append("  }\n}\n");
  }

  /** `write_json` up to the writing of the file: the text is the layout of the report. */
  method WriteJson(r: Report) returns (text: string)
    ensures text == DocumentText(ReportMembers(r))
  {
    hide MembersText, Block, SB.Valid, SB.Contents, DocumentText, MetaMembers, SystemMembers, ResultMembers;
    var sb := new SB(8192);
    WriteDocument(sb, r);
    text := sb.Text();
    ghost var ms := ReportMembers(r);
    DocumentPieces(ms[0], ms[1], ms[2]);
    assert ms == [ms[0], ms[1], ms[2]];
  }
}
