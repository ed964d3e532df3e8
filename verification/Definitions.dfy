/** The code tables of the housekeeping rules: names printed and codes parsed, context by context. */
module Definitions {

  // PAIO_GENERAL

  function ParseGeneral(s: string): int {
    if s == "foreground" then 1
    else if s == "background" then 2
    else if s == "high_priority" then 3
    else if s == "low_priority" then 4
    else 0
  }

  function PrintGeneral(code: int): string {
    if code == 1 then "foreground"
    else if code == 2 then "background"
    else if code == 3 then "high_priority"
    else if code == 4 then "low_priority"
    else "no_op"
  }

  lemma GeneralCodes(code: int)
    ensures ParseGeneral(PrintGeneral(code)) == if code in {0, 1, 2, 3, 4} then code else 0
  {
  }

  // POSIX

  /** The labels of the switch are distinct; the names that are also printed come first here. */
  function ParsePosix(s: string): int {
    if s == "read" then 1
    else if s == "write" then 2
    else if s == "pread" then 3
    else if s == "pwrite" then 4
    else if s == "pread64" then 5
    else if s == "pwrite64" then 6
    else if s == "open" then 9
    else if s == "close" then 14
    else if s == "getxattr" then 72
    else if s == "rename" then 39
    else if s == "setxattr" then 75
    else if s == "mkdir" then 63
    else if s == "rmdir" then 70
    else if s == "statfs" then 31
    else if s == "sync" then 17
    else if s == "unlink" then 37
    else if s == "data" then 95
    else if s == "metadata" then 96
    else if s == "total" then 97
    else ParseUnprintedPosix(s)
  }

  function ParseUnprintedPosix(s: string): int {
    if s == "fread" then 7
    else if s == "fwrite" then 8
    else if s == "open64" then 10
    else if s == "creat" then 11
    else if s == "creat64" then 12
    else if s == "openat" then 13
    else if s == "fsync" then 15
    else if s == "fdatasync" then 16
    else if s == "syncfs" then 18
    else if s == "truncate" then 19
    else if s == "ftruncate" then 21
    else if s == "truncate64" then 20
    else if s == "ftruncate64" then 22
    else if s == "xstat" then 23
    else if s == "lxstat" then 25
    else if s == "fxstat" then 27
    else if s == "xstat64" then 24
    else if s == "lxstat64" then 26
    else if s == "fxstat64" then 28
    else if s == "fxstatat" then 29
    else if s == "fxstatat64" then 30
    else if s == "fstatfs" then 33
    else if s == "statfs64" then 32
    else if s == "fstatfs64" then 34
    else if s == "link" then 35
    else if s == "linkat" then 36
    else if s == "unlinkat" then 38
    else if s == "renameat" then 40
    else if s == "symlink" then 41
    else if s == "symlinkat" then 42
    else if s == "readlink" then 43
    else if s == "readlinkat" then 44
    else if s == "fopen" then 45
    else if s == "fopen64" then 46
    else if s == "freopen" then 48
    else if s == "freopen64" then 49
    else if s == "fclose" then 50
    else if s == "fflush" then 51
    else if s == "access" then 52
    else if s == "faccessat" then 53
    else if s == "lseek" then 54
    else if s == "lseek64" then 55
    else if s == "fseek" then 56
    else if s == "fseek64" then 57
    else if s == "ftell" then 58
    else if s == "fseeko" then 59
    else if s == "fseeko64" then 60
    else if s == "ftello" then 61
    else if s == "ftello64" then 62
    else if s == "mkdirat" then 64
    else if s == "opendir" then 67
    else if s == "readdir" then 65
    else if s == "readdir64" then 66
    else if s == "fdopendir" then 68
    else if s == "closedir" then 69
    else if s == "dirfd" then 71
    else if s == "lgetxattr" then 73
    else if s == "fgetxattr" then 74
    else if s == "lsetxattr" then 76
    else if s == "fsetxattr" then 77
    else if s == "removexattr" then 81
    else if s == "lremovexattr" then 82
    else if s == "fremovexattr" then 83
    else if s == "listxattr" then 78
    else if s == "llistxattr" then 79
    else if s == "flistxattr" then 80
    else if s == "chmod" then 84
    else if s == "fchmod" then 85
    else if s == "fchmodat" then 86
    else if s == "chown" then 87
    else if s == "fchown" then 89
    else if s == "fchownat" then 90
    else if s == "lchown" then 88
    else 0
  }

  function PrintPosix(code: int): string {
    if code == 1 then "read"
    else if code == 2 then "write"
    else if code == 3 then "pread"
    else if code == 4 then "pwrite"
    else if code == 5 then "pread64"
    else if code == 6 then "pwrite64"
    else if code == 9 then "open"
    else if code == 14 then "close"
    else if code == 72 then "getxattr"
    else if code == 39 then "rename"
    else if code == 75 then "setxattr"
    else if code == 63 then "mkdir"
    else if code == 91 then "mknod"
    else if code == 70 then "rmdir"
    else if code == 31 then "statfs"
    else if code == 17 then "sync"
    else if code == 37 then "unlink"
    else if code == 95 then "data"
    else if code == 96 then "metadata"
    else if code == 97 then "total"
    else "no_op"
  }

  lemma PosixCodes1(code: int)
    requires code in {1, 2, 3, 4, 5, 6, 9}
    ensures ParsePosix(PrintPosix(code)) == code
  {
  }

  lemma PosixCodes2(code: int)
    requires code in {14, 72, 39}
    ensures ParsePosix(PrintPosix(code)) == code
  {
  }

  lemma PosixCodes3(code: int)
    requires code in {75, 63, 70}
    ensures ParsePosix(PrintPosix(code)) == code
  {
  }

  lemma PosixCodes4(code: int)
    requires code in {31, 17, 37}
    ensures ParsePosix(PrintPosix(code)) == code
  {
  }

  lemma PosixCodes5(code: int)
    requires code in {95, 96}
    ensures ParsePosix(PrintPosix(code)) == code
  {
  }

  lemma PosixCodes6()
    ensures ParsePosix(PrintPosix(97)) == 97
  {
  }

  lemma PosixRest(code: int)
    requires code !in {1, 2, 3, 4, 5, 6, 9, 14, 72, 39, 75, 63, 70, 31, 17, 37, 95, 96, 97}
    ensures ParsePosix(PrintPosix(code)) == 0
  {
    assert PrintPosix(code) == if code == 91 then "mknod" else "no_op";
    UnknownNoOp();
    UnknownMknod();
  }

  lemma UnknownNoOp()
    ensures ParsePosix("no_op") == 0
  {
  }

  lemma UnknownMknod()
    ensures ParsePosix("mknod") == 0
  {
  }

  lemma PosixCodes(code: int)
    ensures ParsePosix(PrintPosix(code)) == if code in {0, 1, 2, 3, 4, 5, 6, 9, 14, 17, 31, 37, 39, 63, 70, 72, 75, 95, 96, 97} then code else 0
  {
    if code in {1, 2, 3, 4, 5, 6, 9} {
      PosixCodes1(code);
    } else if code in {14, 72, 39} {
      PosixCodes2(code);
    } else if code in {75, 63, 70} {
      PosixCodes3(code);
    } else if code in {31, 17, 37} {
      PosixCodes4(code);
    } else if code in {95, 96} {
      PosixCodes5(code);
    } else if code == 97 {
      PosixCodes6();
    } else {
      PosixRest(code);
    }
  }

  // POSIX_META

  function ParsePosixMeta(s: string): int {
    if s == "foreground" then 1
    else if s == "background" then 2
    else if s == "high_priority" then 3
    else if s == "med_priority" then 4
    else if s == "low_priority" then 5
    else if s == "data_op" then 6
    else if s == "meta_op" then 7
    else if s == "dir_op" then 8
    else if s == "ext_attr_op" then 9
    else if s == "file_mod_op" then 10
    else 0
  }

  function PrintPosixMeta(code: int): string {
    if code == 1 then "foreground"
    else if code == 2 then "background"
    else if code == 3 then "high_priority"
    else if code == 4 then "med_priority"
    else if code == 5 then "low_priority"
    else if code == 6 then "data_op"
    else if code == 7 then "meta_op"
    else if code == 8 then "dir_op"
    else if code == 9 then "ext_attr_op"
    else if code == 10 then "file_mod_op"
    else "no_op"
  }

  lemma PosixMetaCodes(code: int)
    ensures ParsePosixMeta(PrintPosixMeta(code)) == if code in {0, 1, 2, 3, 4, 5, 6, 7, 8, 9, 10} then code else 0
  {
  }

  // LSM_KVS_SIMPLE

  function ParseLsmSimple(s: string): int {
    if s == "bg_flush" then 1
    else if s == "bg_compaction_high_priority" then 2
    else if s == "bg_compaction_low_priority" then 3
    else if s == "foreground" then 4
    else 0
  }

  function PrintLsmSimple(code: int): string {
    if code == 1 then "bg_flush"
    else if code == 2 then "bg_compaction_high_priority"
    else if code == 3 then "bg_compaction_low_priority"
    else if code == 4 then "foreground"
    else "no_op"
  }

  lemma LsmSimpleCodes(code: int)
    ensures ParseLsmSimple(PrintLsmSimple(code)) == if code in {0, 1, 2, 3, 4} then code else 0
  {
  }

  // LSM_KVS_DETAILED

  function ParseLsmDetailed(s: string): int {
    if s == "bg_flush" then 1
    else if s == "bg_compaction" then 2
    else if s == "bg_compaction_L0_L0" then 3
    else if s == "bg_compaction_L0_L1" then 4
    else if s == "bg_compaction_L1_L2" then 5
    else if s == "bg_compaction_L2_L3" then 6
    else if s == "bg_compaction_LN" then 7
    else if s == "foreground" then 8
    else 0
  }

  function PrintLsmDetailed(code: int): string {
    if code == 1 then "bg_flush"
    else if code == 2 then "bg_compaction"
    else if code == 3 then "bg_compaction_L0_L0"
    else if code == 4 then "bg_compaction_L0_L1"
    else if code == 5 then "bg_compaction_L1_L2"
    else if code == 6 then "bg_compaction_L2_L3"
    else if code == 7 then "bg_compaction_LN"
    else if code == 8 then "foreground"
    else "no_op"
  }

  lemma LsmDetailedCodes(code: int)
    ensures ParseLsmDetailed(PrintLsmDetailed(code)) == if code in {0, 1, 2, 3, 4, 5, 6, 7, 8} then code else 0
  {
  }

  // KVS

  function ParseKvs(s: string): int {
    if s == "put" then 1
    else if s == "get" then 2
    else if s == "new_iterator" then 3
    else if s == "delete" then 4
    else if s == "write" then 5
    else if s == "get_snapshot" then 6
    else if s == "get_property" then 7
    else if s == "get_approximate_size" then 8
    else if s == "compact_range" then 9
    else 0
  }

  function PrintKvs(code: int): string {
    if code == 1 then "put"
    else if code == 2 then "get"
    else if code == 3 then "new_iterator"
    else if code == 4 then "delete_"
    else if code == 5 then "write"
    else if code == 6 then "get_snapshot"
    else if code == 7 then "get_property"
    else if code == 8 then "get_approximate_size"
    else if code == 9 then "compact_range"
    else "no_op"
  }

  lemma KvsCodes(code: int)
    ensures ParseKvs(PrintKvs(code)) == if code in {0, 1, 2, 3, 5, 6, 7, 8, 9} then code else 0
  {
  }

  // Contexts

  predicate ValidContext(context: int) {
    0 <= context <= 5
  }

  function PrintContext(context: int): string {
    if context == 0 then "general"
    else if context == 1 then "posix"
    else if context == 2 then "posix_meta"
    else if context == 3 then "lsm_kvs_simple"
    else if context == 4 then "lsm_kvs_detailed"
    else if context == 5 then "kvs"
    else "noop"
  }

  function ParseContext(s: string): int {
    if s == "general" then 0
    else if s == "posix" then 1
    else if s == "posix_meta" then 2
    else if s == "lsm_kvs_simple" then 3
    else if s == "lsm_kvs_detailed" then 4
    else if s == "kvs" then 5
    else -1
  }

  lemma ContextRoundTrip(context: int)
    requires ValidContext(context)
    ensures ParseContext(PrintContext(context)) == context
  {
  }

  /** Name of a code of a context; empty for an unknown context. */
  function PrintDefinition(context: int, code: int): string {
    if context == 0 then PrintGeneral(code)
    else if context == 1 then PrintPosix(code)
    else if context == 2 then PrintPosixMeta(code)
    else if context == 3 then PrintLsmSimple(code)
    else if context == 4 then PrintLsmDetailed(code)
    else if context == 5 then PrintKvs(code)
    else ""
  }

  function ParseDefinition(context: string, definition: string): int {
    if context == "general" then ParseGeneral(definition)
    else if context == "posix" then ParsePosix(definition)
    else if context == "posix_meta" then ParsePosixMeta(definition)
    else if context == "lsm_kvs_simple" then ParseLsmSimple(definition)
    else if context == "lsm_kvs_detailed" then ParseLsmDetailed(definition)
    else if context == "kvs" then ParseKvs(definition)
    else -1
  }

  /** Codes whose printed name is parsed back to them. */
  predicate Invertible(context: int, code: int) {
    (context == 0 && code in {0, 1, 2, 3, 4})
    || (context == 1 && code in {0, 1, 2, 3, 4, 5, 6, 9, 14, 17, 31, 37, 39, 63, 70, 72, 75, 95, 96, 97})
    || (context == 2 && code in {0, 1, 2, 3, 4, 5, 6, 7, 8, 9, 10})
    || (context == 3 && code in {0, 1, 2, 3, 4})
    || (context == 4 && code in {0, 1, 2, 3, 4, 5, 6, 7, 8})
    || (context == 5 && code in {0, 1, 2, 3, 5, 6, 7, 8, 9})
  }

  /** What is left of a code after printing and parsing: codes without an inverse become no_op. */
  function Canonical(context: int, code: int): int {
    if Invertible(context, code) then code else 0
  }

  lemma DefinitionRoundTrip(context: int, code: int)
    requires ValidContext(context)
    ensures ParseDefinition(PrintContext(context), PrintDefinition(context, code)) == Canonical(context, code)
  {
    if context == 0 {
      GeneralCodes(code);
      ParseInGeneral(PrintDefinition(context, code));
    } else if context == 1 {
      PosixCodes(code);
      ParseInPosix(PrintDefinition(context, code));
    } else if context == 2 {
      PosixMetaCodes(code);
      ParseInPosixMeta(PrintDefinition(context, code));
    } else if context == 3 {
      LsmSimpleCodes(code);
      ParseInLsmSimple(PrintDefinition(context, code));
    } else if context == 4 {
      LsmDetailedCodes(code);
      ParseInLsmDetailed(PrintDefinition(context, code));
    } else if context == 5 {
      KvsCodes(code);
      ParseInKvs(PrintDefinition(context, code));
    }
  }

  lemma ParseInGeneral(definition: string)
    ensures ParseDefinition(PrintContext(0), definition) == ParseGeneral(definition)
  {
  }

  lemma ParseInPosix(definition: string)
    ensures ParseDefinition(PrintContext(1), definition) == ParsePosix(definition)
  {
  }

  lemma ParseInPosixMeta(definition: string)
    ensures ParseDefinition(PrintContext(2), definition) == ParsePosixMeta(definition)
  {
  }

  lemma ParseInLsmSimple(definition: string)
    ensures ParseDefinition(PrintContext(3), definition) == ParseLsmSimple(definition)
  {
  }

  lemma ParseInLsmDetailed(definition: string)
    ensures ParseDefinition(PrintContext(4), definition) == ParseLsmDetailed(definition)
  {
  }

  lemma ParseInKvs(definition: string)
    ensures ParseDefinition(PrintContext(5), definition) == ParseKvs(definition)
  {
  }

  /** Printed names carry none of the delimiters of the wire format. */
  predicate Plain(name: string) {
    name != "" && ':' !in name && '|' !in name
  }

  lemma PlainGeneral(code: int)
    ensures Plain(PrintGeneral(code))
  {
  }

  lemma PlainPosix(code: int)
    ensures Plain(PrintPosix(code))
  {
  }

  lemma PlainPosixMeta(code: int)
    ensures Plain(PrintPosixMeta(code))
  {
  }

  lemma PlainLsmSimple(code: int)
    ensures Plain(PrintLsmSimple(code))
  {
    assert Plain("bg_flush") && Plain("foreground") && Plain("no_op");
    assert Plain("bg_compaction_high_priority");
    assert Plain("bg_compaction_low_priority");
    hide Plain;
  }

  lemma PlainLsmDetailed(code: int)
    ensures Plain(PrintLsmDetailed(code))
  {
  }

  lemma PlainKvs(code: int)
    ensures Plain(PrintKvs(code))
  {
  }

  lemma PrintedNames(context: int, code: int)
    requires ValidContext(context)
    ensures Plain(PrintContext(context)) && Plain(PrintDefinition(context, code))
  {
    if context == 0 {
      PlainGeneral(code);
    } else if context == 1 {
      PlainPosix(code);
    } else if context == 2 {
      PlainPosixMeta(code);
    } else if context == 3 {
      PlainLsmSimple(code);
    } else if context == 4 {
      PlainLsmDetailed(code);
    } else if context == 5 {
      PlainKvs(code);
    }
  }
}
