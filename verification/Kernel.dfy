/** Error numbers and limits shared by every part of the model (aegis/aegis.h, errno.h). */
module Kernel {

  datatype Option<+T> = None | Some(value: T)

  const EPERM := 1
  const ENOENT := 2
  const ENOMEM := 12
  const EACCES := 13
  const EFAULT := 14
  const EEXIST := 17
  const EINVAL := 22
  const ENOSPC := 28

  const TWO32: nat := 0x1_0000_0000

  const MAX_PROCS: nat := 64
  const MAX_FILES: nat := 128
  const MAX_SYSCALLS: nat := 256
  const COMM_LEN: nat := 16
  const PATH_LEN: nat := 256
  const HASH_SIZE: nat := 32

  // System call numbers of x86_64, the architecture the repository builds for.
  const NR_INIT_MODULE := 175
  const NR_DELETE_MODULE := 176
  const NR_KEXEC_LOAD := 246
  const NR_FINIT_MODULE := 313
  const NR_KEXEC_FILE_LOAD := 320

  predicate Distinct<T(==)>(s: seq<T>) {
    forall i, j :: 0 <= i < j < |s| ==> s[i] != s[j]
  }

  function Min(a: int, b: int): int {
    if a < b then a else b
  }

  function Max(a: int, b: int): int {
    if a < b then b else a
  }
}
