/** Constants shared by the kernel modules (kernel/param.h and kernel/fs.h). */
module Params {
  const MAXOPBLOCKS: nat := 10
  const LOGSIZE: nat := MAXOPBLOCKS * 3
  const NBUF: nat := MAXOPBLOCKS * 3
  const BSIZE: nat := 1024
}
