/** Constants and states that several parts of the kernel share: param.h, proc.h. */
module Params {

  const MAXOPBLOCKS: nat := 10    // blocks an operation may log
  const LOGSIZE: nat := 30        // MAXOPBLOCKS * 3

  datatype ProcState = UNUSED | EMBRYO | SLEEPING | RUNNABLE | RUNNING | ZOMBIE
}
