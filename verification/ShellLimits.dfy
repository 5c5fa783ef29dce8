/** The sizes that dshlib.h fixes for the shells. */
module ShellLimits {
  const EXE_MAX: nat := 64
  const ARG_MAX: nat := 256
  const CMD_MAX: nat := 8
  const CMD_ARGV_MAX: nat := CMD_MAX + 1
  const SH_CMD_MAX: nat := EXE_MAX + ARG_MAX
  const PIPE: string := "|"
}
