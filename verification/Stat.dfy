/** The file types of stat.h; type 0 marks a free inode. */
module Stat {
  const T_DIR: nat := 1
  const T_FILE: nat := 2
  const T_DEV: nat := 3
}
