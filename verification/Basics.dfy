/** Types that all parts share. */
module Basics {
  datatype Option<+T> = None | Some(value: T)

  /** A path as the operating system takes it. */
  type FilePath = string

  /** A prefix of a checksum; zero stands for an empty file. */
  newtype Cksum = x: int | 0 <= x < 0x1_0000_0000_0000_0000

  datatype FileInfo = FileInfo(size: nat, mtime: int, sum: Cksum)
}
