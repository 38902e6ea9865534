/** Constants of param.h and fs.h. */
module Params {
  const MAXOPBLOCKS := 10             // blocks an operation may log
  const LOGBLOCKS := MAXOPBLOCKS * 3  // blocks in the log
  const NBUF := MAXOPBLOCKS * 3       // buffers in the cache
  const ROOTINO := 1                  // inode number of the root directory
}
