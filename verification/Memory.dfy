/** Memory as the C code sees it, one map per structure field: address to value. An address
    nothing was stored at reads as zero. */
module Memory {
  function At(m: map<int, int>, x: int): int {
    if x in m then m[x] else 0
  }
}
