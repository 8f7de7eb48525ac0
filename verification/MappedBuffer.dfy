/** The two slots of one pid (src/mapped_buffer.c). */
module MappedBuffers {
  import opened StoredPages
  import opened Paging

  class MappedBuffer {
    const pid: int
    var buffer: Page
    var vma: Option<VmaRef>
    var start: nat
    var cache: Page
    var cacheVma: Option<VmaRef>
    var cacheStart: nat

    ghost function View(): Buffer
      reads this
    {
      Buffer(buffer, vma, start, cache, cacheVma, cacheStart)
    }

    /** The allocation in `add_buffer`. The C code leaves the two start addresses unset; none is read while its
        VMA pointer is NULL. */
    constructor (pid: int)
      ensures this.pid == pid && View() == EmptyBuffer()
    {
      this.pid := pid;
      buffer, vma, start := ZeroPage(), None, 0;
      cache, cacheVma, cacheStart := ZeroPage(), None, 0;
    }

    /** `swap_buffer_cache`. */
    method SwapBufferCache()
      modifies this
      ensures View() == old(View()).Swap()
    {
      var buf := buffer;
      var v := vma;
      var s := start;
      buffer := cache;
      vma := cacheVma;
      start := cacheStart;
      cache := buf;
      cacheVma := v;
      cacheStart := s;
    }
  }
}
