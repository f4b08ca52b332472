/** Which buffers a RAW block covers, and which sizes have room, byte for byte. */
module RawLaws {
  import opened HeapModel
  import opened HeapSpec
  import opened RawMemory

  /** A RAW block covers a buffer exactly if each of its bytes is one that was asked for. */
  lemma CoversIff(cfg: Config, c: Cell, first: int, bytes: nat)
    requires bytes > 0
    ensures Covers(cfg, c, first, bytes) <==>
              && c.flags == {RAW}
              && forall a {:trigger Asked(cfg, c, a)} :: first <= a < first + bytes ==> Asked(cfg, c, a)
  {
    if forall a {:trigger Asked(cfg, c, a)} :: first <= a < first + bytes ==> Asked(cfg, c, a) {
      assert Asked(cfg, c, first) && Asked(cfg, c, first + bytes - 1);
    }
  }

  /** Byte a is one of those asked for. */
  predicate Asked(cfg: Config, c: Cell, a: int) {
    c.at + cfg.header <= a && a - (c.at + cfg.header) < c.requested
  }

  /** There is room exactly for sizes of 32 bits and more than 0 that, rounded up to 16, a free block or the tail of
      the arena can hold. */
  lemma RoomIff(cfg: Config, v: View, size: int)
    requires Shape(cfg, v.cells, v.list, v.top)
    ensures Room(cfg, v, size) <==>
              && 1 <= size <= 0xFFFF_FFFF
              && var need := (size + 15) / 16 * 16;
                 (exists c :: c in v.cells && IsFree(c) && c.capacity >= need) || v.top + cfg.header + need <= cfg.size
  {
    if 0 < size < WORD {
      AlignExact(size);
      var u := ServedLive(cfg, v, Need(size), size, RAW);
    }
    hide Shape, Served;
  }
}
