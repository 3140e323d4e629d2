/** The part of the emulated memory bus (`System`) that a cartridge writes:
    its page-access table. The bus itself lives in System.hxx/System.cxx,
    which are not part of this model; only the page geometry and the
    table the cartridge fills are kept. */
module SystemBus {
  import opened MachineTypes

  /** Page geometry of the 8 KiB bus. `PAGE_SIZE = 1 << PAGE_SHIFT` and
      `PAGE_MASK = PAGE_SIZE - 1`; the shift is 6, i.e. 64-byte pages. */
  const PAGE_SHIFT: nat := 6
  const PAGE_SIZE: nat := 64
  const PAGE_MASK: nat := PAGE_SIZE - 1
  /** The bus decodes 13 address lines. */
  const ADDRESS_MASK: nat := 0x1FFF

  lemma PageGeometry()
    ensures Pow2(PAGE_SHIFT) == PAGE_SIZE && PAGE_MASK == PAGE_SIZE - 1
  {
    assert Pow2(1) == 2;
    assert Pow2(2) == 4;
    assert Pow2(4) == 16;
  }

  /** `x & ~PAGE_MASK`: the start of the page holding `x`. */
  function PageStart(x: nat): (r: nat)
    ensures r <= x < r + PAGE_SIZE && r % PAGE_SIZE == 0
  {
    x - x % PAGE_SIZE
  }

  /** One page-table entry, as the cartridge hands it to `setPageAccess`.
      The device is always the cartridge and the access type always
      read-only, so neither is kept. `directPeekBase` is an offset into the
      cartridge image (`None` is a null base: the bus must ask the
      cartridge's `peek`), `codeAccessBase` an offset into the cartridge's
      code-access array. */
  datatype PageAccess = PageAccess(directPeekBase: Option<nat>, codeAccessBase: Option<nat>)

  /** The bus: a table from the key given to `setPageAccess` to the entry
      stored under it. */
  class System {
    var pages: map<int, PageAccess>

    constructor ()
      ensures pages == map[]
    {
      pages := map[];
    }

    method SetPageAccess(key: int, access: PageAccess)
      modifies this
      ensures pages == old(pages)[key := access]
    {
      pages := pages[key := access];
    }
  }

  /** How the bus answers a read of `addr` from its table without asking the
      device: the page `(addr & ADDRESS_MASK) >> PAGE_SHIFT` must hold a
      direct peek base, and the byte is `base[addr & PAGE_MASK]`. */
  function DirectPeek(pages: map<int, PageAccess>, image: seq<u8>, addr: nat): Option<u8>
  {
    var page := (addr % (ADDRESS_MASK + 1)) / PAGE_SIZE;
    if page in pages && pages[page].directPeekBase.Some?
       && pages[page].directPeekBase.value + addr % PAGE_SIZE < |image|
    then Some(image[pages[page].directPeekBase.value + addr % PAGE_SIZE])
    else None
  }
}
