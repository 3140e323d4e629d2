/** The "F9" bank-switching cartridge: a ROM image split into 4 KiB banks,
    one of which is visible in the cartridge window 0x1000-0x1FFF of the
    bus. Reading or writing the hotspot 0x0FF9 selects another bank, and
    every switch rewrites the bus's page table for the window. */
module CartF9 {
  import opened MachineTypes
  import opened SystemBus
  import opened Serialization

  const BANK_SIZE: nat := 4096
  /** `myImage` is a fixed buffer of 1 MiB; at most that much ROM is copied. */
  const IMAGE_CAPACITY: nat := 1024 * 1024
  const MAX_BANKS: nat := IMAGE_CAPACITY / BANK_SIZE
  /** The hotspot, compared against the low 12 address bits. */
  const HOTSPOT: u16 := 0x0FF9
  const WINDOW_START: nat := 0x1000
  const BUS_END: nat := 0x2000
  /** `0x1FF9 & ~PAGE_MASK`: the start of the page holding the hotspot. */
  const HOT_PAGE: nat := 0x1FC0
  /** `name()`, the tag of a saved state. */
  const NAME: string := "CartridgeF9"
  /** `myStartBank`. */
  const START_BANK: u16 := 0

  lemma HotPageIsPageOfHotspot()
    ensures HOT_PAGE == PageStart(0x1FF9) && HOT_PAGE % BANK_SIZE == 0xFC0
    ensures HOT_PAGE / PAGE_SIZE == 127 && MAX_BANKS == 256
  {
  }

  // ---------------------------------------------------------------------
  // The page table that `bank` installs

  /** Keys the hotspot loop has written once it reached `upTo`: the raw page
      addresses from HOT_PAGE on, which that loop passes unshifted. */
  function HotspotKeys(upTo: int): set<int>
  {
    set a: int | HOT_PAGE <= a < upTo && a % PAGE_SIZE == 0
  }

  /** The hotspot pages get a code-access base only: the bus must ask the
      cartridge's `peek` for them. */
  function HotspotEntry(offset: nat, addr: nat): PageAccess
  {
    PageAccess(None, Some(offset + addr % BANK_SIZE))
  }

  /** Keys the window loop has written once it reached `upTo`: the page
      indices `addr >> PAGE_SHIFT` of the page starts from WINDOW_START on. */
  function WindowKeys(upTo: int): set<int>
  {
    set p: int | WINDOW_START / PAGE_SIZE <= p < upTo / PAGE_SIZE && InWindow(p, upTo)
  }

  predicate InWindow(page: int, upTo: int)
  {
    WINDOW_START / PAGE_SIZE <= page < upTo / PAGE_SIZE
  }

  /** A window page reads straight from the image, at the bank offset plus
      the low 12 bits of the page's start address. */
  function WindowEntry(offset: nat, page: nat): PageAccess
  {
    var base := offset + (page * PAGE_SIZE) % BANK_SIZE;
    PageAccess(Some(base), Some(base))
  }

  function WithHotspot(pages: map<int, PageAccess>, offset: nat, upTo: int): map<int, PageAccess>
  {
    pages + map a | a in HotspotKeys(upTo) :: HotspotEntry(offset, a)
  }

  function WithWindow(pages: map<int, PageAccess>, offset: nat, upTo: int): map<int, PageAccess>
  {
    pages + map p | p in WindowKeys(upTo) :: WindowEntry(offset, p)
  }

  /** The page table after a switch to `bank`: both loops of `bank` run to
      their ends. */
  function BankPages(pages: map<int, PageAccess>, bank: nat): map<int, PageAccess>
  {
    WithWindow(WithHotspot(pages, bank * BANK_SIZE, BUS_END), bank * BANK_SIZE, HOT_PAGE)
  }

  /** The hotspot loop runs once: HOT_PAGE is the only page start left
      below the end of the bus. */
  lemma HotspotKeysOfBus()
    ensures HotspotKeys(BUS_END) == {HOT_PAGE}
  {
    forall a | a in HotspotKeys(BUS_END)
      ensures a == HOT_PAGE
    {
      assert a == (a / PAGE_SIZE) * PAGE_SIZE;
    }
  }

  lemma HotspotStep(pages: map<int, PageAccess>, offset: nat, addr: nat)
    requires addr % PAGE_SIZE == 0 && HOT_PAGE <= addr
    ensures WithHotspot(pages, offset, addr + PAGE_SIZE)
            == WithHotspot(pages, offset, addr)[addr := HotspotEntry(offset, addr)]
  {
    assert HotspotKeys(addr + PAGE_SIZE) == HotspotKeys(addr) + {addr};
  }

  lemma WindowStep(pages: map<int, PageAccess>, offset: nat, addr: nat)
    requires addr % PAGE_SIZE == 0 && WINDOW_START <= addr
    ensures WithWindow(pages, offset, addr + PAGE_SIZE)
            == WithWindow(pages, offset, addr)[addr / PAGE_SIZE := WindowEntry(offset, addr / PAGE_SIZE)]
  {
    assert WindowKeys(addr + PAGE_SIZE) == WindowKeys(addr) + {addr / PAGE_SIZE};
  }

  /** After a switch to `bank`, every window page below the hotspot page
      reads from and tracks code at `bank * 4096 + (addr & 0xFFF)`, where
      `addr` is the page's start address. */
  lemma BankPagesWindow(pages: map<int, PageAccess>, bank: nat, addr: nat)
    requires WINDOW_START <= addr < HOT_PAGE && addr % PAGE_SIZE == 0
    ensures addr / PAGE_SIZE in BankPages(pages, bank)
    ensures BankPages(pages, bank)[addr / PAGE_SIZE]
            == PageAccess(Some(bank * BANK_SIZE + addr % BANK_SIZE),
                          Some(bank * BANK_SIZE + addr % BANK_SIZE))
  {
    assert addr / PAGE_SIZE in WindowKeys(HOT_PAGE);
    assert (addr / PAGE_SIZE) * PAGE_SIZE == addr;
  }

  /** After a switch to `bank`, the entry stored under the hotspot page's
      raw address has no direct-peek base and tracks code at the bank's
      hotspot page. */
  lemma BankPagesHotspot(pages: map<int, PageAccess>, bank: nat)
    ensures HOT_PAGE in BankPages(pages, bank)
    ensures BankPages(pages, bank)[HOT_PAGE] == PageAccess(None, Some(bank * BANK_SIZE + 0xFC0))
  {
    assert HOT_PAGE in HotspotKeys(BUS_END);
    assert HOT_PAGE !in WindowKeys(HOT_PAGE);
  }

  /** A switch touches no other entry of the table; in particular page 127,
      which holds the hotspot, keeps whatever it held before. */
  lemma BankPagesElsewhere(pages: map<int, PageAccess>, bank: nat, key: int)
    requires key != HOT_PAGE && !(WINDOW_START / PAGE_SIZE <= key < HOT_PAGE / PAGE_SIZE)
    ensures key in BankPages(pages, bank) <==> key in pages
    ensures key in pages ==> BankPages(pages, bank)[key] == pages[key]
  {
    var offset := bank * BANK_SIZE;
    var hot := WithHotspot(pages, offset, BUS_END);
    HotspotKeysOfBus();
    assert key !in HotspotKeys(BUS_END);
    assert key in hot <==> key in pages;
    assert key in pages ==> hot[key] == pages[key];
    assert key !in WindowKeys(HOT_PAGE);
  }

  /** The bus's direct reads through the table a switch to `bank` left
      behind see the bytes of that bank, at the low 12 address bits. */
  lemma WindowReadsBank(pages: map<int, PageAccess>, image: seq<u8>, bank: nat, addr: nat)
    requires WINDOW_START <= addr < HOT_PAGE
    requires bank * BANK_SIZE + BANK_SIZE <= |image|
    ensures DirectPeek(BankPages(pages, bank), image, addr)
            == Some(image[bank * BANK_SIZE + addr % BANK_SIZE])
  {
    var start := PageStart(addr);
    WindowAddressing(addr);
    BankPagesWindow(pages, bank, start);
  }

  /** How the bus splits a window address below the hotspot page: into the
      page of its page start, and an offset into that page which, added to
      the page start's offset in the bank, is the address's offset in the
      bank. */
  lemma WindowAddressing(addr: nat)
    requires WINDOW_START <= addr < HOT_PAGE
    ensures var start := PageStart(addr);
      WINDOW_START <= start < HOT_PAGE && start % PAGE_SIZE == 0
      && (addr % (ADDRESS_MASK + 1)) / PAGE_SIZE == start / PAGE_SIZE
      && start % BANK_SIZE + addr % PAGE_SIZE == addr % BANK_SIZE
  {
    var start := PageStart(addr);
    assert addr % (ADDRESS_MASK + 1) == addr;
    assert addr % BANK_SIZE == addr - BANK_SIZE;
    assert start % BANK_SIZE == start - BANK_SIZE;
  }

  /** The first loop of `bank`: the hotspot pages get only a code-access
      base, and the loop passes their raw address as the key. */
  method MapHotspotPages(sys: System, offset: nat)
    modifies sys
    ensures sys.pages == WithHotspot(old(sys.pages), offset, BUS_END)
  {
    ghost var pages0 := sys.pages;
    var addr := HOT_PAGE;
    assert HotspotKeys(addr) == {};
    assert WithHotspot(pages0, offset, addr).Keys == pages0.Keys;
    while addr < BUS_END
      invariant HOT_PAGE <= addr <= BUS_END && addr % PAGE_SIZE == 0
      invariant sys.pages == WithHotspot(pages0, offset, addr)
    {
      HotspotStep(pages0, offset, addr);
      sys.SetPageAccess(addr, HotspotEntry(offset, addr));
      addr := addr + PAGE_SIZE;
    }
  }

  /** The second loop of `bank`: the window below the hotspot page, keyed
      by page index `addr >> PAGE_SHIFT`. */
  method MapWindowPages(sys: System, offset: nat)
    modifies sys
    ensures sys.pages == WithWindow(old(sys.pages), offset, HOT_PAGE)
  {
    ghost var pages0 := sys.pages;
    var addr := WINDOW_START;
    assert WindowKeys(addr) == {};
    assert WithWindow(pages0, offset, addr).Keys == pages0.Keys;
    while addr < HOT_PAGE
      invariant WINDOW_START <= addr <= HOT_PAGE && addr % PAGE_SIZE == 0
      invariant sys.pages == WithWindow(pages0, offset, addr)
    {
      WindowStep(pages0, offset, addr);
      sys.SetPageAccess(addr / PAGE_SIZE, WindowEntry(offset, addr / PAGE_SIZE));
      addr := addr + PAGE_SIZE;
    }
  }

  // ---------------------------------------------------------------------
  // Hotspot decoding of `peek` and `poke`

  /** The index `peek` uses: `(myCurrentBank << 12) + address & 0xfff`,
      where `+` binds tighter than `&`. */
  function PeekIndexAsWritten(bank: u16, address: u16): nat
  {
    (bank * BANK_SIZE + address) % BANK_SIZE
  }

  /** The bank drops out of `peek`'s index: it always reads bank 0. */
  lemma PeekIndexIgnoresBank(bank: u16, address: u16)
    ensures PeekIndexAsWritten(bank, address) == address % BANK_SIZE
    ensures PeekIndexAsWritten(bank, address) == PeekIndexAsWritten(0, address)
  {
    assert bank * BANK_SIZE + address == bank * BANK_SIZE + (address / BANK_SIZE) * BANK_SIZE + address % BANK_SIZE;
    ModuloShift(bank + address / BANK_SIZE, address % BANK_SIZE);
  }

  lemma ModuloShift(q: nat, r: nat)
    requires r < BANK_SIZE
    ensures (q * BANK_SIZE + r) % BANK_SIZE == r
  {
  }

  /** `peek` switches on the whole address equal to 0x0FF9. */
  predicate PeekTrips(address: u16)
  {
    address == HOTSPOT
  }

  /** `poke` (and the corrected `peek`) switch on the low 12 bits. */
  predicate HotspotAccess(address: u16)
  {
    address % BANK_SIZE == HOTSPOT
  }

  /** A read of the hotspot through the cartridge window (the bus hands
      `peek` the full address, 0x1FF9) does not switch, while a write to
      the same address does. */
  lemma WindowReadMissesHotspot()
    ensures !PeekTrips(0x1FF9) && HotspotAccess(0x1FF9)
    ensures forall a: u16 :: PeekTrips(a) ==> HotspotAccess(a)
  {
  }

  // ---------------------------------------------------------------------
  // The cartridge

  class CartridgeF9 {
    /** `myImage`. */
    const image: array<u8>
    /** `myImageSize`: the size of the ROM given to the constructor. */
    const imageSize: nat
    /** `myCurrentBank`. */
    var currentBank: u16
    /** `myBankChanged`, the debugger's redraw flag. */
    var bankChanged: bool
    /** `bankLocked()`, set by the debugger while it inspects the cartridge. */
    var locked: bool
    /** `mySystem`, null until `install`. */
    var system: System?

    ghost predicate Valid()
      reads this
    {
      image.Length == IMAGE_CAPACITY && BANK_SIZE <= imageSize <= IMAGE_CAPACITY
    }

    /** `bankCount`: the number of whole 4 KiB banks in the ROM. */
    function BankCount(): (r: nat)
      requires BANK_SIZE <= imageSize <= IMAGE_CAPACITY
      ensures 1 <= r <= MAX_BANKS
      ensures r * BANK_SIZE <= imageSize < (r + 1) * BANK_SIZE
    {
      imageSize / BANK_SIZE
    }

    /** The constructor copies the ROM into `myImage`. The bank count is
        `size / 4096`, by which `bank` divides, so the ROM holds at least one
        bank; a ROM larger than the buffer would have `bank` address bytes
        past it. The flags start as the cartridge base class sets them. */
    constructor (rom: seq<u8>)
      requires BANK_SIZE <= |rom| <= IMAGE_CAPACITY
      ensures Valid() && fresh(image)
      ensures image[..|rom|] == rom && imageSize == |rom|
      ensures currentBank == START_BANK && bankChanged && !locked && system == null
    {
      image := new u8[IMAGE_CAPACITY](i requires 0 <= i < IMAGE_CAPACITY => if i < |rom| then rom[i] else 0);
      imageSize := |rom|;
      currentBank := 0;
      bankChanged := true;
      locked := false;
      system := null;
    }

    /** The outcome of `bank(b)` between two states: refused and nothing
        changed while locked, otherwise the wrapped bank selected, the flag
        set and the page table rebuilt for that bank. */
    twostate predicate Switched(b: u16, ok: bool)
      reads this, system
    {
      system == old(system) && system != null && locked == old(locked)
      && (if old(locked) then
            !ok && currentBank == old(currentBank) && bankChanged == old(bankChanged)
            && system.pages == old(system.pages)
          else
            ok && BANK_SIZE <= imageSize && currentBank == b % (imageSize / BANK_SIZE)
            && bankChanged && system.pages == BankPages(old(system.pages), currentBank))
    }

    /** `bank`: selects bank `b` modulo the bank count and rebuilds the page
        table of the window, unless the bank is locked. */
    method Bank(b: u16) returns (ok: bool)
      requires Valid() && system != null
      modifies this`currentBank, this`bankChanged, system
      ensures Valid()
      ensures Switched(b, ok)
      ensures ok ==> currentBank < BankCount()
    {
      if locked {
        return false;
      }
      currentBank := b % (imageSize / BANK_SIZE);
      var offset := currentBank * BANK_SIZE;
      MapHotspotPages(system, offset);
      MapWindowPages(system, offset);
      bankChanged := true;
      return true;
    }

    /** `reset`: back to the start bank. */
    method Reset()
      requires Valid() && system != null
      modifies this`currentBank, this`bankChanged, system
      ensures Valid()
      ensures Switched(START_BANK, !old(locked))
    {
      var _ := Bank(START_BANK);
    }

    /** `install`: remembers the bus and maps the start bank into it. */
    method Install(sys: System)
      requires Valid()
      modifies this`system, this`currentBank, this`bankChanged, sys
      ensures Valid()
      ensures system == sys
      ensures old(locked) ==> currentBank == old(currentBank) && bankChanged == old(bankChanged)
                              && sys.pages == old(sys.pages)
      ensures !old(locked) ==> currentBank == START_BANK && bankChanged
                               && sys.pages == BankPages(old(sys.pages), START_BANK)
    {
      system := sys;
      var _ := Bank(START_BANK);
    }

    /** `peek` as written: a read of the whole address 0x0FF9 first switches
        to `currentBank | byte` (that byte, like the one returned, taken by
        the bank-0 index); the byte returned is bank 0's at the low 12
        address bits whatever bank is selected. */
    method Peek(address: u16) returns (r: u8)
      requires Valid() && system != null
      modifies this`currentBank, this`bankChanged, system
      ensures Valid()
      ensures r == image[address % BANK_SIZE]
      ensures PeekTrips(address) ==> Switched(Or16(old(currentBank), image[HOTSPOT]), !old(locked))
      ensures !PeekTrips(address) ==> currentBank == old(currentBank) && bankChanged == old(bankChanged)
                                      && system.pages == old(system.pages)
    {
      if address == HOTSPOT {
        PeekIndexIgnoresBank(currentBank, address);
        var _ := Bank(Or16(currentBank, image[PeekIndexAsWritten(currentBank, address)]));
      }
      PeekIndexIgnoresBank(currentBank, address);
      r := image[PeekIndexAsWritten(currentBank, address)];
    }

    /** `peek` as intended: the byte comes from the selected bank, it is
        read before the switch, and the hotspot is matched on the low 12
        address bits like `poke` does. */
    method PeekIntended(address: u16) returns (r: u8)
      requires Valid() && system != null && currentBank < BankCount()
      modifies this`currentBank, this`bankChanged, system
      ensures Valid()
      ensures r == image[old(currentBank) * BANK_SIZE + address % BANK_SIZE]
      ensures HotspotAccess(address) ==> Switched(Or16(old(currentBank), r), !old(locked))
      ensures !HotspotAccess(address) ==> currentBank == old(currentBank) && bankChanged == old(bankChanged)
                                          && system.pages == old(system.pages)
    {
      r := image[currentBank * BANK_SIZE + address % BANK_SIZE];
      if address % BANK_SIZE == HOTSPOT {
        var _ := Bank(Or16(currentBank, r));
      }
    }

    /** `poke`: a write whose low 12 address bits are 0x0FF9 selects the
        written value as bank; the write is never consumed. */
    method Poke(address: u16, value: u8) returns (r: bool)
      requires Valid() && system != null
      modifies this`currentBank, this`bankChanged, system
      ensures Valid()
      ensures !r
      ensures HotspotAccess(address) ==> Switched(value, !old(locked))
      ensures !HotspotAccess(address) ==> currentBank == old(currentBank) && bankChanged == old(bankChanged)
                                          && system.pages == old(system.pages)
    {
      if address % BANK_SIZE == HOTSPOT {
        var _ := Bank(value);
      }
      return false;
    }

    /** `getBank`. */
    method GetBank() returns (r: u16)
      ensures r == currentBank
    {
      return currentBank;
    }

    /** `patch`: overwrites one byte of the selected bank, lock or no lock.
        A bank index past the buffer (only `load` under the lock stores one)
        would write outside it, so it is excluded. */
    method Patch(address: u16, value: u8) returns (r: bool)
      requires Valid() && currentBank < MAX_BANKS
      modifies image, this`bankChanged
      ensures Valid()
      ensures r && bankChanged
      ensures image[..] == old(image[..])[currentBank * BANK_SIZE + address % BANK_SIZE := value]
    {
      image[currentBank * BANK_SIZE + address % BANK_SIZE] := value;
      bankChanged := true;
      return true;
    }

    /** `save`: the name tag, then the selected bank. */
    method Save() returns (ok: bool, written: seq<Item>)
      ensures ok && written == Record(NAME, currentBank)
      ensures ReadRecord(written, NAME) == Some(currentBank)
    {
      written := Record(NAME, currentBank);
      RecordRoundTrip(NAME, currentBank, []);
      assert written + [] == written;
      return true, written;
    }

    /** `load`: refused, with nothing changed, unless the stream starts with
        this cartridge's name and a 16-bit bank; otherwise that bank is
        stored as is and `bank` is run on it. The load succeeds even when
        the lock refuses the switch, and then keeps the unwrapped value. */
    method Load(input: seq<Item>) returns (ok: bool)
      requires Valid() && system != null
      modifies this`currentBank, this`bankChanged, system
      ensures Valid()
      ensures ok <==> ReadRecord(input, NAME).Some?
      ensures !ok ==> currentBank == old(currentBank) && bankChanged == old(bankChanged)
                      && system.pages == old(system.pages)
      ensures ok && old(locked) ==> currentBank == ReadRecord(input, NAME).value
                                    && bankChanged == old(bankChanged)
                                    && system.pages == old(system.pages)
      ensures ok && !old(locked) ==> currentBank == ReadRecord(input, NAME).value % BankCount()
                                     && bankChanged
                                     && system.pages == BankPages(old(system.pages), currentBank)
    {
      var stored := ReadRecord(input, NAME);
      if stored.None? {
        return false;
      }
      currentBank := stored.value;
      var _ := Bank(currentBank);
      return true;
    }
  }
}
