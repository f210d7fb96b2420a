// bl-flash.c: erasing the application's sectors, and programming, on an array for the cells from
// MAIN_APP_START_ADDRESS on.
module BlFlash {
  import opened UpdateMachine

  const MAIN_APP_SECTOR_START: nat := 2
  const MAIN_APP_SECTOR_END: nat := 7

  // Where a sector of the STM32F4's flash begins: four of 16 KB, one of 64 KB, then 128 KB each.
  function SectorStart(sector: nat): nat {
    if sector <= 4 then sector * 0x4000 else (sector - 4) * 0x20000
  }

  // The bootloader's own 32 KB are sectors 0 and 1.
  const BOOTLOADER_SIZE: nat := 0x8000

  lemma SectorsOfApplication()
    ensures SectorStart(MAIN_APP_SECTOR_START) == BOOTLOADER_SIZE
    ensures SectorStart(MAIN_APP_SECTOR_END + 1) == BOOTLOADER_SIZE + APP_FLASH_SIZE
  {}

  // Erases one sector of the application.
  method EraseSector(flash: array<bv8>, sector: nat)
    requires flash.Length == APP_FLASH_SIZE && MAIN_APP_SECTOR_START <= sector <= MAIN_APP_SECTOR_END
    modifies flash
    ensures forall i :: 0 <= i < flash.Length ==>
      flash[i] == if SectorStart(sector) <= i + BOOTLOADER_SIZE < SectorStart(sector + 1) then 0xff else old(flash[i])
  {
    var first, end := SectorStart(sector) - BOOTLOADER_SIZE, SectorStart(sector + 1) - BOOTLOADER_SIZE;
    for i := first to end
      invariant forall j :: 0 <= j < flash.Length ==> flash[j] == if first <= j < i then 0xff else old(flash[j])
    {
      flash[i] := 0xff;
    }
  }

  method EraseMainApplication(flash: array<bv8>)
    requires flash.Length == APP_FLASH_SIZE
    modifies flash
    ensures flash[..] == seq(APP_FLASH_SIZE, _ => 0xff)
  {
    for sector := MAIN_APP_SECTOR_START to MAIN_APP_SECTOR_END + 1
      invariant forall j :: 0 <= j < flash.Length && j + BOOTLOADER_SIZE < SectorStart(sector) ==> flash[j] == 0xff
    {
      EraseSector(flash, sector);
    }
  }

  // Programs the bytes one after the other.
  method Write(flash: array<bv8>, offset: nat, data: seq<bv8>)
    modifies flash
    ensures flash[..] == ProgramCells(old(flash[..]), offset, data)
  {
    ghost var cells := ProgramCells(flash[..], offset, data);
    for i := 0 to |data|
      invariant forall j :: 0 <= j < flash.Length ==> flash[j] == if offset <= j < offset + i then cells[j] else old(flash[j])
    {
      if offset + i < flash.Length {
        flash[offset + i] := BitwiseAnd(flash[offset + i], data[i]);
      }
    }
    assert flash[..] == cells;
  }

  // Programming sets no bit: a cell keeps of its old bits those that the new byte has, and a blank cell takes the byte.
  lemma ProgrammingClears(flash: seq<bv8>, offset: nat, data: seq<bv8>, i: nat)
    requires i < |flash|
    ensures var cell := ProgramCells(flash, offset, data)[i];
      if offset <= i < offset + |data| then
        cell == flash[i] & data[i - offset] && cell | flash[i] == flash[i] && (flash[i] == 0xff ==> cell == data[i - offset])
      else cell == flash[i]
  {}
}
