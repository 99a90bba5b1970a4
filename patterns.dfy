/**
  The pattern table: each known defect is an (original, replacement) pair of
  byte strings, plus the board identifier allowlist. Everything here is
  constant data; the lemmas state the size and shape facts the dispatcher
  and the patcher rely on.
 */
module Patterns {
  import opened CTypes

  /** One table entry as the patcher receives it: the bytes to look for and
      the bytes written over the first match. */
  datatype Patch = Patch(find: seq<byte>, replace: seq<byte>)

  /** The write stays inside the match, so it stays inside the page. */
  predicate Fits(p: Patch)
  {
    |p.replace| <= |p.find|
  }

  /** The firmware-update skip file, redirected to a path that always exists. */
  const SkipUpdateFilePathOriginal: seq<byte> :=
    CLiteral("/etc/bluetool/SkipBluetoothAutomaticFirmwareUpdate")
  const SkipUpdateFilePathPatched: seq<byte> :=
    CLiteral("/System/Library/CoreServices/boot.efi")

  /** `test eax, eax; je` after the duplicate-address probe becomes `jb`. */
  const SkipAddressCheckOriginal: seq<byte> :=
    [0x48, 0x89, 0xF3, 0xE8, 0xE3, 0xF3, 0xFE, 0xFF, 0x85, 0xC0, 0x74, 0x1D]
  const SkipAddressCheckPatched: seq<byte> :=
    [0x48, 0x89, 0xF3, 0xE8, 0xE3, 0xF3, 0xFE, 0xFF, 0x85, 0xC0, 0x72, 0x1D]

  /** `cmp edx, 0xA5C` (the Broadcom vendor id) then `je` (0x74) becomes
      `jmp`. */
  const VendorCheckOriginal: seq<byte> := [0x81, 0xFA, 0x5C, 0x0A, 0x00, 0x00, 0x74]
  const VendorCheckPatched: seq<byte>  := [0x81, 0xFA, 0x5C, 0x0A, 0x00, 0x00, 0xEB]

  /** `cmp ecx, 1999` then `jb` becomes `jmp`. */
  const BadChipsetCheckOriginal: seq<byte> := [0x81, 0xF9, 0xCF, 0x07, 0x00, 0x00, 0x72]
  const BadChipsetCheckPatched: seq<byte>  := [0x81, 0xF9, 0xCF, 0x07, 0x00, 0x00, 0xEB]

  /** `sizeof("Mac-F22586C8")`, terminator included. */
  const BoardIdSize: nat := |CLiteral("Mac-F22586C8")|

  /** Boards whose Bluetooth is on USB already; each entry is a
      `char[BoardIdSize]`. */
  const BoardIdsWithUSBBluetooth: seq<seq<byte>> := [CLiteral("Mac-F22586C8")]

  const SkipUpdatePatch: Patch := Patch(SkipUpdateFilePathOriginal, SkipUpdateFilePathPatched)
  const SkipAddressPatch: Patch := Patch(SkipAddressCheckOriginal, SkipAddressCheckPatched)
  const VendorPatch: Patch := Patch(VendorCheckOriginal, VendorCheckPatched)
  const BadChipsetPatch: Patch := Patch(BadChipsetCheckOriginal, BadChipsetCheckPatched)

  /** `a` and `b` have one length and differ at position `i` only. */
  predicate DiffersOnlyAt(a: seq<byte>, b: seq<byte>, i: nat)
  {
    && |a| == |b| && i < |a|
    && a[i] != b[i]
    && forall j :: 0 <= j < |a| && j != i ==> a[j] == b[j]
  }

  /** The three opcode patches keep the length of their original and flip
      exactly one byte: a conditional jump's opcode. */
  lemma OpcodePatchesFlipOneByte()
    ensures |VendorCheckOriginal| == 7 && DiffersOnlyAt(VendorCheckOriginal, VendorCheckPatched, 6)
    ensures VendorCheckOriginal[6] == 0x74 && VendorCheckPatched[6] == 0xEB
    ensures |BadChipsetCheckOriginal| == 7 && DiffersOnlyAt(BadChipsetCheckOriginal, BadChipsetCheckPatched, 6)
    ensures BadChipsetCheckOriginal[6] == 0x72 && BadChipsetCheckPatched[6] == 0xEB
    ensures |SkipAddressCheckOriginal| == 12 && DiffersOnlyAt(SkipAddressCheckOriginal, SkipAddressCheckPatched, 10)
    ensures SkipAddressCheckOriginal[10] == 0x74 && SkipAddressCheckPatched[10] == 0x72
  {
  }

  /** The two path literals differ in length: 51 and 38 bytes with their
      terminators, so the replacement is shorter than the match. */
  lemma SkipUpdateSizes()
    ensures |SkipUpdateFilePathOriginal| == 51
    ensures |SkipUpdateFilePathPatched| == 38
    ensures SkipUpdateFilePathPatched[37] == NulByte
  {
  }

  /** The last 13 bytes of the original path, which the shorter replacement
      does not reach: `"rmwareUpdate"` and its terminator. */
  lemma SkipUpdateTail()
    ensures SkipUpdateFilePathOriginal[38..] == CLiteral("rmwareUpdate")
  {
    var s, t := "/etc/bluetool/SkipBluetoothAutomaticFirmwareUpdate", "rmwareUpdate";
    assert s[38..] == t;
  }

  /** Read as a C string, the replacement is the boot loader's path. */
  lemma SkipUpdatePatchedReadsAsPath()
    ensures CStr(SkipUpdateFilePathPatched, NulByte) == Ascii("/System/Library/CoreServices/boot.efi")
    ensures |CStr(SkipUpdateFilePathPatched, NulByte)| == 37
  {
    CLiteralCStr("/System/Library/CoreServices/boot.efi");
  }

  /** The one allowlist entry, read as a C string, is `Mac-F22586C8`. */
  lemma {:induction false} AllowlistEntryReads()
    ensures |BoardIdsWithUSBBluetooth| == 1
    ensures CStr(BoardIdsWithUSBBluetooth[0], NulByte) == Ascii("Mac-F22586C8")
    ensures |Ascii("Mac-F22586C8")| + 1 == BoardIdSize
  {
    CLiteralCStr("Mac-F22586C8");
  }

  /** Every table entry keeps its write inside its match; the board
      identifier entry is exactly `BoardIdSize` bytes. */
  lemma TableFits()
    ensures Fits(SkipUpdatePatch) && Fits(SkipAddressPatch)
    ensures Fits(VendorPatch) && Fits(BadChipsetPatch)
    ensures BoardIdSize == 13
    ensures |BoardIdsWithUSBBluetooth| == 1 && |BoardIdsWithUSBBluetooth[0]| == BoardIdSize
    ensures BoardIdsWithUSBBluetooth[0][BoardIdSize - 1] == NulByte
  {
  }
}
